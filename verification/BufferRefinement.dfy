/** The capped, pruned buffers refine the unbounded event history: they lose no unexpired
    event among the last 1000 arrivals of a key, and invent none. */
module BufferRefinement {
  import opened Sequences
  import opened Domain
  import opened Matching
  import opened EngineModel
  import opened Reachable

  predicate Expired(e: Event, clock: int) {
    e.ts <= clock - BUFFER_WINDOW
  }

  /** `b` is `h` with some events removed, all of them expired by `clock`. */
  ghost predicate Sparse(b: seq<Event>, h: seq<Event>, clock: int)
    decreases |h|
  {
    if |h| == 0 then |b| == 0
    else
      || (|b| > 0 && b[0] == h[0] && Sparse(b[1..], h[1..], clock))
      || (Expired(h[0], clock) && Sparse(b, h[1..], clock))
  }

  lemma {:induction false} SparseSelf(h: seq<Event>, clock: int)
    ensures Sparse(h, h, clock)
  {
    if |h| != 0 { SparseSelf(h[1..], clock); }
  }

  lemma {:induction false} SparseLater(b: seq<Event>, h: seq<Event>, clock: int, later: int)
    requires Sparse(b, h, clock) && clock <= later
    ensures Sparse(b, h, later)
    decreases |h|
  {
    if |h| != 0 {
      if |b| > 0 && b[0] == h[0] && Sparse(b[1..], h[1..], clock) {
        SparseLater(b[1..], h[1..], clock, later);
      } else {
        SparseLater(b, h[1..], clock, later);
      }
    }
  }

  lemma {:induction false} SparseSnoc(b: seq<Event>, h: seq<Event>, e: Event, clock: int)
    requires Sparse(b, h, clock)
    ensures Sparse(b + [e], h + [e], clock)
    decreases |h|
  {
    if |h| == 0 {
      assert b + [e] == [e] && h + [e] == [e];
      assert [e][1..] == [];
      assert Sparse([e], [e], clock);
    } else {
      assert (h + [e])[1..] == h[1..] + [e];
      if |b| > 0 && b[0] == h[0] && Sparse(b[1..], h[1..], clock) {
        assert (b + [e])[1..] == b[1..] + [e];
        SparseSnoc(b[1..], h[1..], e, clock);
      } else {
        SparseSnoc(b, h[1..], e, clock);
      }
    }
  }

  lemma FilterCons(s: seq<Event>, p: Event -> bool)
    requires |s| > 0
    ensures Filter(s, p) == if p(s[0]) then [s[0]] + Filter(s[1..], p) else Filter(s[1..], p)
  {
    var head, rest := s[0], s[1..];
    assert s == [head] + rest;
    FilterConcat([head], rest, p);
    FilterOne(head, p);
  }

  /** From `clock` on, the sparse copy and the original look the same. */
  lemma {:induction false} SparseFresh(b: seq<Event>, h: seq<Event>, clock: int, now: int)
    requires Sparse(b, h, clock) && clock <= now
    ensures Filter(b, Fresh(now)) == Filter(h, Fresh(now))
    decreases |h|
  {
    if |h| != 0 {
      FilterCons(h, Fresh(now));
      if |b| > 0 && b[0] == h[0] && Sparse(b[1..], h[1..], clock) {
        FilterCons(b, Fresh(now));
        SparseFresh(b[1..], h[1..], clock, now);
      } else {
        SparseFresh(b, h[1..], clock, now);
      }
    }
  }

  lemma {:induction false} SparsePrune(b: seq<Event>, h: seq<Event>, clock: int, now: int)
    requires Sparse(b, h, clock) && clock <= now
    ensures Sparse(Filter(b, Fresh(now)), h, now)
    decreases |h|
  {
    if |h| != 0 {
      if |b| > 0 && b[0] == h[0] && Sparse(b[1..], h[1..], clock) {
        FilterCons(b, Fresh(now));
        SparsePrune(b[1..], h[1..], clock, now);
        if Fresh(now)(b[0]) {
          assert ([b[0]] + Filter(b[1..], Fresh(now)))[1..] == Filter(b[1..], Fresh(now));
        }
      } else {
        SparsePrune(b, h[1..], clock, now);
      }
    }
  }

  /** Dropping the oldest buffered event cuts the history right after it. */
  lemma {:induction false} SparseDrop(b: seq<Event>, h: seq<Event>, clock: int) returns (i: nat)
    requires Sparse(b, h, clock) && |b| > 0
    ensures i < |h| && Sparse(b[1..], h[i + 1..], clock) && |b| <= |h| - i
    decreases |h|
  {
    if |b| > 0 && b[0] == h[0] && Sparse(b[1..], h[1..], clock) {
      i := 0;
      SparseLength(b[1..], h[1..], clock);
    } else {
      var j := SparseDrop(b, h[1..], clock);
      i := j + 1;
      assert h[1..][j + 1..] == h[i + 1..];
    }
  }

  lemma {:induction false} SparseLength(b: seq<Event>, h: seq<Event>, clock: int)
    requires Sparse(b, h, clock)
    ensures |b| <= |h|
    decreases |h|
  {
    if |h| != 0 {
      if |b| > 0 && b[0] == h[0] && Sparse(b[1..], h[1..], clock) {
        SparseLength(b[1..], h[1..], clock);
      } else {
        SparseLength(b, h[1..], clock);
      }
    }
  }

  // ---- the invariant -----------------------------------------------------------------------

  /** The buffer of `key` is a sparse copy of its history from position `cut` on, and the cut
      spares the last 1000 arrivals. */
  ghost predicate RefinedFrom(buf: seq<Event>, h: seq<Event>, clock: int, cut: nat) {
    && cut <= |h|
    && (cut == 0 || cut + 1000 <= |h|)
    && Sparse(buf, h[cut..], clock)
    && |buf| <= 1000
  }

  ghost predicate Refined(buf: seq<Event>, h: seq<Event>, clock: int) {
    exists cut: nat :: RefinedFrom(buf, h, clock, cut)
  }

  ghost predicate RefinementInv(st: State) {
    forall key :: Refined(Buffered(st.buffers, key), History(st, key), st.trace.clock)
  }

  lemma RefinedPush(buf: seq<Event>, h: seq<Event>, e: Event, clock: int)
    requires Refined(buf, h, clock)
    ensures Refined(Pushed(buf, e), h + [e], clock)
  {
    var cut: nat :| RefinedFrom(buf, h, clock, cut);
    if |buf| >= MAX_BUFFER_PER_KEY {
      var i := SparseDrop(buf, h[cut..], clock);
      var cut' := cut + i + 1;
      assert h[cut..][i + 1..] == h[cut'..];
      SparseSnoc(buf[1..], h[cut'..], e, clock);
      assert (h + [e])[cut'..] == h[cut'..] + [e];
      assert RefinedFrom(Pushed(buf, e), h + [e], clock, cut');
    } else {
      SparseSnoc(buf, h[cut..], e, clock);
      assert (h + [e])[cut..] == h[cut..] + [e];
      assert RefinedFrom(Pushed(buf, e), h + [e], clock, cut);
    }
  }

  lemma RefinedPrune(buf: seq<Event>, h: seq<Event>, clock: int, now: int)
    requires Refined(buf, h, clock) && clock <= now
    ensures Refined(Filter(buf, Fresh(now)), h, now)
    ensures Refined(buf, h, now)
  {
    var cut: nat :| RefinedFrom(buf, h, clock, cut);
    SparsePrune(buf, h[cut..], clock, now);
    SparseLater(buf, h[cut..], clock, now);
    FilterElements(buf, Fresh(now));
    assert RefinedFrom(Filter(buf, Fresh(now)), h, now, cut);
    assert RefinedFrom(buf, h, now, cut);
  }

  lemma RefineIngest(st: State, e: Event)
    requires RefinementInv(st)
    ensures RefinementInv(IngestStep(st, e))
  {
    var st' := IngestStep(st, e);
    forall key ensures Refined(Buffered(st'.buffers, key), History(st', key), st'.trace.clock) {
      HistoryGrows(st, e, key);
      assert Refined(Buffered(st.buffers, key), History(st, key), st.trace.clock);
      if key == BufferKey(e) {
        RefinedPush(Buffered(st.buffers, key), History(st, key), e, st.trace.clock);
      } else {
        assert History(st, key) + [] == History(st, key);
      }
    }
  }

  lemma RefinePrune(st: State, now: int)
    requires RefinementInv(st) && st.trace.clock <= now
    ensures RefinementInv(PruneStep(st, now))
  {
    var st' := PruneStep(st, now);
    forall key ensures Refined(Buffered(st'.buffers, key), History(st', key), now) {
      assert Refined(Buffered(st.buffers, key), History(st, key), st.trace.clock);
      RefinedPrune(Buffered(st.buffers, key), History(st, key), st.trace.clock, now);
      assert Buffered(st'.buffers, key) == Filter(Buffered(st.buffers, key), Fresh(now));
    }
  }

  lemma RefineLater(st: State, st': State)
    requires RefinementInv(st) && st'.buffers == st.buffers && st'.trace.arrivals == st.trace.arrivals
    requires st.trace.clock <= st'.trace.clock
    ensures RefinementInv(st')
  {
    forall key ensures Refined(Buffered(st'.buffers, key), History(st', key), st'.trace.clock) {
      assert Refined(Buffered(st.buffers, key), History(st, key), st.trace.clock);
      RefinedPrune(Buffered(st.buffers, key), History(st, key), st.trace.clock, st'.trace.clock);
    }
  }

  lemma RefineEvaluate(rules: seq<Rule>, st: State, now: int, keyOrder: seq<string>, orders: seq<seq<string>>)
    requires RefinementInv(st) && st.trace.clock <= now && |orders| == |rules|
    ensures RefinementInv(EvaluateStep(rules, st, now, keyOrder, orders))
  {
    MatchesKeepBuffers(Begin(rules, st, now), TickMatches(rules, st.buffers, keyOrder, orders, now), now);
    RefineLater(st, EvaluateStep(rules, st, now, keyOrder, orders));
  }

  lemma RefineStep(rules: seq<Rule>, st: State, step: Step)
    requires RefinementInv(st) && Enabled(rules, st, step)
    ensures RefinementInv(Next(rules, st, step))
  {
    match step
    case Ingest(e) => RefineIngest(st, e);
    case Prune(now) => RefinePrune(st, now);
    case Evaluate(now, keyOrder, orders) => RefineEvaluate(rules, st, now, keyOrder, orders);
    case _ => RefineLater(st, Next(rules, st, step));
  }

  lemma {:induction false} RefineRun(rules: seq<Rule>, st: State, steps: seq<Step>)
    requires RefinementInv(st) && ValidRun(rules, st, steps)
    ensures RefinementInv(Run(rules, st, steps))
    decreases |steps|
  {
    if |steps| != 0 {
      RefineStep(rules, st, steps[0]);
      RefineRun(rules, Next(rules, st, steps[0]), steps[1..]);
    }
  }

  lemma RefinementInitially()
    ensures RefinementInv(INITIAL)
  {
    forall key ensures Refined(Buffered(INITIAL.buffers, key), History(INITIAL, key), INITIAL.trace.clock) {
      assert RefinedFrom([], [], 0, 0);
    }
  }

  /** In every reachable state and at any later time, what is unexpired in a buffer is exactly
      what is unexpired in some suffix of its key's history, and that suffix contains at
      least the last 1000 arrivals. */
  lemma BufferIsHistorySuffix(rules: seq<Rule>, steps: seq<Step>, key: string, now: int) returns (cut: nat)
    requires ValidRun(rules, INITIAL, steps) && now >= Run(rules, INITIAL, steps).trace.clock
    ensures var st := Run(rules, INITIAL, steps);
            var h := History(st, key);
            && |Buffered(st.buffers, key)| <= 1000
            && cut <= |h| && (cut == 0 || cut + 1000 <= |h|)
            && Filter(Buffered(st.buffers, key), Fresh(now)) == Filter(h[cut..], Fresh(now))
  {
    RefinementInitially();
    RefineRun(rules, INITIAL, steps);
    cut := SuffixOf(Run(rules, INITIAL, steps), key, now);
  }

  lemma SuffixOf(st: State, key: string, now: int) returns (cut: nat)
    requires RefinementInv(st) && now >= st.trace.clock
    ensures var h := History(st, key);
            && |Buffered(st.buffers, key)| <= 1000
            && cut <= |h| && (cut == 0 || cut + 1000 <= |h|)
            && Filter(Buffered(st.buffers, key), Fresh(now)) == Filter(h[cut..], Fresh(now))
  {
    var h := History(st, key);
    assert Refined(Buffered(st.buffers, key), h, st.trace.clock);
    var c: nat :| RefinedFrom(Buffered(st.buffers, key), h, st.trace.clock, c);
    SparseFresh(Buffered(st.buffers, key), h[c..], st.trace.clock, now);
    cut := c;
  }

  // ---- firing on the buffers -------------------------------------------------------------

  function Last(h: seq<Event>, n: nat): seq<Event> {
    if |h| <= n then h else h[|h| - n..]
  }

  ghost function KeysSeen(st: State): set<string> {
    set e | e in st.trace.arrivals :: BufferKey(e)
  }

  /** The unbounded per-key history, and its last arrivals, as if they were buffers. */
  ghost function FullHistory(st: State): map<string, seq<Event>> {
    map k | k in KeysSeen(st) :: History(st, k)
  }

  ghost function RecentHistory(st: State): map<string, seq<Event>> {
    map k | k in KeysSeen(st) :: Last(History(st, k), 1000)
  }

  ghost predicate WellKeyed(m: map<string, seq<Event>>) {
    forall k, e :: k in m && e in m[k] ==> BufferKey(e) == k
  }

  function FreshCount(m: map<string, seq<Event>>, k: string, now: int, e: Event): nat {
    multiset(Filter(Buffered(m, k), Fresh(now)))[e]
  }

  /** An event occurs in a tenant's snapshot as often as it is fresh under its own key. */
  lemma {:induction false} SnapshotCount(m: map<string, seq<Event>>, o: seq<string>, t: string, now: int, e: Event)
    requires WellKeyed(m) && Distinct(o)
    ensures multiset(Snapshot(m, o, t, now))[e]
            == if BufferKey(e) in o && TenantOfKey(BufferKey(e)) == Some(t) then FreshCount(m, BufferKey(e), now, e)
               else 0
  {
    if |o| != 0 {
      var init, k := o[..|o| - 1], o[|o| - 1];
      SnapshotCount(m, init, t, now, e);
      assert o == init + [k];
      assert k !in init;
      FilterElements(Buffered(m, k), Fresh(now));
      if BufferKey(e) != k {
        assert e !in Filter(Buffered(m, k), Fresh(now));
        assert FreshCount(m, k, now, e) == 0;
      }
    }
  }

  ghost predicate FewerFresh(m1: map<string, seq<Event>>, m2: map<string, seq<Event>>, now: int) {
    forall k, e :: FreshCount(m1, k, now, e) <= FreshCount(m2, k, now, e)
  }

  lemma SnapshotMonotone(m1: map<string, seq<Event>>, o1: seq<string>, m2: map<string, seq<Event>>, o2: seq<string>,
                         t: string, now: int)
    requires WellKeyed(m1) && WellKeyed(m2) && FewerFresh(m1, m2, now)
    requires Enumerates(o1, m1.Keys) && Enumerates(o2, m2.Keys)
    ensures multiset(Snapshot(m1, o1, t, now)) <= multiset(Snapshot(m2, o2, t, now))
  {
    forall e ensures multiset(Snapshot(m1, o1, t, now))[e] <= multiset(Snapshot(m2, o2, t, now))[e] {
      SnapshotCount(m1, o1, t, now, e);
      SnapshotCount(m2, o2, t, now, e);
      var k := BufferKey(e);
      assert FreshCount(m1, k, now, e) <= FreshCount(m2, k, now, e);
      assert k !in m2 ==> FreshCount(m2, k, now, e) == 0;
    }
  }

  /** Whether a rule fires for a tenant when the buffers are `m`, ranged over in order `o`. */
  predicate FiresOn(m: map<string, seq<Event>>, o: seq<string>, t: string, rule: Rule, now: int) {
    MatchRule(rule, WindowOf(Task(rule, t, Snapshot(m, o, t, now)), now)).Some?
  }

  lemma FiresMonotone(m1: map<string, seq<Event>>, o1: seq<string>, m2: map<string, seq<Event>>, o2: seq<string>,
                      t: string, rule: Rule, now: int)
    requires WellKeyed(m1) && WellKeyed(m2) && FewerFresh(m1, m2, now)
    requires Enumerates(o1, m1.Keys) && Enumerates(o2, m2.Keys)
    requires FiresOn(m1, o1, t, rule, now)
    ensures FiresOn(m2, o2, t, rule, now)
  {
    SnapshotMonotone(m1, o1, m2, o2, t, now);
    FilterMonotone(Snapshot(m1, o1, t, now), Snapshot(m2, o2, t, now), FreshAfter(now - rule.window));
    MatchRuleMonotone(rule, WindowOf(Task(rule, t, Snapshot(m1, o1, t, now)), now),
                      WindowOf(Task(rule, t, Snapshot(m2, o2, t, now)), now));
  }

  lemma SuffixCounts(h: seq<Event>, c: nat, d: nat, p: Event -> bool, e: Event)
    requires c <= d <= |h|
    ensures multiset(Filter(h[d..], p))[e] <= multiset(Filter(h[c..], p))[e]
  {
    assert h[c..] == h[c..d] + h[d..];
    FilterConcat(h[c..d], h[d..], p);
  }

  lemma HistoryElements(st: State, key: string)
    ensures forall e :: e in History(st, key) <==> e in st.trace.arrivals && BufferKey(e) == key
  {
    FilterElements(st.trace.arrivals, KeyIs(key));
  }

  lemma HistoryBuffered(st: State, key: string)
    ensures Buffered(FullHistory(st), key) == History(st, key)
    ensures Buffered(RecentHistory(st), key) == Last(History(st, key), 1000)
  {
    HistoryElements(st, key);
    if key !in KeysSeen(st) {
      FilterNone(st.trace.arrivals, KeyIs(key));
    }
  }

  lemma HistoriesWellKeyed(st: State)
    ensures WellKeyed(FullHistory(st)) && WellKeyed(RecentHistory(st))
  {
    forall k | k in KeysSeen(st) ensures forall e :: e in History(st, k) ==> BufferKey(e) == k {
      HistoryElements(st, k);
    }
  }

  lemma CountsSandwiched(st: State, key: string, now: int, e: Event)
    requires RefinementInv(st) && now >= st.trace.clock
    ensures FreshCount(RecentHistory(st), key, now, e) <= FreshCount(st.buffers, key, now, e)
    ensures FreshCount(st.buffers, key, now, e) <= FreshCount(FullHistory(st), key, now, e)
  {
    var h := History(st, key);
    var cut := SuffixOf(st, key, now);
    HistoryBuffered(st, key);
    var d := if |h| <= 1000 then 0 else |h| - 1000;
    assert Last(h, 1000) == h[d..];
    SuffixCounts(h, cut, d, Fresh(now), e);
    SuffixCounts(h, 0, cut, Fresh(now), e);
    assert h[0..] == h;
  }

  lemma Sandwiched(st: State, now: int)
    requires RefinementInv(st) && now >= st.trace.clock
    ensures FewerFresh(RecentHistory(st), st.buffers, now)
    ensures FewerFresh(st.buffers, FullHistory(st), now)
  {
    forall k, e ensures FreshCount(RecentHistory(st), k, now, e) <= FreshCount(st.buffers, k, now, e)
                ensures FreshCount(st.buffers, k, now, e) <= FreshCount(FullHistory(st), k, now, e)
    {
      CountsSandwiched(st, k, now, e);
    }
  }

  /** Every event with 1000 or more later arrivals on its key has expired. */
  ghost predicate NothingCutEarly(st: State, now: int) {
    forall key, i :: 0 <= i < |History(st, key)| - 1000 ==> !Fresh(now)(History(st, key)[i])
  }

  lemma CutsHarmless(st: State, now: int)
    requires NothingCutEarly(st, now)
    ensures FewerFresh(FullHistory(st), RecentHistory(st), now)
  {
    forall k, e ensures FreshCount(FullHistory(st), k, now, e) <= FreshCount(RecentHistory(st), k, now, e) {
      var h := History(st, k);
      HistoryBuffered(st, k);
      forall i | 0 <= i < |h| - 1000 ensures !Fresh(now)(h[i]) {
        assert !Fresh(now)(History(st, k)[i]);
      }
      LastFresh(h, 1000, Fresh(now));
    }
  }

  /** When everything before the last `n` fails a test, filtering sees only those. */
  lemma LastFresh(h: seq<Event>, n: nat, p: Event -> bool)
    requires forall i :: 0 <= i < |h| - n ==> !p(h[i])
    ensures Filter(h, p) == Filter(Last(h, n), p)
  {
    if |h| > n {
      var d := |h| - n;
      assert h == h[..d] + h[d..];
      FilterConcat(h[..d], h[d..], p);
      FilterNone(h[..d], p);
    }
  }

  /** A rule that fires on the last arrivals fires on the buffers; one that fires on the
      buffers fires on the unbounded history; and when every event the cap could have
      removed has expired, all three agree. */
  lemma FiringRefinesHistory(rules: seq<Rule>, steps: seq<Step>, t: string, rule: Rule, now: int,
                             oRecent: seq<string>, oBuffers: seq<string>, oFull: seq<string>)
    requires ValidRun(rules, INITIAL, steps) && ColonFreeInputs(steps) && now >= Run(rules, INITIAL, steps).trace.clock
    requires var st := Run(rules, INITIAL, steps);
             && Enumerates(oRecent, RecentHistory(st).Keys)
             && Enumerates(oBuffers, st.buffers.Keys)
             && Enumerates(oFull, FullHistory(st).Keys)
    ensures var st := Run(rules, INITIAL, steps);
            var recent := FiresOn(RecentHistory(st), oRecent, t, rule, now);
            var buffered := FiresOn(st.buffers, oBuffers, t, rule, now);
            var full := FiresOn(FullHistory(st), oFull, t, rule, now);
            && (recent ==> buffered)
            && (buffered ==> full)
            && (NothingCutEarly(st, now) ==> recent == buffered == full)
  {
    RefinementInitially();
    RefineRun(rules, INITIAL, steps);
    BufferRun(rules, INITIAL, steps);
    var st := Run(rules, INITIAL, steps);
    FiringSandwich(st, t, rule, now, oRecent, oBuffers, oFull);
  }

  lemma FiringSandwich(st: State, t: string, rule: Rule, now: int,
                       oRecent: seq<string>, oBuffers: seq<string>, oFull: seq<string>)
    requires RefinementInv(st) && BufferInv(st) && now >= st.trace.clock
    requires Enumerates(oRecent, RecentHistory(st).Keys)
    requires Enumerates(oBuffers, st.buffers.Keys)
    requires Enumerates(oFull, FullHistory(st).Keys)
    ensures FiresOn(RecentHistory(st), oRecent, t, rule, now) ==> FiresOn(st.buffers, oBuffers, t, rule, now)
    ensures FiresOn(st.buffers, oBuffers, t, rule, now) ==> FiresOn(FullHistory(st), oFull, t, rule, now)
    ensures NothingCutEarly(st, now) && FiresOn(FullHistory(st), oFull, t, rule, now) ==>
              FiresOn(RecentHistory(st), oRecent, t, rule, now)
  {
    HistoriesWellKeyed(st);
    Sandwiched(st, now);
    if FiresOn(RecentHistory(st), oRecent, t, rule, now) {
      FiresMonotone(RecentHistory(st), oRecent, st.buffers, oBuffers, t, rule, now);
    }
    if FiresOn(st.buffers, oBuffers, t, rule, now) {
      FiresMonotone(st.buffers, oBuffers, FullHistory(st), oFull, t, rule, now);
    }
    if NothingCutEarly(st, now) && FiresOn(FullHistory(st), oFull, t, rule, now) {
      CutsHarmless(st, now);
      FiresMonotone(FullHistory(st), oFull, RecentHistory(st), oRecent, t, rule, now);
    }
  }
}
