/** Go ranges over maps in an arbitrary order, and `matchRule` deduplicates by first
    occurrence; yet a tick's verdicts, fingerprints and event sets do not depend on it. */
module OrderIndependence {
  import opened Sequences
  import opened Strings
  import opened Domain
  import opened Matching
  import opened Fingerprints
  import opened EngineModel
  import opened Reachable
  import opened Ticks
  import opened CatchAllRule
  import opened Clashes

  // ---- sequences that differ only in how event types interleave ---------------------------

  ghost predicate SameByType(a: seq<Event>, b: seq<Event>) {
    forall ty :: Filter(a, OfType(ty)) == Filter(b, OfType(ty))
  }

  lemma SameByTypePermutes(a: seq<Event>, b: seq<Event>)
    requires SameByType(a, b)
    ensures multiset(a) == multiset(b)
    ensures |a| == |b|
    ensures forall e :: e in a <==> e in b
  {
    forall e ensures multiset(a)[e] == multiset(b)[e] {
      assert Filter(a, OfType(e.etype)) == Filter(b, OfType(e.etype));
      FilterCounts(a, OfType(e.etype), e);
      FilterCounts(b, OfType(e.etype), e);
    }
    assert multiset(a) == multiset(b);
    SameElements(a, b);
  }

  lemma SameByTypeFilter(a: seq<Event>, b: seq<Event>, p: Event -> bool)
    requires SameByType(a, b)
    ensures SameByType(Filter(a, p), Filter(b, p))
  {
    forall ty ensures Filter(Filter(a, p), OfType(ty)) == Filter(Filter(b, p), OfType(ty)) {
      FilterCommute(a, p, OfType(ty));
      FilterCommute(b, p, OfType(ty));
      assert Filter(a, OfType(ty)) == Filter(b, OfType(ty));
    }
  }

  lemma SameByTypeConcat(a: seq<Event>, b: seq<Event>, c: seq<Event>, d: seq<Event>)
    requires SameByType(a, b) && SameByType(c, d)
    ensures SameByType(a + c, b + d)
  {
    forall ty ensures Filter(a + c, OfType(ty)) == Filter(b + d, OfType(ty)) {
      FilterConcat(a, c, OfType(ty));
      FilterConcat(b, d, OfType(ty));
      assert Filter(a, OfType(ty)) == Filter(b, OfType(ty));
      assert Filter(c, OfType(ty)) == Filter(d, OfType(ty));
    }
  }

  lemma {:induction false} SameContributing(conditions: seq<Condition>, a: seq<Event>, b: seq<Event>)
    requires SameByType(a, b)
    ensures SameByType(Contributing(conditions, a), Contributing(conditions, b))
  {
    if |conditions| != 0 {
      var n := |conditions| - 1;
      SameContributing(conditions[..n], a, b);
      SameByTypeFilter(a, b, Satisfies(conditions[n]));
      SameByTypeConcat(Contributing(conditions[..n], a), Contributing(conditions[..n], b),
                       Hits(conditions[n], a), Hits(conditions[n], b));
    }
  }

  /** Events of different types never share an ID. */
  ghost predicate IdsTyped(s: seq<Event>) {
    forall e, f :: e in s && f in s && e.id == f.id ==> e.etype == f.etype
  }

  lemma IdsOfType(s: seq<Event>, last: Event)
    requires IdsTyped(s + [last])
    ensures last.id in Ids(s) <==> last.id in Ids(Filter(s, OfType(last.etype)))
  {
    FilterElements(s, OfType(last.etype));
    if last.id in Ids(s) {
      var e := IdWitness(s, last.id);
      assert e in s + [last] && last in s + [last];
      IdsContain(Filter(s, OfType(last.etype)));
    }
    if last.id in Ids(Filter(s, OfType(last.etype))) {
      var e := IdWitness(Filter(s, OfType(last.etype)), last.id);
      IdsContain(s);
    }
  }

  lemma DedupSnoc(s: seq<Event>, last: Event)
    ensures DedupById(s + [last]) == if last.id in Ids(s) then DedupById(s) else DedupById(s) + [last]
  {
    assert (s + [last])[..|s|] == s;
  }

  /** Deduplication by first occurrence acts on each type separately. */
  lemma {:induction false} DedupByType(s: seq<Event>, ty: string)
    requires IdsTyped(s)
    ensures Filter(DedupById(s), OfType(ty)) == DedupById(Filter(s, OfType(ty)))
  {
    if |s| != 0 {
      var init, last := s[..|s| - 1], s[|s| - 1];
      assert s == init + [last];
      DedupByType(init, ty);
      IdsOfType(init, last);
      FilterSnoc(DedupById(init), last, OfType(ty));
      DedupSnoc(Filter(init, OfType(ty)), last);
    }
  }

  lemma SameDedup(a: seq<Event>, b: seq<Event>)
    requires SameByType(a, b) && IdsTyped(a)
    ensures SameByType(DedupById(a), DedupById(b))
  {
    SameByTypePermutes(a, b);
    forall ty ensures Filter(DedupById(a), OfType(ty)) == Filter(DedupById(b), OfType(ty)) {
      DedupByType(a, ty);
      DedupByType(b, ty);
      assert Filter(a, OfType(ty)) == Filter(b, OfType(ty));
    }
  }

  lemma SameMatchRule(rule: Rule, a: seq<Event>, b: seq<Event>)
    requires SameByType(a, b) && IdsTyped(a)
    ensures MatchRule(rule, a).Some? <==> MatchRule(rule, b).Some?
    ensures MatchRule(rule, a).Some? ==> SameByType(MatchRule(rule, a).value, MatchRule(rule, b).value)
  {
    forall i | 0 <= i < |rule.conditions|
      ensures |Hits(rule.conditions[i], a)| == |Hits(rule.conditions[i], b)|
    {
      SameByTypeFilter(a, b, Satisfies(rule.conditions[i]));
      SameByTypePermutes(Hits(rule.conditions[i], a), Hits(rule.conditions[i], b));
    }
    SameContributing(rule.conditions, a, b);
    ContributingElements(rule.conditions, a);
    SameDedup(Contributing(rule.conditions, a), Contributing(rule.conditions, b));
  }

  lemma {:induction false} SameIdsAndKeys(a: seq<Event>, b: seq<Event>)
    requires forall e :: e in a ==> e in b
    ensures Ids(a) <= Ids(b) && Keys(a) <= Keys(b)
  {
    forall id | id in Ids(a) ensures id in Ids(b) {
      var e := IdWitness(a, id);
      IdsContain(b);
    }
    KeysExactly(a);
    KeysExactly(b);
  }

  // ---- snapshots ------------------------------------------------------------------------

  /** Under one key, the snapshot holds that key's recent events; under the others, none of its type. */
  lemma {:induction false} SnapshotOfType(st: State, keyOrder: seq<string>, t: string, now: int, ty: string)
    requires BufferInv(st) && ColonFree(t) && Distinct(keyOrder)
    requires forall k :: k in keyOrder ==> k in st.buffers
    ensures var key := t + ":" + ty;
            Filter(Snapshot(st.buffers, keyOrder, t, now), OfType(ty))
            == if key in keyOrder then Filter(st.buffers[key], Fresh(now)) else []
  {
    if |keyOrder| != 0 {
      var init, k := keyOrder[..|keyOrder| - 1], keyOrder[|keyOrder| - 1];
      SnapshotOfType(st, init, t, now, ty);
      if TenantOfKey(k) == Some(t) {
        FilterConcat(Snapshot(st.buffers, init, t, now), Filter(st.buffers[k], Fresh(now)), OfType(ty));
      }
      KeyOfType(st, k, t, now, ty);
    }
  }

  lemma KeyOfType(st: State, k: string, t: string, now: int, ty: string)
    requires BufferInv(st) && ColonFree(t) && k in st.buffers
    ensures k == t + ":" + ty ==> TenantOfKey(k) == Some(t)
    ensures k == t + ":" + ty ==>
              Filter(Filter(st.buffers[k], Fresh(now)), OfType(ty)) == Filter(st.buffers[k], Fresh(now))
    ensures TenantOfKey(k) == Some(t) && k != t + ":" + ty ==>
              Filter(Filter(st.buffers[k], Fresh(now)), OfType(ty)) == []
  {
    var recent := Filter(st.buffers[k], Fresh(now));
    FilterElements(st.buffers[k], Fresh(now));
    forall e | e in recent
      ensures k == t + ":" + ty ==> e.etype == ty
      ensures TenantOfKey(k) == Some(t) && e.etype == ty ==> k == t + ":" + ty
    {
      assert BufferKey(e) == k && ColonFree(e.tenant);
      KeyRoundTrip(e);
      if k == t + ":" + ty {
        CutUnique(e.tenant, e.etype, t, ty, ':');
      }
    }
    if k == t + ":" + ty {
      FilterAll(recent, OfType(ty));
      IndexOfFirst(t, ':', ty);
      assert k == t + [':'] + ty && k[..|t|] == t;
    } else if TenantOfKey(k) == Some(t) {
      FilterNone(recent, OfType(ty));
    }
  }

  lemma SameSnapshots(st: State, o1: seq<string>, o2: seq<string>, t: string, now: int)
    requires BufferInv(st) && ColonFree(t)
    requires Enumerates(o1, st.buffers.Keys) && Enumerates(o2, st.buffers.Keys)
    ensures SameByType(Snapshot(st.buffers, o1, t, now), Snapshot(st.buffers, o2, t, now))
  {
    forall ty ensures Filter(Snapshot(st.buffers, o1, t, now), OfType(ty))
                      == Filter(Snapshot(st.buffers, o2, t, now), OfType(ty))
    {
      SnapshotOfType(st, o1, t, now, ty);
      SnapshotOfType(st, o2, t, now, ty);
    }
  }

  /** Two unexpired events of one tenant that share an ID although their types differ. */
  ghost predicate SharedId(st: State, now: int, k1: string, k2: string, e: Event, f: Event) {
    && k1 in st.buffers && k2 in st.buffers && TenantOfKey(k1) == TenantOfKey(k2)
    && e in st.buffers[k1] && f in st.buffers[k2] && Fresh(now)(e) && Fresh(now)(f)
    && e.id == f.id && e.etype != f.etype
  }

  /** Within a tenant, unexpired events of different types never share an ID. */
  ghost predicate IdsTypedPerTenant(st: State, now: int) {
    forall k1, k2, e, f :: !SharedId(st, now, k1, k2, e, f)
  }

  lemma SnapshotTyped(st: State, keyOrder: seq<string>, t: string, now: int)
    requires IdsTypedPerTenant(st, now) && forall k :: k in keyOrder ==> k in st.buffers
    ensures IdsTyped(Snapshot(st.buffers, keyOrder, t, now))
  {
    var s := Snapshot(st.buffers, keyOrder, t, now);
    SnapshotElements(st.buffers, keyOrder, t, now);
    forall e, f | e in s && f in s && e.id == f.id ensures e.etype == f.etype {
      var k1 :| k1 in keyOrder && TenantOfKey(k1) == Some(t) && e in Buffered(st.buffers, k1);
      var k2 :| k2 in keyOrder && TenantOfKey(k2) == Some(t) && f in Buffered(st.buffers, k2);
      assert !SharedId(st, now, k1, k2, e, f);
    }
  }

  // ---- ticks --------------------------------------------------------------------------------

  /** The same finding, up to the order of its events. */
  ghost predicate SameFinding(m1: Match, m2: Match) {
    && m1.rule == m2.rule && m1.tenant == m2.tenant && m1.fp == m2.fp
    && multiset(m1.events) == multiset(m2.events)
    && Ids(m1.events) == Ids(m2.events)
  }

  lemma SameTaskMatch(task1: Task, task2: Task, now: int, m1: Match) returns (m2: Match)
    requires task1.rule == task2.rule && task1.tenant == task2.tenant
    requires SameByType(task1.events, task2.events) && IdsTyped(task1.events)
    requires MatchOf(m1, task1, now)
    ensures MatchOf(m2, task2, now) && SameFinding(m1, m2)
  {
    var rule := task1.rule;
    SameWindows(task1, task2, now);
    SameMatchRule(rule, WindowOf(task1, now), WindowOf(task2, now));
    var events := MatchRule(rule, WindowOf(task2, now)).value;
    m2 := Match(rule, task2.tenant, events, Fingerprint(rule.id, task2.tenant, events));
    SameEventsSameFinding(m1, m2);
  }

  lemma SameWindows(task1: Task, task2: Task, now: int)
    requires task1.rule == task2.rule && SameByType(task1.events, task2.events) && IdsTyped(task1.events)
    ensures SameByType(WindowOf(task1, now), WindowOf(task2, now)) && IdsTyped(WindowOf(task1, now))
  {
    SameByTypeFilter(task1.events, task2.events, FreshAfter(now - task1.rule.window));
    FilterElements(task1.events, FreshAfter(now - task1.rule.window));
  }

  lemma SameEventsSameFinding(m1: Match, m2: Match)
    requires m1.rule == m2.rule && m1.tenant == m2.tenant && SameByType(m1.events, m2.events)
    requires m1.fp == Fingerprint(m1.rule.id, m1.tenant, m1.events)
    requires m2.fp == Fingerprint(m2.rule.id, m2.tenant, m2.events)
    ensures SameFinding(m1, m2)
  {
    SameByTypePermutes(m1.events, m2.events);
    SameIdsAndKeys(m1.events, m2.events);
    SameIdsAndKeys(m2.events, m1.events);
    FingerprintCanonical(m1.rule.id, m1.tenant, m1.events, m2.events);
  }

  /** Every finding of a tick under one choice of orders is a finding under any other. */
  lemma FindingUnderOrders(rules: seq<Rule>, st: State, now: int, o1: seq<string>, t1: seq<seq<string>>,
                           o2: seq<string>, t2: seq<seq<string>>, m1: Match) returns (m2: Match)
    requires BufferInv(st) && IdsTypedPerTenant(st, now)
    requires ValidOrders(rules, st.buffers, now, o1, t1) && ValidOrders(rules, st.buffers, now, o2, t2)
    requires m1 in TickMatches(rules, st.buffers, o1, t1, now)
    ensures m2 in TickMatches(rules, st.buffers, o2, t2, now) && SameFinding(m1, m2)
  {
    var tasks1, tasks2 := TasksOf(rules, st.buffers, o1, t1, now), TasksOf(rules, st.buffers, o2, t2, now);
    var task1 := MatchHasTask(tasks1, now, m1);
    TasksOfMembers(rules, st.buffers, o1, t1, now);
    var i :| TaskOf(task1, rules, st.buffers, o1, t1, now, i);
    var t := task1.tenant;
    var task2 := Task(task1.rule, t, Snapshot(st.buffers, o2, t, now));
    assert t in Tenants(st.buffers, now);
    assert TaskOf(task2, rules, st.buffers, o2, t2, now, i);
    TasksOfMembers(rules, st.buffers, o2, t2, now);
    var e := TenantArrived(st, now, t);
    SameSnapshots(st, o1, o2, t, now);
    SnapshotTyped(st, o1, t, now);
    m2 := SameTaskMatch(task1, task2, now, m1);
    TaskHasMatch(tasks2, now, task2, m2);
  }

  /** Every finding in `ms1` is also in `ms2`. */
  ghost predicate Covered(ms1: seq<Match>, ms2: seq<Match>) {
    forall m1 :: m1 in ms1 ==> exists m2 :: m2 in ms2 && SameFinding(m1, m2)
  }

  lemma SameFires(cache: map<string, int>, ms1: seq<Match>, ms2: seq<Match>, now: int, fp: string)
    requires Covered(ms1, ms2)
    ensures SomeFires(cache, ms1, now, fp) ==> SomeFires(cache, ms2, now, fp)
  {
    if i :| 0 <= i < |ms1| && FiresWith(cache, ms1[i], now, fp) {
      assert ms1[i] in ms1;
      var m2 :| m2 in ms2 && SameFinding(ms1[i], m2);
      var j :| 0 <= j < |ms2| && ms2[j] == m2;
      assert FiresWith(cache, ms2[j], now, fp);
    }
  }

  lemma SameTickCache(st: State, ms1: seq<Match>, ms2: seq<Match>, now: int)
    requires Independent(ms1) && Independent(ms2) && Covered(ms1, ms2) && Covered(ms2, ms1)
    ensures ProcessMatches(st, ms1, now).cache == ProcessMatches(st, ms2, now).cache
  {
    TickCache(st, ms1, now);
    TickCache(st, ms2, now);
    var c1, c2 := ProcessMatches(st, ms1, now).cache, ProcessMatches(st, ms2, now).cache;
    forall fp ensures (fp in c1 <==> fp in c2) && (fp in c1 ==> c1[fp] == c2[fp]) {
      SameFires(st.cache, ms1, ms2, now, fp);
      SameFires(st.cache, ms2, ms1, now, fp);
    }
    assert c1 == c2;
  }

  /** The same report, up to its random ID and the order of its events. */
  ghost predicate SameReport(a: Incident, b: Incident) {
    && a.(id := b.id, events := b.events) == b
    && multiset(a.events) == multiset(b.events)
    && Ids(a.events) == Ids(b.events)
  }

  ghost predicate SameReports(a: seq<Incident>, b: seq<Incident>) {
    forall x :: x in a ==> exists y :: y in b && SameReport(x, y)
  }

  lemma SameFired(cache: map<string, int>, ms1: seq<Match>, ms2: seq<Match>, now: int, id: nat)
    requires Covered(ms1, ms2)
    ensures SameReports(Fired(cache, ms1, now, id), Fired(cache, ms2, now, id))
  {
    var f1, f2 := Fired(cache, ms1, now, id), Fired(cache, ms2, now, id);
    forall x | x in f1 ensures exists y :: y in f2 && SameReport(x, y) {
      var m1 := FiredHasMatch(cache, ms1, now, id, x);
      var m2 :| m2 in ms2 && SameFinding(m1, m2);
      var y := MatchHasFired(cache, ms2, now, id, m2);
      assert SameReport(x, y);
    }
  }

  /** The incidents appended to the log by a tick. */
  function NewReports(before: State, after: State): seq<Incident>
    requires |before.trace.log| <= |after.trace.log|
  {
    after.trace.log[|before.trace.log|..]
  }

  lemma NewReportsAreFired(st: State, ms: seq<Match>, now: int)
    requires Independent(ms)
    ensures |st.trace.log| <= |ProcessMatches(st, ms, now).trace.log|
    ensures NewReports(st, ProcessMatches(st, ms, now)) == Fired(st.cache, ms, now, st.counters.created)
  {
    TickGrows(st, ms, now);
  }

  /** Same dedup cache, and the same incidents reported: same rule, tenant, fingerprint, time
      and events. */
  ghost predicate SameOutcome(st: State, st1: State, st2: State) {
    && st1.cache == st2.cache
    && |st.trace.log| <= |st1.trace.log| && |st.trace.log| <= |st2.trace.log|
    && SameReports(NewReports(st, st1), NewReports(st, st2))
    && SameReports(NewReports(st, st2), NewReports(st, st1))
  }

  /** Whatever orders Go picks for the buffer map and, per rule, for the tenant map, one tick
      has the same outcome. */
  lemma OrdersDoNotMatter(rules: seq<Rule>, st: State, now: int, o1: seq<string>, t1: seq<seq<string>>,
                          o2: seq<string>, t2: seq<seq<string>>)
    requires WellFormedRules(rules) && BufferInv(st) && IdsTypedPerTenant(st, now) && NoClash(st, now)
    requires ValidOrders(rules, st.buffers, now, o1, t1) && ValidOrders(rules, st.buffers, now, o2, t2)
    ensures SameOutcome(st, EvaluateStep(rules, st, now, o1, t1), EvaluateStep(rules, st, now, o2, t2))
  {
    var ms1, ms2 := TickMatches(rules, st.buffers, o1, t1, now), TickMatches(rules, st.buffers, o2, t2, now);
    TickIndependent(rules, st, now, o1, t1);
    TickIndependent(rules, st, now, o2, t2);
    TickCovered(rules, st, now, o1, t1, o2, t2);
    TickCovered(rules, st, now, o2, t2, o1, t1);
    var begin := Begin(rules, st, now);
    SameTickCache(begin, ms1, ms2, now);
    NewReportsAreFired(begin, ms1, now);
    NewReportsAreFired(begin, ms2, now);
    SameFired(st.cache, ms1, ms2, now, st.counters.created);
    SameFired(st.cache, ms2, ms1, now, st.counters.created);
  }

  lemma TickCovered(rules: seq<Rule>, st: State, now: int, o1: seq<string>, t1: seq<seq<string>>,
                    o2: seq<string>, t2: seq<seq<string>>)
    requires BufferInv(st) && IdsTypedPerTenant(st, now)
    requires ValidOrders(rules, st.buffers, now, o1, t1) && ValidOrders(rules, st.buffers, now, o2, t2)
    ensures Covered(TickMatches(rules, st.buffers, o1, t1, now), TickMatches(rules, st.buffers, o2, t2, now))
  {
    var ms1, ms2 := TickMatches(rules, st.buffers, o1, t1, now), TickMatches(rules, st.buffers, o2, t2, now);
    forall m1 | m1 in ms1 ensures exists m2 :: m2 in ms2 && SameFinding(m1, m2) {
      var m2 := FindingUnderOrders(rules, st, now, o1, t1, o2, t2, m1);
    }
  }

  // ---- a shared ID shows the order --------------------------------------------------------------

  /** Deduplication keeps an event of the first block that carries the ID. */
  lemma {:induction false} DedupHead(a: seq<Event>, b: seq<Event>, id: string) returns (g: Event)
    requires id in Ids(a)
    ensures g in DedupById(a + b) && g.id == id && g in a
  {
    if |b| == 0 {
      assert a + b == a;
      DedupElements(a);
      g := IdWitness(DedupById(a), id);
    } else {
      g := DedupHead(a, b[..|b| - 1], id);
      assert (a + b)[..|a + b| - 1] == a + b[..|b| - 1];
    }
  }

  /** A snapshot starts with the recent events of the first key ranged over. */
  lemma {:induction false} SnapshotHead(buffers: map<string, seq<Event>>, o: seq<string>, t: string, now: int)
    returns (rest: seq<Event>)
    requires |o| > 0 && TenantOfKey(o[0]) == Some(t)
    ensures Snapshot(buffers, o, t, now) == Filter(Buffered(buffers, o[0]), Fresh(now)) + rest
  {
    var init, k := o[..|o| - 1], o[|o| - 1];
    if |init| == 0 {
      rest := [];
    } else {
      rest := SnapshotHead(buffers, init, t, now);
      if TenantOfKey(k) == Some(t) {
        rest := rest + Filter(Buffered(buffers, k), Fresh(now));
      }
    }
  }

  /** With the key of `e` first, the tick keeps an event of its type under its ID. */
  lemma KeptFirst(st: State, now: int, o: seq<string>, t: string, e: Event) returns (g: Event)
    requires BufferInv(st) && |o| > 0 && o[0] in st.buffers && TenantOfKey(o[0]) == Some(t)
    requires e in st.buffers[o[0]] && Fresh(now)(e)
    ensures g in DedupById(Snapshot(st.buffers, o, t, now)) && g.id == e.id && g.etype == e.etype
  {
    var block := Filter(st.buffers[o[0]], Fresh(now));
    var rest := SnapshotHead(st.buffers, o, t, now);
    FilterElements(st.buffers[o[0]], Fresh(now));
    IdsContain(block);
    g := DedupHead(block, rest, e.id);
    SameKeySameType(st, o[0], g, e);
  }

  lemma SameKeySameType(st: State, k: string, g: Event, e: Event)
    requires BufferInv(st) && k in st.buffers && g in st.buffers[k] && e in st.buffers[k]
    ensures g.etype == e.etype
  {
    assert BufferKey(g) == k && BufferKey(e) == k;
    KeysApart(g, e);
  }

  lemma DedupDistinct(s: seq<Event>, g: Event, h: Event)
    requires g in DedupById(s) && h in DedupById(s) && g.id == h.id
    ensures g == h
  {
    DedupKeepsFirst(s);
    FirstPlacesDistinct(DedupById(s), s);
  }

  /** Two events of one tenant with one ID and different types: the reported events depend on
      which key is ranged over first. */
  lemma KeptDiffers(st: State, now: int, o1: seq<string>, o2: seq<string>, t: string, e: Event, f: Event)
    requires BufferInv(st) && |o1| > 0 && |o2| > 0 && o1[0] in st.buffers && o2[0] in st.buffers
    requires TenantOfKey(o1[0]) == TenantOfKey(o2[0]) == Some(t)
    requires SharedId(st, now, o1[0], o2[0], e, f)
    ensures multiset(DedupById(Snapshot(st.buffers, o1, t, now)))
            != multiset(DedupById(Snapshot(st.buffers, o2, t, now)))
  {
    var r1, r2 := DedupById(Snapshot(st.buffers, o1, t, now)), DedupById(Snapshot(st.buffers, o2, t, now));
    var g := KeptFirst(st, now, o1, t, e);
    var h := KeptFirst(st, now, o2, t, f);
    if multiset(r1) == multiset(r2) {
      SameElements(r1, r2);
      DedupDistinct(Snapshot(st.buffers, o2, t, now), g, h);
    }
  }

  /** One tick of the catch-all rule reports, for a tenant, its deduplicated snapshot. */
  lemma CatchAllReports(st: State, id: string, now: int, o: seq<string>, ts: seq<string>, t: string)
    returns (x: Incident)
    requires BufferInv(st) && NoClash(st, now) && BarFree(id)
    requires ValidOrders([CatchAll(id)], st.buffers, now, o, [ts]) && t in ts
    requires forall fp :: fp in st.cache ==> |fp| < |id|
    ensures var st' := EvaluateStep([CatchAll(id)], st, now, o, [ts]);
            && |st.trace.log| <= |st'.trace.log| && x in NewReports(st, st')
            && x.tenant == t && x.events == DedupById(Snapshot(st.buffers, o, t, now))
  {
    var rules := [CatchAll(id)];
    var task := Task(rules[0], t, Snapshot(st.buffers, o, t, now));
    var ms := TickMatches(rules, st.buffers, o, [ts], now);
    TickIndependent(rules, st, now, o, [ts]);
    NewReportsAreFired(Begin(rules, st, now), ms, now);
    SnapshotPresent(st.buffers, o, t, now);
    CatchAllTask(st.buffers, o, id, t, now);
    var m := CatchAllMatch(id, t, task.events);
    assert TaskOf(task, rules, st.buffers, o, [ts], now, 0);
    TasksOfMembers(rules, st.buffers, o, [ts], now);
    TaskHasMatch(TasksOf(rules, st.buffers, o, [ts], now), now, task, m);
    FingerprintLength(id, t, m.events);
    x := MatchHasFired(st.cache, ms, now, st.counters.created, m);
  }

  /** And nothing else for it. */
  lemma CatchAllReportsOnly(st: State, id: string, now: int, o: seq<string>, ts: seq<string>, t: string, x: Incident)
    requires BufferInv(st) && NoClash(st, now) && BarFree(id)
    requires ValidOrders([CatchAll(id)], st.buffers, now, o, [ts])
    requires var st' := EvaluateStep([CatchAll(id)], st, now, o, [ts]);
             |st.trace.log| <= |st'.trace.log| && x in NewReports(st, st') && x.tenant == t
    ensures x.events == DedupById(Snapshot(st.buffers, o, t, now))
  {
    var rules := [CatchAll(id)];
    var ms := TickMatches(rules, st.buffers, o, [ts], now);
    TickIndependent(rules, st, now, o, [ts]);
    NewReportsAreFired(Begin(rules, st, now), ms, now);
    var m := FiredHasMatch(st.cache, ms, now, st.counters.created, x);
    var task := MatchHasTask(TasksOf(rules, st.buffers, o, [ts], now), now, m);
    TasksOfMembers(rules, st.buffers, o, [ts], now);
    var i :| TaskOf(task, rules, st.buffers, o, [ts], now, i);
    CatchAllTask(st.buffers, o, id, t, now);
  }

  ghost predicate OrderFree(st: State, now: int) {
    forall rules, o1, t1, o2, t2 ::
      WellFormedRules(rules) && ValidOrders(rules, st.buffers, now, o1, t1)
        && ValidOrders(rules, st.buffers, now, o2, t2) ==>
        SameOutcome(st, EvaluateStep(rules, st, now, o1, t1), EvaluateStep(rules, st, now, o2, t2))
  }

  lemma OutcomesDiffer(st: State, id: string, now: int, o1: seq<string>, o2: seq<string>, ts: seq<string>, t: string,
                       e: Event, f: Event)
    requires BufferInv(st) && NoClash(st, now) && BarFree(id)
    requires forall fp :: fp in st.cache ==> |fp| < |id|
    requires ValidOrders([CatchAll(id)], st.buffers, now, o1, [ts]) && t in ts
    requires ValidOrders([CatchAll(id)], st.buffers, now, o2, [ts])
    requires |o1| > 0 && |o2| > 0 && TenantOfKey(o1[0]) == TenantOfKey(o2[0]) == Some(t)
    requires SharedId(st, now, o1[0], o2[0], e, f)
    ensures !SameOutcome(st, EvaluateStep([CatchAll(id)], st, now, o1, [ts]),
                         EvaluateStep([CatchAll(id)], st, now, o2, [ts]))
  {
    var st1, st2 := EvaluateStep([CatchAll(id)], st, now, o1, [ts]), EvaluateStep([CatchAll(id)], st, now, o2, [ts]);
    var x := CatchAllReports(st, id, now, o1, ts, t);
    KeptDiffers(st, now, o1, o2, t, e, f);
    if SameOutcome(st, st1, st2) {
      var y :| y in NewReports(st, st2) && SameReport(x, y);
      CatchAllReportsOnly(st, id, now, o2, ts, t, y);
    }
  }

  lemma SharedTenant(st: State, now: int, k1: string, k2: string, e: Event, f: Event)
    requires BufferInv(st) && SharedId(st, now, k1, k2, e, f)
    ensures TenantOfKey(k1) == TenantOfKey(k2) == Some(e.tenant) && e.tenant in Tenants(st.buffers, now)
  {
    KeyRoundTrip(e);
    FilterElements(st.buffers[k1], Fresh(now));
  }

  lemma OneRuleOrders(rule: Rule, buffers: map<string, seq<Event>>, now: int, o: seq<string>, ts: seq<string>)
    requires Enumerates(o, buffers.Keys) && Enumerates(ts, Tenants(buffers, now)) && BarFree(rule.id)
    ensures ValidOrders([rule], buffers, now, o, [ts]) && WellFormedRules([rule])
  {
  }

  lemma SharedIdShows(st: State, now: int, k1: string, k2: string, e: Event, f: Event)
    requires BufferInv(st) && NoClash(st, now) && SharedId(st, now, k1, k2, e, f)
    ensures !OrderFree(st, now)
  {
    SharedTenant(st, now, k1, k2, e, f);
    var id := FreshId(st.cache.Keys);
    var o1 := EnumerateFrom(st.buffers.Keys, k1);
    var o2 := EnumerateFrom(st.buffers.Keys, k2);
    var ts := EnumerateFrom(Tenants(st.buffers, now), e.tenant);
    OneRuleOrders(CatchAll(id), st.buffers, now, o1, ts);
    OneRuleOrders(CatchAll(id), st.buffers, now, o2, ts);
    OutcomesDiffer(st, id, now, o1, o2, ts, e.tenant, e, f);
    NotOrderFree(st, now, [CatchAll(id)], o1, [ts], o2, [ts]);
  }

  lemma NotOrderFree(st: State, now: int, rules: seq<Rule>, o1: seq<string>, t1: seq<seq<string>>,
                     o2: seq<string>, t2: seq<seq<string>>)
    requires WellFormedRules(rules)
    requires ValidOrders(rules, st.buffers, now, o1, t1) && ValidOrders(rules, st.buffers, now, o2, t2)
    requires !SameOutcome(st, EvaluateStep(rules, st, now, o1, t1), EvaluateStep(rules, st, now, o2, t2))
    ensures !OrderFree(st, now)
  {
  }

  /** The log from `n` on reports the fingerprint once, and for another tenant than `x`. */
  lemma NotReportedAgain(log: seq<Incident>, n: nat, x: Incident)
    requires n < |log| && log[n].tenant != x.tenant
    requires forall k :: n < k < |log| ==> log[k].fingerprint != x.fingerprint
    ensures forall y :: y in log[n..] ==> !SameReport(x, y)
  {
    forall y | y in log[n..] ensures !SameReport(x, y) {
      var k :| 0 <= k < |log[n..]| && log[n..][k] == y;
      assert log[n + k] == y;
    }
  }

  /** Two outcomes in which the same fingerprint was first reported for different tenants. */
  lemma WinnersDiffer(st: State, now: int, st1: State, st2: State, m1: Match, m2: Match)
    requires m1.fp == m2.fp && m1.tenant != m2.tenant
    requires var n := |st.trace.log|; n < |st1.trace.log| && n < |st2.trace.log|
    requires st1.trace.log[|st.trace.log|] == NewIncident(st.counters.created, m1, now)
    requires st2.trace.log[|st.trace.log|] == NewIncident(st.counters.created, m2, now)
    requires forall k :: |st.trace.log| < k < |st2.trace.log| ==> st2.trace.log[k].fingerprint != m2.fp
    ensures !SameOutcome(st, st1, st2)
  {
    var n := |st.trace.log|;
    var x := st1.trace.log[n];
    assert NewReports(st, st1)[0] == x;
    assert x in NewReports(st, st1);
    NotReportedAgain(st2.trace.log, n, x);
    assert NewReports(st, st2) == st2.trace.log[n..];
  }

  lemma ClashShows(st: State, now: int, o: seq<string>, m1: Match, m2: Match)
    requires Clashing(st, now, o, m1, m2)
    ensures !OrderFree(st, now)
  {
    var id := FreshId(st.cache.Keys);
    RekeyedClash(st, now, o, m1, m2, id);
    FingerprintLength(id, m1.tenant, m1.events);
    FreshClashNotFree(st, now, o, Rekeyed(m1, id), Rekeyed(m2, id));
  }

  lemma FreshClashNotFree(st: State, now: int, o: seq<string>, m1: Match, m2: Match)
    requires Clashing(st, now, o, m1, m2) && m1.fp !in st.cache
    ensures !OrderFree(st, now)
  {
    var ts1 := EnumerateFrom(Tenants(st.buffers, now), m1.tenant);
    var ts2 := EnumerateFrom(Tenants(st.buffers, now), m2.tenant);
    OneRuleOrders(m1.rule, st.buffers, now, o, ts1);
    OneRuleOrders(m1.rule, st.buffers, now, o, ts2);
    FreshClashShows(st, now, o, m1, m2, ts1, ts2);
    NotOrderFree(st, now, [m1.rule], o, [ts1], o, [ts2]);
  }

  lemma FreshClashShows(st: State, now: int, o: seq<string>, m1: Match, m2: Match, ts1: seq<string>, ts2: seq<string>)
    requires Clashing(st, now, o, m1, m2) && m1.fp !in st.cache
    requires |ts1| > 0 && ts1[0] == m1.tenant && |ts2| > 0 && ts2[0] == m2.tenant
    ensures !SameOutcome(st, EvaluateStep([m1.rule], st, now, o, [ts1]), EvaluateStep([m1.rule], st, now, o, [ts2]))
  {
    FirstReported(st, now, o, ts1, m1);
    FirstReported(st, now, o, ts2, m2);
    WinnersDiffer(st, now, EvaluateStep([m1.rule], st, now, o, [ts1]), EvaluateStep([m1.rule], st, now, o, [ts2]),
                  m1, m2);
  }

  /** A tick's outcome is free of map orders, for all rule sets, exactly when no two unexpired
      events of one tenant share an ID across types and no rule makes two tenants clash. */
  lemma OrdersDoNotMatterIff(st: State, now: int)
    requires BufferInv(st)
    ensures OrderFree(st, now) <==> IdsTypedPerTenant(st, now) && NoClash(st, now)
  {
    if !NoClash(st, now) {
      var o, m1, m2 :| Clashing(st, now, o, m1, m2);
      ClashShows(st, now, o, m1, m2);
    } else if !IdsTypedPerTenant(st, now) {
      var k1, k2, e, f :| SharedId(st, now, k1, k2, e, f);
      SharedIdShows(st, now, k1, k2, e, f);
    } else {
      forall rules, o1, t1, o2, t2 |
        WellFormedRules(rules) && ValidOrders(rules, st.buffers, now, o1, t1)
          && ValidOrders(rules, st.buffers, now, o2, t2)
        ensures SameOutcome(st, EvaluateStep(rules, st, now, o1, t1), EvaluateStep(rules, st, now, o2, t2))
      {
        OrdersDoNotMatter(rules, st, now, o1, t1, o2, t2);
      }
    }
  }
}
