/** An evaluation works on a snapshot and takes its locks one match at a time, so ingestion,
    pruning, cleaning, dispatching and updates run in between.  Every schedule of ticks and
    other goroutines still behaves as if each tick had happened at once, at its snapshot. */
module Atomicity {
  import opened Sequences
  import opened Domain
  import opened EngineModel
  import opened Reachable

  /** The engine in the middle of a tick that read the clock at `tick`. */
  datatype Busy = Busy(st: State, pending: seq<Match>, tick: int)

  /** A tick takes its snapshot, or processes its next match; or another goroutine steps. */
  datatype Action =
    | Start(now: int, keyOrder: seq<string>, orders: seq<seq<string>>)
    | Advance
    | Other(step: Step)

  /** What may happen next.  The next evaluation and the publishing of results wait for the end
      of the tick, and no cleaner comes so late that it could be noticed. */
  ghost predicate Admissible(rules: seq<Rule>, b: Busy, action: Action) {
    match action
    case Start(now, keyOrder, orders) => b.pending == [] && Enabled(rules, b.st, Evaluate(now, keyOrder, orders))
    case Advance => b.pending != []
    case Other(step) =>
      match step
      case Ingest(_) => true
      case Take => true
      case Prune(now) => now >= b.st.trace.clock
      case WriteBack(id, _, now) => now >= b.st.trace.clock && NotDrawnNext(b, id)
      case Patch(id, _, now) => now >= b.st.trace.clock && NotDrawnNext(b, id)
      case Clean(now) => now >= b.st.trace.clock && InTime(now, b.pending, b.tick)
      case Evaluate(_, _, _) => false
      case Publish => b.pending == []
  }

  /** A client may name any ID, stored or not, but cannot guess one that this tick is yet to draw. */
  predicate NotDrawnNext(b: Busy, id: nat) {
    id in b.st.incidents || id >= b.st.counters.created + |b.pending|
  }

  /** Cleaning at `now` drops neither an entry stamped `tick` nor one that suppresses at `tick`. */
  predicate CleanInTime(now: int, window: int, tick: int) {
    && now <= tick + CACHE_RETENTION
    && (window > 0 ==> now <= tick + CACHE_RETENTION - 2 * window + 1)
  }

  ghost predicate InTime(now: int, pending: seq<Match>, tick: int) {
    forall i :: 0 <= i < |pending| ==> CleanInTime(now, pending[i].rule.window, tick)
  }

  function Act(rules: seq<Rule>, b: Busy, action: Action): Busy {
    match action
    case Start(now, keyOrder, orders) =>
      if |orders| != |rules| then b
      else Busy(Begin(rules, b.st, now), TickMatches(rules, b.st.buffers, keyOrder, orders, now), now)
    case Advance =>
      if |b.pending| == 0 then b
      else b.(st := ProcessMatch(b.st, b.pending[0], b.tick), pending := b.pending[1..])
    case Other(step) => b.(st := Next(rules, b.st, step))
  }

  ghost predicate ValidActions(rules: seq<Rule>, b: Busy, actions: seq<Action>)
    decreases |actions|
  {
    |actions| > 0 ==> Admissible(rules, b, actions[0]) && ValidActions(rules, Act(rules, b, actions[0]), actions[1..])
  }

  function ActAll(rules: seq<Rule>, b: Busy, actions: seq<Action>): Busy
    decreases |actions|
  {
    if |actions| == 0 then b else ActAll(rules, Act(rules, b, actions[0]), actions[1..])
  }

  /** The schedule as steps of the machine: each tick where it took its snapshot. */
  function Linear(actions: seq<Action>): seq<Step>
    decreases |actions|
  {
    if |actions| == 0 then [] else LinearOne(actions[0]) + Linear(actions[1..])
  }

  function LinearOne(action: Action): seq<Step> {
    match action
    case Start(now, keyOrder, orders) => [Evaluate(now, keyOrder, orders)]
    case Advance => []
    case Other(step) => [step]
  }

  /** The tick finished at once from here. */
  function Settle(b: Busy): State {
    ProcessMatches(b.st, b.pending, b.tick)
  }

  // ---- one match commutes with one step of another goroutine ----------------------------

  lemma CommuteClean(st: State, m: Match, tick: int, now: int)
    requires CleanInTime(now, m.rule.window, tick)
    ensures ProcessMatch(CleanStep(st, now), m, tick) == CleanStep(ProcessMatch(st, m, tick), now)
  {
    assert Suppressed(Cleaned(st.cache, now), m, tick) == Suppressed(st.cache, m, tick);
    assert Cleaned(st.cache[m.fp := tick], now) == Cleaned(st.cache, now)[m.fp := tick];
  }

  ghost predicate CleanCommutes(m: Match, tick: int, now: int) {
    forall st :: ProcessMatch(CleanStep(st, now), m, tick) == CleanStep(ProcessMatch(st, m, tick), now)
  }

  lemma LateCleanShows(m: Match, tick: int, now: int)
    requires !CleanInTime(now, m.rule.window, tick)
    ensures !CleanCommutes(m, tick, now)
  {
    if now > tick + CACHE_RETENTION {
      assert m.fp in ProcessMatch(CleanStep(INITIAL, now), m, tick).cache;
      assert m.fp !in CleanStep(ProcessMatch(INITIAL, m, tick), now).cache;
    } else {
      var st := INITIAL.(cache := map[m.fp := tick - 2 * m.rule.window + 1]);
      assert Suppressed(st.cache, m, tick) && m.fp !in Cleaned(st.cache, now);
      assert CleanStep(ProcessMatch(st, m, tick), now).counters.created == 0;
      assert ProcessMatch(CleanStep(st, now), m, tick).counters.created == 1;
    }
  }

  /** The bound on cleaners is exact: a cleaning commutes with a match of a running tick, in
      every state, if and only if it is in time. */
  lemma CleanCommutesIff(m: Match, tick: int, now: int)
    ensures CleanCommutes(m, tick, now) <==> CleanInTime(now, m.rule.window, tick)
  {
    if CleanInTime(now, m.rule.window, tick) {
      forall st ensures ProcessMatch(CleanStep(st, now), m, tick) == CleanStep(ProcessMatch(st, m, tick), now) {
        CommuteClean(st, m, tick, now);
      }
    } else {
      LateCleanShows(m, tick, now);
    }
  }

  lemma CommuteIngest(st: State, m: Match, tick: int, e: Event)
    ensures ProcessMatch(IngestStep(st, e), m, tick) == IngestStep(ProcessMatch(st, m, tick), e)
  {
  }

  lemma CommutePrune(st: State, m: Match, tick: int, now: int)
    ensures ProcessMatch(PruneStep(st, now), m, tick) == PruneStep(ProcessMatch(st, m, tick), now)
  {
    assert PrunedCounts(st, now) == PrunedCounts(ProcessMatch(st, m, tick), now);
  }

  lemma CommuteTake(st: State, m: Match, tick: int)
    ensures ProcessMatch(TakeStep(st), m, tick) == TakeStep(ProcessMatch(st, m, tick))
  {
  }

  lemma MapSwap<K, V>(m: map<K, V>, k: K, v: V, l: K, w: V)
    requires k != l
    ensures m[k := v][l := w] == m[l := w][k := v]
  {
  }

  lemma CommuteUpdates(st: State, m: Match, tick: int, id: nat, text: string, now: int)
    requires st.counters.created !in st.incidents && (id in st.incidents || id > st.counters.created)
    ensures ProcessMatch(WriteBackStep(st, id, text, now), m, tick)
            == WriteBackStep(ProcessMatch(st, m, tick), id, text, now)
    ensures ProcessMatch(PatchStep(st, id, text, now), m, tick) == PatchStep(ProcessMatch(st, m, tick), id, text, now)
  {
    if id in st.incidents {
      var inc, stored := NewIncident(st.counters.created, m, tick), st.incidents[id];
      MapSwap(st.incidents, id, stored.(theHiveId := text, updatedAt := now), inc.id, inc);
      MapSwap(st.incidents, id, stored.(status := text, updatedAt := now), inc.id, inc);
    }
  }

  lemma CommuteStep(rules: seq<Rule>, b: Busy, step: Step)
    requires b.pending != [] && StoreInv(b.st) && Admissible(rules, b, Other(step))
    ensures ProcessMatch(Next(rules, b.st, step), b.pending[0], b.tick)
            == Next(rules, ProcessMatch(b.st, b.pending[0], b.tick), step)
  {
    var st, m, tick := b.st, b.pending[0], b.tick;
    match step
    case Ingest(e) => CommuteIngest(st, m, tick, e);
    case Take => CommuteTake(st, m, tick);
    case Prune(now) => CommutePrune(st, m, tick, now);
    case WriteBack(id, alertId, now) => CommuteUpdates(st, m, tick, id, alertId, now);
    case Patch(id, status, now) => CommuteUpdates(st, m, tick, id, status, now);
    case Clean(now) => CommuteClean(st, m, tick, now);
  }

  lemma AdmissibleLater(rules: seq<Rule>, b: Busy, step: Step)
    requires b.pending != [] && StoreInv(b.st) && Admissible(rules, b, Other(step))
    ensures Admissible(rules, b.(st := ProcessMatch(b.st, b.pending[0], b.tick), pending := b.pending[1..]),
            Other(step))
    ensures StoreInv(ProcessMatch(b.st, b.pending[0], b.tick))
  {
    StoreMatches(b.st, [b.pending[0]], b.tick);
    assert [b.pending[0]][1..] == [];
    assert ProcessMatches(b.st, [b.pending[0]], b.tick)
        == ProcessMatches(ProcessMatch(b.st, b.pending[0], b.tick), [], b.tick);
  }

  /** The rest of the tick can be moved before the step. */
  lemma {:induction false} CommuteRest(rules: seq<Rule>, b: Busy, step: Step)
    requires StoreInv(b.st) && Admissible(rules, b, Other(step))
    ensures Settle(Act(rules, b, Other(step))) == Next(rules, Settle(b), step)
    decreases |b.pending|
  {
    if b.pending != [] {
      var b1 := b.(st := ProcessMatch(b.st, b.pending[0], b.tick), pending := b.pending[1..]);
      AdmissibleLater(rules, b, step);
      CommuteStep(rules, b, step);
      CommuteRest(rules, b1, step);
    }
  }

  lemma {:induction false} EnabledSettled(rules: seq<Rule>, b: Busy, step: Step)
    requires Admissible(rules, b, Other(step))
    ensures Enabled(rules, Settle(b), step)
  {
    MatchesKeepBuffers(b.st, b.pending, b.tick);
  }

  lemma AdvanceKeepsStore(b: Busy)
    requires StoreInv(b.st) && b.pending != []
    ensures StoreInv(ProcessMatch(b.st, b.pending[0], b.tick))
  {
    AdmissibleLater([], b, Take);
  }

  /** One action is no step of the settled machine, or one. */
  lemma ReduceOne(rules: seq<Rule>, b: Busy, action: Action)
    requires StoreInv(b.st) && Admissible(rules, b, action)
    ensures StoreInv(Act(rules, b, action).st)
    ensures action.Advance? ==> Settle(Act(rules, b, action)) == Settle(b)
    ensures !action.Advance? ==>
              && |LinearOne(action)| == 1
              && Enabled(rules, Settle(b), LinearOne(action)[0])
              && Settle(Act(rules, b, action)) == Next(rules, Settle(b), LinearOne(action)[0])
  {
    match action
    case Start(now, keyOrder, orders) =>
    case Advance => AdvanceKeepsStore(b);
    case Other(step) =>
      StoreStep(rules, b.st, step);
      CommuteRest(rules, b, step);
      EnabledSettled(rules, b, step);
  }

  lemma {:induction false} Reduce(rules: seq<Rule>, b: Busy, actions: seq<Action>)
    requires StoreInv(b.st) && ValidActions(rules, b, actions)
    ensures ValidRun(rules, Settle(b), Linear(actions))
    ensures Settle(ActAll(rules, b, actions)) == Run(rules, Settle(b), Linear(actions))
    decreases |actions|
  {
    if |actions| != 0 {
      var rest, b1 := Linear(actions[1..]), Act(rules, b, actions[0]);
      ReduceOne(rules, b, actions[0]);
      Reduce(rules, b1, actions[1..]);
      if actions[0].Advance? {
        assert [] + rest == rest;
      } else {
        RunCons(rules, Settle(b), LinearOne(actions[0])[0], rest);
        assert LinearOne(actions[0]) == [LinearOne(actions[0])[0]];
      }
    }
  }

  /** Any schedule of any number of ticks and other steps ends, between two ticks, in the state
      of the run in which every tick happened at once, at its snapshot. */
  lemma SchedulesAreRuns(rules: seq<Rule>, actions: seq<Action>)
    requires var idle := Busy(INITIAL, [], 0);
             ValidActions(rules, idle, actions) && ActAll(rules, idle, actions).pending == []
    ensures ValidRun(rules, INITIAL, Linear(actions))
    ensures ActAll(rules, Busy(INITIAL, [], 0), actions).st == Run(rules, INITIAL, Linear(actions))
  {
    Reduce(rules, Busy(INITIAL, [], 0), actions);
  }

  /** A tick interleaved with other goroutines ends, once all its matches are processed, in
      the state of the atomic tick followed by the others' steps in their order. */
  lemma EvaluationIsAtomic(rules: seq<Rule>, st: State, now: int, keyOrder: seq<string>, orders: seq<seq<string>>,
                           actions: seq<Action>)
    requires StoreInv(st) && Enabled(rules, st, Evaluate(now, keyOrder, orders))
    requires var start := Busy(Begin(rules, st, now), TickMatches(rules, st.buffers, keyOrder, orders, now), now);
             ValidActions(rules, start, actions) && ActAll(rules, start, actions).pending == []
    ensures var start := Busy(Begin(rules, st, now), TickMatches(rules, st.buffers, keyOrder, orders, now), now);
            var tick := Evaluate(now, keyOrder, orders);
            && ValidRun(rules, st, [tick] + Linear(actions))
            && ActAll(rules, start, actions).st == Run(rules, st, [tick] + Linear(actions))
  {
    var start := Busy(Begin(rules, st, now), TickMatches(rules, st.buffers, keyOrder, orders, now), now);
    Reduce(rules, start, actions);
    RunCons(rules, st, Evaluate(now, keyOrder, orders), Linear(actions));
  }

  // ---- before the snapshot --------------------------------------------------------------------

  /** The clock is read before the lock is taken.  A prune at `p` in that gap goes unnoticed by
      a tick that read `now`, whatever the map order, exactly when no event it can group by
      tenant expires in between. */
  lemma GapHarmlessIff(buffers: map<string, seq<Event>>, now: int, p: int)
    requires now <= p
    ensures (forall o, t :: Enumerates(o, buffers.Keys) ==>
               Snapshot(Pruned(buffers, p), o, t, now) == Snapshot(buffers, o, t, now))
            <==> !exists k, e :: ExpiresBetween(buffers, now, p, k, e)
  {
    if k, e :| ExpiresBetween(buffers, now, p, k, e) {
      GapShows(buffers, now, p, k, e);
    } else {
      forall o, t | Enumerates(o, buffers.Keys)
        ensures Snapshot(Pruned(buffers, p), o, t, now) == Snapshot(buffers, o, t, now)
      {
        GapUnseen(buffers, now, p, o, t);
      }
    }
  }

  ghost predicate ExpiresBetween(buffers: map<string, seq<Event>>, now: int, p: int, k: string, e: Event) {
    k in buffers && e in buffers[k] && TenantOfKey(k).Some? && Fresh(now)(e) && !Fresh(p)(e)
  }

  lemma PrunedFresh(buffers: map<string, seq<Event>>, now: int, p: int, k: string)
    requires now <= p
    ensures Filter(Buffered(Pruned(buffers, p), k), Fresh(now)) == Filter(Buffered(buffers, k), Fresh(p))
  {
    var kept := Filter(Buffered(buffers, k), Fresh(p));
    FilterElements(Buffered(buffers, k), Fresh(p));
    FilterAll(kept, Fresh(now));
    assert Buffered(Pruned(buffers, p), k) == kept;
  }

  lemma {:induction false} GapUnseen(buffers: map<string, seq<Event>>, now: int, p: int, o: seq<string>, t: string)
    requires now <= p && !exists k, e :: ExpiresBetween(buffers, now, p, k, e)
    ensures Snapshot(Pruned(buffers, p), o, t, now) == Snapshot(buffers, o, t, now)
  {
    if |o| != 0 {
      var k := o[|o| - 1];
      GapUnseen(buffers, now, p, o[..|o| - 1], t);
      PrunedFresh(buffers, now, p, k);
      if TenantOfKey(k) == Some(t) {
        forall e | e in Buffered(buffers, k) ensures Fresh(now)(e) == Fresh(p)(e) {
          assert !ExpiresBetween(buffers, now, p, k, e);
        }
        FilterAgree(Buffered(buffers, k), Fresh(now), Fresh(p));
      }
    }
  }

  lemma GapShows(buffers: map<string, seq<Event>>, now: int, p: int, k: string, e: Event)
    requires now <= p && ExpiresBetween(buffers, now, p, k, e)
    ensures exists o, t :: Enumerates(o, buffers.Keys)
                           && Snapshot(Pruned(buffers, p), o, t, now) != Snapshot(buffers, o, t, now)
  {
    var o := EnumerateFrom(buffers.Keys, k);
    var t := TenantOfKey(k).value;
    SnapshotContains(buffers, now, o, t, k, e);
    SnapshotPrunedFresh(buffers, now, p, o, t);
    assert e in Snapshot(buffers, o, t, now) && e !in Snapshot(Pruned(buffers, p), o, t, now);
  }

  lemma {:induction false} SnapshotContains(buffers: map<string, seq<Event>>, now: int, o: seq<string>, t: string,
                                            k: string, e: Event)
    requires k in o && TenantOfKey(k) == Some(t) && e in Buffered(buffers, k) && Fresh(now)(e)
    ensures e in Snapshot(buffers, o, t, now)
  {
    if o[|o| - 1] == k {
      FilterElements(Buffered(buffers, k), Fresh(now));
    } else {
      SnapshotContains(buffers, now, o[..|o| - 1], t, k, e);
    }
  }

  lemma {:induction false} SnapshotPrunedFresh(buffers: map<string, seq<Event>>, now: int, p: int, o: seq<string>,
                                               t: string)
    requires now <= p
    ensures forall e :: e in Snapshot(Pruned(buffers, p), o, t, now) ==> Fresh(p)(e)
  {
    if |o| != 0 {
      var k := o[|o| - 1];
      SnapshotPrunedFresh(buffers, now, p, o[..|o| - 1], t);
      PrunedFresh(buffers, now, p, k);
      FilterElements(Buffered(buffers, k), Fresh(p));
    }
  }
}
