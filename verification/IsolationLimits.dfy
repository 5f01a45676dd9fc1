/** How far tenant isolation reaches: which names break it, and that it covers the incidents
    created but not their dispatch, because all tenants share one bounded channel. */
module IsolationLimits {
  import opened Sequences
  import opened Domain
  import opened Matching
  import opened Fingerprints
  import opened EngineModel
  import opened CatchAllRule
  import opened Isolation
  import opened Clashes
  import opened OrderIndependence

  // ---- ticks of the catch-all rule --------------------------------------------------------

  function CatchAllMatches(id: string, buffers: map<string, seq<Event>>, o: seq<string>, ts: seq<string>,
                           now: int): seq<Match> {
    if |ts| == 0 then []
    else
      var t := ts[|ts| - 1];
      var s := Snapshot(buffers, o, t, now);
      CatchAllMatches(id, buffers, o, ts[..|ts| - 1], now) + if s == [] then [] else [CatchAllMatch(id, t, s)]
  }

  lemma {:induction false} CatchAllTasks(id: string, buffers: map<string, seq<Event>>, o: seq<string>,
                                         ts: seq<string>, now: int)
    ensures MatchesOf(TasksFor(buffers, o, CatchAll(id), ts, now), now) == CatchAllMatches(id, buffers, o, ts, now)
  {
    if |ts| != 0 {
      var init, t := ts[..|ts| - 1], ts[|ts| - 1];
      CatchAllTasks(id, buffers, o, init, now);
      CatchAllTask(buffers, o, id, t, now);
      var tasks := TasksFor(buffers, o, CatchAll(id), init, now);
      MatchesSnoc(tasks, Task(CatchAll(id), t, Snapshot(buffers, o, t, now)), now);
    }
  }

  lemma CatchAllTick(id: string, buffers: map<string, seq<Event>>, o: seq<string>, ts: seq<string>, now: int)
    ensures TickMatches([CatchAll(id)], buffers, o, [ts], now) == CatchAllMatches(id, buffers, o, ts, now)
  {
    CatchAllTasks(id, buffers, o, ts, now);
    OneRuleTick(buffers, o, CatchAll(id), ts, now);
  }

  function OneMatch(id: string, e: Event): Match {
    Match(CatchAll(id), e.tenant, [e], Fingerprint(id, e.tenant, [e]))
  }

  lemma CatchOne(id: string, e: Event)
    ensures CatchAllMatch(id, e.tenant, [e]) == OneMatch(id, e)
  {
    assert [e][..0] == [];
    assert DedupById([e]) == [e];
  }

  function Alone(e: Event): map<string, seq<Event>> {
    map[BufferKey(e) := [e]]
  }

  lemma MatchesOfOne(id: string, buffers: map<string, seq<Event>>, o: seq<string>, e: Event, now: int)
    requires Snapshot(buffers, o, e.tenant, now) == [e]
    ensures CatchAllMatches(id, buffers, o, [e.tenant], now) == [OneMatch(id, e)]
  {
    CatchOne(id, e);
    assert [e.tenant][..0] == [];
    assert CatchAllMatches(id, buffers, o, [], now) == [];
  }

  lemma MatchesOfTwo(id: string, buffers: map<string, seq<Event>>, o: seq<string>, e: Event, f: Event, now: int)
    requires Snapshot(buffers, o, e.tenant, now) == [e] && Snapshot(buffers, o, f.tenant, now) == [f]
    ensures CatchAllMatches(id, buffers, o, [e.tenant, f.tenant], now) == [OneMatch(id, e), OneMatch(id, f)]
  {
    MatchesOfOne(id, buffers, o, e, now);
    CatchOne(id, f);
    assert [e.tenant, f.tenant][..1] == [e.tenant];
  }

  lemma AloneSnapshot(e: Event, now: int)
    requires ColonFree(e.tenant) && Fresh(now)(e)
    ensures Snapshot(Alone(e), [BufferKey(e)], e.tenant, now) == [e]
    ensures Tenants(Alone(e), now) == {e.tenant}
  {
    KeyRoundTrip(e);
    FilterOne(e, Fresh(now));
    SnapshotSnoc(Alone(e), [], BufferKey(e), e.tenant, now);
    assert [] + [BufferKey(e)] == [BufferKey(e)];
  }

  /** One buffered event: one tenant, one match. */
  lemma AloneTick(id: string, e: Event, now: int)
    requires ColonFree(e.tenant) && Fresh(now)(e)
    ensures TickMatches([CatchAll(id)], Alone(e), [BufferKey(e)], [[e.tenant]], now) == [OneMatch(id, e)]
  {
    AloneSnapshot(e, now);
    CatchAllTick(id, Alone(e), [BufferKey(e)], [e.tenant], now);
    MatchesOfOne(id, Alone(e), [BufferKey(e)], e, now);
  }

  lemma AloneOrders(id: string, e: Event, now: int)
    requires ColonFree(e.tenant) && Fresh(now)(e)
    ensures ValidOrders([CatchAll(id)], Alone(e), now, [BufferKey(e)], [[e.tenant]])
  {
    AloneSnapshot(e, now);
    EnumeratesOne(BufferKey(e));
    EnumeratesOne(e.tenant);
    assert Alone(e).Keys == {BufferKey(e)};
  }

  // ---- names that continue each other ------------------------------------------------------

  function EventOf(tenant: string, agent: string): Event {
    Event("", tenant, agent, "", "", 0, 1, "", "", [], "", "", map[], "")
  }

  /** Agent names under which the two tenants' events share a fingerprint. */
  lemma CollidingAgents(id: string, t: string, u: string) returns (a: Event, b: Event)
    requires !Apart(t, u)
    ensures a == EventOf(t, a.agent) && b == EventOf(u, b.agent)
    ensures Fingerprint(id, t, [a]) == Fingerprint(id, u, [b])
  {
    if Continues(u, t) {
      var x := u[|t| + 1..];
      a, b := EventOf(t, x + "|"), EventOf(u, "");
      assert u == t + "|" + x;
      AgentCollides(id, t, x, a, b);
    } else {
      var x := t[|u| + 1..];
      a, b := EventOf(t, ""), EventOf(u, x + "|");
      assert t == u + "|" + x;
      AgentCollides(id, u, x, b, a);
    }
  }

  function Both(a: Event, b: Event): map<string, seq<Event>> {
    map[BufferKey(a) := [a], BufferKey(b) := [b]]
  }

  lemma BothKeys(a: Event, b: Event)
    requires ColonFree(a.tenant) && ColonFree(b.tenant) && a.tenant != b.tenant
    ensures TenantOfKey(BufferKey(a)) == Some(a.tenant) && TenantOfKey(BufferKey(b)) == Some(b.tenant)
    ensures BufferKey(a) != BufferKey(b)
  {
    KeyRoundTrip(a);
    KeyRoundTrip(b);
  }

  /** Snapshots of two buffers with one recent event each, under keys of different tenants. */
  lemma TwoSnapshots(buffers: map<string, seq<Event>>, ka: string, kb: string, a: Event, b: Event, now: int)
    requires ka in buffers && kb in buffers && buffers[ka] == [a] && buffers[kb] == [b]
    requires TenantOfKey(ka) == Some(a.tenant) && TenantOfKey(kb) == Some(b.tenant) && a.tenant != b.tenant
    requires Fresh(now)(a) && Fresh(now)(b)
    ensures Snapshot(buffers, [ka, kb], a.tenant, now) == [a]
    ensures Snapshot(buffers, [ka, kb], b.tenant, now) == [b]
  {
    FilterOne(a, Fresh(now));
    FilterOne(b, Fresh(now));
    SnapshotPair(buffers, ka, kb, a.tenant, now);
    SnapshotPair(buffers, ka, kb, b.tenant, now);
  }

  lemma SnapshotPair(buffers: map<string, seq<Event>>, ka: string, kb: string, t: string, now: int)
    ensures Snapshot(buffers, [ka, kb], t, now)
            == (if TenantOfKey(ka) == Some(t) then Filter(Buffered(buffers, ka), Fresh(now)) else [])
               + (if TenantOfKey(kb) == Some(t) then Filter(Buffered(buffers, kb), Fresh(now)) else [])
  {
    assert [] + [ka] == [ka] && [ka] + [kb] == [ka, kb];
    SnapshotSnoc(buffers, [], ka, t, now);
    SnapshotSnoc(buffers, [ka], kb, t, now);
  }

  lemma BothSnapshots(a: Event, b: Event, now: int)
    requires ColonFree(a.tenant) && ColonFree(b.tenant) && a.tenant != b.tenant
    requires Fresh(now)(a) && Fresh(now)(b)
    ensures Snapshot(Both(a, b), [BufferKey(a), BufferKey(b)], a.tenant, now) == [a]
    ensures Snapshot(Both(a, b), [BufferKey(a), BufferKey(b)], b.tenant, now) == [b]
  {
    BothKeys(a, b);
    TwoSnapshots(Both(a, b), BufferKey(a), BufferKey(b), a, b, now);
  }

  lemma TwoTenants(buffers: map<string, seq<Event>>, ka: string, kb: string, a: Event, b: Event, now: int)
    requires buffers == map[ka := [a], kb := [b]] && ka != kb
    requires TenantOfKey(ka) == Some(a.tenant) && TenantOfKey(kb) == Some(b.tenant)
    requires Fresh(now)(a) && Fresh(now)(b)
    ensures Tenants(buffers, now) == {a.tenant, b.tenant}
  {
    FilterOne(a, Fresh(now));
    FilterOne(b, Fresh(now));
    assert ka in buffers && kb in buffers;
  }

  lemma BothTenants(a: Event, b: Event, now: int)
    requires ColonFree(a.tenant) && ColonFree(b.tenant) && a.tenant != b.tenant
    requires Fresh(now)(a) && Fresh(now)(b)
    ensures Tenants(Both(a, b), now) == {a.tenant, b.tenant}
  {
    BothKeys(a, b);
    TwoTenants(Both(a, b), BufferKey(a), BufferKey(b), a, b, now);
  }

  lemma BothOrders(id: string, a: Event, b: Event, now: int)
    requires ColonFree(a.tenant) && ColonFree(b.tenant) && a.tenant != b.tenant
    requires Fresh(now)(a) && Fresh(now)(b)
    ensures ValidOrders([CatchAll(id)], Both(a, b), now, [BufferKey(a), BufferKey(b)], [[b.tenant, a.tenant]])
  {
    BothKeys(a, b);
    BothTenants(a, b, now);
  }

  /** The tenant of `b` is evaluated first. */
  lemma BothTick(id: string, a: Event, b: Event, now: int)
    requires ColonFree(a.tenant) && ColonFree(b.tenant) && a.tenant != b.tenant
    requires Fresh(now)(a) && Fresh(now)(b)
    ensures TickMatches([CatchAll(id)], Both(a, b), [BufferKey(a), BufferKey(b)], [[b.tenant, a.tenant]], now)
            == [OneMatch(id, b), OneMatch(id, a)]
  {
    var buffers, o := Both(a, b), [BufferKey(a), BufferKey(b)];
    BothSnapshots(a, b, now);
    CatchAllTick(id, buffers, o, [b.tenant, a.tenant], now);
    MatchesOfTwo(id, buffers, o, b, a, now);
  }

  lemma SecondSuppressed(st: State, m1: Match, m2: Match, now: int)
    requires st.cache == map[] && m1.fp == m2.fp && m2.rule.window > 0
    ensures ProcessMatches(st, [m1, m2], now).trace.log == st.trace.log + [NewIncident(st.counters.created, m1, now)]
    ensures ProcessMatches(st, [m1, m2], now).counters.dedupHits == st.counters.dedupHits + 1
  {
    var st1 := ProcessMatch(st, m1, now);
    assert [m1, m2][1..] == [m2] && [m2][1..] == [];
    assert Suppressed(st1.cache, m2, now);
    assert ProcessMatches(st1, [m2], now) == ProcessMatches(ProcessMatch(st1, m2, now), [], now);
  }

  lemma OneCreated(st: State, m: Match, now: int)
    requires st.cache == map[]
    ensures ProcessMatches(st, [m], now).trace.log == st.trace.log + [NewIncident(st.counters.created, m, now)]
  {
    assert [m][1..] == [];
    assert ProcessMatches(st, [m], now) == ProcessMatches(ProcessMatch(st, m, now), [], now);
  }

  ghost predicate Between(steps: seq<Step>, t: string, u: string) {
    forall e :: e in Ingested(steps) ==> e.tenant == t || e.tenant == u
  }

  ghost predicate SameFor(rules: seq<Rule>, steps: seq<Step>, t: string) {
    CreatedFor(Run(rules, INITIAL, steps).trace.log, t)
      == CreatedFor(Run(rules, INITIAL, EraseAll(steps, t)).trace.log, t)
  }

  /** No run in which only these two tenants send events lets `u` change what is created for `t`. */
  ghost predicate IsolatedFrom(t: string, u: string) {
    forall rules, steps ::
      WellFormedRules(rules) && ValidRun(rules, INITIAL, steps) && Between(steps, t, u) ==> SameFor(rules, steps, t)
  }

  // ---- a run in which a colliding name hides an incident -----------------------------------------

  /** Nothing evaluated yet: only the buffers and arrivals have moved. */
  ghost predicate Unevaluated(st: State, buffers: map<string, seq<Event>>) {
    && st.buffers == buffers && st.cache == map[] && st.outbox == []
    && st.trace.log == [] && st.trace.clock == 0 && st.counters.created == 0 && st.counters.dedupHits == 0
  }

  lemma IngestFirst(rules: seq<Rule>, a: Event)
    ensures ValidRun(rules, INITIAL, [Ingest(a)]) && Unevaluated(Run(rules, INITIAL, [Ingest(a)]), Alone(a))
  {
    assert [] + [Ingest(a)] == [Ingest(a)];
    RunSnoc(rules, INITIAL, [], Ingest(a));
    assert Pushed([], a) == [a];
  }

  lemma IngestBoth(rules: seq<Rule>, a: Event, b: Event)
    requires BufferKey(a) != BufferKey(b)
    ensures ValidRun(rules, INITIAL, [Ingest(a), Ingest(b)])
    ensures Unevaluated(Run(rules, INITIAL, [Ingest(a), Ingest(b)]), Both(a, b))
  {
    IngestFirst(rules, a);
    assert [Ingest(a)] + [Ingest(b)] == [Ingest(a), Ingest(b)];
    RunSnoc(rules, INITIAL, [Ingest(a)], Ingest(b));
    assert Pushed([], b) == [b];
  }

  /** The tick that evaluates the other tenant first. */
  function FullRun(a: Event, b: Event): seq<Step> {
    [Ingest(a), Ingest(b)] + [Evaluate(0, [BufferKey(a), BufferKey(b)], [[b.tenant, a.tenant]])]
  }

  function OwnRun(a: Event): seq<Step> {
    [Ingest(a)] + [Evaluate(0, [BufferKey(a)], [[a.tenant]])]
  }

  /** One incident was created, from `m`, and one other match was suppressed. */
  ghost predicate Hides(st: State, m: Match) {
    st.trace.log == [NewIncident(0, m, 0)] && st.counters.dedupHits == 1
  }

  lemma FullRunHides(id: string, a: Event, b: Event)
    requires ColonFree(a.tenant) && ColonFree(b.tenant) && a.tenant != b.tenant && Fresh(0)(a) && Fresh(0)(b)
    requires Fingerprint(id, a.tenant, [a]) == Fingerprint(id, b.tenant, [b])
    ensures ValidRun([CatchAll(id)], INITIAL, FullRun(a, b))
    ensures CreatedFor(Run([CatchAll(id)], INITIAL, FullRun(a, b)).trace.log, a.tenant) == []
    ensures Hides(Run([CatchAll(id)], INITIAL, FullRun(a, b)), OneMatch(id, b))
  {
    var rules, tick := [CatchAll(id)], Evaluate(0, [BufferKey(a), BufferKey(b)], [[b.tenant, a.tenant]]);
    BothKeys(a, b);
    IngestBoth(rules, a, b);
    BothOrders(id, a, b, 0);
    BothTick(id, a, b, 0);
    RunSnoc(rules, INITIAL, [Ingest(a), Ingest(b)], tick);
    var st := Begin(rules, Run(rules, INITIAL, [Ingest(a), Ingest(b)]), 0);
    SecondSuppressed(st, OneMatch(id, b), OneMatch(id, a), 0);
    CreatedForSnoc([], NewIncident(0, OneMatch(id, b), 0), a.tenant);
    assert [] + [NewIncident(0, OneMatch(id, b), 0)] == [NewIncident(0, OneMatch(id, b), 0)];
  }

  lemma OwnRunCreates(id: string, a: Event)
    requires ColonFree(a.tenant) && Fresh(0)(a)
    ensures ValidRun([CatchAll(id)], INITIAL, OwnRun(a))
    ensures CreatedFor(Run([CatchAll(id)], INITIAL, OwnRun(a)).trace.log, a.tenant) != []
  {
    var rules := [CatchAll(id)];
    IngestFirst(rules, a);
    AloneOrders(id, a, 0);
    AloneTick(id, a, 0);
    RunSnoc(rules, INITIAL, [Ingest(a)], Evaluate(0, [BufferKey(a)], [[a.tenant]]));
    OneCreated(Begin(rules, Run(rules, INITIAL, [Ingest(a)]), 0), OneMatch(id, a), 0);
    CreatedForSnoc([], NewIncident(0, OneMatch(id, a), 0), a.tenant);
  }

  lemma OwnedKeys(t: string, ka: string, kb: string)
    requires TenantOfKey(ka) == Some(t) && TenantOfKey(kb) != Some(t)
    ensures Filter([ka, kb], Owned(t)) == [ka]
  {
    FilterSnoc([], ka, Owned(t));
    FilterSnoc([ka], kb, Owned(t));
    assert [] + [ka] == [ka] && [ka] + [kb] == [ka, kb];
  }

  lemma OwnOrder(t: string, u: string)
    requires t != u
    ensures OnlyTenant([[u, t]], t) == [[t]]
  {
    FilterSnoc([], u, Is(t));
    FilterSnoc([u], t, Is(t));
    assert [] + [u] == [u] && [u] + [t] == [u, t] && [] + [t] == [t];
    assert [[u, t]][..0] == [];
  }

  lemma EraseCons(step: Step, rest: seq<Step>, t: string)
    ensures EraseAll([step] + rest, t) == Erase(step, t) + EraseAll(rest, t)
    ensures Ingested([step] + rest) == Arrival(step) + Ingested(rest)
  {
    assert ([step] + rest)[1..] == rest;
  }

  lemma ErasedTick(a: Event, b: Event)
    requires ColonFree(a.tenant) && ColonFree(b.tenant) && a.tenant != b.tenant
    ensures Erase(Evaluate(0, [BufferKey(a), BufferKey(b)], [[b.tenant, a.tenant]]), a.tenant)
            == [Evaluate(0, [BufferKey(a)], [[a.tenant]])]
  {
    BothKeys(a, b);
    OwnedKeys(a.tenant, BufferKey(a), BufferKey(b));
    OwnOrder(a.tenant, b.tenant);
  }

  lemma ErasedRun(a: Event, b: Event)
    requires ColonFree(a.tenant) && ColonFree(b.tenant) && a.tenant != b.tenant
    ensures EraseAll(FullRun(a, b), a.tenant) == OwnRun(a)
    ensures Ingested(FullRun(a, b)) == [a, b]
  {
    ErasedTick(a, b);
    ErasedBefore(a, b, Evaluate(0, [BufferKey(a), BufferKey(b)], [[b.tenant, a.tenant]]),
                 Evaluate(0, [BufferKey(a)], [[a.tenant]]));
  }

  lemma ErasedBefore(a: Event, b: Event, tick: Step, own: Step)
    requires a.tenant != b.tenant && tick.Evaluate? && Erase(tick, a.tenant) == [own]
    ensures EraseAll([Ingest(a), Ingest(b)] + [tick], a.tenant) == [Ingest(a)] + [own]
    ensures Ingested([Ingest(a), Ingest(b)] + [tick]) == [a, b]
  {
    EraseThree(Ingest(a), Ingest(b), tick, a.tenant);
    assert [Ingest(a), Ingest(b)] + [tick] == [Ingest(a), Ingest(b), tick];
    ErasedIngests(a, b);
    WithoutMiddle(Ingest(a), own);
  }

  lemma WithoutMiddle(x: Step, y: Step)
    ensures [x] + [] + [y] == [x] + [y]
  {
  }

  lemma ErasedIngests(a: Event, b: Event)
    requires a.tenant != b.tenant
    ensures Erase(Ingest(a), a.tenant) == [Ingest(a)] && Erase(Ingest(b), a.tenant) == []
    ensures Arrival(Ingest(a)) + Arrival(Ingest(b)) + [] == [a, b]
  {
  }

  lemma EraseThree(x: Step, y: Step, z: Step, t: string)
    ensures EraseAll([x, y, z], t) == Erase(x, t) + Erase(y, t) + Erase(z, t)
    ensures Ingested([x, y, z]) == Arrival(x) + Arrival(y) + Arrival(z)
  {
    EraseTwo(y, z, t);
    EraseCons(x, [y, z], t);
    assert [x] + [y, z] == [x, y, z];
    Regroup(Erase(x, t), Erase(y, t), Erase(z, t));
    Regroup(Arrival(x), Arrival(y), Arrival(z));
  }

  lemma Regroup<T>(a: seq<T>, b: seq<T>, c: seq<T>)
    ensures a + (b + c) == a + b + c
  {
  }

  lemma EraseTwo(y: Step, z: Step, t: string)
    ensures EraseAll([y, z], t) == Erase(y, t) + Erase(z, t)
    ensures Ingested([y, z]) == Arrival(y) + Arrival(z)
  {
    EraseCons(z, [], t);
    EraseCons(y, [z], t);
    assert [z] + [] == [z] && [y] + [z] == [y, z];
  }

  lemma RunBetween(a: Event, b: Event)
    requires ColonFree(a.tenant) && ColonFree(b.tenant) && a.tenant != b.tenant
    ensures Between(FullRun(a, b), a.tenant, b.tenant)
  {
    ErasedRun(a, b);
  }

  lemma RunLeaks(id: string, a: Event, b: Event)
    requires ColonFree(a.tenant) && ColonFree(b.tenant) && a.tenant != b.tenant && Fresh(0)(a) && Fresh(0)(b)
    requires Fingerprint(id, a.tenant, [a]) == Fingerprint(id, b.tenant, [b])
    ensures ValidRun([CatchAll(id)], INITIAL, FullRun(a, b))
    ensures Hides(Run([CatchAll(id)], INITIAL, FullRun(a, b)), OneMatch(id, b))
    ensures CreatedFor(Run([CatchAll(id)], INITIAL, FullRun(a, b)).trace.log, a.tenant) == []
    ensures CreatedFor(Run([CatchAll(id)], INITIAL, EraseAll(FullRun(a, b), a.tenant)).trace.log, a.tenant) != []
  {
    FullRunHides(id, a, b);
    OwnRunCreates(id, a);
    ErasedRun(a, b);
  }

  lemma LeakNotIsolated(id: string, a: Event, b: Event)
    requires ColonFree(a.tenant) && ColonFree(b.tenant) && a.tenant != b.tenant && Fresh(0)(a) && Fresh(0)(b)
    requires Fingerprint(id, a.tenant, [a]) == Fingerprint(id, b.tenant, [b]) && BarFree(id)
    ensures !IsolatedFrom(a.tenant, b.tenant)
  {
    RunLeaks(id, a, b);
    LeakShown([CatchAll(id)], FullRun(a, b), EraseAll(FullRun(a, b), a.tenant), a.tenant);
    RunBetween(a, b);
    NotIsolated([CatchAll(id)], FullRun(a, b), a.tenant, b.tenant);
  }

  lemma LeakShown(rules: seq<Rule>, steps: seq<Step>, own: seq<Step>, t: string)
    requires EraseAll(steps, t) == own
    requires CreatedFor(Run(rules, INITIAL, steps).trace.log, t) == []
    requires CreatedFor(Run(rules, INITIAL, own).trace.log, t) != []
    ensures !SameFor(rules, steps, t)
  {
  }

  lemma NotIsolated(rules: seq<Rule>, steps: seq<Step>, t: string, u: string)
    requires WellFormedRules(rules) && ValidRun(rules, INITIAL, steps) && Between(steps, t, u)
    requires !SameFor(rules, steps, t)
    ensures !IsolatedFrom(t, u)
  {
  }

  /** When one name continues the other, `u` can hide the incident of `t`: in the run returned,
      both match in one tick, `u` is ranged over first and gets the only incident, and the
      match of `t` is counted as a dedup hit; without the events of `u`, `t` gets one. */
  lemma CollidingNamesLeak(t: string, u: string) returns (a: Event, b: Event)
    requires ColonFree(t) && ColonFree(u) && t != u && !Apart(t, u)
    ensures a.tenant == t && b.tenant == u && ValidRun([CatchAll("R")], INITIAL, FullRun(a, b))
    ensures Hides(Run([CatchAll("R")], INITIAL, FullRun(a, b)), OneMatch("R", b))
    ensures CreatedFor(Run([CatchAll("R")], INITIAL, FullRun(a, b)).trace.log, t) == []
    ensures CreatedFor(Run([CatchAll("R")], INITIAL, EraseAll(FullRun(a, b), t)).trace.log, t) != []
    ensures !IsolatedFrom(t, u)
  {
    a, b := CollidingAgents("R", t, u);
    RunLeaks("R", a, b);
    LeakNotIsolated("R", a, b);
  }

  lemma OneMatchOf(id: string, e: Event, events: seq<Event>, now: int)
    requires events == [e] && Fresh(now)(e)
    ensures MatchOf(OneMatch(id, e), Task(CatchAll(id), e.tenant, events), now)
  {
    FilterOne(e, FreshAfter(now - BUFFER_WINDOW));
    CatchAllFires(id, [e]);
    CatchOne(id, e);
  }

  lemma BothTyped(st: State, a: Event, b: Event, now: int)
    requires st.buffers == Both(a, b) && ColonFree(a.tenant) && ColonFree(b.tenant) && a.tenant != b.tenant
    ensures IdsTypedPerTenant(st, now)
  {
    BothKeys(a, b);
  }

  /** Such names also let map order show although no ID is shared: after one event of each,
      the tenant ranged over first is the one reported. */
  lemma CollidingNamesShowOrder(rules: seq<Rule>, t: string, u: string) returns (a: Event, b: Event)
    requires ColonFree(t) && ColonFree(u) && t != u && !Apart(t, u)
    ensures a.tenant == t && b.tenant == u && ValidRun(rules, INITIAL, [Ingest(a), Ingest(b)])
    ensures IdsTypedPerTenant(Run(rules, INITIAL, [Ingest(a), Ingest(b)]), 0)
    ensures !OrderFree(Run(rules, INITIAL, [Ingest(a), Ingest(b)]), 0)
  {
    a, b := CollidingAgents("R", t, u);
    BothKeys(a, b);
    IngestBoth(rules, a, b);
    var st := Run(rules, INITIAL, [Ingest(a), Ingest(b)]);
    BothTyped(st, a, b, 0);
    BothClash(st, "R", a, b, 0);
    ClashShows(st, 0, [BufferKey(a), BufferKey(b)], OneMatch("R", a), OneMatch("R", b));
  }

  lemma BothClash(st: State, id: string, a: Event, b: Event, now: int)
    requires st.buffers == Both(a, b) && ColonFree(a.tenant) && ColonFree(b.tenant) && a.tenant != b.tenant
    requires Fresh(now)(a) && Fresh(now)(b) && BarFree(id)
    requires Fingerprint(id, a.tenant, [a]) == Fingerprint(id, b.tenant, [b])
    ensures Clashing(st, now, [BufferKey(a), BufferKey(b)], OneMatch(id, a), OneMatch(id, b))
  {
    BothOrders(id, a, b, now);
    BothTenants(a, b, now);
    BothSnapshots(a, b, now);
    OneMatchOf(id, a, Snapshot(st.buffers, [BufferKey(a), BufferKey(b)], a.tenant, now), now);
    OneMatchOf(id, b, Snapshot(st.buffers, [BufferKey(a), BufferKey(b)], b.tenant, now), now);
  }

  /** A tenant is isolated from another one, over all rules and runs, exactly when neither
      name continues the other behind a bar. */
  lemma IsolatedIff(t: string, u: string)
    requires ColonFree(t) && ColonFree(u) && t != u
    ensures IsolatedFrom(t, u) <==> Apart(t, u)
  {
    if Apart(t, u) {
      forall rules, steps | WellFormedRules(rules) && ValidRun(rules, INITIAL, steps) && Between(steps, t, u)
        ensures SameFor(rules, steps, t)
      {
        BetweenColonFree(steps, t, u);
        TenantIsolation(rules, steps, t);
      }
    } else {
      var a, b := CollidingNamesLeak(t, u);
    }
  }

  lemma {:induction false} BetweenColonFree(steps: seq<Step>, t: string, u: string)
    requires ColonFree(t) && ColonFree(u) && Between(steps, t, u)
    ensures ColonFreeInputs(steps)
    decreases |steps|
  {
    if |steps| != 0 {
      assert Between(steps[1..], t, u);
      BetweenColonFree(steps[1..], t, u);
      assert steps[0].Ingest? ==> steps[0].ev in Ingested(steps);
      assert forall i :: 1 <= i < |steps| ==> steps[i] == steps[1..][i - 1];
    }
  }
}
