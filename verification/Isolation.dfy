/** Tenants do not influence each other: erasing every other tenant's events from a run
    leaves the incidents created for a tenant unchanged. */
module Isolation {
  import opened Sequences
  import opened Strings
  import opened Domain
  import opened Matching
  import opened Fingerprints
  import opened EngineModel
  import opened Reachable

  function Owned(t: string): string -> bool {
    (key: string) => TenantOfKey(key) == Some(t)
  }

  function Is(t: string): string -> bool {
    (x: string) => x == t
  }

  function TaskFor(t: string): Task -> bool {
    (task: Task) => task.tenant == t
  }

  function MatchFor(t: string): Match -> bool {
    (m: Match) => m.tenant == t
  }

  function OnlyTenant(orders: seq<seq<string>>, t: string): seq<seq<string>> {
    if |orders| == 0 then []
    else OnlyTenant(orders[..|orders| - 1], t) + [Filter(orders[|orders| - 1], Is(t))]
  }

  /** A step as it remains when the other tenants' events never arrive. */
  function Erase(step: Step, t: string): seq<Step> {
    match step
    case Ingest(e) => if e.tenant == t then [step] else []
    case Evaluate(now, keyOrder, tenantOrders) =>
      [Evaluate(now, Filter(keyOrder, Owned(t)), OnlyTenant(tenantOrders, t))]
    case _ => [step]
  }

  function EraseAll(steps: seq<Step>, t: string): seq<Step>
    decreases |steps|
  {
    if |steps| == 0 then [] else Erase(steps[0], t) + EraseAll(steps[1..], t)
  }

  /** The incidents created for a tenant, in order, without their random IDs. */
  function CreatedFor(log: seq<Incident>, t: string): seq<Incident> {
    if |log| == 0 then []
    else
      var init, last := log[..|log| - 1], log[|log| - 1];
      if last.tenant == t then CreatedFor(init, t) + [last.(id := 0)] else CreatedFor(init, t)
  }

  lemma CreatedForSnoc(log: seq<Incident>, inc: Incident, t: string)
    ensures CreatedFor(log + [inc], t) == if inc.tenant == t then CreatedFor(log, t) + [inc.(id := 0)]
            else CreatedFor(log, t)
  {
    assert (log + [inc])[..|log|] == log;
  }

  ghost predicate SameEntry(c1: map<string, int>, c2: map<string, int>, fp: string) {
    (fp in c1 <==> fp in c2) && (fp in c1 ==> c1[fp] == c2[fp])
  }

  ghost predicate SameCacheFor(c1: map<string, int>, c2: map<string, int>, t: string) {
    forall ruleId, events :: BarFree(ruleId) && |events| > 0 ==> SameEntry(c1, c2, Fingerprint(ruleId, t, events))
  }

  ghost predicate SameBuffersFor(full: map<string, seq<Event>>, own: map<string, seq<Event>>, t: string) {
    && (forall k :: k in own ==> TenantOfKey(k) == Some(t))
    && (forall k :: TenantOfKey(k) == Some(t) ==> (k in full <==> k in own) && Buffered(full, k) == Buffered(own, k))
  }

  /** What tenant `t` can tell about the full state is all there is in its own. */
  ghost predicate Shadows(full: State, own: State, t: string) {
    && SameBuffersFor(full.buffers, own.buffers, t)
    && SameCacheFor(full.cache, own.cache, t)
    && CreatedFor(full.trace.log, t) == CreatedFor(own.trace.log, t)
    && |own.outbox| <= |full.outbox|
    && own.trace.clock == full.trace.clock
  }

  // ---- one tick -------------------------------------------------------------------

  lemma {:induction false} SameSnapshot(full: map<string, seq<Event>>, own: map<string, seq<Event>>,
                                        keyOrder: seq<string>, t: string, now: int)
    requires SameBuffersFor(full, own, t)
    ensures Snapshot(full, keyOrder, t, now) == Snapshot(own, Filter(keyOrder, Owned(t)), t, now)
  {
    if |keyOrder| != 0 {
      var init, k := keyOrder[..|keyOrder| - 1], keyOrder[|keyOrder| - 1];
      SameSnapshot(full, own, init, t, now);
      if TenantOfKey(k) == Some(t) {
        assert (Filter(init, Owned(t)) + [k])[..|Filter(init, Owned(t))|] == Filter(init, Owned(t));
      }
    }
  }

  lemma {:induction false} SameTasksFor(full: map<string, seq<Event>>, own: map<string, seq<Event>>,
                                        keyOrder: seq<string>, rule: Rule, tenants: seq<string>, t: string, now: int)
    requires SameBuffersFor(full, own, t)
    ensures Filter(TasksFor(full, keyOrder, rule, tenants, now), TaskFor(t))
            == TasksFor(own, Filter(keyOrder, Owned(t)), rule, Filter(tenants, Is(t)), now)
  {
    if |tenants| != 0 {
      var init, last := tenants[..|tenants| - 1], tenants[|tenants| - 1];
      SameTasksFor(full, own, keyOrder, rule, init, t, now);
      SameSnapshot(full, own, keyOrder, t, now);
      FilterSnoc(TasksFor(full, keyOrder, rule, init, now), Task(rule, last, Snapshot(full, keyOrder, last, now)),
                 TaskFor(t));
      TasksForSnoc(own, Filter(keyOrder, Owned(t)), rule, Filter(init, Is(t)), t, now);
    }
  }

  lemma {:induction false} OnlyTenantAt(orders: seq<seq<string>>, t: string)
    ensures |OnlyTenant(orders, t)| == |orders|
    ensures forall i :: 0 <= i < |orders| ==> OnlyTenant(orders, t)[i] == Filter(orders[i], Is(t))
  {
    if |orders| != 0 {
      OnlyTenantAt(orders[..|orders| - 1], t);
    }
  }

  lemma {:induction false} SameTasks(rules: seq<Rule>, full: map<string, seq<Event>>, own: map<string, seq<Event>>,
                                     keyOrder: seq<string>, orders: seq<seq<string>>, t: string, now: int)
    requires SameBuffersFor(full, own, t) && |orders| == |rules|
    ensures |OnlyTenant(orders, t)| == |rules|
    ensures Filter(TasksOf(rules, full, keyOrder, orders, now), TaskFor(t))
            == TasksOf(rules, own, Filter(keyOrder, Owned(t)), OnlyTenant(orders, t), now)
  {
    OnlyTenantAt(orders, t);
    if |rules| != 0 {
      var n := |rules| - 1;
      SameTasks(rules[..n], full, own, keyOrder, orders[..n], t, now);
      SameTasksFor(full, own, keyOrder, rules[n], orders[n], t, now);
      FilterConcat(TasksOf(rules[..n], full, keyOrder, orders[..n], now),
                   TasksFor(full, keyOrder, rules[n], orders[n], now), TaskFor(t));
      assert OnlyTenant(orders, t)[..n] == OnlyTenant(orders[..n], t);
    }
  }

  lemma MatchesForOne(task: Task, t: string, now: int)
    ensures Filter(MatchesFor(task, now), MatchFor(t)) == if task.tenant == t then MatchesFor(task, now) else []
  {
    MatchesForMembers(task, now);
    if task.tenant == t {
      FilterAll(MatchesFor(task, now), MatchFor(t));
    } else {
      FilterNone(MatchesFor(task, now), MatchFor(t));
    }
  }

  lemma {:induction false} SameMatches(tasks: seq<Task>, t: string, now: int)
    ensures Filter(MatchesOf(tasks, now), MatchFor(t)) == MatchesOf(Filter(tasks, TaskFor(t)), now)
  {
    if |tasks| != 0 {
      var init, last := tasks[..|tasks| - 1], tasks[|tasks| - 1];
      SameMatches(init, t, now);
      MatchesForOne(last, t, now);
      FilterConcat(MatchesOf(init, now), MatchesFor(last, now), MatchFor(t));
      MatchesSnoc(Filter(init, TaskFor(t)), last, now);
    }
  }

  /** The matches of a tick carry the fingerprint of their own rule and tenant. */
  predicate SoundMatch(m: Match) {
    && BarFree(m.rule.id) && |m.events| > 0
    && m.fp == Fingerprint(m.rule.id, m.tenant, m.events)
  }

  /** And come from tenants that `t` and its fingerprints are not confused with. */
  predicate SoundMatches(ms: seq<Match>, t: string) {
    forall i :: 0 <= i < |ms| ==> SoundMatch(ms[i]) && Apart(ms[i].tenant, t)
  }

  /** None of the events' tenants continues `t` behind a bar, nor does `t` continue theirs. */
  ghost predicate ApartFrom(events: seq<Event>, t: string) {
    forall e :: e in events ==> Apart(e.tenant, t)
  }

  lemma TickSound(rules: seq<Rule>, st: State, keyOrder: seq<string>, tenantOrders: seq<seq<string>>, now: int,
                  t: string)
    requires WellFormedRules(rules) && BufferInv(st) && ApartFrom(st.trace.arrivals, t)
    requires ValidOrders(rules, st.buffers, now, keyOrder, tenantOrders)
    ensures SoundMatches(TickMatches(rules, st.buffers, keyOrder, tenantOrders, now), t)
  {
    var tasks := TasksOf(rules, st.buffers, keyOrder, tenantOrders, now);
    TasksOfMembers(rules, st.buffers, keyOrder, tenantOrders, now);
    forall m | m in MatchesOf(tasks, now) ensures SoundMatch(m) && Apart(m.tenant, t) {
      var task := MatchHasTask(tasks, now, m);
      var i :| TaskOf(task, rules, st.buffers, keyOrder, tenantOrders, now, i);
      assert task.tenant in Tenants(st.buffers, now);
      var e := TenantArrived(st, now, task.tenant);
      MatchNonEmpty(task.rule, WindowOf(task, now));
    }
  }

  /** Processing another tenant's match cannot be seen. */
  lemma OthersUnseen(full: State, own: State, m: Match, t: string, now: int)
    requires Shadows(full, own, t) && SoundMatch(m) && m.tenant != t && Apart(m.tenant, t)
    ensures Shadows(ProcessMatch(full, m, now), own, t)
  {
    if !Suppressed(full.cache, m, now) {
      var inc := NewIncident(full.counters.created, m, now);
      CreatedForSnoc(full.trace.log, inc, t);
      forall ruleId, events | BarFree(ruleId) && |events| > 0
        ensures SameEntry(full.cache[m.fp := now], own.cache, Fingerprint(ruleId, t, events))
      {
        assert SameEntry(full.cache, own.cache, Fingerprint(ruleId, t, events));
        if Fingerprint(ruleId, t, events) == m.fp {
          FingerprintSeparates(ruleId, t, events, m.rule.id, m.tenant, m.events);
        }
      }
    }
  }

  /** The tenant's own matches are decided alike. */
  lemma OwnSame(full: State, own: State, m: Match, t: string, now: int)
    requires Shadows(full, own, t) && SoundMatch(m) && m.tenant == t
    ensures Shadows(ProcessMatch(full, m, now), ProcessMatch(own, m, now), t)
  {
    assert SameEntry(full.cache, own.cache, m.fp);
    if !Suppressed(full.cache, m, now) {
      var incF, incO := NewIncident(full.counters.created, m, now), NewIncident(own.counters.created, m, now);
      CreatedForSnoc(full.trace.log, incF, t);
      CreatedForSnoc(own.trace.log, incO, t);
      forall ruleId, events | BarFree(ruleId) && |events| > 0
        ensures SameEntry(full.cache[m.fp := now], own.cache[m.fp := now], Fingerprint(ruleId, t, events))
      {
        assert SameEntry(full.cache, own.cache, Fingerprint(ruleId, t, events));
      }
    }
  }

  lemma {:induction false} ShadowMatches(full: State, own: State, ms: seq<Match>, t: string, now: int)
    requires Shadows(full, own, t) && SoundMatches(ms, t)
    ensures Shadows(ProcessMatches(full, ms, now), ProcessMatches(own, Filter(ms, MatchFor(t)), now), t)
  {
    if |ms| != 0 {
      ShadowMatches(full, own, ms[..|ms| - 1], t, now);
      ShadowLast(full, own, ms, t, now);
    }
  }

  lemma ShadowLast(full: State, own: State, ms: seq<Match>, t: string, now: int)
    requires |ms| > 0 && SoundMatches(ms, t)
    requires var init := ms[..|ms| - 1];
             Shadows(ProcessMatches(full, init, now), ProcessMatches(own, Filter(init, MatchFor(t)), now), t)
    ensures Shadows(ProcessMatches(full, ms, now), ProcessMatches(own, Filter(ms, MatchFor(t)), now), t)
  {
    var init, m := ms[..|ms| - 1], ms[|ms| - 1];
    LastProcessed(full, own, ms, t, now);
    ShadowMatch(ProcessMatches(full, init, now), ProcessMatches(own, Filter(init, MatchFor(t)), now), m, t, now);
  }

  lemma LastProcessed(full: State, own: State, ms: seq<Match>, t: string, now: int)
    requires |ms| > 0
    ensures var init, m := ms[..|ms| - 1], ms[|ms| - 1];
            var mine := ProcessMatches(own, Filter(init, MatchFor(t)), now);
            && ProcessMatches(full, ms, now) == ProcessMatch(ProcessMatches(full, init, now), m, now)
            && ProcessMatches(own, Filter(ms, MatchFor(t)), now) == if m.tenant == t then ProcessMatch(mine, m, now)
               else mine
  {
    var init, m := ms[..|ms| - 1], ms[|ms| - 1];
    assert ms == init + [m];
    ProcessSnoc(full, init, m, now);
    ProcessSnoc(own, Filter(init, MatchFor(t)), m, now);
  }

  lemma ShadowMatch(full: State, own: State, m: Match, t: string, now: int)
    requires Shadows(full, own, t) && SoundMatch(m) && Apart(m.tenant, t)
    ensures Shadows(ProcessMatch(full, m, now), if m.tenant == t then ProcessMatch(own, m, now) else own, t)
  {
    if m.tenant == t {
      OwnSame(full, own, m, t, now);
    } else {
      OthersUnseen(full, own, m, t, now);
    }
  }

  lemma ShadowEvaluate(rules: seq<Rule>, full: State, own: State, now: int, keyOrder: seq<string>,
                       orders: seq<seq<string>>, t: string)
    requires WellFormedRules(rules) && Shadows(full, own, t) && BufferInv(full) && ApartFrom(full.trace.arrivals, t)
    requires ValidOrders(rules, full.buffers, now, keyOrder, orders)
    ensures Shadows(EvaluateStep(rules, full, now, keyOrder, orders),
                    EvaluateStep(rules, own, now, Filter(keyOrder, Owned(t)), OnlyTenant(orders, t)), t)
  {
    var ms := TickMatches(rules, full.buffers, keyOrder, orders, now);
    TickSound(rules, full, keyOrder, orders, now, t);
    SameTasks(rules, full.buffers, own.buffers, keyOrder, orders, t, now);
    SameMatches(TasksOf(rules, full.buffers, keyOrder, orders, now), t, now);
    ShadowMatches(Begin(rules, full, now), Begin(rules, own, now), ms, t, now);
  }

  /** The restricted orders are orders Go could have chosen in the restricted state. */
  lemma OrdersRestrict(rules: seq<Rule>, full: State, own: State, now: int, keyOrder: seq<string>,
                       orders: seq<seq<string>>, t: string)
    requires Shadows(full, own, t) && ValidOrders(rules, full.buffers, now, keyOrder, orders)
    ensures ValidOrders(rules, own.buffers, now, Filter(keyOrder, Owned(t)), OnlyTenant(orders, t))
  {
    FilterDistinct(keyOrder, Owned(t));
    FilterElements(keyOrder, Owned(t));
    OnlyTenantAt(orders, t);
    TenantsRestrict(full.buffers, own.buffers, now, t);
    forall i | 0 <= i < |rules| ensures Enumerates(OnlyTenant(orders, t)[i], Tenants(own.buffers, now)) {
      FilterDistinct(orders[i], Is(t));
      FilterElements(orders[i], Is(t));
    }
  }

  lemma TenantsRestrict(full: map<string, seq<Event>>, own: map<string, seq<Event>>, now: int, t: string)
    requires SameBuffersFor(full, own, t)
    ensures forall x :: x in Tenants(own, now) <==> x == t && x in Tenants(full, now)
  {
    forall x ensures x in Tenants(own, now) <==> x == t && x in Tenants(full, now) {
      if x in Tenants(own, now) {
        var k :| k in own && TenantOfKey(k) == Some(x) && Filter(own[k], Fresh(now)) != [];
        assert Buffered(full, k) == Buffered(own, k);
      }
      if x == t && x in Tenants(full, now) {
        var k :| k in full && TenantOfKey(k) == Some(x) && Filter(full[k], Fresh(now)) != [];
        assert Buffered(full, k) == Buffered(own, k);
      }
    }
  }

  // ---- the other steps ----------------------------------------------------------------

  lemma ShadowIngest(full: State, own: State, e: Event, t: string)
    requires Shadows(full, own, t) && ':' !in e.tenant
    ensures e.tenant == t ==> Shadows(IngestStep(full, e), IngestStep(own, e), t)
    ensures e.tenant != t ==> Shadows(IngestStep(full, e), own, t)
  {
    KeyRoundTrip(e);
  }

  lemma ShadowPrune(full: State, own: State, now: int, t: string)
    requires Shadows(full, own, t)
    ensures Shadows(PruneStep(full, now), PruneStep(own, now), t)
  {
    var f, o := Pruned(full.buffers, now), Pruned(own.buffers, now);
    forall k | TenantOfKey(k) == Some(t) ensures (k in f <==> k in o) && Buffered(f, k) == Buffered(o, k) {
      assert Buffered(full.buffers, k) == Buffered(own.buffers, k);
    }
  }

  lemma ShadowClean(full: State, own: State, now: int, t: string)
    requires Shadows(full, own, t)
    ensures Shadows(CleanStep(full, now), CleanStep(own, now), t)
  {
    forall ruleId, events | BarFree(ruleId) && |events| > 0
      ensures SameEntry(Cleaned(full.cache, now), Cleaned(own.cache, now), Fingerprint(ruleId, t, events))
    {
      assert SameEntry(full.cache, own.cache, Fingerprint(ruleId, t, events));
    }
  }

  lemma ShadowWriteBack(full: State, own: State, id: nat, alertId: string, now: int, t: string)
    requires Shadows(full, own, t)
    ensures Shadows(WriteBackStep(full, id, alertId, now), WriteBackStep(own, id, alertId, now), t)
  {
    ShadowSame(full, WriteBackStep(full, id, alertId, now), own, WriteBackStep(own, id, alertId, now), t);
  }

  lemma ShadowPatch(full: State, own: State, id: nat, status: string, now: int, t: string)
    requires Shadows(full, own, t)
    ensures Shadows(PatchStep(full, id, status, now), PatchStep(own, id, status, now), t)
  {
    ShadowSame(full, PatchStep(full, id, status, now), own, PatchStep(own, id, status, now), t);
  }

  /** Steps that leave buffers, cache, log and outbox alone. */
  lemma ShadowSame(full: State, full': State, own: State, own': State, t: string)
    requires Shadows(full, own, t)
    requires full'.buffers == full.buffers && full'.cache == full.cache
    requires own'.buffers == own.buffers && own'.cache == own.cache
    requires full'.trace.log == full.trace.log && own'.trace.log == own.trace.log
    requires full'.outbox == full.outbox && own'.outbox == own.outbox
    requires own'.trace.clock == full'.trace.clock
    ensures Shadows(full', own', t)
  {
  }

  lemma ShadowDispatch(full: State, own: State, t: string)
    requires Shadows(full, own, t)
    ensures Shadows(PublishStep(full), PublishStep(own), t)
    ensures Shadows(TakeStep(full), TakeStep(own), t)
  {
  }

  lemma ShadowStep(rules: seq<Rule>, full: State, own: State, step: Step, t: string)
    requires WellFormedRules(rules) && Shadows(full, own, t) && BufferInv(full) && ApartFrom(full.trace.arrivals, t)
    requires Enabled(rules, full, step) && (step.Ingest? ==> ColonFree(step.ev.tenant))
    ensures Erase(step, t) == [] ==> Shadows(Next(rules, full, step), own, t)
    ensures Erase(step, t) != [] ==>
              && |Erase(step, t)| == 1
              && Enabled(rules, own, Erase(step, t)[0])
              && Shadows(Next(rules, full, step), Next(rules, own, Erase(step, t)[0]), t)
  {
    match step
    case Ingest(e) => ShadowIngest(full, own, e, t);
    case Evaluate(now, keyOrder, orders) =>
      OrdersRestrict(rules, full, own, now, keyOrder, orders, t);
      ShadowEvaluate(rules, full, own, now, keyOrder, orders, t);
    case Prune(now) => ShadowPrune(full, own, now, t);
    case Clean(now) => ShadowClean(full, own, now, t);
    case WriteBack(id, alertId, now) => ShadowWriteBack(full, own, id, alertId, now, t);
    case Patch(id, status, now) => ShadowPatch(full, own, id, status, now, t);
    case _ => ShadowDispatch(full, own, t);
  }

  lemma {:induction false} ShadowRun(rules: seq<Rule>, full: State, own: State, steps: seq<Step>, t: string)
    requires WellFormedRules(rules) && ColonFreeInputs(steps) && ApartFrom(Ingested(steps), t)
    requires Shadows(full, own, t) && BufferInv(full) && ApartFrom(full.trace.arrivals, t)
    requires ValidRun(rules, full, steps)
    ensures ValidRun(rules, own, EraseAll(steps, t))
    ensures Shadows(Run(rules, full, steps), Run(rules, own, EraseAll(steps, t)), t)
    decreases |steps|
  {
    if |steps| != 0 {
      var step, rest := steps[0], EraseAll(steps[1..], t);
      ColonFreeTail(steps);
      ShadowStep(rules, full, own, step, t);
      BufferStep(rules, full, step);
      StepArrivals(rules, full, step);
      var full1 := Next(rules, full, step);
      if Erase(step, t) == [] {
        ShadowRun(rules, full1, own, steps[1..], t);
        assert [] + rest == rest;
      } else {
        var kept := Erase(step, t)[0];
        ShadowRun(rules, full1, Next(rules, own, kept), steps[1..], t);
        assert EraseAll(steps, t)[0] == kept && EraseAll(steps, t)[1..] == rest;
      }
    }
  }

  /** For every run and tenant, erasing all other tenants' events leaves a run in which the
      same incidents are created for that tenant, in the same order, provided that no other
      tenant's name continues this one's behind a bar or the other way round. */
  lemma TenantIsolation(rules: seq<Rule>, steps: seq<Step>, t: string)
    requires WellFormedRules(rules) && ColonFreeInputs(steps) && ApartFrom(Ingested(steps), t)
    requires ValidRun(rules, INITIAL, steps)
    ensures ValidRun(rules, INITIAL, EraseAll(steps, t))
    ensures CreatedFor(Run(rules, INITIAL, steps).trace.log, t)
            == CreatedFor(Run(rules, INITIAL, EraseAll(steps, t)).trace.log, t)
  {
    ShadowRun(rules, INITIAL, INITIAL, steps, t);
  }

  /** A colon in a tenant name files the event under another tenant: the part before it. */
  lemma ColonMisfiles(e: Event)
    requires ':' in e.tenant
    ensures TenantOfKey(BufferKey(e)) == Some(e.tenant[..IndexOf(e.tenant, ':')])
    ensures TenantOfKey(BufferKey(e)) != Some(e.tenant)
  {
    var i := IndexOf(e.tenant, ':');
    var key := BufferKey(e);
    var rest := e.tenant[i + 1..] + [':'] + e.etype;
    assert e.tenant[..|e.tenant|] == e.tenant;
    assert i < |e.tenant|;
    assert e.tenant == e.tenant[..i] + [':'] + e.tenant[i + 1..];
    assert key == e.tenant[..i] + [':'] + rest;
    IndexOfFirst(e.tenant[..i], ':', rest);
    assert key[..i] == e.tenant[..i];
  }
}
