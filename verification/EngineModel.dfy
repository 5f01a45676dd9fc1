/** The correlation engine as a state machine: one step per critical section of its
    goroutines, over a nondecreasing clock.

    Everything the environment chooses is carried by the step itself: arriving events, the
    orders in which Go ranges over its maps, TheHive's alert IDs, and the times read. */
module EngineModel {
  import opened Sequences
  import opened Strings
  import opened Domain
  import opened Matching
  import opened Fingerprints

  datatype Counters = Counters(ingested: nat, rulesEvaluated: nat, created: nat, dedupHits: nat)

  /** A non-blocking send: a full channel refuses the incident. */
  datatype Offer = Offer(inc: Incident, accepted: bool)

  /** History that the engine itself does not keep. */
  datatype Trace = Trace(
    clock: int,
    arrivals: seq<Event>,
    log: seq<Incident>,          // every incident, as created
    offers: seq<Offer>,          // those put to the dispatch channel so far
    taken: seq<Incident>,        // those the dispatcher received
    evicted: map<string, nat>,   // events lost to the cap, per buffer key
    pruned: map<string, nat>)    // events lost to the pruner, per buffer key

  datatype State = State(
    buffers: map<string, seq<Event>>,
    incidents: map<nat, Incident>,
    cache: map<string, int>,
    outbox: seq<Incident>,       // returned by evaluateRules, not yet offered to the channel
    channel: seq<Incident>,
    counters: Counters,
    trace: Trace)

  const INITIAL: State :=
    State(map[], map[], map[], [], [], Counters(0, 0, 0, 0),
          Trace(0, [], [], [], [], map[], map[]))

  datatype Step =
    | Ingest(ev: Event)
    | Evaluate(now: int, keyOrder: seq<string>, tenantOrders: seq<seq<string>>)
    | Publish
    | Take
    | WriteBack(id: nat, alertId: string, now: int)
    | Patch(id: nat, status: string, now: int)
    | Clean(now: int)
    | Prune(now: int)

  // ---- buffers -------------------------------------------------------------

  function BufferKey(e: Event): string {
    e.tenant + ":" + e.etype
  }

  /** The part of a buffer key before its first colon. */
  function TenantOfKey(key: string): Option<string> {
    var i := IndexOf(key, ':');
    if i == |key| then None else Some(key[..i])
  }

  /** Splitting the key gives the tenant back exactly when the tenant has no colon. */
  lemma KeyRoundTrip(e: Event)
    ensures TenantOfKey(BufferKey(e)) == Some(e.tenant) <==> ':' !in e.tenant
  {
    var key := BufferKey(e);
    assert key == e.tenant + [':'] + e.etype;
    if ':' !in e.tenant {
      IndexOfFirst(e.tenant, ':', e.etype);
      assert key[..|e.tenant|] == e.tenant;
    }
  }

  /** Colon-free tenants and event types each have their own buffers. */
  lemma KeysApart(a: Event, b: Event)
    requires ':' !in a.tenant && ':' !in b.tenant
    ensures BufferKey(a) == BufferKey(b) <==> a.tenant == b.tenant && a.etype == b.etype
  {
    if BufferKey(a) == BufferKey(b) {
      assert BufferKey(a) == a.tenant + [':'] + a.etype && BufferKey(b) == b.tenant + [':'] + b.etype;
      CutUnique(a.tenant, a.etype, b.tenant, b.etype, ':');
    }
  }

  function Buffered(buffers: map<string, seq<Event>>, key: string): seq<Event> {
    if key in buffers then buffers[key] else []
  }

  function Count(m: map<string, nat>, key: string): nat {
    if key in m then m[key] else 0
  }

  /** What ingesting `e` leaves in the buffer of its key. */
  function Pushed(buf: seq<Event>, e: Event): seq<Event> {
    (if |buf| >= MAX_BUFFER_PER_KEY then buf[1..] else buf) + [e]
  }

  function Fresh(now: int): Event -> bool {
    FreshAfter(now - BUFFER_WINDOW)
  }

  function Pruned(buffers: map<string, seq<Event>>, now: int): map<string, seq<Event>> {
    map k | k in buffers && Filter(buffers[k], Fresh(now)) != [] :: Filter(buffers[k], Fresh(now))
  }

  function Cleaned(cache: map<string, int>, now: int): map<string, int> {
    map fp | fp in cache && !(cache[fp] < now - CACHE_RETENTION) :: cache[fp]
  }

  // ---- evaluation ------------------------------------------------------------

  /** The within-window events of one tenant, in the order the buffer map was ranged over. */
  function Snapshot(buffers: map<string, seq<Event>>, keyOrder: seq<string>, tenant: string, now: int): seq<Event> {
    if |keyOrder| == 0 then []
    else
      var init, k := keyOrder[..|keyOrder| - 1], keyOrder[|keyOrder| - 1];
      if TenantOfKey(k) == Some(tenant)
      then Snapshot(buffers, init, tenant, now) + Filter(Buffered(buffers, k), Fresh(now))
      else Snapshot(buffers, init, tenant, now)
  }

  /** The tenants with at least one within-window event. */
  function Tenants(buffers: map<string, seq<Event>>, now: int): set<string> {
    set k | k in buffers && TenantOfKey(k).Some? && Filter(buffers[k], Fresh(now)) != []
      :: TenantOfKey(k).value
  }

  /** One iteration of the rule and tenant loops. */
  datatype Task = Task(rule: Rule, tenant: string, events: seq<Event>)

  function TasksFor(buffers: map<string, seq<Event>>, keyOrder: seq<string>, rule: Rule,
                    tenants: seq<string>, now: int): seq<Task> {
    if |tenants| == 0 then []
    else
      var t := tenants[|tenants| - 1];
      TasksFor(buffers, keyOrder, rule, tenants[..|tenants| - 1], now)
      + [Task(rule, t, Snapshot(buffers, keyOrder, t, now))]
  }

  function TasksOf(rules: seq<Rule>, buffers: map<string, seq<Event>>, keyOrder: seq<string>,
                   tenantOrders: seq<seq<string>>, now: int): seq<Task>
    requires |tenantOrders| == |rules|
  {
    if |rules| == 0 then []
    else
      var n := |rules| - 1;
      TasksOf(rules[..n], buffers, keyOrder, tenantOrders[..n], now)
      + TasksFor(buffers, keyOrder, rules[n], tenantOrders[n], now)
  }

  /** The events a task matches on: those inside the rule's own window as well. */
  function WindowOf(task: Task, now: int): seq<Event> {
    Filter(task.events, FreshAfter(now - task.rule.window))
  }

  /** A rule that fired for a tenant, before deduplication. */
  datatype Match = Match(rule: Rule, tenant: string, events: seq<Event>, fp: string)

  function MatchesFor(task: Task, now: int): seq<Match> {
    match MatchRule(task.rule, WindowOf(task, now))
    case None => []
    case Some(events) => [Match(task.rule, task.tenant, events, Fingerprint(task.rule.id, task.tenant, events))]
  }

  function MatchesOf(tasks: seq<Task>, now: int): seq<Match> {
    if |tasks| == 0 then []
    else MatchesOf(tasks[..|tasks| - 1], now) + MatchesFor(tasks[|tasks| - 1], now)
  }

  predicate Suppressed(cache: map<string, int>, m: Match, now: int) {
    m.fp in cache && now - cache[m.fp] < m.rule.window * 2
  }

  function NewIncident(id: nat, m: Match, now: int): Incident {
    var r := m.rule;
    Incident(id, m.tenant, r.name, r.description, r.severity, "new", m.events, now, now, m.fp, "",
             r.tactic, r.technique, r.id, r.name)
  }

  function ProcessMatch(st: State, m: Match, now: int): State {
    if Suppressed(st.cache, m, now) then
      st.(counters := st.counters.(dedupHits := st.counters.dedupHits + 1))
    else
      var inc := NewIncident(st.counters.created, m, now);
      st.(incidents := st.incidents[inc.id := inc],
          cache := st.cache[m.fp := now],
          outbox := st.outbox + [inc],
          counters := st.counters.(created := st.counters.created + 1),
          trace := st.trace.(log := st.trace.log + [inc]))
  }

  function ProcessMatches(st: State, ms: seq<Match>, now: int): State
    decreases |ms|
  {
    if |ms| == 0 then st
    else ProcessMatches(ProcessMatch(st, ms[0], now), ms[1..], now)
  }

  lemma {:induction false} ProcessAppend(st: State, a: seq<Match>, b: seq<Match>, now: int)
    ensures ProcessMatches(st, a + b, now) == ProcessMatches(ProcessMatches(st, a, now), b, now)
    decreases |a|
  {
    if |a| == 0 {
      assert a + b == b;
    } else {
      assert (a + b)[1..] == a[1..] + b;
      ProcessAppend(ProcessMatch(st, a[0], now), a[1..], b, now);
    }
  }

  /** The state in which the rule loop starts: the tick has read its clock. */
  function Begin(rules: seq<Rule>, st: State, now: int): State {
    st.(counters := st.counters.(rulesEvaluated := st.counters.rulesEvaluated + |rules|),
        trace := st.trace.(clock := now))
  }

  function TickMatches(rules: seq<Rule>, buffers: map<string, seq<Event>>, keyOrder: seq<string>,
                       tenantOrders: seq<seq<string>>, now: int): seq<Match>
    requires |tenantOrders| == |rules|
  {
    MatchesOf(TasksOf(rules, buffers, keyOrder, tenantOrders, now), now)
  }

  // ---- steps -------------------------------------------------------------------

  function IngestStep(st: State, e: Event): State {
    var key := BufferKey(e);
    var buf := Buffered(st.buffers, key);
    var lost := if |buf| >= MAX_BUFFER_PER_KEY then 1 else 0;
    st.(buffers := st.buffers[key := Pushed(buf, e)],
        counters := st.counters.(ingested := st.counters.ingested + 1),
        trace := st.trace.(arrivals := st.trace.arrivals + [e],
                           evicted := st.trace.evicted[key := Count(st.trace.evicted, key) + lost]))
  }

  function PrunedCounts(st: State, now: int): map<string, nat> {
    map k | k in st.buffers.Keys + st.trace.pruned.Keys ::
      Count(st.trace.pruned, k) + Lost(Buffered(st.buffers, k), now)
  }

  function Lost(buf: seq<Event>, now: int): nat {
    FilterElements(buf, Fresh(now));
    |buf| - |Filter(buf, Fresh(now))|
  }

  function PruneStep(st: State, now: int): State {
    st.(buffers := Pruned(st.buffers, now),
        trace := st.trace.(clock := now, pruned := PrunedCounts(st, now)))
  }

  function CleanStep(st: State, now: int): State {
    st.(cache := Cleaned(st.cache, now), trace := st.trace.(clock := now))
  }

  /** The non-blocking send of one incident into the dispatch channel. */
  function PublishStep(st: State): State {
    if |st.outbox| == 0 then st
    else
      var inc, accepted := st.outbox[0], |st.channel| < CHANNEL_CAPACITY;
      st.(outbox := st.outbox[1..],
          channel := if accepted then st.channel + [inc] else st.channel,
          trace := st.trace.(offers := st.trace.offers + [Offer(inc, accepted)]))
  }

  function TakeStep(st: State): State {
    if |st.channel| == 0 then st
    else st.(channel := st.channel[1..], trace := st.trace.(taken := st.trace.taken + [st.channel[0]]))
  }

  /** The critical section that ends `dispatchToTheHive`: re-read, change one field, store. */
  function WriteBackStep(st: State, id: nat, alertId: string, now: int): State {
    var ticked := st.(trace := st.trace.(clock := now));
    if id in st.incidents
    then ticked.(incidents := st.incidents[id := st.incidents[id].(theHiveId := alertId, updatedAt := now)])
    else ticked
  }

  /** The statuses that `patchIncident` lets through to the engine. */
  predicate AcceptedStatus(status: string) {
    status == "investigating" || status == "resolved"
  }

  function PatchStep(st: State, id: nat, status: string, now: int): State {
    var ticked := st.(trace := st.trace.(clock := now));
    if AcceptedStatus(status) && id in st.incidents
    then ticked.(incidents := st.incidents[id := st.incidents[id].(status := status, updatedAt := now)])
    else ticked
  }

  function EvaluateStep(rules: seq<Rule>, st: State, now: int, keyOrder: seq<string>,
                        tenantOrders: seq<seq<string>>): State
  {
    if |tenantOrders| != |rules| then st   // not a tick: one tenant order is drawn per rule
    else ProcessMatches(Begin(rules, st, now), TickMatches(rules, st.buffers, keyOrder, tenantOrders, now), now)
  }

  ghost predicate ValidOrders(rules: seq<Rule>, buffers: map<string, seq<Event>>, now: int,
                              keyOrder: seq<string>, tenantOrders: seq<seq<string>>) {
    && Enumerates(keyOrder, buffers.Keys)
    && |tenantOrders| == |rules|
    && forall i :: 0 <= i < |rules| ==> Enumerates(tenantOrders[i], Tenants(buffers, now))
  }

  /** The clock never runs backwards, and a tick publishes everything before the next one. */
  ghost predicate Enabled(rules: seq<Rule>, st: State, step: Step) {
    match step
    case Ingest(_) => true
    case Evaluate(now, keyOrder, tenantOrders) =>
      && now >= st.trace.clock
      && st.outbox == []
      && ValidOrders(rules, st.buffers, now, keyOrder, tenantOrders)
    case Publish => true   // idle once everything is published
    case Take => true      // idle while the channel is empty
    case WriteBack(_, _, now) => now >= st.trace.clock
    case Patch(_, _, now) => now >= st.trace.clock
    case Clean(now) => now >= st.trace.clock
    case Prune(now) => now >= st.trace.clock
  }

  function Next(rules: seq<Rule>, st: State, step: Step): State {
    match step
    case Ingest(e) => IngestStep(st, e)
    case Evaluate(now, keyOrder, tenantOrders) => EvaluateStep(rules, st, now, keyOrder, tenantOrders)
    case Publish => PublishStep(st)
    case Take => TakeStep(st)
    case WriteBack(id, alertId, now) => WriteBackStep(st, id, alertId, now)
    case Patch(id, status, now) => PatchStep(st, id, status, now)
    case Clean(now) => CleanStep(st, now)
    case Prune(now) => PruneStep(st, now)
  }

  ghost predicate ValidRun(rules: seq<Rule>, st: State, steps: seq<Step>)
    decreases |steps|
  {
    |steps| > 0 ==>
      Enabled(rules, st, steps[0]) && ValidRun(rules, Next(rules, st, steps[0]), steps[1..])
  }

  function Run(rules: seq<Rule>, st: State, steps: seq<Step>): State
    decreases |steps|
  {
    if |steps| == 0 then st else Run(rules, Next(rules, st, steps[0]), steps[1..])
  }

  // ---- runs in two parts --------------------------------------------------------------

  lemma RunCons(rules: seq<Rule>, st: State, s: Step, rest: seq<Step>)
    requires Enabled(rules, st, s) && ValidRun(rules, Next(rules, st, s), rest)
    ensures ValidRun(rules, st, [s] + rest) && Run(rules, st, [s] + rest) == Run(rules, Next(rules, st, s), rest)
  {
    assert ([s] + rest)[1..] == rest;
  }

  lemma {:induction false} RunAppend(rules: seq<Rule>, st: State, a: seq<Step>, b: seq<Step>)
    requires ValidRun(rules, st, a) && ValidRun(rules, Run(rules, st, a), b)
    ensures ValidRun(rules, st, a + b) && Run(rules, st, a + b) == Run(rules, Run(rules, st, a), b)
    decreases |a|
  {
    if |a| == 0 {
      assert a + b == b;
    } else {
      RunAppend(rules, Next(rules, st, a[0]), a[1..], b);
      RunCons(rules, st, a[0], a[1..] + b);
      assert a + b == [a[0]] + (a[1..] + b);
    }
  }

  lemma {:induction false} RunSnoc(rules: seq<Rule>, st: State, steps: seq<Step>, s: Step)
    requires ValidRun(rules, st, steps) && Enabled(rules, Run(rules, st, steps), s)
    ensures ValidRun(rules, st, steps + [s]) && Run(rules, st, steps + [s]) == Next(rules, Run(rules, st, steps), s)
  {
    var end := Run(rules, st, steps);
    assert [s][1..] == [];
    assert ValidRun(rules, Next(rules, end, s), []) && ValidRun(rules, end, [s]);
    assert Run(rules, end, [s]) == Run(rules, Next(rules, end, s), []) == Next(rules, end, s);
    RunAppend(rules, st, steps, [s]);
  }

  lemma {:induction false} RunSplit(rules: seq<Rule>, st: State, steps: seq<Step>, n: nat)
    requires ValidRun(rules, st, steps) && n <= |steps|
    ensures ValidRun(rules, st, steps[..n])
    ensures ValidRun(rules, Run(rules, st, steps[..n]), steps[n..])
    ensures Run(rules, st, steps) == Run(rules, Run(rules, st, steps[..n]), steps[n..])
    decreases n
  {
    if n == 0 {
      assert steps[0..] == steps && steps[..0] == [];
    } else {
      var st1, rest := Next(rules, st, steps[0]), steps[1..];
      RunSplit(rules, st1, rest, n - 1);
      RunCons(rules, st, steps[0], rest[..n - 1]);
      assert steps[..n] == [steps[0]] + rest[..n - 1] && steps[n..] == rest[n - 1..];
    }
  }

  // ---- assumptions on rules and inputs ---------------------------------------------

  /** Rule IDs are distinct and free of the fingerprint's separator. */
  ghost predicate WellFormedRules(rules: seq<Rule>) {
    && (forall i, j :: 0 <= i < j < |rules| ==> rules[i].id != rules[j].id)
    && (forall i :: 0 <= i < |rules| ==> BarFree(rules[i].id))
  }

  /** Every dedup horizon ends before the cleaner drops its cache entry. */
  ghost predicate ShortWindows(rules: seq<Rule>) {
    forall i :: 0 <= i < |rules| ==> rules[i].window * 2 <= CACHE_RETENTION
  }

  /** A tenant name that the buffer key gives back. */
  predicate ColonFree(t: string) {
    ':' !in t
  }

  ghost predicate ColonFreeInputs(steps: seq<Step>) {
    forall i :: 0 <= i < |steps| && steps[i].Ingest? ==> ColonFree(steps[i].ev.tenant)
  }

  function Arrival(step: Step): seq<Event> {
    if step.Ingest? then [step.ev] else []
  }

  /** The events a run ingests. */
  function Ingested(steps: seq<Step>): seq<Event>
    decreases |steps|
  {
    if |steps| == 0 then [] else Arrival(steps[0]) + Ingested(steps[1..])
  }

  /** No tenant continues another one behind a bar. */
  ghost predicate ApartTenants(events: seq<Event>) {
    forall e, f :: e in events && f in events ==> Apart(e.tenant, f.tenant)
  }

  lemma ProcessSnoc(st: State, ms: seq<Match>, m: Match, now: int)
    ensures ProcessMatches(st, ms + [m], now) == ProcessMatch(ProcessMatches(st, ms, now), m, now)
  {
    ProcessAppend(st, ms, [m], now);
    var st1 := ProcessMatches(st, ms, now);
    assert [m][1..] == [];
    assert ProcessMatches(st1, [m], now) == ProcessMatches(ProcessMatch(st1, m, now), [], now);
  }

  lemma TasksForSnoc(buffers: map<string, seq<Event>>, keyOrder: seq<string>, rule: Rule,
                     tenants: seq<string>, t: string, now: int)
    ensures TasksFor(buffers, keyOrder, rule, tenants + [t], now)
            == TasksFor(buffers, keyOrder, rule, tenants, now) + [Task(rule, t, Snapshot(buffers, keyOrder, t, now))]
  {
    assert (tenants + [t])[..|tenants|] == tenants;
  }

  lemma MatchesSnoc(tasks: seq<Task>, task: Task, now: int)
    ensures MatchesOf(tasks + [task], now) == MatchesOf(tasks, now) + MatchesFor(task, now)
  {
    assert (tasks + [task])[..|tasks|] == tasks;
  }

  lemma SnapshotSnoc(buffers: map<string, seq<Event>>, order: seq<string>, k: string, t: string, now: int)
    ensures Snapshot(buffers, order + [k], t, now)
            == if TenantOfKey(k) == Some(t)
               then Snapshot(buffers, order, t, now) + Filter(Buffered(buffers, k), Fresh(now))
               else Snapshot(buffers, order, t, now)
  {
    assert (order + [k])[..|order|] == order;
  }

  lemma {:induction false} SnapshotElements(buffers: map<string, seq<Event>>, keyOrder: seq<string>, t: string,
                                            now: int)
    ensures forall e :: e in Snapshot(buffers, keyOrder, t, now) ==>
              e.ts > now - BUFFER_WINDOW
              && exists k :: k in keyOrder && TenantOfKey(k) == Some(t) && e in Buffered(buffers, k)
  {
    if |keyOrder| != 0 {
      var k := keyOrder[|keyOrder| - 1];
      SnapshotElements(buffers, keyOrder[..|keyOrder| - 1], t, now);
      FilterElements(Buffered(buffers, k), Fresh(now));
    }
  }

  // ---- facts about tasks -------------------------------------------------------------

  ghost predicate TenantsApart(tasks: seq<Task>) {
    forall i, j :: 0 <= i < |tasks| && 0 <= j < |tasks| ==> Apart(tasks[i].tenant, tasks[j].tenant)
  }

  /** No two tasks share rule and tenant, and rule IDs contain no bar. */
  ghost predicate ApartTasks(tasks: seq<Task>) {
    && (forall i :: 0 <= i < |tasks| ==> BarFree(tasks[i].rule.id))
    && (forall i, j :: 0 <= i < j < |tasks| ==>
          tasks[i].rule.id != tasks[j].rule.id || tasks[i].tenant != tasks[j].tenant)
  }

  lemma {:induction false} TasksForMembers(buffers: map<string, seq<Event>>, keyOrder: seq<string>, rule: Rule,
                                           tenants: seq<string>, now: int)
    ensures |TasksFor(buffers, keyOrder, rule, tenants, now)| == |tenants|
    ensures forall i :: 0 <= i < |tenants| ==>
              TasksFor(buffers, keyOrder, rule, tenants, now)[i]
              == Task(rule, tenants[i], Snapshot(buffers, keyOrder, tenants[i], now))
  {
    if |tenants| != 0 {
      TasksForMembers(buffers, keyOrder, rule, tenants[..|tenants| - 1], now);
    }
  }

  ghost predicate TaskOf(task: Task, rules: seq<Rule>, buffers: map<string, seq<Event>>, keyOrder: seq<string>,
                         tenantOrders: seq<seq<string>>, now: int, i: int)
    requires |tenantOrders| == |rules|
  {
    && 0 <= i < |rules|
    && task.rule == rules[i]
    && task.tenant in tenantOrders[i]
    && task.events == Snapshot(buffers, keyOrder, task.tenant, now)
  }

  /** The tasks of a tick are exactly the (rule, tenant) pairs, each with its snapshot. */
  lemma {:induction false} TasksOfMembers(rules: seq<Rule>, buffers: map<string, seq<Event>>, keyOrder: seq<string>,
                                          tenantOrders: seq<seq<string>>, now: int)
    requires |tenantOrders| == |rules|
    ensures forall task :: task in TasksOf(rules, buffers, keyOrder, tenantOrders, now) <==>
              exists i :: TaskOf(task, rules, buffers, keyOrder, tenantOrders, now, i)
  {
    if |rules| != 0 {
      var n := |rules| - 1;
      var early := TasksOf(rules[..n], buffers, keyOrder, tenantOrders[..n], now);
      var late := TasksFor(buffers, keyOrder, rules[n], tenantOrders[n], now);
      TasksOfMembers(rules[..n], buffers, keyOrder, tenantOrders[..n], now);
      TasksForMembers(buffers, keyOrder, rules[n], tenantOrders[n], now);
      forall task ensures task in early + late <==>
          exists i :: TaskOf(task, rules, buffers, keyOrder, tenantOrders, now, i)
      {
        if task in early {
          var i :| TaskOf(task, rules[..n], buffers, keyOrder, tenantOrders[..n], now, i);
          assert TaskOf(task, rules, buffers, keyOrder, tenantOrders, now, i);
        }
        if task in late {
          assert TaskOf(task, rules, buffers, keyOrder, tenantOrders, now, n);
        }
        if i :| TaskOf(task, rules, buffers, keyOrder, tenantOrders, now, i) {
          if i < n {
            assert TaskOf(task, rules[..n], buffers, keyOrder, tenantOrders[..n], now, i);
          } else {
            var j :| 0 <= j < |tenantOrders[n]| && tenantOrders[n][j] == task.tenant;
            assert late[j] == task;
          }
        }
      }
    }
  }

  /** With the orders a tick may draw, those are the tenants with recent events. */
  lemma TickTasks(rules: seq<Rule>, buffers: map<string, seq<Event>>, keyOrder: seq<string>,
                  tenantOrders: seq<seq<string>>, now: int, task: Task)
    requires ValidOrders(rules, buffers, now, keyOrder, tenantOrders)
    ensures task in TasksOf(rules, buffers, keyOrder, tenantOrders, now) <==>
              && task.rule in rules && task.tenant in Tenants(buffers, now)
              && task.events == Snapshot(buffers, keyOrder, task.tenant, now)
  {
    TasksOfMembers(rules, buffers, keyOrder, tenantOrders, now);
    if task.rule in rules && task.tenant in Tenants(buffers, now)
       && task.events == Snapshot(buffers, keyOrder, task.tenant, now)
    {
      var i :| 0 <= i < |rules| && rules[i] == task.rule;
      assert TaskOf(task, rules, buffers, keyOrder, tenantOrders, now, i);
    }
  }

  lemma {:induction false} TasksApart(rules: seq<Rule>, buffers: map<string, seq<Event>>, keyOrder: seq<string>,
                                      tenantOrders: seq<seq<string>>, now: int)
    requires WellFormedRules(rules) && |tenantOrders| == |rules|
    requires forall i :: 0 <= i < |rules| ==> Distinct(tenantOrders[i])
    ensures ApartTasks(TasksOf(rules, buffers, keyOrder, tenantOrders, now))
  {
    if |rules| != 0 {
      var n := |rules| - 1;
      var early := TasksOf(rules[..n], buffers, keyOrder, tenantOrders[..n], now);
      var late := TasksFor(buffers, keyOrder, rules[n], tenantOrders[n], now);
      TasksApart(rules[..n], buffers, keyOrder, tenantOrders[..n], now);
      TasksOfMembers(rules[..n], buffers, keyOrder, tenantOrders[..n], now);
      TasksForMembers(buffers, keyOrder, rules[n], tenantOrders[n], now);
      forall i | 0 <= i < |early| ensures early[i].rule.id != rules[n].id {
        assert early[i] in early;
        var k :| TaskOf(early[i], rules[..n], buffers, keyOrder, tenantOrders[..n], now, k);
        assert early[i].rule == rules[k];
      }
    }
  }

  // ---- facts about matches -------------------------------------------------------------

  ghost predicate MatchOf(m: Match, task: Task, now: int) {
    && m.rule == task.rule
    && m.tenant == task.tenant
    && MatchRule(task.rule, WindowOf(task, now)) == Some(m.events)
    && m.fp == Fingerprint(m.rule.id, m.tenant, m.events)
  }

  lemma MatchesForMembers(task: Task, now: int)
    ensures forall m :: m in MatchesFor(task, now) <==> MatchOf(m, task, now)
  {
  }

  /** The matches of a tick are those of its tasks, and nothing else. */
  lemma {:induction false} MatchHasTask(tasks: seq<Task>, now: int, m: Match) returns (task: Task)
    requires m in MatchesOf(tasks, now)
    ensures task in tasks && MatchOf(m, task, now)
  {
    var init, last := tasks[..|tasks| - 1], tasks[|tasks| - 1];
    if m in MatchesOf(init, now) {
      task := MatchHasTask(init, now, m);
    } else {
      MatchesForMembers(last, now);
      task := last;
    }
  }

  lemma {:induction false} TaskHasMatch(tasks: seq<Task>, now: int, task: Task, m: Match)
    requires task in tasks && MatchOf(m, task, now)
    ensures m in MatchesOf(tasks, now)
  {
    var init, last := tasks[..|tasks| - 1], tasks[|tasks| - 1];
    if task == last {
      MatchesForMembers(last, now);
    } else {
      TaskHasMatch(init, now, task, m);
    }
  }

  /** No two matches of a tick share a fingerprint. */
  ghost predicate ApartMatches(ms: seq<Match>) {
    forall i, j :: 0 <= i < j < |ms| ==> ms[i].fp != ms[j].fp
  }

  lemma MatchesDiffer(m1: Match, task1: Task, m2: Match, task2: Task, now: int)
    requires MatchOf(m1, task1, now) && MatchOf(m2, task2, now)
    requires BarFree(task1.rule.id) && BarFree(task2.rule.id) && Apart(task1.tenant, task2.tenant)
    requires task1.rule.id != task2.rule.id || task1.tenant != task2.tenant
    ensures m1.fp != m2.fp
  {
    MatchNonEmpty(task1.rule, WindowOf(task1, now));
    MatchNonEmpty(task2.rule, WindowOf(task2, now));
    if m1.fp == m2.fp {
      FingerprintSeparates(m1.rule.id, m1.tenant, m1.events, m2.rule.id, m2.tenant, m2.events);
    }
  }

  lemma {:induction false} MatchesApart(tasks: seq<Task>, now: int)
    requires ApartTasks(tasks) && TenantsApart(tasks)
    ensures ApartMatches(MatchesOf(tasks, now))
  {
    if |tasks| != 0 {
      var n := |tasks| - 1;
      var init, last := tasks[..n], tasks[n];
      var early := MatchesOf(init, now);
      MatchesApart(init, now);
      MatchesForMembers(last, now);
      forall i, m | 0 <= i < |early| && m in MatchesFor(last, now) ensures early[i].fp != m.fp {
        var task := MatchHasTask(init, now, early[i]);
        var k :| 0 <= k < n && init[k] == task;
        assert tasks[k] == task;
        assert Apart(tasks[k].tenant, tasks[n].tenant);
        MatchesDiffer(early[i], task, m, last, now);
      }
    }
  }
}
