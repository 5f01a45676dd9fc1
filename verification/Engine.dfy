/** The correlation engine as an object whose methods update its fields.  Every method is
    proved against one step of the state machine in EngineModel, so all results about runs
    of that machine are results about this class. */
module CorrelationEngine {
  import opened Sequences
  import opened Strings
  import opened Domain
  import opened Matching
  import opened Fingerprints
  import opened EngineModel
  import opened Reachable

  /** The range loop that keeps the events newer than a cutoff. */
  method CollectNewer(events: seq<Event>, cutoff: int) returns (kept: seq<Event>)
    ensures kept == Filter(events, FreshAfter(cutoff))
  {
    kept := [];
    for i := 0 to |events|
      invariant kept == Filter(events[..i], FreshAfter(cutoff))
    {
      assert events[..i + 1][..i] == events[..i];
      if events[i].ts > cutoff {
        kept := kept + [events[i]];
      }
    }
    assert events[..|events|] == events;
  }

  function Grouped(groups: map<string, seq<Event>>, t: string): seq<Event> {
    if t in groups then groups[t] else []
  }

  /** `groups` is what grouping by tenant has produced once the keys in `order` were visited. */
  ghost predicate GroupsTenants(groups: map<string, seq<Event>>, buffers: map<string, seq<Event>>,
                                order: seq<string>, now: int) {
    && (forall t :: Grouped(groups, t) == Snapshot(buffers, order, t, now))
    && (forall t :: t in groups ==> groups[t] != [])
  }

  lemma {:induction false} SnapshotNonEmptyIff(buffers: map<string, seq<Event>>, order: seq<string>, t: string,
                                               now: int)
    requires forall k :: k in order ==> k in buffers
    ensures Snapshot(buffers, order, t, now) != [] <==>
              exists k :: k in order && TenantOfKey(k) == Some(t) && Filter(buffers[k], Fresh(now)) != []
  {
    if |order| != 0 {
      var init, last := order[..|order| - 1], order[|order| - 1];
      SnapshotNonEmptyIff(buffers, init, t, now);
      assert order == init + [last];
    }
  }

  /** The groups present are the tenants with a within-window event. */
  lemma GroupKeys(groups: map<string, seq<Event>>, buffers: map<string, seq<Event>>, order: seq<string>, now: int)
    requires GroupsTenants(groups, buffers, order, now) && Enumerates(order, buffers.Keys)
    ensures groups.Keys == Tenants(buffers, now)
  {
    forall t ensures t in groups <==> t in Tenants(buffers, now) {
      SnapshotNonEmptyIff(buffers, order, t, now);
      assert Grouped(groups, t) == Snapshot(buffers, order, t, now);
    }
  }

  /** Visits the buffer map in an arbitrary order and groups the recent events by tenant. */
  method GroupByTenant(buffers: map<string, seq<Event>>, now: int)
    returns (groups: map<string, seq<Event>>, ghost order: seq<string>)
    ensures Enumerates(order, buffers.Keys) && GroupsTenants(groups, buffers, order, now)
  {
    groups, order := map[], [];
    var remaining := buffers.Keys;
    while remaining != {}
      invariant remaining <= buffers.Keys
      invariant Enumerates(order, buffers.Keys - remaining)
      invariant GroupsTenants(groups, buffers, order, now)
      decreases remaining
    {
      var k :| k in remaining;
      remaining := remaining - {k};
      var recent := CollectNewer(buffers[k], now - BUFFER_WINDOW);
      var colon := IndexOf(k, ':');
      ghost var before := groups;
      if colon < |k| && recent != [] {
        var t := k[..colon];
        groups := groups[t := Grouped(groups, t) + recent];
      }
      forall t ensures Grouped(groups, t) == Snapshot(buffers, order + [k], t, now) {
        SnapshotSnoc(buffers, order, k, t, now);
        assert Grouped(before, t) == Snapshot(buffers, order, t, now);
      }
      order := order + [k];
    }
  }

  /** The matching half of the tenant loop's body. */
  method MatchPair(rule: Rule, tenant: string, allEvents: seq<Event>, now: int)
    returns (matchedEvents: seq<Event>, fp: string, matched: bool)
    ensures MatchesFor(Task(rule, tenant, allEvents), now)
            == if matched then [Match(rule, tenant, matchedEvents, fp)] else []
  {
    var windowEvents := CollectNewer(allEvents, now - rule.window);
    if |windowEvents| == 0 {
      MatchNothing(rule);
      return [], "", false;
    }
    matchedEvents, matched := MatchRuleInPlace(rule, windowEvents);
    fp := "";
    if matched {
      fp := ComputeFingerprint(matchedEvents, rule.id, tenant);
    }
  }

  // ---- the tasks of a tick, read off the grouped snapshot ----------------------------

  function GroupTasks(groups: map<string, seq<Event>>, rule: Rule, order: seq<string>): seq<Task> {
    seq(|order|, i requires 0 <= i < |order| => Task(rule, order[i], Grouped(groups, order[i])))
  }

  lemma GroupTasksSnoc(groups: map<string, seq<Event>>, rule: Rule, order: seq<string>, t: string)
    requires t in groups
    ensures GroupTasks(groups, rule, order + [t]) == GroupTasks(groups, rule, order) + [Task(rule, t, groups[t])]
  {
  }

  function GroupMatches(groups: map<string, seq<Event>>, rules: seq<Rule>, orders: seq<seq<string>>,
                        now: int): seq<Match>
    requires |orders| == |rules|
  {
    if |rules| == 0 then []
    else
      var n := |rules| - 1;
      GroupMatches(groups, rules[..n], orders[..n], now) + MatchesOf(GroupTasks(groups, rules[n], orders[n]), now)
  }

  lemma GroupMatchesSnoc(groups: map<string, seq<Event>>, rules: seq<Rule>, r: nat, orders: seq<seq<string>>,
                         order: seq<string>, now: int)
    requires r < |rules| && |orders| == r
    ensures GroupMatches(groups, rules[..r + 1], orders + [order], now)
            == GroupMatches(groups, rules[..r], orders, now) + MatchesOf(GroupTasks(groups, rules[r], order), now)
  {
    assert rules[..r + 1][..r] == rules[..r];
    assert (orders + [order])[..r] == orders;
  }

  lemma {:induction false} GroupTasksAre(groups: map<string, seq<Event>>, rule: Rule, order: seq<string>,
                                         buffers: map<string, seq<Event>>, keyOrder: seq<string>, now: int)
    requires GroupsTenants(groups, buffers, keyOrder, now)
    ensures GroupTasks(groups, rule, order) == TasksFor(buffers, keyOrder, rule, order, now)
  {
    TasksForMembers(buffers, keyOrder, rule, order, now);
    forall i | 0 <= i < |order|
      ensures GroupTasks(groups, rule, order)[i] == TasksFor(buffers, keyOrder, rule, order, now)[i]
    {
      assert Grouped(groups, order[i]) == Snapshot(buffers, keyOrder, order[i], now);
    }
  }

  function MatchesAt(now: int): Task -> seq<Match> {
    (task: Task) => MatchesFor(task, now)
  }

  lemma {:induction false} MatchesAreFlat(tasks: seq<Task>, now: int)
    ensures MatchesOf(tasks, now) == FlatMap(tasks, MatchesAt(now))
  {
    if |tasks| != 0 {
      MatchesAreFlat(tasks[..|tasks| - 1], now);
    }
  }

  lemma MatchesConcat(a: seq<Task>, b: seq<Task>, now: int)
    ensures MatchesOf(a + b, now) == MatchesOf(a, now) + MatchesOf(b, now)
  {
    MatchesAreFlat(a, now);
    MatchesAreFlat(b, now);
    MatchesAreFlat(a + b, now);
    FlatMapConcat(a, b, MatchesAt(now));
  }

  lemma {:induction false} GroupMatchesAre(groups: map<string, seq<Event>>, rules: seq<Rule>, orders: seq<seq<string>>,
                                           buffers: map<string, seq<Event>>, keyOrder: seq<string>, now: int)
    requires |orders| == |rules| && GroupsTenants(groups, buffers, keyOrder, now)
    ensures GroupMatches(groups, rules, orders, now) == TickMatches(rules, buffers, keyOrder, orders, now)
  {
    if |rules| != 0 {
      var n := |rules| - 1;
      var early := TasksOf(rules[..n], buffers, keyOrder, orders[..n], now);
      GroupMatchesAre(groups, rules[..n], orders[..n], buffers, keyOrder, now);
      GroupTasksAre(groups, rules[n], orders[n], buffers, keyOrder, now);
      MatchesConcat(early, TasksFor(buffers, keyOrder, rules[n], orders[n], now), now);
    }
  }

  lemma EnumeratesSnoc(order: seq<string>, all: set<string>, remaining: set<string>, t: string)
    requires t in remaining && remaining <= all && Enumerates(order, all - remaining)
    ensures Enumerates(order + [t], all - (remaining - {t}))
  {
  }

  lemma OneMatch(st: State, m: Match, now: int)
    ensures ProcessMatches(st, [m], now) == ProcessMatch(st, m, now)
  {
    assert [m][1..] == [];
    assert ProcessMatches(st, [m], now) == ProcessMatches(ProcessMatch(st, m, now), [], now);
  }

  ghost predicate Extends(before: seq<Incident>, extra: seq<Incident>, after: seq<Incident>) {
    after == before + extra
  }

  lemma ExtendsTransitive(a: seq<Incident>, x: seq<Incident>, b: seq<Incident>, y: seq<Incident>, c: seq<Incident>)
    requires Extends(a, x, b) && Extends(b, y, c)
    ensures Extends(a, x + y, c)
  {
  }

  function Publishes(st: State, n: nat): State {
    if n == 0 then st else PublishStep(Publishes(st, n - 1))
  }

  // ---- whole runs of the engine ---------------------------------------------------------

  /** What the outside world asks of the engine, with the times it reads. */
  datatype Command =
    | Arrive(ev: Event)
    | TickAt(now: int)
    | TakeNext
    | Persist(id: nat, alertId: string, now: int)
    | PatchTo(id: nat, status: string, now: int)
    | CleanAt(now: int)
    | PruneAt(now: int)

  predicate Timed(c: Command) {
    !c.Arrive? && !c.TakeNext?
  }

  function ClockAfter(clock: int, c: Command): int {
    if Timed(c) then c.now else clock
  }

  /** The times read never go back. */
  predicate InOrder(clock: int, commands: seq<Command>)
    decreases |commands|
  {
    |commands| > 0 ==>
      ClockAfter(clock, commands[0]) >= clock && InOrder(ClockAfter(clock, commands[0]), commands[1..])
  }

  /** `steps` is a run from `before` to `after` that ends between two ticks at this time. */
  ghost predicate Performs(rules: seq<Rule>, before: State, steps: seq<Step>, after: State, clock: int) {
    && ValidRun(rules, before, steps) && after == Run(rules, before, steps)
    && after.outbox == [] && after.trace.clock == clock
  }

  lemma PerformsOne(rules: seq<Rule>, before: State, step: Step, clock: int)
    requires Enabled(rules, before, step)
    requires Next(rules, before, step).outbox == [] && Next(rules, before, step).trace.clock == clock
    ensures Performs(rules, before, [step], Next(rules, before, step), clock)
  {
    RunSnoc(rules, before, [], step);
    assert [] + [step] == [step];
  }

  lemma PerformsMore(rules: seq<Rule>, a: State, s: seq<Step>, b: State, clock: int, more: seq<Step>, c: State,
                     later: int)
    requires Performs(rules, a, s, b, clock) && Performs(rules, b, more, c, later)
    ensures Performs(rules, a, s + more, c, later)
  {
    RunAppend(rules, a, s, more);
  }

  function PublishSteps(n: nat): seq<Step> {
    if n == 0 then [] else PublishSteps(n - 1) + [Publish]
  }

  lemma {:induction false} PublishesRun(rules: seq<Rule>, st: State, n: nat)
    ensures ValidRun(rules, st, PublishSteps(n)) && Run(rules, st, PublishSteps(n)) == Publishes(st, n)
    ensures Publishes(st, n).trace.clock == st.trace.clock
  {
    if n != 0 {
      PublishesRun(rules, st, n - 1);
      RunSnoc(rules, st, PublishSteps(n - 1), Publish);
    }
  }

  lemma TickPerforms(rules: seq<Rule>, st: State, now: int, keyOrder: seq<string>, orders: seq<seq<string>>, n: nat)
    requires Enabled(rules, st, Evaluate(now, keyOrder, orders))
    requires Publishes(EvaluateStep(rules, st, now, keyOrder, orders), n).outbox == []
    ensures Performs(rules, st, [Evaluate(now, keyOrder, orders)] + PublishSteps(n),
                     Publishes(EvaluateStep(rules, st, now, keyOrder, orders), n), now)
  {
    var st1 := EvaluateStep(rules, st, now, keyOrder, orders);
    MatchesKeepBuffers(Begin(rules, st, now), TickMatches(rules, st.buffers, keyOrder, orders, now), now);
    PublishesRun(rules, st1, n);
    RunCons(rules, st, Evaluate(now, keyOrder, orders), PublishSteps(n));
  }

  /** Falco's priorities on the scale from 1 to 5; anything unknown counts as a notice. */
  method FalcoSeverity(priority: string) returns (severity: int)
    ensures 1 <= severity <= 5
    ensures severity == 5 <==> ToLower(priority) in ["critical", "alert", "emergency"]
    ensures severity == 4 <==> ToLower(priority) == "error"
    ensures severity == 3 <==> ToLower(priority) == "warning"
    ensures severity == 1 <==> ToLower(priority) in ["debug", "informational"]
  {
    match ToLower(priority) {
      case "debug" => severity := 1;
      case "informational" => severity := 1;
      case "notice" => severity := 2;
      case "warning" => severity := 3;
      case "error" => severity := 4;
      case "critical" => severity := 5;
      case "alert" => severity := 5;
      case "emergency" => severity := 5;
      case _ => severity := 2;
    }
  }

  class Engine {
    const rules: seq<Rule>
    var eventBuffer: map<string, seq<Event>>
    var incidentMap: map<nat, Incident>
    var dedupCache: map<string, int>
    var incidentCh: seq<Incident>
    var eventsIngested: nat
    var rulesEvaluated: nat
    var incidentsCreated: nat
    var dedupHits: nat
    ghost var outbox: seq<Incident>
    ghost var trace: Trace

    ghost function Abs(): State
      reads this
    {
      State(eventBuffer, incidentMap, dedupCache, outbox, incidentCh,
            Counters(eventsIngested, rulesEvaluated, incidentsCreated, dedupHits), trace)
    }

    constructor (rules: seq<Rule>)
      ensures this.rules == rules && Abs() == INITIAL
    {
      this.rules := rules;
      eventBuffer, incidentMap, dedupCache, incidentCh := map[], map[], map[], [];
      eventsIngested, rulesEvaluated, incidentsCreated, dedupHits := 0, 0, 0, 0;
      outbox, trace := [], INITIAL.trace;
    }

    method ProcessEvent(event: Event)
      modifies this
      ensures Abs() == IngestStep(old(Abs()), event)
    {
      eventsIngested := eventsIngested + 1;
      var key := event.tenant + ":" + event.etype;
      var buf := if key in eventBuffer then eventBuffer[key] else [];
      if |buf| >= MAX_BUFFER_PER_KEY {
        buf := buf[1..];
      }
      eventBuffer := eventBuffer[key := buf + [event]];
      trace := IngestStep(old(Abs()), event).trace;
    }

    /** The webhook path: the Falco hostname serves as tenant and as agent. */
    method IngestFalcoAlert(id: string, rule: string, priority: string, hostname: string, output: string,
                            outputFields: map<string, string>, now: int) returns (event: Event)
      modifies this
      ensures event.tenant == hostname && event.agent == hostname
      ensures event.source == "falco" && event.etype == "alert" && event.ts == now && event.id == id
      ensures event.title == ['F', 'a', 'l', 'c', 'o', ':', ' '] + rule && event.description == output
      ensures event.rawData == outputFields && event.indicators == [] && event.tactic == event.technique == ""
      ensures event.fingerprint == rule + [':'] + hostname
      ensures 1 <= event.severity <= 5
      ensures event.severity == 5 <==> ToLower(priority) in ["critical", "alert", "emergency"]
      ensures event.severity == 4 <==> ToLower(priority) == "error"
      ensures event.severity == 3 <==> ToLower(priority) == "warning"
      ensures event.severity == 1 <==> ToLower(priority) in ["debug", "informational"]
      ensures Abs() == IngestStep(old(Abs()), event)
    {
      var severity := FalcoSeverity(priority);
      event := Event(id, hostname, hostname, "falco", "alert", severity, now, "Falco: " + rule, output,
                     [], "", "", outputFields, rule + ":" + hostname);
      ProcessEvent(event);
    }

    /** The deduplication check and the creation that follow a successful match. */
    method Record(rule: Rule, tenant: string, matchedEvents: seq<Event>, fp: string, now: int)
      returns (created: seq<Incident>)
      modifies this
      ensures Abs() == ProcessMatch(old(Abs()), Match(rule, tenant, matchedEvents, fp), now)
      ensures outbox == old(outbox) + created
    {
      if fp in dedupCache && now - dedupCache[fp] < rule.window * 2 {
        dedupHits := dedupHits + 1;
        return [];
      }
      dedupCache := dedupCache[fp := now];
      var inc := Incident(incidentsCreated, tenant, rule.name, rule.description, rule.severity, "new",
                          matchedEvents, now, now, fp, "", rule.tactic, rule.technique, rule.id, rule.name);
      incidentMap := incidentMap[inc.id := inc];
      incidentsCreated := incidentsCreated + 1;
      created := [inc];
      outbox := outbox + [inc];
      trace := trace.(log := trace.log + [inc]);
    }

    /** The body of the tenant loop in `evaluateRules`. */
    method EvaluatePair(rule: Rule, tenant: string, allEvents: seq<Event>, now: int)
      returns (created: seq<Incident>, ghost ms: seq<Match>)
      modifies this
      ensures ms == MatchesFor(Task(rule, tenant, allEvents), now)
      ensures Abs() == ProcessMatches(old(Abs()), ms, now)
      ensures Extends(old(outbox), created, outbox)
    {
      var matchedEvents, fp, matched := MatchPair(rule, tenant, allEvents, now);
      if !matched {
        created, ms := [], [];
        return;
      }
      ms := [Match(rule, tenant, matchedEvents, fp)];
      OneMatch(Abs(), ms[0], now);
      created := Record(rule, tenant, matchedEvents, fp, now);
    }

    /** The tenant loop for one rule, in an arbitrary order. */
    method EvaluateRule(rule: Rule, groups: map<string, seq<Event>>, now: int)
      returns (created: seq<Incident>, ghost order: seq<string>, ghost ms: seq<Match>)
      modifies this
      ensures Enumerates(order, groups.Keys)
      ensures ms == MatchesOf(GroupTasks(groups, rule, order), now)
      ensures Abs() == ProcessMatches(old(Abs()), ms, now)
      ensures Extends(old(outbox), created, outbox)
    {
      created, order, ms := [], [], [];
      ghost var tasks: seq<Task> := [];
      ghost var start, here := Abs(), Abs();
      var remaining := groups.Keys;
      while remaining != {}
        invariant remaining <= groups.Keys
        invariant Enumerates(order, groups.Keys - remaining)
        invariant tasks == GroupTasks(groups, rule, order)
        invariant ms == MatchesOf(tasks, now)
        invariant Abs() == here == ProcessMatches(start, ms, now)
        invariant Extends(old(outbox), created, outbox)
        decreases remaining
      {
        var t :| t in remaining;
        EnumeratesSnoc(order, groups.Keys, remaining, t);
        remaining := remaining - {t};
        var more;
        ghost var pair;
        more, pair := EvaluatePair(rule, t, groups[t], now);
        ExtendsTransitive(old(outbox), created, here.outbox, more, outbox);
        here := Abs();
        ProcessAppend(start, ms, pair, now);
        MatchesSnoc(tasks, Task(rule, t, groups[t]), now);
        GroupTasksSnoc(groups, rule, order, t);
        created := created + more;
        order := order + [t];
        tasks := tasks + [Task(rule, t, groups[t])];
        ms := ms + pair;
      }
    }

    /** The rule loop of `evaluateRules` over the grouped snapshot. */
    method EvaluateGroups(groups: map<string, seq<Event>>, now: int)
      returns (triggered: seq<Incident>, ghost orders: seq<seq<string>>, ghost ms: seq<Match>)
      modifies this
      ensures |orders| == |rules| && forall i :: 0 <= i < |rules| ==> Enumerates(orders[i], groups.Keys)
      ensures ms == GroupMatches(groups, rules, orders, now)
      ensures Abs() == ProcessMatches(old(Abs()), ms, now)
      ensures Extends(old(outbox), triggered, outbox)
    {
      triggered, orders, ms := [], [], [];
      ghost var start, here := Abs(), Abs();
      for r := 0 to |rules|
        invariant |orders| == r
        invariant forall i :: 0 <= i < r ==> Enumerates(orders[i], groups.Keys)
        invariant ms == GroupMatches(groups, rules[..r], orders, now)
        invariant Abs() == here == ProcessMatches(start, ms, now)
        invariant Extends(old(outbox), triggered, outbox)
      {
        ghost var order, more;
        var created;
        created, order, more := EvaluateRule(rules[r], groups, now);
        GroupMatchesSnoc(groups, rules, r, orders, order, now);
        ExtendsTransitive(old(outbox), triggered, here.outbox, created, outbox);
        here := Abs();
        ProcessAppend(start, ms, more, now);
        triggered := triggered + created;
        orders := orders + [order];
        ms := ms + more;
      }
      assert rules[..|rules|] == rules;
    }

    /** `evaluateRules`: snapshot, group, then every rule against every tenant. */
    method EvaluateRules(now: int)
      returns (triggered: seq<Incident>, ghost keyOrder: seq<string>, ghost orders: seq<seq<string>>)
      modifies this
      ensures ValidOrders(rules, old(eventBuffer), now, keyOrder, orders)
      ensures Abs() == EvaluateStep(rules, old(Abs()), now, keyOrder, orders)
      ensures outbox == old(outbox) + triggered
    {
      rulesEvaluated := rulesEvaluated + |rules|;
      trace := trace.(clock := now);
      var snapshot := eventBuffer;
      assert Abs() == Begin(rules, old(Abs()), now);
      var groups;
      groups, keyOrder := GroupByTenant(snapshot, now);
      GroupKeys(groups, snapshot, keyOrder, now);
      ghost var ms;
      triggered, orders, ms := EvaluateGroups(groups, now);
      GroupMatchesAre(groups, rules, orders, snapshot, keyOrder, now);
    }

    /** The non-blocking send of one triggered incident. */
    method Publish(inc: Incident) returns (accepted: bool)
      requires outbox != [] && inc == outbox[0]
      modifies this
      ensures Abs() == PublishStep(old(Abs()))
      ensures accepted == (|old(incidentCh)| < 512)
      ensures incidentCh == if accepted then old(incidentCh) + [inc] else old(incidentCh)
    {
      accepted := |incidentCh| < CHANNEL_CAPACITY;
      if accepted {
        incidentCh := incidentCh + [inc];
      }
      trace := trace.(offers := trace.offers + [Offer(inc, accepted)]);
      outbox := outbox[1..];
    }

    /** The ticker's case in `Start`: evaluate, then offer every triggered incident. */
    method Tick(now: int)
      returns (triggered: seq<Incident>, ghost keyOrder: seq<string>, ghost orders: seq<seq<string>>)
      requires outbox == []
      modifies this
      ensures ValidOrders(rules, old(eventBuffer), now, keyOrder, orders)
      ensures Abs() == Publishes(EvaluateStep(rules, old(Abs()), now, keyOrder, orders), |triggered|)
      ensures outbox == []
    {
      triggered, keyOrder, orders := EvaluateRules(now);
      ghost var evaluated := Abs();
      for i := 0 to |triggered|
        invariant outbox == triggered[i..]
        invariant Abs() == Publishes(evaluated, i)
      {
        var accepted := Publish(triggered[i]);
      }
    }

    /** The dispatcher's receive. */
    method Receive() returns (inc: Option<Incident>)
      modifies this
      ensures Abs() == TakeStep(old(Abs()))
      ensures inc == if old(incidentCh) == [] then None else Some(old(incidentCh)[0])
    {
      if |incidentCh| == 0 {
        return None;
      }
      inc := Some(incidentCh[0]);
      trace := trace.(taken := trace.taken + [incidentCh[0]]);
      incidentCh := incidentCh[1..];
    }

    /** The critical section that ends `dispatchToTheHive`. */
    method PersistAlertId(id: nat, alertId: string, now: int)
      modifies this
      ensures Abs() == WriteBackStep(old(Abs()), id, alertId, now)
      ensures incidentMap.Keys == old(incidentMap).Keys
      ensures forall i :: i in incidentMap && i != id ==> incidentMap[i] == old(incidentMap)[i]
      ensures id in incidentMap ==>
                && incidentMap[id].theHiveId == alertId && incidentMap[id].updatedAt == now
                && SameIncident(incidentMap[id], old(incidentMap)[id])
                && incidentMap[id].status == old(incidentMap)[id].status
    {
      if id in incidentMap {
        var inc := incidentMap[id];
        inc := inc.(theHiveId := alertId);
        inc := inc.(updatedAt := now);
        incidentMap := incidentMap[id := inc];
      }
      trace := trace.(clock := now);
    }

    method UpdateIncidentStatus(id: nat, status: string, now: int) returns (result: Option<Incident>)
      modifies this`incidentMap
      ensures id !in old(incidentMap) ==> result == None && incidentMap == old(incidentMap)
      ensures id in old(incidentMap) ==>
                && result == Some(old(incidentMap)[id].(status := status, updatedAt := now))
                && incidentMap == old(incidentMap)[id := result.value]
    {
      if id !in incidentMap {
        return None;
      }
      var inc := incidentMap[id];
      inc := inc.(status := status);
      inc := inc.(updatedAt := now);
      incidentMap := incidentMap[id := inc];
      result := Some(inc);
    }

    /** The PATCH handler: 422 for a status it refuses, 404 for an unknown incident. */
    method PatchIncident(id: nat, status: string, now: int) returns (code: int)
      modifies this
      ensures Abs() == PatchStep(old(Abs()), id, status, now)
      ensures code == if !AcceptedStatus(status) then 422 else if id !in old(incidentMap) then 404 else 200
    {
      trace := trace.(clock := now);
      if status != "investigating" && status != "resolved" {
        return 422;
      }
      var result := UpdateIncidentStatus(id, status, now);
      code := if result.None? then 404 else 200;
    }

    /** The cleaner visits the cache in an arbitrary order and deletes while it iterates. */
    method CleanDedupCache(now: int)
      modifies this
      ensures Abs() == CleanStep(old(Abs()), now)
      ensures forall fp :: fp in dedupCache <==> fp in old(dedupCache)
                                                 && now - old(dedupCache)[fp] <= 3_600_000_000_000
      ensures forall fp :: fp in dedupCache ==> dedupCache[fp] == old(dedupCache)[fp]
    {
      var cutoff := now - CACHE_RETENTION;
      var remaining := dedupCache.Keys;
      ghost var before := dedupCache;
      while remaining != {}
        invariant remaining <= before.Keys
        invariant forall fp :: fp in dedupCache <==> fp in before && (fp in remaining || !(before[fp] < cutoff))
        invariant forall fp :: fp in dedupCache ==> dedupCache[fp] == before[fp]
        invariant Abs() == old(Abs()).(cache := dedupCache)
        decreases remaining
      {
        var fp :| fp in remaining;
        if dedupCache[fp] < cutoff {
          dedupCache := dedupCache - {fp};
        }
        remaining := remaining - {fp};
      }
      assert dedupCache == Cleaned(before, now);
      trace := trace.(clock := now);
    }

    /** The pruner visits the buffers in an arbitrary order, filtering or deleting each. */
    method PruneBuffer(now: int)
      modifies this
      ensures Abs() == PruneStep(old(Abs()), now)
      ensures forall k :: k in eventBuffer ==> k in old(eventBuffer) && eventBuffer[k] != []
      ensures forall k, e :: k in old(eventBuffer) && e in old(eventBuffer)[k] ==>
                (now - e.ts < 300_000_000_000 <==> k in eventBuffer && e in eventBuffer[k])
    {
      var remaining := eventBuffer.Keys;
      ghost var before := eventBuffer;
      while remaining != {}
        invariant remaining <= before.Keys && eventBuffer.Keys <= before.Keys
        invariant forall k :: k in remaining ==> k in eventBuffer && eventBuffer[k] == before[k]
        invariant forall k :: k in before && k !in remaining ==>
                    (k in eventBuffer <==> Filter(before[k], Fresh(now)) != [])
        invariant forall k :: k in eventBuffer && k !in remaining ==> eventBuffer[k] == Filter(before[k], Fresh(now))
        invariant Abs() == old(Abs()).(buffers := eventBuffer)
        decreases remaining
      {
        var k :| k in remaining;
        var kept := CollectNewer(eventBuffer[k], now - BUFFER_WINDOW);
        if |kept| == 0 {
          eventBuffer := eventBuffer - {k};
        } else {
          eventBuffer := eventBuffer[k := kept];
        }
        remaining := remaining - {k};
      }
      assert eventBuffer == Pruned(before, now);
      forall k | k in before
        ensures forall e :: e in Filter(before[k], Fresh(now)) <==> e in before[k] && e.ts > now - BUFFER_WINDOW
      {
        FilterElements(before[k], Fresh(now));
      }
      trace := PruneStep(old(Abs()), now).trace;
    }

    /** One command, as steps of the machine. */
    method Perform(c: Command) returns (ghost steps: seq<Step>)
      requires outbox == [] && ClockAfter(trace.clock, c) >= trace.clock
      modifies this
      ensures Performs(rules, old(Abs()), steps, Abs(), ClockAfter(old(trace.clock), c))
    {
      match c
      case Arrive(ev) =>
        ProcessEvent(ev);
        steps := [Ingest(ev)];
        PerformsOne(rules, old(Abs()), Ingest(ev), old(trace.clock));
      case TickAt(now) =>
        ghost var keyOrder, orders;
        var triggered;
        triggered, keyOrder, orders := Tick(now);
        steps := [Evaluate(now, keyOrder, orders)] + PublishSteps(|triggered|);
        TickPerforms(rules, old(Abs()), now, keyOrder, orders, |triggered|);
      case TakeNext =>
        var inc := Receive();
        steps := [Take];
        PerformsOne(rules, old(Abs()), Take, old(trace.clock));
      case Persist(id, alertId, now) =>
        PersistAlertId(id, alertId, now);
        steps := [WriteBack(id, alertId, now)];
        PerformsOne(rules, old(Abs()), WriteBack(id, alertId, now), now);
      case PatchTo(id, status, now) =>
        var code := PatchIncident(id, status, now);
        steps := [Patch(id, status, now)];
        PerformsOne(rules, old(Abs()), Patch(id, status, now), now);
      case CleanAt(now) =>
        CleanDedupCache(now);
        steps := [Clean(now)];
        PerformsOne(rules, old(Abs()), Clean(now), now);
      case PruneAt(now) =>
        PruneBuffer(now);
        steps := [Prune(now)];
        PerformsOne(rules, old(Abs()), Prune(now), now);
    }

    /** Whatever is asked of the engine, it goes through a run of the machine. */
    method PerformAll(commands: seq<Command>) returns (ghost steps: seq<Step>)
      requires outbox == [] && InOrder(trace.clock, commands)
      modifies this
      ensures ValidRun(rules, old(Abs()), steps) && Abs() == Run(rules, old(Abs()), steps)
    {
      steps := [];
      ghost var start := Abs();
      for i := 0 to |commands|
        invariant Performs(rules, start, steps, Abs(), trace.clock)
        invariant InOrder(trace.clock, commands[i..])
      {
        assert commands[i..][0] == commands[i] && commands[i..][1..] == commands[i + 1..];
        ghost var here, clock := Abs(), trace.clock;
        ghost var more;
        more := Perform(commands[i]);
        PerformsMore(rules, start, steps, here, clock, more, Abs(), trace.clock);
        steps := steps + more;
      }
    }
  }
}
