/** Every incident ever stored is justified by the snapshot of the tick that created it. */
module Justification {
  import opened Sequences
  import opened Domain
  import opened Matching
  import opened Fingerprints
  import opened EngineModel
  import opened Ticks
  import opened Reachable
  import opened BufferRefinement

  function Min(a: int, b: int): int {
    if a < b then a else b
  }

  /** Recent events of the tenant, each as often as it arrived at most. */
  ghost predicate GenuineWindow(window: seq<Event>, rule: Rule, tenant: string, at: int, arrivals: seq<Event>) {
    && multiset(window) <= multiset(arrivals)
    && forall e :: e in window ==> e.tenant == tenant && e.ts > at - Min(rule.window, BUFFER_WINDOW)
  }

  // ---- which tick created an incident -----------------------------------------------

  /** An incident added by a tick comes from one of its matches. */
  lemma {:induction false} EntryHasMatch(st: State, ms: seq<Match>, now: int, i: nat) returns (m: Match)
    requires |st.trace.log| <= i < |ProcessMatches(st, ms, now).trace.log|
    ensures m in ms
    ensures var inc := ProcessMatches(st, ms, now).trace.log[i]; inc == NewIncident(inc.id, m, now)
    decreases |ms|
  {
    var st1 := ProcessMatch(st, ms[0], now);
    LogGrows(st1, ms[1..], now);
    if i < |st1.trace.log| {
      m := ms[0];
    } else {
      m := EntryHasMatch(st1, ms[1..], now, i);
    }
  }

  /** The step that created the i-th incident: a tick, and the match it came from. */
  ghost predicate CreatedAt(rules: seq<Rule>, steps: seq<Step>, n: nat, m: Match, inc: Incident) {
    && n < |steps| && steps[n].Evaluate? && |steps[n].tenantOrders| == |rules|
    && inc == NewIncident(inc.id, m, steps[n].now)
    && m in TickMatches(rules, Run(rules, INITIAL, steps[..n]).buffers, steps[n].keyOrder, steps[n].tenantOrders,
                        steps[n].now)
  }

  lemma LastStepCreates(rules: seq<Rule>, init: seq<Step>, step: Step, i: nat) returns (m: Match)
    requires |Run(rules, INITIAL, init).trace.log| <= i < |Next(rules, Run(rules, INITIAL, init), step).trace.log|
    ensures CreatedAt(rules, init + [step], |init|, m, Next(rules, Run(rules, INITIAL, init), step).trace.log[i])
  {
    var st, steps := Run(rules, INITIAL, init), init + [step];
    assert steps[..|init|] == init;
    if step.Evaluate? {
      var ms := TickMatches(rules, st.buffers, step.keyOrder, step.tenantOrders, step.now);
      m := EntryHasMatch(Begin(rules, st, step.now), ms, step.now, i);
    } else {
      OthersKeepLog(rules, st, step);
      assert false;
    }
  }

  lemma StepKeepsLog(rules: seq<Rule>, st: State, step: Step)
    ensures st.trace.log <= Next(rules, st, step).trace.log
  {
    match step
    case Evaluate(now, keyOrder, orders) =>
      if |orders| == |rules| {
        LogGrows(Begin(rules, st, now), TickMatches(rules, st.buffers, keyOrder, orders, now), now);
      }
    case _ => OthersKeepLog(rules, st, step);
  }

  lemma {:induction false} IncidentHasTick(rules: seq<Rule>, steps: seq<Step>, i: nat) returns (n: nat, m: Match)
    requires ValidRun(rules, INITIAL, steps) && i < |Run(rules, INITIAL, steps).trace.log|
    ensures CreatedAt(rules, steps, n, m, Run(rules, INITIAL, steps).trace.log[i])
    decreases |steps|
  {
    var k := |steps| - 1;
    var init, step := steps[..k], steps[k];
    RunSplit(rules, INITIAL, steps, k);
    var st := Run(rules, INITIAL, init);
    assert steps[k..] == [step] && [step][1..] == [] && steps == init + [step];
    assert Run(rules, st, [step]) == Run(rules, Next(rules, st, step), []);
    StepKeepsLog(rules, st, step);
    if i < |st.trace.log| {
      n, m := IncidentHasTick(rules, init, i);
      assert steps[..n] == init[..n];
    } else {
      m := LastStepCreates(rules, init, step, i);
      n := k;
    }
  }

  // ---- the snapshot it was created from ------------------------------------------------

  /** No event is in a snapshot more often than it arrived. */
  lemma SnapshotArrived(st: State, o: seq<string>, t: string, now: int)
    requires BufferInv(st) && RefinementInv(st) && now >= st.trace.clock && Distinct(o)
    ensures multiset(Snapshot(st.buffers, o, t, now)) <= multiset(st.trace.arrivals)
  {
    forall e ensures multiset(Snapshot(st.buffers, o, t, now))[e] <= multiset(st.trace.arrivals)[e] {
      SnapshotCount(st.buffers, o, t, now, e);
      FreshArrived(st, now, e);
    }
  }

  lemma FreshArrived(st: State, now: int, e: Event)
    requires RefinementInv(st) && now >= st.trace.clock
    ensures FreshCount(st.buffers, BufferKey(e), now, e) <= multiset(st.trace.arrivals)[e]
  {
    var k := BufferKey(e);
    CountsSandwiched(st, k, now, e);
    HistoryBuffered(st, k);
    FilterCounts(History(st, k), Fresh(now), e);
    FilterCounts(st.trace.arrivals, KeyIs(k), e);
  }

  lemma BufferedTenant(st: State, k: string, e: Event)
    requires BufferInv(st) && e in Buffered(st.buffers, k)
    ensures TenantOfKey(k) == Some(e.tenant)
  {
    KeyRoundTrip(e);
  }

  lemma EventGenuine(st: State, keyOrder: seq<string>, tenant: string, now: int, e: Event)
    requires BufferInv(st) && e in Snapshot(st.buffers, keyOrder, tenant, now)
    ensures e.tenant == tenant && e.ts > now - BUFFER_WINDOW
  {
    SnapshotElements(st.buffers, keyOrder, tenant, now);
    var k :| k in keyOrder && TenantOfKey(k) == Some(tenant) && e in Buffered(st.buffers, k);
    BufferedTenant(st, k, e);
  }

  lemma FilterShrinks(s: seq<Event>, p: Event -> bool)
    ensures multiset(Filter(s, p)) <= multiset(s)
  {
    forall e ensures multiset(Filter(s, p))[e] <= multiset(s)[e] {
      FilterCounts(s, p, e);
    }
  }

  lemma WindowArrived(task: Task, now: int, arrivals: seq<Event>)
    requires multiset(task.events) <= multiset(arrivals)
    ensures multiset(WindowOf(task, now)) <= multiset(arrivals)
  {
    FilterShrinks(task.events, FreshAfter(now - task.rule.window));
  }

  lemma WindowRecent(st: State, keyOrder: seq<string>, task: Task, now: int)
    requires BufferInv(st) && task.events == Snapshot(st.buffers, keyOrder, task.tenant, now)
    ensures forall e :: e in WindowOf(task, now) ==>
              e.tenant == task.tenant && e.ts > now - Min(task.rule.window, BUFFER_WINDOW)
  {
    forall e | e in WindowOf(task, now)
      ensures e.tenant == task.tenant && e.ts > now - Min(task.rule.window, BUFFER_WINDOW)
    {
      WindowElement(st, keyOrder, task, now, e);
    }
  }

  lemma WindowGenuine(st: State, keyOrder: seq<string>, task: Task, now: int)
    requires BufferInv(st) && task.events == Snapshot(st.buffers, keyOrder, task.tenant, now)
    requires multiset(task.events) <= multiset(st.trace.arrivals)
    ensures GenuineWindow(WindowOf(task, now), task.rule, task.tenant, now, st.trace.arrivals)
  {
    WindowArrived(task, now, st.trace.arrivals);
    WindowRecent(st, keyOrder, task, now);
  }

  lemma WindowElement(st: State, keyOrder: seq<string>, task: Task, now: int, e: Event)
    requires BufferInv(st) && task.events == Snapshot(st.buffers, keyOrder, task.tenant, now)
    requires e in WindowOf(task, now)
    ensures e.tenant == task.tenant && e.ts > now - Min(task.rule.window, BUFFER_WINDOW)
  {
    FilterElements(task.events, FreshAfter(now - task.rule.window));
    EventGenuine(st, keyOrder, task.tenant, now, e);
  }

  lemma {:induction false} ColonFreePrefix(steps: seq<Step>, n: nat)
    requires ColonFreeInputs(steps) && n <= |steps|
    ensures ColonFreeInputs(steps[..n])
  {
  }

  /** What a tick in a reachable state matched on. */
  lemma TickWindow(rules: seq<Rule>, steps: seq<Step>, n: nat, m: Match) returns (task: Task)
    requires ValidRun(rules, INITIAL, steps) && ColonFreeInputs(steps)
    requires n < |steps| && steps[n].Evaluate?
    requires |steps[n].tenantOrders| == |rules|
    requires var st := Run(rules, INITIAL, steps[..n]);
             m in TickMatches(rules, st.buffers, steps[n].keyOrder, steps[n].tenantOrders, steps[n].now)
    ensures var st, now := Run(rules, INITIAL, steps[..n]), steps[n].now;
            && task.rule in rules && MatchOf(m, task, now)
            && task.events == Snapshot(st.buffers, steps[n].keyOrder, task.tenant, now)
            && GenuineWindow(WindowOf(task, now), task.rule, task.tenant, now, st.trace.arrivals)
  {
    var now, keyOrder, orders := steps[n].now, steps[n].keyOrder, steps[n].tenantOrders;
    RunSplit(rules, INITIAL, steps, n);
    var st := Run(rules, INITIAL, steps[..n]);
    assert steps[n..][0] == steps[n] && Enabled(rules, st, steps[n]);
    ColonFreePrefix(steps, n);
    BufferRun(rules, INITIAL, steps[..n]);
    RefinementInitially();
    RefineRun(rules, INITIAL, steps[..n]);
    task := MatchHasTask(TasksOf(rules, st.buffers, keyOrder, orders, now), now, m);
    TickTasks(rules, st.buffers, keyOrder, orders, now, task);
    SnapshotArrived(st, keyOrder, task.tenant, now);
    WindowGenuine(st, keyOrder, task, now);
  }

  /** Every stored incident was created by a tick of the run, at CreatedAt, from a rule and the
      window of its tenant's snapshot at that tick: recent events, no event more often than it
      had arrived, in which every condition had its required hits and which the rule matched
      exactly.  Later steps never took this away. */
  lemma IncidentsJustified(rules: seq<Rule>, steps: seq<Step>, id: nat)
    returns (rule: Rule, n: nat, window: seq<Event>)
    requires ColonFreeInputs(steps) && ValidRun(rules, INITIAL, steps)
    requires id in Run(rules, INITIAL, steps).incidents
    ensures n < |steps| && steps[n].Evaluate?
    ensures var inc, tick := Run(rules, INITIAL, steps).incidents[id], steps[n];
            var before := Run(rules, INITIAL, steps[..n]);
            && inc.createdAt == tick.now
            && rule in rules && inc.ruleId == rule.id && inc.ruleName == rule.name && inc.title == rule.name
            && inc.description == rule.description && inc.severity == rule.severity
            && inc.tactic == rule.tactic && inc.technique == rule.technique
            && inc.fingerprint == Fingerprint(rule.id, inc.tenant, inc.events)
            && window == WindowOf(Task(rule, inc.tenant, Snapshot(before.buffers, tick.keyOrder, inc.tenant, tick.now)),
                                  tick.now)
            && GenuineWindow(window, rule, inc.tenant, inc.createdAt, before.trace.arrivals)
            && ExactMatch(rule, window, inc.events)
            && forall i :: 0 <= i < |rule.conditions| ==>
                 |Hits(rule.conditions[i], window)|
                 >= Max(1, Max(rule.conditions[i].minCount, rule.threshold))
  {
    StoreRun(rules, INITIAL, steps);
    var st := Run(rules, INITIAL, steps);
    assert SameIncident(st.incidents[id], st.trace.log[id]);
    var m;
    n, m := IncidentHasTick(rules, steps, id);
    var task := TickWindow(rules, steps, n, m);
    rule, window := task.rule, WindowOf(task, steps[n].now);
    MatchRuleExact(rule, window);
  }

  /** An incident is dispatched as it was created: new, without an alert, never updated. */
  lemma CreatedNew(rules: seq<Rule>, steps: seq<Step>, i: nat)
    requires ValidRun(rules, INITIAL, steps) && i < |Run(rules, INITIAL, steps).trace.log|
    ensures var inc := Run(rules, INITIAL, steps).trace.log[i];
            inc.id == i && inc.status == "new" && inc.theHiveId == "" && inc.updatedAt == inc.createdAt
  {
    StoreRun(rules, INITIAL, steps);
    var n, m := IncidentHasTick(rules, steps, i);
  }
}
