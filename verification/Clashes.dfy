/** Matches of different tenants with one fingerprint: within a tick the first one suppresses
    the other, so the order in which tenants are ranged over decides which is reported. */
module Clashes {
  import opened Sequences
  import opened Domain
  import opened Matching
  import opened Fingerprints
  import opened EngineModel
  import opened Ticks
  import opened Reachable

  /** Under the map order `o`, a rule with a suppressing window gives two tenants with recent
      events matches of one fingerprint. */
  ghost predicate Clashing(st: State, now: int, o: seq<string>, m1: Match, m2: Match) {
    && Enumerates(o, st.buffers.Keys) && BarFree(m1.rule.id)
    && m1.rule == m2.rule && m1.rule.window > 0 && m1.tenant != m2.tenant && m1.fp == m2.fp
    && m1.tenant in Tenants(st.buffers, now) && m2.tenant in Tenants(st.buffers, now)
    && MatchOf(m1, Task(m1.rule, m1.tenant, Snapshot(st.buffers, o, m1.tenant, now)), now)
    && MatchOf(m2, Task(m2.rule, m2.tenant, Snapshot(st.buffers, o, m2.tenant, now)), now)
  }

  ghost predicate NoClash(st: State, now: int) {
    forall o, m1, m2 :: !Clashing(st, now, o, m1, m2)
  }

  /** Tenants whose names are apart never clash. */
  lemma ApartNoClash(st: State, now: int)
    requires BufferInv(st) && ApartTenants(st.trace.arrivals)
    ensures NoClash(st, now)
  {
    forall o, m1, m2 ensures !Clashing(st, now, o, m1, m2) {
      if Clashing(st, now, o, m1, m2) {
        ClashNotApart(st, now, o, m1, m2);
      }
    }
  }

  lemma ClashNotApart(st: State, now: int, o: seq<string>, m1: Match, m2: Match)
    requires BufferInv(st) && Clashing(st, now, o, m1, m2)
    ensures !ApartTenants(st.trace.arrivals)
  {
    var e := TenantArrived(st, now, m1.tenant);
    var f := TenantArrived(st, now, m2.tenant);
    MatchNonEmpty(m1.rule, WindowOf(Task(m1.rule, m1.tenant, Snapshot(st.buffers, o, m1.tenant, now)), now));
    MatchNonEmpty(m2.rule, WindowOf(Task(m2.rule, m2.tenant, Snapshot(st.buffers, o, m2.tenant, now)), now));
    if Apart(m1.tenant, m2.tenant) {
      FingerprintSeparates(m1.rule.id, m1.tenant, m1.events, m2.rule.id, m2.tenant, m2.events);
    }
  }

  // ---- without clashes, matches are independent ------------------------------------------

  ghost predicate TaskFrom(task: Task, rules: seq<Rule>, st: State, o: seq<string>, now: int) {
    && task.rule in rules && BarFree(task.rule.id) && task.tenant in Tenants(st.buffers, now)
    && task.events == Snapshot(st.buffers, o, task.tenant, now)
  }

  lemma PairIndependent(rules: seq<Rule>, st: State, o: seq<string>, now: int, task1: Task, m1: Match,
                        task2: Task, m2: Match)
    requires WellFormedRules(rules) && NoClash(st, now) && Enumerates(o, st.buffers.Keys)
    requires TaskFrom(task1, rules, st, o, now) && TaskFrom(task2, rules, st, o, now)
    requires MatchOf(m1, task1, now) && MatchOf(m2, task2, now) && m1.fp == m2.fp
    requires task1.rule.id != task2.rule.id || task1.tenant != task2.tenant
    ensures m1.rule == m2.rule && m1.rule.window <= 0
  {
    FingerprintHasRule(m1.rule.id, m1.tenant, m1.events, m2.rule.id, m2.tenant, m2.events);
    var i :| 0 <= i < |rules| && rules[i] == task1.rule;
    var j :| 0 <= j < |rules| && rules[j] == task2.rule;
    assert !Clashing(st, now, o, m1, m2);
  }

  lemma {:induction false} MatchesIndependent(rules: seq<Rule>, st: State, o: seq<string>, now: int, tasks: seq<Task>)
    requires WellFormedRules(rules) && NoClash(st, now) && Enumerates(o, st.buffers.Keys)
    requires ApartTasks(tasks) && forall i :: 0 <= i < |tasks| ==> TaskFrom(tasks[i], rules, st, o, now)
    ensures Independent(MatchesOf(tasks, now))
  {
    if |tasks| != 0 {
      var n := |tasks| - 1;
      var init, last := tasks[..n], tasks[n];
      var early := MatchesOf(init, now);
      MatchesIndependent(rules, st, o, now, init);
      MatchesForMembers(last, now);
      forall i, m | 0 <= i < |early| && m in MatchesFor(last, now) && early[i].fp == m.fp
        ensures early[i].rule == m.rule && m.rule.window <= 0
      {
        EarlierIndependent(rules, st, o, now, tasks, early[i], m);
      }
    }
  }

  lemma MatchIndex(tasks: seq<Task>, now: int, m: Match) returns (k: nat)
    requires m in MatchesOf(tasks, now)
    ensures k < |tasks| && MatchOf(m, tasks[k], now)
  {
    var task := MatchHasTask(tasks, now, m);
    k :| 0 <= k < |tasks| && tasks[k] == task;
  }

  lemma EarlierIndependent(rules: seq<Rule>, st: State, o: seq<string>, now: int, tasks: seq<Task>, m1: Match,
                           m2: Match)
    requires WellFormedRules(rules) && NoClash(st, now) && Enumerates(o, st.buffers.Keys)
    requires ApartTasks(tasks) && forall i :: 0 <= i < |tasks| ==> TaskFrom(tasks[i], rules, st, o, now)
    requires |tasks| > 0 && m1 in MatchesOf(tasks[..|tasks| - 1], now) && MatchOf(m2, tasks[|tasks| - 1], now)
    requires m1.fp == m2.fp
    ensures m1.rule == m2.rule && m2.rule.window <= 0
  {
    var k := MatchIndex(tasks[..|tasks| - 1], now, m1);
    PairIndependent(rules, st, o, now, tasks[k], m1, tasks[|tasks| - 1], m2);
  }

  /** The matches of a tick share a fingerprint only where that suppresses nothing. */
  lemma TickIndependent(rules: seq<Rule>, st: State, now: int, o: seq<string>, orders: seq<seq<string>>)
    requires WellFormedRules(rules) && NoClash(st, now) && ValidOrders(rules, st.buffers, now, o, orders)
    ensures Independent(TickMatches(rules, st.buffers, o, orders, now))
  {
    var tasks := TasksOf(rules, st.buffers, o, orders, now);
    TasksApart(rules, st.buffers, o, orders, now);
    forall i | 0 <= i < |tasks| ensures TaskFrom(tasks[i], rules, st, o, now) {
      TickTasks(rules, st.buffers, o, orders, now, tasks[i]);
    }
    MatchesIndependent(rules, st, o, now, tasks);
  }

  // ---- with a clash, the tenant ranged over first wins -----------------------------------------

  function Rekeyed(m: Match, id: string): Match {
    Match(m.rule.(id := id), m.tenant, m.events, Fingerprint(id, m.tenant, m.events))
  }

  lemma RekeyedMatch(m: Match, events: seq<Event>, now: int, id: string)
    requires MatchOf(m, Task(m.rule, m.tenant, events), now)
    ensures MatchOf(Rekeyed(m, id), Task(m.rule.(id := id), m.tenant, events), now)
  {
    var window := WindowOf(Task(m.rule, m.tenant, events), now);
    assert WindowOf(Task(m.rule.(id := id), m.tenant, events), now) == window;
    assert MatchRule(m.rule.(id := id), window) == MatchRule(m.rule, window);
  }

  /** A clash survives the renaming of its rule. */
  lemma RekeyedClash(st: State, now: int, o: seq<string>, m1: Match, m2: Match, id: string)
    requires Clashing(st, now, o, m1, m2) && BarFree(id)
    ensures Clashing(st, now, o, Rekeyed(m1, id), Rekeyed(m2, id))
  {
    FingerprintRekeyed(m1.rule.id, id, m1.tenant, m1.events, m2.tenant, m2.events);
    RekeyedMatch(m1, Snapshot(st.buffers, o, m1.tenant, now), now, id);
    RekeyedMatch(m2, Snapshot(st.buffers, o, m2.tenant, now), now, id);
  }

  function TenantMatches(buffers: map<string, seq<Event>>, o: seq<string>, rule: Rule, now: int): string -> seq<Match> {
    (t: string) => MatchesFor(Task(rule, t, Snapshot(buffers, o, t, now)), now)
  }

  /** The matches of one rule, tenant by tenant. */
  lemma {:induction false} OneRuleFlat(buffers: map<string, seq<Event>>, o: seq<string>, rule: Rule, ts: seq<string>,
                                       now: int)
    ensures MatchesOf(TasksFor(buffers, o, rule, ts, now), now) == FlatMap(ts, TenantMatches(buffers, o, rule, now))
  {
    if |ts| != 0 {
      var init, t := ts[..|ts| - 1], ts[|ts| - 1];
      OneRuleFlat(buffers, o, rule, init, now);
      MatchesSnoc(TasksFor(buffers, o, rule, init, now), Task(rule, t, Snapshot(buffers, o, t, now)), now);
    }
  }

  lemma {:induction false} FlatHaveRule(ts: seq<string>, f: string -> seq<Match>, rule: Rule)
    requires forall t, m :: m in f(t) ==> m.rule == rule
    ensures forall m :: m in FlatMap(ts, f) ==> m.rule == rule
  {
    if |ts| != 0 {
      FlatHaveRule(ts[..|ts| - 1], f, rule);
    }
  }

  /** The tick of one rule starts with the match of the tenant ranged over first. */
  lemma MatchesHead(buffers: map<string, seq<Event>>, o: seq<string>, rule: Rule, ts: seq<string>, now: int)
    returns (rest: seq<Match>)
    requires |ts| > 0
    ensures MatchesOf(TasksFor(buffers, o, rule, ts, now), now) == TenantMatches(buffers, o, rule, now)(ts[0]) + rest
    ensures forall m :: m in rest ==> m.rule == rule
  {
    var f := TenantMatches(buffers, o, rule, now);
    OneRuleFlat(buffers, o, rule, ts, now);
    FlatMapHead(ts, f);
    rest := FlatMap(ts[1..], f);
    FlatHaveRule(ts[1..], f, rule);
  }

  lemma MatchDetermined(task: Task, m: Match, now: int)
    requires MatchOf(m, task, now)
    ensures MatchesFor(task, now) == [m]
  {
  }

  lemma OneRuleTasks(buffers: map<string, seq<Event>>, o: seq<string>, rule: Rule, ts: seq<string>, now: int)
    ensures TasksOf([rule], buffers, o, [ts], now) == TasksFor(buffers, o, rule, ts, now)
  {
    assert [rule][..0] == [] && [ts][..0] == [];
    assert TasksOf([], buffers, o, [], now) == [];
  }

  lemma OneRuleTick(buffers: map<string, seq<Event>>, o: seq<string>, rule: Rule, ts: seq<string>, now: int)
    ensures TickMatches([rule], buffers, o, [ts], now) == MatchesOf(TasksFor(buffers, o, rule, ts, now), now)
  {
    OneRuleTasks(buffers, o, rule, ts, now);
  }

  /** After the first match of a tick, if it was not suppressed, nothing else is reported under
      its fingerprint. */
  lemma FirstWins(st: State, m: Match, rest: seq<Match>, now: int)
    requires !Suppressed(st.cache, m, now) && m.rule.window > 0
    requires forall i :: 0 <= i < |rest| ==> rest[i].rule == m.rule
    ensures var n, log := |st.trace.log|, ProcessMatches(st, [m] + rest, now).trace.log;
            && n < |log| && log[n] == NewIncident(st.counters.created, m, now)
            && forall k :: n < k < |log| ==> log[k].fingerprint != m.fp
  {
    var st1 := ProcessMatch(st, m, now);
    assert ([m] + rest)[1..] == rest;
    StaysSuppressed(st1, rest, now, m.fp, m.rule.window);
    LogGrows(st1, rest, now);
  }

  /** The outcome of the tick for the clashing fingerprint, under a tenant order. */
  lemma FirstReported(st: State, now: int, o: seq<string>, ts: seq<string>, m: Match)
    requires |ts| > 0 && ts[0] == m.tenant && m.rule.window > 0
    requires MatchOf(m, Task(m.rule, m.tenant, Snapshot(st.buffers, o, m.tenant, now)), now)
    requires m.fp !in st.cache
    ensures var n, log := |st.trace.log|, EvaluateStep([m.rule], st, now, o, [ts]).trace.log;
            && n < |log| && log[n] == NewIncident(st.counters.created, m, now)
            && forall k :: n < k < |log| ==> log[k].fingerprint != m.fp
  {
    OneRuleTick(st.buffers, o, m.rule, ts, now);
    var rest := MatchesHead(st.buffers, o, m.rule, ts, now);
    MatchDetermined(Task(m.rule, m.tenant, Snapshot(st.buffers, o, m.tenant, now)), m, now);
    FirstWins(Begin([m.rule], st, now), m, rest, now);
  }
}
