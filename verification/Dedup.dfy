/** The dedup cache is a lossy index of the incident store: what it forgets no longer matters. */
module Dedup {
  import opened Domain
  import opened Fingerprints
  import opened EngineModel
  import opened Ticks
  import opened Reachable

  ghost predicate Indexed(st: State, fp: string, i: int) {
    && 0 <= i < |st.trace.log|
    && st.trace.log[i].fingerprint == fp
    && fp in st.cache && st.trace.log[i].createdAt == st.cache[fp]
  }

  predicate Remembered(st: State, inc: Incident) {
    || (inc.fingerprint in st.cache && inc.createdAt <= st.cache[inc.fingerprint])
    || inc.createdAt < st.trace.clock - CACHE_RETENTION
  }

  /** Cache entries are creation times of incidents; an incident missing from the cache, or
      newer than its entry, is older than the retention. */
  ghost predicate CacheInv(st: State) {
    && (forall fp :: fp in st.cache ==> exists i :: Indexed(st, fp, i))
    && (forall i :: 0 <= i < |st.trace.log| ==> Remembered(st, st.trace.log[i]))
    && (forall i :: 0 <= i < |st.trace.log| ==> st.trace.log[i].createdAt <= st.trace.clock)
  }

  /** Two incidents with one fingerprint are at least two windows of their rule apart. */
  ghost predicate SpacingInv(rules: seq<Rule>, st: State) {
    forall i, j, r :: 0 <= i < j < |st.trace.log| && 0 <= r < |rules|
                      && st.trace.log[j].ruleId == rules[r].id
                      && st.trace.log[i].fingerprint == st.trace.log[j].fingerprint ==>
      st.trace.log[j].createdAt - st.trace.log[i].createdAt >= 2 * rules[r].window
  }

  lemma CacheMatch(st: State, m: Match, now: int)
    requires CacheInv(st) && now == st.trace.clock
    ensures CacheInv(ProcessMatch(st, m, now))
  {
    var st' := ProcessMatch(st, m, now);
    forall fp | fp in st'.cache ensures exists i :: Indexed(st', fp, i) {
      StillIndexed(st, m, now, fp);
    }
    forall i | 0 <= i < |st'.trace.log| ensures Remembered(st', st'.trace.log[i]) {
      StillRemembered(st, m, now, i);
    }
  }

  lemma StillIndexed(st: State, m: Match, now: int, fp: string)
    requires CacheInv(st) && fp in ProcessMatch(st, m, now).cache
    ensures exists i :: Indexed(ProcessMatch(st, m, now), fp, i)
  {
    var st' := ProcessMatch(st, m, now);
    if fp in st.cache && st'.cache[fp] == st.cache[fp] {
      var i :| Indexed(st, fp, i);
      assert Indexed(st', fp, i);
    } else {
      assert Indexed(st', fp, |st.trace.log|);
    }
  }

  lemma StillRemembered(st: State, m: Match, now: int, i: nat)
    requires CacheInv(st) && now == st.trace.clock && i < |ProcessMatch(st, m, now).trace.log|
    ensures Remembered(ProcessMatch(st, m, now), ProcessMatch(st, m, now).trace.log[i])
  {
    assert i < |st.trace.log| ==> Remembered(st, st.trace.log[i]);
  }

  lemma SpacingMatch(rules: seq<Rule>, st: State, m: Match, now: int)
    requires WellFormedRules(rules) && ShortWindows(rules)
    requires CacheInv(st) && SpacingInv(rules, st) && now == st.trace.clock
    requires m.rule in rules
    ensures SpacingInv(rules, ProcessMatch(st, m, now))
  {
    var log := st.trace.log;
    if !Suppressed(st.cache, m, now) {
      forall i | 0 <= i < |log| && log[i].fingerprint == m.fp
        ensures now - log[i].createdAt >= 2 * m.rule.window
      {
        assert Remembered(st, log[i]);
      }
    }
  }

  lemma {:induction false} DedupMatches(rules: seq<Rule>, st: State, ms: seq<Match>, now: int)
    requires WellFormedRules(rules) && ShortWindows(rules)
    requires CacheInv(st) && SpacingInv(rules, st) && now == st.trace.clock
    requires forall m :: m in ms ==> m.rule in rules
    ensures CacheInv(ProcessMatches(st, ms, now)) && SpacingInv(rules, ProcessMatches(st, ms, now))
    decreases |ms|
  {
    if |ms| != 0 {
      CacheMatch(st, ms[0], now);
      SpacingMatch(rules, st, ms[0], now);
      DedupMatches(rules, ProcessMatch(st, ms[0], now), ms[1..], now);
    }
  }

  lemma TickRules(rules: seq<Rule>, buffers: map<string, seq<Event>>, keyOrder: seq<string>,
                  tenantOrders: seq<seq<string>>, now: int)
    requires |tenantOrders| == |rules|
    ensures forall m :: m in TickMatches(rules, buffers, keyOrder, tenantOrders, now) ==> m.rule in rules
  {
    var tasks := TasksOf(rules, buffers, keyOrder, tenantOrders, now);
    TasksOfMembers(rules, buffers, keyOrder, tenantOrders, now);
    forall m | m in MatchesOf(tasks, now) ensures m.rule in rules {
      var task := MatchHasTask(tasks, now, m);
      var i :| TaskOf(task, rules, buffers, keyOrder, tenantOrders, now, i);
    }
  }

  /** The invariants survive the passing of time and anything that leaves cache and log alone. */
  lemma DedupLater(rules: seq<Rule>, st: State, st': State)
    requires CacheInv(st) && SpacingInv(rules, st)
    requires st'.cache == st.cache && st'.trace.log == st.trace.log && st'.trace.clock >= st.trace.clock
    ensures CacheInv(st') && SpacingInv(rules, st')
  {
    forall fp | fp in st'.cache ensures exists i :: Indexed(st', fp, i) {
      var i :| Indexed(st, fp, i);
      assert Indexed(st', fp, i);
    }
    forall i | 0 <= i < |st'.trace.log| ensures Remembered(st', st'.trace.log[i]) {
      assert Remembered(st, st.trace.log[i]);
    }
  }

  lemma DedupClean(rules: seq<Rule>, st: State, now: int)
    requires CacheInv(st) && SpacingInv(rules, st) && now >= st.trace.clock
    ensures CacheInv(CleanStep(st, now)) && SpacingInv(rules, CleanStep(st, now))
  {
    var st' := CleanStep(st, now);
    forall fp | fp in st'.cache ensures exists i :: Indexed(st', fp, i) {
      var i :| Indexed(st, fp, i);
      assert Indexed(st', fp, i);
    }
    forall i | 0 <= i < |st'.trace.log| ensures Remembered(st', st'.trace.log[i]) {
      assert Remembered(st, st.trace.log[i]);
    }
  }

  lemma DedupEvaluate(rules: seq<Rule>, st: State, now: int, keyOrder: seq<string>, tenantOrders: seq<seq<string>>)
    requires WellFormedRules(rules) && ShortWindows(rules)
    requires CacheInv(st) && SpacingInv(rules, st) && now >= st.trace.clock
    ensures var st' := EvaluateStep(rules, st, now, keyOrder, tenantOrders);
            CacheInv(st') && SpacingInv(rules, st')
  {
    if |tenantOrders| == |rules| {
      var st1 := Begin(rules, st, now);
      DedupLater(rules, st, st1);
      TickRules(rules, st.buffers, keyOrder, tenantOrders, now);
      DedupMatches(rules, st1, TickMatches(rules, st.buffers, keyOrder, tenantOrders, now), now);
    }
  }

  lemma DedupStep(rules: seq<Rule>, st: State, step: Step)
    requires WellFormedRules(rules) && ShortWindows(rules)
    requires CacheInv(st) && SpacingInv(rules, st) && Enabled(rules, st, step)
    ensures CacheInv(Next(rules, st, step)) && SpacingInv(rules, Next(rules, st, step))
  {
    match step
    case Evaluate(now, keyOrder, tenantOrders) => DedupEvaluate(rules, st, now, keyOrder, tenantOrders);
    case Clean(now) => DedupClean(rules, st, now);
    case _ =>
      OthersKeepCache(rules, st, step);
      DedupLater(rules, st, Next(rules, st, step));
  }

  lemma OthersKeepCache(rules: seq<Rule>, st: State, step: Step)
    requires Enabled(rules, st, step) && !step.Evaluate? && !step.Clean?
    ensures var st' := Next(rules, st, step);
            st'.cache == st.cache && st'.trace.log == st.trace.log && st'.trace.clock >= st.trace.clock
  {
  }

  lemma {:induction false} DedupRun(rules: seq<Rule>, st: State, steps: seq<Step>)
    requires WellFormedRules(rules) && ShortWindows(rules)
    requires CacheInv(st) && SpacingInv(rules, st) && ValidRun(rules, st, steps)
    ensures CacheInv(Run(rules, st, steps)) && SpacingInv(rules, Run(rules, st, steps))
    decreases |steps|
  {
    if |steps| != 0 {
      DedupStep(rules, st, steps[0]);
      DedupRun(rules, Next(rules, st, steps[0]), steps[1..]);
    }
  }

  // ---- the cache agrees with the incident store ---------------------------------------

  /** Some stored incident with this fingerprint was created less than two windows ago. */
  ghost predicate RecentlyReported(st: State, fp: string, horizon: int) {
    exists id: nat :: id in st.incidents && st.incidents[id].fingerprint == fp && st.incidents[id].createdAt > horizon
  }

  lemma SuppressedIffReported(st: State, m: Match, now: int)
    requires CacheInv(st) && StoreInv(st) && now >= st.trace.clock
    requires m.rule.window * 2 <= CACHE_RETENTION
    ensures Suppressed(st.cache, m, now) <==> RecentlyReported(st, m.fp, now - 2 * m.rule.window)
  {
    if Suppressed(st.cache, m, now) {
      var i :| Indexed(st, m.fp, i);
      assert SameIncident(st.incidents[i], st.trace.log[i]);
    }
    if id: nat :| id in st.incidents && st.incidents[id].fingerprint == m.fp
                  && st.incidents[id].createdAt > now - 2 * m.rule.window
    {
      assert SameIncident(st.incidents[id], st.trace.log[id]);
      assert Remembered(st, st.trace.log[id]);
    }
  }

  /** The incidents a step adds to the store. */
  ghost predicate Creates(before: State, after: State, fp: string) {
    exists id: nat :: id in after.incidents && id !in before.incidents && after.incidents[id].fingerprint == fp
  }

  lemma CreatesIffReports(st: State, ms: seq<Match>, now: int, fp: string)
    requires StoreInv(st)
    ensures Creates(st, ProcessMatches(st, ms, now), fp) <==> Reports(st, ProcessMatches(st, ms, now), fp)
  {
    var st' := ProcessMatches(st, ms, now);
    StoreMatches(st, ms, now);
    LogGrows(st, ms, now);
    if id: nat :| id in st'.incidents && id !in st.incidents && st'.incidents[id].fingerprint == fp {
      assert SameIncident(st'.incidents[id], st'.trace.log[id]);
    }
    if k: nat :| |st.trace.log| <= k < |st'.trace.log| && st'.trace.log[k].fingerprint == fp {
      assert SameIncident(st'.incidents[k], st'.trace.log[k]);
    }
  }

  /** Although the loop updates the cache as it goes, the cache at its start decides. */
  lemma CreatedIffUnsuppressed(st: State, ms: seq<Match>, now: int, m: Match)
    requires StoreInv(st) && m in ms && OneWindow(ms, m.fp, m.rule.window)
    ensures Creates(st, ProcessMatches(st, ms, now), m.fp) <==> !Suppressed(st.cache, m, now)
  {
    CreatesIffReports(st, ms, now, m.fp);
    if Suppressed(st.cache, m, now) {
      StaysSuppressed(st, ms, now, m.fp, m.rule.window);
    } else {
      GetsReported(st, ms, now, m);
    }
  }

  /** Matches of a tick with one fingerprint come from one rule. */
  lemma TickOneWindow(rules: seq<Rule>, buffers: map<string, seq<Event>>, keyOrder: seq<string>,
                      tenantOrders: seq<seq<string>>, now: int, m: Match)
    requires WellFormedRules(rules) && |tenantOrders| == |rules|
    requires m in TickMatches(rules, buffers, keyOrder, tenantOrders, now)
    ensures OneWindow(TickMatches(rules, buffers, keyOrder, tenantOrders, now), m.fp, m.rule.window)
  {
    var tasks := TasksOf(rules, buffers, keyOrder, tenantOrders, now);
    var ms := MatchesOf(tasks, now);
    TickRules(rules, buffers, keyOrder, tenantOrders, now);
    var task := MatchHasTask(tasks, now, m);
    forall i | 0 <= i < |ms| && ms[i].fp == m.fp ensures ms[i].rule.window == m.rule.window {
      assert ms[i] in ms;
      var other := MatchHasTask(tasks, now, ms[i]);
      SameRule(rules, m, ms[i]);
    }
  }

  lemma SameRule(rules: seq<Rule>, m1: Match, m2: Match)
    requires WellFormedRules(rules) && m1.rule in rules && m2.rule in rules && m1.fp == m2.fp
    requires m1.fp == Fingerprint(m1.rule.id, m1.tenant, m1.events)
    requires m2.fp == Fingerprint(m2.rule.id, m2.tenant, m2.events)
    ensures m1.rule == m2.rule
  {
    var i :| 0 <= i < |rules| && rules[i] == m1.rule;
    var j :| 0 <= j < |rules| && rules[j] == m2.rule;
    FingerprintHasRule(m1.rule.id, m1.tenant, m1.events, m2.rule.id, m2.tenant, m2.events);
  }

  /** In every reachable state, a rule that matches for a tenant at `now` creates an incident
      if and only if no stored incident with that fingerprint is newer than now - 2 * window. */
  lemma CreatedIffNotReported(rules: seq<Rule>, steps: seq<Step>, now: int, keyOrder: seq<string>,
                              tenantOrders: seq<seq<string>>, m: Match)
    requires WellFormedRules(rules) && ShortWindows(rules) && ValidRun(rules, INITIAL, steps)
    requires var st := Run(rules, INITIAL, steps);
             && Enabled(rules, st, Evaluate(now, keyOrder, tenantOrders))
             && m in TickMatches(rules, st.buffers, keyOrder, tenantOrders, now)
    ensures var st := Run(rules, INITIAL, steps);
            Creates(st, Next(rules, st, Evaluate(now, keyOrder, tenantOrders)), m.fp)
            <==> !RecentlyReported(st, m.fp, now - 2 * m.rule.window)
  {
    var st := Run(rules, INITIAL, steps);
    StoreRun(rules, INITIAL, steps);
    DedupRun(rules, INITIAL, steps);
    TickRules(rules, st.buffers, keyOrder, tenantOrders, now);
    TickOneWindow(rules, st.buffers, keyOrder, tenantOrders, now, m);
    SuppressedIffReported(st, m, now);
    CreatedIffUnsuppressed(Begin(rules, st, now), TickMatches(rules, st.buffers, keyOrder, tenantOrders, now), now, m);
  }

  /** Consequently, stored incidents with one fingerprint stay two windows apart for ever. */
  lemma IncidentsSpaced(rules: seq<Rule>, steps: seq<Step>, i: nat, j: nat, r: nat)
    requires WellFormedRules(rules) && ShortWindows(rules) && ValidRun(rules, INITIAL, steps)
    requires var st := Run(rules, INITIAL, steps);
             && i in st.incidents && j in st.incidents && i < j && r < |rules|
             && st.incidents[j].ruleId == rules[r].id
             && st.incidents[i].fingerprint == st.incidents[j].fingerprint
    ensures var st := Run(rules, INITIAL, steps);
            st.incidents[j].createdAt - st.incidents[i].createdAt >= 2 * rules[r].window
  {
    StoreRun(rules, INITIAL, steps);
    DedupRun(rules, INITIAL, steps);
    var st := Run(rules, INITIAL, steps);
    assert SameIncident(st.incidents[i], st.trace.log[i]);
    assert SameIncident(st.incidents[j], st.trace.log[j]);
  }

  /** A suppressed match changes neither cache nor store, so it cannot extend the suppression. */
  lemma SuppressionNotExtended(st: State, m: Match, now: int)
    requires Suppressed(st.cache, m, now)
    ensures ProcessMatch(st, m, now).cache == st.cache
    ensures ProcessMatch(st, m, now).incidents == st.incidents
    ensures forall later :: Suppressed(ProcessMatch(st, m, now).cache, m, later)
                            <==> later < st.cache[m.fp] + 2 * m.rule.window
  {
  }
}
