/** Cleaning the dedup cache is invisible: the cleaned engine and one that never cleans
    create the same incidents, forever. */
module CacheCleaning {
  import opened Domain
  import opened EngineModel
  import opened Dedup

  function WithoutCleans(steps: seq<Step>): seq<Step>
    decreases |steps|
  {
    if |steps| == 0 then []
    else (if steps[0].Clean? then [] else [steps[0]]) + WithoutCleans(steps[1..])
  }

  /** Equal but for the cache and the time of the last cleaning. */
  predicate SameButCache(a: State, b: State) {
    a.(cache := b.cache, trace := a.trace.(clock := b.trace.clock)) == b
  }

  /** `c` has been cleaned and `u` has not: they differ only in entries beyond the retention. */
  ghost predicate Simulates(c: State, u: State) {
    && SameButCache(c, u)
    && u.trace.clock <= c.trace.clock
    && (forall fp :: fp in c.cache ==> fp in u.cache && u.cache[fp] == c.cache[fp])
    && (forall fp :: fp in u.cache && fp !in c.cache ==> u.cache[fp] < c.trace.clock - CACHE_RETENTION)
  }

  lemma SameDecision(c: State, u: State, m: Match, now: int)
    requires Simulates(c, u) && now >= c.trace.clock && m.rule.window * 2 <= CACHE_RETENTION
    ensures Suppressed(c.cache, m, now) == Suppressed(u.cache, m, now)
  {
  }

  lemma {:induction false} SimulateMatches(c: State, u: State, ms: seq<Match>, now: int)
    requires Simulates(c, u) && now >= c.trace.clock
    requires forall m :: m in ms ==> m.rule.window * 2 <= CACHE_RETENTION
    ensures Simulates(ProcessMatches(c, ms, now), ProcessMatches(u, ms, now))
    decreases |ms|
  {
    if |ms| != 0 {
      SameDecision(c, u, ms[0], now);
      SimulateMatches(ProcessMatch(c, ms[0], now), ProcessMatch(u, ms[0], now), ms[1..], now);
    }
  }

  lemma SimulateEvaluate(rules: seq<Rule>, c: State, u: State, now: int, keyOrder: seq<string>,
                         tenantOrders: seq<seq<string>>)
    requires ShortWindows(rules) && Simulates(c, u) && now >= c.trace.clock
    ensures Simulates(EvaluateStep(rules, c, now, keyOrder, tenantOrders),
                      EvaluateStep(rules, u, now, keyOrder, tenantOrders))
  {
    if |tenantOrders| == |rules| {
      var ms := TickMatches(rules, c.buffers, keyOrder, tenantOrders, now);
      TickRules(rules, c.buffers, keyOrder, tenantOrders, now);
      SimulateMatches(Begin(rules, c, now), Begin(rules, u, now), ms, now);
    }
  }

  lemma SimulateIngest(c: State, u: State, e: Event)
    requires Simulates(c, u)
    ensures Simulates(IngestStep(c, e), IngestStep(u, e))
  {
  }

  lemma SimulatePrune(c: State, u: State, now: int)
    requires Simulates(c, u) && now >= c.trace.clock
    ensures Simulates(PruneStep(c, now), PruneStep(u, now))
  {
    assert PrunedCounts(c, now) == PrunedCounts(u, now);
  }

  lemma SimulateUpdates(c: State, u: State, id: nat, text: string, now: int)
    requires Simulates(c, u) && now >= c.trace.clock
    ensures Simulates(WriteBackStep(c, id, text, now), WriteBackStep(u, id, text, now))
    ensures Simulates(PatchStep(c, id, text, now), PatchStep(u, id, text, now))
  {
    SimulateSame(c, u, WriteBackStep(c, id, text, now), WriteBackStep(u, id, text, now));
    SimulateSame(c, u, PatchStep(c, id, text, now), PatchStep(u, id, text, now));
  }

  /** Steps that leave both caches alone and change the rest alike. */
  lemma SimulateSame(c: State, u: State, c': State, u': State)
    requires Simulates(c, u) && SameButCache(c', u')
    requires c'.cache == c.cache && u'.cache == u.cache
    requires u'.trace.clock == c'.trace.clock && c'.trace.clock >= c.trace.clock
    ensures Simulates(c', u')
  {
  }

  lemma SimulateDispatch(c: State, u: State)
    requires Simulates(c, u)
    ensures Simulates(PublishStep(c), PublishStep(u)) && Simulates(TakeStep(c), TakeStep(u))
  {
  }

  lemma SimulateStep(rules: seq<Rule>, c: State, u: State, step: Step)
    requires ShortWindows(rules) && Simulates(c, u)
    requires Enabled(rules, c, step) && !step.Clean?
    ensures Enabled(rules, u, step)
    ensures Simulates(Next(rules, c, step), Next(rules, u, step))
  {
    match step
    case Evaluate(now, keyOrder, tenantOrders) => SimulateEvaluate(rules, c, u, now, keyOrder, tenantOrders);
    case Ingest(e) => SimulateIngest(c, u, e);
    case Prune(now) => SimulatePrune(c, u, now);
    case WriteBack(id, alertId, now) => SimulateUpdates(c, u, id, alertId, now);
    case Patch(id, status, now) => SimulateUpdates(c, u, id, status, now);
    case _ => SimulateDispatch(c, u);
  }

  /** Removing all the cleaning from a run gives a run again, with the same incidents,
      buffers, channel and counters.  Runs that clean at different times therefore agree. */
  lemma {:induction false} CleaningInvisible(rules: seq<Rule>, c: State, u: State, steps: seq<Step>)
    requires ShortWindows(rules) && Simulates(c, u) && ValidRun(rules, c, steps)
    ensures ValidRun(rules, u, WithoutCleans(steps))
    ensures Simulates(Run(rules, c, steps), Run(rules, u, WithoutCleans(steps)))
    decreases |steps|
  {
    if |steps| != 0 {
      var rest := WithoutCleans(steps[1..]);
      if steps[0].Clean? {
        CleaningInvisible(rules, Next(rules, c, steps[0]), u, steps[1..]);
        assert [] + rest == rest;
      } else {
        SimulateStep(rules, c, u, steps[0]);
        CleaningInvisible(rules, Next(rules, c, steps[0]), Next(rules, u, steps[0]), steps[1..]);
        assert ([steps[0]] + rest)[1..] == rest;
      }
    }
  }

  lemma SameIncidentsWithoutCleaning(rules: seq<Rule>, steps: seq<Step>)
    requires ShortWindows(rules) && ValidRun(rules, INITIAL, steps)
    ensures ValidRun(rules, INITIAL, WithoutCleans(steps))
    ensures Run(rules, INITIAL, steps).incidents == Run(rules, INITIAL, WithoutCleans(steps)).incidents
    ensures Run(rules, INITIAL, steps).channel == Run(rules, INITIAL, WithoutCleans(steps)).channel
    ensures Run(rules, INITIAL, steps).counters == Run(rules, INITIAL, WithoutCleans(steps)).counters
  {
    CleaningInvisible(rules, INITIAL, INITIAL, steps);
  }

  /** Whether cleaning can change a decision depends only on the rule's window. */
  ghost predicate CleaningSafe(window: int) {
    forall cache: map<string, int>, m: Match, cleaned: int, now: int ::
      m.rule.window == window && cleaned <= now ==>
        Suppressed(Cleaned(cache, cleaned), m, now) == Suppressed(cache, m, now)
  }

  /** The bound on windows is exact: cleaning never changes a decision if and only if twice
      the window fits into the retention. */
  lemma CleaningSafeIff(window: int)
    ensures CleaningSafe(window) <==> window * 2 <= 3_600_000_000_000
  {
    if window * 2 > CACHE_RETENTION {
      var m := Match(Rule("R", "", "", 0, window, [], "", "", 0), "t", [], "fp");
      var cache: map<string, int> := map["fp" := 0];
      var now := CACHE_RETENTION + 1;
      assert "fp" !in Cleaned(cache, now);
      assert Suppressed(Cleaned(cache, now), m, now) != Suppressed(cache, m, now);
      assert m.rule.window == window;
    }
  }
}
