/** When a rule fires for a tenant, counted on the buffered events themselves: nothing recent
    is overlooked, and nothing else counts. */
module Firing {
  import opened Sequences
  import opened Domain
  import opened Matching
  import opened EngineModel
  import opened Reachable
  import opened Dedup
  import opened Recurrence
  import opened Updates
  import opened BufferRefinement
  import opened Conditions
  import opened DefaultRuleSet

  const FIVE_MINUTES: int := 300_000_000_000

  /** The oldest time, exclusive, at which an event counts for a rule. */
  function Cutoff(now: int, window: int): int {
    if window < FIVE_MINUTES then now - window else now - FIVE_MINUTES
  }

  /** Events of the tenant, newer than the cutoff, that satisfy the condition. */
  function HitsAmong(s: seq<Event>, t: string, cutoff: int, c: Condition): nat {
    if |s| == 0 then 0
    else
      var e := s[|s| - 1];
      HitsAmong(s[..|s| - 1], t, cutoff, c) + if e.tenant == t && e.ts > cutoff && MatchCondition(c, e) then 1 else 0
  }

  function HitsIn(buffers: map<string, seq<Event>>, keys: seq<string>, t: string, cutoff: int, c: Condition): nat {
    if |keys| == 0 then 0
    else
      HitsIn(buffers, keys[..|keys| - 1], t, cutoff, c)
      + HitsAmong(Buffered(buffers, keys[|keys| - 1]), t, cutoff, c)
  }

  /** There is a condition, and each has a hit and no fewer than its minimum count and the
      rule's threshold. */
  predicate EnoughHits(buffers: map<string, seq<Event>>, keys: seq<string>, rule: Rule, t: string, now: int) {
    && |rule.conditions| > 0
    && forall i :: 0 <= i < |rule.conditions| ==>
         var c := rule.conditions[i];
         Enough(HitsIn(buffers, keys, t, Cutoff(now, rule.window), c), c, rule)
  }

  /** Keys carry the tenants of their events. */
  ghost predicate KeyedByTenant(buffers: map<string, seq<Event>>) {
    forall k, e :: k in buffers && e in buffers[k] ==> TenantOfKey(k) == Some(e.tenant)
  }

  // ---- the count, key by key --------------------------------------------------------------

  function Counted(s: seq<Event>, now: int, window: int, c: Condition): nat {
    |Filter(Filter(Filter(s, Fresh(now)), FreshAfter(now - window)), Satisfies(c))|
  }

  lemma {:induction false} CountedIsHits(s: seq<Event>, t: string, now: int, window: int, c: Condition)
    requires forall e :: e in s ==> e.tenant == t
    ensures Counted(s, now, window, c) == HitsAmong(s, t, Cutoff(now, window), c)
  {
    if |s| != 0 {
      var init, e := s[..|s| - 1], s[|s| - 1];
      CountedIsHits(init, t, now, window, c);
      FilterSnoc(Filter(init, Fresh(now)), e, FreshAfter(now - window));
      FilterSnoc(Filter(Filter(init, Fresh(now)), FreshAfter(now - window)), e, Satisfies(c));
    }
  }

  lemma {:induction false} NoHitsElsewhere(s: seq<Event>, t: string, cutoff: int, c: Condition)
    requires forall e :: e in s ==> e.tenant != t
    ensures HitsAmong(s, t, cutoff, c) == 0
  {
    if |s| != 0 {
      NoHitsElsewhere(s[..|s| - 1], t, cutoff, c);
    }
  }

  lemma {:induction false} SnapshotCounts(buffers: map<string, seq<Event>>, o: seq<string>, t: string, now: int,
                                          window: int, c: Condition)
    requires KeyedByTenant(buffers)
    ensures |Hits(c, Filter(Snapshot(buffers, o, t, now), FreshAfter(now - window)))|
            == HitsIn(buffers, o, t, Cutoff(now, window), c)
  {
    if |o| != 0 {
      var init, k := o[..|o| - 1], o[|o| - 1];
      var buf, before := Buffered(buffers, k), Snapshot(buffers, init, t, now);
      SnapshotCounts(buffers, init, t, now, window, c);
      if TenantOfKey(k) == Some(t) {
        FilterConcat(before, Filter(buf, Fresh(now)), FreshAfter(now - window));
        FilterConcat(Filter(before, FreshAfter(now - window)),
                     Filter(Filter(buf, Fresh(now)), FreshAfter(now - window)), Satisfies(c));
        CountedIsHits(buf, t, now, window, c);
      } else {
        NoHitsElsewhere(buf, t, Cutoff(now, window), c);
      }
    }
  }

  predicate Enough(hits: nat, c: Condition, rule: Rule) {
    hits >= 1 && hits >= c.minCount && hits >= rule.threshold
  }

  predicate AllEnough(rule: Rule, window: seq<Event>) {
    && |rule.conditions| > 0
    && forall i :: 0 <= i < |rule.conditions| ==>
         Enough(|Hits(rule.conditions[i], window)|, rule.conditions[i], rule)
  }

  lemma RuleFiresIff(rule: Rule, window: seq<Event>)
    ensures MatchRule(rule, window).Some? <==> AllEnough(rule, window)
  {
    MatchRuleExact(rule, window);
  }

  lemma EnoughCounted(buffers: map<string, seq<Event>>, o: seq<string>, rule: Rule, t: string, now: int)
    requires KeyedByTenant(buffers)
    ensures AllEnough(rule, Filter(Snapshot(buffers, o, t, now), FreshAfter(now - rule.window)))
            <==> EnoughHits(buffers, o, rule, t, now)
  {
    forall i | 0 <= i < |rule.conditions|
      ensures |Hits(rule.conditions[i], Filter(Snapshot(buffers, o, t, now), FreshAfter(now - rule.window)))|
              == HitsIn(buffers, o, t, Cutoff(now, rule.window), rule.conditions[i])
    {
      SnapshotCounts(buffers, o, t, now, rule.window, rule.conditions[i]);
    }
  }

  lemma FiresIffHits(buffers: map<string, seq<Event>>, o: seq<string>, rule: Rule, t: string, now: int)
    requires KeyedByTenant(buffers)
    ensures FiresOn(buffers, o, t, rule, now) <==> EnoughHits(buffers, o, rule, t, now)
  {
    RuleFiresIff(rule, WindowOf(Task(rule, t, Snapshot(buffers, o, t, now)), now));
    EnoughCounted(buffers, o, rule, t, now);
  }

  // ---- in any order ----------------------------------------------------------------------------

  lemma {:induction false} HitsConcat(buffers: map<string, seq<Event>>, a: seq<string>, b: seq<string>, t: string,
                                      cutoff: int, c: Condition)
    ensures HitsIn(buffers, a + b, t, cutoff, c) == HitsIn(buffers, a, t, cutoff, c) + HitsIn(buffers, b, t, cutoff, c)
  {
    if |b| == 0 {
      assert a + b == a;
    } else {
      assert (a + b)[..|a + b| - 1] == a + b[..|b| - 1];
      HitsConcat(buffers, a, b[..|b| - 1], t, cutoff, c);
    }
  }

  lemma HitsWithout(buffers: map<string, seq<Event>>, b: seq<string>, j: nat, t: string, cutoff: int, c: Condition)
    requires j < |b|
    ensures HitsIn(buffers, b, t, cutoff, c)
            == HitsIn(buffers, b[..j] + b[j + 1..], t, cutoff, c) + HitsAmong(Buffered(buffers, b[j]), t, cutoff, c)
  {
    assert b == b[..j + 1] + b[j + 1..] && b[..j + 1][..j] == b[..j];
    HitsConcat(buffers, b[..j], b[j + 1..], t, cutoff, c);
    HitsConcat(buffers, b[..j + 1], b[j + 1..], t, cutoff, c);
  }

  /** Counting over the same keys in another order gives the same number. */
  lemma {:induction false} HitsInAnyOrder(buffers: map<string, seq<Event>>, a: seq<string>, b: seq<string>, t: string,
                                          cutoff: int, c: Condition)
    requires Distinct(a) && Distinct(b) && forall k :: k in a <==> k in b
    ensures HitsIn(buffers, a, t, cutoff, c) == HitsIn(buffers, b, t, cutoff, c)
    decreases |a|
  {
    assert |b| > 0 ==> b[0] in b;
    if |a| != 0 {
      assert a[|a| - 1] in a && a[|a| - 1] in b;
      var j :| 0 <= j < |b| && b[j] == a[|a| - 1];
      WithoutKey(a, b, j);
      HitsInAnyOrder(buffers, a[..|a| - 1], b[..j] + b[j + 1..], t, cutoff, c);
      HitsWithout(buffers, b, j, t, cutoff, c);
    }
  }

  lemma WithoutKey(a: seq<string>, b: seq<string>, j: nat)
    requires Distinct(a) && Distinct(b) && forall k :: k in a <==> k in b
    requires |a| > 0 && j < |b| && b[j] == a[|a| - 1]
    ensures var init, rest := a[..|a| - 1], b[..j] + b[j + 1..];
            Distinct(init) && Distinct(rest) && forall k :: k in init <==> k in rest
  {
    var init, rest := a[..|a| - 1], b[..j] + b[j + 1..];
    forall k ensures k in init <==> k in rest {
      if k in init {
        assert k in a && k in b;
        var i :| 0 <= i < |b| && b[i] == k;
        assert i != j;
        assert rest[if i < j then i else i - 1] == k;
      }
      if k in rest {
        var i :| 0 <= i < |rest| && rest[i] == k;
        assert k == b[if i < j then i else i + 1];
        assert k in b && k in a && k != a[|a| - 1];
      }
    }
  }

  // ---- ticks -----------------------------------------------------------------------------------------

  lemma BuffersKeyed(st: State)
    requires BufferInv(st)
    ensures KeyedByTenant(st.buffers)
  {
    forall k, e | k in st.buffers && e in st.buffers[k] ensures TenantOfKey(k) == Some(e.tenant) {
      KeyRoundTrip(e);
    }
  }

  ghost predicate MatchFor(ms: seq<Match>, rule: Rule, t: string) {
    exists m :: m in ms && m.rule == rule && m.tenant == t
  }

  lemma MatchIffFires(rules: seq<Rule>, buffers: map<string, seq<Event>>, now: int, keyOrder: seq<string>,
                      orders: seq<seq<string>>, rule: Rule, t: string)
    requires ValidOrders(rules, buffers, now, keyOrder, orders) && rule in rules && t in Tenants(buffers, now)
    ensures MatchFor(TickMatches(rules, buffers, keyOrder, orders, now), rule, t)
            <==> FiresOn(buffers, keyOrder, t, rule, now)
  {
    var tasks := TasksOf(rules, buffers, keyOrder, orders, now);
    var task := Task(rule, t, Snapshot(buffers, keyOrder, t, now));
    TickTasks(rules, buffers, keyOrder, orders, now, task);
    if FiresOn(buffers, keyOrder, t, rule, now) {
      var events := MatchRule(rule, WindowOf(task, now)).value;
      TaskHasMatch(tasks, now, task, Match(rule, t, events, Fingerprints.Fingerprint(rule.id, t, events)));
    }
    if m :| m in MatchesOf(tasks, now) && m.rule == rule && m.tenant == t {
      var other := MatchHasTask(tasks, now, m);
      TickTasks(rules, buffers, keyOrder, orders, now, other);
    }
  }

  lemma NothingFires(rule: Rule, t: string, now: int)
    ensures MatchRule(rule, WindowOf(Task(rule, t, []), now)) == None
  {
    MatchNothing(rule);
  }

  /** A tenant for which a rule fires is ranged over. */
  lemma FiresHasTenant(buffers: map<string, seq<Event>>, keyOrder: seq<string>, rule: Rule, t: string, now: int)
    requires FiresOn(buffers, keyOrder, t, rule, now) && Enumerates(keyOrder, buffers.Keys)
    ensures t in Tenants(buffers, now)
  {
    var s := Snapshot(buffers, keyOrder, t, now);
    NothingFires(rule, t, now);
    SnapshotElements(buffers, keyOrder, t, now);
    assert s[0] in s;
    var k :| k in keyOrder && TenantOfKey(k) == Some(t) && s[0] in Buffered(buffers, k);
    FilterElements(Buffered(buffers, k), Fresh(now));
  }

  lemma MatchHasTenant(rules: seq<Rule>, buffers: map<string, seq<Event>>, now: int, keyOrder: seq<string>,
                       orders: seq<seq<string>>, m: Match)
    requires ValidOrders(rules, buffers, now, keyOrder, orders)
    requires m in TickMatches(rules, buffers, keyOrder, orders, now)
    ensures m.tenant in Tenants(buffers, now)
  {
    var task := MatchHasTask(TasksOf(rules, buffers, keyOrder, orders, now), now, m);
    TickTasks(rules, buffers, keyOrder, orders, now, task);
  }

  /** Whatever the orders drawn, a rule matches for a tenant in a tick exactly when each of its
      conditions has enough buffered events of that tenant, newer than the rule's window and
      than five minutes, counted over the keys in any order. */
  lemma TickFiresIff(rules: seq<Rule>, st: State, now: int, keyOrder: seq<string>, orders: seq<seq<string>>,
                     rule: Rule, t: string, keys: seq<string>)
    requires BufferInv(st) && ValidOrders(rules, st.buffers, now, keyOrder, orders) && rule in rules
    requires Enumerates(keys, st.buffers.Keys)
    ensures MatchFor(TickMatches(rules, st.buffers, keyOrder, orders, now), rule, t)
            <==> EnoughHits(st.buffers, keys, rule, t, now)
  {
    BuffersKeyed(st);
    FiresIffHits(st.buffers, keyOrder, rule, t, now);
    EnoughInAnyOrder(st.buffers, keyOrder, keys, rule, t, now);
    TickFiresOn(rules, st.buffers, now, keyOrder, orders, rule, t);
  }

  lemma EnoughInAnyOrder(buffers: map<string, seq<Event>>, a: seq<string>, b: seq<string>, rule: Rule, t: string,
                         now: int)
    requires Enumerates(a, buffers.Keys) && Enumerates(b, buffers.Keys)
    ensures EnoughHits(buffers, a, rule, t, now) <==> EnoughHits(buffers, b, rule, t, now)
  {
    forall i | 0 <= i < |rule.conditions|
      ensures HitsIn(buffers, a, t, Cutoff(now, rule.window), rule.conditions[i])
              == HitsIn(buffers, b, t, Cutoff(now, rule.window), rule.conditions[i])
    {
      HitsInAnyOrder(buffers, a, b, t, Cutoff(now, rule.window), rule.conditions[i]);
    }
  }

  lemma TickFiresOn(rules: seq<Rule>, buffers: map<string, seq<Event>>, now: int, keyOrder: seq<string>,
                    orders: seq<seq<string>>, rule: Rule, t: string)
    requires ValidOrders(rules, buffers, now, keyOrder, orders) && rule in rules
    ensures MatchFor(TickMatches(rules, buffers, keyOrder, orders, now), rule, t)
            <==> FiresOn(buffers, keyOrder, t, rule, now)
  {
    var ms := TickMatches(rules, buffers, keyOrder, orders, now);
    if m :| m in ms && m.rule == rule && m.tenant == t {
      MatchHasTenant(rules, buffers, now, keyOrder, orders, m);
      MatchIffFires(rules, buffers, now, keyOrder, orders, rule, t);
    }
    if FiresOn(buffers, keyOrder, t, rule, now) {
      FiresHasTenant(buffers, keyOrder, rule, t, now);
      MatchIffFires(rules, buffers, now, keyOrder, orders, rule, t);
    }
  }

  // ---- runs -----------------------------------------------------------------------------------------

  /** A stored incident under the fingerprint, created by this tick or less than two windows ago. */
  ghost predicate ReportedBy(st: State, fp: string, window: int, now: int) {
    exists id: nat :: id in st.incidents && st.incidents[id].fingerprint == fp
                      && (st.incidents[id].createdAt == now || st.incidents[id].createdAt > now - 2 * window)
  }

  lemma MatchReported(rules: seq<Rule>, st: State, now: int, keyOrder: seq<string>, orders: seq<seq<string>>, m: Match)
    requires WellFormedRules(rules) && StoreInv(st) && CacheInv(st) && now >= st.trace.clock
    requires |orders| == |rules| && m in TickMatches(rules, st.buffers, keyOrder, orders, now)
    requires m.rule.window * 2 <= CACHE_RETENTION
    ensures ReportedBy(EvaluateStep(rules, st, now, keyOrder, orders), m.fp, m.rule.window, now)
  {
    var ms, begin := TickMatches(rules, st.buffers, keyOrder, orders, now), Begin(rules, st, now);
    var st' := EvaluateStep(rules, st, now, keyOrder, orders);
    TickOneWindow(rules, st.buffers, keyOrder, orders, now, m);
    CreatedIffUnsuppressed(begin, ms, now, m);
    SuppressedIffReported(st, m, now);
    if Suppressed(st.cache, m, now) {
      var id: nat :| id in st.incidents && st.incidents[id].fingerprint == m.fp
                     && st.incidents[id].createdAt > now - 2 * m.rule.window;
      EvaluateKeepsStored(rules, st, now, keyOrder, orders, id);
    } else {
      StoreMatches(begin, ms, now);
      TickStamps(begin, ms, now);
      var id: nat :| id in st'.incidents && id !in begin.incidents && st'.incidents[id].fingerprint == m.fp;
      assert SameIncident(st'.incidents[id], st'.trace.log[id]);
    }
  }

  lemma RecentKeyed(st: State)
    requires BufferInv(st)
    ensures KeyedByTenant(RecentHistory(st))
  {
    forall k, e | k in RecentHistory(st) && e in RecentHistory(st)[k] ensures TenantOfKey(k) == Some(e.tenant) {
      HistoryElements(st, k);
      KeyRoundTrip(e);
    }
  }

  /** In every run: when each condition of a rule has enough hits for a tenant among the last
      1000 arrivals of each key, the next tick leaves the rule's finding for that tenant
      reported, by this tick or less than two windows ago. */
  lemma ArrivalsReported(rules: seq<Rule>, steps: seq<Step>, now: int, keyOrder: seq<string>, orders: seq<seq<string>>,
                         rule: Rule, t: string, keys: seq<string>) returns (m: Match)
    requires WellFormedRules(rules) && ShortWindows(rules) && ColonFreeInputs(steps) && ValidRun(rules, INITIAL, steps)
    requires var st := Run(rules, INITIAL, steps);
             && Enabled(rules, st, Evaluate(now, keyOrder, orders)) && rule in rules
             && Enumerates(keys, RecentHistory(st).Keys) && EnoughHits(RecentHistory(st), keys, rule, t, now)
    ensures m.rule == rule && m.tenant == t
    ensures var st := Run(rules, INITIAL, steps);
            && m in TickMatches(rules, st.buffers, keyOrder, orders, now)
            && ReportedBy(Next(rules, st, Evaluate(now, keyOrder, orders)), m.fp, rule.window, now)
  {
    var st := Run(rules, INITIAL, steps);
    BufferRun(rules, INITIAL, steps);
    StoreRun(rules, INITIAL, steps);
    DedupRun(rules, INITIAL, steps);
    RecentKeyed(st);
    FiresIffHits(RecentHistory(st), keys, rule, t, now);
    RecentFires(rules, steps, now, keyOrder, rule, t, keys);
    FiresHasTenant(st.buffers, keyOrder, rule, t, now);
    MatchIffFires(rules, st.buffers, now, keyOrder, orders, rule, t);
    m :| m in TickMatches(rules, st.buffers, keyOrder, orders, now) && m.rule == rule && m.tenant == t;
    MatchReported(rules, st, now, keyOrder, orders, m);
  }

  lemma RecentFires(rules: seq<Rule>, steps: seq<Step>, now: int, keyOrder: seq<string>, rule: Rule, t: string,
                    keys: seq<string>)
    requires ValidRun(rules, INITIAL, steps) && ColonFreeInputs(steps)
    requires var st := Run(rules, INITIAL, steps);
             && now >= st.trace.clock && Enumerates(keyOrder, st.buffers.Keys)
             && Enumerates(keys, RecentHistory(st).Keys) && FiresOn(RecentHistory(st), keys, t, rule, now)
    ensures FiresOn(Run(rules, INITIAL, steps).buffers, keyOrder, t, rule, now)
  {
    var st := Run(rules, INITIAL, steps);
    var full := Enumerate(FullHistory(st).Keys);
    FiringRefinesHistory(rules, steps, t, rule, now, keys, keyOrder, full);
  }

  // ---- a shipped rule, in the words of its description -------------------------------------------

  /** The tenant has a buffered event newer than the cutoff that satisfies the condition. */
  ghost predicate Signal(buffers: map<string, seq<Event>>, t: string, cutoff: int, c: Condition) {
    exists k, e :: k in buffers && e in buffers[k] && e.tenant == t && e.ts > cutoff && MatchCondition(c, e)
  }

  lemma {:induction false} HitAmong(s: seq<Event>, t: string, cutoff: int, c: Condition)
    ensures HitsAmong(s, t, cutoff, c) >= 1 <==>
              exists e :: e in s && e.tenant == t && e.ts > cutoff && MatchCondition(c, e)
  {
    if |s| != 0 {
      var init, last := s[..|s| - 1], s[|s| - 1];
      HitAmong(init, t, cutoff, c);
      assert s == init + [last];
    }
  }

  lemma {:induction false} HitIn(buffers: map<string, seq<Event>>, keys: seq<string>, t: string, cutoff: int,
                                 c: Condition)
    ensures HitsIn(buffers, keys, t, cutoff, c) >= 1 <==>
              exists k :: k in keys && HitsAmong(Buffered(buffers, k), t, cutoff, c) >= 1
  {
    if |keys| != 0 {
      var init, last := keys[..|keys| - 1], keys[|keys| - 1];
      HitIn(buffers, init, t, cutoff, c);
      assert keys == init + [last];
    }
  }

  lemma SignalIff(buffers: map<string, seq<Event>>, keys: seq<string>, t: string, cutoff: int, c: Condition)
    requires Enumerates(keys, buffers.Keys)
    ensures HitsIn(buffers, keys, t, cutoff, c) >= 1 <==> Signal(buffers, t, cutoff, c)
  {
    HitIn(buffers, keys, t, cutoff, c);
    if k :| k in keys && HitsAmong(Buffered(buffers, k), t, cutoff, c) >= 1 {
      HitAmong(buffers[k], t, cutoff, c);
    }
    if k, e :| k in buffers && e in buffers[k] && e.tenant == t && e.ts > cutoff && MatchCondition(c, e) {
      HitAmong(buffers[k], t, cutoff, c);
      assert k in keys;
    }
  }

  /** A rule of two conditions that ask for one event each matches exactly on two signals. */
  lemma TwoSignals(rules: seq<Rule>, st: State, now: int, keyOrder: seq<string>, orders: seq<seq<string>>,
                   rule: Rule, t: string)
    requires BufferInv(st) && ValidOrders(rules, st.buffers, now, keyOrder, orders) && rule in rules
    requires |rule.conditions| == 2 && rule.threshold <= 1
    requires rule.conditions[0].minCount <= 1 && rule.conditions[1].minCount <= 1
    ensures MatchFor(TickMatches(rules, st.buffers, keyOrder, orders, now), rule, t) <==>
              && Signal(st.buffers, t, Cutoff(now, rule.window), rule.conditions[0])
              && Signal(st.buffers, t, Cutoff(now, rule.window), rule.conditions[1])
  {
    TickFiresIff(rules, st, now, keyOrder, orders, rule, t, keyOrder);
    SignalIff(st.buffers, keyOrder, t, Cutoff(now, rule.window), rule.conditions[0]);
    SignalIff(st.buffers, keyOrder, t, Cutoff(now, rule.window), rule.conditions[1]);
  }

  predicate NewProcess(e: Event) {
    e.source == "coresec" && e.etype == "process"
  }

  ghost predicate OutboundConnection(e: Event) {
    && e.source == "netguard" && e.etype == "network"
    && "direction" in e.rawData && exists k :: StandsAt(e.rawData["direction"], "outbound", k)
  }

  lemma LateralConditions(e: Event)
    ensures MatchCondition(LateralMovement().conditions[0], e) <==> NewProcess(e)
    ensures MatchCondition(LateralMovement().conditions[1], e) <==> OutboundConnection(e)
  {
    if e.source == "netguard" && e.etype == "network" {
      OneRawField(LateralMovement().conditions[1], e, "direction", "outbound");
    }
  }

  ghost predicate RecentProcess(st: State, t: string, since: int) {
    exists k, e :: k in st.buffers && e in st.buffers[k] && e.tenant == t && e.ts > since && NewProcess(e)
  }

  ghost predicate RecentConnection(st: State, t: string, since: int) {
    exists k, e :: k in st.buffers && e in st.buffers[k] && e.tenant == t && e.ts > since && OutboundConnection(e)
  }

  /** The lateral movement rule matches for a tenant exactly when a new process and an outbound
      connection of that tenant, on whatever agents, are both less than 30 seconds old. */
  lemma LateralMovementIff(rules: seq<Rule>, st: State, now: int, keyOrder: seq<string>, orders: seq<seq<string>>,
                           t: string)
    requires BufferInv(st) && ValidOrders(rules, st.buffers, now, keyOrder, orders) && LateralMovement() in rules
    ensures MatchFor(TickMatches(rules, st.buffers, keyOrder, orders, now), LateralMovement(), t) <==>
              RecentProcess(st, t, now - 30_000_000_000) && RecentConnection(st, t, now - 30_000_000_000)
  {
    TwoSignals(rules, st, now, keyOrder, orders, LateralMovement(), t);
    LateralSignals(st, t, now - 30_000_000_000);
  }

  lemma LateralSignals(st: State, t: string, since: int)
    ensures Signal(st.buffers, t, since, LateralMovement().conditions[0]) <==> RecentProcess(st, t, since)
    ensures Signal(st.buffers, t, since, LateralMovement().conditions[1]) <==> RecentConnection(st, t, since)
  {
    forall e
      ensures MatchCondition(LateralMovement().conditions[0], e) <==> NewProcess(e)
      ensures MatchCondition(LateralMovement().conditions[1], e) <==> OutboundConnection(e)
    {
      LateralConditions(e);
    }
  }
}
