/** When a finding is reported, in terms of what its events say: one incident per rule, tenant
    and set of (agent, type, title), two windows apart. */
module Reporting {
  import opened Sequences
  import opened Strings
  import opened Domain
  import opened Matching
  import opened Fingerprints
  import opened EngineModel
  import opened Reachable
  import opened Dedup
  import opened Justification
  import opened BufferRefinement
  import opened Firing

  /** What distinguishes events of one finding. */
  datatype Triple = Triple(agent: string, etype: string, title: string)

  function Triples(events: seq<Event>): set<Triple> {
    set e | e in events :: Triple(e.agent, e.etype, e.title)
  }

  /** Agents and types without the separators, and titles without the bar. */
  predicate CleanEvent(e: Event) {
    && ':' !in e.agent && '|' !in e.agent
    && ':' !in e.etype && '|' !in e.etype
    && '|' !in e.title
  }

  ghost predicate CleanEvents(events: seq<Event>) {
    forall e :: e in events ==> CleanEvent(e)
  }

  lemma KeyDecides(a: Event, b: Event)
    requires CleanEvent(a) && CleanEvent(b)
    ensures KeyOf(a) == KeyOf(b) <==> a.agent == b.agent && a.etype == b.etype && a.title == b.title
    ensures BarFree(KeyOf(a))
  {
    assert KeyOf(a) == a.agent + [':'] + (a.etype + [':'] + a.title);
    assert KeyOf(b) == b.agent + [':'] + (b.etype + [':'] + b.title);
    if KeyOf(a) == KeyOf(b) {
      CutUnique(a.agent, a.etype + [':'] + a.title, b.agent, b.etype + [':'] + b.title, ':');
      CutUnique(a.etype, a.title, b.etype, b.title, ':');
    }
  }

  lemma KeysWithin(a: seq<Event>, b: seq<Event>)
    requires Triples(a) <= Triples(b)
    ensures Keys(a) <= Keys(b)
  {
    KeysExactly(a);
    KeysExactly(b);
    forall k | k in Keys(a) ensures k in Keys(b) {
      var e :| e in a && KeyOf(e) == k;
      assert Triple(e.agent, e.etype, e.title) in Triples(b);
      var f :| f in b && Triple(e.agent, e.etype, e.title) == Triple(f.agent, f.etype, f.title);
      assert KeyOf(f) == k;
    }
  }

  lemma TriplesWithin(a: seq<Event>, b: seq<Event>)
    requires CleanEvents(a) && CleanEvents(b) && Keys(a) <= Keys(b)
    ensures Triples(a) <= Triples(b)
  {
    KeysExactly(a);
    KeysExactly(b);
    forall t | t in Triples(a) ensures t in Triples(b) {
      var e :| e in a && t == Triple(e.agent, e.etype, e.title);
      assert KeyOf(e) in Keys(b);
      var f :| f in b && KeyOf(f) == KeyOf(e);
      KeyDecides(e, f);
    }
  }

  lemma KeysBarFree(events: seq<Event>)
    requires CleanEvents(events)
    ensures forall k :: k in Keys(events) ==> BarFree(k)
  {
    KeysExactly(events);
    forall k | k in Keys(events) ensures BarFree(k) {
      var e :| e in events && KeyOf(e) == k;
      KeyDecides(e, e);
    }
  }

  /** The same triples give the same fingerprint, whatever the order and the multiplicity … */
  lemma TriplesSuffice(ruleId: string, tenant: string, a: seq<Event>, b: seq<Event>)
    requires Triples(a) == Triples(b)
    ensures Fingerprint(ruleId, tenant, a) == Fingerprint(ruleId, tenant, b)
  {
    KeysWithin(a, b);
    KeysWithin(b, a);
    FingerprintCanonical(ruleId, tenant, a, b);
  }

  /** … and without separators in the parts, fingerprints agree exactly when rule, tenant and
      triples do. */
  lemma FingerprintByFields(r1: string, t1: string, a: seq<Event>, r2: string, t2: string, b: seq<Event>)
    requires BarFree(r1) && BarFree(t1) && BarFree(r2) && BarFree(t2)
    requires CleanEvents(a) && CleanEvents(b)
    ensures Fingerprint(r1, t1, a) == Fingerprint(r2, t2, b) <==>
              r1 == r2 && t1 == t2 && Triples(a) == Triples(b)
  {
    KeysBarFree(a);
    KeysBarFree(b);
    FingerprintInjective(r1, t1, a, r2, t2, b);
    if Fingerprint(r1, t1, a) == Fingerprint(r2, t2, b) {
      TriplesWithin(a, b);
      TriplesWithin(b, a);
    }
    if r1 == r2 && t1 == t2 && Triples(a) == Triples(b) {
      TriplesSuffice(r1, t1, a, b);
    }
  }

  /** A colon inside the agent moves into the type: two attacks with one fingerprint. */
  lemma ColonCollides(ruleId: string, tenant: string, x: string, y: string, a: Event, b: Event)
    requires a.agent == x + ":" + y && b.agent == x && b.etype == y + ":" + a.etype && a.title == b.title
    ensures Fingerprint(ruleId, tenant, [a]) == Fingerprint(ruleId, tenant, [b])
    ensures a.agent != b.agent && a.etype != b.etype
  {
    assert KeyOf(a) == KeyOf(b);
    OneKey(a);
    OneKey(b);
    assert |a.agent| == |b.agent| + 1 + |y|;
  }

  lemma {:induction false} LeqBehind(p: string, x: string, y: string)
    requires Leq(x, y)
    ensures Leq(p + x, p + y)
  {
    if |p| == 0 {
      assert p + x == x && p + y == y;
    } else {
      assert (p + x)[1..] == p[1..] + x && (p + y)[1..] == p[1..] + y;
      LeqBehind(p[1..], x, y);
    }
  }

  lemma TwoKeys(a: Event, b: Event)
    requires KeyOf(a) != KeyOf(b) && Leq(KeyOf(a), KeyOf(b))
    ensures SortedKeys([a, b]) == [KeyOf(a), KeyOf(b)]
  {
    OneKey(a);
    assert [a, b][..1] == [a];
    assert UniqueKeys([a, b]) == [KeyOf(a)] + [KeyOf(b)];
    assert [KeyOf(a), KeyOf(b)][1..] == [KeyOf(b)];
    assert Sort([KeyOf(b)]) == [KeyOf(b)];
  }

  lemma BarKeys(x: string, y: string, a: Event)
    requires Leq(x, y) && x != y && a.title == x + ['|'] + KeyOf(a.(title := y))
    ensures var kb, kc := KeyOf(a.(title := x)), KeyOf(a.(title := y));
            kb != kc && Leq(kb, kc) && KeyOf(a) == kb + ['|'] + kc
  {
    var p := a.agent + ":" + a.etype + ":";
    LeqBehind(p, x, y);
    BehindPrefix(p, x, y, KeyOf(a.(title := y)));
  }

  lemma BehindPrefix(p: string, x: string, y: string, rest: string)
    ensures p + (x + ['|'] + rest) == (p + x) + ['|'] + rest
    ensures x != y ==> p + x != p + y
  {
    assert (p + x)[|p|..] == x && (p + y)[|p|..] == y;
  }

  /** A bar inside a title stands for a second event. */
  lemma BarCollides(ruleId: string, tenant: string, x: string, y: string, a: Event)
    requires Leq(x, y) && x != y && a.title == x + ['|'] + KeyOf(a.(title := y))
    ensures Fingerprint(ruleId, tenant, [a])
            == Fingerprint(ruleId, tenant, [a.(title := x), a.(title := y)])
  {
    var b, c := a.(title := x), a.(title := y);
    BarKeys(x, y, a);
    OneKey(a);
    TwoKeys(b, c);
    JoinTail(ruleId, tenant, [KeyOf(a)]);
    JoinTail(ruleId, tenant, [KeyOf(b), KeyOf(c)]);
    assert [KeyOf(b), KeyOf(c)][1..] == [KeyOf(c)];
  }

  // ---- runs ------------------------------------------------------------------------------------

  ghost predicate CleanInputs(steps: seq<Step>) {
    forall i :: 0 <= i < |steps| && steps[i].Ingest? ==>
      CleanEvent(steps[i].ev) && ':' !in steps[i].ev.tenant && '|' !in steps[i].ev.tenant
  }

  lemma {:induction false} IngestedClean(steps: seq<Step>)
    requires CleanInputs(steps)
    ensures forall e :: e in Ingested(steps) ==> CleanEvent(e) && BarFree(e.tenant)
    decreases |steps|
  {
    if |steps| != 0 {
      assert CleanInputs(steps[1..]) by {
        forall i | 0 <= i < |steps[1..]| && steps[1..][i].Ingest?
          ensures CleanEvent(steps[1..][i].ev) && ':' !in steps[1..][i].ev.tenant && '|' !in steps[1..][i].ev.tenant
        {
          assert steps[1..][i] == steps[i + 1];
        }
      }
      IngestedClean(steps[1..]);
    }
  }

  lemma ArrivalsClean(rules: seq<Rule>, steps: seq<Step>, n: nat)
    requires CleanInputs(steps) && n <= |steps|
    ensures forall e :: e in Run(rules, INITIAL, steps[..n]).trace.arrivals ==> CleanEvent(e) && BarFree(e.tenant)
  {
    RunArrivals(rules, INITIAL, steps[..n]);
    IngestedClean(steps[..n]);
  }

  /** An incident or match whose rule ID, tenant and events have no separators in them. */
  ghost predicate WellNamed(ruleId: string, tenant: string, events: seq<Event>) {
    BarFree(ruleId) && BarFree(tenant) && CleanEvents(events)
  }

  lemma WindowNamed(rule: Rule, tenant: string, at: int, window: seq<Event>, events: seq<Event>, arrivals: seq<Event>)
    requires BarFree(rule.id) && GenuineWindow(window, rule, tenant, at, arrivals) && ExactMatch(rule, window, events)
    requires forall e :: e in arrivals ==> CleanEvent(e) && BarFree(e.tenant)
    ensures WellNamed(rule.id, tenant, events)
  {
    forall e | e in events ensures CleanEvent(e) && BarFree(tenant) {
      assert e in window && e in multiset(window) && e in arrivals;
    }
    assert events[0] in events;
  }

  lemma RuleBarFree(rules: seq<Rule>, rule: Rule)
    requires WellFormedRules(rules) && rule in rules
    ensures BarFree(rule.id)
  {
    var i :| 0 <= i < |rules| && rules[i] == rule;
  }

  lemma StoredNamed(rules: seq<Rule>, steps: seq<Step>, id: nat)
    requires WellFormedRules(rules) && CleanInputs(steps) && ValidRun(rules, INITIAL, steps)
    requires id in Run(rules, INITIAL, steps).incidents
    ensures var inc := Run(rules, INITIAL, steps).incidents[id];
            && WellNamed(inc.ruleId, inc.tenant, inc.events)
            && inc.fingerprint == Fingerprint(inc.ruleId, inc.tenant, inc.events)
  {
    var inc := Run(rules, INITIAL, steps).incidents[id];
    var rule, n, window := IncidentsJustified(rules, steps, id);
    RuleBarFree(rules, rule);
    ArrivalsClean(rules, steps, n);
    WindowNamed(rule, inc.tenant, inc.createdAt, window, inc.events, Run(rules, INITIAL, steps[..n]).trace.arrivals);
  }

  lemma MatchNamed(rules: seq<Rule>, steps: seq<Step>, n: nat, m: Match)
    requires WellFormedRules(rules) && CleanInputs(steps) && ValidRun(rules, INITIAL, steps)
    requires n < |steps| && steps[n].Evaluate? && |steps[n].tenantOrders| == |rules|
    requires m in TickMatches(rules, Run(rules, INITIAL, steps[..n]).buffers, steps[n].keyOrder,
                              steps[n].tenantOrders, steps[n].now)
    ensures WellNamed(m.rule.id, m.tenant, m.events) && m.fp == Fingerprint(m.rule.id, m.tenant, m.events)
  {
    var task := TickWindow(rules, steps, n, m);
    var window, arrivals := WindowOf(task, steps[n].now), Run(rules, INITIAL, steps[..n]).trace.arrivals;
    MatchRuleExact(task.rule, window);
    RuleBarFree(rules, task.rule);
    ArrivalsClean(rules, steps, n);
    WindowNamed(task.rule, m.tenant, steps[n].now, window, m.events, arrivals);
  }

  /** An incident of the same rule and tenant about the same triples. */
  predicate About(inc: Incident, m: Match) {
    inc.ruleId == m.rule.id && inc.tenant == m.tenant && Triples(inc.events) == Triples(m.events)
  }

  ghost predicate AddsAbout(before: State, after: State, m: Match) {
    exists id: nat :: id in after.incidents && id !in before.incidents && About(after.incidents[id], m)
  }

  ghost predicate KnownAbout(st: State, m: Match, horizon: int) {
    exists id: nat :: id in st.incidents && About(st.incidents[id], m) && st.incidents[id].createdAt > horizon
  }

  ghost predicate FpIsAbout(st: State, m: Match) {
    forall id: nat :: id in st.incidents ==> (st.incidents[id].fingerprint == m.fp <==> About(st.incidents[id], m))
  }

  lemma FingerprintIsAbout(rules: seq<Rule>, steps: seq<Step>, m: Match)
    requires WellFormedRules(rules) && CleanInputs(steps) && ValidRun(rules, INITIAL, steps)
    requires WellNamed(m.rule.id, m.tenant, m.events) && m.fp == Fingerprint(m.rule.id, m.tenant, m.events)
    ensures FpIsAbout(Run(rules, INITIAL, steps), m)
  {
    var st := Run(rules, INITIAL, steps);
    forall id: nat | id in st.incidents
      ensures st.incidents[id].fingerprint == m.fp <==> About(st.incidents[id], m)
    {
      var inc := st.incidents[id];
      StoredNamed(rules, steps, id);
      FingerprintByFields(inc.ruleId, inc.tenant, inc.events, m.rule.id, m.tenant, m.events);
    }
  }

  /** In every run over clean names, a match leads to an incident of its rule and tenant about
      its triples exactly when no such incident is younger than two windows.  Incidents that
      differ from it in an agent, a type or a title have no say. */
  lemma ReportedIffNotKnown(rules: seq<Rule>, steps: seq<Step>, now: int, keyOrder: seq<string>,
                            orders: seq<seq<string>>, m: Match)
    requires WellFormedRules(rules) && ShortWindows(rules) && CleanInputs(steps) && ValidRun(rules, INITIAL, steps)
    requires var st := Run(rules, INITIAL, steps);
             && Enabled(rules, st, Evaluate(now, keyOrder, orders))
             && m in TickMatches(rules, st.buffers, keyOrder, orders, now)
    ensures var st := Run(rules, INITIAL, steps);
            AddsAbout(st, Next(rules, st, Evaluate(now, keyOrder, orders)), m)
            <==> !KnownAbout(st, m, now - 2 * m.rule.window)
  {
    var st, tick := Run(rules, INITIAL, steps), Evaluate(now, keyOrder, orders);
    var steps' := steps + [tick];
    assert steps'[..|steps|] == steps && steps'[|steps|] == tick;
    RunSnoc(rules, INITIAL, steps, tick);
    MatchNamed(rules, steps', |steps|, m);
    FingerprintIsAbout(rules, steps, m);
    FingerprintIsAbout(rules, steps', m);
    CreatedIffNotReported(rules, steps, now, keyOrder, orders, m);
    ByFields(st, Next(rules, st, tick), m, now - 2 * m.rule.window);
  }

  /** A stored incident of the rule and tenant, of this tick or younger than two windows. */
  ghost predicate FindingKnown(st: State, rule: Rule, t: string, now: int) {
    exists id: nat :: id in st.incidents && st.incidents[id].ruleId == rule.id && st.incidents[id].tenant == t
                      && (st.incidents[id].createdAt == now || st.incidents[id].createdAt > now - 2 * rule.window)
  }

  /** No attack goes unreported: when each condition of a rule has enough hits for a tenant among
      the last 1000 arrivals of each key, the store holds an incident of that rule for that
      tenant after the next tick. */
  lemma AttackReported(rules: seq<Rule>, steps: seq<Step>, now: int, keyOrder: seq<string>,
                       orders: seq<seq<string>>, rule: Rule, t: string, keys: seq<string>)
    requires WellFormedRules(rules) && ShortWindows(rules) && CleanInputs(steps) && ValidRun(rules, INITIAL, steps)
    requires var st := Run(rules, INITIAL, steps);
             && Enabled(rules, st, Evaluate(now, keyOrder, orders)) && rule in rules
             && Enumerates(keys, RecentHistory(st).Keys) && EnoughHits(RecentHistory(st), keys, rule, t, now)
    ensures FindingKnown(Next(rules, Run(rules, INITIAL, steps), Evaluate(now, keyOrder, orders)), rule, t, now)
  {
    var tick := Evaluate(now, keyOrder, orders);
    var steps' := steps + [tick];
    assert steps'[..|steps|] == steps && steps'[|steps|] == tick;
    RunSnoc(rules, INITIAL, steps, tick);
    var m := ArrivalsReported(rules, steps, now, keyOrder, orders, rule, t, keys);
    MatchNamed(rules, steps', |steps|, m);
    FingerprintIsAbout(rules, steps', m);
    ReportedFinding(Run(rules, INITIAL, steps'), m, now);
  }

  lemma ReportedFinding(st: State, m: Match, now: int)
    requires FpIsAbout(st, m) && ReportedBy(st, m.fp, m.rule.window, now)
    ensures FindingKnown(st, m.rule, m.tenant, now)
  {
    var id: nat :| id in st.incidents && st.incidents[id].fingerprint == m.fp
                   && (st.incidents[id].createdAt == now || st.incidents[id].createdAt > now - 2 * m.rule.window);
    assert About(st.incidents[id], m);
  }

  /** The title occurs in an incident of the rule and tenant younger than the horizon. */
  ghost predicate RecentTitle(st: State, m: Match, horizon: int, title: string) {
    exists id: nat, f :: id in st.incidents && f in st.incidents[id].events && f.title == title
                         && st.incidents[id].ruleId == m.rule.id && st.incidents[id].tenant == m.tenant
                         && st.incidents[id].createdAt > horizon
  }

  /** In particular, a match with a title that no recent incident of its rule and tenant has is
      reported, even where agents and types are the same. */
  lemma NewTitleReported(rules: seq<Rule>, steps: seq<Step>, now: int, keyOrder: seq<string>,
                         orders: seq<seq<string>>, m: Match, e: Event)
    requires WellFormedRules(rules) && ShortWindows(rules) && CleanInputs(steps) && ValidRun(rules, INITIAL, steps)
    requires var st := Run(rules, INITIAL, steps);
             && Enabled(rules, st, Evaluate(now, keyOrder, orders))
             && m in TickMatches(rules, st.buffers, keyOrder, orders, now)
             && e in m.events
             && !RecentTitle(st, m, now - 2 * m.rule.window, e.title)
    ensures var st := Run(rules, INITIAL, steps);
            AddsAbout(st, Next(rules, st, Evaluate(now, keyOrder, orders)), m)
  {
    var st := Run(rules, INITIAL, steps);
    ReportedIffNotKnown(rules, steps, now, keyOrder, orders, m);
    forall id: nat | id in st.incidents && About(st.incidents[id], m)
      ensures st.incidents[id].createdAt <= now - 2 * m.rule.window
    {
      HasTitle(st.incidents[id], m, e);
      var f :| f in st.incidents[id].events && f.title == e.title;
    }
  }

  lemma HasTitle(inc: Incident, m: Match, e: Event)
    requires About(inc, m) && e in m.events
    ensures exists f :: f in inc.events && f.title == e.title
  {
    assert Triple(e.agent, e.etype, e.title) in Triples(inc.events);
  }

  lemma ByFields(st: State, st': State, m: Match, horizon: int)
    requires FpIsAbout(st, m) && FpIsAbout(st', m)
    ensures Creates(st, st', m.fp) <==> AddsAbout(st, st', m)
    ensures RecentlyReported(st, m.fp, horizon) <==> KnownAbout(st, m, horizon)
  {
    if id: nat :| id in st'.incidents && id !in st.incidents && st'.incidents[id].fingerprint == m.fp {
      assert About(st'.incidents[id], m);
    }
    if id: nat :| id in st.incidents && st.incidents[id].fingerprint == m.fp && st.incidents[id].createdAt > horizon {
      assert About(st.incidents[id], m);
    }
  }
}
