/** The infrastructure monitor: bounded histories, trend-based plans, and scaling decisions.
    Percentages and megabytes are real numbers; what the Docker manager answers, or that it
    raises, is a parameter. */
module Monitor {
  import opened Sequences

  const HOUR: int := 3600
  const MAX_ALERTS: nat := 1000
  const MAX_SAMPLES: nat := 1440
  const MIN_SAMPLES: nat := 10

  datatype Severity = Critical | Warning

  datatype Metric = Cpu | Memory | Restarts

  datatype Alert = Alert(severity: Severity, service: string, ts: int, metric: Metric, value: real, threshold: real)

  datatype Metrics = Metrics(cpu: real, memory: real, restarts: int)

  /** One entry of the usage dictionary; None stands for an entry that lacks a key. */
  datatype Reading = Reading(service: string, metrics: Option<Metrics>)

  datatype Sample = Sample(ts: int, metrics: Metrics)

  datatype Service = Service(name: string, replicas: int)

  datatype Plan = Plan(service: string, current: int, recommended: int, confidence: real)

  /** The health of one service: the call may raise, or return nothing. */
  datatype Lookup = Raises | Missing | Found(replicas: int)

  // ---- histories -----------------------------------------------------------------------

  /** Python's `s[-n:]` when the list is longer than n. */
  function Last<T>(s: seq<T>, n: nat): seq<T> {
    if |s| > n then s[|s| - n..] else s
  }

  predicate LastOnes<T(==)>(kept: seq<T>, all: seq<T>, bound: nat) {
    && |kept| <= |all| && kept == all[|all| - |kept|..]
    && |kept| <= bound && (|kept| == bound || |kept| == |all|)
  }

  /** Truncating early loses nothing that a later truncation would keep. */
  lemma LastOfLast<T>(a: seq<T>, b: seq<T>, n: nat)
    ensures Last(Last(a, n) + b, n) == Last(a + b, n)
  {
  }

  function HistoryOf<T>(h: map<string, seq<T>>, service: string): seq<T> {
    if service in h then h[service] else []
  }

  function CollectOne(h: map<string, seq<Sample>>, r: Reading, now: int, bound: nat): map<string, seq<Sample>> {
    var history := HistoryOf(h, r.service);
    if r.metrics.None? then h[r.service := history]
    else h[r.service := Last(history + [Sample(now, r.metrics.value)], bound)]
  }

  /** The histories after some readings, each cut to its last `bound` samples. */
  function CollectAll(h: map<string, seq<Sample>>, readings: seq<Reading>, now: int,
                      bound: nat): map<string, seq<Sample>> {
    if |readings| == 0 then h
    else CollectOne(CollectAll(h, readings[..|readings| - 1], now, bound), readings[|readings| - 1], now, bound)
  }

  function LogOne(log: map<string, seq<Sample>>, r: Reading, now: int): map<string, seq<Sample>> {
    var history := HistoryOf(log, r.service);
    if r.metrics.None? then log[r.service := history] else log[r.service := history + [Sample(now, r.metrics.value)]]
  }

  /** Every sample ever taken, service by service. */
  function LogAll(log: map<string, seq<Sample>>, readings: seq<Reading>, now: int): map<string, seq<Sample>> {
    if |readings| == 0 then log
    else LogOne(LogAll(log, readings[..|readings| - 1], now), readings[|readings| - 1], now)
  }

  ghost predicate Truncates(h: map<string, seq<Sample>>, log: map<string, seq<Sample>>) {
    && h.Keys == log.Keys
    && forall s :: s in h ==> h[s] == Last(log[s], MAX_SAMPLES)
  }

  lemma {:induction false} CollectTruncates(h: map<string, seq<Sample>>, log: map<string, seq<Sample>>,
                                            readings: seq<Reading>, now: int)
    requires Truncates(h, log)
    ensures Truncates(CollectAll(h, readings, now, MAX_SAMPLES), LogAll(log, readings, now))
  {
    if |readings| != 0 {
      var init, last := readings[..|readings| - 1], readings[|readings| - 1];
      CollectTruncates(h, log, init, now);
      if last.metrics.Some? {
        LastOfLast(HistoryOf(LogAll(log, init, now), last.service), [Sample(now, last.metrics.value)], MAX_SAMPLES);
      }
    }
  }

  /** The samples of one service among some readings. */
  function SamplesOf(readings: seq<Reading>, service: string, now: int): seq<Sample> {
    if |readings| == 0 then []
    else
      var init, last := readings[..|readings| - 1], readings[|readings| - 1];
      if last.service == service && last.metrics.Some?
      then SamplesOf(init, service, now) + [Sample(now, last.metrics.value)]
      else SamplesOf(init, service, now)
  }

  lemma {:induction false} LogHasSamples(log: map<string, seq<Sample>>, readings: seq<Reading>, service: string,
                                         now: int)
    ensures HistoryOf(LogAll(log, readings, now), service)
            == HistoryOf(log, service) + SamplesOf(readings, service, now)
  {
    if |readings| != 0 {
      LogHasSamples(log, readings[..|readings| - 1], service, now);
    }
  }

  /** One collection: what was read, and when. */
  datatype Collection = Collection(readings: seq<Reading>, now: int)

  function Histories(run: seq<Collection>): map<string, seq<Sample>> {
    if |run| == 0 then map[]
    else CollectAll(Histories(run[..|run| - 1]), Touched(run[|run| - 1].readings), run[|run| - 1].now, MAX_SAMPLES)
  }

  function Logs(run: seq<Collection>): map<string, seq<Sample>> {
    if |run| == 0 then map[]
    else LogAll(Logs(run[..|run| - 1]), Touched(run[|run| - 1].readings), run[|run| - 1].now)
  }

  /** Every sample a service ever had in a run of collections. */
  function SamplesOver(run: seq<Collection>, service: string): seq<Sample> {
    if |run| == 0 then []
    else SamplesOver(run[..|run| - 1], service)
         + SamplesOf(Touched(run[|run| - 1].readings), service, run[|run| - 1].now)
  }

  lemma {:induction false} LogsAreSamples(run: seq<Collection>, service: string)
    ensures Truncates(Histories(run), Logs(run))
    ensures HistoryOf(Logs(run), service) == SamplesOver(run, service)
  {
    if |run| != 0 {
      var init, last := run[..|run| - 1], run[|run| - 1];
      LogsAreSamples(init, service);
      LogHasSamples(Logs(init), Touched(last.readings), service, last.now);
      CollectTruncates(Histories(init), Logs(init), Touched(last.readings), last.now);
    }
  }

  /** After any run of collections, a history is the last 1440 samples of its service. */
  lemma HistoriesAreLastSamples(run: seq<Collection>, service: string)
    ensures LastOnes(HistoryOf(Histories(run), service), SamplesOver(run, service), 1440)
  {
    LogsAreSamples(run, service);
  }

  /** The readings before the first that raises. */
  function Good(readings: seq<Reading>): seq<Reading> {
    if |readings| == 0 || readings[0].metrics.None? then [] else [readings[0]] + Good(readings[1..])
  }

  /** Those, and the one that raises. */
  function Touched(readings: seq<Reading>): seq<Reading> {
    if |readings| == 0 then []
    else if readings[0].metrics.None? then [readings[0]]
    else [readings[0]] + Touched(readings[1..])
  }

  lemma {:induction false} GoodUpTo(readings: seq<Reading>, n: nat)
    requires n <= |readings|
    requires forall k :: 0 <= k < n ==> readings[k].metrics.Some?
    requires n < |readings| ==> readings[n].metrics.None?
    ensures Good(readings) == readings[..n]
    ensures Touched(readings) == if n < |readings| then readings[..n + 1] else readings
  {
    if n != 0 {
      GoodUpTo(readings[1..], n - 1);
      assert readings[..n] == [readings[0]] + readings[1..][..n - 1];
      assert n < |readings| ==> readings[..n + 1] == [readings[0]] + readings[1..][..n];
    }
  }

  // ---- alerts ----------------------------------------------------------------------------

  function Graded(service: string, metric: Metric, value: real, critical: real, warning: real, now: int): seq<Alert> {
    if value > critical then [Alert(Critical, service, now, metric, value, critical)]
    else if value > warning then [Alert(Warning, service, now, metric, value, warning)]
    else []
  }

  function AlertsFor(r: Reading, now: int): seq<Alert> {
    if r.metrics.None? then []
    else
      var m := r.metrics.value;
      Graded(r.service, Cpu, m.cpu, 90.0, 80.0, now)
      + Graded(r.service, Memory, m.memory, 900.0, 800.0, now)
      + Graded(r.service, Restarts, m.restarts as real, 5.0, 3.0, now)
  }

  function AlertsIn(readings: seq<Reading>, now: int): seq<Alert> {
    if |readings| == 0 then []
    else AlertsIn(readings[..|readings| - 1], now) + AlertsFor(readings[|readings| - 1], now)
  }

  /** The alerts of the first `n` readings. */
  function AlertsUpTo(readings: seq<Reading>, n: nat, now: int): seq<Alert>
    requires n <= |readings|
  {
    if n == 0 then [] else AlertsUpTo(readings, n - 1, now) + AlertsAt(now)(readings[n - 1])
  }

  function AlertsAt(now: int): Reading -> seq<Alert> {
    (r: Reading) => AlertsFor(r, now)
  }

  lemma {:induction false} AlertsOfPrefix(readings: seq<Reading>, n: nat, now: int)
    requires n <= |readings|
    ensures AlertsUpTo(readings, n, now) == AlertsIn(readings[..n], now)
  {
    if n != 0 {
      AlertsOfPrefix(readings, n - 1, now);
      assert readings[..n][..n - 1] == readings[..n - 1];
    }
  }

  predicate Urgent(a: Alert) {
    a.severity == Critical && (a.metric == Cpu || a.metric == Memory)
  }

  predicate Exhausted(r: Reading) {
    r.metrics.Some? && (r.metrics.value.cpu > 90.0 || r.metrics.value.memory > 900.0)
  }

  ghost predicate InTrouble(alerts: seq<Alert>, service: string) {
    exists a :: a in alerts && Urgent(a) && a.service == service
  }

  lemma TroubleConcat(a: seq<Alert>, b: seq<Alert>, service: string)
    ensures InTrouble(a + b, service) <==> InTrouble(a, service) || InTrouble(b, service)
  {
  }

  ghost predicate SomeExhausted(readings: seq<Reading>, service: string) {
    exists r :: r in readings && r.service == service && Exhausted(r)
  }

  lemma ExhaustedSnoc(readings: seq<Reading>, last: Reading, service: string)
    ensures SomeExhausted(readings + [last], service) <==>
              SomeExhausted(readings, service) || (last.service == service && Exhausted(last))
  {
    assert last in readings + [last];
  }

  /** A service has an urgent alert exactly when a reading of it exceeds a critical threshold. */
  lemma {:induction false} InTroubleIff(readings: seq<Reading>, now: int, service: string)
    ensures InTrouble(AlertsIn(readings, now), service) <==> SomeExhausted(readings, service)
  {
    if |readings| != 0 {
      var init, last := readings[..|readings| - 1], readings[|readings| - 1];
      InTroubleIff(init, now, service);
      UrgentOf(last, now, service);
      TroubleConcat(AlertsIn(init, now), AlertsFor(last, now), service);
      assert readings == init + [last];
      ExhaustedSnoc(init, last, service);
    }
  }

  lemma UrgentOf(r: Reading, now: int, service: string)
    ensures InTrouble(AlertsFor(r, now), service) <==> r.service == service && Exhausted(r)
  {
    if Exhausted(r) {
      var m := r.metrics.value;
      if m.cpu > 90.0 {
        assert Urgent(AlertsFor(r, now)[0]) && AlertsFor(r, now)[0].service == r.service;
      } else {
        var cpu := Graded(r.service, Cpu, m.cpu, 90.0, 80.0, now);
        assert Urgent(AlertsFor(r, now)[|cpu|]) && AlertsFor(r, now)[|cpu|].service == r.service;
      }
    }
  }

  // ---- plans -----------------------------------------------------------------------------

  function SumCpu(s: seq<Sample>): real {
    if |s| == 0 then 0.0 else SumCpu(s[..|s| - 1]) + s[|s| - 1].metrics.cpu
  }

  function SumMemory(s: seq<Sample>): real {
    if |s| == 0 then 0.0 else SumMemory(s[..|s| - 1]) + s[|s| - 1].metrics.memory
  }

  function MeanCpu(s: seq<Sample>): real
    requires |s| > 0
  {
    SumCpu(s) / |s| as real
  }

  function MeanMemory(s: seq<Sample>): real
    requires |s| > 0
  {
    SumMemory(s) / |s| as real
  }

  /** Called a simple linear regression; it is the last value less the first, per sample. */
  function Trend(s: seq<Sample>): real
    requires |s| > 0
  {
    if |s| > 1 then (s[|s| - 1].metrics.cpu - s[0].metrics.cpu) / |s| as real else 0.0
  }

  function SampledAfter(cutoff: int): Sample -> bool {
    (s: Sample) => s.ts > cutoff
  }

  function Recent(history: seq<Sample>, now: int): seq<Sample> {
    Filter(history, SampledAfter(now - HOUR))
  }

  function MinReal(a: real, b: real): real {
    if b < a then b else a
  }

  /** Enough samples, and some within the hour. */
  predicate Judged(history: seq<Sample>, now: int) {
    |history| >= MIN_SAMPLES && Recent(history, now) != []
  }

  function PlanFor(service: Service, history: seq<Sample>, now: int): Option<Plan> {
    if !Judged(history, now) then None
    else
      var recent := Recent(history, now);
      var cpu, r := MeanCpu(recent), service.replicas;
      if Trend(recent) > 5.0 && cpu > 70.0
      then Some(Plan(service.name, r, r + 1, MinReal(1.0, (cpu - 70.0) / 30.0)))
      else if cpu < 30.0 && MeanMemory(recent) < 300.0 && r > 1
      then Some(Plan(service.name, r, r - 1, MinReal(1.0, (30.0 - cpu) / 30.0)))
      else None
  }

  function Plans(health: seq<Service>, h: map<string, seq<Sample>>, now: int): seq<Plan> {
    if |health| == 0 then []
    else
      var init, last := health[..|health| - 1], health[|health| - 1];
      if PlanFor(last, HistoryOf(h, last.name), now).Some?
      then Plans(init, h, now) + [PlanFor(last, HistoryOf(h, last.name), now).value]
      else Plans(init, h, now)
  }

  /** What a plan has to show before it is acted on. */
  predicate ShouldGrow(history: seq<Sample>, now: int) {
    && Judged(history, now)
    && Trend(Recent(history, now)) > 5.0
    && MeanCpu(Recent(history, now)) > 91.0
  }

  predicate ShouldShrink(history: seq<Sample>, now: int, replicas: int) {
    && Judged(history, now)
    && MeanCpu(Recent(history, now)) < 9.0
    && MeanMemory(Recent(history, now)) < 300.0
    && replicas > 1
  }

  predicate Confident(p: Option<Plan>) {
    p.Some? && p.value.confidence > 0.7
  }

  /** In terms of the measurements: confidence above 0.7 means a mean above 91 or below 9. */
  lemma ConfidentPlans(service: Service, history: seq<Sample>, now: int)
    ensures Confident(PlanFor(service, history, now)) <==>
              ShouldGrow(history, now) || ShouldShrink(history, now, service.replicas)
    ensures ShouldGrow(history, now) ==>
              PlanFor(service, history, now).value.recommended == service.replicas + 1
    ensures ShouldShrink(history, now, service.replicas) ==>
              PlanFor(service, history, now).value.recommended == service.replicas - 1
    ensures PlanFor(service, history, now).Some? ==> PlanFor(service, history, now).value.service == service.name
  {
  }

  // ---- decisions ---------------------------------------------------------------------------

  function Raise(d: map<string, int>, a: Alert, lookup: string -> Lookup): map<string, int> {
    if Urgent(a) && lookup(a.service).Found? then d[a.service := lookup(a.service).replicas + 1] else d
  }

  function RaiseAll(alerts: seq<Alert>, lookup: string -> Lookup): map<string, int> {
    if |alerts| == 0 then map[]
    else Raise(RaiseAll(alerts[..|alerts| - 1], lookup), alerts[|alerts| - 1], lookup)
  }

  predicate Stops(a: Alert, lookup: string -> Lookup) {
    Urgent(a) && lookup(a.service).Raises?
  }

  /** The alerts handled before a health lookup raises. */
  function Handled(alerts: seq<Alert>, lookup: string -> Lookup): seq<Alert> {
    if |alerts| == 0 || Stops(alerts[0], lookup) then [] else [alerts[0]] + Handled(alerts[1..], lookup)
  }

  lemma {:induction false} HandledUpTo(alerts: seq<Alert>, lookup: string -> Lookup, n: nat)
    requires n <= |alerts|
    requires forall k :: 0 <= k < n ==> !Stops(alerts[k], lookup)
    requires n < |alerts| ==> Stops(alerts[n], lookup)
    ensures Handled(alerts, lookup) == alerts[..n]
  {
    if n != 0 {
      HandledUpTo(alerts[1..], lookup, n - 1);
      assert alerts[..n] == [alerts[0]] + alerts[1..][..n - 1];
    }
  }

  function ApplyPlan(d: map<string, int>, p: Plan): map<string, int> {
    if p.confidence > 0.7 && p.service !in d then d[p.service := p.recommended] else d
  }

  function ApplyPlans(d: map<string, int>, plans: seq<Plan>): map<string, int> {
    if |plans| == 0 then d else ApplyPlan(ApplyPlans(d, plans[..|plans| - 1]), plans[|plans| - 1])
  }

  /** Urgent alerts first; plans only when no lookup raised. */
  function Decide(alerts: seq<Alert>, plans: seq<Plan>, lookup: string -> Lookup): map<string, int> {
    var raised := RaiseAll(Handled(alerts, lookup), lookup);
    if |Handled(alerts, lookup)| < |alerts| then raised else ApplyPlans(raised, plans)
  }

  /** All health queries of one decision see the same replicas. */
  ghost predicate Consistent(health: seq<Service>, lookup: string -> Lookup) {
    && (forall i, j :: 0 <= i < j < |health| ==> health[i].name != health[j].name)
    && (forall sv :: sv in health ==> lookup(sv.name) == Found(sv.replicas))
    && (forall s :: (forall sv :: sv in health ==> sv.name != s) ==> lookup(s) == Missing)
  }

  /** The decision for one service, from what was measured. */
  ghost function Target(sv: Service, alerts: seq<Alert>, history: seq<Sample>, now: int): Option<int> {
    if InTrouble(alerts, sv.name) || ShouldGrow(history, now) then Some(sv.replicas + 1)
    else if ShouldShrink(history, now, sv.replicas) then Some(sv.replicas - 1)
    else None
  }

  lemma {:induction false} RaiseAllIs(alerts: seq<Alert>, lookup: string -> Lookup, s: string)
    ensures s in RaiseAll(alerts, lookup) <==> InTrouble(alerts, s) && lookup(s).Found?
    ensures s in RaiseAll(alerts, lookup) ==> RaiseAll(alerts, lookup)[s] == lookup(s).replicas + 1
  {
    if |alerts| != 0 {
      var init, last := alerts[..|alerts| - 1], alerts[|alerts| - 1];
      RaiseAllIs(init, lookup, s);
      assert alerts == init + [last];
      assert InTrouble(alerts, s) <==> InTrouble(init, s) || (Urgent(last) && last.service == s);
    }
  }

  lemma ApplySnoc(d: map<string, int>, plans: seq<Plan>, p: Plan)
    ensures ApplyPlans(d, plans + [p]) == ApplyPlan(ApplyPlans(d, plans), p)
  {
    assert (plans + [p])[..|plans|] == plans;
  }

  function Planned(d: map<string, int>, p: Option<Plan>, s: string): Option<int> {
    if s in d then Some(d[s]) else if Confident(p) then Some(p.value.recommended) else None
  }

  ghost predicate Maps(d: map<string, int>, s: string, target: Option<int>) {
    (s in d <==> target.Some?) && (s in d ==> d[s] == target.value)
  }

  ghost predicate DistinctNames(health: seq<Service>) {
    forall i, j :: 0 <= i < j < |health| ==> health[i].name != health[j].name
  }

  lemma {:induction false} PlansApplied(d: map<string, int>, health: seq<Service>, h: map<string, seq<Sample>>,
                                        now: int)
    requires DistinctNames(health)
    ensures forall i :: 0 <= i < |health| ==>
              Maps(ApplyPlans(d, Plans(health, h, now)), health[i].name,
                   Planned(d, PlanFor(health[i], HistoryOf(h, health[i].name), now), health[i].name))
    ensures forall s :: (forall i :: 0 <= i < |health| ==> health[i].name != s) ==>
              Maps(ApplyPlans(d, Plans(health, h, now)), s, Planned(d, None, s))
  {
    if |health| != 0 {
      var n := |health| - 1;
      var init, last := health[..n], health[n];
      PlansApplied(d, init, h, now);
      var before, plan := Plans(init, h, now), PlanFor(last, HistoryOf(h, last.name), now);
      ConfidentPlans(last, HistoryOf(h, last.name), now);
      if plan.Some? {
        ApplySnoc(d, before, plan.value);
      }
      forall i | 0 <= i < n
        ensures init[i].name != last.name
        ensures Maps(ApplyPlans(d, before), health[i].name,
                     Planned(d, PlanFor(health[i], HistoryOf(h, health[i].name), now), health[i].name))
      {
        assert init[i] == health[i];
      }
      assert Maps(ApplyPlans(d, before), last.name, Planned(d, None, last.name));
      forall s | forall i :: 0 <= i < |health| ==> health[i].name != s
        ensures Maps(ApplyPlans(d, before), s, Planned(d, None, s)) && s != last.name
      {
        assert health[n].name != s;
        assert forall i :: 0 <= i < n ==> init[i] == health[i];
      }
    }
  }

  /** With a consistent view, the decision for every service is the one its measurements
      call for, and no other service gets one. */
  lemma DecideExactly(alerts: seq<Alert>, health: seq<Service>, h: map<string, seq<Sample>>, now: int,
                      lookup: string -> Lookup)
    requires Consistent(health, lookup)
    ensures forall i :: 0 <= i < |health| ==>
              Maps(Decide(alerts, Plans(health, h, now), lookup), health[i].name,
                   Target(health[i], alerts, HistoryOf(h, health[i].name), now))
    ensures forall s :: s in Decide(alerts, Plans(health, h, now), lookup) ==> exists sv :: sv in health && sv.name == s
  {
    NeverStops(alerts, health, lookup);
    HandledUpTo(alerts, lookup, |alerts|);
    assert alerts[..|alerts|] == alerts;
    var raised := RaiseAll(alerts, lookup);
    PlansApplied(raised, health, h, now);
    forall i | 0 <= i < |health|
      ensures Planned(raised, PlanFor(health[i], HistoryOf(h, health[i].name), now), health[i].name)
              == Target(health[i], alerts, HistoryOf(h, health[i].name), now)
    {
      assert health[i] in health;
      RaiseAllIs(alerts, lookup, health[i].name);
      ConfidentPlans(health[i], HistoryOf(h, health[i].name), now);
    }
    forall s | s in Decide(alerts, Plans(health, h, now), lookup) ensures exists sv :: sv in health && sv.name == s {
      if forall sv :: sv in health ==> sv.name != s {
        NoOtherDecision(alerts, health, h, now, lookup, s);
      }
    }
  }

  lemma NoOtherDecision(alerts: seq<Alert>, health: seq<Service>, h: map<string, seq<Sample>>, now: int,
                        lookup: string -> Lookup, s: string)
    requires Consistent(health, lookup) && forall sv :: sv in health ==> sv.name != s
    ensures s !in Decide(alerts, Plans(health, h, now), lookup)
  {
    NeverStops(alerts, health, lookup);
    HandledUpTo(alerts, lookup, |alerts|);
    assert alerts[..|alerts|] == alerts;
    var raised := RaiseAll(alerts, lookup);
    RaiseAllIs(alerts, lookup, s);
    PlansApplied(raised, health, h, now);
    assert Maps(ApplyPlans(raised, Plans(health, h, now)), s, Planned(raised, None, s));
  }

  lemma NeverStops(alerts: seq<Alert>, health: seq<Service>, lookup: string -> Lookup)
    requires Consistent(health, lookup)
    ensures forall k :: 0 <= k < |alerts| ==> !Stops(alerts[k], lookup)
  {
    forall k | 0 <= k < |alerts| ensures !lookup(alerts[k].service).Raises? {
      if sv :| sv in health && sv.name == alerts[k].service {
      }
    }
  }

  /** Every decision is one replica up or down, never below one; going down needs low use
      and no urgent alert; going up without an urgent alert needs a mean above 91. */
  lemma DecisionsBounded(alerts: seq<Alert>, health: seq<Service>, h: map<string, seq<Sample>>, now: int,
                         lookup: string -> Lookup, sv: Service)
    requires Consistent(health, lookup) && sv in health && sv.replicas >= 0
    requires sv.name in Decide(alerts, Plans(health, h, now), lookup)
    ensures var d, history := Decide(alerts, Plans(health, h, now), lookup)[sv.name], HistoryOf(h, sv.name);
            && (d == sv.replicas + 1 || d == sv.replicas - 1)
            && d >= 1
            && (d < sv.replicas ==>
                  && !InTrouble(alerts, sv.name)
                  && Recent(history, now) != []
                  && MeanCpu(Recent(history, now)) < 9.0
                  && MeanMemory(Recent(history, now)) < 300.0
                  && sv.replicas > 1)
            && (d > sv.replicas && !InTrouble(alerts, sv.name) ==>
                  Recent(history, now) != [] && MeanCpu(Recent(history, now)) > 91.0)
  {
    DecideExactly(alerts, health, h, now, lookup);
    var i :| 0 <= i < |health| && health[i] == sv;
  }

  /** When lookups may disagree with the health snapshot: an overloaded service ends below the
      snapshot's replicas exactly when its own lookup finds so many fewer that one more is
      still below, or finds nothing while no lookup raises and its history calls for it. */
  lemma OverloadedScaledDownIff(alerts: seq<Alert>, health: seq<Service>, h: map<string, seq<Sample>>, now: int,
                                lookup: string -> Lookup, sv: Service)
    requires DistinctNames(health) && sv in health && InTrouble(alerts, sv.name)
    ensures var d, found := Decide(alerts, Plans(health, h, now), lookup), lookup(sv.name);
            (sv.name in d && d[sv.name] < sv.replicas) <==>
              || (found.Found? && found.replicas + 1 < sv.replicas && InTrouble(Handled(alerts, lookup), sv.name))
              || (found == Missing && (forall a :: a in alerts ==> !Stops(a, lookup))
                  && ShouldShrink(HistoryOf(h, sv.name), now, sv.replicas))
  {
    var n := FirstStop(alerts, lookup);
    HandledUpTo(alerts, lookup, n);
    var handled := alerts[..n];
    RaiseAllIs(handled, lookup, sv.name);
    if n == |alerts| {
      assert handled == alerts;
      assert forall a :: a in alerts ==> !Stops(a, lookup);
      PlansApplied(RaiseAll(alerts, lookup), health, h, now);
      var i :| 0 <= i < |health| && health[i] == sv;
      ConfidentPlans(sv, HistoryOf(h, sv.name), now);
      assert lookup(sv.name).Raises? ==> exists a :: a in alerts && Stops(a, lookup);
    } else {
      assert alerts[n] in alerts;
    }
  }

  lemma FirstStop(alerts: seq<Alert>, lookup: string -> Lookup) returns (n: nat)
    ensures n <= |alerts|
    ensures forall k :: 0 <= k < n ==> !Stops(alerts[k], lookup)
    ensures n < |alerts| ==> Stops(alerts[n], lookup)
  {
    n := 0;
    while n < |alerts| && !Stops(alerts[n], lookup)
      invariant n <= |alerts|
      invariant forall k :: 0 <= k < n ==> !Stops(alerts[k], lookup)
    {
      n := n + 1;
    }
  }

  datatype Call =
    | Collect(usage: Option<seq<Reading>>, now: int)
    | Detect(usage: Option<seq<Reading>>, now: int)
    | Scale(usage: Option<seq<Reading>>, health: Option<seq<Service>>, lookup: string -> Lookup, now: int)

  class InfrastructureMonitor {
    var metricHistory: map<string, seq<Sample>>
    var alertHistory: seq<Alert>
    ghost var sampleLog: map<string, seq<Sample>>   // every sample ever stored
    ghost var alertLog: seq<Alert>                  // every alert ever stored

    ghost predicate Valid()
      reads this
    {
      && Truncates(metricHistory, sampleLog)
      && alertHistory == Last(alertLog, MAX_ALERTS)
    }

    constructor ()
      ensures Valid() && sampleLog == map[] && alertLog == []
    {
      metricHistory, alertHistory, sampleLog, alertLog := map[], [], map[], [];
    }

    /** A reading that lacks a key raises: the alerts so far are returned but not stored. */
    method DetectResourceExhaustion(usage: Option<seq<Reading>>, now: int) returns (alerts: seq<Alert>)
      requires Valid()
      modifies this`alertHistory, this`alertLog
      ensures Valid()
      ensures alerts == if usage.None? then [] else AlertsIn(Good(usage.value), now)
      ensures alertLog == if usage.Some? && Good(usage.value) == usage.value then old(alertLog) + alerts
              else old(alertLog)
      ensures LastOnes(alertHistory, alertLog, 1000)
    {
      alerts := [];
      if usage.None? {
        return;
      }
      var readings, n := usage.value, 0;
      alerts, n := ScanReadings(readings, now);
      ScanStops(readings, n, now);
      if n < |readings| {
        return;
      }
      LastOfLast(alertLog, alerts, MAX_ALERTS);
      alertHistory := alertHistory + alerts;
      alertLog := alertLog + alerts;
      if |alertHistory| > MAX_ALERTS {
        alertHistory := alertHistory[|alertHistory| - MAX_ALERTS..];
      }
    }

    /** The loop body of the collector. */
    method StoreReading(r: Reading, now: int)
      modifies this`metricHistory
      ensures metricHistory == CollectOne(old(metricHistory), r, now, MAX_SAMPLES)
    {
      var service := r.service;
      if service !in metricHistory {
        metricHistory := metricHistory[service := []];
      }
      if r.metrics.None? {
        return;
      }
      metricHistory := metricHistory[service := metricHistory[service] + [Sample(now, r.metrics.value)]];
      if |metricHistory[service]| > MAX_SAMPLES {
        var history := metricHistory[service];
        metricHistory := metricHistory[service := history[|history| - MAX_SAMPLES..]];
      }
    }

    method CollectMetrics(usage: Option<seq<Reading>>, now: int)
      requires Valid()
      modifies this`metricHistory, this`sampleLog
      ensures Valid()
      ensures usage.None? ==> metricHistory == old(metricHistory) && sampleLog == old(sampleLog)
      ensures usage.Some? ==>
                && metricHistory == CollectAll(old(metricHistory), Touched(usage.value), now, MAX_SAMPLES)
                && sampleLog == LogAll(old(sampleLog), Touched(usage.value), now)
    {
      if usage.None? {
        return;
      }
      var readings := usage.value;
      CollectTruncates(metricHistory, sampleLog, Touched(readings), now);
      sampleLog := LogAll(sampleLog, Touched(readings), now);
      StoreReadings(readings, now);
    }

    /** The collector's loop, up to and including the reading that raises. */
    method StoreReadings(readings: seq<Reading>, now: int)
      modifies this`metricHistory
      ensures metricHistory == CollectAll(old(metricHistory), Touched(readings), now, MAX_SAMPLES)
    {
      for i := 0 to |readings|
        invariant forall k :: 0 <= k < i ==> readings[k].metrics.Some?
        invariant metricHistory == CollectAll(old(metricHistory), readings[..i], now, MAX_SAMPLES)
      {
        assert readings[..i + 1][..i] == readings[..i];
        StoreReading(readings[i], now);
        if readings[i].metrics.None? {
          GoodUpTo(readings, i);
          return;
        }
      }
      GoodUpTo(readings, |readings|);
      assert readings[..|readings|] == readings;
    }

    method PredictCapacityNeeds(health: Option<seq<Service>>, now: int) returns (plans: seq<Plan>)
      ensures plans == if health.None? then [] else Plans(health.value, metricHistory, now)
    {
      plans := [];
      if health.None? {
        return;
      }
      var services := health.value;
      for i := 0 to |services|
        invariant plans == Plans(services[..i], metricHistory, now)
      {
        assert services[..i + 1][..i] == services[..i];
        if services[i].name in metricHistory {
          var plan := PredictOne(services[i], metricHistory[services[i].name], now);
          if plan.Some? {
            plans := plans + [plan.value];
          }
        }
      }
      assert services[..|services|] == services;
    }

    method AutoScaleDecision(usage: Option<seq<Reading>>, health: Option<seq<Service>>, lookup: string -> Lookup,
                             now: int)
      returns (decisions: map<string, int>, ghost alerts: seq<Alert>, ghost plans: seq<Plan>)
      requires Valid()
      modifies this`alertHistory, this`alertLog
      ensures Valid()
      ensures alerts == if usage.None? then [] else AlertsIn(Good(usage.value), now)
      ensures plans == if health.None? then [] else Plans(health.value, metricHistory, now)
      ensures alertLog == if usage.Some? && Good(usage.value) == usage.value then old(alertLog) + alerts
              else old(alertLog)
      ensures decisions == Decide(alerts, plans, lookup)
    {
      var found := DetectResourceExhaustion(usage, now);
      var predicted := PredictCapacityNeeds(health, now);
      alerts, plans := found, predicted;
      decisions := Prioritize(found, predicted, lookup);
    }

    /** Any sequence of calls. */
    method Run(calls: seq<Call>)
      requires Valid()
      modifies this
      ensures Valid() && old(alertLog) <= alertLog
    {
      for i := 0 to |calls|
        invariant Valid() && old(alertLog) <= alertLog
      {
        match calls[i]
        case Collect(usage, now) => CollectMetrics(usage, now);
        case Detect(usage, now) => var alerts := DetectResourceExhaustion(usage, now);
        case Scale(usage, health, lookup, now) =>
          var decisions, alerts, plans := AutoScaleDecision(usage, health, lookup, now);
      }
    }
  }

  lemma ScanStops(readings: seq<Reading>, n: nat, now: int)
    requires n <= |readings|
    requires forall k :: 0 <= k < n ==> readings[k].metrics.Some?
    requires n < |readings| ==> readings[n].metrics.None?
    ensures AlertsUpTo(readings, n, now) == AlertsIn(Good(readings), now)
    ensures Good(readings) == readings <==> n == |readings|
  {
    AlertsOfPrefix(readings, n, now);
    GoodUpTo(readings, n);
  }

  /** The loop over the readings, which the first that raises ends. */
  method ScanReadings(readings: seq<Reading>, now: int) returns (alerts: seq<Alert>, n: nat)
    ensures n <= |readings|
    ensures forall k :: 0 <= k < n ==> readings[k].metrics.Some?
    ensures n < |readings| ==> readings[n].metrics.None?
    ensures alerts == AlertsUpTo(readings, n, now)
  {
    alerts, n := [], 0;
    while n < |readings| && readings[n].metrics.Some?
      invariant n <= |readings|
      invariant forall k :: 0 <= k < n ==> readings[k].metrics.Some?
      invariant alerts == AlertsUpTo(readings, n, now)
    {
      var more := Levels(readings[n], now);
      alerts := alerts + more;
      n := n + 1;
    }
  }

  /** The three threshold ladders of one reading. */
  method Levels(r: Reading, now: int) returns (alerts: seq<Alert>)
    requires r.metrics.Some?
    ensures alerts == AlertsAt(now)(r)
  {
    var service, m := r.service, r.metrics.value;
    alerts := [];
    if m.cpu > 90.0 {
      alerts := alerts + [Alert(Critical, service, now, Cpu, m.cpu, 90.0)];
    } else if m.cpu > 80.0 {
      alerts := alerts + [Alert(Warning, service, now, Cpu, m.cpu, 80.0)];
    }
    if m.memory > 900.0 {
      alerts := alerts + [Alert(Critical, service, now, Memory, m.memory, 900.0)];
    } else if m.memory > 800.0 {
      alerts := alerts + [Alert(Warning, service, now, Memory, m.memory, 800.0)];
    }
    if m.restarts > 5 {
      alerts := alerts + [Alert(Critical, service, now, Restarts, m.restarts as real, 5.0)];
    } else if m.restarts > 3 {
      alerts := alerts + [Alert(Warning, service, now, Restarts, m.restarts as real, 3.0)];
    }
  }

  /** The loop body of the predictor. */
  method PredictOne(service: Service, history: seq<Sample>, now: int) returns (plan: Option<Plan>)
    ensures plan == PlanFor(service, history, now)
  {
    plan := None;
    if |history| < MIN_SAMPLES {
      return;
    }
    var recent: seq<Sample> := [];
    for i := 0 to |history|
      invariant recent == Filter(history[..i], SampledAfter(now - HOUR))
    {
      assert history[..i + 1][..i] == history[..i];
      if history[i].ts > now - HOUR {
        recent := recent + [history[i]];
      }
    }
    assert history[..|history|] == history;
    if |recent| == 0 {
      return;
    }
    var cpu, memory, trend := MeanCpu(recent), MeanMemory(recent), Trend(recent);
    var recommended, confidence := service.replicas, 0.0;
    if trend > 5.0 && cpu > 70.0 {
      recommended := service.replicas + 1;
      confidence := MinReal(1.0, (cpu - 70.0) / 30.0);
    } else if cpu < 30.0 && memory < 300.0 && service.replicas > 1 {
      recommended := if service.replicas - 1 > 1 then service.replicas - 1 else 1;
      confidence := MinReal(1.0, (30.0 - cpu) / 30.0);
    }
    if recommended != service.replicas {
      plan := Some(Plan(service.name, service.replicas, recommended, confidence));
    }
  }

  /** The two loops of the decision. */
  method Prioritize(alerts: seq<Alert>, plans: seq<Plan>, lookup: string -> Lookup)
    returns (decisions: map<string, int>)
    ensures decisions == Decide(alerts, plans, lookup)
  {
    decisions := map[];
    for i := 0 to |alerts|
      invariant forall k :: 0 <= k < i ==> !Stops(alerts[k], lookup)
      invariant decisions == RaiseAll(alerts[..i], lookup)
    {
      assert alerts[..i + 1][..i] == alerts[..i];
      if alerts[i].severity == Critical && (alerts[i].metric == Cpu || alerts[i].metric == Memory) {
        var health := lookup(alerts[i].service);
        if health.Raises? {
          HandledUpTo(alerts, lookup, i);
          return;
        }
        if health.Found? {
          decisions := decisions[alerts[i].service := health.replicas + 1];
        }
      }
    }
    HandledUpTo(alerts, lookup, |alerts|);
    assert alerts[..|alerts|] == alerts;
    ghost var raised := decisions;
    for i := 0 to |plans|
      invariant decisions == ApplyPlans(raised, plans[..i])
    {
      assert plans[..i + 1][..i] == plans[..i];
      if plans[i].confidence > 0.7 && plans[i].service !in decisions {
        decisions := decisions[plans[i].service := plans[i].recommended];
      }
    }
    assert plans[..|plans|] == plans;
  }
}
