/** What the monitor's alerts, plans and decisions mean in terms of the readings and samples
    themselves: no averages, trends or ladders, only thresholds and sums. */
module Scaling {
  import opened Sequences
  import opened Monitor

  // ---- sums and means ------------------------------------------------------------------------

  function Total(values: seq<real>): real {
    if |values| == 0 then 0.0 else values[0] + Total(values[1..])
  }

  function Cpus(s: seq<Sample>): seq<real> {
    seq(|s|, i requires 0 <= i < |s| => s[i].metrics.cpu)
  }

  function Memories(s: seq<Sample>): seq<real> {
    seq(|s|, i requires 0 <= i < |s| => s[i].metrics.memory)
  }

  lemma {:induction false} TotalConcat(a: seq<real>, b: seq<real>)
    ensures Total(a + b) == Total(a) + Total(b)
  {
    if |a| == 0 {
      assert a + b == b;
    } else {
      assert (a + b)[1..] == a[1..] + b;
      TotalConcat(a[1..], b);
    }
  }

  lemma TotalSnoc(a: seq<real>, x: real)
    ensures Total(a + [x]) == Total(a) + x
  {
    TotalConcat(a, [x]);
    assert [x][1..] == [];
  }

  lemma {:induction false} SumsAreTotals(s: seq<Sample>)
    ensures SumCpu(s) == Total(Cpus(s)) && SumMemory(s) == Total(Memories(s))
  {
    if |s| != 0 {
      var init, last := s[..|s| - 1], s[|s| - 1];
      SumsAreTotals(init);
      TotalSnoc(Cpus(init), last.metrics.cpu);
      TotalSnoc(Memories(init), last.metrics.memory);
      assert Cpus(s) == Cpus(init) + [last.metrics.cpu] && Memories(s) == Memories(init) + [last.metrics.memory];
    }
  }

  /** Joining two periods adds their sums. */
  lemma SumsAdd(a: seq<Sample>, b: seq<Sample>)
    ensures SumCpu(a + b) == SumCpu(a) + SumCpu(b) && SumMemory(a + b) == SumMemory(a) + SumMemory(b)
  {
    SumsAreTotals(a);
    SumsAreTotals(b);
    SumsAreTotals(a + b);
    assert Cpus(a + b) == Cpus(a) + Cpus(b) && Memories(a + b) == Memories(a) + Memories(b);
    TotalConcat(Cpus(a), Cpus(b));
    TotalConcat(Memories(a), Memories(b));
  }

  lemma {:induction false} TotalBetween(values: seq<real>, lo: real, hi: real)
    requires forall i :: 0 <= i < |values| ==> lo <= values[i] <= hi
    ensures lo * |values| as real <= Total(values) <= hi * |values| as real
  {
    if |values| != 0 {
      TotalBetween(values[1..], lo, hi);
      Distribute(lo, |values| - 1);
      Distribute(hi, |values| - 1);
    }
  }

  lemma Distribute(x: real, n: nat)
    ensures x * (n + 1) as real == x * n as real + x
  {
    assert (n + 1) as real == n as real + 1.0;
  }

  /** Comparing a mean is comparing the sum. */
  lemma Ratio(x: real, n: nat, c: real)
    requires n > 0
    ensures x / n as real > c <==> x > c * n as real
    ensures x / n as real < c <==> x < c * n as real
  {
    var y, m := x / n as real, n as real;
    assert x == y * m && m > 0.0;
    assert (y - c) * m == y * m - c * m;
    Sign(y - c, m);
    Sign(c - y, m);
  }

  lemma Sign(d: real, m: real)
    requires m > 0.0
    ensures d > 0.0 <==> d * m > 0.0
  {
  }

  lemma RatioBetween(values: seq<real>, lo: real, hi: real)
    requires |values| > 0 && forall i :: 0 <= i < |values| ==> lo <= values[i] <= hi
    ensures lo <= Total(values) / |values| as real <= hi
  {
    TotalBetween(values, lo, hi);
    Ratio(Total(values), |values|, lo);
    Ratio(Total(values), |values|, hi);
  }

  /** A mean lies between the smallest and the largest value. */
  lemma MeansBetween(s: seq<Sample>, lo: real, hi: real)
    requires |s| > 0
    ensures (forall i :: 0 <= i < |s| ==> lo <= s[i].metrics.cpu <= hi) ==> lo <= MeanCpu(s) <= hi
    ensures (forall i :: 0 <= i < |s| ==> lo <= s[i].metrics.memory <= hi) ==> lo <= MeanMemory(s) <= hi
  {
    SumsAreTotals(s);
    if forall i :: 0 <= i < |s| ==> lo <= s[i].metrics.cpu <= hi {
      RatioBetween(Cpus(s), lo, hi);
    }
    if forall i :: 0 <= i < |s| ==> lo <= s[i].metrics.memory <= hi {
      RatioBetween(Memories(s), lo, hi);
    }
  }

  // ---- plans -----------------------------------------------------------------------------------

  /** The samples of the last 3600 seconds. */
  function LastHour(history: seq<Sample>, now: int): seq<Sample> {
    if |history| == 0 then []
    else if now - history[0].ts < 3600 then [history[0]] + LastHour(history[1..], now)
    else LastHour(history[1..], now)
  }

  lemma {:induction false} LastHourIsRecent(history: seq<Sample>, now: int)
    ensures LastHour(history, now) == Recent(history, now)
  {
    if |history| != 0 {
      LastHourIsRecent(history[1..], now);
      var p := SampledAfter(now - HOUR);
      FilterConcat([history[0]], history[1..], p);
      FilterOne(history[0], p);
      assert history == [history[0]] + history[1..];
    }
  }

  /** Over these samples CPU rose by more than 5 per sample. */
  predicate Rising(s: seq<Sample>) {
    |s| > 0 && s[|s| - 1].metrics.cpu - s[0].metrics.cpu > 5.0 * |s| as real
  }

  predicate CpuAbove(s: seq<Sample>, c: real) {
    |s| > 0 && Total(Cpus(s)) > c * |s| as real
  }

  predicate CpuBelow(s: seq<Sample>, c: real) {
    |s| > 0 && Total(Cpus(s)) < c * |s| as real
  }

  predicate MemoryBelow(s: seq<Sample>, c: real) {
    |s| > 0 && Total(Memories(s)) < c * |s| as real
  }

  lemma Measured(s: seq<Sample>, c: real)
    requires |s| > 0
    ensures Trend(s) > 5.0 <==> Rising(s)
    ensures MeanCpu(s) > c <==> CpuAbove(s, c)
    ensures MeanCpu(s) < c <==> CpuBelow(s, c)
    ensures MeanMemory(s) < c <==> MemoryBelow(s, c)
  {
    SumsAreTotals(s);
    Ratio(SumCpu(s), |s|, c);
    Ratio(SumMemory(s), |s|, c);
    Ratio(s[|s| - 1].metrics.cpu - s[0].metrics.cpu, |s|, 5.0);
  }

  /** What a confidence of a plan to grow is: the mean's way from 70 to 100, at most 1. */
  ghost predicate GrowConfidence(s: seq<Sample>, confidence: real) {
    if CpuAbove(s, 100.0) then confidence == 1.0
    else confidence * 30.0 * |s| as real == Total(Cpus(s)) - 70.0 * |s| as real
  }

  /** And of a plan to shrink: the mean's way from 30 down to 0, at most 1. */
  ghost predicate ShrinkConfidence(s: seq<Sample>, confidence: real) {
    if CpuBelow(s, 0.0) then confidence == 1.0
    else confidence * 30.0 * |s| as real == 30.0 * |s| as real - Total(Cpus(s))
  }

  lemma MeanTimes(s: seq<Sample>)
    requires |s| > 0
    ensures MeanCpu(s) * |s| as real == Total(Cpus(s))
  {
    SumsAreTotals(s);
  }

  lemma Scaled(mean: real, from: real, n: real, sum: real)
    requires mean * n == sum
    ensures (mean - from) / 30.0 * 30.0 * n == sum - from * n
    ensures (from - mean) / 30.0 * 30.0 * n == from * n - sum
  {
    var up, down := (mean - from) / 30.0, (from - mean) / 30.0;
    assert up * 30.0 == mean - from && down * 30.0 == from - mean;
    assert (mean - from) * n == mean * n - from * n;
    assert (from - mean) * n == from * n - mean * n;
  }

  lemma Confidences(s: seq<Sample>)
    requires |s| > 0
    ensures GrowConfidence(s, MinReal(1.0, (MeanCpu(s) - 70.0) / 30.0))
    ensures ShrinkConfidence(s, MinReal(1.0, (30.0 - MeanCpu(s)) / 30.0))
  {
    MeanTimes(s);
    Measured(s, 100.0);
    Measured(s, 0.0);
    Scaled(MeanCpu(s), 70.0, |s| as real, Total(Cpus(s)));
    Scaled(MeanCpu(s), 30.0, |s| as real, Total(Cpus(s)));
  }

  predicate PlansToGrow(history: seq<Sample>, now: int) {
    var s := LastHour(history, now);
    |history| >= 10 && Rising(s) && CpuAbove(s, 70.0)
  }

  predicate PlansToShrink(history: seq<Sample>, now: int, replicas: int) {
    var s := LastHour(history, now);
    && |history| >= 10 && !(Rising(s) && CpuAbove(s, 70.0))
    && CpuBelow(s, 30.0) && MemoryBelow(s, 300.0) && replicas > 1
  }

  /** The plan for a service, in every field. */
  lemma PlanExactly(sv: Service, history: seq<Sample>, now: int)
    ensures var plan, s := PlanFor(sv, history, now), LastHour(history, now);
            && (plan.Some? <==> PlansToGrow(history, now) || PlansToShrink(history, now, sv.replicas))
            && (plan.Some? ==> plan.value.service == sv.name && plan.value.current == sv.replicas)
            && (PlansToGrow(history, now) ==>
                  plan.value.recommended == sv.replicas + 1 && GrowConfidence(s, plan.value.confidence))
            && (PlansToShrink(history, now, sv.replicas) ==>
                  plan.value.recommended == sv.replicas - 1 && ShrinkConfidence(s, plan.value.confidence))
  {
    LastHourIsRecent(history, now);
    var s := Recent(history, now);
    if Judged(history, now) {
      Measured(s, 70.0);
      Measured(s, 30.0);
      Measured(s, 300.0);
      Confidences(s);
    }
  }

  // ---- decisions ---------------------------------------------------------------------------------

  lemma ActedOn(history: seq<Sample>, now: int, replicas: int)
    ensures var s := LastHour(history, now);
            && (ShouldGrow(history, now) <==> |history| >= 10 && Rising(s) && CpuAbove(s, 91.0))
            && (ShouldShrink(history, now, replicas) <==>
                  |history| >= 10 && CpuBelow(s, 9.0) && MemoryBelow(s, 300.0) && replicas > 1)
  {
    LastHourIsRecent(history, now);
    if Recent(history, now) != [] {
      Measured(Recent(history, now), 91.0);
      Measured(Recent(history, now), 9.0);
      Measured(Recent(history, now), 300.0);
    }
  }

  /** With a consistent view, what is decided for a service from the readings and its samples:
      one replica more exactly when a reading is exhausted or, over the last hour of at least
      ten samples, CPU rose by more than 5 per sample and sums to more than 91 per sample; one
      less exactly when that is not so and use is low. */
  lemma DecisionsIff(readings: seq<Reading>, health: seq<Service>, h: map<string, seq<Sample>>, now: int,
                     lookup: string -> Lookup, sv: Service)
    requires Consistent(health, lookup) && sv in health
    ensures var d, history := Decide(AlertsIn(readings, now), Plans(health, h, now), lookup), HistoryOf(h, sv.name);
            var s := LastHour(history, now);
            var up := || SomeExhausted(readings, sv.name)
                      || (|history| >= 10 && Rising(s) && CpuAbove(s, 91.0));
            && (sv.name in d && d[sv.name] == sv.replicas + 1 <==> up)
            && (sv.name in d && d[sv.name] == sv.replicas - 1 <==>
                  && !up && |history| >= 10 && CpuBelow(s, 9.0) && MemoryBelow(s, 300.0) && sv.replicas > 1)
            && (sv.name in d ==> d[sv.name] == sv.replicas + 1 || d[sv.name] == sv.replicas - 1)
  {
    var history := HistoryOf(h, sv.name);
    DecideExactly(AlertsIn(readings, now), health, h, now, lookup);
    InTroubleIff(readings, now, sv.name);
    ActedOn(history, now, sv.replicas);
    var i :| 0 <= i < |health| && health[i] == sv;
  }

  /** A service whose CPU did not rise over the last hour is never scaled up without an
      exhausted reading. */
  lemma FallingNeverGrows(readings: seq<Reading>, health: seq<Service>, h: map<string, seq<Sample>>, now: int,
                          lookup: string -> Lookup, sv: Service)
    requires Consistent(health, lookup) && sv in health && !SomeExhausted(readings, sv.name)
    requires var s := LastHour(HistoryOf(h, sv.name), now);
             |s| > 0 ==> s[|s| - 1].metrics.cpu <= s[0].metrics.cpu
    ensures var d := Decide(AlertsIn(readings, now), Plans(health, h, now), lookup);
            sv.name in d ==> d[sv.name] == sv.replicas - 1
  {
    DecisionsIff(readings, health, h, now, lookup, sv);
  }

  // ---- alerts ---------------------------------------------------------------------------------------

  predicate Over(a: Alert, value: real, critical: real, warning: real) {
    && a.value == value
    && if value > critical then a.severity == Critical && a.threshold == critical
       else value > warning && a.severity == Warning && a.threshold == warning
  }

  /** The alert is raised by the reading. */
  predicate RaisedBy(a: Alert, r: Reading, now: int) {
    && r.metrics.Some? && a.service == r.service && a.ts == now
    && match a.metric
       case Cpu => Over(a, r.metrics.value.cpu, 90.0, 80.0)
       case Memory => Over(a, r.metrics.value.memory, 900.0, 800.0)
       case Restarts => Over(a, r.metrics.value.restarts as real, 5.0, 3.0)
  }

  lemma AlertsForIff(r: Reading, now: int, a: Alert)
    ensures a in AlertsFor(r, now) <==> RaisedBy(a, r, now)
  {
    if r.metrics.Some? {
      var m := r.metrics.value;
      GradedIff(r.service, Cpu, m.cpu, 90.0, 80.0, now, a);
      GradedIff(r.service, Memory, m.memory, 900.0, 800.0, now, a);
      GradedIff(r.service, Restarts, m.restarts as real, 5.0, 3.0, now, a);
    }
  }

  lemma GradedIff(service: string, metric: Metric, value: real, critical: real, warning: real, now: int, a: Alert)
    ensures a in Graded(service, metric, value, critical, warning, now) <==>
              a.service == service && a.metric == metric && a.ts == now && Over(a, value, critical, warning)
  {
  }

  /** Exactly the alerts that some reading raises. */
  lemma {:induction false} AlertsIff(readings: seq<Reading>, now: int, a: Alert)
    ensures a in AlertsIn(readings, now) <==> exists r :: r in readings && RaisedBy(a, r, now)
  {
    if |readings| != 0 {
      var init, last := readings[..|readings| - 1], readings[|readings| - 1];
      AlertsIff(init, now, a);
      AlertsForIff(last, now, a);
      assert readings == init + [last] && last in readings;
    }
  }
}
