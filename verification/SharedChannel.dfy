/** Isolation covers the incidents created, not their dispatch: one tenant's burst can fill the
    channel that all tenants share, and another tenant's incident is then dropped. */
module SharedChannel {
  import opened Sequences
  import opened Domain
  import opened EngineModel
  import opened Reachable
  import opened CatchAllRule
  import opened IsolationLimits

  /** A send is refused exactly while 512 incidents wait; and no more ever do. */
  lemma RefusedIffFull(rules: seq<Rule>, steps: seq<Step>)
    requires ValidRun(rules, INITIAL, steps) && Run(rules, INITIAL, steps).outbox != []
    ensures var st := Run(rules, INITIAL, steps);
            var offers := PublishStep(st).trace.offers;
            && |offers| == |st.trace.offers| + 1
            && offers[|offers| - 1].inc == st.outbox[0]
            && (!offers[|offers| - 1].accepted <==> |st.channel| == 512)
  {
    PipelineRun(rules, INITIAL, steps);
  }

  /** Two windows of the catch-all rule, which is also longer than events are kept. */
  const GAP: int := 2 * BUFFER_WINDOW

  function EventAt(t: string, now: int): Event {
    Event("", t, "", "", "", 0, now, "", "", [], "", "", map[], "")
  }

  /** One incident: what is left over is pruned, one event arrives, and a tick reports it. */
  function Cycle(t: string, now: int): seq<Step> {
    var e := EventAt(t, now);
    [Prune(now), Ingest(e)] + [Evaluate(now, [BufferKey(e)], [[t]])] + [Publish]
  }

  /** At `now` every buffered event has expired and no dedup entry suppresses any more. */
  ghost predicate Quiet(st: State, now: int) {
    && (forall k :: k in st.buffers ==> forall e :: e in st.buffers[k] ==> !Fresh(now)(e))
    && (forall fp :: fp in st.cache ==> now - st.cache[fp] >= GAP)
    && st.outbox == [] && st.trace.clock <= now
  }

  function Reported(st: State, id: string, t: string, now: int): Incident {
    NewIncident(st.counters.created, OneMatch(id, EventAt(t, now)), now)
  }

  ghost predicate Cycled(st: State, st': State, id: string, t: string, now: int) {
    var inc, room := Reported(st, id, t, now), |st.channel| < CHANNEL_CAPACITY;
    && Quiet(st', now + GAP)
    && st'.trace.log == st.trace.log + [inc]
    && st'.trace.offers == st.trace.offers + [Offer(inc, room)]
    && st'.channel == if room then st.channel + [inc] else st.channel
  }

  lemma QuietPruned(st: State, now: int)
    requires Quiet(st, now)
    ensures Pruned(st.buffers, now) == map[]
  {
    forall k | k in st.buffers ensures Filter(st.buffers[k], Fresh(now)) == [] {
      FilterNone(st.buffers[k], Fresh(now));
    }
  }

  /** After the event arrived: the state in which the tick starts. */
  lemma CycleArrives(rules: seq<Rule>, st: State, t: string, now: int)
    requires Quiet(st, now)
    ensures var steps := [Prune(now), Ingest(EventAt(t, now))];
            var st2 := Run(rules, st, steps);
            && ValidRun(rules, st, steps)
            && st2.buffers == Alone(EventAt(t, now)) && st2.cache == st.cache && st2.outbox == []
            && st2.channel == st.channel && st2.counters.created == st.counters.created && st2.trace.clock == now
            && st2.trace.log == st.trace.log && st2.trace.offers == st.trace.offers
  {
    var e := EventAt(t, now);
    QuietPruned(st, now);
    assert [] + [Prune(now)] == [Prune(now)] && [Prune(now)] + [Ingest(e)] == [Prune(now), Ingest(e)];
    RunSnoc(rules, st, [], Prune(now));
    RunSnoc(rules, st, [Prune(now)], Ingest(e));
    assert Pushed([], e) == [e];
  }

  lemma TickReports(st: State, id: string, t: string, now: int)
    requires st.outbox == [] && forall fp :: fp in st.cache ==> now - st.cache[fp] >= GAP
    ensures var m := OneMatch(id, EventAt(t, now));
            ProcessMatches(st, [m], now) == ProcessMatch(st, m, now) && !Suppressed(st.cache, m, now)
  {
    var m := OneMatch(id, EventAt(t, now));
    assert [m][1..] == [];
    assert ProcessMatches(st, [m], now) == ProcessMatches(ProcessMatch(st, m, now), [], now);
  }

  /** After the tick: one incident waits to be offered. */
  ghost predicate Ticked(st: State, st': State, id: string, t: string, now: int) {
    && Quiet(st'.(outbox := []), now + GAP)
    && st'.outbox == [Reported(st, id, t, now)] && st'.trace.log == st.trace.log + [Reported(st, id, t, now)]
    && st'.channel == st.channel && st'.trace.offers == st.trace.offers
  }

  lemma CycleTicks(id: string, st: State, t: string, now: int)
    requires Quiet(st, now) && ColonFree(t)
    ensures var e := EventAt(t, now);
            var steps := [Prune(now), Ingest(e)] + [Evaluate(now, [BufferKey(e)], [[t]])];
            ValidRun([CatchAll(id)], st, steps) && Ticked(st, Run([CatchAll(id)], st, steps), id, t, now)
  {
    var rules, e := [CatchAll(id)], EventAt(t, now);
    var arrive, tick := [Prune(now), Ingest(e)], Evaluate(now, [BufferKey(e)], [[t]]);
    CycleArrives(rules, st, t, now);
    AloneOrders(id, e, now);
    RunSnoc(rules, st, arrive, tick);
    ArrivedTicks(id, st, Run(rules, st, arrive), t, now);
  }

  lemma ArrivedTicks(id: string, st: State, st2: State, t: string, now: int)
    requires Quiet(st, now) && ColonFree(t)
    requires st2.buffers == Alone(EventAt(t, now)) && st2.cache == st.cache && st2.outbox == []
    requires st2.channel == st.channel && st2.counters.created == st.counters.created
    requires st2.trace.log == st.trace.log && st2.trace.offers == st.trace.offers && st2.trace.clock == now
    ensures Ticked(st, EvaluateStep([CatchAll(id)], st2, now, [BufferKey(EventAt(t, now))], [[t]]), id, t, now)
  {
    AloneEvaluated(id, st2, t, now);
    ReportTicks(id, st, Begin([CatchAll(id)], st2, now), t, now);
  }

  lemma ReportTicks(id: string, st: State, b: State, t: string, now: int)
    requires b.buffers == Alone(EventAt(t, now)) && b.cache == st.cache && b.outbox == []
    requires b.channel == st.channel && b.counters.created == st.counters.created
    requires b.trace.log == st.trace.log && b.trace.offers == st.trace.offers && b.trace.clock == now
    requires forall fp :: fp in st.cache ==> now - st.cache[fp] >= GAP
    requires !Suppressed(b.cache, OneMatch(id, EventAt(t, now)), now)
    ensures Ticked(st, ProcessMatch(b, OneMatch(id, EventAt(t, now)), now), id, t, now)
  {
    MatchReported(id, b, t, now);
    QuietAgain(id, ProcessMatch(b, OneMatch(id, EventAt(t, now)), now), b.cache, t, now);
  }

  lemma MatchReported(id: string, st: State, t: string, now: int)
    requires !Suppressed(st.cache, OneMatch(id, EventAt(t, now)), now)
    ensures var m := OneMatch(id, EventAt(t, now));
            var st', inc := ProcessMatch(st, m, now), NewIncident(st.counters.created, m, now);
            && st'.buffers == st.buffers && st'.cache == st.cache[m.fp := now]
            && st'.outbox == st.outbox + [inc] && st'.trace.log == st.trace.log + [inc]
            && st'.channel == st.channel && st'.trace.offers == st.trace.offers && st'.trace.clock == st.trace.clock
  {
  }

  lemma QuietAgain(id: string, st: State, cache: map<string, int>, t: string, now: int)
    requires st.buffers == Alone(EventAt(t, now)) && st.trace.clock == now
    requires st.cache == cache[OneMatch(id, EventAt(t, now)).fp := now]
    requires forall fp :: fp in cache ==> now - cache[fp] >= GAP
    ensures Quiet(st.(outbox := []), now + GAP)
  {
  }

  lemma AloneEvaluated(id: string, st: State, t: string, now: int)
    requires st.buffers == Alone(EventAt(t, now)) && ColonFree(t)
    requires st.outbox == [] && forall fp :: fp in st.cache ==> now - st.cache[fp] >= GAP
    ensures var m := OneMatch(id, EventAt(t, now));
            && EvaluateStep([CatchAll(id)], st, now, [BufferKey(EventAt(t, now))], [[t]])
               == ProcessMatch(Begin([CatchAll(id)], st, now), m, now)
            && !Suppressed(st.cache, m, now)
  {
    AloneTick(id, EventAt(t, now), now);
    TickReports(Begin([CatchAll(id)], st, now), id, t, now);
  }

  lemma CycleRuns(id: string, st: State, t: string, now: int)
    requires Quiet(st, now) && ColonFree(t)
    ensures ValidRun([CatchAll(id)], st, Cycle(t, now))
    ensures Cycled(st, Run([CatchAll(id)], st, Cycle(t, now)), id, t, now)
  {
    var e := EventAt(t, now);
    CycleTicks(id, st, t, now);
    RunSnoc([CatchAll(id)], st, [Prune(now), Ingest(e)] + [Evaluate(now, [BufferKey(e)], [[t]])], Publish);
  }

  /** Only `t` sends events. */
  ghost predicate From(steps: seq<Step>, t: string) {
    forall e :: e in Ingested(steps) ==> e.tenant == t
  }

  lemma {:induction false} FromAppend(a: seq<Step>, b: seq<Step>, t: string)
    requires From(a, t) && From(b, t)
    ensures From(a + b, t)
    decreases |a|
  {
    if |a| == 0 {
      assert a + b == b;
    } else {
      assert (a + b)[1..] == a[1..] + b;
      assert forall e :: e in Ingested(a[1..]) ==> e in Ingested(a);
      FromAppend(a[1..], b, t);
      assert Ingested(a + b) == Arrival(a[0]) + Ingested(a[1..] + b);
      assert forall e :: e in Arrival(a[0]) ==> e in Ingested(a);
    }
  }

  lemma CycleFrom(t: string, now: int)
    ensures From(Cycle(t, now), t)
  {
    var e := EventAt(t, now);
    var tick := Evaluate(now, [BufferKey(e)], [[t]]);
    EraseCons(Publish, [], t);
    EraseCons(tick, [Publish], t);
    EraseCons(Ingest(e), [tick, Publish], t);
    EraseCons(Prune(now), [Ingest(e), tick, Publish], t);
    assert [Publish] + [] == [Publish] && [tick] + [Publish] == [tick, Publish];
    assert [Ingest(e)] + [tick, Publish] == [Ingest(e), tick, Publish];
    assert [Prune(now)] + [Ingest(e), tick, Publish] == Cycle(t, now);
  }

  /** The same steps report one incident from either state. */
  lemma OneCycle(id: string, st: State, alone: State, t: string, now: int) returns (c: seq<Step>)
    requires Quiet(st, now) && Quiet(alone, now) && ColonFree(t)
    ensures From(c, t)
    ensures ValidRun([CatchAll(id)], st, c) && Cycled(st, Run([CatchAll(id)], st, c), id, t, now)
    ensures ValidRun([CatchAll(id)], alone, c) && Cycled(alone, Run([CatchAll(id)], alone, c), id, t, now)
  {
    c := Cycle(t, now);
    CycleFrom(t, now);
    CycleRuns(id, st, t, now);
    CycleRuns(id, alone, t, now);
  }

  function Capped(n: nat): nat {
    if n < CHANNEL_CAPACITY then n else CHANNEL_CAPACITY
  }

  /** A burst fills the channel, as far as it goes. */
  lemma {:induction false} BurstFills(id: string, st: State, t: string, now: int, n: nat)
    returns (burst: seq<Step>, end: int)
    requires Quiet(st, now) && ColonFree(t) && |st.channel| <= CHANNEL_CAPACITY
    ensures From(burst, t) && ValidRun([CatchAll(id)], st, burst) && end >= now
    ensures Quiet(Run([CatchAll(id)], st, burst), end)
    ensures |Run([CatchAll(id)], st, burst).channel| == Capped(|st.channel| + n)
    decreases n
  {
    if n == 0 {
      burst, end := [], now;
    } else {
      var rules := [CatchAll(id)];
      var c := OneCycle(id, st, st, t, now);
      var rest;
      rest, end := BurstFills(id, Run(rules, st, c), t, now + GAP, n - 1);
      burst := c + rest;
      FromAppend(c, rest, t);
      RunAppend(rules, st, c, rest);
    }
  }

  /** The outcome of the last incident offered. */
  ghost predicate LastOffer(st: State, t: string, accepted: bool) {
    var n := |st.trace.offers|;
    n > 0 && st.trace.offers[n - 1].inc.tenant == t && st.trace.offers[n - 1].accepted == accepted
  }

  /** After a burst of another tenant, a tenant's incident is created but dropped; the same
      steps without the burst have it accepted. */
  lemma BurstDropsAnother(id: string, t: string, u: string) returns (burst: seq<Step>, last: seq<Step>)
    requires ColonFree(t) && ColonFree(u)
    ensures From(burst, u) && From(last, t)
    ensures ValidRun([CatchAll(id)], INITIAL, burst + last)
    ensures LastOffer(Run([CatchAll(id)], INITIAL, burst + last), t, false)
    ensures ValidRun([CatchAll(id)], INITIAL, last)
    ensures LastOffer(Run([CatchAll(id)], INITIAL, last), t, true)
  {
    var rules := [CatchAll(id)];
    var end;
    burst, end := BurstFills(id, INITIAL, u, 0, CHANNEL_CAPACITY);
    last := OneCycle(id, Run(rules, INITIAL, burst), INITIAL, t, end);
    RunAppend(rules, INITIAL, burst, last);
  }
}
