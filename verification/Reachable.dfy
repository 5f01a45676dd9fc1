/** What every reachable state keeps: well-keyed buffers, an append-only incident store whose
    records only change where they may, and the conservation laws of the pipeline. */
module Reachable {
  import opened Sequences
  import opened Domain
  import opened Fingerprints
  import opened EngineModel

  // ---- buffers -----------------------------------------------------------------

  ghost predicate BufferInv(st: State) {
    && (forall k :: k in st.buffers ==> 0 < |st.buffers[k]| <= 1000)
    && (forall k, e :: k in st.buffers && e in st.buffers[k] ==> BufferKey(e) == k && e in st.trace.arrivals)
    && (forall e :: e in st.trace.arrivals ==> ColonFree(e.tenant))
  }

  lemma MatchesKeepBuffers(st: State, ms: seq<Match>, now: int)
    ensures ProcessMatches(st, ms, now).buffers == st.buffers
    ensures ProcessMatches(st, ms, now).trace.arrivals == st.trace.arrivals
    ensures ProcessMatches(st, ms, now).trace.clock == st.trace.clock
    decreases |ms|
  {
    if |ms| != 0 {
      MatchesKeepBuffers(ProcessMatch(st, ms[0], now), ms[1..], now);
    }
  }

  lemma BufferIngest(st: State, e: Event)
    requires BufferInv(st) && ColonFree(e.tenant)
    ensures BufferInv(IngestStep(st, e))
  {
    var key := BufferKey(e);
    assert forall x :: x in Pushed(Buffered(st.buffers, key), e) ==>
             x == e || (key in st.buffers && x in st.buffers[key]);
  }

  lemma PrunedParts(buffers: map<string, seq<Event>>, now: int, k: string)
    requires k in Pruned(buffers, now)
    ensures k in buffers && 0 < |Pruned(buffers, now)[k]| <= |buffers[k]|
    ensures forall e :: e in Pruned(buffers, now)[k] ==> e in buffers[k]
  {
    FilterElements(buffers[k], Fresh(now));
  }

  lemma BufferPrune(st: State, now: int)
    requires BufferInv(st)
    ensures BufferInv(PruneStep(st, now))
  {
    forall k | k in Pruned(st.buffers, now)
      ensures k in st.buffers && 0 < |Pruned(st.buffers, now)[k]| <= |st.buffers[k]|
      ensures forall e :: e in Pruned(st.buffers, now)[k] ==> e in st.buffers[k]
    {
      PrunedParts(st.buffers, now, k);
    }
  }

  lemma EvaluateKeepsBuffers(rules: seq<Rule>, st: State, now: int, keyOrder: seq<string>,
                             tenantOrders: seq<seq<string>>)
    ensures EvaluateStep(rules, st, now, keyOrder, tenantOrders).buffers == st.buffers
    ensures EvaluateStep(rules, st, now, keyOrder, tenantOrders).trace.arrivals == st.trace.arrivals
  {
    if |tenantOrders| == |rules| {
      MatchesKeepBuffers(Begin(rules, st, now), TickMatches(rules, st.buffers, keyOrder, tenantOrders, now), now);
    }
  }

  lemma BufferStep(rules: seq<Rule>, st: State, step: Step)
    requires BufferInv(st)
    requires step.Ingest? ==> ColonFree(step.ev.tenant)
    ensures BufferInv(Next(rules, st, step))
  {
    match step
    case Evaluate(now, keyOrder, tenantOrders) =>
      EvaluateKeepsBuffers(rules, st, now, keyOrder, tenantOrders);
      BufferSame(st, EvaluateStep(rules, st, now, keyOrder, tenantOrders));
    case Prune(now) => BufferPrune(st, now);
    case Ingest(e) => BufferIngest(st, e);
    case _ => BufferSame(st, Next(rules, st, step));
  }

  lemma BufferSame(st: State, st': State)
    requires BufferInv(st) && st'.buffers == st.buffers && st'.trace.arrivals == st.trace.arrivals
    ensures BufferInv(st')
  {
  }

  lemma {:induction false} BufferRun(rules: seq<Rule>, st: State, steps: seq<Step>)
    requires BufferInv(st) && ValidRun(rules, st, steps) && ColonFreeInputs(steps)
    ensures BufferInv(Run(rules, st, steps))
    decreases |steps|
  {
    if |steps| != 0 {
      BufferStep(rules, st, steps[0]);
      ColonFreeTail(steps);
      BufferRun(rules, Next(rules, st, steps[0]), steps[1..]);
    }
  }

  lemma ColonFreeTail(steps: seq<Step>)
    requires |steps| > 0 && ColonFreeInputs(steps)
    ensures ColonFreeInputs(steps[1..])
    ensures steps[0].Ingest? ==> ColonFree(steps[0].ev.tenant)
  {
  }

  lemma StepArrivals(rules: seq<Rule>, st: State, step: Step)
    ensures Next(rules, st, step).trace.arrivals == st.trace.arrivals + Arrival(step)
  {
    match step
    case Evaluate(now, keyOrder, tenantOrders) => EvaluateKeepsBuffers(rules, st, now, keyOrder, tenantOrders);
    case _ =>
  }

  lemma Reassociate<T>(a: seq<T>, b: seq<T>, c: seq<T>)
    ensures (a + b) + c == a + (b + c)
  {
  }

  lemma {:induction false} RunArrivals(rules: seq<Rule>, st: State, steps: seq<Step>)
    ensures Run(rules, st, steps).trace.arrivals == st.trace.arrivals + Ingested(steps)
    decreases |steps|
  {
    if |steps| != 0 {
      var st1 := Next(rules, st, steps[0]);
      StepArrivals(rules, st, steps[0]);
      RunArrivals(rules, st1, steps[1..]);
      Reassociate(st.trace.arrivals, Arrival(steps[0]), Ingested(steps[1..]));
    }
  }

  /** Evaluation only ever sees the tenants of arrived events, each recovered from a buffer key. */
  lemma TenantArrived(st: State, now: int, t: string) returns (e: Event)
    requires BufferInv(st) && t in Tenants(st.buffers, now)
    ensures e in st.trace.arrivals && e.tenant == t && ColonFree(t)
  {
    var k :| k in st.buffers && TenantOfKey(k) == Some(t) && Filter(st.buffers[k], Fresh(now)) != [];
    e := st.buffers[k][0];
    assert e in st.buffers[k];
    KeyRoundTrip(e);
  }

  lemma TickTenantsApart(rules: seq<Rule>, st: State, now: int, keyOrder: seq<string>, tenantOrders: seq<seq<string>>)
    requires BufferInv(st) && ApartTenants(st.trace.arrivals)
    requires ValidOrders(rules, st.buffers, now, keyOrder, tenantOrders)
    ensures TenantsApart(TasksOf(rules, st.buffers, keyOrder, tenantOrders, now))
  {
    var tasks := TasksOf(rules, st.buffers, keyOrder, tenantOrders, now);
    TasksOfMembers(rules, st.buffers, keyOrder, tenantOrders, now);
    forall i | 0 <= i < |tasks| ensures tasks[i].tenant in Tenants(st.buffers, now) {
      assert tasks[i] in tasks;
    }
    forall i, j | 0 <= i < |tasks| && 0 <= j < |tasks| ensures Apart(tasks[i].tenant, tasks[j].tenant) {
      var e := TenantArrived(st, now, tasks[i].tenant);
      var f := TenantArrived(st, now, tasks[j].tenant);
    }
  }

  lemma TickApart(rules: seq<Rule>, st: State, now: int, keyOrder: seq<string>, tenantOrders: seq<seq<string>>)
    requires WellFormedRules(rules) && BufferInv(st) && ApartTenants(st.trace.arrivals)
    requires ValidOrders(rules, st.buffers, now, keyOrder, tenantOrders)
    ensures ApartMatches(TickMatches(rules, st.buffers, keyOrder, tenantOrders, now))
  {
    TickTenantsApart(rules, st, now, keyOrder, tenantOrders);
    TasksApart(rules, st.buffers, keyOrder, tenantOrders, now);
    MatchesApart(TasksOf(rules, st.buffers, keyOrder, tenantOrders, now), now);
  }

  predicate ValidStatus(s: string) {
    s == "new" || AcceptedStatus(s)
  }

  /** A stored record still is the incident that was created, up to its mutable fields. */
  predicate SameIncident(stored: Incident, created: Incident) {
    stored.(status := created.status, theHiveId := created.theHiveId, updatedAt := created.updatedAt) == created
  }

  ghost predicate StoreInv(st: State) {
    && st.counters.created == |st.trace.log|
    && (forall id: nat :: id in st.incidents <==> id < |st.trace.log|)
    && (forall id: nat :: id in st.incidents ==>
          && SameIncident(st.incidents[id], st.trace.log[id])
          && ValidStatus(st.incidents[id].status)
          && st.trace.log[id].id == id
          && st.trace.log[id].status == "new")
  }

  lemma {:induction false} StoreMatches(st: State, ms: seq<Match>, now: int)
    requires StoreInv(st)
    ensures StoreInv(ProcessMatches(st, ms, now))
    decreases |ms|
  {
    if |ms| != 0 {
      StoreMatches(ProcessMatch(st, ms[0], now), ms[1..], now);
    }
  }

  lemma StoreWriteBack(st: State, id: nat, alertId: string, now: int)
    requires StoreInv(st)
    ensures StoreInv(WriteBackStep(st, id, alertId, now))
  {
  }

  lemma StorePatch(st: State, id: nat, status: string, now: int)
    requires StoreInv(st)
    ensures StoreInv(PatchStep(st, id, status, now))
  {
  }

  lemma StoreEvaluate(rules: seq<Rule>, st: State, now: int, keyOrder: seq<string>, tenantOrders: seq<seq<string>>)
    requires StoreInv(st)
    ensures StoreInv(EvaluateStep(rules, st, now, keyOrder, tenantOrders))
  {
    if |tenantOrders| == |rules| {
      StoreMatches(Begin(rules, st, now), TickMatches(rules, st.buffers, keyOrder, tenantOrders, now), now);
    }
  }

  lemma StoreStep(rules: seq<Rule>, st: State, step: Step)
    requires StoreInv(st)
    ensures StoreInv(Next(rules, st, step))
  {
    match step
    case Evaluate(now, keyOrder, tenantOrders) => StoreEvaluate(rules, st, now, keyOrder, tenantOrders);
    case WriteBack(id, alertId, now) => StoreWriteBack(st, id, alertId, now);
    case Patch(id, status, now) => StorePatch(st, id, status, now);
    case _ =>
  }

  lemma {:induction false} StoreRun(rules: seq<Rule>, st: State, steps: seq<Step>)
    requires StoreInv(st) && ValidRun(rules, st, steps)
    ensures StoreInv(Run(rules, st, steps))
    decreases |steps|
  {
    if |steps| != 0 {
      StoreStep(rules, st, steps[0]);
      StoreRun(rules, Next(rules, st, steps[0]), steps[1..]);
    }
  }

  // ---- conservation ----------------------------------------------------------------

  /** Every incident created is, in order, offered to the channel or still to be offered;
      what was offered was accepted or dropped; what was accepted was received, first in
      first out, or still waits. */
  ghost predicate PipelineInv(st: State) {
    && st.counters.created == |st.trace.log|
    && st.trace.log == Offered(st.trace.offers) + st.outbox
    && Outcomes(st.trace.offers, true) == st.trace.taken + st.channel
    && |st.channel| <= 512
  }

  function Offered(offers: seq<Offer>): seq<Incident> {
    if |offers| == 0 then [] else Offered(offers[..|offers| - 1]) + [offers[|offers| - 1].inc]
  }

  /** The incidents the channel accepted, or those it refused, in the order offered. */
  function Outcomes(offers: seq<Offer>, accepted: bool): seq<Incident> {
    if |offers| == 0 then []
    else
      var last := offers[|offers| - 1];
      Outcomes(offers[..|offers| - 1], accepted) + (if last.accepted == accepted then [last.inc] else [])
  }

  lemma OfferSnoc(offers: seq<Offer>, o: Offer)
    ensures Offered(offers + [o]) == Offered(offers) + [o.inc]
    ensures forall b :: Outcomes(offers + [o], b)
                        == Outcomes(offers, b) + (if o.accepted == b then [o.inc] else [])
  {
    assert (offers + [o])[..|offers|] == offers;
  }

  lemma {:induction false} OutcomesPartition(offers: seq<Offer>)
    ensures multiset(Offered(offers)) == multiset(Outcomes(offers, true)) + multiset(Outcomes(offers, false))
  {
    if |offers| != 0 {
      OutcomesPartition(offers[..|offers| - 1]);
    }
  }

  lemma {:induction false} PipelineMatches(st: State, ms: seq<Match>, now: int)
    requires PipelineInv(st)
    ensures PipelineInv(ProcessMatches(st, ms, now))
    decreases |ms|
  {
    if |ms| != 0 {
      PipelineMatches(ProcessMatch(st, ms[0], now), ms[1..], now);
    }
  }

  lemma MoveFirst<T>(a: seq<T>, b: seq<T>)
    requires b != []
    ensures a + b == (a + [b[0]]) + b[1..]
  {
  }

  lemma PipelinePublish(st: State)
    requires PipelineInv(st)
    ensures PipelineInv(PublishStep(st))
  {
    if st.outbox != [] {
      var offers := st.trace.offers;
      MoveFirst(Offered(offers), st.outbox);
      OfferSnoc(offers, Offer(st.outbox[0], |st.channel| < CHANNEL_CAPACITY));
    }
  }

  lemma PipelineTake(st: State)
    requires PipelineInv(st)
    ensures PipelineInv(TakeStep(st))
  {
    if st.channel != [] {
      MoveFirst(st.trace.taken, st.channel);
    }
  }

  lemma PipelineEvaluate(rules: seq<Rule>, st: State, now: int, keyOrder: seq<string>, tenantOrders: seq<seq<string>>)
    requires PipelineInv(st)
    ensures PipelineInv(EvaluateStep(rules, st, now, keyOrder, tenantOrders))
  {
    if |tenantOrders| == |rules| {
      PipelineMatches(Begin(rules, st, now), TickMatches(rules, st.buffers, keyOrder, tenantOrders, now), now);
    }
  }

  lemma PipelineStep(rules: seq<Rule>, st: State, step: Step)
    requires PipelineInv(st)
    ensures PipelineInv(Next(rules, st, step))
  {
    match step
    case Evaluate(now, keyOrder, tenantOrders) => PipelineEvaluate(rules, st, now, keyOrder, tenantOrders);
    case Publish => PipelinePublish(st);
    case Take => PipelineTake(st);
    case _ =>
  }

  lemma {:induction false} PipelineRun(rules: seq<Rule>, st: State, steps: seq<Step>)
    requires PipelineInv(st) && ValidRun(rules, st, steps)
    ensures PipelineInv(Run(rules, st, steps))
    decreases |steps|
  {
    if |steps| != 0 {
      PipelineStep(rules, st, steps[0]);
      PipelineRun(rules, Next(rules, st, steps[0]), steps[1..]);
    }
  }

  /** The matches of all ticks of a run. */
  function MatchTotal(rules: seq<Rule>, st: State, steps: seq<Step>): nat
    decreases |steps|
  {
    if |steps| == 0 then 0
    else StepMatches(rules, st, steps[0]) + MatchTotal(rules, Next(rules, st, steps[0]), steps[1..])
  }

  function StepMatches(rules: seq<Rule>, st: State, step: Step): nat {
    if step.Evaluate? && |step.tenantOrders| == |rules|
    then |TickMatches(rules, st.buffers, step.keyOrder, step.tenantOrders, step.now)|
    else 0
  }

  function Judged(st: State): nat {
    st.counters.created + st.counters.dedupHits
  }

  lemma {:induction false} MatchesJudged(st: State, ms: seq<Match>, now: int)
    ensures Judged(ProcessMatches(st, ms, now)) == Judged(st) + |ms|
    decreases |ms|
  {
    if |ms| != 0 {
      MatchesJudged(ProcessMatch(st, ms[0], now), ms[1..], now);
    }
  }

  lemma StepJudged(rules: seq<Rule>, st: State, step: Step)
    ensures Judged(Next(rules, st, step)) == Judged(st) + StepMatches(rules, st, step)
  {
    match step
    case Evaluate(now, keyOrder, tenantOrders) =>
      if |tenantOrders| == |rules| {
        MatchesJudged(Begin(rules, st, now), TickMatches(rules, st.buffers, keyOrder, tenantOrders, now), now);
      }
    case _ =>
  }

  /** Every match of every tick was counted once, as an incident or as a dedup hit. */
  lemma {:induction false} RunJudged(rules: seq<Rule>, st: State, steps: seq<Step>)
    ensures Judged(Run(rules, st, steps)) == Judged(st) + MatchTotal(rules, st, steps)
    decreases |steps|
  {
    if |steps| != 0 {
      StepJudged(rules, st, steps[0]);
      RunJudged(rules, Next(rules, st, steps[0]), steps[1..]);
    }
  }

  /** At tick boundaries: created = stored = waiting + received + dropped, and every match of
      every tick was counted as an incident or as a dedup hit. */
  lemma IncidentsConserved(rules: seq<Rule>, steps: seq<Step>)
    requires ValidRun(rules, INITIAL, steps) && Run(rules, INITIAL, steps).outbox == []
    ensures var st := Run(rules, INITIAL, steps);
            var dropped := Outcomes(st.trace.offers, false);
            && st.counters.created == |st.incidents|
            && st.counters.created == |st.channel| + |st.trace.taken| + |dropped|
            && st.counters.created + st.counters.dedupHits == MatchTotal(rules, INITIAL, steps)
            && multiset(st.trace.log) == multiset(st.trace.taken + st.channel) + multiset(dropped)
  {
    StoreRun(rules, INITIAL, steps);
    PipelineRun(rules, INITIAL, steps);
    RunJudged(rules, INITIAL, steps);
    var st := Run(rules, INITIAL, steps);
    NumberedKeys(st.incidents.Keys, |st.trace.log|);
    OutcomesPartition(st.trace.offers);
    assert st.trace.log == Offered(st.trace.offers);
    assert |multiset(st.trace.log)| == |st.trace.log|;
  }

  lemma {:induction false} NumberedKeys(s: set<nat>, n: nat)
    requires forall i: nat :: i in s <==> i < n
    ensures |s| == n
  {
    if n == 0 {
      assert s == {};
    } else {
      NumberedKeys(s - {n - 1}, n - 1);
      assert |s - {n - 1}| == |s| - 1;
    }
  }

  // ---- events ------------------------------------------------------------------------

  function KeyIs(key: string): Event -> bool {
    (e: Event) => BufferKey(e) == key
  }

  /** Every event ever ingested under a key, in arrival order. */
  function History(st: State, key: string): seq<Event> {
    Filter(st.trace.arrivals, KeyIs(key))
  }

  ghost predicate EventsInv(st: State) {
    && st.counters.ingested == |st.trace.arrivals|
    && forall key :: KeyConserved(st, key)
  }

  /** Per key: arrivals are still buffered, or were evicted by the cap, or were pruned. */
  ghost predicate KeyConserved(st: State, key: string) {
    |History(st, key)| == |Buffered(st.buffers, key)| + Count(st.trace.evicted, key) + Count(st.trace.pruned, key)
  }

  lemma HistoryGrows(st: State, e: Event, key: string)
    ensures History(IngestStep(st, e), key) == History(st, key) + (if BufferKey(e) == key then [e] else [])
  {
    var arrivals := st.trace.arrivals;
    assert (arrivals + [e])[..|arrivals|] == arrivals;
  }

  lemma EventsIngest(st: State, e: Event)
    requires EventsInv(st)
    ensures EventsInv(IngestStep(st, e))
  {
    forall key ensures KeyConserved(IngestStep(st, e), key) {
      assert KeyConserved(st, key);
      HistoryGrows(st, e, key);
    }
  }

  lemma EventsPrune(st: State, now: int)
    requires EventsInv(st)
    ensures EventsInv(PruneStep(st, now))
  {
    forall key ensures KeyConserved(PruneStep(st, now), key) {
      assert KeyConserved(st, key);
      var buf := Buffered(st.buffers, key);
      FilterElements(buf, Fresh(now));
      assert Buffered(Pruned(st.buffers, now), key) == Filter(buf, Fresh(now));
      assert Count(PrunedCounts(st, now), key) == Count(st.trace.pruned, key) + Lost(buf, now);
    }
  }

  lemma {:induction false} EventsMatches(st: State, ms: seq<Match>, now: int)
    requires EventsInv(st)
    ensures EventsInv(ProcessMatches(st, ms, now))
    decreases |ms|
  {
    if |ms| != 0 {
      var st1 := ProcessMatch(st, ms[0], now);
      forall key ensures KeyConserved(st1, key) {
        assert KeyConserved(st, key);
      }
      EventsMatches(st1, ms[1..], now);
    }
  }

  lemma EventsSame(st: State, st': State)
    requires EventsInv(st)
    requires st'.counters.ingested == st.counters.ingested && st'.trace.arrivals == st.trace.arrivals
    requires st'.buffers == st.buffers && st'.trace.evicted == st.trace.evicted && st'.trace.pruned == st.trace.pruned
    ensures EventsInv(st')
  {
    forall key ensures KeyConserved(st', key) {
      assert KeyConserved(st, key);
    }
  }

  lemma EventsEvaluate(rules: seq<Rule>, st: State, now: int, keyOrder: seq<string>, tenantOrders: seq<seq<string>>)
    requires EventsInv(st)
    ensures EventsInv(EvaluateStep(rules, st, now, keyOrder, tenantOrders))
  {
    if |tenantOrders| == |rules| {
      EventsSame(st, Begin(rules, st, now));
      EventsMatches(Begin(rules, st, now), TickMatches(rules, st.buffers, keyOrder, tenantOrders, now), now);
    }
  }

  lemma EventsStep(rules: seq<Rule>, st: State, step: Step)
    requires EventsInv(st)
    ensures EventsInv(Next(rules, st, step))
  {
    match step
    case Ingest(e) => EventsIngest(st, e);
    case Prune(now) => EventsPrune(st, now);
    case Evaluate(now, keyOrder, tenantOrders) => EventsEvaluate(rules, st, now, keyOrder, tenantOrders);
    case _ => EventsSame(st, Next(rules, st, step));
  }

  /** No event is lost unaccounted: this holds of every reachable state. */
  lemma {:induction false} EventsRun(rules: seq<Rule>, st: State, steps: seq<Step>)
    requires EventsInv(st) && ValidRun(rules, st, steps)
    ensures EventsInv(Run(rules, st, steps))
    decreases |steps|
  {
    if |steps| != 0 {
      EventsStep(rules, st, steps[0]);
      EventsRun(rules, Next(rules, st, steps[0]), steps[1..]);
    }
  }

  function Accounted(st: State, keys: seq<string>): nat {
    if |keys| == 0 then 0
    else
      |Buffered(st.buffers, keys[0])| + Count(st.trace.evicted, keys[0]) + Count(st.trace.pruned, keys[0])
      + Accounted(st, keys[1..])
  }

  function ArrivalsUnder(arrivals: seq<Event>, keys: seq<string>): nat {
    if |keys| == 0 then 0 else |Filter(arrivals, KeyIs(keys[0]))| + ArrivalsUnder(arrivals, keys[1..])
  }

  function KeyIsNot(key: string): Event -> bool {
    (e: Event) => BufferKey(e) != key
  }

  lemma {:induction false} FilterSplits(arrivals: seq<Event>, key: string)
    ensures |arrivals| == |Filter(arrivals, KeyIs(key))| + |Filter(arrivals, KeyIsNot(key))|
  {
    if |arrivals| != 0 {
      FilterSplits(arrivals[..|arrivals| - 1], key);
    }
  }

  lemma {:induction false} UnderSameKeys(a: seq<Event>, b: seq<Event>, keys: seq<string>)
    requires forall i :: 0 <= i < |keys| ==> Filter(a, KeyIs(keys[i])) == Filter(b, KeyIs(keys[i]))
    ensures ArrivalsUnder(a, keys) == ArrivalsUnder(b, keys)
  {
    if |keys| != 0 {
      UnderSameKeys(a, b, keys[1..]);
    }
  }

  lemma {:induction false} ArrivalsSplitByKey(arrivals: seq<Event>, keys: seq<string>)
    requires Distinct(keys)
    requires forall e :: e in arrivals ==> BufferKey(e) in keys
    ensures ArrivalsUnder(arrivals, keys) == |arrivals|
    decreases |keys|
  {
    assert |arrivals| > 0 ==> arrivals[0] in arrivals;
    if |keys| != 0 {
      var others, rest := Filter(arrivals, KeyIsNot(keys[0])), keys[1..];
      FilterSplits(arrivals, keys[0]);
      FilterElements(arrivals, KeyIsNot(keys[0]));
      forall i | 0 <= i < |rest| ensures Filter(others, KeyIs(rest[i])) == Filter(arrivals, KeyIs(rest[i])) {
        assert rest[i] == keys[i + 1] && keys[0] != keys[i + 1];
        FilterImplied(arrivals, KeyIsNot(keys[0]), KeyIs(rest[i]));
      }
      UnderSameKeys(others, arrivals, rest);
      ArrivalsSplitByKey(others, rest);
    }
  }

  lemma {:induction false} AccountedIsUnder(st: State, keys: seq<string>)
    requires EventsInv(st)
    ensures Accounted(st, keys) == ArrivalsUnder(st.trace.arrivals, keys)
  {
    if |keys| != 0 {
      assert KeyConserved(st, keys[0]);
      AccountedIsUnder(st, keys[1..]);
    }
  }

  /** EventsIngested = buffered + evicted by the cap + pruned, summed over all keys. */
  lemma EventsConserved(rules: seq<Rule>, steps: seq<Step>, keys: seq<string>)
    requires ValidRun(rules, INITIAL, steps)
    requires var arrivals := Run(rules, INITIAL, steps).trace.arrivals;
             Distinct(keys) && forall e :: e in arrivals ==> BufferKey(e) in keys
    ensures var st := Run(rules, INITIAL, steps);
            st.counters.ingested == Accounted(st, keys)
  {
    EventsRun(rules, INITIAL, steps);
    var st := Run(rules, INITIAL, steps);
    AccountedIsUnder(st, keys);
    ArrivalsSplitByKey(st.trace.arrivals, keys);
  }
}
