/** The batching loop between NATS and ClickHouse.  The subscription's callback and the
    `select` loop meet only in a bounded channel; each method below is one of their atomic
    actions, and a schedule of actions is one interleaving of the two goroutines. */
module Bridge {
  import opened Sequences
  import opened Strings

  datatype ProcessEvent = ProcessEvent(
    tenant: string,
    time: string,
    activityId: bv8,
    process: string,
    actor: string,
    metadata: string)

  /** A message; the payload is None when it is not valid JSON. */
  datatype Message = Message(subject: string, payload: Option<ProcessEvent>)

  datatype Reason = Full | Timer | Shutdown

  datatype Flush = Flush(why: Reason, batch: seq<ProcessEvent>)

  /** Where the loop stands.  A failed flush ends the process. */
  datatype Mode = Selecting | Flushing(why: Reason) | Stopped | Failed

  // ---- configuration -----------------------------------------------------------------

  datatype Setting = Unset | NotANumber | Value(n: int)

  method GetenvInt(setting: Setting, fallback: int) returns (n: int)
    ensures fallback > 0 ==> n > 0
    ensures n == fallback || setting == Value(n)
    ensures n == fallback <==> !setting.Value? || setting.n <= 0 || setting.n == fallback
  {
    if setting == Unset {
      return fallback;
    }
    if setting == NotANumber || setting.n <= 0 {
      return fallback;
    }
    n := setting.n;
  }

  // ---- the tenant of a message ----------------------------------------------------------

  /** `strings.SplitN(s, c, n)` for positive `n`. */
  function SplitN(s: string, c: char, n: nat): seq<string>
    requires n > 0
    decreases n
  {
    var i := IndexOf(s, c);
    if n == 1 || i == |s| then [s] else [s[..i]] + SplitN(s[i + 1..], c, n - 1)
  }

  function TenantOf(subject: string): string {
    var parts := SplitN(subject, '.', 3);
    if |parts| >= 2 && parts[1] != "" then parts[1] else "default"
  }

  lemma SplitNCut(a: string, c: char, rest: string, n: nat)
    requires c !in a && n > 1
    ensures SplitN(a + [c] + rest, c, n) == [a] + SplitN(rest, c, n - 1)
  {
    var s := a + [c] + rest;
    IndexOfFirst(a, c, rest);
    assert s[..|a|] == a && s[|a| + 1..] == rest;
  }

  /** The tenant is the subject's second token, or "default" when there is none. */
  lemma TenantIsSecondToken(subject: string)
    ensures var tokens := Split(subject, '.');
            TenantOf(subject) == if |tokens| >= 2 && tokens[1] != "" then tokens[1] else "default"
  {
    var i := IndexOf(subject, '.');
    if i < |subject| {
      var rest := subject[i + 1..];
      var inner := Split(rest, '.');
      assert Split(subject, '.') == [subject[..i]] + inner;
      assert SplitN(subject, '.', 3) == [subject[..i]] + SplitN(rest, '.', 2);
      assert SplitN(rest, '.', 2)[0] == inner[0] by {
        assert rest[..|rest|] == rest;
      }
    }
  }

  lemma SecondTokenOf(prefix: string, rest: string)
    requires '.' !in prefix
    ensures TenantOf(prefix + ['.'] + rest) == if SplitN(rest, '.', 2)[0] != "" then SplitN(rest, '.', 2)[0]
            else "default"
  {
    SplitNCut(prefix, '.', rest, 3);
  }

  /** A tenant reads back from its own subject exactly when it is a single nonempty token. */
  lemma TenantReadsBack(prefix: string, tenant: string, suffix: string)
    requires '.' !in prefix
    ensures TenantOf(prefix + ['.'] + (tenant + ['.'] + suffix)) == tenant <==> '.' !in tenant && tenant != ""
  {
    var rest := tenant + ['.'] + suffix;
    SecondTokenOf(prefix, rest);
    if '.' !in tenant {
      SplitNCut(tenant, '.', suffix, 2);
    } else {
      TenantIsSecondToken(prefix + ['.'] + rest);
      assert '.' !in TenantOf(prefix + ['.'] + rest);
    }
  }

  /** The subject configured by default makes every event belong to the tenant "proc". */
  lemma DefaultSubjectTenant()
    ensures TenantOf("kubric.proc.events") == "proc"
  {
    var prefix, tenant, suffix := "kubric", "proc", "events";
    DefaultSubjectTokens();
    TenantReadsBack(prefix, tenant, suffix);
  }

  lemma DefaultSubjectTokens()
    ensures '.' !in "kubric" && '.' !in "proc"
    ensures "kubric.proc.events" == "kubric" + ['.'] + ("proc" + ['.'] + "events")
  {
  }

  function Decoded(messages: seq<Message>): seq<ProcessEvent> {
    if |messages| == 0 then []
    else
      var init, last := messages[..|messages| - 1], messages[|messages| - 1];
      if last.payload.Some?
      then Decoded(init) + [last.payload.value.(tenant := TenantOf(last.subject))]
      else Decoded(init)
  }

  lemma DecodedSnoc(messages: seq<Message>, m: Message)
    ensures Decoded(messages + [m])
            == if m.payload.Some? then Decoded(messages) + [m.payload.value.(tenant := TenantOf(m.subject))]
               else Decoded(messages)
  {
    assert (messages + [m])[..|messages|] == messages;
  }

  function Undecodable(messages: seq<Message>): nat {
    if |messages| == 0 then 0
    else Undecodable(messages[..|messages| - 1]) + if messages[|messages| - 1].payload.None? then 1 else 0
  }

  /** Everything flushed, in order. */
  function Stored(flushes: seq<Flush>): seq<ProcessEvent> {
    if |flushes| == 0 then []
    else Stored(flushes[..|flushes| - 1]) + flushes[|flushes| - 1].batch
  }

  lemma StoredSnoc(flushes: seq<Flush>, f: Flush)
    ensures Stored(flushes + [f]) == Stored(flushes) + f.batch
  {
    assert (flushes + [f])[..|flushes|] == flushes;
  }

  // ---- the channel's verdicts --------------------------------------------------------------

  /** A non-blocking send: a full channel refuses the event. */
  datatype Offer = Offer(ev: ProcessEvent, accepted: bool)

  function Offered(offers: seq<Offer>): seq<ProcessEvent> {
    if |offers| == 0 then [] else Offered(offers[..|offers| - 1]) + [offers[|offers| - 1].ev]
  }

  /** The events whose offer had this outcome, in order. */
  function With(offers: seq<Offer>, outcome: bool): seq<ProcessEvent> {
    if |offers| == 0 then []
    else
      var init, last := offers[..|offers| - 1], offers[|offers| - 1];
      if last.accepted == outcome then With(init, outcome) + [last.ev] else With(init, outcome)
  }

  lemma OffersSnoc(offers: seq<Offer>, o: Offer)
    ensures Offered(offers + [o]) == Offered(offers) + [o.ev]
    ensures With(offers + [o], o.accepted) == With(offers, o.accepted) + [o.ev]
    ensures With(offers + [o], !o.accepted) == With(offers, !o.accepted)
  {
    assert (offers + [o])[..|offers|] == offers;
  }

  lemma {:induction false} OffersCount(offers: seq<Offer>)
    ensures |Offered(offers)| == |offers| == |With(offers, true)| + |With(offers, false)|
  {
    if |offers| != 0 {
      OffersCount(offers[..|offers| - 1]);
    }
  }

  lemma {:induction false} DecodedCount(messages: seq<Message>)
    ensures |messages| == |Decoded(messages)| + Undecodable(messages)
  {
    if |messages| != 0 {
      DecodedCount(messages[..|messages| - 1]);
    }
  }

  datatype Action =
    | Deliver(m: Message)
    | Receive
    | Tick
    | Cancel
    | FlushDone(ok: bool)

  /** The payload never carries a tenant; the subject does. */
  method WithTenant(payload: ProcessEvent, subject: string) returns (event: ProcessEvent)
    ensures event == payload.(tenant := TenantOf(subject))
  {
    event := payload.(tenant := "");
    var parts := SplitN(subject, '.', 3);
    if |parts| >= 2 {
      event := event.(tenant := parts[1]);
    }
    if event.tenant == "" {
      event := event.(tenant := "default");
    }
  }

  class Bridge {
    const batchSize: nat
    var mode: Mode
    var events: seq<ProcessEvent>    // the channel
    var buffer: seq<ProcessEvent>
    ghost var received: seq<Message>
    ghost var offers: seq<Offer>
    ghost var flushes: seq<Flush>

    ghost predicate Valid()
      reads this
    {
      && batchSize > 0
      && |events| <= 2 * batchSize
      && Decoded(received) == Offered(offers)
      && Stored(flushes) + buffer + events == With(offers, true)
      && WellSized(flushes, batchSize)
      && (mode == Selecting ==> |buffer| < batchSize)
      && (mode == Failed ==> 1 <= |buffer| <= batchSize)
      && (mode == Stopped ==> buffer == [])
      && (mode.Flushing? ==> Admissible(Flush(mode.why, buffer), batchSize))
    }

    constructor (setting: Setting)
      ensures Valid() && mode == Selecting && received == [] && flushes == []
      ensures batchSize == if setting.Value? && setting.n > 0 then setting.n else 10000
    {
      var size := GetenvInt(setting, 10000);
      batchSize := size;
      mode, events, buffer := Selecting, [], [];
      received, offers, flushes := [], [], [];
    }

    /** The subscription's callback; it runs whatever the loop is doing. */
    method OnMessage(m: Message)
      requires Valid()
      modifies this`events, this`received, this`offers
      ensures Valid() && received == old(received) + [m]
      ensures m.payload.None? ==> events == old(events) && offers == old(offers)
      ensures m.payload.Some? ==>
                var ev := m.payload.value.(tenant := TenantOf(m.subject));
                var room := |old(events)| < 2 * batchSize;
                && events == (if room then old(events) + [ev] else old(events))
                && offers == old(offers) + [Offer(ev, room)]
    {
      DecodedSnoc(received, m);
      received := received + [m];
      if m.payload.None? {
        return;
      }
      var event := WithTenant(m.payload.value, m.subject);
      var room := |events| < batchSize * 2;
      if room {
        events := events + [event];
      }
      OffersSnoc(offers, Offer(event, room));
      offers := offers + [Offer(event, room)];
    }

    /** The receive case. */
    method OnReceive()
      requires Valid() && mode == Selecting
      modifies this`events, this`buffer, this`mode
      ensures Valid()
      ensures buffer + events == old(buffer) + old(events)
      ensures |events| == if |old(events)| == 0 then 0 else |old(events)| - 1
      ensures mode == if |buffer| == batchSize then Flushing(Full) else Selecting
    {
      if |events| == 0 {
        return;
      }
      assert buffer + events == buffer + [events[0]] + events[1..];
      buffer := buffer + [events[0]];
      events := events[1..];
      if |buffer| >= batchSize {
        mode := Flushing(Full);
      }
    }

    /** The ticker case. */
    method OnTick()
      requires Valid() && mode == Selecting
      modifies this`mode
      ensures Valid()
      ensures mode == if buffer == [] then Selecting else Flushing(Timer)
    {
      if |buffer| == 0 {
        return;
      }
      mode := Flushing(Timer);
    }

    /** The cancellation case. */
    method OnCancel()
      requires Valid() && mode == Selecting
      modifies this`mode
      ensures Valid()
      ensures mode == if buffer == [] then Stopped else Flushing(Shutdown)
    {
      if |buffer| > 0 {
        mode := Flushing(Shutdown);
      } else {
        mode := Stopped;
      }
    }

    /** The return of `flushBatch`: all rows were stored, or the process exits. */
    method OnFlushDone(ok: bool)
      requires Valid() && mode.Flushing?
      modifies this`mode, this`buffer, this`flushes
      ensures Valid()
      ensures !ok ==> mode == Failed && buffer == old(buffer) && flushes == old(flushes)
      ensures ok ==>
                && mode == (if old(mode.why) == Shutdown then Stopped else Selecting)
                && buffer == [] && flushes == old(flushes) + [Flush(old(mode.why), old(buffer))]
    {
      if !ok {
        mode := Failed;
        return;
      }
      ghost var f := Flush(mode.why, buffer);
      StoredSnoc(flushes, f);
      WellSizedSnoc(flushes, f, batchSize);
      assert Stored(flushes + [f]) + [] + events == Stored(flushes) + buffer + events;
      flushes := flushes + [f];
      buffer := [];
      mode := if mode.why == Shutdown then Stopped else Selecting;
    }

    /** An action that the loop is not waiting for does not happen. */
    method Perform(action: Action)
      requires Valid()
      modifies this
      ensures Valid()
      ensures old(received) <= received && old(offers) <= offers && old(flushes) <= flushes
      ensures old(mode).Stopped? || old(mode).Failed? ==> mode == old(mode)
    {
      match action
      case Deliver(m) => OnMessage(m);
      case Receive => if mode == Selecting { OnReceive(); }
      case Tick => if mode == Selecting { OnTick(); }
      case Cancel => if mode == Selecting { OnCancel(); }
      case FlushDone(ok) => if mode.Flushing? { OnFlushDone(ok); }
    }

    /** Any interleaving of the callback and the loop. */
    method Run(schedule: seq<Action>)
      requires Valid()
      modifies this
      ensures Valid()
      ensures old(received) <= received && old(offers) <= offers && old(flushes) <= flushes
    {
      for i := 0 to |schedule|
        invariant Valid()
        invariant old(received) <= received && old(offers) <= offers && old(flushes) <= flushes
      {
        Perform(schedule[i]);
      }
    }

    /** While nothing arrives and every flush succeeds, the loop stores everything. */
    method Drain()
      requires Valid() && mode == Selecting
      modifies this`events, this`buffer, this`mode, this`flushes
      ensures Valid() && mode == Selecting && old(flushes) <= flushes
      ensures Stored(flushes) == With(offers, true)
    {
      while |events| > 0
        invariant Valid() && mode == Selecting && old(flushes) <= flushes
      {
        OnReceive();
        if mode.Flushing? {
          OnFlushDone(true);
        }
      }
      OnTick();
      if mode.Flushing? {
        OnFlushDone(true);
      }
    }

    /** Received, accepted, dropped and undecodable messages add up. */
    lemma Conserved()
      requires Valid()
      ensures |received| == |With(offers, true)| + |With(offers, false)| + Undecodable(received)
    {
      DecodedCount(received);
      OffersCount(offers);
    }

    /** A clean shutdown loses exactly what is still in the channel; a failed flush loses
        the batch in hand as well. */
    lemma LossAtTheEnd()
      requires Valid()
      ensures mode == Stopped ==> Stored(flushes) + events == With(offers, true)
      ensures mode == Failed ==> Stored(flushes) + buffer + events == With(offers, true) && 1 <= |buffer| <= batchSize
      ensures mode == Stopped ==> (Stored(flushes) == With(offers, true) <==> events == [])
    {
      if mode == Stopped {
        assert Stored(flushes) + [] == Stored(flushes);
      }
    }
  }

  predicate Admissible(f: Flush, batchSize: nat) {
    && 1 <= |f.batch| <= batchSize
    && (f.why == Full <==> |f.batch| == batchSize)
  }

  /** Only a full buffer is flushed without a tick or a shutdown, and no flush is empty. */
  predicate WellSized(flushes: seq<Flush>, batchSize: nat) {
    forall i :: 0 <= i < |flushes| ==> Admissible(flushes[i], batchSize)
  }

  lemma WellSizedSnoc(flushes: seq<Flush>, f: Flush, batchSize: nat)
    requires WellSized(flushes, batchSize) && Admissible(f, batchSize)
    ensures WellSized(flushes + [f], batchSize)
  {
  }

  predicate AllFull(flushes: seq<Flush>) {
    forall i :: 0 <= i < |flushes| ==> flushes[i].why == Full
  }

  lemma ChunkAt(early: seq<ProcessEvent>, batch: seq<ProcessEvent>, accepted: seq<ProcessEvent>)
    requires early + batch <= accepted
    ensures |early| + |batch| <= |accepted| && accepted[|early|..|early| + |batch|] == batch && early <= accepted
  {
    assert accepted[..|early + batch|] == early + batch;
    assert accepted[..|early|] == (early + batch)[..|early|];
  }

  /** Without ticks the batches are the consecutive chunks of what was accepted. */
  lemma {:induction false} FullBatchesAreChunks(flushes: seq<Flush>, batchSize: nat, accepted: seq<ProcessEvent>,
                                                k: nat)
    requires WellSized(flushes, batchSize) && AllFull(flushes) && Stored(flushes) <= accepted
    requires k < |flushes|
    ensures |Stored(flushes)| == |flushes| * batchSize
    ensures (k + 1) * batchSize <= |accepted|
    ensures flushes[k].batch == accepted[k * batchSize..(k + 1) * batchSize]
  {
    var n := |flushes| - 1;
    StoredFull(flushes, batchSize);
    StoredFull(flushes[..n], batchSize);
    ChunkAt(Stored(flushes[..n]), flushes[n].batch, accepted);
    Successor(n, batchSize);
    if k < n {
      FullBatchesAreChunks(flushes[..n], batchSize, accepted, k);
    }
  }

  lemma Successor(n: nat, size: nat)
    ensures (n + 1) * size == n * size + size
  {
  }

  lemma {:induction false} StoredFull(flushes: seq<Flush>, batchSize: nat)
    requires WellSized(flushes, batchSize) && AllFull(flushes)
    ensures |Stored(flushes)| == |flushes| * batchSize
  {
    if |flushes| != 0 {
      var n := |flushes| - 1;
      StoredFull(flushes[..n], batchSize);
      Successor(n, batchSize);
    }
  }
}
