/** The event buffers in the heap.  A Go slice is a view of a shared array, so ingesting
    (`buf[1:]`, then append) and pruning (filtering into `events[:0]`) write into arrays
    that other slices might see.  Here they are shown never to reach an array that was
    handed out: the copies an evaluation works on and the events of stored incidents. */
module Slices {
  import opened Sequences
  import opened Domain
  import opened Matching
  import opened EngineModel

  /** Its capacity reaches to the end of the array. */
  datatype Slice = Slice(a: array<Event>, off: nat, len: nat) {
    predicate Fits() {
      off + len <= a.Length
    }

    ghost function Contents(): seq<Event>
      requires Fits()
      reads a
    {
      a[off..off + len]
    }

    /** `s[1:]`. */
    function Tail(): Slice
      requires len > 0
    {
      Slice(a, off + 1, len - 1)
    }
  }

  /** Go's `append`: in place while there is capacity, otherwise into a larger array whose
      spare room the runtime chooses. */
  method Append(s: Slice, e: Event, spare: nat) returns (r: Slice)
    requires s.Fits()
    modifies s.a
    ensures r.Fits() && if s.off + s.len < s.a.Length then r.a == s.a else fresh(r.a)
    ensures r.Contents() == old(s.Contents()) + [e]
  {
    var end := s.off + s.len;
    if end < s.a.Length {
      s.a[end] := e;
      r := Slice(s.a, s.off, s.len + 1);
    } else {
      var grown := new Event[s.len + 1 + spare](i requires 0 <= i reads s.a => if i < s.len then s.a[s.off + i] else e);
      r := Slice(grown, 0, s.len + 1);
    }
  }

  /** What `processEvent` does to the slice of a key. */
  method PushOnto(buf: Slice, e: Event, spare: nat) returns (r: Slice)
    requires buf.Fits()
    modifies buf.a
    ensures r.Fits() && (r.a == buf.a || fresh(r.a))
    ensures r.Contents() == Pushed(old(buf.Contents()), e)
  {
    if buf.len >= MAX_BUFFER_PER_KEY {
      assert buf.Tail().Contents() == buf.Contents()[1..];
      r := Append(buf.Tail(), e, spare);
    } else {
      r := Append(buf, e, spare);
    }
  }

  function KeptUpTo(events: seq<Event>, n: nat, cutoff: int): seq<Event>
    requires n <= |events|
  {
    if n == 0 then []
    else if events[n - 1].ts > cutoff then KeptUpTo(events, n - 1, cutoff) + [events[n - 1]]
    else KeptUpTo(events, n - 1, cutoff)
  }

  lemma {:induction false} KeptIsFilter(events: seq<Event>, n: nat, cutoff: int)
    requires n <= |events|
    ensures KeptUpTo(events, n, cutoff) == Filter(events[..n], FreshAfter(cutoff))
  {
    if n != 0 {
      KeptIsFilter(events, n - 1, cutoff);
      assert events[..n][..n - 1] == events[..n - 1];
    }
  }

  /** The loop of `pruneBuffer`: the survivors are written over the slice being read. */
  method FilterInPlace(s: Slice, cutoff: int) returns (r: Slice)
    requires s.Fits()
    modifies s.a
    ensures r.Fits() && r.a == s.a
    ensures r.Contents() == Filter(old(s.Contents()), FreshAfter(cutoff))
  {
    ghost var before := s.Contents();
    var w := Squeeze(s.a, s.off, s.len, cutoff);
    r := Slice(s.a, s.off, w);
    KeptIsFilter(before, s.len, cutoff);
    assert before[..s.len] == before;
  }

  method Squeeze(a: array<Event>, off: nat, len: nat, cutoff: int) returns (w: nat)
    requires off + len <= a.Length
    modifies a
    ensures w <= len
    ensures a[off..off + w] == KeptUpTo(old(a[off..off + len]), len, cutoff)
  {
    ghost var before := a[off..off + len];
    ghost var kept: seq<Event> := [];
    w := 0;
    for i := 0 to len
      invariant |kept| == w <= i
      invariant kept == KeptUpTo(before, i, cutoff)
      invariant forall k :: 0 <= k < w ==> a[off + k] == kept[k]
      invariant forall k :: i <= k < len ==> a[off + k] == before[k]
    {
      var ev := a[off + i];
      if ev.ts > cutoff {
        a[off + w] := ev;
        kept := kept + [ev];
        w := w + 1;
      }
    }
    forall k | 0 <= k < w ensures a[off..off + w][k] == kept[k] {
      assert a[off + k] == kept[k];
    }
  }

  /** `make` and `copy`. */
  method Copy(s: Slice) returns (r: Slice)
    requires s.Fits()
    ensures r.Fits() && fresh(r.a) && r.Contents() == s.Contents()
  {
    var a := new Event[s.len](i requires 0 <= i < s.len reads s.a => s.a[s.off + i]);
    r := Slice(a, 0, s.len);
  }

  datatype Op =
    | Push(key: string, ev: Event, spare: nat)
    | Expire(now: int)
    | Copies
    | Attach(contributing: seq<Event>)

  /** What one operation does to the contents of the buffers. */
  function ContentsAfter(view: map<string, seq<Event>>, op: Op): map<string, seq<Event>> {
    match op
    case Push(key, ev, _) => view[key := Pushed(Buffered(view, key), ev)]
    case Expire(now) => Pruned(view, now)
    case Copies => view
    case Attach(_) => view
  }

  function ContentsAfterAll(view: map<string, seq<Event>>, ops: seq<Op>): map<string, seq<Event>> {
    if |ops| == 0 then view
    else ContentsAfter(ContentsAfterAll(view, ops[..|ops| - 1]), ops[|ops| - 1])
  }

  function WithPruned(view: map<string, seq<Event>>, key: string, now: int): map<string, seq<Event>>
    requires key in view
  {
    var kept := Filter(view[key], Fresh(now));
    if kept == [] then view - {key} else view[key := kept]
  }

  /** The pruner's progress while the keys in `remaining` are still to come. */
  function PartlyPruned(view: map<string, seq<Event>>, remaining: set<string>, now: int): map<string, seq<Event>> {
    map k | k in view && (k in remaining || Filter(view[k], Fresh(now)) != []) ::
      if k in remaining then view[k] else Filter(view[k], Fresh(now))
  }

  lemma PruneStarts(view: map<string, seq<Event>>, now: int)
    ensures PartlyPruned(view, view.Keys, now) == view
  {
  }

  lemma PruneContinues(view: map<string, seq<Event>>, remaining: set<string>, k: string, now: int)
    requires k in remaining && remaining <= view.Keys
    ensures WithPruned(PartlyPruned(view, remaining, now), k, now) == PartlyPruned(view, remaining - {k}, now)
  {
  }

  lemma PruneEnds(view: map<string, seq<Event>>, now: int)
    ensures PartlyPruned(view, {}, now) == Pruned(view, now)
  {
  }

  class BufferStore {
    var slices: map<string, Slice>
    var incidentEvents: seq<Slice>   // in order of creation
    ghost var handedOut: map<array<Event>, seq<Event>>   // each with its contents back then

    ghost predicate Valid()
      reads this, Arrays(), handedOut.Keys
    {
      && (forall k :: k in slices ==> slices[k].Fits() && slices[k].a !in handedOut)
      && (forall k, l :: k in slices && l in slices && k != l ==> slices[k].a != slices[l].a)
      && (forall a :: a in handedOut ==> a[..] == handedOut[a])
      && (forall i :: 0 <= i < |incidentEvents| ==> incidentEvents[i].a in handedOut && incidentEvents[i].Fits())
    }

    ghost function Arrays(): set<array<Event>>
      reads this
    {
      set k | k in slices :: slices[k].a
    }

    ghost function View(): map<string, seq<Event>>
      requires Valid()
      reads this, Arrays(), handedOut.Keys
    {
      map k | k in slices :: slices[k].Contents()
    }

    constructor ()
      ensures Valid() && View() == map[] && handedOut == map[] && incidentEvents == []
      ensures fresh(Arrays())
    {
      slices, incidentEvents, handedOut := map[], [], map[];
    }

    /** Storing `s` under `key` is a local change when no other buffer and no array handed
        out was written. */
    twostate lemma Stored(key: string, new s: Slice)
      requires old(Valid())
      requires slices == old(slices)[key := s]
      requires handedOut == old(handedOut) && incidentEvents == old(incidentEvents)
      requires s.Fits() && s.a !in handedOut
      requires forall k :: k in old(slices) && k != key ==> old(slices)[k].a != s.a && unchanged(old(slices)[k].a)
      requires forall a :: a in handedOut ==> unchanged(a)
      ensures Valid()
      ensures View() == old(View())[key := s.Contents()]
    {
      OthersKept(key, s);
      StoredValid(key, s);
    }

    twostate lemma StoredValid(key: string, new s: Slice)
      requires old(Valid())
      requires slices == old(slices)[key := s]
      requires handedOut == old(handedOut) && incidentEvents == old(incidentEvents)
      requires s.Fits() && s.a !in handedOut
      requires forall k :: k in old(slices) && k != key ==> old(slices)[k].a != s.a
      requires forall a :: a in handedOut ==> unchanged(a)
      ensures Valid()
    {
    }

    twostate lemma OthersKept(key: string, new s: Slice)
      requires old(Valid())
      requires forall k :: k in old(slices) && k != key ==> unchanged(old(slices)[k].a)
      ensures forall k :: k in old(slices) && k != key ==> old(slices)[k].Contents() == old(slices[k].Contents())
    {
      forall k | k in old(slices) && k != key ensures old(slices)[k].Contents() == old(slices[k].Contents()) {
        assert unchanged(old(slices)[k].a);
      }
    }

    /** The critical section of `processEvent`. */
    method Ingest(key: string, event: Event, spare: nat)
      requires Valid()
      modifies this`slices, Arrays()
      ensures Valid()
      ensures View() == old(View())[key := Pushed(Buffered(old(View()), key), event)]
      ensures fresh(Arrays() - old(Arrays()))
    {
      var buf := BufferOf(key);
      label read:
      var grown := PushOnto(buf, event, spare);
      slices := slices[key := grown];
      Stored@read(key, grown);
    }

    /** The slice of a key, or a new empty one in place of Go's nil. */
    method BufferOf(key: string) returns (buf: Slice)
      requires Valid()
      ensures buf.Fits() && buf.Contents() == Buffered(View(), key)
      ensures if key in slices then buf == slices[key] else fresh(buf.a)
    {
      if key in slices {
        buf := slices[key];
      } else {
        var empty := new Event[0];
        buf := Slice(empty, 0, 0);
      }
    }

    /** Dropping a key, whatever was written to its array. */
    twostate lemma Dropped(key: string)
      requires old(Valid()) && key in old(slices)
      requires slices == old(slices) - {key}
      requires handedOut == old(handedOut) && incidentEvents == old(incidentEvents)
      requires forall k :: k in old(slices) && k != key ==> unchanged(old(slices)[k].a)
      requires forall a :: a in handedOut ==> unchanged(a)
      ensures Valid()
      ensures View() == old(View()) - {key}
    {
      forall k | k in slices ensures slices[k].Fits() && slices[k].Contents() == old(slices[k].Contents()) {
        assert unchanged(old(slices)[k].a);
      }
    }

    /** The body of the pruner's loop. */
    method PruneKey(key: string, now: int)
      requires Valid() && key in slices
      modifies this`slices, Arrays()
      ensures Valid() && Arrays() <= old(Arrays())
      ensures View() == WithPruned(old(View()), key, now)
    {
      var events := slices[key];
      ghost var before := View();
      assert events.Contents() == before[key];
      var kept := FilterInPlace(events, now - BUFFER_WINDOW);
      if kept.len == 0 {
        assert kept.Contents() == [];
        slices := slices - {key};
        Dropped(key);
      } else {
        assert kept.Contents() != [];
        slices := slices[key := kept];
        Stored(key, kept);
      }
    }

    method Prune(now: int)
      requires Valid()
      modifies this`slices, Arrays()
      ensures Valid() && Arrays() <= old(Arrays())
      ensures View() == Pruned(old(View()), now)
    {
      var remaining := slices.Keys;
      ghost var before := View();
      PruneStarts(before, now);
      while remaining != {}
        invariant Valid() && Arrays() <= old(Arrays())
        invariant remaining <= before.Keys
        invariant View() == PartlyPruned(before, remaining, now)
        decreases remaining
      {
        var k :| k in remaining;
        assert k in View();
        PruneContinues(before, remaining, k, now);
        PruneKey(k, now);
        remaining := remaining - {k};
      }
      PruneEnds(before, now);
    }

    /** What was handed out stays as it was. */
    twostate predicate KeepsPromises()
      reads this, handedOut.Keys
    {
      forall a :: a in old(handedOut) ==> a in handedOut && handedOut[a] == old(handedOut)[a]
    }

    /** Handing out an array that no buffer uses. */
    twostate lemma Promised(new a: array<Event>)
      requires old(Valid()) && slices == old(slices)
      requires handedOut == old(handedOut)[a := a[..]] && !old(allocated(a))
      requires |incidentEvents| >= |old(incidentEvents)|
               && incidentEvents[..|old(incidentEvents)|] == old(incidentEvents)
      requires forall i :: |old(incidentEvents)| <= i < |incidentEvents| ==>
                 incidentEvents[i].a == a && incidentEvents[i].Fits()
      requires forall k :: k in slices ==> unchanged(slices[k].a)
      requires forall b :: b in old(handedOut) ==> unchanged(b)
      ensures Valid() && KeepsPromises()
      ensures View() == old(View())
    {
      forall k | k in slices ensures slices[k].a != a && slices[k].Contents() == old(slices[k].Contents()) {
        assert unchanged(slices[k].a);
      }
      forall i | 0 <= i < |old(incidentEvents)| ensures incidentEvents[i] == old(incidentEvents)[i] {
        assert incidentEvents[i] == incidentEvents[..|old(incidentEvents)|][i];
      }
    }

    /** `s` lies in an array handed out, which held `events` there. */
    ghost predicate Serves(s: Slice, events: seq<Event>)
      reads this
    {
      s.Fits() && s.a in handedOut && s.off + s.len <= |handedOut[s.a]|
        && handedOut[s.a][s.off..s.off + s.len] == events
    }

    /** Every entry of a snapshot serves what the buffers held. */
    ghost predicate AllServe(snapshot: map<string, Slice>, view: map<string, seq<Event>>)
      reads this
    {
      forall k :: k in snapshot ==> k in view && Serves(snapshot[k], view[k])
    }

    method CopyOut(key: string) returns (copied: Slice)
      requires Valid() && key in slices
      modifies this`handedOut
      ensures Valid() && KeepsPromises() && View() == old(View())
      ensures fresh(copied.a)
      ensures Serves(copied, View()[key])
    {
      copied := Copy(slices[key]);
      handedOut := handedOut[copied.a := copied.a[..]];
      Promised(copied.a);
    }

    /** The body of the snapshot loop. */
    method CopyInto(snapshot: map<string, Slice>, key: string) returns (extended: map<string, Slice>)
      requires Valid() && key in slices && AllServe(snapshot, View())
      modifies this`handedOut
      ensures Valid() && KeepsPromises() && View() == old(View())
      ensures extended.Keys == snapshot.Keys + {key} && AllServe(extended, View())
      ensures forall k :: k in extended ==> (k in snapshot && extended[k] == snapshot[k]) || fresh(extended[k].a)
    {
      var copied := CopyOut(key);
      extended := snapshot[key := copied];
    }

    /** The snapshot with which `evaluateRules` starts. */
    method Snapshot() returns (snapshot: map<string, Slice>)
      requires Valid()
      modifies this`handedOut
      ensures Valid() && KeepsPromises() && View() == old(View())
      ensures snapshot.Keys == View().Keys
      ensures AllServe(snapshot, View())
      ensures forall k :: k in snapshot ==> fresh(snapshot[k].a)
    {
      snapshot := map[];
      var remaining := slices.Keys;
      ghost var before := View();
      while remaining != {}
        invariant Valid() && KeepsPromises() && View() == before
        invariant remaining <= slices.Keys && snapshot.Keys == slices.Keys - remaining
        invariant AllServe(snapshot, before)
        invariant forall k :: k in snapshot ==> fresh(snapshot[k].a)
        decreases remaining
      {
        var k :| k in remaining;
        snapshot := CopyInto(snapshot, k);
        remaining := remaining - {k};
      }
    }

    /** A new incident takes over the array in which `matchRule` compacted its events. */
    method Attach(contributing: seq<Event>)
      requires Valid()
      modifies this`handedOut, this`incidentEvents
      ensures Valid() && KeepsPromises() && View() == old(View())
      ensures |incidentEvents| == |old(incidentEvents)| + 1
              && incidentEvents[..|old(incidentEvents)|] == old(incidentEvents)
      ensures Serves(incidentEvents[|old(incidentEvents)|], DedupById(contributing))
    {
      var backing, w := CompactInPlace(contributing);
      handedOut := handedOut[backing := backing[..]];
      incidentEvents := incidentEvents + [Slice(backing, 0, w)];
      Promised(backing);
    }

    /** What a slice was handed out with is still what a reader finds in it. */
    lemma StillServes(s: Slice, events: seq<Event>)
      requires Valid() && Serves(s, events)
      ensures s.Contents() == events
    {
      assert s.a[..] == handedOut[s.a];
    }

    lemma EventsPromised()
      requires Valid()
      ensures forall i :: 0 <= i < |incidentEvents| ==>
                incidentEvents[i].Fits() && Serves(incidentEvents[i], incidentEvents[i].Contents())
    {
    }

    twostate lemma KeepsServing(s: Slice, new events: seq<Event>)
      requires KeepsPromises() && old(Serves(s, events))
      ensures Serves(s, events)
    {
    }

    twostate lemma SnapshotServed(snapshot: map<string, Slice>, new view: map<string, seq<Event>>)
      requires Valid() && KeepsPromises() && snapshot.Keys == view.Keys
      requires forall k :: k in snapshot ==> old(Serves(snapshot[k], view[k]))
      ensures forall k :: k in snapshot ==> snapshot[k].Fits() && snapshot[k].Contents() == view[k]
    {
      forall k | k in snapshot ensures snapshot[k].Fits() && snapshot[k].Contents() == view[k] {
        KeepsServing(snapshot[k], view[k]);
        StillServes(snapshot[k], view[k]);
      }
    }

    method Perform(op: Op)
      requires Valid()
      modifies this, Arrays()
      ensures Valid() && KeepsPromises()
      ensures View() == ContentsAfter(old(View()), op)
      ensures fresh(Arrays() - old(Arrays()))
      ensures |old(incidentEvents)| <= |incidentEvents|
              && incidentEvents[..|old(incidentEvents)|] == old(incidentEvents)
    {
      match op
      case Push(key, ev, spare) => Ingest(key, ev, spare);
      case Expire(now) => Prune(now);
      case Copies => var other := Snapshot();
      case Attach(contributing) => Attach(contributing);
    }

    /** Any sequence of operations. */
    method PerformAll(ops: seq<Op>)
      requires Valid()
      modifies this, Arrays()
      ensures Valid() && KeepsPromises()
      ensures View() == ContentsAfterAll(old(View()), ops)
      ensures fresh(Arrays() - old(Arrays()))
      ensures |old(incidentEvents)| <= |incidentEvents|
              && incidentEvents[..|old(incidentEvents)|] == old(incidentEvents)
    {
      for i := 0 to |ops|
        invariant Valid() && KeepsPromises()
        invariant View() == ContentsAfterAll(old(View()), ops[..i])
        invariant fresh(Arrays() - old(Arrays()))
        invariant |old(incidentEvents)| <= |incidentEvents|
                  && incidentEvents[..|old(incidentEvents)|] == old(incidentEvents)
      {
        assert ops[..i + 1][..i] == ops[..i];
        Perform(ops[i]);
      }
      assert ops[..|ops|] == ops;
    }
  }

  /** A snapshot taken before any operations still reads as the buffers did when it was
      taken, and every incident stored before them still carries the same events. */
  method SnapshotIsolated(store: BufferStore, ops: seq<Op>) returns (snapshot: map<string, Slice>)
    requires store.Valid()
    modifies store, store.Arrays()
    ensures store.Valid() && store.View() == ContentsAfterAll(old(store.View()), ops)
    ensures snapshot.Keys == old(store.View()).Keys
    ensures forall k :: k in snapshot ==> snapshot[k].Fits() && snapshot[k].Contents() == old(store.View())[k]
    ensures EventsKept(store)
  {
    snapshot := store.Snapshot();
    PerformWith(store, snapshot, ops);
  }

  method PerformWith(store: BufferStore, snapshot: map<string, Slice>, ops: seq<Op>)
    requires store.Valid() && snapshot.Keys == store.View().Keys
    requires store.AllServe(snapshot, store.View())
    modifies store, store.Arrays()
    ensures store.Valid() && store.View() == ContentsAfterAll(old(store.View()), ops)
    ensures forall k :: k in snapshot ==> snapshot[k].Fits() && snapshot[k].Contents() == old(store.View())[k]
    ensures EventsKept(store)
  {
    ghost var view := store.View();
    store.EventsPromised();
    store.PerformAll(ops);
    store.SnapshotServed(snapshot, view);
    EventsServed(store);
  }

  /** Every incident stored before still has the same events in the same place. */
  twostate predicate EventsKept(store: BufferStore)
    reads store, set s | s in store.incidentEvents :: s.a
  {
    && |old(store.incidentEvents)| <= |store.incidentEvents|
    && forall i :: 0 <= i < |old(store.incidentEvents)| ==>
         && store.incidentEvents[i] == old(store.incidentEvents)[i]
         && store.incidentEvents[i].Fits()
         && store.incidentEvents[i].Contents() == old(store.incidentEvents[i].Contents())
  }

  twostate lemma EventsServed(store: BufferStore)
    requires store.Valid() && store.KeepsPromises()
    requires |old(store.incidentEvents)| <= |store.incidentEvents|
    requires store.incidentEvents[..|old(store.incidentEvents)|] == old(store.incidentEvents)
    requires forall i :: 0 <= i < |old(store.incidentEvents)| ==>
               old(store.incidentEvents[i].Fits()
                 && store.Serves(store.incidentEvents[i], store.incidentEvents[i].Contents()))
    ensures EventsKept(store)
  {
    forall i | 0 <= i < |old(store.incidentEvents)|
      ensures store.incidentEvents[i] == old(store.incidentEvents)[i]
      ensures store.incidentEvents[i].Fits()
              && store.incidentEvents[i].Contents() == old(store.incidentEvents[i].Contents())
    {
      var s, events := old(store.incidentEvents)[i], old(store.incidentEvents[i].Contents());
      assert store.incidentEvents[i] == store.incidentEvents[..|old(store.incidentEvents)|][i];
      store.KeepsServing(s, events);
      store.StillServes(s, events);
    }
  }
}
