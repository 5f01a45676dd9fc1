/** A rule that every event satisfies.  It shows what the engine's guarantees need: where an
    assumption is missing, a tick of this rule breaks the guarantee. */
module CatchAllRule {
  import opened Sequences
  import opened Domain
  import opened Matching
  import opened Fingerprints
  import opened EngineModel

  const ANY: Condition := Condition("", "", map[], 1)

  function CatchAll(id: string): Rule {
    Rule(id, "", "", 0, BUFFER_WINDOW, [ANY], "", "", 0)
  }

  function CatchAllMatch(id: string, t: string, events: seq<Event>): Match {
    Match(CatchAll(id), t, DedupById(events), Fingerprint(id, t, DedupById(events)))
  }

  lemma CatchAllFires(id: string, events: seq<Event>)
    ensures MatchRule(CatchAll(id), events) == if events == [] then None else Some(DedupById(events))
  {
    FilterAll(events, Satisfies(ANY));
    assert [ANY][..0] == [];
    assert Contributing([ANY], events) == [] + events == events;
    assert CatchAll(id).conditions == [ANY] && Required(CatchAll(id), ANY) == 1;
  }

  /** Its window is the engine's own, so it matches on the whole snapshot. */
  lemma CatchAllTask(buffers: map<string, seq<Event>>, o: seq<string>, id: string, t: string, now: int)
    ensures var s := Snapshot(buffers, o, t, now);
            MatchesFor(Task(CatchAll(id), t, s), now) == if s == [] then [] else [CatchAllMatch(id, t, s)]
  {
    var s := Snapshot(buffers, o, t, now);
    SnapshotElements(buffers, o, t, now);
    FilterAll(s, FreshAfter(now - BUFFER_WINDOW));
    CatchAllFires(id, s);
  }

  lemma FingerprintLength(id: string, t: string, events: seq<Event>)
    ensures |Fingerprint(id, t, events)| > |id|
  {
    JoinTail(id, t, SortedKeys(events));
  }

  /** A bar-free name longer than all of these. */
  lemma FreshId(names: set<string>) returns (id: string)
    ensures BarFree(id) && forall s :: s in names ==> |s| < |id|
  {
    if names == {} {
      id := "";
    } else {
      var s :| s in names;
      id := FreshId(names - {s});
      id := seq(|id| + |s| + 1, i => 'x');
    }
  }

  /** A tenant with recent events has a nonempty snapshot, in any order. */
  lemma SnapshotPresent(buffers: map<string, seq<Event>>, o: seq<string>, t: string, now: int)
    requires t in Tenants(buffers, now) && Enumerates(o, buffers.Keys)
    ensures Snapshot(buffers, o, t, now) != []
  {
    var k :| k in buffers && TenantOfKey(k) == Some(t) && Filter(buffers[k], Fresh(now)) != [];
    SnapshotHolds(buffers, o, k, t, now);
  }

  lemma {:induction false} SnapshotHolds(buffers: map<string, seq<Event>>, o: seq<string>, k: string, t: string,
                                         now: int)
    requires k in o && TenantOfKey(k) == Some(t) && Filter(Buffered(buffers, k), Fresh(now)) != []
    ensures Snapshot(buffers, o, t, now) != []
  {
    if o[|o| - 1] != k {
      SnapshotHolds(buffers, o[..|o| - 1], k, t, now);
    }
  }
}
