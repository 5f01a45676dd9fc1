/** The incident-level dedup key: `fingerprint`, up to the final SHA-256. */
module Fingerprints {
  import opened Sequences
  import opened Strings
  import opened Domain

  function KeyOf(e: Event): string {
    e.agent + ":" + e.etype + ":" + e.title
  }

  /** The set of agent:type:title keys of some events. */
  function Keys(events: seq<Event>): set<string> {
    if |events| == 0 then {}
    else Keys(events[..|events| - 1]) + {KeyOf(events[|events| - 1])}
  }

  lemma {:induction false} KeysExactly(events: seq<Event>)
    ensures forall k :: k in Keys(events) <==> exists e :: e in events && KeyOf(e) == k
  {
    if |events| != 0 {
      var init, last := events[..|events| - 1], events[|events| - 1];
      KeysExactly(init);
      forall k ensures k in Keys(events) <==> exists e :: e in events && KeyOf(e) == k {
        if k in Keys(init) {
          var e :| e in init && KeyOf(e) == k;
          assert e in events;
        }
        if k == KeyOf(last) {
          assert last in events;
        }
      }
    }
  }

  function UniqueKeys(events: seq<Event>): seq<string> {
    if |events| == 0 then []
    else
      var init, k := events[..|events| - 1], KeyOf(events[|events| - 1]);
      if k in Keys(init) then UniqueKeys(init) else UniqueKeys(init) + [k]
  }

  lemma {:induction false} UniqueKeysDistinct(events: seq<Event>)
    ensures Distinct(UniqueKeys(events))
    ensures forall k :: k in UniqueKeys(events) <==> k in Keys(events)
  {
    if |events| != 0 {
      UniqueKeysDistinct(events[..|events| - 1]);
    }
  }

  function SortedKeys(events: seq<Event>): seq<string> {
    Sort(UniqueKeys(events))
  }

  lemma SortedKeysCanonical(events: seq<Event>)
    ensures Sorted(SortedKeys(events)) && Distinct(SortedKeys(events))
    ensures forall k :: k in SortedKeys(events) <==> k in Keys(events)
  {
    UniqueKeysDistinct(events);
    SortSorts(UniqueKeys(events));
    SortDistinct(UniqueKeys(events));
    SameElements(SortedKeys(events), UniqueKeys(events));
  }

  /** The preimage that `fingerprint` hashes. */
  function Fingerprint(ruleId: string, tenant: string, events: seq<Event>): string {
    Join([ruleId, tenant] + SortedKeys(events), '|')
  }

  /** The loop of `fingerprint`: collect unseen keys behind the rule and tenant, then sort
      only that part. */
  method ComputeFingerprint(events: seq<Event>, ruleId: string, tenant: string) returns (fp: string)
    ensures fp == Fingerprint(ruleId, tenant, events)
  {
    var parts := [ruleId, tenant];
    var seen: set<string> := {};
    for i := 0 to |events|
      invariant parts == [ruleId, tenant] + UniqueKeys(events[..i])
      invariant seen == Keys(events[..i])
    {
      assert events[..i + 1][..i] == events[..i];
      var k := KeyOf(events[i]);
      if k !in seen {
        seen := seen + {k};
        parts := parts + [k];
      }
    }
    assert events[..|events|] == events;
    assert parts[2..] == UniqueKeys(events);
    parts := parts[..2] + Sort(parts[2..]);
    assert parts == [ruleId, tenant] + SortedKeys(events);
    fp := Join(parts, '|');
  }

  /** Neither order nor multiplicity of the events matters. */
  lemma FingerprintCanonical(ruleId: string, tenant: string, a: seq<Event>, b: seq<Event>)
    requires Keys(a) == Keys(b)
    ensures Fingerprint(ruleId, tenant, a) == Fingerprint(ruleId, tenant, b)
  {
    SortedKeysCanonical(a);
    SortedKeysCanonical(b);
    SortedUnique(SortedKeys(a), SortedKeys(b));
  }

  predicate BarFree(s: string) {
    '|' !in s
  }

  lemma JoinTail(ruleId: string, tenant: string, keys: seq<string>)
    ensures Join([ruleId, tenant] + keys, '|')
            == ruleId + ['|'] + if keys == [] then tenant else tenant + ['|'] + Join(keys, '|')
  {
    var parts := [ruleId, tenant] + keys;
    assert parts[1..] == [tenant] + keys;
    assert parts[1..][1..] == keys;
  }

  /** `u` continues `t` behind a bar. */
  predicate Continues(u: string, t: string) {
    t + "|" <= u
  }

  predicate Apart(t: string, u: string) {
    !Continues(t, u) && !Continues(u, t)
  }

  /** Two strings followed by a bar agree unless one continues the other behind a bar. */
  lemma BarCut(t: string, x: string, u: string, y: string)
    requires Apart(t, u) && t + ['|'] + x == u + ['|'] + y
    ensures t == u
  {
    var s := t + ['|'] + x;
    assert s[..|t|] == t && s[..|u|] == u;
    if |t| < |u| {
      LongerContinues(t, x, u, y);
    } else if |u| < |t| {
      LongerContinues(u, y, t, x);
    }
  }

  lemma LongerContinues(t: string, x: string, u: string, y: string)
    requires |t| < |u| && t + ['|'] + x == u + ['|'] + y
    ensures Continues(u, t)
  {
    var s := t + ['|'] + x;
    assert s[..|t| + 1] == t + "|" && s[..|u|] == u;
    assert u[..|t| + 1] == s[..|t| + 1];
  }

  /** Equal preimages belong to one rule, whatever the tenants and the events. */
  lemma FingerprintHasRule(r1: string, t1: string, a: seq<Event>, r2: string, t2: string, b: seq<Event>)
    requires BarFree(r1) && BarFree(r2) && Fingerprint(r1, t1, a) == Fingerprint(r2, t2, b)
    ensures r1 == r2
  {
    JoinTail(r1, t1, SortedKeys(a));
    JoinTail(r2, t2, SortedKeys(b));
    CutUnique(r1, Behind(t1, SortedKeys(a)), r2, Behind(t2, SortedKeys(b)), '|');
  }

  /** A preimage behind its rule ID. */
  function Behind(tenant: string, keys: seq<string>): string {
    if keys == [] then tenant else tenant + ['|'] + Join(keys, '|')
  }

  /** A coincidence of preimages does not depend on the rule's ID. */
  lemma FingerprintRekeyed(r1: string, r2: string, t: string, a: seq<Event>, u: string, b: seq<Event>)
    requires Fingerprint(r1, t, a) == Fingerprint(r1, u, b)
    ensures Fingerprint(r2, t, a) == Fingerprint(r2, u, b)
  {
    var x, y := Behind(t, SortedKeys(a)), Behind(u, SortedKeys(b));
    JoinTail(r1, t, SortedKeys(a));
    JoinTail(r1, u, SortedKeys(b));
    JoinTail(r2, t, SortedKeys(a));
    JoinTail(r2, u, SortedKeys(b));
    assert (r1 + ['|'] + x)[|r1| + 1..] == x && (r1 + ['|'] + y)[|r1| + 1..] == y;
  }

  /** Preimages of different rules or different tenants never coincide, whatever the events,
      when neither tenant continues the other behind a bar. */
  lemma FingerprintSeparates(r1: string, t1: string, a: seq<Event>, r2: string, t2: string, b: seq<Event>)
    requires BarFree(r1) && BarFree(r2) && Apart(t1, t2)
    requires |a| > 0 && |b| > 0
    requires Fingerprint(r1, t1, a) == Fingerprint(r2, t2, b)
    ensures r1 == r2 && t1 == t2
  {
    var ka, kb := SortedKeys(a), SortedKeys(b);
    NonEmptyKeys(a);
    NonEmptyKeys(b);
    JoinTail(r1, t1, ka);
    JoinTail(r2, t2, kb);
    CutUnique(r1, t1 + ['|'] + Join(ka, '|'), r2, t2 + ['|'] + Join(kb, '|'), '|');
    BarCut(t1, Join(ka, '|'), t2, Join(kb, '|'));
  }

  lemma NonEmptyKeys(events: seq<Event>)
    requires |events| > 0
    ensures SortedKeys(events) != []
  {
    SortedKeysCanonical(events);
    assert KeyOf(events[|events| - 1]) in SortedKeys(events);
  }

  lemma PartsRecovered(ruleId: string, tenant: string, events: seq<Event>)
    requires BarFree(ruleId) && BarFree(tenant)
    requires forall k :: k in Keys(events) ==> BarFree(k)
    ensures Split(Fingerprint(ruleId, tenant, events), '|') == [ruleId, tenant] + SortedKeys(events)
  {
    SortedKeysCanonical(events);
    PartsBarFree(ruleId, tenant, SortedKeys(events));
    SplitJoin([ruleId, tenant] + SortedKeys(events), '|');
  }

  lemma PartsBarFree(ruleId: string, tenant: string, keys: seq<string>)
    requires BarFree(ruleId) && BarFree(tenant) && forall k :: k in keys ==> BarFree(k)
    ensures var parts := [ruleId, tenant] + keys; forall i :: 0 <= i < |parts| ==> '|' !in parts[i]
  {
    forall i | 0 <= i < |keys| ensures '|' !in keys[i] {
      assert keys[i] in keys;
    }
  }

  /** With no `|` in any part, the preimage is a canonical form of (rule, tenant, key set). */
  lemma FingerprintInjective(r1: string, t1: string, a: seq<Event>, r2: string, t2: string, b: seq<Event>)
    requires BarFree(r1) && BarFree(t1) && BarFree(r2) && BarFree(t2)
    requires forall k :: k in Keys(a) ==> BarFree(k)
    requires forall k :: k in Keys(b) ==> BarFree(k)
    ensures Fingerprint(r1, t1, a) == Fingerprint(r2, t2, b) <==>
              r1 == r2 && t1 == t2 && Keys(a) == Keys(b)
  {
    if Fingerprint(r1, t1, a) == Fingerprint(r2, t2, b) {
      var ka, kb := SortedKeys(a), SortedKeys(b);
      PartsRecovered(r1, t1, a);
      PartsRecovered(r2, t2, b);
      SamePairAndTail(r1, t1, ka, r2, t2, kb);
      SortedKeysCanonical(a);
      SortedKeysCanonical(b);
      assert Keys(a) == Keys(b);
    }
    if r1 == r2 && t1 == t2 && Keys(a) == Keys(b) {
      FingerprintCanonical(r1, t1, a, b);
    }
  }

  lemma SamePairAndTail<T>(x1: T, y1: T, s1: seq<T>, x2: T, y2: T, s2: seq<T>)
    requires [x1, y1] + s1 == [x2, y2] + s2
    ensures x1 == x2 && y1 == y2 && s1 == s2
  {
    var whole := [x1, y1] + s1;
    assert x1 == whole[0] && y1 == whole[1] && s1 == whole[2..];
    assert x2 == whole[0] && y2 == whole[1] && s2 == whole[2..];
  }

  lemma OneKey(e: Event)
    ensures Keys([e]) == {KeyOf(e)} && UniqueKeys([e]) == [KeyOf(e)]
    ensures SortedKeys([e]) == [KeyOf(e)]
  {
    assert [e][..0] == [];
    assert Sort([KeyOf(e)]) == [KeyOf(e)];
  }

  /** An agent name with a bar makes an event of `t` look like one of the tenant `t|x`. */
  lemma AgentCollides(ruleId: string, t: string, x: string, a: Event, b: Event)
    requires a.agent == x + "|" + b.agent && a.etype == b.etype && a.title == b.title
    ensures Fingerprint(ruleId, t, [a]) == Fingerprint(ruleId, t + "|" + x, [b])
  {
    OneKey(a);
    OneKey(b);
    JoinTail(ruleId, t, [KeyOf(a)]);
    JoinTail(ruleId, t + "|" + x, [KeyOf(b)]);
    assert KeyOf(a) == x + ['|'] + KeyOf(b);
    Reassociate(t, x, KeyOf(b));
  }

  lemma Reassociate(a: string, b: string, c: string)
    ensures (a + "|" + b) + ['|'] + c == a + ['|'] + (b + ['|'] + c)
  {
  }

  function Blank(agent: string): Event {
    Event("", "", agent, "", "", 0, 0, "", "", [], "", "", map[], "")
  }

  ghost predicate Collide(ruleId: string, t: string, a: seq<Event>, u: string, b: seq<Event>) {
    |a| > 0 && |b| > 0 && Fingerprint(ruleId, t, a) == Fingerprint(ruleId, u, b)
  }

  /** `u` is `t`, a bar, and the rest. */
  lemma ContinuationCollides(ruleId: string, t: string, u: string)
    requires Continues(u, t)
    ensures exists a, b :: Collide(ruleId, t, a, u, b)
    ensures exists a, b :: Collide(ruleId, u, a, t, b)
  {
    var x := u[|t| + 1..];
    assert u == t + "|" + x;
    AgentCollides(ruleId, t, x, Blank(x + "|"), Blank(""));
    assert Collide(ruleId, t, [Blank(x + "|")], u, [Blank("")]);
    assert Collide(ruleId, u, [Blank("")], t, [Blank(x + "|")]);
  }

  /** Events of two tenants can share a fingerprint exactly when one name continues the
      other behind a bar. */
  lemma TenantsCollideIff(ruleId: string, t: string, u: string)
    requires BarFree(ruleId) && t != u
    ensures (exists a, b :: Collide(ruleId, t, a, u, b)) <==> !Apart(t, u)
  {
    if a, b :| Collide(ruleId, t, a, u, b) && Apart(t, u) {
      FingerprintSeparates(ruleId, t, a, ruleId, u, b);
    }
    if Continues(u, t) {
      ContinuationCollides(ruleId, t, u);
    }
    if Continues(t, u) {
      ContinuationCollides(ruleId, u, t);
    }
  }
}
