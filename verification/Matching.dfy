/** Rule matching: `matchCondition`, `extractFieldValue` and `matchRule`. */
module Matching {
  import opened Sequences
  import opened Strings
  import opened Domain

  function JoinWithSpace(parts: seq<string>): string {
    Join(parts, ' ')
  }

  function ExtractFieldValue(ev: Event, field: string): string {
    match field
    case "title" => ev.title
    case "description" => ev.description
    case "source" => ev.source
    case "event_type" => ev.etype
    case "mitre_tactic" => ev.tactic
    case "mitre_technique" => ev.technique
    case "indicators" => JoinWithSpace(ev.indicators)
    case _ => if field in ev.rawData then ev.rawData[field] else ""
  }

  predicate MatchCondition(c: Condition, ev: Event) {
    && (c.source == "" || c.source == "any" || ev.source == c.source)
    && (c.etype == "" || c.etype == "any" || ev.etype == c.etype)
    && forall f :: f in c.fieldMatch ==>
         Contains(ToLower(ExtractFieldValue(ev, f)), ToLower(c.fieldMatch[f]))
  }

  function Satisfies(c: Condition): Event -> bool {
    (ev: Event) => MatchCondition(c, ev)
  }

  function Hits(c: Condition, events: seq<Event>): seq<Event> {
    Filter(events, Satisfies(c))
  }

  function Max(a: int, b: int): int {
    if a < b then b else a
  }

  /** The number of hits a condition needs before its rule can fire. */
  function Required(rule: Rule, c: Condition): (n: int)
    ensures n == Max(1, Max(c.minCount, rule.threshold))
  {
    var atLeastOne := if c.minCount <= 0 then 1 else c.minCount;
    if rule.threshold > 0 && atLeastOne < rule.threshold then rule.threshold else atLeastOne
  }

  function Contributing(conditions: seq<Condition>, events: seq<Event>): seq<Event> {
    if |conditions| == 0 then []
    else
      Contributing(conditions[..|conditions| - 1], events)
      + Hits(conditions[|conditions| - 1], events)
  }

  /** Drop every event whose ID occurred earlier. */
  function DedupById(s: seq<Event>): seq<Event> {
    if |s| == 0 then []
    else
      var init, last := s[..|s| - 1], s[|s| - 1];
      if last.id in Ids(init) then DedupById(init) else DedupById(init) + [last]
  }

  /** What `matchRule` returns: the contributing events when the rule fires. */
  function MatchRule(rule: Rule, events: seq<Event>): Option<seq<Event>> {
    if |rule.conditions| > 0
       && forall i :: 0 <= i < |rule.conditions| ==>
            |Hits(rule.conditions[i], events)| >= Required(rule, rule.conditions[i])
    then Some(DedupById(Contributing(rule.conditions, events)))
    else None
  }

  /** The hits of earlier conditions come first. */
  lemma {:induction false} ContributingInOrder(a: seq<Condition>, b: seq<Condition>, events: seq<Event>)
    ensures Contributing(a + b, events) == Contributing(a, events) + Contributing(b, events)
    ensures |a| == 1 ==> Contributing(a, events) == Hits(a[0], events)
  {
    if |b| == 0 {
      assert a + b == a;
    } else {
      assert (a + b)[..|a + b| - 1] == a + b[..|b| - 1];
      ContributingInOrder(a, b[..|b| - 1], events);
    }
    if |a| == 1 {
      assert Contributing(a, events) == Contributing([], events) + Hits(a[0], events);
    }
  }

  lemma {:induction false} ContributingElements(conditions: seq<Condition>, events: seq<Event>)
    ensures forall e :: e in Contributing(conditions, events) <==>
              e in events && exists i :: 0 <= i < |conditions| && MatchCondition(conditions[i], e)
  {
    if |conditions| != 0 {
      var n := |conditions| - 1;
      var init := conditions[..n];
      ContributingElements(init, events);
      FilterElements(events, Satisfies(conditions[n]));
      forall e ensures e in Contributing(conditions, events) <==>
          e in events && exists i :: 0 <= i < |conditions| && MatchCondition(conditions[i], e)
      {
        if e in Contributing(init, events) {
          var i :| 0 <= i < |init| && MatchCondition(init[i], e);
          assert MatchCondition(conditions[i], e);
        }
        if i :| 0 <= i < |conditions| && MatchCondition(conditions[i], e) && e in events {
          assert i < n ==> MatchCondition(init[i], e);
        }
      }
    }
  }

  method CollectHits(cond: Condition, events: seq<Event>) returns (hits: seq<Event>)
    ensures hits == Hits(cond, events)
  {
    hits := [];
    for i := 0 to |events|
      invariant hits == Hits(cond, events[..i])
    {
      assert events[..i + 1][..i] == events[..i];
      if MatchCondition(cond, events[i]) {
        hits := hits + [events[i]];
      }
    }
    assert events[..|events|] == events;
  }

  lemma {:induction false} DedupElements(s: seq<Event>)
    ensures Ids(DedupById(s)) == Ids(s)
    ensures forall e :: e in DedupById(s) ==> e in s
  {
    if |s| != 0 {
      var init, last := s[..|s| - 1], s[|s| - 1];
      DedupElements(init);
      IdsSnoc(DedupById(init), last);
    }
  }

  lemma DedupStep(s: seq<Event>, i: nat)
    requires i < |s|
    ensures Ids(s[..i + 1]) == Ids(s[..i]) + {s[i].id}
    ensures DedupById(s[..i + 1]) ==
            if s[i].id in Ids(s[..i]) then DedupById(s[..i]) else DedupById(s[..i]) + [s[i]]
  {
    assert s[..i + 1][..i] == s[..i];
  }

  method CopyOf(s: seq<Event>) returns (a: array<Event>)
    ensures fresh(a) && a.Length == |s|
    ensures forall k :: 0 <= k < |s| ==> a[k] == s[k]
  {
    a := new Event[|s|](i requires 0 <= i < |s| => s[i]);
  }

  /** The IDs among the first `n` events, and those events deduplicated. */
  function IdsUpTo(s: seq<Event>, n: nat): set<string>
    requires n <= |s|
  {
    if n == 0 then {} else IdsUpTo(s, n - 1) + {s[n - 1].id}
  }

  function DedupUpTo(s: seq<Event>, n: nat): seq<Event>
    requires n <= |s|
  {
    if n == 0 then []
    else if s[n - 1].id in IdsUpTo(s, n - 1) then DedupUpTo(s, n - 1)
    else DedupUpTo(s, n - 1) + [s[n - 1]]
  }

  lemma {:induction false} UpToIsPrefix(s: seq<Event>, n: nat)
    requires n <= |s|
    ensures IdsUpTo(s, n) == Ids(s[..n]) && DedupUpTo(s, n) == DedupById(s[..n])
  {
    if n != 0 {
      UpToIsPrefix(s, n - 1);
      DedupStep(s, n - 1);
    }
  }

  /** `a` starts with `kept` and still holds `s` from `i` on. */
  ghost predicate Squeezed(a: array<Event>, kept: seq<Event>, s: seq<Event>, i: nat)
    reads a
  {
    && |kept| <= i <= |s| == a.Length
    && (forall k :: 0 <= k < |kept| ==> a[k] == kept[k])
    && (forall k :: i <= k < |s| ==> a[k] == s[k])
  }

  method KeepNext(a: array<Event>, ghost kept: seq<Event>, s: seq<Event>, i: nat, w: nat)
    requires Squeezed(a, kept, s, i) && i < |s| && w == |kept|
    modifies a
    ensures Squeezed(a, kept + [s[i]], s, i + 1)
  {
    a[w] := a[i];
  }

  /** Squeezes the duplicates out inside the backing array of `contributing`, while the
      range loop is still reading that same array. */
  method CompactInPlace(contributing: seq<Event>) returns (backing: array<Event>, w: nat)
    ensures fresh(backing) && w <= backing.Length
    ensures backing[..w] == DedupById(contributing)
  {
    backing := CopyOf(contributing);
    var seen: set<string> := {};
    w := 0;
    ghost var kept: seq<Event> := [];
    for i := 0 to |contributing|
      invariant w == |kept| && kept == DedupUpTo(contributing, i)
      invariant seen == IdsUpTo(contributing, i)
      invariant Squeezed(backing, kept, contributing, i)
    {
      var id := backing[i].id;
      if id !in seen {
        seen := seen + {id};
        KeepNext(backing, kept, contributing, i, w);
        kept := kept + [contributing[i]];
        w := w + 1;
      }
    }
    UpToIsPrefix(contributing, |contributing|);
    assert contributing[..|contributing|] == contributing;
    assert backing[..w] == kept;
  }

  method MatchRuleInPlace(rule: Rule, events: seq<Event>) returns (unique: seq<Event>, fired: bool)
    ensures fired <==> MatchRule(rule, events).Some?
    ensures fired ==> unique == MatchRule(rule, events).value
  {
    var conds := rule.conditions;
    var contributing: seq<Event> := [];
    for c := 0 to |conds|
      invariant contributing == Contributing(conds[..c], events)
      invariant forall i :: 0 <= i < c ==> |Hits(conds[i], events)| >= Required(rule, conds[i])
      invariant c > 0 ==> |contributing| > 0
    {
      var cond := conds[c];
      var hits := CollectHits(cond, events);
      var required := cond.minCount;
      if required <= 0 {
        required := 1;
      }
      if rule.threshold > 0 && required < rule.threshold {
        required := rule.threshold;
      }
      assert required == Required(rule, cond);
      if |hits| < required {
        return [], false;
      }
      contributing := contributing + hits;
      assert conds[..c + 1][..c] == conds[..c];
    }
    assert conds[..|conds|] == conds;
    if |contributing| == 0 {
      return [], false;
    }
    var backing, w := CompactInPlace(contributing);
    unique := backing[..w];
    fired := true;
  }

  // ---- exactness ---------------------------------------------------------

  /** The position of the first event carrying `id`. */
  ghost function FirstAt(s: seq<Event>, id: string): (k: nat)
    requires id in Ids(s)
    ensures k < |s| && s[k].id == id && id !in Ids(s[..k])
  {
    var n := |s| - 1;
    if id in Ids(s[..n]) then
      var k := FirstAt(s[..n], id);
      assert s[..n][..k] == s[..k];
      k
    else n
  }

  ghost predicate InFirstPlace(e: Event, s: seq<Event>) {
    e.id in Ids(s) && s[FirstAt(s, e.id)] == e
  }

  ghost predicate Before(e: Event, f: Event, s: seq<Event>) {
    e.id in Ids(s) && f.id in Ids(s) && FirstAt(s, e.id) < FirstAt(s, f.id)
  }

  ghost predicate KeepsFirstOccurrences(r: seq<Event>, s: seq<Event>) {
    && Ids(r) == Ids(s)
    && (forall i :: 0 <= i < |r| ==> InFirstPlace(r[i], s))
    && (forall i, j :: 0 <= i < j < |r| ==> Before(r[i], r[j], s))
  }

  lemma {:induction false} DedupKeepsFirst(s: seq<Event>)
    ensures KeepsFirstOccurrences(DedupById(s), s)
  {
    if |s| != 0 {
      var n := |s| - 1;
      var init, r := s[..n], DedupById(s);
      DedupKeepsFirst(init);
      DedupElements(s);
      var r0 := DedupById(init);
      forall i | 0 <= i < |r0|
        ensures InFirstPlace(r0[i], s) && FirstAt(s, r0[i].id) == FirstAt(init, r0[i].id)
      {
        assert InFirstPlace(r0[i], init);
      }
      forall i, j | 0 <= i < j < |r0| ensures Before(r0[i], r0[j], s) {
        assert Before(r0[i], r0[j], init);
      }
    }
  }

  lemma FirstPlacesDistinct(r: seq<Event>, s: seq<Event>)
    requires KeepsFirstOccurrences(r, s)
    ensures forall i, j :: 0 <= i < j < |r| ==> r[i].id != r[j].id
  {
    forall i, j | 0 <= i < j < |r| ensures r[i].id != r[j].id {
      assert Before(r[i], r[j], s);
    }
  }

  /** A rule fires exactly when it has a condition and each condition has enough hits;
      its result carries each ID once, the IDs are exactly those of the events matching
      some condition, and events appear in the order of their first contribution. */
  lemma MatchRuleExact(rule: Rule, events: seq<Event>)
    ensures MatchRule(rule, events).Some? <==>
              |rule.conditions| > 0
              && forall i :: 0 <= i < |rule.conditions| ==>
                   var c := rule.conditions[i];
                   |Hits(c, events)| >= Max(1, Max(c.minCount, rule.threshold))
    ensures MatchRule(rule, events).Some? ==>
              ExactMatch(rule, events, MatchRule(rule, events).value)
  {
    if MatchRule(rule, events).Some? {
      MatchIsExact(rule, events);
    }
  }

  lemma MatchIsExact(rule: Rule, events: seq<Event>)
    requires MatchRule(rule, events).Some?
    ensures ExactMatch(rule, events, MatchRule(rule, events).value)
  {
    var all := Contributing(rule.conditions, events);
    DedupKeepsFirst(all);
    DedupElements(all);
    FirstPlacesDistinct(DedupById(all), all);
    ContributingElements(rule.conditions, events);
    MatchedIds(rule, events);
    MatchNonEmpty(rule, events);
  }

  ghost predicate ExactMatch(rule: Rule, events: seq<Event>, r: seq<Event>) {
    && |r| > 0
    && (forall i, j :: 0 <= i < j < |r| ==> r[i].id != r[j].id)
    && (forall e :: e in r ==> e in events && MatchesSome(rule, e))
    && (forall id :: id in Ids(r) <==> exists e :: e in events && e.id == id && MatchesSome(rule, e))
    && KeepsFirstOccurrences(r, Contributing(rule.conditions, events))
  }

  lemma MatchedIds(rule: Rule, events: seq<Event>)
    ensures forall id :: id in Ids(Contributing(rule.conditions, events)) <==>
              exists e :: e in events && e.id == id && MatchesSome(rule, e)
  {
    var all := Contributing(rule.conditions, events);
    ContributingElements(rule.conditions, events);
    forall id ensures id in Ids(all) <==> exists e :: e in events && e.id == id && MatchesSome(rule, e) {
      if id in Ids(all) {
        var e := IdWitness(all, id);
        assert MatchesSome(rule, e);
      }
      IdsContain(all);
      if e :| e in events && e.id == id && MatchesSome(rule, e) {
        assert e in all;
      }
    }
  }

  lemma MatchNonEmpty(rule: Rule, events: seq<Event>)
    requires MatchRule(rule, events).Some?
    ensures |MatchRule(rule, events).value| > 0
  {
    var first := rule.conditions[0];
    ContributingElements(rule.conditions, events);
    FilterElements(events, Satisfies(first));
    var hit := Hits(first, events)[0];
    assert hit in Hits(first, events);
    var all := Contributing(rule.conditions, events);
    assert MatchCondition(first, hit);
    assert hit in all;
    IdsContain(all);
    DedupElements(all);
  }

  ghost predicate MatchesSome(rule: Rule, e: Event) {
    exists i :: 0 <= i < |rule.conditions| && MatchCondition(rule.conditions[i], e)
  }

  /** Adding events, anywhere and in any order, never un-fires a rule. */
  lemma MatchRuleMonotone(rule: Rule, a: seq<Event>, b: seq<Event>)
    requires multiset(a) <= multiset(b)
    requires MatchRule(rule, a).Some?
    ensures MatchRule(rule, b).Some?
  {
    forall i | 0 <= i < |rule.conditions|
      ensures |Hits(rule.conditions[i], b)| >= Required(rule, rule.conditions[i])
    {
      FilterMonotone(a, b, Satisfies(rule.conditions[i]));
    }
  }

  lemma MatchNothing(rule: Rule)
    ensures MatchRule(rule, []) == None
  {
    if |rule.conditions| > 0 {
      assert |Hits(rule.conditions[0], [])| == 0;
    }
  }

  // ---- thresholds count deliveries, not distinct events --------------------

  ghost predicate DistinctIds(s: seq<Event>) {
    forall i, j :: 0 <= i < j < |s| ==> s[i].id != s[j].id
  }

  lemma {:induction false} DistinctIdsCount(s: seq<Event>)
    requires DistinctIds(s)
    ensures |Ids(s)| == |s|
  {
    if |s| != 0 {
      var init, last := s[..|s| - 1], s[|s| - 1];
      DistinctIdsCount(init);
      if last.id in Ids(init) {
        var e := IdWitness(init, last.id);
        assert false;
      }
    }
  }

  lemma {:induction false} FilterDistinctIds(s: seq<Event>, p: Event -> bool)
    requires DistinctIds(s)
    ensures DistinctIds(Filter(s, p))
  {
    if |s| != 0 {
      var init, last := s[..|s| - 1], s[|s| - 1];
      FilterDistinctIds(init, p);
      FilterElements(init, p);
      var f := Filter(init, p);
      forall i | 0 <= i < |f| ensures f[i].id != last.id {
        assert f[i] in init;
        var k :| 0 <= k < |init| && init[k] == f[i];
        assert s[k].id != s[|s| - 1].id;
      }
    }
  }

  /** The IDs whose first contribution to the rule satisfies the condition. */
  ghost function FirstHits(rule: Rule, events: seq<Event>, c: Condition): set<string> {
    var all := Contributing(rule.conditions, events);
    set id | id in Ids(all) && MatchCondition(c, all[FirstAt(all, id)])
  }

  lemma {:induction false} DedupKeepsOnlyFirst(s: seq<Event>, p: Event -> bool, id: string)
    ensures id in Ids(Filter(DedupById(s), p)) <==> id in Ids(s) && p(s[FirstAt(s, id)])
  {
    var r := DedupById(s);
    DedupKeepsFirst(s);
    FilterElements(r, p);
    if id in Ids(Filter(r, p)) {
      var e := IdWitness(Filter(r, p), id);
      assert e in r;
      var i :| 0 <= i < |r| && r[i] == e;
      assert InFirstPlace(r[i], s);
    }
    if id in Ids(s) && p(s[FirstAt(s, id)]) {
      var e := IdWitness(r, id);
      var i :| 0 <= i < |r| && r[i] == e;
      assert InFirstPlace(r[i], s);
      IdsContain(Filter(r, p));
    }
  }

  /** The hits of one condition among the deduplicated events of a fired rule. */
  lemma HitsAfterDedup(rule: Rule, events: seq<Event>, c: Condition)
    requires MatchRule(rule, events).Some?
    ensures |Hits(c, MatchRule(rule, events).value)| == |FirstHits(rule, events, c)|
  {
    var all := Contributing(rule.conditions, events);
    var kept := Hits(c, DedupById(all));
    DedupKeepsFirst(all);
    FirstPlacesDistinct(DedupById(all), all);
    FilterDistinctIds(DedupById(all), Satisfies(c));
    DistinctIdsCount(kept);
    forall id ensures id in Ids(kept) <==> id in FirstHits(rule, events, c) {
      DedupKeepsOnlyFirst(all, Satisfies(c), id);
    }
    assert Ids(kept) == FirstHits(rule, events, c);
  }

  /** A threshold counts deliveries: the events an incident keeps meet its own rule exactly
      when, for every condition, enough IDs have a first contribution that satisfies it. */
  lemma IncidentMeetsItsRuleIff(rule: Rule, events: seq<Event>)
    requires MatchRule(rule, events).Some?
    ensures MatchRule(rule, MatchRule(rule, events).value).Some? <==>
              forall i :: 0 <= i < |rule.conditions| ==>
                |FirstHits(rule, events, rule.conditions[i])| >= Required(rule, rule.conditions[i])
  {
    forall i | 0 <= i < |rule.conditions|
      ensures |Hits(rule.conditions[i], MatchRule(rule, events).value)|
              == |FirstHits(rule, events, rule.conditions[i])|
    {
      HitsAfterDedup(rule, events, rule.conditions[i]);
    }
  }

  lemma PairHits(c: Condition, x: Event, y: Event)
    requires MatchCondition(c, x) && MatchCondition(c, y)
    ensures Hits(c, [x, y]) == [x, y] && Hits(c, [x]) == [x]
    ensures Contributing([c], [x, y]) == [x, y]
  {
    FilterAll([x], Satisfies(c));
    FilterAll([x, y], Satisfies(c));
    assert [c][..0] == [];
  }

  lemma PairMatches(rule: Rule, c: Condition, x: Event, y: Event)
    requires rule.conditions == [c] && Required(rule, c) <= 2
    requires MatchCondition(c, x) && MatchCondition(c, y) && x.id == y.id
    ensures MatchRule(rule, [x, y]) == Some([x])
  {
    PairHits(c, x, y);
    DedupStep([x, y], 0);
    DedupStep([x, y], 1);
    assert [x, y][..0] == [] && [x, y][..2] == [x, y];
  }

  /** One event delivered twice satisfies a threshold of two, and the incident keeps one event. */
  lemma RedeliveryMeetsThreshold(rule: Rule, c: Condition, e: Event)
    requires rule.conditions == [c] && rule.threshold == 2 && c.minCount <= 2
    requires MatchCondition(c, e)
    ensures MatchRule(rule, [e, e]) == Some([e])
    ensures MatchRule(rule, [e]) == None
  {
    PairMatches(rule, c, e, e);
    PairHits(c, e, e);
  }
}
