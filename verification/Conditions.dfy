/** When an event satisfies a condition, letter by letter. */
module Conditions {
  import opened Sequences
  import opened Strings
  import opened Domain
  import opened Matching
  import opened DefaultRuleSet

  /** Equal up to ASCII case. */
  predicate SameLetter(a: char, b: char) {
    || a == b
    || ('A' <= a <= 'Z' && b as int == a as int + 32)
    || ('A' <= b <= 'Z' && a as int == b as int + 32)
  }

  /** `pattern` stands in `value` from position `k` on, up to case. */
  ghost predicate StandsAt(value: string, pattern: string, k: int) {
    0 <= k && k + |pattern| <= |value| && forall i :: 0 <= i < |pattern| ==> SameLetter(value[k + i], pattern[i])
  }

  /** Words with one space between neighbours. */
  function Spaced(words: seq<string>): string {
    if |words| == 0 then ""
    else if |words| == 1 then words[0]
    else Spaced(words[..|words| - 1]) + " " + words[|words| - 1]
  }

  const NAMED: set<string> :=
    {"title", "description", "source", "event_type", "mitre_tactic", "mitre_technique", "indicators"}

  /** The value of an event's field, one clause per field. */
  ghost predicate FieldIs(ev: Event, field: string, value: string) {
    && (field == "title" ==> value == ev.title)
    && (field == "description" ==> value == ev.description)
    && (field == "source" ==> value == ev.source)
    && (field == "event_type" ==> value == ev.etype)
    && (field == "mitre_tactic" ==> value == ev.tactic)
    && (field == "mitre_technique" ==> value == ev.technique)
    && (field == "indicators" ==> value == Spaced(ev.indicators))
    && (field !in NAMED ==> value == if field in ev.rawData then ev.rawData[field] else "")
  }

  // ---- letters ----------------------------------------------------------------------------

  function LowerLetter(c: char): char {
    if 'A' <= c <= 'Z' then c - 'A' + 'a' else c
  }

  lemma {:induction false} LowerAt(s: string, i: nat)
    requires i < |s|
    ensures ToLower(s)[i] == LowerLetter(s[i])
  {
    if i > 0 {
      LowerAt(s[1..], i - 1);
    }
  }

  lemma SameLetterIff(a: char, b: char)
    ensures SameLetter(a, b) <==> LowerLetter(a) == LowerLetter(b)
  {
  }

  ghost predicate OccursAt(s: string, sub: string, k: int) {
    0 <= k && k + |sub| <= |s| && forall i :: 0 <= i < |sub| ==> s[k + i] == sub[i]
  }

  lemma OccursLater(s: string, sub: string, k: int)
    requires |s| != 0 && k > 0
    ensures OccursAt(s, sub, k) <==> OccursAt(s[1..], sub, k - 1)
  {
    assert s == [s[0]] + s[1..];
  }

  lemma {:induction false} ContainsIff(s: string, sub: string)
    ensures Contains(s, sub) <==> exists k :: OccursAt(s, sub, k)
  {
    assert sub <= s <==> OccursAt(s, sub, 0);
    if |s| != 0 {
      ContainsIff(s[1..], sub);
      if k :| OccursAt(s[1..], sub, k) {
        OccursLater(s, sub, k + 1);
      }
      if k :| OccursAt(s, sub, k) && k != 0 {
        OccursLater(s, sub, k);
      }
    }
  }

  lemma StandsAtIff(value: string, pattern: string, k: int)
    ensures StandsAt(value, pattern, k) <==> OccursAt(ToLower(value), ToLower(pattern), k)
  {
    if 0 <= k && k + |pattern| <= |value| {
      forall i | 0 <= i < |pattern|
        ensures SameLetter(value[k + i], pattern[i]) <==> ToLower(value)[k + i] == ToLower(pattern)[i]
      {
        LowerAt(value, k + i);
        LowerAt(pattern, i);
        SameLetterIff(value[k + i], pattern[i]);
      }
    }
  }

  lemma FoundIff(value: string, pattern: string)
    ensures Contains(ToLower(value), ToLower(pattern)) <==> exists k :: StandsAt(value, pattern, k)
  {
    ContainsIff(ToLower(value), ToLower(pattern));
    forall k ensures StandsAt(value, pattern, k) <==> OccursAt(ToLower(value), ToLower(pattern), k) {
      StandsAtIff(value, pattern, k);
    }
  }

  // ---- fields -------------------------------------------------------------------------------

  lemma {:induction false} JoinSnoc(words: seq<string>, last: string, c: char)
    requires |words| > 0
    ensures Join(words + [last], c) == Join(words, c) + [c] + last
  {
    if |words| == 1 {
      assert (words + [last])[1..] == [last];
    } else {
      assert (words + [last])[1..] == words[1..] + [last];
      JoinSnoc(words[1..], last, c);
    }
  }

  lemma {:induction false} JoinIsSpaced(words: seq<string>)
    ensures Join(words, ' ') == Spaced(words)
  {
    if |words| > 1 {
      var init, last := words[..|words| - 1], words[|words| - 1];
      JoinIsSpaced(init);
      JoinSnoc(init, last, ' ');
      assert words == init + [last];
    }
  }

  lemma FieldExtracted(ev: Event, field: string, value: string)
    ensures FieldIs(ev, field, value) <==> value == ExtractFieldValue(ev, field)
  {
    JoinIsSpaced(ev.indicators);
  }

  /** A condition holds exactly when source and type agree or are wildcards, and each required
      field has the pattern standing somewhere in its value, up to ASCII case. */
  lemma MatchConditionIff(c: Condition, ev: Event)
    ensures MatchCondition(c, ev) <==>
              && (c.source == "" || c.source == "any" || c.source == ev.source)
              && (c.etype == "" || c.etype == "any" || c.etype == ev.etype)
              && forall f :: f in c.fieldMatch ==>
                   exists value, k :: FieldIs(ev, f, value) && StandsAt(value, c.fieldMatch[f], k)
  {
    forall f | f in c.fieldMatch
      ensures Contains(ToLower(ExtractFieldValue(ev, f)), ToLower(c.fieldMatch[f])) <==>
                exists value, k :: FieldIs(ev, f, value) && StandsAt(value, c.fieldMatch[f], k)
    {
      FieldFound(ev, f, c.fieldMatch[f]);
    }
  }

  lemma FieldFound(ev: Event, f: string, pattern: string)
    ensures Contains(ToLower(ExtractFieldValue(ev, f)), ToLower(pattern)) <==>
              exists value, k :: FieldIs(ev, f, value) && StandsAt(value, pattern, k)
  {
    var found := ExtractFieldValue(ev, f);
    FoundIff(found, pattern);
    FieldExtracted(ev, f, found);
    if value, k :| FieldIs(ev, f, value) && StandsAt(value, pattern, k) {
      FieldExtracted(ev, f, value);
    }
  }

  // ---- shipped conditions ---------------------------------------------------------------------

  /** A condition on one raw field asks for its pattern in that field. */
  lemma OneRawField(c: Condition, ev: Event, field: string, pattern: string)
    requires c.fieldMatch == map[field := pattern] && field !in NAMED && |pattern| > 0
    requires c.source == ev.source && c.etype == ev.etype
    ensures MatchCondition(c, ev) <==>
              field in ev.rawData && exists k :: StandsAt(ev.rawData[field], pattern, k)
  {
    MatchConditionIff(c, ev);
    FieldExtracted(ev, field, ExtractFieldValue(ev, field));
    FieldFound(ev, field, pattern);
    FoundIff(ExtractFieldValue(ev, field), pattern);
    assert field !in ev.rawData ==> forall k :: !StandsAt("", pattern, k);
  }

  /** No event without a direction ever satisfies the beaconing rule's condition. */
  lemma BeaconingNeedsDirection(ev: Event, i: nat)
    requires "direction" !in ev.rawData && i < |C2Beaconing().conditions|
    ensures !MatchCondition(C2Beaconing().conditions[i], ev)
  {
    MissingField(C2Beaconing().conditions[0], ev, "direction", "outbound");
  }

  lemma MissingField(c: Condition, ev: Event, field: string, pattern: string)
    requires c.fieldMatch == map[field := pattern] && field !in NAMED && |pattern| > 0 && field !in ev.rawData
    ensures !MatchCondition(c, ev)
  {
    OneRawField(c.(source := ev.source, etype := ev.etype), ev, field, pattern);
  }

  /** A process event satisfies the encoded-command condition exactly when its command line has
      "-enc" somewhere, in any case. */
  lemma EncodedCommandIff(ev: Event)
    requires ev.source == "coresec" && ev.etype == "process"
    ensures MatchCondition(DefenseEvasion().conditions[0], ev) <==>
              "cmdline" in ev.rawData && exists k :: StandsAt(ev.rawData["cmdline"], "-enc", k)
  {
    OneRawField(DefenseEvasion().conditions[0], ev, "cmdline", "-enc");
  }

  // ---- what no condition sees -------------------------------------------------------------------

  function Moved(events: seq<Event>, agents: seq<string>): seq<Event>
    requires |agents| == |events|
  {
    seq(|events|, i requires 0 <= i < |events| => events[i].(agent := agents[i]))
  }

  lemma AgentUnseen(c: Condition, e: Event, agent: string)
    ensures MatchCondition(c, e.(agent := agent)) == MatchCondition(c, e)
  {
    var moved := e.(agent := agent);
    forall f ensures ExtractFieldValue(moved, f) == ExtractFieldValue(e, f) {
    }
  }

  lemma MovedSnoc(events: seq<Event>, agents: seq<string>, e: Event, agent: string)
    requires |agents| == |events|
    ensures Moved(events + [e], agents + [agent]) == Moved(events, agents) + [e.(agent := agent)]
  {
  }

  lemma {:induction false} HitsMoved(c: Condition, events: seq<Event>, agents: seq<string>)
    requires |agents| == |events|
    ensures |Hits(c, Moved(events, agents))| == |Hits(c, events)|
  {
    if |events| != 0 {
      var n := |events| - 1;
      var e, agent, before := events[n], agents[n], Moved(events[..n], agents[..n]);
      HitsMoved(c, events[..n], agents[..n]);
      AgentUnseen(c, e, agent);
      FilterSnoc(before, e.(agent := agent), Satisfies(c));
      MovedSnoc(events[..n], agents[..n], e, agent);
      assert events == events[..n] + [e] && agents == agents[..n] + [agent];
    }
  }

  /** Whether a rule fires depends neither on the agents the events come from nor on their
      order: no rule can ask for events of one agent, or for one event followed by another. */
  lemma AgentsAndOrderIgnored(rule: Rule, events: seq<Event>, agents: seq<string>, shuffled: seq<Event>)
    requires |agents| == |events| && multiset(shuffled) == multiset(Moved(events, agents))
    ensures MatchRule(rule, shuffled).Some? <==> MatchRule(rule, events).Some?
  {
    forall i | 0 <= i < |rule.conditions|
      ensures |Hits(rule.conditions[i], Moved(events, agents))| == |Hits(rule.conditions[i], events)|
    {
      HitsMoved(rule.conditions[i], events, agents);
    }
    MatchRuleExact(rule, events);
    MatchRuleExact(rule, Moved(events, agents));
    if MatchRule(rule, shuffled).Some? {
      MatchRuleMonotone(rule, shuffled, Moved(events, agents));
    }
    if MatchRule(rule, Moved(events, agents)).Some? {
      MatchRuleMonotone(rule, Moved(events, agents), shuffled);
    }
  }
}
