/** Tenant identifiers in NATS subjects: `ValidateTenantID`, `NATSSubject`, `extractTenantID`,
    `matchesSubject` and the routing switch of `parseEvent`. */
module Subjects {
  import opened Sequences
  import opened Strings
  import opened Domain
  import opened EngineModel
  import opened Isolation

  predicate LowerAlnum(c: char) {
    'a' <= c <= 'z' || '0' <= c <= '9'
  }

  /** The pattern ^[a-z0-9][a-z0-9\-]{0,61}[a-z0-9]$. */
  predicate ValidTenantID(id: string) {
    && 2 <= |id| <= 63
    && LowerAlnum(id[0]) && LowerAlnum(id[|id| - 1])
    && forall i :: 0 <= i < |id| ==> LowerAlnum(id[i]) || id[i] == '-'
  }

  /** A letter or digit, up to 61 letters, digits and hyphens, and a letter or digit. */
  ghost predicate TenantPattern(id: string, a: char, middle: string, b: char) {
    && id == [a] + middle + [b] && |middle| <= 61 && LowerAlnum(a) && LowerAlnum(b)
    && forall i :: 0 <= i < |middle| ==> LowerAlnum(middle[i]) || middle[i] == '-'
  }

  /** The pattern, piece by piece. */
  lemma ValidTenantIDIff(id: string)
    ensures ValidTenantID(id) <==> exists a, middle, b :: TenantPattern(id, a, middle, b)
  {
    if ValidTenantID(id) {
      var middle := id[1..|id| - 1];
      assert TenantPattern(id, id[0], middle, id[|id| - 1]);
    }
    if a, middle, b :| TenantPattern(id, a, middle, b) {
      assert forall i :: 0 < i < |id| - 1 ==> id[i] == middle[i - 1];
    }
  }

  function Segments(tenant: string, category: string, class_: string): seq<string> {
    ["kubric", tenant, category, class_, "v1"]
  }

  function NATSSubject(tenant: string, category: string, class_: string): string {
    "kubric." + tenant + "." + category + "." + class_ + ".v1"
  }

  /** `strings.SplitN(subject, ".", 3)` and the checks that follow it. */
  function ExtractTenantID(subject: string): Option<string> {
    var i := IndexOf(subject, '.');
    if i == |subject| then None
    else
      var rest := subject[i + 1..];
      var j := IndexOf(rest, '.');
      if j == |rest| || subject[..i] != "kubric" || rest[..j] == "" then None
      else Some(rest[..j])
  }

  predicate MatchesSubject(subject: string, pattern: string) {
    var sp, pp := Split(subject, '.'), Split(pattern, '.');
    |sp| == |pp| && forall i :: 0 <= i < |pp| ==> pp[i] == "*" || pp[i] == sp[i]
  }

  /** The (category, class) pairs of the engine's eight subscriptions, in routing order. */
  const ROUTES: seq<(string, string)> := [
    ("endpoint", "process"),
    ("endpoint", "fim"),
    ("network", "activity"),
    ("detection", "network_ids"),
    ("detection", "threshold"),
    ("wazuh", "alert"),
    ("falco", "alert"),
    ("suricata", "alert")]

  function Pattern(i: nat): string
    requires i < |ROUTES|
  {
    NATSSubject("*", ROUTES[i].0, ROUTES[i].1)
  }

  function FirstRoute(subject: string, from: nat): Option<nat>
    requires from <= |ROUTES|
    decreases |ROUTES| - from
  {
    if from == |ROUTES| then None
    else if MatchesSubject(subject, Pattern(from)) then Some(from)
    else FirstRoute(subject, from + 1)
  }

  /** Which parser `parseEvent` picks, and the tenant it hands over. */
  function ParseSubject(subject: string): Option<(string, nat)> {
    match ExtractTenantID(subject)
    case None => None
    case Some(tenant) =>
      match FirstRoute(subject, 0)
      case None => None
      case Some(i) => Some((tenant, i))
  }

  // ---- segments -------------------------------------------------------------------------

  lemma JoinThree(a: string, b: string, c: string)
    ensures Join([a, b, c], '.') == a + "." + b + "." + c
  {
    assert [a, b, c][1..] == [b, c];
    assert [b, c][1..] == [c];
    assert Join([b, c], '.') == b + ['.'] + c;
  }

  lemma SubjectIsJoin(t: string, category: string, class_: string)
    ensures NATSSubject(t, category, class_) == Join(Segments(t, category, class_), '.')
  {
    var s := Segments(t, category, class_);
    var tail := category + "." + class_ + "." + "v1";
    JoinThree(category, class_, "v1");
    assert s[1..] == [t, category, class_, "v1"];
    assert s[1..][1..] == [category, class_, "v1"];
    assert Join(s[1..], '.') == t + ['.'] + tail;
    assert Join(s, '.') == "kubric" + ['.'] + (t + ['.'] + tail);
    assert class_ + "." + "v1" == class_ + ".v1";
    assert tail == category + "." + class_ + ".v1";
  }

  lemma SubjectSplits(t: string, category: string, class_: string)
    requires '.' !in t && '.' !in category && '.' !in class_
    ensures Split(NATSSubject(t, category, class_), '.') == Segments(t, category, class_)
  {
    SubjectIsJoin(t, category, class_);
    SplitJoin(Segments(t, category, class_), '.');
  }

  lemma RoutesPlain(i: nat)
    requires i < |ROUTES|
    ensures '.' !in ROUTES[i].0 && '.' !in ROUTES[i].1
    ensures ROUTES[i].0 != "*" && ROUTES[i].1 != "*"
  {
  }

  lemma RoutesDiffer(i: nat, j: nat)
    requires i < |ROUTES| && j < |ROUTES| && ROUTES[i] == ROUTES[j]
    ensures i == j
  {
    assert ROUTES[0].1[0] != ROUTES[1].1[0];
    assert ROUTES[3].1[0] != ROUTES[4].1[0];
    assert ROUTES[5].0[0] != ROUTES[6].0[0] && ROUTES[6].0[0] != ROUTES[7].0[0] && ROUTES[5].0[0] != ROUTES[7].0[0];
    assert ROUTES[0].0[0] == 'e' && ROUTES[2].0[0] == 'n' && ROUTES[3].0[0] == 'd' && ROUTES[5].0[0] == 'w';
  }

  lemma ShapeIsSubject(subject: string, category: string, class_: string)
    requires var sp := Split(subject, '.'); |sp| == 5 && sp == Segments(sp[1], category, class_)
    ensures subject == NATSSubject(Split(subject, '.')[1], category, class_)
  {
    JoinSplit(subject, '.');
    SubjectIsJoin(Split(subject, '.')[1], category, class_);
  }

  lemma MatchHasShape(subject: string, category: string, class_: string)
    requires '.' !in category && '.' !in class_ && category != "*" && class_ != "*"
    requires MatchesSubject(subject, NATSSubject("*", category, class_))
    ensures var sp := Split(subject, '.');
            |sp| == 5 && '.' !in sp[1] && subject == NATSSubject(sp[1], category, class_)
  {
    var sp := Split(subject, '.');
    SubjectSplits("*", category, class_);
    assert |sp| == 5;
    assert sp[0] == "kubric" && sp[2] == category && sp[3] == class_ && sp[4] == "v1";
    ShapeIsSubject(subject, category, class_);
  }

  lemma ShapeMatches(t: string, category: string, class_: string)
    requires '.' !in t && '.' !in category && '.' !in class_
    ensures MatchesSubject(NATSSubject(t, category, class_), NATSSubject("*", category, class_))
  {
    SubjectSplits("*", category, class_);
    SubjectSplits(t, category, class_);
  }

  /** A subject matches a pattern exactly when it has its shape: any tenant segment, and the
      pattern's category and class. */
  lemma MatchesExactly(subject: string, i: nat)
    requires i < |ROUTES|
    ensures MatchesSubject(subject, Pattern(i)) <==>
              exists t :: '.' !in t && subject == NATSSubject(t, ROUTES[i].0, ROUTES[i].1)
  {
    var (category, class_) := ROUTES[i];
    RoutesPlain(i);
    if MatchesSubject(subject, Pattern(i)) {
      MatchHasShape(subject, category, class_);
      assert '.' !in Split(subject, '.')[1];
    }
    if t :| '.' !in t && subject == NATSSubject(t, category, class_) {
      ShapeMatches(t, category, class_);
    }
  }

  /** Each subject matches at most one of the eight patterns. */
  lemma AtMostOnePattern(subject: string, i: nat, j: nat)
    requires i < |ROUTES| && j < |ROUTES|
    requires MatchesSubject(subject, Pattern(i)) && MatchesSubject(subject, Pattern(j))
    ensures i == j
  {
    MatchesExactly(subject, i);
    MatchesExactly(subject, j);
    var t :| '.' !in t && subject == NATSSubject(t, ROUTES[i].0, ROUTES[i].1);
    var u :| '.' !in u && subject == NATSSubject(u, ROUTES[j].0, ROUTES[j].1);
    RoutesPlain(i);
    RoutesPlain(j);
    SubjectSplits(t, ROUTES[i].0, ROUTES[i].1);
    SubjectSplits(u, ROUTES[j].0, ROUTES[j].1);
    SameSegments(t, ROUTES[i].0, ROUTES[i].1, u, ROUTES[j].0, ROUTES[j].1);
    RoutesDiffer(i, j);
  }

  lemma SameSegments(t: string, c: string, k: string, u: string, d: string, l: string)
    requires Segments(t, c, k) == Segments(u, d, l)
    ensures t == u && c == d && k == l
  {
    var s := Segments(t, c, k);
    assert t == s[1] && c == s[2] && k == s[3];
  }

  /** `extractTenantID` inverts `NATSSubject` exactly for non-empty tenants without a dot. */
  lemma ExtractInvertsSubject(t: string, category: string, class_: string)
    ensures ExtractTenantID(NATSSubject(t, category, class_)) == Some(t) <==> t != "" && '.' !in t
  {
    var subject := NATSSubject(t, category, class_);
    var rest := t + ['.'] + (category + "." + class_ + ".v1");
    assert subject == "kubric" + ['.'] + rest;
    IndexOfFirst("kubric", '.', rest);
    assert subject[..6] == "kubric" && subject[7..] == rest;
    if '.' !in t {
      IndexOfFirst(t, '.', category + "." + class_ + ".v1");
      assert rest[..|t|] == t;
    }
  }

  lemma {:induction false} FirstRouteFinds(subject: string, i: nat, from: nat)
    requires from <= i < |ROUTES| && MatchesSubject(subject, Pattern(i))
    ensures FirstRoute(subject, from) == Some(i)
    decreases i - from
  {
    if MatchesSubject(subject, Pattern(from)) {
      AtMostOnePattern(subject, from, i);
    } else {
      FirstRouteFinds(subject, i, from + 1);
    }
  }

  lemma {:induction false} FirstRouteMatches(subject: string, from: nat)
    requires from <= |ROUTES| && FirstRoute(subject, from).Some?
    ensures var i := FirstRoute(subject, from).value; i < |ROUTES| && MatchesSubject(subject, Pattern(i))
    decreases |ROUTES| - from
  {
    if !MatchesSubject(subject, Pattern(from)) {
      FirstRouteMatches(subject, from + 1);
    }
  }

  /** Routing inverts subject building: a subject is accepted for tenant t and parser i exactly
      when it is the subject built from t and the i-th category and class. */
  lemma RoutingInvertsBuilding(subject: string, t: string, i: nat)
    requires i < |ROUTES|
    ensures ParseSubject(subject) == Some((t, i)) <==>
              t != "" && '.' !in t && subject == NATSSubject(t, ROUTES[i].0, ROUTES[i].1)
  {
    if ParseSubject(subject) == Some((t, i)) {
      FirstRouteMatches(subject, 0);
      MatchesExactly(subject, i);
      var u :| '.' !in u && subject == NATSSubject(u, ROUTES[i].0, ROUTES[i].1);
      TenantInSubject(u, ROUTES[i].0, ROUTES[i].1);
      ExtractInvertsSubject(u, ROUTES[i].0, ROUTES[i].1);
    }
    if t != "" && '.' !in t && subject == NATSSubject(t, ROUTES[i].0, ROUTES[i].1) {
      MatchesExactly(subject, i);
      FirstRouteFinds(subject, i, 0);
      ExtractInvertsSubject(t, ROUTES[i].0, ROUTES[i].1);
    }
  }

  /** The routing table, written out. */
  function RouteOf(category: string, class_: string): Option<nat> {
    match category
    case "endpoint" => if class_ == "process" then Some(0) else if class_ == "fim" then Some(1) else None
    case "network" => if class_ == "activity" then Some(2) else None
    case "detection" => if class_ == "network_ids" then Some(3) else if class_ == "threshold" then Some(4) else None
    case "wazuh" => if class_ == "alert" then Some(5) else None
    case "falco" => if class_ == "alert" then Some(6) else None
    case "suricata" => if class_ == "alert" then Some(7) else None
    case _ => None
  }

  lemma RouteOfIff(category: string, class_: string, i: nat)
    requires i < |ROUTES|
    ensures RouteOf(category, class_) == Some(i) <==> ROUTES[i] == (category, class_)
  {
    RouteOfRoute(i);
    if RouteOf(category, class_) == Some(i) && ROUTES[i] != (category, class_) {
      assert false;
    }
  }

  lemma RouteOfRoute(i: nat)
    requires i < |ROUTES|
    ensures RouteOf(ROUTES[i].0, ROUTES[i].1) == Some(i)
  {
  }

  lemma ParsedInRange(subject: string, t: string, i: nat)
    requires ParseSubject(subject) == Some((t, i))
    ensures i < |ROUTES|
  {
    FirstRouteMatches(subject, 0);
  }

  lemma RoutedAs(t: string, category: string, class_: string, u: string, i: nat)
    requires '.' !in t && '.' !in category && '.' !in class_ && i < |ROUTES|
    ensures ParseSubject(NATSSubject(t, category, class_)) == Some((u, i)) <==>
              t != "" && u == t && ROUTES[i] == (category, class_)
  {
    var (c, k) := ROUTES[i];
    RoutingInvertsBuilding(NATSSubject(t, category, class_), u, i);
    RoutesPlain(i);
    if '.' !in u && NATSSubject(t, category, class_) == NATSSubject(u, c, k) {
      SubjectSplits(t, category, class_);
      SubjectSplits(u, c, k);
      SameSegments(t, category, class_, u, c, k);
    }
  }

  lemma RouteInRange(category: string, class_: string)
    ensures RouteOf(category, class_).Some? ==> RouteOf(category, class_).value < |ROUTES|
  {
  }

  lemma RoutedByTable(t: string, category: string, class_: string, u: string, i: nat)
    requires '.' !in t && '.' !in category && '.' !in class_ && i < |ROUTES|
    ensures ParseSubject(NATSSubject(t, category, class_)) == Some((u, i)) <==>
              t != "" && u == t && RouteOf(category, class_) == Some(i)
  {
    RoutedAs(t, category, class_, u, i);
    RouteOfIff(category, class_, i);
  }

  /** A dotted subject reaches a parser by its category and class as the table says, with its
      tenant if it has one. */
  lemma Routed(subject: string, t: string, category: string, class_: string, u: string, i: nat)
    requires '.' !in t && '.' !in category && '.' !in class_
    requires subject == Join(["kubric", t, category, class_, "v1"], '.')
    ensures ParseSubject(subject) == Some((u, i)) <==> t != "" && u == t && RouteOf(category, class_) == Some(i)
  {
    SubjectIsJoin(t, category, class_);
    assert subject == NATSSubject(t, category, class_);
    RouteInRange(category, class_);
    if i < |ROUTES| {
      RoutedByTable(t, category, class_, u, i);
    } else if ParseSubject(subject) == Some((u, i)) {
      ParsedInRange(subject, u, i);
    }
  }

  /** The empty tenant is refused. */
  lemma TenantInSubject(t: string, category: string, class_: string)
    requires '.' !in t && ExtractTenantID(NATSSubject(t, category, class_)).Some?
    ensures t != ""
  {
    if t == "" {
      EmptyTenantRefused(category, class_);
    }
  }

  lemma EmptyTenantRefused(category: string, class_: string)
    ensures ExtractTenantID(NATSSubject("", category, class_)) == None
  {
    var subject := NATSSubject("", category, class_);
    var tail := category + "." + class_ + ".v1";
    var rest := "" + ['.'] + tail;
    assert subject == "kubric" + ['.'] + rest;
    IndexOfFirst("kubric", '.', rest);
    assert subject[7..] == rest;
    IndexOfFirst("", '.', tail);
  }

  /** A validated tenant round-trips through the subject and through the buffer key, and no
      separator of key or fingerprint can occur in it. */
  lemma ValidatedTenantRoundTrips(t: string, i: nat, e: Event)
    requires ValidTenantID(t) && i < |ROUTES| && e.tenant == t
    ensures ParseSubject(NATSSubject(t, ROUTES[i].0, ROUTES[i].1)) == Some((t, i))
    ensures TenantOfKey(BufferKey(e)) == Some(t)
    ensures ':' !in t && '|' !in t
  {
    ValidChars(t);
    RoutingInvertsBuilding(NATSSubject(t, ROUTES[i].0, ROUTES[i].1), t, i);
    KeyRoundTrip(e);
  }

  lemma ValidChars(t: string)
    requires ValidTenantID(t)
    ensures t != "" && '.' !in t && ':' !in t && '|' !in t
  {
  }

  /** But validation is not part of routing: a tenant segment with a colon is accepted, and its
      events are then filed under the tenant named before that colon. */
  lemma RoutingAcceptsColon(t: string, i: nat, e: Event)
    requires ':' in t && '.' !in t && i < |ROUTES| && e.tenant == t
    ensures ParseSubject(NATSSubject(t, ROUTES[i].0, ROUTES[i].1)) == Some((t, i))
    ensures !ValidTenantID(t)
    ensures TenantOfKey(BufferKey(e)) == Some(t[..IndexOf(t, ':')]) && TenantOfKey(BufferKey(e)) != Some(t)
  {
    RoutingInvertsBuilding(NATSSubject(t, ROUTES[i].0, ROUTES[i].1), t, i);
    ColonMisfiles(e);
  }
}
