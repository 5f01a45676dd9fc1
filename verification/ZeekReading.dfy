/** What the reader makes of any line: short and long ones, marks, spaces and line ends. */
module ZeekReading {
  import opened Strings
  import opened Zeek
  import opened ZeekRoundTrip

  // ---- cells ----------------------------------------------------------------------------------

  function Rejoined(pieces: seq<string>, sep: string): string {
    if |pieces| == 0 then "" else if |pieces| == 1 then pieces[0] else pieces[0] + sep + Rejoined(pieces[1..], sep)
  }

  /** `sep` occurs in `s` at `k`. */
  predicate OccursAt(s: string, sep: string, k: nat) {
    k + |sep| <= |s| && s[k..k + |sep|] == sep
  }

  /** The separator behind `s` is the first one. */
  ghost predicate EndsFirst(s: string, sep: string) {
    forall k: nat :: k < |s| ==> !OccursAt(s + sep, sep, k)
  }

  ghost predicate Lacks(s: string, sep: string) {
    forall k: nat :: !OccursAt(s, sep, k)
  }

  /** The pieces between successive separators, found from the left. */
  ghost predicate Pieces(pieces: seq<string>, s: string, sep: string) {
    && |pieces| >= 1 && Rejoined(pieces, sep) == s
    && (forall i :: 0 <= i < |pieces| - 1 ==> EndsFirst(pieces[i], sep))
    && Lacks(pieces[|pieces| - 1], sep)
  }

  lemma {:induction false} FindIsFirst(s: string, sep: string, k: nat)
    requires |sep| > 0 && OccursAt(s, sep, k)
    ensures Find(s, sep) <= k
  {
    if k == 0 {
      assert s[..|sep|] == sep;
    } else if !(sep <= s) {
      assert s[1..][k - 1..k - 1 + |sep|] == s[k..k + |sep|];
      FindIsFirst(s[1..], sep, k - 1);
    }
  }

  lemma FindPiece(p: string, sep: string, rest: string)
    requires |sep| > 0 && EndsFirst(p, sep)
    ensures Find(p + sep + rest, sep) == |p|
  {
    var s := p + sep + rest;
    assert s[|p|..|p| + |sep|] == sep;
    FindIsFirst(s, sep, |p|);
    var i := Find(s, sep);
    if i < |p| {
      assert s[i..i + |sep|] == (p + sep)[i..i + |sep|];
      assert OccursAt(p + sep, sep, i);
    }
  }

  lemma FoundEnds(s: string, sep: string)
    requires |sep| > 0 && Find(s, sep) < |s|
    ensures EndsFirst(s[..Find(s, sep)], sep)
  {
    var i := Find(s, sep);
    var start := s[..i] + sep;
    assert start == s[..i + |sep|];
    forall k: nat | k < i ensures !OccursAt(start, sep, k) {
      if OccursAt(start, sep, k) {
        OccursInPrefix(s, sep, i + |sep|, k);
        FindIsFirst(s, sep, k);
      }
    }
  }

  lemma OccursInPrefix(s: string, sep: string, n: nat, k: nat)
    requires n <= |s| && OccursAt(s[..n], sep, k)
    ensures OccursAt(s, sep, k)
  {
    assert s[..n][k..k + |sep|] == s[k..k + |sep|];
  }

  lemma NotFound(s: string, sep: string)
    requires |sep| > 0 && Find(s, sep) == |s|
    ensures Lacks(s, sep)
  {
    if k: nat :| OccursAt(s, sep, k) {
      FindIsFirst(s, sep, k);
    }
  }

  lemma CutAt(s: string, sep: string, i: nat)
    requires OccursAt(s, sep, i)
    ensures s == s[..i] + sep + s[i + |sep|..]
  {
  }

  lemma {:induction false} SplitGivesPieces(s: string, sep: string)
    requires |sep| > 0
    ensures Pieces(SplitOn(s, sep), s, sep)
    decreases |s|
  {
    var i := Find(s, sep);
    if i == |s| {
      NotFound(s, sep);
    } else {
      var p, rest := s[..i], s[i + |sep|..];
      SplitGivesPieces(rest, sep);
      FoundEnds(s, sep);
      PiecesCons(p, SplitOn(rest, sep), rest, sep);
      CutAt(s, sep, i);
    }
  }

  lemma PiecesCons(p: string, pieces: seq<string>, rest: string, sep: string)
    requires Pieces(pieces, rest, sep) && EndsFirst(p, sep)
    ensures Pieces([p] + pieces, p + sep + rest, sep)
  {
    var all := [p] + pieces;
    assert all[1..] == pieces && all[|all| - 1] == pieces[|pieces| - 1];
    assert forall i :: 1 <= i < |all| ==> all[i] == pieces[i - 1];
  }

  lemma LacksNotFound(s: string, sep: string)
    requires |sep| > 0 && Lacks(s, sep)
    ensures Find(s, sep) == |s|
  {
    var i: nat := Find(s, sep);
    assert !OccursAt(s, sep, i);
  }

  lemma PiecesTail(pieces: seq<string>, sep: string)
    requires |pieces| > 1 && Pieces(pieces, Rejoined(pieces, sep), sep)
    ensures Pieces(pieces[1..], Rejoined(pieces[1..], sep), sep)
  {
    assert forall i :: 0 <= i < |pieces| - 1 ==> pieces[1..][i] == pieces[i + 1];
  }

  lemma {:induction false} PiecesAreSplit(pieces: seq<string>, s: string, sep: string)
    requires |sep| > 0 && Pieces(pieces, s, sep)
    ensures SplitOn(s, sep) == pieces
    decreases |pieces|
  {
    if |pieces| == 1 {
      LacksNotFound(s, sep);
    } else {
      var p, rest := pieces[0], Rejoined(pieces[1..], sep);
      assert s == p + sep + rest;
      FindPiece(p, sep, rest);
      assert s[..|p|] == p && s[|p| + |sep|..] == rest;
      PiecesTail(pieces, sep);
      PiecesAreSplit(pieces[1..], rest, sep);
    }
  }

  /** Splitting gives the pieces between successive separators, and nothing else. */
  lemma SplitOnIff(s: string, sep: string, pieces: seq<string>)
    requires |sep| > 0
    ensures SplitOn(s, sep) == pieces <==> Pieces(pieces, s, sep)
  {
    SplitGivesPieces(s, sep);
    if Pieces(pieces, s, sep) {
      PiecesAreSplit(pieces, s, sep);
    }
  }

  // ---- rows -------------------------------------------------------------------------------------

  /** What field `i` of a line with these cells holds. */
  ghost predicate CellRead(h: Header, cells: seq<string>, i: nat, value: string) {
    if i >= |cells| || cells[i] == h.unsetField || cells[i] == h.emptyField then value == "" else value == cells[i]
  }

  /** No later field has the name of field `i`. */
  ghost predicate LastNamed(fields: seq<string>, i: nat) {
    i < |fields| && forall j :: i < j < |fields| ==> fields[j] != fields[i]
  }

  ghost predicate PlaceReads(row: Row, h: Header, fields: seq<string>, cells: seq<string>, i: nat) {
    LastNamed(fields, i) ==> fields[i] in row && CellRead(h, cells, i, row[fields[i]])
  }

  ghost predicate HasFields(row: Row, fields: seq<string>) {
    forall f :: f in row <==> f in fields
  }

  /** The row has exactly the header's fields; where a name repeats, its last place counts. */
  ghost predicate RowReads(row: Row, h: Header, fields: seq<string>, cells: seq<string>) {
    && HasFields(row, fields)
    && forall i: nat :: PlaceReads(row, h, fields, cells, i)
  }

  lemma RowReadsSnoc(row: Row, h: Header, fields: seq<string>, cells: seq<string>, f: string, value: string)
    requires RowReads(row, h, fields, cells) && CellRead(h, cells, |fields|, value)
    ensures RowReads(row[f := value], h, fields + [f], cells)
  {
    var all, longer := fields + [f], row[f := value];
    forall i: nat ensures PlaceReads(longer, h, all, cells, i) {
      if LastNamed(all, i) && i < |fields| {
        assert all[|fields|] == f;
        assert forall j :: i < j < |fields| ==> all[j] == fields[j];
        assert LastNamed(fields, i) && PlaceReads(row, h, fields, cells, i);
      }
    }
  }

  lemma {:induction false} RowUpToReads(h: Header, cells: seq<string>, n: nat)
    requires n <= |h.fields|
    ensures RowReads(RowUpTo(h, cells, n), h, h.fields[..n], cells)
  {
    if n != 0 {
      RowUpToReads(h, cells, n - 1);
      assert h.fields[..n] == h.fields[..n - 1] + [h.fields[n - 1]];
      var before, f := RowUpTo(h, cells, n - 1), h.fields[n - 1];
      var value := if n - 1 < |cells| then Normal(h, cells[n - 1]) else "";
      assert RowUpTo(h, cells, n) == before[f := value];
      RowReadsSnoc(before, h, h.fields[..n - 1], cells, f, value);
    }
  }

  /** A line reads as the pieces between its separators, whatever their number: missing cells
      and marks are empty, surplus cells are dropped, and one carriage return at the end is
      not part of the line. */
  lemma LineReads(h: Header, line: string, cells: seq<string>)
    requires |h.separator| > 0 && Pieces(cells, line, h.separator)
    requires line == "" || line[|line| - 1] != '\r'
    ensures RowReads(RowOf(h, line), h, h.fields, cells)
    ensures RowOf(h, line + "\r") == RowOf(h, line)
  {
    SplitOnIff(line, h.separator, cells);
    RowUpToReads(h, cells, |h.fields|);
    assert h.fields[..|h.fields|] == h.fields;
    assert (line + "\r")[..|line|] == line;
  }

  // ---- header lines --------------------------------------------------------------------------------

  lemma HeaderLine(line: string, text: string)
    requires '\n' !in line && line != "" && line[0] == '#'
    ensures var next := line + ['\n'] + text;
            FirstLine(next) == line && AfterLine(next) == text && Comment(next)
  {
    IndexOfFirst(line, '\n', text);
    var next := line + ['\n'] + text;
    assert next[..|line|] == line && next[|line| + 1..] == text;
  }

  /** A header line takes effect, with a carriage return at its end or without … */
  lemma HeaderLineReads(h: Header, line: string, text: string, unescape: string -> string)
    requires '\n' !in line && '\r' !in line && line != "" && line[0] == '#' && !("#close" <= line)
    ensures ReadHeader(h, line + ['\n'] + text, unescape) == ReadHeader(Apply(h, line, unescape), text, unescape)
    ensures ReadHeader(h, line + "\r" + ['\n'] + text, unescape) == ReadHeader(Apply(h, line, unescape), text, unescape)
  {
    HeaderLine(line, text);
    HeaderLine(line + "\r", text);
    assert (line + "\r")[..|line|] == line;
    assert TrimNewlines(line + "\r") == TrimNewlines(line) == line;
  }

  /** … a closing line ends the header, and so does the first line that is not one. */
  lemma HeaderStops(h: Header, rest: string, text: string, unescape: string -> string)
    requires '\n' !in rest && '\r' !in rest
    ensures ReadHeader(h, "#close" + rest + ['\n'] + text, unescape) == (h, text)
    ensures text == "" || text[0] != '#' ==> ReadHeader(h, text, unescape) == (h, text)
  {
    var line := "#close" + rest;
    HeaderLine(line, text);
    assert '\r' !in line && '\n' !in line;
    assert line[..6] == "#close";
  }

  /** Written with a tab, the separator directive is honoured. */
  lemma SeparatorLineApplied(h: Header, value: string, unescape: string -> string)
    ensures Apply(h, Entry("#separator", value), unescape) == h.(separator := unescape(value))
  {
    EntryParts("#separator", value);
  }

  // ---- sets -------------------------------------------------------------------------------------------

  /** A part of a set value as written: a member, or nothing, among spaces. */
  datatype Part = Part(before: string, member: string, after: string)

  predicate WrittenPart(p: Part, c: char) {
    && Blank(p.before) && Blank(p.after) && (p.member == "" || Member(p.member))
    && c !in p.before && c !in p.member && c !in p.after
  }

  function Text(p: Part): string {
    p.before + p.member + p.after
  }

  function Texts(parts: seq<Part>): seq<string> {
    seq(|parts|, i requires 0 <= i < |parts| => Text(parts[i]))
  }

  /** The members that are not empty, in order. */
  function MembersOf(parts: seq<Part>): seq<string> {
    if |parts| == 0 then []
    else if parts[|parts| - 1].member == "" then MembersOf(parts[..|parts| - 1])
    else MembersOf(parts[..|parts| - 1]) + [parts[|parts| - 1].member]
  }

  lemma {:induction false} NonBlankMembers(parts: seq<Part>, c: char)
    requires forall i :: 0 <= i < |parts| ==> WrittenPart(parts[i], c)
    ensures NonBlank(Texts(parts)) == MembersOf(parts)
  {
    if |parts| != 0 {
      var n := |parts| - 1;
      NonBlankMembers(parts[..n], c);
      assert Texts(parts)[..n] == Texts(parts[..n]);
      TrimSpaceIs(parts[n].before, parts[n].member, parts[n].after);
    }
  }

  /** A set value reads as its members, without the spaces around them and the empty parts. */
  lemma SetReads(parts: seq<Part>, c: char)
    requires |parts| >= 1 && forall i :: 0 <= i < |parts| ==> WrittenPart(parts[i], c)
    ensures SetOf(Join(Texts(parts), c), [c]) == MembersOf(parts)
  {
    var s := Join(Texts(parts), c);
    NonBlankMembers(parts, c);
    SplitJoin(Texts(parts), c);
    SplitOnIsSplit(s, c);
    if s == "" {
      assert Texts(parts) == [""];
      assert TrimSpace("") == "";
      assert NonBlank([""]) == [];
    }
  }
}
