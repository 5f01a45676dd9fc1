/** The reader of Zeek's self-describing tab-separated logs, and a writer for the format its
    documentation shows.  Reading back what the writer wrote gives the table again, exactly
    under conditions that can be checked on the table. */
module Zeek {
  import opened Sequences
  import opened Strings

  /** A LogHeader. */
  datatype Header = Header(
    separator: string,
    setSeparator: string,
    emptyField: string,
    unsetField: string,
    fields: seq<string>,
    types: seq<string>,
    path: string)

  const DEFAULT: Header := Header("\t", ",", "(empty)", "-", [], [], "")

  /** The scanner's buffer: a line that fills it is too long. */
  const MAX_LINE: int := 0x10_0000

  type Row = map<string, string>

  datatype Log = Log(header: Header, rows: seq<Row>)

  // ---- string operations ------------------------------------------------------------

  /** `strings.TrimRight(s, "\r\n")`. */
  function TrimNewlines(s: string): string {
    if |s| != 0 && (s[|s| - 1] == '\r' || s[|s| - 1] == '\n') then TrimNewlines(s[..|s| - 1]) else s
  }

  /** Where `sep` first occurs, or |s|. */
  function Find(s: string, sep: string): (i: nat)
    requires |sep| > 0
    ensures i <= |s| && (i < |s| ==> i + |sep| <= |s| && s[i..i + |sep|] == sep)
  {
    if |s| < |sep| then |s|
    else if sep <= s then 0
    else
      var i := Find(s[1..], sep);
      if i < |s[1..]| then
        SliceOfTail(s, i, |sep|);
        1 + i
      else 1 + i
  }

  lemma SliceOfTail(s: string, i: nat, n: nat)
    requires 1 + i + n <= |s|
    ensures s[1..][i..i + n] == s[1 + i..1 + i + n]
  {
  }

  /** `strings.Split`: an empty separator splits into single characters. */
  function SplitOn(s: string, sep: string): seq<string>
    decreases |s|
  {
    if sep == "" then seq(|s|, i requires 0 <= i < |s| => [s[i]])
    else
      var i := Find(s, sep);
      if i == |s| then [s] else [s[..i]] + SplitOn(s[i + |sep|..], sep)
  }

  lemma {:induction false} FindIsIndexOf(s: string, c: char)
    ensures Find(s, [c]) == IndexOf(s, c)
  {
    if |s| != 0 && s[0] != c {
      FindIsIndexOf(s[1..], c);
      assert !([c] <= s);
    }
  }

  lemma {:induction false} SplitOnIsSplit(s: string, c: char)
    ensures SplitOn(s, [c]) == Split(s, c)
    decreases |s|
  {
    FindIsIndexOf(s, c);
    var i := IndexOf(s, c);
    if i < |s| {
      var head, rest := SplitCut(s, c);
      SplitOnIsSplit(rest, c);
    }
  }

  /** The text up to the first newline, and the text after it. */
  function FirstLine(text: string): string {
    text[..IndexOf(text, '\n')]
  }

  function AfterLine(text: string): string {
    var i := IndexOf(text, '\n');
    if i == |text| then "" else text[i + 1..]
  }

  /** Reading lines one by one until the text ends. */
  function Lines(text: string): seq<string>
    decreases |text|
  {
    if text == "" then [] else [FirstLine(text)] + Lines(AfterLine(text))
  }

  function Unlines(lines: seq<string>): string {
    if |lines| == 0 then "" else lines[0] + "\n" + Unlines(lines[1..])
  }

  // ---- reading ---------------------------------------------------------------------------

  function Directive(line: string): string {
    line[..IndexOf(line, '\t')]
  }

  function Value(line: string): string {
    var i := IndexOf(line, '\t');
    if i == |line| then "" else line[i + 1..]
  }

  /** The effect of one header line; `unescape` stands for Go's string unquoting. */
  function Apply(h: Header, line: string, unescape: string -> string): Header {
    var value := Value(line);
    match Directive(line)
    case "#separator" => h.(separator := unescape(value))
    case "#set_separator" => h.(setSeparator := value)
    case "#empty_field" => h.(emptyField := value)
    case "#unset_field" => h.(unsetField := value)
    case "#path" => h.(path := value)
    case "#fields" => h.(fields := Split(value, '\t'))
    case "#types" => h.(types := Split(value, '\t'))
    case _ => h
  }

  predicate Comment(line: string) {
    |line| != 0 && line[0] == '#'
  }

  /** The header as far as it goes, and the text left for the scanner. */
  function ReadHeader(h: Header, text: string, unescape: string -> string): (Header, string)
    decreases |text|
  {
    if !Comment(text) then (h, text)
    else
      var line := TrimNewlines(FirstLine(text));
      if HasPrefix(line, "#close") then (h, AfterLine(text))
      else ReadHeader(Apply(h, line, unescape), AfterLine(text), unescape)
  }

  /** The directive switch of the header loop. */
  method ApplyLine(header: Header, line: string, unescape: string -> string) returns (h: Header)
    ensures h == Apply(header, line, unescape)
  {
    h := header;
    var tab := IndexOf(line, '\t');
    var directive, value := line[..tab], "";
    if tab < |line| {
      value := line[tab + 1..];
    }
    match directive {
      case "#separator" => h := h.(separator := unescape(value));
      case "#set_separator" => h := h.(setSeparator := value);
      case "#empty_field" => h := h.(emptyField := value);
      case "#unset_field" => h := h.(unsetField := value);
      case "#path" => h := h.(path := value);
      case "#fields" => h := h.(fields := Split(value, '\t'));
      case "#types" => h := h.(types := Split(value, '\t'));
      case _ =>
    }
  }

  method ParseHeader(text: string, unescape: string -> string) returns (header: Option<Header>, rest: string)
    ensures rest == ReadHeader(DEFAULT, text, unescape).1
    ensures header == if ReadHeader(DEFAULT, text, unescape).0.fields == [] then None
                      else Some(ReadHeader(DEFAULT, text, unescape).0)
  {
    var h := DEFAULT;
    rest := text;
    while |rest| > 0
      invariant ReadHeader(h, rest, unescape) == ReadHeader(DEFAULT, text, unescape)
      decreases |rest|
    {
      if rest[0] != '#' {
        break;
      }
      var end := IndexOf(rest, '\n');
      var line := TrimNewlines(rest[..end]);
      rest := if end == |rest| then "" else rest[end + 1..];
      if HasPrefix(line, "#close") {
        header := if |h.fields| == 0 then None else Some(h);
        return;
      }
      h := ApplyLine(h, line, unescape);
    }
    header := if |h.fields| == 0 then None else Some(h);
  }

  /** `bufio.ScanLines` drops one carriage return. */
  function DropReturn(line: string): string {
    if |line| != 0 && line[|line| - 1] == '\r' then line[..|line| - 1] else line
  }

  predicate Skipped(line: string) {
    DropReturn(line) == "" || DropReturn(line)[0] == '#'
  }

  function Normal(h: Header, cell: string): string {
    if cell == h.unsetField || cell == h.emptyField then "" else cell
  }

  /** The first `n` fields of a row; a later field of the same name wins. */
  function RowUpTo(h: Header, cells: seq<string>, n: nat): Row
    requires n <= |h.fields|
  {
    if n == 0 then map[]
    else RowUpTo(h, cells, n - 1)[h.fields[n - 1] := if n - 1 < |cells| then Normal(h, cells[n - 1]) else ""]
  }

  function RowOf(h: Header, line: string): Row {
    RowUpTo(h, SplitOn(DropReturn(line), h.separator), |h.fields|)
  }

  function Rows(h: Header, lines: seq<string>): seq<Row> {
    if |lines| == 0 then []
    else if Skipped(lines[0]) then Rows(h, lines[1..])
    else [RowOf(h, lines[0])] + Rows(h, lines[1..])
  }

  predicate Overlong(lines: seq<string>) {
    exists i :: 0 <= i < |lines| && |lines[i]| >= MAX_LINE
  }

  /** `ParseGeneric` on a file with this text. */
  function Read(text: string, unescape: string -> string): Option<Log> {
    var (h, rest) := ReadHeader(DEFAULT, text, unescape);
    if h.fields == [] || Overlong(Lines(rest)) then None else Some(Log(h, Rows(h, Lines(rest))))
  }

  method ParseRow(h: Header, line: string) returns (row: Row)
    ensures row == RowOf(h, line)
  {
    var cells := SplitOn(DropReturn(line), h.separator);
    row := map[];
    for i := 0 to |h.fields|
      invariant row == RowUpTo(h, cells, i)
    {
      if i < |cells| {
        var val := cells[i];
        if val == h.unsetField || val == h.emptyField {
          val := "";
        }
        row := row[h.fields[i] := val];
      } else {
        row := row[h.fields[i] := ""];
      }
    }
  }

  lemma OverlongCons(line: string, lines: seq<string>)
    ensures Overlong([line] + lines) <==> |line| >= MAX_LINE || Overlong(lines)
  {
    var all := [line] + lines;
    assert all[0] == line;
    if Overlong(lines) {
      var i :| 0 <= i < |lines| && |lines[i]| >= MAX_LINE;
      assert all[i + 1] == lines[i];
    }
  }

  /** The rows collected so far and those still to be read make up all rows. */
  predicate Collected(h: Header, rows: seq<Row>, rest: string, data: string) {
    && rows + Rows(h, Lines(rest)) == Rows(h, Lines(data))
    && Overlong(Lines(rest)) == Overlong(Lines(data))
  }

  lemma CollectLine(h: Header, rows: seq<Row>, rest: string, data: string)
    requires Collected(h, rows, rest, data) && rest != ""
    ensures |FirstLine(rest)| >= MAX_LINE ==> Overlong(Lines(data))
    ensures |FirstLine(rest)| < MAX_LINE ==>
              Collected(h, if Skipped(FirstLine(rest)) then rows else rows + [RowOf(h, FirstLine(rest))],
                        AfterLine(rest), data)
  {
    var line, later := FirstLine(rest), Lines(AfterLine(rest));
    OverlongCons(line, later);
    RowsShift(h, rows, line, later);
  }

  lemma Reassociate<T>(a: seq<T>, x: T, b: seq<T>)
    ensures a + ([x] + b) == (a + [x]) + b
  {
  }

  lemma RowsShift(h: Header, rows: seq<Row>, line: string, later: seq<string>)
    ensures rows + Rows(h, [line] + later)
            == (if Skipped(line) then rows else rows + [RowOf(h, line)]) + Rows(h, later)
  {
    RowsCons(h, line, later);
    if !Skipped(line) {
      Reassociate(rows, RowOf(h, line), Rows(h, later));
    }
  }

  lemma CollectedAll(h: Header, rows: seq<Row>, data: string)
    requires Collected(h, rows, "", data)
    ensures rows == Rows(h, Lines(data)) && !Overlong(Lines(data))
  {
  }

  method ParseGeneric(text: string, unescape: string -> string) returns (log: Option<Log>)
    ensures log == Read(text, unescape)
  {
    var header, data := ParseHeader(text, unescape);
    if header == None {
      return None;
    }
    var h := header.value;
    var rows: seq<Row> := [];
    var rest := data;
    while |rest| > 0
      invariant Collected(h, rows, rest, data)
      decreases |rest|
    {
      CollectLine(h, rows, rest, data);
      var end := IndexOf(rest, '\n');
      var line := rest[..end];
      rest := if end == |rest| then "" else rest[end + 1..];
      if |line| >= MAX_LINE {
        return None;
      }
      if !Skipped(line) {
        var row := ParseRow(h, line);
        rows := rows + [row];
      }
    }
    CollectedAll(h, rows, data);
    log := Some(Log(h, rows));
  }

  lemma RowsCons(h: Header, line: string, lines: seq<string>)
    ensures Rows(h, [line] + lines) == if Skipped(line) then Rows(h, lines) else [RowOf(h, line)] + Rows(h, lines)
  {
    assert ([line] + lines)[1..] == lines;
  }

  // ---- sets ------------------------------------------------------------------------------

  predicate IsSpace(c: char) {
    c == ' ' || c == '\t' || c == '\n' || c == '\U{0B}' || c == '\U{0C}' || c == '\r'
  }

  function TrimLeft(s: string): string {
    if |s| != 0 && IsSpace(s[0]) then TrimLeft(s[1..]) else s
  }

  function TrimRight(s: string): string {
    if |s| != 0 && IsSpace(s[|s| - 1]) then TrimRight(s[..|s| - 1]) else s
  }

  /** `strings.TrimSpace` on ASCII. */
  function TrimSpace(s: string): string {
    TrimRight(TrimLeft(s))
  }

  /** The parts that are not blank, trimmed. */
  function NonBlank(parts: seq<string>): seq<string> {
    if |parts| == 0 then []
    else
      var init, last := parts[..|parts| - 1], TrimSpace(parts[|parts| - 1]);
      if last != "" then NonBlank(init) + [last] else NonBlank(init)
  }

  /** The members of a set value; an absent set and an empty one are not told apart. */
  function SetOf(s: string, sep: string): seq<string> {
    if s == "" then [] else NonBlank(SplitOn(s, sep))
  }

  method ParseZeekSet(s: string, sep: string) returns (out: seq<string>)
    ensures out == SetOf(s, sep)
  {
    out := [];
    if s == "" {
      return;
    }
    var parts := SplitOn(s, sep);
    for i := 0 to |parts|
      invariant out == NonBlank(parts[..i])
    {
      assert parts[..i + 1][..i] == parts[..i];
      var p := TrimSpace(parts[i]);
      if p != "" {
        out := out + [p];
      }
    }
    assert parts[..|parts|] == parts;
  }

  const SPACES: string := " \t\n\U{0B}\U{0C}\r"

  /** Nonempty, with no space at either end. */
  predicate Member(s: string) {
    s != "" && s[0] !in SPACES && s[|s| - 1] !in SPACES
  }

  predicate Blank(s: string) {
    forall i :: 0 <= i < |s| ==> s[i] in SPACES
  }

  /** Trimming takes the spaces off both ends. */
  lemma {:induction false} TrimLeftIs(a: string, s: string)
    requires Blank(a) && (s == "" || s[0] !in SPACES)
    ensures TrimLeft(a + s) == s
  {
    if a == "" {
      assert a + s == s;
    } else {
      assert (a + s)[1..] == a[1..] + s;
      TrimLeftIs(a[1..], s);
    }
  }

  lemma {:induction false} TrimRightIs(s: string, b: string)
    requires Blank(b) && (s == "" || s[|s| - 1] !in SPACES)
    ensures TrimRight(s + b) == s
  {
    if b == "" {
      assert s + b == s;
    } else {
      assert (s + b)[..|s + b| - 1] == s + b[..|b| - 1];
      TrimRightIs(s, b[..|b| - 1]);
    }
  }

  lemma TrimSpaceIs(a: string, s: string, b: string)
    requires Blank(a) && Blank(b) && (s == "" || Member(s))
    ensures TrimSpace(a + s + b) == s
  {
    if s == "" {
      assert a + s + b == (a + b) + "";
      TrimLeftIs(a + b, "");
    } else {
      assert a + s + b == a + (s + b);
      TrimLeftIs(a, s + b);
      TrimRightIs(s, b);
    }
  }

  lemma MemberIff(s: string)
    ensures Member(s) <==> s != "" && TrimSpace(s) == s
  {
    if Member(s) {
      TrimSpaceIs("", s, "");
      assert "" + s + "" == s;
    } else if s != "" {
      TrimLeftShorter(s);
      TrimRightShorter(TrimLeft(s));
    }
  }

  lemma {:induction false} TrimLeftShorter(s: string)
    ensures |TrimLeft(s)| <= |s|
    ensures s != "" && s[0] in SPACES ==> |TrimLeft(s)| < |s|
    ensures s != "" && s[0] !in SPACES ==> TrimLeft(s) == s
  {
    if |s| != 0 && IsSpace(s[0]) {
      TrimLeftShorter(s[1..]);
    }
  }

  lemma {:induction false} TrimRightShorter(s: string)
    ensures |TrimRight(s)| <= |s|
    ensures s != "" && s[|s| - 1] in SPACES ==> |TrimRight(s)| < |s|
  {
    if |s| != 0 && IsSpace(s[|s| - 1]) {
      TrimRightShorter(s[..|s| - 1]);
    }
  }

  lemma {:induction false} NonBlankSame(parts: seq<string>)
    ensures |NonBlank(parts)| <= |parts|
    ensures NonBlank(parts) == parts <==> forall i :: 0 <= i < |parts| ==> Member(parts[i])
  {
    if |parts| != 0 {
      var n := |parts| - 1;
      var init, last := parts[..n], parts[n];
      NonBlankSame(init);
      assert parts == init + [last];
      if NonBlank(parts) == parts {
        assert |NonBlank(parts)| == n + 1;
        assert NonBlank(init) == parts[..n];
        assert TrimSpace(last) == NonBlank(parts)[n];
      }
      MemberIff(last);
    }
  }

  /** Members joined by the set separator read back exactly when each is nonempty and has
      no space around it. */
  lemma SetRoundTripIff(members: seq<string>, c: char)
    requires forall i :: 0 <= i < |members| ==> c !in members[i]
    ensures SetOf(Join(members, c), [c]) == members <==> forall i :: 0 <= i < |members| ==> Member(members[i])
  {
    NonBlankSame(members);
    if |members| >= 1 {
      var s := Join(members, c);
      SplitJoin(members, c);
      SplitOnIsSplit(s, c);
      if s == "" {
        assert IndexOf(s, c) == 0 && Split(s, c) == [s];
        assert members[0] == "";
        assert !Member(members[0]);
      }
    }
  }
}
