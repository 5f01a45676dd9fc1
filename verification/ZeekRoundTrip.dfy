/** Writing a table in the documented format and reading it back. */
module ZeekRoundTrip {
  import opened Sequences
  import opened Strings
  import opened Zeek

  datatype Table = Table(header: Header, rows: seq<seq<string>>)

  /** Fits on one line. */
  predicate OneLine(s: string) {
    '\n' !in s && '\r' !in s
  }

  /** Fits in one cell. */
  predicate Clean(s: string) {
    OneLine(s) && '\t' !in s
  }

  predicate AllClean(s: seq<string>) {
    forall i :: 0 <= i < |s| ==> Clean(s[i])
  }

  /** The header describes rows of its own width in tab-separated cells. */
  predicate WellFormedHeader(h: Header) {
    && h.separator == "\t"
    && OneLine(h.setSeparator) && OneLine(h.emptyField) && Clean(h.unsetField) && OneLine(h.path)
    && |h.fields| >= 1 && Distinct(h.fields) && AllClean(h.fields)
    && |h.types| >= 1 && AllClean(h.types)
  }

  predicate WellFormed(t: Table) {
    && WellFormedHeader(t.header)
    && forall i :: 0 <= i < |t.rows| ==> |t.rows[i]| == |t.header.fields| && AllClean(t.rows[i])
  }

  // ---- the documented format ---------------------------------------------------------

  function Entry(name: string, value: string): string {
    name + ['\t'] + value
  }

  const SEPARATOR_LINE: string := "#separator \\x09"

  function HeaderLines(h: Header): seq<string> {
    [SEPARATOR_LINE,
     Entry("#set_separator", h.setSeparator),
     Entry("#empty_field", h.emptyField),
     Entry("#unset_field", h.unsetField),
     Entry("#path", h.path),
     Entry("#fields", Join(h.fields, '\t')),
     Entry("#types", Join(h.types, '\t'))]
  }

  /** Empty cells are written as the unset mark. */
  function Marks(h: Header, row: seq<string>): seq<string> {
    seq(|row|, i requires 0 <= i < |row| => if row[i] == "" then h.unsetField else row[i])
  }

  function RowLine(h: Header, row: seq<string>): string {
    Join(Marks(h, row), '\t')
  }

  function RowLines(t: Table): seq<string> {
    seq(|t.rows|, i requires 0 <= i < |t.rows| => RowLine(t.header, t.rows[i]))
  }

  /** The trailing line, if any: "#close" and what follows it. */
  function Trailer(close: Option<string>): seq<string> {
    if close.None? then [] else ["#close" + close.value]
  }

  function Write(t: Table, close: Option<string>): string {
    Unlines(HeaderLines(t.header) + (RowLines(t) + Trailer(close)))
  }

  // ---- what reading should give ----------------------------------------------------------

  ghost predicate Represents(m: Row, fields: seq<string>, cells: seq<string>)
    requires |fields| == |cells|
  {
    && (forall f :: f in m <==> f in fields)
    && (forall i :: 0 <= i < |fields| ==> fields[i] in m && m[fields[i]] == cells[i])
  }

  ghost predicate Gives(t: Table, result: Option<Log>)
    requires WellFormed(t)
  {
    && result.Some?
    && result.value.header == t.header
    && |result.value.rows| == |t.rows|
    && forall i :: 0 <= i < |t.rows| ==> Represents(result.value.rows[i], t.header.fields, t.rows[i])
  }

  predicate Plain(h: Header, cell: string) {
    cell == "" || (cell != h.unsetField && cell != h.emptyField)
  }

  /** What a row needs: its line is neither blank, nor a comment, nor too long, and none of
      its cells is a mark. */
  predicate Readable(h: Header, row: seq<string>) {
    && |RowLine(h, row)| < MAX_LINE
    && RowLine(h, row) != "" && RowLine(h, row)[0] != '#'
    && forall i :: 0 <= i < |row| ==> Plain(h, row[i])
  }

  // ---- text and lines ------------------------------------------------------------------------

  predicate OneLiners(lines: seq<string>) {
    forall i :: 0 <= i < |lines| ==> OneLine(lines[i])
  }

  lemma CutFirst(lines: seq<string>)
    requires |lines| > 0 && OneLine(lines[0])
    ensures Unlines(lines) != ""
    ensures FirstLine(Unlines(lines)) == lines[0] && AfterLine(Unlines(lines)) == Unlines(lines[1..])
    ensures Comment(Unlines(lines)) <==> Comment(lines[0])
  {
    var text, rest := Unlines(lines), Unlines(lines[1..]);
    assert text == lines[0] + ['\n'] + rest;
    IndexOfFirst(lines[0], '\n', rest);
    assert text[..|lines[0]|] == lines[0] && text[|lines[0]| + 1..] == rest;
  }

  lemma {:induction false} LinesUnlines(lines: seq<string>)
    requires OneLiners(lines)
    ensures Lines(Unlines(lines)) == lines
  {
    if |lines| != 0 {
      CutFirst(lines);
      LinesUnlines(lines[1..]);
    }
  }

  /** `ReadHeader` on lines. */
  function HeaderFrom(h: Header, lines: seq<string>, unescape: string -> string): (Header, seq<string>)
    decreases |lines|
  {
    if |lines| == 0 || !Comment(lines[0]) then (h, lines)
    else if HasPrefix(lines[0], "#close") then (h, lines[1..])
    else HeaderFrom(Apply(h, lines[0], unescape), lines[1..], unescape)
  }

  lemma {:induction false} ReadHeaderLines(h: Header, lines: seq<string>, unescape: string -> string)
    requires OneLiners(lines)
    ensures var (h1, rest) := HeaderFrom(h, lines, unescape);
            ReadHeader(h, Unlines(lines), unescape) == (h1, Unlines(rest)) && OneLiners(rest)
    decreases |lines|
  {
    if |lines| != 0 {
      CutFirst(lines);
      if Comment(lines[0]) && !HasPrefix(lines[0], "#close") {
        ReadHeaderLines(Apply(h, lines[0], unescape), lines[1..], unescape);
      }
    }
  }

  function ApplyAll(h: Header, lines: seq<string>, unescape: string -> string): Header
    decreases |lines|
  {
    if |lines| == 0 then h else ApplyAll(Apply(h, lines[0], unescape), lines[1..], unescape)
  }

  predicate DirectiveLine(line: string) {
    Comment(line) && !HasPrefix(line, "#close")
  }

  lemma {:induction false} HeaderFromAppend(h: Header, a: seq<string>, b: seq<string>, unescape: string -> string)
    requires forall i :: 0 <= i < |a| ==> DirectiveLine(a[i])
    ensures HeaderFrom(h, a + b, unescape) == HeaderFrom(ApplyAll(h, a, unescape), b, unescape)
    decreases |a|
  {
    if |a| == 0 {
      assert a + b == b;
    } else {
      assert (a + b)[1..] == a[1..] + b;
      HeaderFromAppend(Apply(h, a[0], unescape), a[1..], b, unescape);
    }
  }

  // ---- the header ---------------------------------------------------------------------------

  lemma EntryParts(name: string, value: string)
    requires '\t' !in name
    ensures Directive(Entry(name, value)) == name && Value(Entry(name, value)) == value
  {
    IndexOfFirst(name, '\t', value);
  }

  lemma WholeLine(line: string)
    requires '\t' !in line
    ensures Directive(line) == line
  {
    IndexOfFirst(line, '\t', []);
    assert line[..|line|] == line;
  }

  /** The documented separator line has a space where the parser looks for a tab, so the
      parser passes over it, whatever separator it announces. */
  lemma SeparatorLineIgnored(h: Header, announced: string, unescape: string -> string)
    requires '\t' !in announced
    ensures Apply(h, "#separator " + announced, unescape) == h
  {
    var line := "#separator " + announced;
    WholeLine(line);
    assert line[10] == ' ';
    NotADirective(line);
  }

  /** No directive has a space there, or anything. */
  lemma NotADirective(line: string)
    requires |line| > 10 && line[10] == ' '
    ensures line != "#separator" && line != "#path" && line != "#fields" && line != "#types"
    ensures line != "#set_separator" && line != "#empty_field" && line != "#unset_field"
  {
    assert "#set_separator"[10] == 'a' && "#empty_field"[10] == 'l' && "#unset_field"[10] == 'l';
  }

  lemma ApplyFieldsLine(h: Header, value: string, unescape: string -> string)
    ensures Apply(h, Entry("#fields", value), unescape) == h.(fields := Split(value, '\t'))
  {
    EntryParts("#fields", value);
  }

  lemma ApplyTypesLine(h: Header, value: string, unescape: string -> string)
    ensures Apply(h, Entry("#types", value), unescape) == h.(types := Split(value, '\t'))
  {
    EntryParts("#types", value);
  }

  lemma ApplyFields(h: Header, fields: seq<string>, unescape: string -> string)
    requires |fields| >= 1 && AllClean(fields)
    ensures Apply(h, Entry("#fields", Join(fields, '\t')), unescape) == h.(fields := fields)
    ensures Apply(h, Entry("#types", Join(fields, '\t')), unescape) == h.(types := fields)
  {
    ApplyFieldsLine(h, Join(fields, '\t'), unescape);
    ApplyTypesLine(h, Join(fields, '\t'), unescape);
    SplitJoin(fields, '\t');
  }

  lemma ApplyMarks(h: Header, value: string, unescape: string -> string)
    ensures Apply(h, Entry("#set_separator", value), unescape) == h.(setSeparator := value)
    ensures Apply(h, Entry("#empty_field", value), unescape) == h.(emptyField := value)
    ensures Apply(h, Entry("#unset_field", value), unescape) == h.(unsetField := value)
    ensures Apply(h, Entry("#path", value), unescape) == h.(path := value)
  {
    EntryParts("#set_separator", value);
    EntryParts("#empty_field", value);
    EntryParts("#unset_field", value);
    EntryParts("#path", value);
  }

  lemma ApplyStep(h: Header, lines: seq<string>, k: nat, unescape: string -> string)
    requires k < |lines|
    ensures ApplyAll(h, lines[k..], unescape) == ApplyAll(Apply(h, lines[k], unescape), lines[k + 1..], unescape)
  {
    assert lines[k..][1..] == lines[k + 1..];
  }

  lemma HeaderRoundTrip(h: Header, unescape: string -> string)
    requires WellFormedHeader(h)
    ensures ApplyAll(DEFAULT, HeaderLines(h), unescape) == h
  {
    var lines := HeaderLines(h);
    var h2 := DEFAULT.(setSeparator := h.setSeparator);
    var h3 := h2.(emptyField := h.emptyField);
    var h4 := h3.(unsetField := h.unsetField);
    var h5 := h4.(path := h.path);
    var h6 := h5.(fields := h.fields);
    assert lines[0..] == lines && lines[7..] == [];
    DocumentedSeparator(DEFAULT, unescape);
    ApplyStep(DEFAULT, lines, 0, unescape);
    ApplyMarks(DEFAULT, h.setSeparator, unescape);
    ApplyStep(DEFAULT, lines, 1, unescape);
    ApplyMarks(h2, h.emptyField, unescape);
    ApplyStep(h2, lines, 2, unescape);
    ApplyMarks(h3, h.unsetField, unescape);
    ApplyStep(h3, lines, 3, unescape);
    ApplyMarks(h4, h.path, unescape);
    ApplyStep(h4, lines, 4, unescape);
    ApplyFields(h5, h.fields, unescape);
    ApplyStep(h5, lines, 5, unescape);
    ApplyFields(h6, h.types, unescape);
    ApplyStep(h6, lines, 6, unescape);
  }

  lemma DocumentedSeparator(h: Header, unescape: string -> string)
    ensures Apply(h, SEPARATOR_LINE, unescape) == h
  {
    SeparatorLineIgnored(h, "\\x09", unescape);
    assert SEPARATOR_LINE == "#separator " + "\\x09";
  }

  // ---- the rows ---------------------------------------------------------------------------------

  /** How many lines the row loop keeps. */
  function Kept(lines: seq<string>): nat {
    if |lines| == 0 then 0 else Kept(lines[1..]) + if Skipped(lines[0]) then 0 else 1
  }

  lemma {:induction false} RowsCount(h: Header, lines: seq<string>)
    ensures |Rows(h, lines)| == Kept(lines)
  {
    if |lines| != 0 {
      RowsCount(h, lines[1..]);
    }
  }

  lemma {:induction false} KeptConcat(a: seq<string>, b: seq<string>)
    ensures Kept(a + b) == Kept(a) + Kept(b)
  {
    if |a| == 0 {
      assert a + b == b;
    } else {
      assert (a + b)[1..] == a[1..] + b;
      KeptConcat(a[1..], b);
    }
  }

  lemma {:induction false} KeptAll(lines: seq<string>)
    ensures Kept(lines) <= |lines|
    ensures Kept(lines) == |lines| <==> forall i :: 0 <= i < |lines| ==> !Skipped(lines[i])
  {
    if |lines| != 0 {
      KeptAll(lines[1..]);
      assert (forall i :: 0 <= i < |lines| ==> !Skipped(lines[i])) <==>
             !Skipped(lines[0]) && forall i :: 0 <= i < |lines[1..]| ==> !Skipped(lines[1..][i]);
    }
  }

  lemma SkippedOneLine(line: string)
    requires OneLine(line)
    ensures DropReturn(line) == line
    ensures Skipped(line) <==> line == "" || Comment(line)
  {
  }

  /** The header only consumes lines that the row loop would have skipped. */
  lemma {:induction false} HeaderKeepsRows(h: Header, lines: seq<string>, unescape: string -> string)
    requires OneLiners(lines)
    ensures Kept(HeaderFrom(h, lines, unescape).1) == Kept(lines)
    decreases |lines|
  {
    if |lines| != 0 && Comment(lines[0]) {
      SkippedOneLine(lines[0]);
      if !HasPrefix(lines[0], "#close") {
        HeaderKeepsRows(Apply(h, lines[0], unescape), lines[1..], unescape);
      }
    }
  }

  function RowReader(h: Header): string -> Row {
    (line: string) => RowOf(h, line)
  }

  lemma {:induction false} RowsOfKept(h: Header, a: seq<string>, b: seq<string>)
    requires forall i :: 0 <= i < |a| ==> !Skipped(a[i])
    requires forall i :: 0 <= i < |b| ==> Skipped(b[i])
    ensures Rows(h, a + b) == MapSeq(a, RowReader(h))
  {
    if |a| == 0 {
      assert a + b == b;
      NoRows(h, b);
    } else {
      var line, rest := a[0], a[1..];
      assert a == [line] + rest && a + b == [line] + (rest + b);
      RowsCons(h, line, rest + b);
      MapSeqCons(line, rest, RowReader(h));
      RowsOfKept(h, rest, b);
    }
  }

  lemma {:induction false} NoRows(h: Header, lines: seq<string>)
    requires forall i :: 0 <= i < |lines| ==> Skipped(lines[i])
    ensures Rows(h, lines) == []
  {
    if |lines| != 0 {
      NoRows(h, lines[1..]);
    }
  }

  lemma {:induction false} RowUpToIs(h: Header, cells: seq<string>, n: nat)
    requires Distinct(h.fields) && |cells| == |h.fields| && n <= |h.fields|
    ensures forall f :: f in RowUpTo(h, cells, n) <==> f in h.fields[..n]
    ensures forall i :: 0 <= i < n ==>
              h.fields[i] in RowUpTo(h, cells, n) && RowUpTo(h, cells, n)[h.fields[i]] == Normal(h, cells[i])
  {
    if n != 0 {
      RowUpToIs(h, cells, n - 1);
      assert h.fields[..n] == h.fields[..n - 1] + [h.fields[n - 1]];
    }
  }

  lemma MarksClean(h: Header, row: seq<string>)
    requires Clean(h.unsetField) && AllClean(row)
    ensures AllClean(Marks(h, row))
  {
  }

  lemma RowLineParts(h: Header, row: seq<string>)
    requires WellFormedHeader(h) && |row| == |h.fields| && AllClean(row)
    ensures OneLine(RowLine(h, row))
    ensures SplitOn(RowLine(h, row), h.separator) == Marks(h, row)
  {
    MarksClean(h, row);
    var marks := Marks(h, row);
    SplitJoin(marks, '\t');
    SplitOnIsSplit(RowLine(h, row), '\t');
    JoinContains(marks, '\t', '\n');
    JoinContains(marks, '\t', '\r');
  }

  function Normals(h: Header, cells: seq<string>): seq<string> {
    seq(|cells|, i requires 0 <= i < |cells| => Normal(h, cells[i]))
  }

  lemma NormalOfMark(h: Header, row: seq<string>)
    ensures Normals(h, Marks(h, row)) == row <==> forall i :: 0 <= i < |row| ==> Plain(h, row[i])
  {
    var r := Normals(h, Marks(h, row));
    forall i | 0 <= i < |row| ensures r[i] == row[i] <==> Plain(h, row[i]) {
    }
    if r == row {
      forall i | 0 <= i < |row| ensures Plain(h, row[i]) {
        assert r[i] == row[i];
      }
    }
  }

  lemma RowIs(h: Header, line: string, cells: seq<string>)
    requires Distinct(h.fields) && |cells| == |h.fields|
    requires SplitOn(DropReturn(line), h.separator) == cells
    ensures Represents(RowOf(h, line), h.fields, Normals(h, cells))
  {
    RowUpToIs(h, cells, |h.fields|);
    assert h.fields[..|h.fields|] == h.fields;
  }

  lemma RepresentsOne(m: Row, fields: seq<string>, a: seq<string>, b: seq<string>)
    requires |fields| == |a| == |b| && Represents(m, fields, a)
    ensures Represents(m, fields, b) <==> a == b
  {
    if Represents(m, fields, b) {
      forall i | 0 <= i < |a| ensures a[i] == b[i] {
        assert m[fields[i]] == a[i];
      }
    }
  }

  /** A row's line reads back as the row exactly when none of its cells is a mark. */
  lemma RowRoundTripIff(h: Header, row: seq<string>)
    requires WellFormedHeader(h) && |row| == |h.fields| && AllClean(row)
    ensures Represents(RowOf(h, RowLine(h, row)), h.fields, row) <==>
              forall i :: 0 <= i < |row| ==> Plain(h, row[i])
  {
    var line, marks := RowLine(h, row), Marks(h, row);
    RowLineParts(h, row);
    SkippedOneLine(line);
    RowIs(h, line, marks);
    RepresentsOne(RowOf(h, line), h.fields, Normals(h, marks), row);
    NormalOfMark(h, row);
  }

  // ---- the round trip -------------------------------------------------------------------------------

  predicate GoodTrailer(close: Option<string>) {
    close.Some? ==> OneLine(close.value) && |close.value| + 6 < MAX_LINE
  }

  lemma NotClose(line: string)
    requires |line| > 1 && line[0] == '#' && line[1] != 'c'
    ensures DirectiveLine(line)
  {
    var mark := "#close";
    assert mark[1] != line[1];
  }

  lemma HeaderLinesAreDirectives(h: Header)
    ensures forall i :: 0 <= i < |HeaderLines(h)| ==> DirectiveLine(HeaderLines(h)[i])
  {
    forall i | 0 <= i < |HeaderLines(h)| ensures DirectiveLine(HeaderLines(h)[i]) {
      NotClose(HeaderLines(h)[i]);
    }
  }

  lemma HeaderLinesFit(h: Header)
    requires WellFormedHeader(h)
    ensures OneLiners(HeaderLines(h))
  {
    ListFits(h.fields);
    ListFits(h.types);
    EntryFits("#set_separator", h.setSeparator);
    EntryFits("#empty_field", h.emptyField);
    EntryFits("#unset_field", h.unsetField);
    EntryFits("#path", h.path);
    EntryFits("#fields", Join(h.fields, '\t'));
    EntryFits("#types", Join(h.types, '\t'));
  }

  lemma ListFits(parts: seq<string>)
    requires AllClean(parts)
    ensures OneLine(Join(parts, '\t'))
  {
    JoinContains(parts, '\t', '\n');
    JoinContains(parts, '\t', '\r');
  }

  lemma EntryFits(name: string, value: string)
    requires OneLine(name) && OneLine(value)
    ensures OneLine(Entry(name, value))
  {
  }

  lemma TrailerFacts(close: Option<string>)
    requires GoodTrailer(close)
    ensures OneLiners(Trailer(close)) && !Overlong(Trailer(close))
    ensures forall i :: 0 <= i < |Trailer(close)| ==> Skipped(Trailer(close)[i])
    ensures close.Some? ==> Comment(Trailer(close)[0]) && HasPrefix(Trailer(close)[0], "#close")
  {
    if close.Some? {
      SkippedOneLine(Trailer(close)[0]);
    }
  }

  lemma RowLinesFacts(t: Table)
    requires WellFormed(t)
    ensures OneLiners(RowLines(t))
  {
    forall i | 0 <= i < |t.rows| ensures OneLine(RowLines(t)[i]) {
      RowLineParts(t.header, t.rows[i]);
    }
  }

  /** `Read` on lines. */
  lemma ReadLines(lines: seq<string>, unescape: string -> string)
    requires OneLiners(lines)
    ensures var (h, rest) := HeaderFrom(DEFAULT, lines, unescape);
            && OneLiners(rest)
            && Read(Unlines(lines), unescape)
               == if h.fields == [] || Overlong(rest) then None else Some(Log(h, Rows(h, rest)))
  {
    ReadHeaderLines(DEFAULT, lines, unescape);
    LinesUnlines(HeaderFrom(DEFAULT, lines, unescape).1);
  }

  lemma OneLinersConcat(a: seq<string>, b: seq<string>)
    requires OneLiners(a) && OneLiners(b)
    ensures OneLiners(a + b)
  {
  }

  lemma WrittenFits(t: Table, close: Option<string>)
    requires WellFormed(t) && GoodTrailer(close)
    ensures OneLiners(HeaderLines(t.header) + (RowLines(t) + Trailer(close)))
  {
    HeaderLinesFit(t.header);
    RowLinesFacts(t);
    TrailerFacts(close);
    OneLinersConcat(RowLines(t), Trailer(close));
    OneLinersConcat(HeaderLines(t.header), RowLines(t) + Trailer(close));
  }

  /** Reading what was written reaches the data with the table's header. */
  lemma ReadWritten(t: Table, close: Option<string>, unescape: string -> string)
    requires WellFormed(t) && GoodTrailer(close)
    ensures var (h, rest) := HeaderFrom(t.header, RowLines(t) + Trailer(close), unescape);
            Read(Write(t, close), unescape)
            == if h.fields == [] || Overlong(rest) then None else Some(Log(h, Rows(h, rest)))
  {
    var header, data := HeaderLines(t.header), RowLines(t) + Trailer(close);
    WrittenFits(t, close);
    ReadLines(header + data, unescape);
    HeaderLinesAreDirectives(t.header);
    HeaderFromAppend(DEFAULT, header, data, unescape);
    HeaderRoundTrip(t.header, unescape);
  }

  /** When no row's line looks blank or like a comment, the data begins where it was written. */
  lemma HeaderEnds(t: Table, close: Option<string>, unescape: string -> string)
    requires WellFormed(t) && GoodTrailer(close)
    requires forall i :: 0 <= i < |t.rows| ==> !Skipped(RowLines(t)[i])
    ensures var (h, rest) := HeaderFrom(t.header, RowLines(t) + Trailer(close), unescape);
            h == t.header && (rest == RowLines(t) + Trailer(close) || (t.rows == [] && rest == []))
  {
    RowLinesFacts(t);
    TrailerFacts(close);
    var data := RowLines(t) + Trailer(close);
    if t.rows != [] {
      assert data[0] == RowLines(t)[0];
      SkippedOneLine(data[0]);
    } else {
      assert RowLines(t) == [] && data == Trailer(close);
    }
  }

  lemma OverlongConcat(a: seq<string>, b: seq<string>)
    requires !Overlong(b)
    ensures Overlong(a + b) <==> Overlong(a)
  {
    if Overlong(a) {
      var i :| 0 <= i < |a| && |a[i]| >= MAX_LINE;
      assert (a + b)[i] == a[i];
    }
    forall i | 0 <= i < |a + b| ensures |(a + b)[i]| < MAX_LINE || Overlong(a) {
    }
  }

  lemma SkippedRowIsLost(t: Table, close: Option<string>, unescape: string -> string)
    requires WellFormed(t) && GoodTrailer(close)
    requires exists i :: 0 <= i < |t.rows| && Skipped(RowLines(t)[i])
    ensures !Gives(t, Read(Write(t, close), unescape))
  {
    var lines, tail := RowLines(t), Trailer(close);
    ReadWritten(t, close, unescape);
    var (h, rest) := HeaderFrom(t.header, lines + tail, unescape);
    RowLinesFacts(t);
    TrailerFacts(close);
    HeaderKeepsRows(t.header, lines + tail, unescape);
    KeptConcat(lines, tail);
    KeptAll(lines);
    KeptAll(tail);
    NoneKept(tail);
    RowsCount(h, rest);
  }

  lemma {:induction false} NoneKept(lines: seq<string>)
    requires forall i :: 0 <= i < |lines| ==> Skipped(lines[i])
    ensures Kept(lines) == 0
  {
    if |lines| != 0 {
      NoneKept(lines[1..]);
    }
  }

  /** The rows read from their own lines. */
  function RowMaps(t: Table): seq<Row> {
    seq(|t.rows|, i requires 0 <= i < |t.rows| => RowOf(t.header, RowLine(t.header, t.rows[i])))
  }

  lemma DataRows(t: Table, close: Option<string>)
    requires WellFormed(t) && GoodTrailer(close)
    requires forall i :: 0 <= i < |t.rows| ==> !Skipped(RowLines(t)[i])
    ensures Rows(t.header, RowLines(t) + Trailer(close)) == RowMaps(t)
    ensures Overlong(RowLines(t) + Trailer(close)) == Overlong(RowLines(t))
  {
    TrailerFacts(close);
    OverlongConcat(RowLines(t), Trailer(close));
    RowsOfKept(t.header, RowLines(t), Trailer(close));
    MapSeqAt(RowLines(t), RowReader(t.header));
  }

  lemma UnskippedRowsRead(t: Table, close: Option<string>, unescape: string -> string)
    requires WellFormed(t) && GoodTrailer(close)
    requires forall i :: 0 <= i < |t.rows| ==> !Skipped(RowLines(t)[i])
    ensures Read(Write(t, close), unescape)
            == if Overlong(RowLines(t)) then None else Some(Log(t.header, RowMaps(t)))
  {
    ReadWritten(t, close, unescape);
    HeaderEnds(t, close, unescape);
    if t.rows == [] {
      assert RowMaps(t) == [] && RowLines(t) == [];
    }
    DataRows(t, close);
  }

  /** A written table reads back as itself exactly when each of its rows is readable. */
  lemma RoundTripIff(t: Table, close: Option<string>, unescape: string -> string)
    requires WellFormed(t) && GoodTrailer(close)
    ensures Gives(t, Read(Write(t, close), unescape)) <==>
              forall i :: 0 <= i < |t.rows| ==> Readable(t.header, t.rows[i])
  {
    var h := t.header;
    RowLinesFacts(t);
    forall i | 0 <= i < |t.rows|
      ensures Readable(h, t.rows[i]) <==>
                && |RowLines(t)[i]| < MAX_LINE && !Skipped(RowLines(t)[i])
                && Represents(RowOf(h, RowLine(h, t.rows[i])), h.fields, t.rows[i])
    {
      assert OneLine(RowLines(t)[i]);
      SkippedOneLine(RowLines(t)[i]);
      RowRoundTripIff(h, t.rows[i]);
    }
    if exists i :: 0 <= i < |t.rows| && Skipped(RowLines(t)[i]) {
      SkippedRowIsLost(t, close, unescape);
    } else {
      UnskippedRowsRead(t, close, unescape);
    }
  }
}
