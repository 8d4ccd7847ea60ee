/** TSV export and import of a table: what is written is read back. */
module Tsv {
  import opened Lists
  import opened Strings
  import opened Values
  import opened Schema

  // ── cells ────────────────────────────────────────────────────────────────

  function EscapedChar(c: char): string {
    if c == '\\' then "\\\\"
    else if c == '\t' then "\\t"
    else if c == '\n' then "\\n"
    else if c == '\r' then "\\r"
    else [c]
  }

  function EscapeText(s: string): string {
    if s == "" then "" else EscapedChar(s[0]) + EscapeText(s[1..])
  }

  function UnescapedChar(c: char): string {
    if c == 't' then "\t"
    else if c == 'n' then "\n"
    else if c == 'r' then "\r"
    else if c == '\\' then "\\"
    else ['\\', c]
  }

  function UnescapeText(s: string): string
    decreases |s|
  {
    if s == "" then ""
    else if s[0] != '\\' then [s[0]] + UnescapeText(s[1..])
    else if |s| == 1 then "\\"
    else UnescapedChar(s[1]) + UnescapeText(s[2..])
  }

  /** `cell_to_tsv`: null is the empty field. */
  function CellText(v: Value): string {
    match v
    case Null => ""
    case Text(s) => EscapeText(s)
    case Bool(b) => if b then "true" else "false"
    case Int(i) => FormatInt(i)
  }

  /** `parse_cell` by the column's application type. */
  function ParseCell(raw: string, ty: ColumnType): Value {
    if raw == "" then Null
    else
      var text := UnescapeText(raw);
      match ty
      case BoolType => Bool(text == "true")
      case IntType => (match ParseI64(text) case Some(n) => Int(n) case None => Text(text))
      case TextType => Text(text)
  }

  // ── documents ────────────────────────────────────────────────────────────

  /** `s.split(c)` */
  function Split(s: string, c: char): (parts: seq<string>)
    ensures |parts| > 0
  {
    if s == "" then [""]
    else
      var rest := Split(s[1..], c);
      if s[0] == c then [""] + rest else [[s[0]] + rest[0]] + rest[1..]
  }

  function Names(t: Table): seq<string> {
    seq(|t.columns|, k requires 0 <= k < |t.columns| => t.columns[k].name)
  }

  function Cells(t: Table, row: Row): seq<string> {
    seq(|t.columns|, k requires 0 <= k < |t.columns| => CellText(Get(row, t.columns[k].name)))
  }

  function Lines(t: Table, rows: seq<Row>): string {
    if rows == [] then "" else Join(Cells(t, rows[0]), "\t") + ['\n'] + Lines(t, rows[1..])
  }

  /** `rows_to_tsv` */
  function Document(t: Table, rows: seq<Row>): string {
    Join(Names(t), "\t") + ['\n'] + Lines(t, rows)
  }

  /** The row of a line: fields beyond the header, and header columns the table does not
      have, are skipped. */
  function ParseFields(t: Table, names: seq<string>, fields: seq<string>): Row {
    if fields == [] then map[]
    else
      var i := |fields| - 1;
      var before := ParseFields(t, names, fields[..i]);
      if i < |names| && t.Col(names[i]).Some? then before[names[i] := ParseCell(fields[i], t.Col(names[i]).value.applicationType)]
      else before
  }

  function ParseLines(t: Table, names: seq<string>, lines: seq<string>): seq<Row> {
    if lines == [] then []
    else if lines[0] == "" then ParseLines(t, names, lines[1..])
    else [ParseFields(t, names, Split(lines[0], '\t'))] + ParseLines(t, names, lines[1..])
  }

  /** `tsv_to_rows` */
  function Parse(t: Table, text: string): seq<Row> {
    var lines := Split(text, '\n');
    if lines[0] == "" then [] else ParseLines(t, Split(lines[0], '\t'), lines[1..])
  }

  // ── the loops of the code ────────────────────────────────────────────────

  method Escape(s: string) returns (o: string)
    ensures o == EscapeText(s)
  {
    o := "";
    var i := 0;
    assert s[0..] == s && "" + EscapeText(s) == EscapeText(s);
    while i < |s|
      invariant 0 <= i <= |s|
      invariant o + EscapeText(s[i..]) == EscapeText(s)
    {
      assert s[i..][0] == s[i] && s[i..][1..] == s[i + 1..];
      Shift(o, EscapedChar(s[i]), EscapeText(s[i + 1..]));
      o := o + EscapedChar(s[i]);
      i := i + 1;
    }
  }

  method Unescape(s: string) returns (o: string)
    ensures o == UnescapeText(s)
  {
    o := "";
    var i := 0;
    assert s[0..] == s && "" + UnescapeText(s) == UnescapeText(s);
    while i < |s|
      invariant 0 <= i <= |s|
      invariant o + UnescapeText(s[i..]) == UnescapeText(s)
    {
      var c := s[i];
      assert s[i..][0] == c;
      if c != '\\' {
        assert s[i..][1..] == s[i + 1..];
        Shift(o, [c], UnescapeText(s[i + 1..]));
        o := o + [c];
        i := i + 1;
      } else if i + 1 == |s| {
        o := o + "\\";
        i := i + 1;
        assert UnescapeText(s[i..]) == "";
      } else {
        assert s[i..][1] == s[i + 1] && s[i..][2..] == s[i + 2..];
        Shift(o, UnescapedChar(s[i + 1]), UnescapeText(s[i + 2..]));
        o := o + UnescapedChar(s[i + 1]);
        i := i + 2;
      }
    }
  }

  lemma Shift(a: string, b: string, c: string)
    ensures a + (b + c) == a + b + c
  {
  }

  method RowsToTsv(t: Table, rows: seq<Row>) returns (out: string)
    ensures out == Document(t, rows)
  {
    out := Join(Names(t), "\t") + ['\n'];
    ghost var header := out;
    var i := 0;
    assert rows[0..] == rows;
    while i < |rows|
      invariant 0 <= i <= |rows|
      invariant out + Lines(t, rows[i..]) == header + Lines(t, rows)
    {
      assert rows[i..][0] == rows[i] && rows[i..][1..] == rows[i + 1..];
      var line := Join(Cells(t, rows[i]), "\t") + ['\n'];
      Shift(out, line, Lines(t, rows[i + 1..]));
      out := out + line;
      i := i + 1;
    }
    assert out + "" == out;
  }

  method TsvToRows(t: Table, text: string) returns (rows: seq<Row>)
    ensures rows == Parse(t, text)
  {
    rows := [];
    var lines := Split(text, '\n');
    if lines[0] == "" {
      return;
    }
    var names := Split(lines[0], '\t');
    var i := 1;
    assert [] + ParseLines(t, names, lines[1..]) == ParseLines(t, names, lines[1..]);
    while i < |lines|
      invariant 1 <= i <= |lines|
      invariant rows + ParseLines(t, names, lines[i..]) == ParseLines(t, names, lines[1..])
    {
      assert lines[i..][0] == lines[i] && lines[i..][1..] == lines[i + 1..];
      if lines[i] != "" {
        var row := ParseRow(t, names, Split(lines[i], '\t'));
        assert rows + ([row] + ParseLines(t, names, lines[i + 1..])) == rows + [row] + ParseLines(t, names, lines[i + 1..]);
        rows := rows + [row];
      }
      i := i + 1;
    }
    assert rows + [] == rows;
  }

  method ParseRow(t: Table, names: seq<string>, fields: seq<string>) returns (row: Row)
    ensures row == ParseFields(t, names, fields)
  {
    row := map[];
    var i := 0;
    while i < |fields|
      invariant 0 <= i <= |fields|
      invariant row == ParseFields(t, names, fields[..i])
    {
      assert fields[..i + 1][..i] == fields[..i];
      if i < |names| && t.Col(names[i]).Some? {
        row := row[names[i] := ParseCell(fields[i], t.Col(names[i]).value.applicationType)];
      }
      i := i + 1;
    }
    assert fields[..|fields|] == fields;
  }

  // ── cells come back ──────────────────────────────────────────────────────

  lemma UnescapeChar(c: char, rest: string)
    ensures UnescapeText(EscapedChar(c) + rest) == [c] + UnescapeText(rest)
  {
    var e := EscapedChar(c);
    var s := e + rest;
    assert s[0] == e[0] && s[|e|..] == rest;
    if |e| == 2 {
      assert s[1] == e[1] && UnescapedChar(e[1]) == [c];
    }
  }

  lemma {:induction false} UnescapeEscape(s: string)
    ensures UnescapeText(EscapeText(s)) == s
  {
    if s != "" {
      UnescapeEscape(s[1..]);
      UnescapeChar(s[0], EscapeText(s[1..]));
      assert [s[0]] + s[1..] == s;
    }
  }

  predicate Plain(c: char) {
    c != '\\' && c != '\t' && c != '\n' && c != '\r'
  }

  lemma {:induction false} EscapedIsClean(s: string)
    ensures '\t' !in EscapeText(s) && '\n' !in EscapeText(s)
    ensures s != "" ==> EscapeText(s) != ""
  {
    if s != "" {
      EscapedIsClean(s[1..]);
    }
  }

  lemma {:induction false} UnescapePlain(s: string)
    requires forall c :: c in s ==> Plain(c)
    ensures UnescapeText(s) == s
  {
    if s != "" {
      assert s[0] in s && Plain(s[0]);
      UnescapePlain(s[1..]);
      assert [s[0]] + s[1..] == s;
    }
  }

  lemma {:induction false} DigitsPlain(n: nat)
    ensures forall c :: c in FormatNat(n) ==> Plain(c)
    ensures FormatNat(n) != ""
  {
    if n >= 10 {
      DigitsPlain(n / 10);
    }
  }

  lemma IntPlain(i: int)
    ensures forall c :: c in FormatInt(i) ==> Plain(c)
    ensures FormatInt(i) != ""
  {
    DigitsPlain(if i < 0 then -i else i);
  }

  /** A value the format can carry in a column of the type: it has no empty text. */
  predicate Carries(v: Value, ty: ColumnType) {
    Fits(v, ty) && v != Text("")
  }

  lemma CellReads(v: Value, ty: ColumnType)
    requires Carries(v, ty)
    ensures ParseCell(CellText(v), ty) == v
    ensures '\t' !in CellText(v) && '\n' !in CellText(v)
  {
    match v
    case Null =>
    case Bool(b) =>
      var s := CellText(v);
      assert s == "true" || s == "false";
      UnescapePlain(s);
    case Int(i) =>
      IntPlain(i);
      UnescapePlain(FormatInt(i));
      ParseFormat(i);
    case Text(s) =>
      UnescapeEscape(s);
      EscapedIsClean(s);
  }

  /** Null is the empty field: of the values of a column's type exactly the empty text does
      not come back. */
  lemma CellReadsExactly(v: Value, ty: ColumnType)
    requires Fits(v, ty)
    ensures ParseCell(CellText(v), ty) == v <==> v != Text("")
  {
    if v != Text("") {
      CellReads(v, ty);
    }
  }

  // ── lines and fields come back ───────────────────────────────────────────

  lemma {:induction false} SplitNone(a: string, c: char)
    requires c !in a
    ensures Split(a, c) == [a]
  {
    if a != "" {
      SplitNone(a[1..], c);
      assert [a[0]] + a[1..] == a;
    }
  }

  lemma {:induction false} SplitFirst(a: string, rest: string, c: char)
    requires c !in a
    ensures Split(a + [c] + rest, c) == [a] + Split(rest, c)
  {
    var s := a + [c] + rest;
    if a == "" {
      assert s[0] == c && s[1..] == rest;
    } else {
      assert s[0] == a[0] && s[1..] == a[1..] + [c] + rest;
      SplitFirst(a[1..], rest, c);
      assert [a[0]] + a[1..] == a;
    }
  }

  lemma {:induction false} SplitJoin(parts: seq<string>)
    requires parts != [] && forall p :: p in parts ==> '\t' !in p
    ensures Split(Join(parts, "\t"), '\t') == parts
    ensures |parts| > 1 ==> Join(parts, "\t") != ""
  {
    assert parts[0] in parts;
    if |parts| == 1 {
      SplitNone(parts[0], '\t');
    } else {
      assert forall p :: p in parts[1..] ==> p in parts;
      SplitJoin(parts[1..]);
      SplitFirst(parts[0], Join(parts[1..], "\t"), '\t');
      assert "\t" == ['\t'];
      assert [parts[0]] + parts[1..] == parts;
    }
  }

  lemma {:induction false} JoinHasNoNewline(parts: seq<string>)
    requires forall p :: p in parts ==> '\n' !in p
    ensures '\n' !in Join(parts, "\t")
  {
    if parts != [] {
      assert parts[0] in parts && forall p :: p in parts[1..] ==> p in parts;
      JoinHasNoNewline(parts[1..]);
    }
  }

  // ── rows come back ───────────────────────────────────────────────────────

  /** A table whose header the format can carry: columns with distinct names free of tabs and
      newlines, and if there is only one, not with an empty name. */
  predicate GoodHeader(t: Table) {
    && |t.columns| >= 1
    && (|t.columns| == 1 ==> t.columns[0].name != "")
    && (forall k :: 0 <= k < |t.columns| ==> '\t' !in t.columns[k].name && '\n' !in t.columns[k].name)
    && (forall j, k :: 0 <= j < k < |t.columns| ==> t.columns[j].name != t.columns[k].name)
  }

  predicate HasColumns(t: Table, row: Row) {
    row.Keys == (set c | c in t.columns :: c.name)
  }

  /** A row that has exactly the table's columns, with values of their application types. */
  predicate TypedRow(t: Table, row: Row) {
    HasColumns(t, row) && forall c :: c in t.columns ==> Fits(row[c.name], c.applicationType)
  }

  /** A row whose values the format can carry. */
  predicate GoodRow(t: Table, row: Row) {
    HasColumns(t, row) && forall c :: c in t.columns ==> Carries(row[c.name], c.applicationType)
  }

  lemma {:induction false} ColumnAt(columns: seq<Column>, k: nat)
    requires k < |columns| && forall i, j :: 0 <= i < j < |columns| ==> columns[i].name != columns[j].name
    ensures FindColumn(columns, columns[k].name) == Some(columns[k])
  {
    if k > 0 {
      ColumnAt(columns[1..], k - 1);
    }
  }

  /** The first `n` columns of the row have been read. */
  ghost predicate ReadUpTo(t: Table, row: Row, part: Row, n: nat)
    requires n <= |t.columns|
  {
    && (forall name :: name in part ==> name in row && part[name] == row[name])
    && (forall k :: 0 <= k < n ==> t.columns[k].name in part)
  }

  lemma ColumnReads(t: Table, row: Row, n: nat)
    requires GoodHeader(t) && GoodRow(t, row) && n < |t.columns|
    ensures var col := t.columns[n];
            && t.Col(col.name) == Some(col) && col.name in row
            && ParseCell(CellText(Get(row, col.name)), col.applicationType) == row[col.name]
  {
    ColumnAt(t.columns, n);
    assert t.columns[n] in t.columns;
    CellReads(row[t.columns[n].name], t.columns[n].applicationType);
  }

  lemma ReadMore(t: Table, row: Row, part: Row, n: nat)
    requires n < |t.columns| && ReadUpTo(t, row, part, n) && t.columns[n].name in row
    ensures ReadUpTo(t, row, part[t.columns[n].name := row[t.columns[n].name]], n + 1)
  {
  }

  lemma OneMoreField(t: Table, row: Row, n: nat)
    requires 0 < n <= |t.columns| && t.Col(t.columns[n - 1].name) == Some(t.columns[n - 1])
    ensures var col := t.columns[n - 1];
            ParseFields(t, Names(t), Cells(t, row)[..n]) ==
            ParseFields(t, Names(t), Cells(t, row)[..n - 1])[col.name := ParseCell(CellText(Get(row, col.name)), col.applicationType)]
  {
    var fields := Cells(t, row)[..n];
    assert fields[..|fields| - 1] == Cells(t, row)[..n - 1];
  }

  lemma {:induction false} FieldsRead(t: Table, row: Row, n: nat)
    requires GoodHeader(t) && GoodRow(t, row) && n <= |t.columns|
    ensures ReadUpTo(t, row, ParseFields(t, Names(t), Cells(t, row)[..n]), n)
  {
    if n > 0 {
      var fields := Cells(t, row)[..n];
      assert fields[..n - 1] == Cells(t, row)[..n - 1];
      FieldsRead(t, row, n - 1);
      ColumnReads(t, row, n - 1);
      OneMoreField(t, row, n);
      ReadMore(t, row, ParseFields(t, Names(t), fields[..n - 1]), n - 1);
    }
  }

  lemma RowReads(t: Table, row: Row)
    requires GoodHeader(t) && GoodRow(t, row)
    ensures ParseFields(t, Names(t), Cells(t, row)) == row
  {
    FieldsRead(t, row, |t.columns|);
    assert Cells(t, row)[..|t.columns|] == Cells(t, row);
    SameRow(t, row, ParseFields(t, Names(t), Cells(t, row)));
  }

  lemma SameRow(t: Table, row: Row, read: Row)
    requires GoodRow(t, row) && ReadUpTo(t, row, read, |t.columns|)
    ensures read == row
  {
    forall name | name in row ensures name in read {
      var c :| c in t.columns && c.name == name;
      var k :| 0 <= k < |t.columns| && t.columns[k] == c;
    }
  }

  lemma CellsClean(t: Table, row: Row)
    requires GoodRow(t, row)
    ensures forall p :: p in Cells(t, row) ==> '\t' !in p && '\n' !in p
  {
    forall k | 0 <= k < |t.columns| ensures '\t' !in Cells(t, row)[k] && '\n' !in Cells(t, row)[k] {
      assert t.columns[k] in t.columns;
      CellReads(row[t.columns[k].name], t.columns[k].applicationType);
    }
  }

  /** The row has a line of its own: it does not consist of one null cell. */
  function HasLine(t: Table): Row -> bool {
    (row: Row) => Join(Cells(t, row), "\t") != ""
  }

  lemma LineReads(t: Table, row: Row)
    requires GoodHeader(t) && GoodRow(t, row)
    ensures var line := Join(Cells(t, row), "\t");
            && '\n' !in line
            && ParseFields(t, Names(t), Split(line, '\t')) == row
            && (HasLine(t)(row) <==> |t.columns| > 1 || row[t.columns[0].name] != Null)
  {
    CellsClean(t, row);
    JoinHasNoNewline(Cells(t, row));
    SplitJoin(Cells(t, row));
    RowReads(t, row);
    assert t.columns[0] in t.columns;
    CellReads(row[t.columns[0].name], t.columns[0].applicationType);
  }

  /** The lines are read back as the rows that have one. */
  lemma {:induction false} LinesRead(t: Table, rows: seq<Row>)
    requires GoodHeader(t) && forall row :: row in rows ==> GoodRow(t, row)
    ensures ParseLines(t, Names(t), Split(Lines(t, rows), '\n')) == Keep(rows, HasLine(t))
  {
    if rows != [] {
      assert rows[0] in rows && forall row :: row in rows[1..] ==> row in rows;
      LinesRead(t, rows[1..]);
      LineReads(t, rows[0]);
      var line, rest := Join(Cells(t, rows[0]), "\t"), Split(Lines(t, rows[1..]), '\n');
      SplitFirst(line, Lines(t, rows[1..]), '\n');
      ParseCons(t, Names(t), line, rest);
    } else {
      BlankLine(t, Names(t));
    }
  }

  lemma ParseCons(t: Table, names: seq<string>, line: string, rest: seq<string>)
    ensures ParseLines(t, names, [line] + rest) ==
            (if line == "" then [] else [ParseFields(t, names, Split(line, '\t'))]) + ParseLines(t, names, rest)
  {
    assert ([line] + rest)[0] == line && ([line] + rest)[1..] == rest;
  }

  lemma BlankLine(t: Table, names: seq<string>)
    ensures ParseLines(t, names, Split("", '\n')) == []
  {
    var one: seq<string> := [""];
    var none: seq<string> := [];
    assert Split("", '\n') == one && one[1..] == none;
    assert ParseLines(t, names, none) == [];
  }

  /** What is exported is imported: every list of rows comes back, but for those that have no
      line. */
  lemma DocumentReads(t: Table, rows: seq<Row>)
    requires GoodHeader(t) && forall row :: row in rows ==> GoodRow(t, row)
    ensures Parse(t, Document(t, rows)) == Keep(rows, HasLine(t))
    ensures |t.columns| > 1 ==> Parse(t, Document(t, rows)) == rows
  {
    var names := Names(t);
    var header := Join(names, "\t");
    JoinHasNoNewline(names);
    SplitFirst(header, Lines(t, rows), '\n');
    SplitJoin(names);
    LinesRead(t, rows);
    var lines := [header] + Split(Lines(t, rows), '\n');
    assert lines[1..] == Split(Lines(t, rows), '\n');
    if |t.columns| > 1 {
      forall row | row in rows ensures HasLine(t)(row) {
        LineReads(t, row);
      }
      KeepEvery(rows, HasLine(t));
    }
  }

  // ── exactly what comes back ──────────────────────────────────────────────

  /** Empty text is written as null is. */
  function Blanked(row: Row): Row {
    map name | name in row :: if row[name] == Text("") then Null else row[name]
  }

  function AllBlanked(rows: seq<Row>): seq<Row> {
    seq(|rows|, k requires 0 <= k < |rows| => Blanked(rows[k]))
  }

  lemma {:induction false} BlankedLines(t: Table, rows: seq<Row>)
    requires forall row :: row in rows ==> HasColumns(t, row)
    ensures Lines(t, AllBlanked(rows)) == Lines(t, rows)
  {
    if rows != [] {
      assert rows[0] in rows && forall row :: row in rows[1..] ==> row in rows;
      BlankedLines(t, rows[1..]);
      assert AllBlanked(rows)[1..] == AllBlanked(rows[1..]);
      assert Cells(t, Blanked(rows[0])) == Cells(t, rows[0]);
    }
  }

  /** The format keeps the row: it has no empty text, and is not one null cell. */
  predicate Kept(t: Table, row: Row)
    requires |t.columns| >= 1
  {
    && (forall c :: c in t.columns ==> Get(row, c.name) != Text(""))
    && (|t.columns| > 1 || Get(row, t.columns[0].name) != Null)
  }

  lemma BlankedGood(t: Table, row: Row)
    requires GoodHeader(t) && TypedRow(t, row)
    ensures GoodRow(t, Blanked(row))
    ensures Kept(t, row) <==> Blanked(row) == row && HasLine(t)(Blanked(row))
  {
    assert t.columns[0] in t.columns;
    LineReads(t, Blanked(row));
    BlankedSame(t, row);
  }

  lemma BlankedSame(t: Table, row: Row)
    requires HasColumns(t, row)
    ensures Blanked(row) == row <==> forall c :: c in t.columns ==> Get(row, c.name) != Text("")
  {
    if Blanked(row) == row {
      forall c | c in t.columns ensures Get(row, c.name) != Text("") {
        assert Blanked(row)[c.name] == row[c.name];
      }
    }
    if forall c :: c in t.columns ==> Get(row, c.name) != Text("") {
      forall name | name in row ensures row[name] != Text("") {
        var c :| c in t.columns && c.name == name;
      }
      assert Blanked(row) == row;
    }
  }

  /** Of rows of the columns' application types exactly those lists come back unchanged in
      which no cell is an empty text and, in a table of one column, no cell is null: such a
      row is a blank line, and lost. */
  lemma DocumentReadsExactly(t: Table, rows: seq<Row>)
    requires GoodHeader(t) && forall row :: row in rows ==> TypedRow(t, row)
    ensures Parse(t, Document(t, rows)) == rows <==> forall row :: row in rows ==> Kept(t, row)
  {
    var blanked := AllBlanked(rows);
    forall row | row in blanked ensures GoodRow(t, row) {
      var k :| 0 <= k < |blanked| && blanked[k] == row;
      BlankedGood(t, rows[k]);
    }
    BlankedLines(t, rows);
    DocumentReads(t, blanked);
    KeepWhole(blanked, HasLine(t));
    assert Document(t, blanked) == Document(t, rows);
    if Keep(blanked, HasLine(t)) == rows {
      assert blanked == rows;
      forall row | row in rows ensures Kept(t, row) {
        var k :| 0 <= k < |rows| && rows[k] == row;
        BlankedGood(t, row);
        assert blanked[k] == Blanked(row);
      }
    }
    if forall row :: row in rows ==> Kept(t, row) {
      forall k | 0 <= k < |rows| ensures blanked[k] == rows[k] && HasLine(t)(blanked[k]) {
        assert rows[k] in rows;
        BlankedGood(t, rows[k]);
      }
      assert blanked == rows;
    }
  }

  // ── the header decides ───────────────────────────────────────────────────

  /** The header's `k`-th name is `name`, the line has a `k`-th field, and no later one has the
      name as well. */
  predicate NamesField(names: seq<string>, fields: seq<string>, name: string, k: nat) {
    && k < |names| && k < |fields| && names[k] == name
    && forall j :: k < j < |names| && j < |fields| ==> names[j] != name
  }

  /** The row says of each name what the header and the fields say: a column of the table that
      the header names has the field at that position, read by the column's application type;
      a column it does not name, a name that is no column, and a field beyond the header set
      nothing. */
  ghost predicate RowSays(t: Table, names: seq<string>, fields: seq<string>, row: Row) {
    forall name ::
      && (name in row <==> t.Col(name).Some? && exists k: nat :: NamesField(names, fields, name, k))
      && (forall k: nat :: name in row && NamesField(names, fields, name, k) ==>
            row[name] == ParseCell(fields[k], t.Col(name).value.applicationType))
  }

  lemma NamesFieldOnce(names: seq<string>, fields: seq<string>, name: string, j: nat, k: nat)
    requires NamesField(names, fields, name, j) && NamesField(names, fields, name, k)
    ensures j == k
  {
  }

  /** Another field names what the fields before it name, but for its own name. */
  lemma NamesFieldMore(names: seq<string>, fields: seq<string>, name: string, k: nat)
    requires fields != []
    ensures var n := |fields| - 1;
            NamesField(names, fields, name, k) <==>
            if n < |names| && names[n] == name then k == n else NamesField(names, fields[..n], name, k)
  {
    var n := |fields| - 1;
    if NamesField(names, fields, name, k) && !(n < |names| && names[n] == name) {
      assert k < n;
    }
  }

  lemma {:induction false} FieldsSay(t: Table, names: seq<string>, fields: seq<string>)
    ensures RowSays(t, names, fields, ParseFields(t, names, fields))
    decreases |fields|
  {
    var row := ParseFields(t, names, fields);
    if fields != [] {
      FieldsSay(t, names, fields[..|fields| - 1]);
    }
    forall name
      ensures name in row <==> t.Col(name).Some? && exists k: nat :: NamesField(names, fields, name, k)
      ensures forall k: nat :: name in row && NamesField(names, fields, name, k) ==>
                row[name] == ParseCell(fields[k], t.Col(name).value.applicationType)
    {
      if fields != [] {
        OneFieldSays(t, names, fields, name);
      }
    }
  }

  lemma OneFieldSays(t: Table, names: seq<string>, fields: seq<string>, name: string)
    requires fields != [] && RowSays(t, names, fields[..|fields| - 1], ParseFields(t, names, fields[..|fields| - 1]))
    ensures var row := ParseFields(t, names, fields);
            && (name in row <==> t.Col(name).Some? && exists k: nat :: NamesField(names, fields, name, k))
            && (forall k: nat :: name in row && NamesField(names, fields, name, k) ==>
                  row[name] == ParseCell(fields[k], t.Col(name).value.applicationType))
  {
    var n := |fields| - 1;
    forall k: nat
      ensures NamesField(names, fields, name, k) <==>
              if n < |names| && names[n] == name then k == n else NamesField(names, fields[..n], name, k)
    {
      NamesFieldMore(names, fields, name, k);
    }
    assert n < |names| && names[n] == name ==> NamesField(names, fields, name, n);
  }

  /** A line of tab-separated fields. */
  predicate CleanLine(fields: seq<string>) {
    fields != [] && forall p :: p in fields ==> '\t' !in p && '\n' !in p
  }

  function LineText(fields: seq<string>): string {
    Join(fields, "\t")
  }

  function BodyText(body: seq<seq<string>>): string {
    if body == [] then "" else ['\n'] + LineText(body[0]) + BodyText(body[1..])
  }

  function LineTexts(body: seq<seq<string>>): seq<string> {
    if body == [] then [] else [LineText(body[0])] + LineTexts(body[1..])
  }

  function NotBlank(): seq<string> -> bool {
    (fields: seq<string>) => LineText(fields) != ""
  }

  /** The rows say what their lines say, in order. */
  ghost predicate RowsSay(t: Table, names: seq<string>, body: seq<seq<string>>, rows: seq<Row>) {
    |rows| == |body| && forall k :: 0 <= k < |rows| ==> RowSays(t, names, body[k], rows[k])
  }

  lemma {:induction false} SplitBody(line: string, body: seq<seq<string>>)
    requires '\n' !in line && forall fields :: fields in body ==> CleanLine(fields)
    ensures Split(line + BodyText(body), '\n') == [line] + LineTexts(body)
    decreases |body|
  {
    if body == [] {
      assert line + "" == line;
      SplitNone(line, '\n');
    } else {
      assert body[0] in body && forall fields :: fields in body[1..] ==> fields in body;
      var next := LineText(body[0]);
      JoinHasNoNewline(body[0]);
      SplitBody(next, body[1..]);
      SplitFirst(line, next + BodyText(body[1..]), '\n');
      assert line + BodyText(body) == line + ['\n'] + (next + BodyText(body[1..]));
    }
  }

  lemma {:induction false} LinesSay(t: Table, names: seq<string>, body: seq<seq<string>>)
    requires forall fields :: fields in body ==> CleanLine(fields)
    ensures RowsSay(t, names, Keep(body, NotBlank()), ParseLines(t, names, LineTexts(body)))
    decreases |body|
  {
    if body != [] {
      assert body[0] in body && forall fields :: fields in body[1..] ==> fields in body;
      LinesSay(t, names, body[1..]);
      ParseCons(t, names, LineText(body[0]), LineTexts(body[1..]));
      SplitJoin(body[0]);
      FieldsSay(t, names, body[0]);
      var row, rows := ParseFields(t, names, body[0]), ParseLines(t, names, LineTexts(body[1..]));
      OneMoreSays(t, names, body[0], row, Keep(body[1..], NotBlank()), rows);
      assert [] + rows == rows;
    }
  }

  lemma OneMoreSays(t: Table, names: seq<string>, fields: seq<string>, row: Row, body: seq<seq<string>>, rows: seq<Row>)
    requires RowSays(t, names, fields, row) && RowsSay(t, names, body, rows)
    ensures RowsSay(t, names, [fields] + body, [row] + rows)
  {
  }

  /** Any document, whatever its header: each line that is not blank is a row that says what
      the header and its fields say. A document that begins with a blank line has no rows. */
  lemma ImportSays(t: Table, names: seq<string>, body: seq<seq<string>>)
    requires CleanLine(names) && forall fields :: fields in body ==> CleanLine(fields)
    ensures var text := LineText(names) + BodyText(body);
            if LineText(names) == "" then Parse(t, text) == []
            else RowsSay(t, names, Keep(body, NotBlank()), Parse(t, text))
  {
    JoinHasNoNewline(names);
    SplitBody(LineText(names), body);
    SplitJoin(names);
    LinesSay(t, names, body);
    assert ([LineText(names)] + LineTexts(body))[1..] == LineTexts(body);
  }

  lemma {:induction false} FieldsOf(line: string)
    requires '\n' !in line
    ensures CleanLine(Split(line, '\t')) && LineText(Split(line, '\t')) == line
  {
    if line != "" {
      FieldsOf(line[1..]);
      var rest := Split(line[1..], '\t');
      assert [line[0]] + line[1..] == line;
      if line[0] == '\t' {
        assert ([""] + rest)[1..] == rest;
      } else {
        assert rest[0] in rest && forall p :: p in rest[1..] ==> p in rest;
        assert ([[line[0]] + rest[0]] + rest[1..])[1..] == rest[1..];
      }
    }
  }

  /** The first line of a text, if it has more than one. */
  lemma {:induction false} CutLine(text: string) returns (line: string, rest: string)
    requires '\n' in text
    ensures '\n' !in line && text == line + ['\n'] + rest
  {
    if text[0] == '\n' {
      line, rest := "", text[1..];
    } else {
      line, rest := CutLine(text[1..]);
      line := [text[0]] + line;
    }
  }

  /** Every text is a document. */
  lemma {:induction false} EveryTextIsDocument(text: string) returns (names: seq<string>, body: seq<seq<string>>)
    ensures CleanLine(names) && forall fields :: fields in body ==> CleanLine(fields)
    ensures text == LineText(names) + BodyText(body)
    decreases |text|
  {
    if '\n' !in text {
      FieldsOf(text);
      names, body := Split(text, '\t'), [];
    } else {
      var line, rest := CutLine(text);
      FieldsOf(line);
      names := Split(line, '\t');
      var next, others := EveryTextIsDocument(rest);
      body := [next] + others;
      BodyCons(next, others);
      assert line + ['\n'] + rest == line + (['\n'] + rest);
    }
  }

  lemma BodyCons(next: seq<string>, others: seq<seq<string>>)
    ensures BodyText([next] + others) == ['\n'] + (LineText(next) + BodyText(others))
  {
    assert ([next] + others)[1..] == others;
  }

  // ── other orders of the columns ──────────────────────────────────────────

  /** The tables have the same columns, in any order. */
  ghost predicate SameColumns(t: Table, u: Table) {
    forall c :: c in t.columns <==> c in u.columns
  }

  lemma SameCol(t: Table, u: Table, name: string)
    requires GoodHeader(t) && GoodHeader(u) && SameColumns(t, u)
    ensures t.Col(name) == u.Col(name)
  {
    if t.Col(name).Some? {
      var c := t.Col(name).value;
      var k :| 0 <= k < |u.columns| && u.columns[k] == c;
      ColumnAt(u.columns, k);
    }
  }

  lemma {:induction false} SameFields(t: Table, u: Table, names: seq<string>, fields: seq<string>)
    requires forall name :: t.Col(name) == u.Col(name)
    ensures ParseFields(t, names, fields) == ParseFields(u, names, fields)
    decreases |fields|
  {
    if fields != [] {
      SameFields(t, u, names, fields[..|fields| - 1]);
    }
  }

  lemma {:induction false} SameLines(t: Table, u: Table, names: seq<string>, lines: seq<string>)
    requires forall name :: t.Col(name) == u.Col(name)
    ensures ParseLines(t, names, lines) == ParseLines(u, names, lines)
  {
    if lines != [] {
      SameLines(t, u, names, lines[1..]);
      SameFields(t, u, names, Split(lines[0], '\t'));
    }
  }

  /** A document exported with the columns in another order is read back just as well. */
  lemma AnyOrderReads(t: Table, u: Table, rows: seq<Row>)
    requires GoodHeader(t) && GoodHeader(u) && SameColumns(t, u) && forall row :: row in rows ==> GoodRow(t, row)
    ensures Parse(t, Document(u, rows)) == Keep(rows, HasLine(u))
    ensures |u.columns| > 1 ==> Parse(t, Document(u, rows)) == rows
  {
    forall name ensures t.Col(name) == u.Col(name) {
      SameCol(t, u, name);
    }
    forall row | row in rows ensures GoodRow(u, row) {
      assert (set c | c in t.columns :: c.name) == (set c | c in u.columns :: c.name);
    }
    DocumentReads(u, rows);
    var lines := Split(Document(u, rows), '\n');
    SameLines(t, u, Split(lines[0], '\t'), lines[1..]);
  }
}
