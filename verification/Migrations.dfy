/** The canonical text of a migration, the input of its checksum. */
module Migrations {
  import opened Strings
  import opened Json

  datatype View = View(name: string, sql: string)

  datatype VirtualTable = VirtualTable(name: string, moduleName: string, args: seq<string>)

  datatype MigrationOp =
    | CreateTable(name: string)
    | DropTable(name: string)
    | AddColumn(table: string, column: string)
    | DropColumn(table: string, column: string)
    | AlterColumn(table: string, column: string)
    | AddIndex(table: string, index: string)
    | DropIndex(table: string, index: string)
    | AddUnique(table: string, constraint: string)
    | DropUnique(table: string, constraint: string)
    | AddForeignKey(table: string, constraint: string)
    | DropForeignKey(table: string, constraint: string)
    | AddCheck(table: string, constraint: string)
    | DropCheck(table: string, constraint: string)
    | CreateProcedure(name: string, procedure: Json)
    | ReplaceProcedure(name: string, procedure: Json)
    | DropProcedure(name: string)
    | CreateTrigger(name: string, trigger: Json)
    | ReplaceTrigger(name: string, trigger: Json)
    | DropTrigger(name: string)
    | CreateVirtualTable(virtual: VirtualTable)
    | DropVirtualTable(name: string)
    | CreateView(name: string, view: View)
    | ReplaceView(name: string, view: View)
    | DropView(name: string)
    | RawSql(sql: string)

  // ── the text of an operation ─────────────────────────────────────────────

  function StrItems(args: seq<string>): seq<Json> {
    seq(|args|, k requires 0 <= k < |args| => Str(args[k]))
  }

  function Tag(op: MigrationOp): string {
    match op
    case CreateTable(_) => "create_table"
    case DropTable(_) => "drop_table"
    case AddColumn(_, _) => "add_column"
    case DropColumn(_, _) => "drop_column"
    case AlterColumn(_, _) => "alter_column"
    case AddIndex(_, _) => "add_index"
    case DropIndex(_, _) => "drop_index"
    case AddUnique(_, _) => "add_unique"
    case DropUnique(_, _) => "drop_unique"
    case AddForeignKey(_, _) => "add_foreign_key"
    case DropForeignKey(_, _) => "drop_foreign_key"
    case AddCheck(_, _) => "add_check"
    case DropCheck(_, _) => "drop_check"
    case CreateProcedure(_, _) => "create_procedure"
    case ReplaceProcedure(_, _) => "replace_procedure"
    case DropProcedure(_) => "drop_procedure"
    case CreateTrigger(_, _) => "create_trigger"
    case ReplaceTrigger(_, _) => "replace_trigger"
    case DropTrigger(_) => "drop_trigger"
    case CreateVirtualTable(_) => "create_virtual_table"
    case DropVirtualTable(_) => "drop_virtual_table"
    case CreateView(_, _) => "create_view"
    case ReplaceView(_, _) => "replace_view"
    case DropView(_) => "drop_view"
    case RawSql(_) => "raw_sql"
  }

  /** The position of an operation's variant in the enumeration. */
  function OpKind(op: MigrationOp): nat {
    match op
    case CreateTable(_) => 0
    case DropTable(_) => 1
    case AddColumn(_, _) => 2
    case DropColumn(_, _) => 3
    case AlterColumn(_, _) => 4
    case AddIndex(_, _) => 5
    case DropIndex(_, _) => 6
    case AddUnique(_, _) => 7
    case DropUnique(_, _) => 8
    case AddForeignKey(_, _) => 9
    case DropForeignKey(_, _) => 10
    case AddCheck(_, _) => 11
    case DropCheck(_, _) => 12
    case CreateProcedure(_, _) => 13
    case ReplaceProcedure(_, _) => 14
    case DropProcedure(_) => 15
    case CreateTrigger(_, _) => 16
    case ReplaceTrigger(_, _) => 17
    case DropTrigger(_) => 18
    case CreateVirtualTable(_) => 19
    case DropVirtualTable(_) => 20
    case CreateView(_, _) => 21
    case ReplaceView(_, _) => 22
    case DropView(_) => 23
    case RawSql(_) => 24
  }

  /** The members after `op`. */
  function Fields(op: MigrationOp): seq<Member> {
    match op
    case CreateTable(n) => [Member("name", Str(n))]
    case DropTable(n) => [Member("name", Str(n))]
    case AddColumn(t, c) => [Member("table", Str(t)), Member("column", Str(c))]
    case DropColumn(t, c) => [Member("table", Str(t)), Member("column", Str(c))]
    case AlterColumn(t, c) => [Member("table", Str(t)), Member("column", Str(c))]
    case AddIndex(t, i) => [Member("table", Str(t)), Member("index", Str(i))]
    case DropIndex(t, i) => [Member("table", Str(t)), Member("index", Str(i))]
    case AddUnique(t, c) => [Member("table", Str(t)), Member("constraint", Str(c))]
    case DropUnique(t, c) => [Member("table", Str(t)), Member("constraint", Str(c))]
    case AddForeignKey(t, c) => [Member("table", Str(t)), Member("constraint", Str(c))]
    case DropForeignKey(t, c) => [Member("table", Str(t)), Member("constraint", Str(c))]
    case AddCheck(t, c) => [Member("table", Str(t)), Member("constraint", Str(c))]
    case DropCheck(t, c) => [Member("table", Str(t)), Member("constraint", Str(c))]
    case CreateProcedure(n, p) => [Member("name", Str(n)), Member("procedure", p)]
    case ReplaceProcedure(n, p) => [Member("name", Str(n)), Member("procedure", p)]
    case DropProcedure(n) => [Member("name", Str(n))]
    case CreateTrigger(n, t) => [Member("name", Str(n)), Member("trigger", t)]
    case ReplaceTrigger(n, t) => [Member("name", Str(n)), Member("trigger", t)]
    case DropTrigger(n) => [Member("name", Str(n))]
    case CreateVirtualTable(v) =>
      [Member("name", Str(v.name)), Member("module", Str(v.moduleName)), Member("args", Arr(StrItems(v.args)))]
    case DropVirtualTable(n) => [Member("name", Str(n))]
    case CreateView(n, v) => [Member("name", Str(n)), Member("sql", Str(v.sql))]
    case ReplaceView(n, v) => [Member("name", Str(n)), Member("sql", Str(v.sql))]
    case DropView(n) => [Member("name", Str(n))]
    case RawSql(q) => [Member("sql", Str(q))]
  }

  /** The fixed keys are written as they are; a payload is written as compact JSON. */
  function FieldsText(fields: seq<Member>): string {
    if fields == [] then ""
    else ",\"" + fields[0].key + "\":" + Print(fields[0].value) + FieldsText(fields[1..])
  }

  function CanonicalOp(op: MigrationOp): string {
    "{\"op\":\"" + Tag(op) + "\"" + FieldsText(Fields(op)) + "}"
  }

  function CanonicalOps(ops: seq<MigrationOp>): seq<string> {
    seq(|ops|, k requires 0 <= k < |ops| => CanonicalOp(ops[k]))
  }

  function CanonicalContent(version: int, name: string, ops: seq<MigrationOp>): string {
    "{\"version\":" + FormatInt(version) + ",\"name\":" + JsonString(name)
    + ",\"ops\":[" + Join(CanonicalOps(ops), ",") + "]}"
  }

  // ── the same migration as a JSON value ───────────────────────────────────

  function OpJson(op: MigrationOp): Json {
    Obj([Member("op", Str(Tag(op)))] + Fields(op))
  }

  function OpsJson(ops: seq<MigrationOp>): seq<Json> {
    seq(|ops|, k requires 0 <= k < |ops| => OpJson(ops[k]))
  }

  function ContentMembers(version: int, name: string, ops: seq<MigrationOp>): seq<Member> {
    [Member("version", Num(version)), Member("name", Str(name)), Member("ops", Arr(OpsJson(ops)))]
  }

  /** What the text keeps of an operation: all but the name inside a view definition. */
  function Kept(op: MigrationOp): MigrationOp {
    match op
    case CreateView(n, v) => CreateView(n, View("", v.sql))
    case ReplaceView(n, v) => ReplaceView(n, View("", v.sql))
    case _ => op
  }

  function KeptOps(ops: seq<MigrationOp>): seq<MigrationOp> {
    seq(|ops|, k requires 0 <= k < |ops| => Kept(ops[k]))
  }

  // ── the text is the compact JSON of that value ───────────────────────────

  predicate PlainChar(c: char) {
    ' ' <= c && c != '"' && c != '\\'
  }

  predicate Plain(s: string) {
    forall c :: c in s ==> PlainChar(c)
  }

  lemma {:induction false} PlainText(s: string)
    requires Plain(s)
    ensures EscapeText(s) == s
    decreases |s|
  {
    if s != "" {
      var rest := s[1..];
      assert s[0] in s && forall c :: c in rest ==> c in s;
      PlainText(rest);
      assert PlainChar(s[0]) && EscapeChar(s[0]) == [s[0]];
      assert s == [s[0]] + rest;
    }
  }

  predicate PlainKeys(ms: seq<Member>) {
    forall k :: 0 <= k < |ms| ==> Plain(ms[k].key)
  }

  lemma PlainOp(op: MigrationOp)
    ensures Plain(Tag(op))
  {
    if OpKind(op) < 8 {
      PlainTagOfColumns(op);
    } else if OpKind(op) < 12 {
      PlainTagOfConstraints(op);
    } else if OpKind(op) < 16 {
      PlainTagOfProcedures(op);
    } else {
      PlainTagOfViews(op);
    }
  }

  lemma PlainTagOfColumns(op: MigrationOp)
    requires OpKind(op) < 8
    ensures Plain(Tag(op))
  {
  }

  lemma PlainTagOfConstraints(op: MigrationOp)
    requires 8 <= OpKind(op) < 12
    ensures Plain(Tag(op))
  {
  }

  lemma PlainTagOfProcedures(op: MigrationOp)
    requires 12 <= OpKind(op) < 16
    ensures Plain(Tag(op))
  {
  }

  lemma PlainTagOfViews(op: MigrationOp)
    requires 16 <= OpKind(op)
    ensures Plain(Tag(op))
  {
  }

  lemma PlainFields(op: MigrationOp)
    ensures PlainKeys(Fields(op))
  {
    if OpKind(op) < 13 {
      PlainTableFields(op);
    } else {
      PlainObjectFields(op);
    }
  }

  lemma PlainTableFields(op: MigrationOp)
    requires OpKind(op) < 13
    ensures PlainKeys(Fields(op))
  {
    assert Plain("name") && Plain("table") && Plain("column") && Plain("index") && Plain("constraint");
    var ms := Fields(op);
    assert 1 <= |ms| <= 2 && Plain(ms[0].key);
    assert |ms| > 1 ==> Plain(ms[1].key);
  }

  lemma PlainObjectFields(op: MigrationOp)
    requires 13 <= OpKind(op)
    ensures PlainKeys(Fields(op))
  {
    assert Plain("name") && Plain("procedure") && Plain("trigger") && Plain("module") && Plain("args") && Plain("sql");
    var ms := Fields(op);
    assert 1 <= |ms| <= 3 && Plain(ms[0].key);
    assert |ms| > 1 ==> Plain(ms[1].key);
    assert |ms| > 2 ==> Plain(ms[2].key);
  }

  lemma {:induction false} MembersText(ms: seq<Member>)
    requires PlainKeys(ms)
    ensures PrintMembers(ms, false) == FieldsText(ms) + "}"
    decreases |ms|
  {
    if ms == [] {
      assert FieldsText(ms) + "}" == ['}'];
    } else {
      var m, rest := ms[0], ms[1..];
      assert forall k :: 0 <= k < |rest| ==> rest[k] == ms[k + 1];
      MembersText(rest);
      MemberText(m, Print(m.value), FieldsText(rest), "}");
    }
  }

  /** A plain key between its quotes, and the closing brace moved outward. */
  lemma MemberText(m: Member, value: string, rest: string, close: string)
    requires Plain(m.key)
    ensures [','] + JsonString(m.key) + [':'] + value + (rest + close) == ",\"" + m.key + "\":" + value + rest + close
  {
    PlainText(m.key);
    var front := [','] + JsonString(m.key) + [':'];
    assert front == ",\"" + m.key + "\":";
    assert front + value + (rest + close) == front + value + rest + close;
  }

  /** One operation is one JSON object: its tag, then its fields. */
  lemma OpIsJson(op: MigrationOp)
    ensures CanonicalOp(op) == Print(OpJson(op))
  {
    PlainOp(op);
    PlainFields(op);
    TaggedObject(Tag(op), Fields(op));
  }

  lemma TaggedObject(tag: string, fields: seq<Member>)
    requires Plain(tag) && PlainKeys(fields)
    ensures Print(Obj([Member("op", Str(tag))] + fields)) == "{\"op\":\"" + tag + "\"" + FieldsText(fields) + "}"
  {
    MembersText(fields);
    PlainText(tag);
    var ms := [Member("op", Str(tag))] + fields;
    assert ms[0] == Member("op", Str(tag)) && ms[1..] == fields;
    PlainText("op");
    assert PrintMembers(ms, true)
        == [] + JsonString("op") + [':'] + JsonString(tag) + (FieldsText(fields) + "}");
    TagText(tag, FieldsText(fields));
  }

  lemma TagText(tag: string, fields: string)
    ensures ['{'] + ([] + (['"'] + "op" + ['"']) + [':'] + (['"'] + tag + ['"']) + (fields + "}")) ==
            "{\"op\":\"" + tag + "\"" + fields + "}"
  {
    var front := ['{'] + ([] + (['"'] + "op" + ['"']) + [':']);
    assert front == "{\"op\":";
    assert ['{'] + ([] + (['"'] + "op" + ['"']) + [':'] + (['"'] + tag + ['"']) + (fields + "}"))
        == front + (['"'] + tag + ['"']) + fields + "}";
    assert front + (['"'] + tag + ['"']) == "{\"op\":\"" + tag + "\"";
  }

  lemma {:induction false} ItemsText(items: seq<Json>, texts: seq<string>, first: bool)
    requires |texts| == |items| && forall k :: 0 <= k < |items| ==> texts[k] == Print(items[k])
    ensures items != [] || first ==> PrintItems(items, first) == Comma(first) + Join(texts, ",") + "]"
    decreases |items|
  {
    if |items| == 1 {
      assert PrintItems(items[1..], false) == "]";
    } else if |items| > 1 {
      ItemsText(items[1..], texts[1..], false);
      ItemText(Comma(first), texts[0], Join(texts[1..], ","));
    }
  }

  lemma ItemText(comma: string, head: string, tail: string)
    ensures comma + head + ([','] + tail + "]") == comma + (head + "," + tail) + "]"
  {
  }

  lemma ContentIsJson(version: int, name: string, ops: seq<MigrationOp>)
    ensures CanonicalContent(version, name, ops) == Print(Obj(ContentMembers(version, name, ops)))
  {
    forall k | 0 <= k < |ops| ensures CanonicalOps(ops)[k] == Print(OpsJson(ops)[k]) {
      OpIsJson(ops[k]);
    }
    ItemsText(OpsJson(ops), CanonicalOps(ops), true);
    var joined := Join(CanonicalOps(ops), ",");
    Bracketed(joined);
    assert Print(Arr(OpsJson(ops))) == "[" + joined + "]";
    ContentText(ContentMembers(version, name, ops), FormatInt(version), JsonString(name), joined);
  }

  lemma Bracketed(joined: string)
    ensures ['['] + ([] + joined + "]") == "[" + joined + "]"
  {
  }

  lemma ContentText(ms: seq<Member>, v: string, n: string, joined: string)
    requires |ms| == 3 && ms[0].key == "version" && ms[1].key == "name" && ms[2].key == "ops"
    requires Print(ms[0].value) == v && Print(ms[1].value) == n && Print(ms[2].value) == "[" + joined + "]"
    ensures Print(Obj(ms)) == "{\"version\":" + v + ",\"name\":" + n + ",\"ops\":[" + joined + "]}"
  {
    assert Plain(ms[0].key) && Plain(ms[1].key) && Plain(ms[2].key);
    MembersText(ms);
    ThreeFields(ms, v, n, "[" + joined + "]");
    FirstComma(ms);
    CloseContent(PrintMembers(ms, true), v, n, joined);
  }

  lemma CloseContent(members: string, v: string, n: string, joined: string)
    requires [','] + members == ",\"version\":" + v + ",\"name\":" + n + ",\"ops\":" + ("[" + joined + "]") + "}"
    ensures ['{'] + members == "{\"version\":" + v + ",\"name\":" + n + ",\"ops\":[" + joined + "]}"
  {
    var rest := v + ",\"name\":" + n + ",\"ops\":" + ("[" + joined + "]") + "}";
    assert [','] + members == [','] + ("\"version\":" + rest);
    Cancel([','], members, "\"version\":" + rest);
    assert rest == v + ",\"name\":" + n + ",\"ops\":[" + joined + "]}";
  }

  lemma OneField(ms: seq<Member>, key: string, value: string, rest: string)
    requires ms != [] && ms[0].key == key && Print(ms[0].value) == value && FieldsText(ms[1..]) == rest
    ensures FieldsText(ms) == ",\"" + key + "\":" + value + rest
  {
  }

  lemma ThreeFields(ms: seq<Member>, a: string, b: string, c: string)
    requires |ms| == 3 && ms[0].key == "version" && ms[1].key == "name" && ms[2].key == "ops"
    requires Print(ms[0].value) == a && Print(ms[1].value) == b && Print(ms[2].value) == c
    ensures FieldsText(ms) == ",\"version\":" + a + ",\"name\":" + b + ",\"ops\":" + c
  {
    var last, two := ms[2..], ms[1..];
    assert last[0] == ms[2] && last[1..] == [] && two[0] == ms[1] && two[1..] == last;
    OneField(last, "ops", c, "");
    OneField(two, "name", b, FieldsText(last));
    OneField(ms, "version", a, FieldsText(two));
    JoinThree(a, b, c);
  }

  lemma JoinThree(a: string, b: string, c: string)
    ensures ",\"" + "version" + "\":" + a + (",\"" + "name" + "\":" + b + (",\"" + "ops" + "\":" + c + ""))
         == ",\"version\":" + a + ",\"name\":" + b + ",\"ops\":" + c
  {
    assert ",\"" + "version" + "\":" == ",\"version\":";
    assert ",\"" + "name" + "\":" == ",\"name\":";
    assert ",\"" + "ops" + "\":" + c + "" == ",\"ops\":" + c;
    Assoc5(",\"version\":", a, ",\"name\":", b, ",\"ops\":" + c);
    assert ",\"version\":" + a + ",\"name\":" + b + (",\"ops\":" + c) == ",\"version\":" + a + ",\"name\":" + b + ",\"ops\":" + c;
  }

  lemma Assoc5(v: string, a: string, n: string, b: string, rest: string)
    ensures v + a + (n + b + rest) == v + a + n + b + rest
  {
  }

  /** The first member of an object has no comma. */
  lemma FirstComma(ms: seq<Member>)
    requires ms != []
    ensures PrintMembers(ms, false) == [','] + PrintMembers(ms, true)
  {
    CommaFirst(JsonString(ms[0].key), Print(ms[0].value), PrintMembers(ms[1..], false));
  }

  lemma CommaFirst(key: string, value: string, rest: string)
    ensures [','] + key + [':'] + value + rest == [','] + ([] + key + [':'] + value + rest)
  {
  }

  // ── main results ─────────────────────────────────────────────────────────

  /** An operation's object tells the operation, up to the name inside a view. */
  lemma OpJsonReads(a: MigrationOp, b: MigrationOp)
    requires OpJson(a) == OpJson(b)
    ensures Kept(a) == Kept(b)
  {
    var x, y := [Member("op", Str(Tag(a)))] + Fields(a), [Member("op", Str(Tag(b)))] + Fields(b);
    assert x[0] == y[0] && x[1..] == Fields(a) && y[1..] == Fields(b);
    TagReads(a, b);
    FieldsRead(a, b);
  }

  /** The length, the first and the last letter of a tag already tell the operation. */
  function TagMark(op: MigrationOp): (nat, char, char) {
    match op
    case CreateTable(_) => (12, 'c', 'e')
    case DropTable(_) => (10, 'd', 'e')
    case AddColumn(_, _) => (10, 'a', 'n')
    case DropColumn(_, _) => (11, 'd', 'n')
    case AlterColumn(_, _) => (12, 'a', 'n')
    case AddIndex(_, _) => (9, 'a', 'x')
    case DropIndex(_, _) => (10, 'd', 'x')
    case AddUnique(_, _) => (10, 'a', 'e')
    case DropUnique(_, _) => (11, 'd', 'e')
    case AddForeignKey(_, _) => (15, 'a', 'y')
    case DropForeignKey(_, _) => (16, 'd', 'y')
    case AddCheck(_, _) => (9, 'a', 'k')
    case DropCheck(_, _) => (10, 'd', 'k')
    case CreateProcedure(_, _) => (16, 'c', 'e')
    case ReplaceProcedure(_, _) => (17, 'r', 'e')
    case DropProcedure(_) => (14, 'd', 'e')
    case CreateTrigger(_, _) => (14, 'c', 'r')
    case ReplaceTrigger(_, _) => (15, 'r', 'r')
    case DropTrigger(_) => (12, 'd', 'r')
    case CreateVirtualTable(_) => (20, 'c', 'e')
    case DropVirtualTable(_) => (18, 'd', 'e')
    case CreateView(_, _) => (11, 'c', 'w')
    case ReplaceView(_, _) => (12, 'r', 'w')
    case DropView(_) => (9, 'd', 'w')
    case RawSql(_) => (7, 'r', 'l')
  }

  lemma TagHasMark(op: MigrationOp)
    ensures var t := Tag(op); t != "" && (|t|, t[0], t[|t| - 1]) == TagMark(op)
  {
  }

  lemma MarksDiffer(a: MigrationOp, b: MigrationOp)
    requires TagMark(a) == TagMark(b)
    ensures OpKind(a) == OpKind(b)
  {
  }

  lemma TagReads(a: MigrationOp, b: MigrationOp)
    requires Tag(a) == Tag(b)
    ensures OpKind(a) == OpKind(b)
  {
    TagHasMark(a);
    TagHasMark(b);
    MarksDiffer(a, b);
  }

  lemma FieldsRead(a: MigrationOp, b: MigrationOp)
    requires OpKind(a) == OpKind(b) && Fields(a) == Fields(b)
    ensures Kept(a) == Kept(b)
  {
    var x, y := Fields(a), Fields(b);
    assert x[0] == y[0];
    assert |x| > 1 ==> x[1] == y[1];
    if a.CreateVirtualTable? {
      assert x[2] == y[2];
      StrItemsInjective(a.virtual.args, b.virtual.args);
    }
  }

  lemma StrItemsInjective(a: seq<string>, b: seq<string>)
    requires StrItems(a) == StrItems(b)
    ensures a == b
  {
    assert |StrItems(a)| == |a| && |StrItems(b)| == |b|;
    forall k | 0 <= k < |a| ensures a[k] == b[k] {
      assert StrItems(a)[k] == Str(a[k]) && StrItems(b)[k] == Str(b[k]);
    }
  }

  lemma {:induction false} OpsJsonRead(a: seq<MigrationOp>, b: seq<MigrationOp>)
    ensures OpsJson(a) == OpsJson(b) <==> KeptOps(a) == KeptOps(b)
  {
    if OpsJson(a) == OpsJson(b) {
      assert |OpsJson(a)| == |a| && |OpsJson(b)| == |b|;
      forall k | 0 <= k < |a| ensures Kept(a[k]) == Kept(b[k]) {
        assert OpsJson(a)[k] == OpsJson(b)[k];
        OpJsonReads(a[k], b[k]);
      }
    }
    if KeptOps(a) == KeptOps(b) {
      assert |KeptOps(a)| == |a| && |KeptOps(b)| == |b|;
      forall k | 0 <= k < |a| ensures OpJson(a[k]) == OpJson(b[k]) {
        assert KeptOps(a)[k] == KeptOps(b)[k];
        KeptPrintsAlike(a[k]);
        KeptPrintsAlike(b[k]);
      }
    }
  }

  lemma KeptPrintsAlike(op: MigrationOp)
    ensures OpJson(Kept(op)) == OpJson(op)
  {
  }

  /** Two migrations have the same canonical text exactly when they have the same version,
      name and operations in the same order, apart from the names inside view definitions. */
  lemma ContentReads(v: int, n: string, a: seq<MigrationOp>, w: int, m: string, b: seq<MigrationOp>)
    ensures CanonicalContent(v, n, a) == CanonicalContent(w, m, b) <==>
            v == w && n == m && KeptOps(a) == KeptOps(b)
  {
    ContentIsJson(v, n, a);
    ContentIsJson(w, m, b);
    OpsJsonRead(a, b);
    var x, y := ContentMembers(v, n, a), ContentMembers(w, m, b);
    if CanonicalContent(v, n, a) == CanonicalContent(w, m, b) {
      PrintInjective(Obj(x), Obj(y));
      assert x[0] == y[0] && x[1] == y[1] && x[2] == y[2];
    }
  }

  /** The text does not see the name inside a view definition. */
  lemma ViewNameIsNotCovered()
    ensures CreateView("v", View("a", "q")) != CreateView("v", View("b", "q"))
    ensures CanonicalContent(1, "m", [CreateView("v", View("a", "q"))])
         == CanonicalContent(1, "m", [CreateView("v", View("b", "q"))])
  {
    var a, b := [CreateView("v", View("a", "q"))], [CreateView("v", View("b", "q"))];
    assert KeptOps(a) == [CreateView("v", View("", "q"))] == KeptOps(b);
    ContentReads(1, "m", a, 1, "m", b);
  }
}
