/** The canonical text of a migration as the TypeScript kit writes it, from templates; the two
    kits must write the same text, or they disagree on every checksum. */
module TypeScriptContent {
  import opened Strings
  import opened Json
  import opened Migrations

  /** `JSON.stringify` of a string (section 25.5.2.3 of ECMA-262). */
  function Stringify(s: string): string {
    "\"" + Quoted(s) + "\""
  }

  function Quoted(s: string): string {
    if s == "" then "" else Quoted(s[..|s| - 1]) + CodePoint(s[|s| - 1])
  }

  function CodePoint(c: char): string {
    match c as int
    case 0x08 => "\\b"
    case 0x09 => "\\t"
    case 0x0a => "\\n"
    case 0x0c => "\\f"
    case 0x0d => "\\r"
    case 0x22 => "\\\""
    case 0x5c => "\\\\"
    case n => if n < 0x20 then "\\u" + Hex(n, 4) else [c]
  }

  /** The last digits of a number in lower-case hexadecimal. */
  function Hex(n: nat, digits: nat): string {
    if digits == 0 then "" else Hex(n / 16, digits - 1) + ["0123456789abcdef"[n % 16]]
  }

  // ── templates ────────────────────────────────────────────────────────────

  function Head(tag: string): string {
    "{\"op\":\"" + tag + "\""
  }

  function Pair(key: string, value: string): string {
    ",\"" + key + "\":" + value
  }

  function One(tag: string, key: string, value: string): string {
    Head(tag) + Pair(key, value) + "}"
  }

  function Two(tag: string, key: string, value: string, other: string, also: string): string {
    Head(tag) + Pair(key, value) + Pair(other, also) + "}"
  }

  function Three(tag: string, key: string, value: string, other: string, also: string, third: string, last: string): string {
    Head(tag) + Pair(key, value) + Pair(other, also) + Pair(third, last) + "}"
  }

  function StringifyAll(args: seq<string>): seq<string> {
    seq(|args|, k requires 0 <= k < |args| => Stringify(args[k]))
  }

  /** `canonicalOp` */
  function CanonicalOpTs(op: MigrationOp): string {
    match op
    case CreateTable(name) => One("create_table", "name", Stringify(name))
    case DropTable(name) => One("drop_table", "name", Stringify(name))
    case AddColumn(table, column) => Two("add_column", "table", Stringify(table), "column", Stringify(column))
    case DropColumn(table, column) => Two("drop_column", "table", Stringify(table), "column", Stringify(column))
    case AlterColumn(table, column) => Two("alter_column", "table", Stringify(table), "column", Stringify(column))
    case AddIndex(table, index) => Two("add_index", "table", Stringify(table), "index", Stringify(index))
    case DropIndex(table, index) => Two("drop_index", "table", Stringify(table), "index", Stringify(index))
    case AddUnique(table, constraint) => Two("add_unique", "table", Stringify(table), "constraint", Stringify(constraint))
    case DropUnique(table, constraint) => Two("drop_unique", "table", Stringify(table), "constraint", Stringify(constraint))
    case AddForeignKey(table, constraint) =>
      Two("add_foreign_key", "table", Stringify(table), "constraint", Stringify(constraint))
    case DropForeignKey(table, constraint) =>
      Two("drop_foreign_key", "table", Stringify(table), "constraint", Stringify(constraint))
    case AddCheck(table, constraint) => Two("add_check", "table", Stringify(table), "constraint", Stringify(constraint))
    case DropCheck(table, constraint) => Two("drop_check", "table", Stringify(table), "constraint", Stringify(constraint))
    case CreateProcedure(name, procedure) => Two("create_procedure", "name", Stringify(name), "procedure", Print(procedure))
    case ReplaceProcedure(name, procedure) => Two("replace_procedure", "name", Stringify(name), "procedure", Print(procedure))
    case DropProcedure(name) => One("drop_procedure", "name", Stringify(name))
    case CreateTrigger(name, trigger) => Two("create_trigger", "name", Stringify(name), "trigger", Print(trigger))
    case ReplaceTrigger(name, trigger) => Two("replace_trigger", "name", Stringify(name), "trigger", Print(trigger))
    case DropTrigger(name) => One("drop_trigger", "name", Stringify(name))
    case CreateVirtualTable(v) =>
      Three("create_virtual_table", "name", Stringify(v.name), "module", Stringify(v.moduleName),
            "args", "[" + Join(StringifyAll(v.args), ",") + "]")
    case DropVirtualTable(name) => One("drop_virtual_table", "name", Stringify(name))
    case CreateView(name, view) => Two("create_view", "name", Stringify(name), "sql", Stringify(view.sql))
    case ReplaceView(name, view) => Two("replace_view", "name", Stringify(name), "sql", Stringify(view.sql))
    case DropView(name) => One("drop_view", "name", Stringify(name))
    case RawSql(sql) => One("raw_sql", "sql", Stringify(sql))
  }

  /** `migrationContent` */
  function ContentTs(version: int, name: string, ops: seq<MigrationOp>): string {
    "{\"version\":" + FormatInt(version) + ",\"name\":" + Stringify(name) + ",\"ops\":["
    + Join(seq(|ops|, k requires 0 <= k < |ops| => CanonicalOpTs(ops[k])), ",") + "]}"
  }

  // ── the same text ────────────────────────────────────────────────────────

  lemma SameCodePoint(c: char)
    ensures CodePoint(c) == EscapeChar(c)
  {
    if c < ' ' {
      var n := c as int;
      HexIsTwo(n);
      assert "\\u" + Hex(n, 4) == ['\\', 'u', '0', '0', HexDigit(n / 16), HexDigit(n % 16)];
    }
  }

  lemma HexDigits(d: nat)
    requires d < 16
    ensures "0123456789abcdef"[d] == HexDigit(d)
  {
  }

  lemma HexIsTwo(n: nat)
    requires n < 0x20
    ensures Hex(n, 4) == ['0', '0', HexDigit(n / 16), HexDigit(n % 16)]
  {
    HexDigits(n % 16);
    HexDigits(n / 16);
    assert n / 16 / 16 == 0;
    assert Hex(n / 256, 2) == "00";
  }

  lemma {:induction false} EscapeAppend(a: string, c: char)
    ensures EscapeText(a + [c]) == EscapeText(a) + EscapeChar(c)
  {
    if a == "" {
      assert a + [c] == [c];
    } else {
      assert (a + [c])[0] == a[0] && (a + [c])[1..] == a[1..] + [c];
      EscapeAppend(a[1..], c);
    }
  }

  lemma {:induction false} SameText(s: string)
    ensures Quoted(s) == EscapeText(s) && Stringify(s) == JsonString(s)
    decreases |s|
  {
    if s != "" {
      var n := |s| - 1;
      SameText(s[..n]);
      SameCodePoint(s[n]);
      EscapeAppend(s[..n], s[n]);
      assert s[..n] + [s[n]] == s;
    }
  }

  lemma FieldsCons(m: Member, ms: seq<Member>)
    ensures FieldsText([m] + ms) == Pair(m.key, Print(m.value)) + FieldsText(ms)
  {
    assert ([m] + ms)[1..] == ms;
  }

  lemma OneIs(tag: string, m: Member)
    ensures Head(tag) + FieldsText([m]) + "}" == One(tag, m.key, Print(m.value))
  {
    FieldsCons(m, []);
    assert [m] + [] == [m];
  }

  lemma TwoIs(tag: string, m: Member, n: Member)
    ensures Head(tag) + FieldsText([m, n]) + "}" == Two(tag, m.key, Print(m.value), n.key, Print(n.value))
  {
    FieldsCons(m, [n]);
    FieldsCons(n, []);
    assert [m] + [n] == [m, n] && [n] + [] == [n];
    Regroup(Head(tag), Pair(m.key, Print(m.value)), Pair(n.key, Print(n.value)), "");
  }

  lemma ThreeIs(tag: string, m: Member, n: Member, o: Member)
    ensures Head(tag) + FieldsText([m, n, o]) + "}"
         == Three(tag, m.key, Print(m.value), n.key, Print(n.value), o.key, Print(o.value))
  {
    FieldsCons(m, [n, o]);
    FieldsCons(n, [o]);
    FieldsCons(o, []);
    assert [m] + [n, o] == [m, n, o] && [n] + [o] == [n, o] && [o] + [] == [o];
    Regroup(Head(tag), Pair(m.key, Print(m.value)), Pair(n.key, Print(n.value)), Pair(o.key, Print(o.value)));
  }

  lemma Regroup(a: string, b: string, c: string, d: string)
    ensures a + (b + (c + d)) == a + b + c + d
    ensures d + "" == d
  {
  }

  lemma ArgsAre(args: seq<string>)
    ensures Print(Arr(StrItems(args))) == "[" + Join(StringifyAll(args), ",") + "]"
  {
    forall k | 0 <= k < |args| ensures StringifyAll(args)[k] == Print(StrItems(args)[k]) {
      SameText(args[k]);
    }
    ItemsText(StrItems(args), StringifyAll(args), true);
    Bracketed(Join(StringifyAll(args), ","));
  }

  lemma OneText(op: MigrationOp, tag: string, key: string, s: string)
    requires Tag(op) == tag && Fields(op) == [Member(key, Str(s))]
    ensures CanonicalOp(op) == One(tag, key, Stringify(s))
  {
    OneIs(tag, Member(key, Str(s)));
    SameText(s);
  }

  lemma TwoTexts(op: MigrationOp, tag: string, key: string, s: string, other: string, v: Json)
    requires Tag(op) == tag && Fields(op) == [Member(key, Str(s)), Member(other, v)]
    ensures CanonicalOp(op) == Two(tag, key, Stringify(s), other, Print(v))
    ensures v.Str? ==> Print(v) == Stringify(v.s)
  {
    TwoIs(tag, Member(key, Str(s)), Member(other, v));
    SameText(s);
    if v.Str? {
      SameText(v.s);
    }
  }

  lemma SameNamed(op: MigrationOp)
    requires op.CreateTable? || op.DropTable? || op.DropProcedure? || op.DropTrigger? || op.DropVirtualTable? || op.DropView? || op.RawSql?
    ensures CanonicalOpTs(op) == CanonicalOp(op)
  {
    if op.CreateTable? {
      OneText(op, "create_table", "name", op.name);
    } else if op.DropTable? {
      OneText(op, "drop_table", "name", op.name);
    } else if op.DropProcedure? {
      OneText(op, "drop_procedure", "name", op.name);
    } else if op.DropTrigger? {
      OneText(op, "drop_trigger", "name", op.name);
    } else if op.DropVirtualTable? {
      OneText(op, "drop_virtual_table", "name", op.name);
    } else if op.DropView? {
      OneText(op, "drop_view", "name", op.name);
    } else {
      OneText(op, "raw_sql", "sql", op.sql);
    }
  }

  lemma SameOfColumns(op: MigrationOp)
    requires op.AddColumn? || op.DropColumn? || op.AlterColumn? || op.AddIndex? || op.DropIndex?
    ensures CanonicalOpTs(op) == CanonicalOp(op)
  {
    if op.AddColumn? {
      TwoTexts(op, "add_column", "table", op.table, "column", Str(op.column));
    } else if op.DropColumn? {
      TwoTexts(op, "drop_column", "table", op.table, "column", Str(op.column));
    } else if op.AlterColumn? {
      TwoTexts(op, "alter_column", "table", op.table, "column", Str(op.column));
    } else if op.AddIndex? {
      TwoTexts(op, "add_index", "table", op.table, "index", Str(op.index));
    } else {
      TwoTexts(op, "drop_index", "table", op.table, "index", Str(op.index));
    }
  }

  lemma SameOfConstraints(op: MigrationOp)
    requires op.AddUnique? || op.DropUnique? || op.AddForeignKey? || op.DropForeignKey? || op.AddCheck? || op.DropCheck?
    ensures CanonicalOpTs(op) == CanonicalOp(op)
  {
    if op.AddUnique? {
      TwoTexts(op, "add_unique", "table", op.table, "constraint", Str(op.constraint));
    } else if op.DropUnique? {
      TwoTexts(op, "drop_unique", "table", op.table, "constraint", Str(op.constraint));
    } else if op.AddForeignKey? {
      TwoTexts(op, "add_foreign_key", "table", op.table, "constraint", Str(op.constraint));
    } else if op.DropForeignKey? {
      TwoTexts(op, "drop_foreign_key", "table", op.table, "constraint", Str(op.constraint));
    } else if op.AddCheck? {
      TwoTexts(op, "add_check", "table", op.table, "constraint", Str(op.constraint));
    } else {
      TwoTexts(op, "drop_check", "table", op.table, "constraint", Str(op.constraint));
    }
  }

  lemma SameBodies(op: MigrationOp)
    requires op.CreateProcedure? || op.ReplaceProcedure? || op.CreateTrigger? || op.ReplaceTrigger? || op.CreateView? || op.ReplaceView?
    ensures CanonicalOpTs(op) == CanonicalOp(op)
  {
    if op.CreateProcedure? {
      TwoTexts(op, "create_procedure", "name", op.name, "procedure", op.procedure);
    } else if op.ReplaceProcedure? {
      TwoTexts(op, "replace_procedure", "name", op.name, "procedure", op.procedure);
    } else if op.CreateTrigger? {
      TwoTexts(op, "create_trigger", "name", op.name, "trigger", op.trigger);
    } else if op.ReplaceTrigger? {
      TwoTexts(op, "replace_trigger", "name", op.name, "trigger", op.trigger);
    } else if op.CreateView? {
      TwoTexts(op, "create_view", "name", op.name, "sql", Str(op.view.sql));
    } else {
      TwoTexts(op, "replace_view", "name", op.name, "sql", Str(op.view.sql));
    }
  }

  /** The two kits write the same text for every operation. */
  lemma SameOp(op: MigrationOp)
    ensures CanonicalOpTs(op) == CanonicalOp(op)
  {
    if op.AddColumn? || op.DropColumn? || op.AlterColumn? || op.AddIndex? || op.DropIndex? {
      SameOfColumns(op);
    } else if op.AddUnique? || op.DropUnique? || op.AddForeignKey? || op.DropForeignKey? || op.AddCheck? || op.DropCheck? {
      SameOfConstraints(op);
    } else if op.CreateProcedure? || op.ReplaceProcedure? || op.CreateTrigger? || op.ReplaceTrigger? || op.CreateView? || op.ReplaceView? {
      SameBodies(op);
    } else if op.CreateVirtualTable? {
      SameVirtualTable(op.virtual);
    } else {
      SameNamed(op);
    }
  }

  lemma SameVirtualTable(v: VirtualTable)
    ensures CanonicalOpTs(CreateVirtualTable(v)) == CanonicalOp(CreateVirtualTable(v))
  {
    var fields := Fields(CreateVirtualTable(v));
    ThreeIs("create_virtual_table", fields[0], fields[1], fields[2]);
    assert fields == [fields[0], fields[1], fields[2]];
    SameText(v.name);
    SameText(v.moduleName);
    ArgsAre(v.args);
  }

  /** And so for every migration, the same content and with it the same checksum. */
  lemma SameContent(version: int, name: string, ops: seq<MigrationOp>)
    ensures ContentTs(version, name, ops) == CanonicalContent(version, name, ops)
  {
    SameText(name);
    var texts := seq(|ops|, k requires 0 <= k < |ops| => CanonicalOpTs(ops[k]));
    forall k | 0 <= k < |ops| ensures texts[k] == CanonicalOps(ops)[k] {
      SameOp(ops[k]);
    }
    assert texts == CanonicalOps(ops);
  }
}
