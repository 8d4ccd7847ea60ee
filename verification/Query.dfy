/** The query expressions, the meaning of their parts on one row, and the native
    conditions that can stand for them. */
module Query {
  import opened Strings
  import opened Values
  import opened Bytes
  import opened Schema

  datatype Literal = LNull | LBool(b: bool) | LInt(i: I64) | LText(s: string)

  datatype CmpOp = EqOp | NeOp | GtOp | GteOp | LtOp | LteOp

  datatype Expr =
    | Column(name: string)
    | Lit(lit: Literal)
    | And(parts: seq<Expr>)
    | Or(parts: seq<Expr>)
    | Not(e: Expr)
    | Cmp(op: CmpOp, a: Expr, b: Expr)
    | In(a: Expr, list: seq<Literal>)
    | NotIn(a: Expr, list: seq<Literal>)
    | IsNull(a: Expr)
    | IsNotNull(a: Expr)
    | Like(a: Expr, pattern: string)
    | Contains(a: Expr, needle: string)
    | BytesPrefix(a: Expr, prefix: string)
    | InSubquery(a: Expr, sub: Select)
    | Exists(sub: Select)
    | NotExists(sub: Select)

  /** A select before sorting and limiting; `column` is its first projected column. */
  datatype Select = Select(table: string, column: Option<string>, filter: Option<Expr>)

  /** A joined row: the source row of each alias, or none for the unmatched side of a left join. */
  type JoinRow = map<string, Option<Row>>

  /** Where column names are looked up: one row, or a joined row under `alias.column` names.
      `bare` is the fallback for an unqualified name in a joined row. */
  datatype Scope = Flat(row: Row) | Joined(rows: JoinRow, bare: (JoinRow, string) -> Value) {
    function Lookup(name: string): Value {
      match this
      case Flat(row) => Get(row, name)
      case Joined(rows, bare) =>
        match SplitDot(name)
        case None => bare(rows, name)
        case Some((alias, col)) =>
          if alias in rows && rows[alias].Some? then Get(rows[alias].value, col) else Null
    }
  }

  /** `name.split_once('.')` */
  function SplitDot(name: string): (r: Option<(string, string)>)
    ensures r.Some? ==> name == r.value.0 + "." + r.value.1 && '.' !in r.value.0
    ensures r.None? ==> '.' !in name
  {
    if name == "" then None
    else if name[0] == '.' then Some(("", name[1..]))
    else
      match SplitDot(name[1..])
      case None => None
      case Some((alias, col)) => Some(([name[0]] + alias, col))
  }

  // ── values ───────────────────────────────────────────────────────────────

  function LiteralValue(lit: Literal): Value {
    match lit
    case LNull => Null
    case LBool(b) => Bool(b)
    case LInt(i) => Int(i)
    case LText(s) => Text(s)
  }

  /** `json_cmp`: null equals null; otherwise only values of one kind are ordered. */
  function JsonCmp(a: Value, b: Value): Option<Ordering> {
    match (a, b)
    case (Null, Null) => Some(Equal)
    case (Bool(x), Bool(y)) => Some(CompareBool(x, y))
    case (Int(x), Int(y)) => Some(CompareInt(x, y))
    case (Text(x), Text(y)) => Some(CompareText(x, y))
    case _ => None
  }

  predicate CmpHolds(op: CmpOp, o: Option<Ordering>) {
    match op
    case EqOp => o == Some(Equal)
    case NeOp => o != Some(Equal)
    case GtOp => o == Some(Greater)
    case GteOp => o.Some? && o.value != Less
    case LtOp => o == Some(Less)
    case LteOp => o.Some? && o.value != Greater
  }

  predicate Truthy(v: Value) {
    match v
    case Null => false
    case Bool(b) => b
    case Int(i) => i != 0
    case Text(s) => s != ""
  }

  /** The anchored regular expression a pattern becomes: `%` is `.*`, `_` is `.`, and a dot
      matches any character but a line feed. */
  predicate LikeMatches(text: string, pattern: string)
    decreases |pattern|, |text|
  {
    if pattern == "" then text == ""
    else if pattern[0] == '%' then
      LikeMatches(text, pattern[1..]) || (text != "" && text[0] != '\n' && LikeMatches(text[1..], pattern))
    else if pattern[0] == '_' then
      text != "" && text[0] != '\n' && LikeMatches(text[1..], pattern[1..])
    else text != "" && text[0] == pattern[0] && LikeMatches(text[1..], pattern[1..])
  }

  predicate OccursAt<T(==)>(needle: seq<T>, s: seq<T>, i: int) {
    0 <= i <= |s| - |needle| && s[i..i + |needle|] == needle
  }

  /** `s.contains(needle)` */
  predicate Occurs<T(==)>(needle: seq<T>, s: seq<T>) {
    exists i :: 0 <= i <= |s| - |needle| && OccursAt(needle, s, i)
  }

  /** A scalar operand; anything else is an error. */
  function EvalVal(e: Expr, sc: Scope): Option<Value> {
    match e
    case Column(name) => Some(sc.Lookup(name))
    case Lit(lit) => Some(LiteralValue(lit))
    case _ => None
  }

  /** The expressions without sub-expressions of their own. */
  predicate IsAtom(e: Expr) {
    !(e.And? || e.Or? || e.Not? || e.InSubquery? || e.Exists? || e.NotExists?)
  }

  function EvalAtom(e: Expr, sc: Scope): Option<bool>
    requires IsAtom(e)
  {
    if e.Column? then Some(Truthy(sc.Lookup(e.name)))
    else if e.Lit? then Some(Truthy(LiteralValue(e.lit)))
    else if e.Cmp? then
      var x, y := EvalVal(e.a, sc), EvalVal(e.b, sc);
      if x.Some? && y.Some? then Some(CmpHolds(e.op, JsonCmp(x.value, y.value))) else None
    else
      var x := EvalVal(e.a, sc);
      if x.Some? then Some(TestValue(e, x.value)) else None
  }

  /** A test of one value. */
  predicate TestValue(e: Expr, v: Value)
    requires IsAtom(e) && !e.Column? && !e.Lit? && !e.Cmp?
  {
    match e
    case In(_, list) => exists lit :: lit in list && v == LiteralValue(lit)
    case NotIn(_, list) => forall lit :: lit in list ==> v != LiteralValue(lit)
    case IsNull(_) => v == Null
    case IsNotNull(_) => v != Null
    case Like(_, pattern) => v.Text? && LikeMatches(v.s, pattern)
    case Contains(_, needle) => v.Text? && Occurs(needle, v.s)
    case BytesPrefix(_, prefix) => v.Text? && Utf8(prefix) <= Utf8(v.s)
  }

  // ── native conditions ────────────────────────────────────────────────────

  datatype Condition =
    | Pk(key: seq<Byte>)
    | BitmapEq(column: nat, value: seq<Byte>)
    | BitmapIn(column: nat, values: seq<seq<Byte>>)
    | Range(column: nat, lo: I64, hi: I64)
    | FmContains(column: nat, pattern: seq<Byte>)
    | FmContainsAll(column: nat, patterns: seq<seq<Byte>>)
    | CondBytesPrefix(column: nat, prefix: seq<Byte>)
    | CondIsNull(column: nat)
    | CondIsNotNull(column: nat)

  /** The key bytes of a value in a HOT or bitmap index; nulls are not indexed. */
  function ValueKey(v: Value): Option<seq<Byte>> {
    match v
    case Null => None
    case Bool(b) => Some([if b then 1 else 0])
    case Int(i) => Some(BigEndian(i))
    case Text(s) => Some(Utf8(s))
  }

  function ColumnById(columns: seq<Schema.Column>, id: nat): (r: Option<Schema.Column>)
    ensures r.Some? ==> r.value in columns && r.value.id == id
    ensures r.None? ==> forall c :: c in columns ==> c.id != id
  {
    if columns == [] then None
    else if columns[0].id == id then Some(columns[0])
    else ColumnById(columns[1..], id)
  }

  /** The value a condition on a column looks at. */
  function CellById(t: Table, row: Row, id: nat): Option<Value> {
    match ColumnById(t.columns, id)
    case None => None
    case Some(c) => Some(Get(row, c.name))
  }

  /** What a condition means. */
  predicate Means(t: Table, row: Row, c: Condition) {
    match c
    case Pk(key) =>
      t.primaryKey != [] && t.HasCol(t.primaryKey[0]) && ValueKey(Get(row, t.primaryKey[0])) == Some(key)
    case BitmapEq(id, value) =>
      (match CellById(t, row, id) case None => false case Some(v) => ValueKey(v) == Some(value))
    case BitmapIn(id, values) =>
      (match CellById(t, row, id)
       case None => false
       case Some(v) => ValueKey(v).Some? && ValueKey(v).value in values)
    case Range(id, lo, hi) =>
      (match CellById(t, row, id) case None => false case Some(v) => v.Int? && lo <= v.i <= hi)
    case FmContains(id, pattern) =>
      (match CellById(t, row, id) case None => false case Some(v) => v.Text? && Occurs(pattern, Utf8(v.s)))
    case FmContainsAll(id, patterns) =>
      (match CellById(t, row, id)
       case None => false
       case Some(v) => v.Text? && forall p :: p in patterns ==> Occurs(p, Utf8(v.s)))
    case CondBytesPrefix(id, prefix) =>
      (match CellById(t, row, id)
       case None => false
       case Some(v) => ValueKey(v).Some? && prefix <= ValueKey(v).value)
    case CondIsNull(id) =>
      (match CellById(t, row, id) case None => false case Some(v) => v == Null)
    case CondIsNotNull(id) =>
      (match CellById(t, row, id) case None => false case Some(v) => v != Null)
  }

  /** `row_matches_condition`, used when the table has staged rows. It lets an empty
      substring and the two conditions it does not know match every row. */
  predicate RowMatches(t: Table, row: Row, c: Condition) {
    match c
    case FmContainsAll(_, _) => true
    case CondBytesPrefix(_, _) => true
    case FmContains(id, pattern) => ColumnById(t.columns, id).Some? && (pattern == [] || Means(t, row, c))
    case _ => Means(t, row, c)
  }

  /** The conditions the engine resolves exactly; it may keep more rows on the others. */
  predicate EngineExact(c: Condition) {
    !(c.FmContains? || c.FmContainsAll? || c.CondIsNull? || c.CondIsNotNull?)
  }

  /** The engine answers a bitmap condition on a column without a bitmap with nothing. */
  ghost predicate EngineMeans(t: Table, row: Row, c: Condition) {
    && Means(t, row, c)
    && (c.BitmapEq? || c.BitmapIn? || c.CondBytesPrefix? ==>
          exists col :: col in t.columns && col.id == c.column && RealBitmap(t, col.name))
  }

  /** The row meets the condition where it is checked: by the engine, or among staged rows,
      where prefixes are not. */
  ghost predicate Meets(t: Table, row: Row, c: Condition) {
    EngineMeans(t, row, c) || (Means(t, row, c) && !c.CondBytesPrefix?)
  }
}
