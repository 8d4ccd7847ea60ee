/** Predicate pushdown: which native conditions a predicate is translated to, and when
    they mean the same. */
module Pushdown {
  import opened Strings
  import opened Values
  import opened Bytes
  import opened Schema
  import opened Query

  datatype PushdownPlan = PushdownPlan(conditions: seq<Condition>, fullyTranslated: bool)

  /** What `has_bitmap_index` takes for a bitmap: primary-key columns count too. */
  predicate HasBitmapIndex(t: Table, name: string) {
    RealBitmap(t, name) || name in t.primaryKey
  }

  predicate HasFmIndex(t: Table, name: string) {
    exists x :: x in t.indexes && x.kind == Fm && name in x.columns
  }

  function LiteralKey(lit: Literal): Option<seq<Byte>> {
    ValueKey(LiteralValue(lit))
  }

  function LiteralI64(lit: Literal): Option<I64> {
    match lit
    case LInt(n) => Some(n)
    case LBool(b) => Some(if b then 1 else 0)
    case _ => None
  }

  /** Either order is accepted. */
  function ColumnLiteral(a: Expr, b: Expr): Option<(string, Literal)> {
    match (a, b)
    case (Column(name), Lit(lit)) => Some((name, lit))
    case (Lit(lit), Column(name)) => Some((name, lit))
    case _ => None
  }

  function TranslateEq(t: Table, a: Expr, b: Expr): Option<Condition> {
    match ColumnLiteral(a, b)
    case None => None
    case Some((name, lit)) =>
      match (t.Col(name), LiteralKey(lit))
      case (Some(col), Some(key)) =>
        if t.primaryKey == [name] then Some(Pk(key))
        else if HasBitmapIndex(t, name) then Some(BitmapEq(col.id, key))
        else None
      case _ => None
  }

  function SaturatingPred(v: I64): I64 {
    if v == I64_MIN then v else v - 1
  }

  function SaturatingSucc(v: I64): I64 {
    if v == I64_MAX then v else v + 1
  }

  /** The operator is used as written, whichever side the column is on. */
  function TranslateCmp(t: Table, op: CmpOp, a: Expr, b: Expr): Option<Condition>
    requires op != EqOp && op != NeOp
  {
    match ColumnLiteral(a, b)
    case None => None
    case Some((name, lit)) =>
      match (t.Col(name), LiteralI64(lit))
      case (Some(col), Some(v)) =>
        if col.storageType == TextType then None
        else
          (match op
           case LtOp => Some(Range(col.id, I64_MIN, SaturatingPred(v)))
           case LteOp => Some(Range(col.id, I64_MIN, v))
           case GtOp => Some(Range(col.id, SaturatingSucc(v), I64_MAX))
           case GteOp => Some(Range(col.id, v, I64_MAX)))
      case _ => None
  }

  function LiteralKeys(list: seq<Literal>): (r: Option<seq<seq<Byte>>>)
    ensures r.None? <==> LNull in list
  {
    if list == [] then Some([])
    else
      match (LiteralKey(list[0]), LiteralKeys(list[1..]))
      case (Some(key), Some(keys)) => Some([key] + keys)
      case _ => None
  }

  function TranslateIn(t: Table, a: Expr, list: seq<Literal>): Option<Condition> {
    if !a.Column? then None
    else
      match (t.Col(a.name), LiteralKeys(list))
      case (Some(col), Some(keys)) => if HasBitmapIndex(t, a.name) then Some(BitmapIn(col.id, keys)) else None
      case _ => None
  }

  /** The literal runs of a pattern between its wildcards. */
  function Runs(current: string, pattern: string): seq<string>
    decreases |pattern|
  {
    var flushed := if current == "" then [] else [current];
    if pattern == "" then flushed
    else if pattern[0] == '%' || pattern[0] == '_' then flushed + Runs("", pattern[1..])
    else Runs(current + [pattern[0]], pattern[1..])
  }

  function RunBytes(runs: seq<string>): seq<seq<Byte>> {
    seq(|runs|, k requires 0 <= k < |runs| => Utf8(runs[k]))
  }

  /** The translations of `like`, `contains`, `bytes_prefix` and the null tests. */
  function TranslateTest(t: Table, e: Expr): Option<Condition>
    requires e.Like? || e.Contains? || e.BytesPrefix? || e.IsNull? || e.IsNotNull?
  {
    if !e.a.Column? || t.Col(e.a.name).None? then None
    else
      var name, id := e.a.name, t.Col(e.a.name).value.id;
      match e
      case Like(_, pattern) =>
        if !HasFmIndex(t, name) || '\\' in pattern || Runs("", pattern) == [] then None
        else Some(FmContainsAll(id, RunBytes(Runs("", pattern))))
      case Contains(_, needle) =>
        if HasFmIndex(t, name) then Some(FmContains(id, Utf8(needle))) else None
      case BytesPrefix(_, prefix) =>
        if HasBitmapIndex(t, name) then Some(CondBytesPrefix(id, Utf8(prefix))) else None
      case IsNull(_) => Some(CondIsNull(id))
      case IsNotNull(_) => Some(CondIsNotNull(id))
  }

  /** The condition of one conjunct, and whether it stands for the whole conjunct. */
  function Translate(t: Table, e: Expr): (Option<Condition>, bool)
    requires !e.And?
  {
    if e.Cmp? && e.op == EqOp then
      var c := TranslateEq(t, e.a, e.b);
      (c, c.Some?)
    else if e.Cmp? && e.op != NeOp then
      var c := TranslateCmp(t, e.op, e.a, e.b);
      (c, c.Some?)
    else if e.In? then
      var c := TranslateIn(t, e.a, e.list);
      (c, c.Some?)
    else if e.BytesPrefix? then
      var c := TranslateTest(t, e);
      (c, c.Some?)
    else if e.Contains? || e.Like? || e.IsNull? || e.IsNotNull? then (TranslateTest(t, e), false)
    else (None, false)
  }

  function Collect(t: Table, e: Expr): PushdownPlan
    decreases e, 0
  {
    if e.And? then CollectAll(t, e.parts)
    else
      var (c, full) := Translate(t, e);
      PushdownPlan(if c.Some? then [c.value] else [], full)
  }

  function CollectAll(t: Table, parts: seq<Expr>): PushdownPlan
    decreases parts, 1
  {
    if parts == [] then PushdownPlan([], true)
    else
      var head, rest := Collect(t, parts[0]), CollectAll(t, parts[1..]);
      PushdownPlan(head.conditions + rest.conditions, head.fullyTranslated && rest.fullyTranslated)
  }

  /** `collect_conditions`: the accumulator grows by the conditions of the expression. */
  method CollectConditions(t: Table, e: Expr, before: seq<Condition>) returns (out: seq<Condition>, full: bool)
    ensures out == before + Collect(t, e).conditions
    ensures full == Collect(t, e).fullyTranslated
    decreases e
  {
    out := before;
    if e.And? {
      full := true;
      var i := 0;
      assert e.parts[0..] == e.parts;
      while i < |e.parts|
        invariant 0 <= i <= |e.parts|
        invariant before + Collect(t, e).conditions == out + CollectAll(t, e.parts[i..]).conditions
        invariant Collect(t, e).fullyTranslated == (full && CollectAll(t, e.parts[i..]).fullyTranslated)
      {
        assert e.parts[i..][0] == e.parts[i] && e.parts[i..][1..] == e.parts[i + 1..];
        ghost var start := out;
        var translated;
        out, translated := CollectConditions(t, e.parts[i], out);
        assert start + (Collect(t, e.parts[i]).conditions + CollectAll(t, e.parts[i + 1..]).conditions)
            == out + CollectAll(t, e.parts[i + 1..]).conditions;
        if !translated {
          full := false;
        }
        i := i + 1;
      }
    } else {
      var (c, translated) := Translate(t, e);
      if c.Some? {
        out := out + [c.value];
      }
      full := translated;
    }
  }

  method TranslatePredicate(t: Table, e: Expr) returns (plan: Option<PushdownPlan>)
    ensures plan == if Collect(t, e).conditions == [] then None else Some(Collect(t, e))
  {
    var conditions, full := CollectConditions(t, e, []);
    assert [] + Collect(t, e).conditions == Collect(t, e).conditions;
    if conditions == [] {
      return None;
    }
    return Some(PushdownPlan(conditions, full));
  }

  // ── when a translation is right ──────────────────────────────────────────

  /** `Schema::new` rejects duplicate column names and ids. */
  ghost predicate DistinctColumns(t: Table) {
    forall c, d :: c in t.columns && d in t.columns && (c.id == d.id || c.name == d.name) ==> c == d
  }

  /** A stored row holds values of its columns' types. */
  predicate Typed(t: Table, row: Row) {
    forall c :: c in t.columns ==> Fits(Get(row, c.name), c.storageType)
  }

  predicate LiteralFits(lit: Literal, ty: ColumnType) {
    Fits(LiteralValue(lit), ty)
  }

  /** The value of the column's type that has the index key of a literal of another type. */
  function Alias(lit: Literal, ty: ColumnType): Option<Value> {
    match (lit, ty)
    case (LText(s), IntType) => if |Utf8(s)| == 8 then Some(Int(FromBigEndian(Utf8(s)))) else None
    case (LText(s), BoolType) =>
      if Utf8(s) == [0] then Some(Bool(false)) else if Utf8(s) == [1] then Some(Bool(true)) else None
    case (LBool(b), TextType) => Some(Text([(if b then 1 else 0) as char]))
    case (LInt(n), TextType) =>
      (match DecodeUtf8(BigEndian(n)) case None => None case Some(s) => Some(Text(s)))
    case _ => None
  }

  /** An equality whose condition can be answered has a bitmap, or is on the whole key. */
  predicate Indexed(t: Table, name: string) {
    t.primaryKey == [name] || RealBitmap(t, name)
  }

  /** An order comparison is pushed rightly on an integer column on the left, away from the
      two ends of the range where the exclusive bound saturates, with an integer. The range
      never matches a boolean cell, which is right for integers, and otherwise only for the
      strict comparisons no boolean passes. */
  predicate SafeBound(op: CmpOp, a: Expr, ty: ColumnType, lit: Literal) {
    if ty == BoolType then
      || lit.LInt?
      || (op == LtOp && lit == LBool(!a.Column?))
      || (op == GtOp && lit == LBool(a.Column?))
    else
      && a.Column? && ty == IntType && lit.LInt?
      && (op == LtOp ==> lit.i != I64_MIN)
      && (op == GtOp ==> lit.i != I64_MAX)
  }

  /** The value is taken for a literal of another type, and is not in the list itself. */
  predicate Mistaken(list: seq<Literal>, ty: ColumnType, v: Value) {
    (exists lit :: lit in list && Alias(lit, ty) == Some(v)) && forall x :: x in list ==> LiteralValue(x) != v
  }

  predicate NoneMistaken(list: seq<Literal>, ty: ColumnType) {
    forall lit :: lit in list && Alias(lit, ty).Some? ==> !Mistaken(list, ty, Alias(lit, ty).value)
  }

  /** No key of a value that is not text starts with the prefix. */
  predicate SafePrefix(prefix: string, ty: ColumnType) {
    match ty
    case TextType => true
    case IntType => |Utf8(prefix)| > 8
    case BoolType => !(Utf8(prefix) <= [0]) && !(Utf8(prefix) <= [1])
  }

  /** What a caller must check of one conjunct before it is pushed down: that no value of
      the column has the index key of a literal of another type, and that the condition is
      answered if any row could pass. */
  predicate SafeConjunct(t: Table, e: Expr) {
    match e
    case Cmp(op, a, b) =>
      (match ColumnLiteral(a, b)
       case None => true
       case Some((name, lit)) =>
         match t.Col(name)
         case None => true
         case Some(col) =>
           if op == EqOp then
             TranslateEq(t, a, b).None?
             || (Alias(lit, col.storageType).None? && (Indexed(t, name) || !LiteralFits(lit, col.storageType)))
           else
             op == NeOp || TranslateCmp(t, op, a, b).None? || SafeBound(op, a, col.storageType, lit))
    case In(a, list) =>
      TranslateIn(t, a, list).None?
      || var ty := t.Col(a.name).value.storageType;
         && NoneMistaken(list, ty)
         && (RealBitmap(t, a.name) || forall lit :: lit in list ==> !LiteralFits(lit, ty))
    case BytesPrefix(a, prefix) =>
      TranslateTest(t, e).None?
      || var ty := t.Col(a.name).value.storageType;
         if RealBitmap(t, a.name) then SafePrefix(prefix, ty) else ty != TextType
    case _ => true
  }

  predicate Safe(t: Table, e: Expr) {
    if e.And? then forall p :: p in e.parts ==> Safe(t, p) else SafeConjunct(t, e)
  }

  // ── conditions look at the right cell ────────────────────────────────────

  lemma CellOfColumn(t: Table, row: Row, name: string)
    requires DistinctColumns(t) && t.HasCol(name)
    ensures CellById(t, row, t.Col(name).value.id) == Some(Get(row, name))
    ensures t.Col(name).value in t.columns
  {
  }

  /** Within one column type, index keys tell values apart. */
  lemma KeyInjective(v: Value, w: Value, ty: ColumnType)
    requires Fits(v, ty) && Fits(w, ty)
    requires ValueKey(v) == ValueKey(w) && ValueKey(v).Some?
    ensures v == w
  {
    match v
    case Bool(_) =>
      assert ValueKey(v).value[0] == ValueKey(w).value[0];
    case Int(i) => BigEndianInjective(i, w.i);
    case Text(s) => Utf8Injective(s, w.s);
  }

  /** Across types they do not: exactly the alias of a literal has its key. */
  lemma AliasExactly(lit: Literal, ty: ColumnType, v: Value)
    ensures Alias(lit, ty) == Some(v) <==> !LiteralFits(lit, ty) && Fits(v, ty) && ValueKey(v) == LiteralKey(lit)
  {
    match (lit, ty)
    case (LText(s), IntType) =>
      if v.Int? && BigEndian(v.i) == Utf8(s) {
        BigEndianInjective(v.i, FromBigEndian(Utf8(s)));
      }
    case (LBool(b), TextType) =>
      var c := (if b then 1 else 0) as char;
      assert Utf8([c]) == [if b then 1 else 0] by {
        assert Utf8([c]) == Utf8Char(c) + Utf8([c][1..]);
      }
      if v.Text? && Utf8(v.s) == Utf8([c]) {
        Utf8Injective(v.s, [c]);
      }
    case (LInt(n), TextType) =>
      if v.Text? {
        DecodeUtf8Exactly(BigEndian(n), v.s);
      }
    case _ =>
  }

  lemma CompareTextEqual(v: Value, w: Value)
    ensures JsonCmp(v, w) == Some(Equal) <==> v == w
  {
  }

  // ── each kind of conjunct ────────────────────────────────────────────────

  /** The condition means the equality, or that the cell is the literal's alias. */
  lemma EqMeans(t: Table, e: Expr, row: Row)
    requires DistinctColumns(t) && Typed(t, row) && e.Cmp? && e.op == EqOp && TranslateEq(t, e.a, e.b).Some?
    ensures var (name, lit) := ColumnLiteral(e.a, e.b).value;
            Means(t, row, TranslateEq(t, e.a, e.b).value) <==>
            EvalAtom(e, Flat(row)) == Some(true) || Alias(lit, t.Col(name).value.storageType) == Some(Get(row, name))
  {
    var (name, lit) := ColumnLiteral(e.a, e.b).value;
    var col := t.Col(name).value;
    CellOfColumn(t, row, name);
    var v, w := Get(row, name), LiteralValue(lit);
    CompareTextEqual(v, w);
    CompareTextEqual(w, v);
    AliasExactly(lit, col.storageType, v);
    if ValueKey(v) == ValueKey(w) && LiteralFits(lit, col.storageType) {
      KeyInjective(v, w, col.storageType);
    }
  }

  lemma EqIsExact(t: Table, e: Expr, row: Row)
    requires DistinctColumns(t) && Typed(t, row) && e.Cmp? && e.op == EqOp
    requires SafeConjunct(t, e) && TranslateEq(t, e.a, e.b).Some?
    ensures EvalAtom(e, Flat(row)) == Some(EngineMeans(t, row, TranslateEq(t, e.a, e.b).value))
    ensures EngineMeans(t, row, TranslateEq(t, e.a, e.b).value) <==> Means(t, row, TranslateEq(t, e.a, e.b).value)
  {
    var (name, lit) := ColumnLiteral(e.a, e.b).value;
    EqMeans(t, e, row);
    CellOfColumn(t, row, name);
    CompareTextEqual(Get(row, name), LiteralValue(lit));
    CompareTextEqual(LiteralValue(lit), Get(row, name));
  }

  lemma CmpIsExact(t: Table, e: Expr, row: Row)
    requires DistinctColumns(t) && Typed(t, row) && e.Cmp? && e.op != EqOp && e.op != NeOp
    requires SafeConjunct(t, e) && TranslateCmp(t, e.op, e.a, e.b).Some?
    ensures EvalAtom(e, Flat(row)) == Some(EngineMeans(t, row, TranslateCmp(t, e.op, e.a, e.b).value))
  {
    CellOfColumn(t, row, ColumnLiteral(e.a, e.b).value.0);
  }

  /** The keys of a list are those of its literals. */
  lemma {:induction false} KeysAre(list: seq<Literal>, k: seq<Byte>)
    requires LiteralKeys(list).Some?
    ensures k in LiteralKeys(list).value <==> exists lit :: lit in list && LiteralKey(lit) == Some(k)
  {
    if list != [] {
      KeysAre(list[1..], k);
      assert list[0] in list;
      assert forall lit :: lit in list <==> lit == list[0] || lit in list[1..];
    }
  }

  lemma KeysOfList(list: seq<Literal>, v: Value, ty: ColumnType)
    requires LiteralKeys(list).Some? && Fits(v, ty)
    ensures (ValueKey(v).Some? && ValueKey(v).value in LiteralKeys(list).value) <==>
            (exists lit :: lit in list && v == LiteralValue(lit)) || Mistaken(list, ty, v)
  {
    forall lit | lit in list
      ensures Alias(lit, ty) == Some(v) ==> LiteralKey(lit) == ValueKey(v)
      ensures LiteralKey(lit) == ValueKey(v) ==> Alias(lit, ty) == Some(v) || LiteralValue(lit) == v
      ensures LiteralKey(lit).Some?
    {
      AliasExactly(lit, ty, v);
      if LiteralKey(lit) == ValueKey(v) && LiteralFits(lit, ty) {
        KeyInjective(v, LiteralValue(lit), ty);
      }
    }
    if ValueKey(v).Some? {
      KeysAre(list, ValueKey(v).value);
    }
  }

  /** The condition means the membership test, or that the cell is mistaken for a member. */
  lemma InMeans(t: Table, e: Expr, row: Row)
    requires DistinctColumns(t) && Typed(t, row) && e.In? && TranslateIn(t, e.a, e.list).Some?
    ensures Means(t, row, TranslateIn(t, e.a, e.list).value) <==>
            EvalAtom(e, Flat(row)) == Some(true) || Mistaken(e.list, t.Col(e.a.name).value.storageType, Get(row, e.a.name))
  {
    CellOfColumn(t, row, e.a.name);
    KeysOfList(e.list, Get(row, e.a.name), t.Col(e.a.name).value.storageType);
  }

  lemma InIsExact(t: Table, e: Expr, row: Row)
    requires DistinctColumns(t) && Typed(t, row) && e.In?
    requires SafeConjunct(t, e) && TranslateIn(t, e.a, e.list).Some?
    ensures EvalAtom(e, Flat(row)) == Some(EngineMeans(t, row, TranslateIn(t, e.a, e.list).value))
    ensures EngineMeans(t, row, TranslateIn(t, e.a, e.list).value) <==> Means(t, row, TranslateIn(t, e.a, e.list).value)
  {
    InMeans(t, e, row);
    CellOfColumn(t, row, e.a.name);
  }

  lemma OccursAppend<T>(needle: seq<T>, front: seq<T>, s: seq<T>, back: seq<T>)
    requires Occurs(needle, s)
    ensures Occurs(needle, front + s + back)
  {
    var i :| 0 <= i <= |s| - |needle| && OccursAt(needle, s, i);
    var whole := front + s + back;
    assert whole[|front| + i..|front| + i + |needle|] == s[i..i + |needle|];
    assert OccursAt(needle, whole, |front| + i);
  }

  lemma OccursUtf8(needle: string, s: string)
    requires Occurs(needle, s)
    ensures Occurs(Utf8(needle), Utf8(s))
  {
    var i :| 0 <= i <= |s| - |needle| && OccursAt(needle, s, i);
    var a, b := s[..i], s[i + |needle|..];
    assert s == a + needle + b;
    Utf8Append(a + needle, b);
    Utf8Append(a, needle);
    assert Utf8(needle)[0..0 + |Utf8(needle)|] == Utf8(needle);
    assert OccursAt(Utf8(needle), Utf8(needle), 0);
    OccursAppend(Utf8(needle), Utf8(a), Utf8(needle), Utf8(b));
  }

  lemma SelfOccurs(s: string, front: string, back: string)
    ensures Occurs(s, front + s + back)
  {
    assert s[0..0 + |s|] == s;
    assert OccursAt(s, s, 0);
    OccursAppend(s, front, s, back);
  }

  /** Every literal run of a pattern occurs in every text it matches. */
  lemma {:induction false} LikeContainsRuns(current: string, pattern: string, text: string, run: string)
    requires LikeMatches(text, pattern) && run in Runs(current, pattern)
    ensures Occurs(run, current + text)
    decreases |pattern|, |text|
  {
    if pattern == "" || ((pattern[0] == '%' || pattern[0] == '_') && run == current) {
      SelfOccurs(current, "", text);
      assert "" + current + text == current + text;
    } else if pattern[0] == '%' {
      if LikeMatches(text, pattern[1..]) {
        LikeContainsRuns("", pattern[1..], text, run);
        OccursAppend(run, current, "" + text, "");
        assert current + ("" + text) + "" == current + text;
      } else {
        LikeContainsRuns("", pattern, text[1..], run);
        OccursAppend(run, current + [text[0]], "" + text[1..], "");
        assert current + [text[0]] + ("" + text[1..]) + "" == current + text;
      }
    } else if pattern[0] == '_' {
      LikeContainsRuns("", pattern[1..], text[1..], run);
      OccursAppend(run, current + [text[0]], "" + text[1..], "");
      assert current + [text[0]] + ("" + text[1..]) + "" == current + text;
    } else {
      LikeContainsRuns(current + [pattern[0]], pattern[1..], text[1..], run);
      assert current + [pattern[0]] + text[1..] == current + text;
    }
  }

  /** A row that passes one of these tests satisfies its condition. */
  lemma TestIsSound(t: Table, e: Expr, row: Row)
    requires DistinctColumns(t) && Typed(t, row) && SafeConjunct(t, e)
    requires e.Like? || e.Contains? || e.BytesPrefix? || e.IsNull? || e.IsNotNull?
    requires TranslateTest(t, e).Some? && EvalAtom(e, Flat(row)) == Some(true)
    ensures EngineMeans(t, row, TranslateTest(t, e).value)
  {
    CellOfColumn(t, row, e.a.name);
    var v := Get(row, e.a.name);
    if e.Contains? {
      OccursUtf8(e.needle, v.s);
    }
    if e.Like? {
      var runs := Runs("", e.pattern);
      forall p | p in RunBytes(runs) ensures Occurs(p, Utf8(v.s)) {
        var k :| 0 <= k < |RunBytes(runs)| && RunBytes(runs)[k] == p;
        LikeContainsRuns("", e.pattern, v.s, runs[k]);
        assert "" + v.s == v.s;
        OccursUtf8(runs[k], v.s);
      }
    }
  }

  lemma PrefixIsExact(t: Table, e: Expr, row: Row)
    requires DistinctColumns(t) && Typed(t, row) && SafeConjunct(t, e) && e.BytesPrefix?
    requires TranslateTest(t, e).Some?
    ensures EvalAtom(e, Flat(row)) == Some(EngineMeans(t, row, TranslateTest(t, e).value))
  {
    CellOfColumn(t, row, e.a.name);
    var v, prefix := Get(row, e.a.name), Utf8(e.prefix);
    if v.Bool? && prefix <= ValueKey(v).value {
      assert prefix <= [if v.b then 1 else 0];
    }
  }

  // ── main results on one conjunct ─────────────────────────────────────────

  /** A row that satisfies the conjunct satisfies its condition; and where the conjunct
      counts as fully translated, the condition alone decides. */
  lemma ConjunctIsRight(t: Table, e: Expr, row: Row)
    requires DistinctColumns(t) && Typed(t, row) && IsAtom(e) && SafeConjunct(t, e)
    requires Translate(t, e).0.Some?
    ensures EvalAtom(e, Flat(row)) == Some(true) ==> EngineMeans(t, row, Translate(t, e).0.value)
    ensures Translate(t, e).1 && Meets(t, row, Translate(t, e).0.value) ==> EvalAtom(e, Flat(row)) == Some(true)
  {
    if e.Cmp? && e.op == EqOp {
      EqIsExact(t, e, row);
    } else if e.Cmp? {
      CmpIsExact(t, e, row);
    } else if e.In? {
      InIsExact(t, e, row);
    } else if e.BytesPrefix? {
      PrefixIsExact(t, e, row);
    } else if EvalAtom(e, Flat(row)) == Some(true) {
      TestIsSound(t, e, row);
    }
  }

  // ── exactly when a translation is right ──────────────────────────────────

  /** The condition decides the conjunct on the row, in the engine and among staged rows. */
  ghost predicate Decides(t: Table, e: Expr, c: Condition, row: Row)
    requires IsAtom(e)
  {
    EvalAtom(e, Flat(row)) == Some(EngineMeans(t, row, c)) && EvalAtom(e, Flat(row)) == Some(Meets(t, row, c))
  }

  /** A conjunct that counts as fully translated is decided by its condition on every typed
      row exactly when it is safe, whatever the types of its literals are. */
  lemma ConjunctExactly(t: Table, e: Expr)
    requires DistinctColumns(t) && IsAtom(e) && Translate(t, e).0.Some? && Translate(t, e).1
    ensures SafeConjunct(t, e) <==> forall row :: Typed(t, row) ==> Decides(t, e, Translate(t, e).0.value, row)
  {
    var c := Translate(t, e).0.value;
    if SafeConjunct(t, e) {
      forall row | Typed(t, row) ensures Decides(t, e, c, row) {
        ConjunctIsRight(t, e, row);
        FullIsDefined(t, e, row);
      }
    } else {
      var row := Counterexample(t, e);
      assert Typed(t, row) && !Decides(t, e, c, row);
    }
  }

  lemma FullIsDefined(t: Table, e: Expr, row: Row)
    requires IsAtom(e) && Translate(t, e).0.Some?
    ensures EvalAtom(e, Flat(row)).Some?
  {
  }

  /** For an equality: exactly when no value of the column's type has the index key of a
      literal of another type, and the condition is answered or nothing can be equal. */
  lemma EqPushdownExactly(t: Table, e: Expr)
    requires DistinctColumns(t) && e.Cmp? && e.op == EqOp && TranslateEq(t, e.a, e.b).Some?
    ensures var (name, lit) := ColumnLiteral(e.a, e.b).value;
            var ty := t.Col(name).value.storageType;
            Alias(lit, ty).None? && (Indexed(t, name) || !LiteralFits(lit, ty)) <==>
            forall row :: Typed(t, row) ==> Decides(t, e, TranslateEq(t, e.a, e.b).value, row)
  {
    ConjunctExactly(t, e);
  }

  /** For a membership test: exactly when every value of the column's type that has the index
      key of a literal of another type is listed itself, and the condition is answered or
      nothing can be a member. */
  lemma InPushdownExactly(t: Table, e: Expr)
    requires DistinctColumns(t) && e.In? && TranslateIn(t, e.a, e.list).Some?
    ensures var ty := t.Col(e.a.name).value.storageType;
            NoneMistaken(e.list, ty) && (RealBitmap(t, e.a.name) || forall lit :: lit in e.list ==> !LiteralFits(lit, ty)) <==>
            forall row :: Typed(t, row) ==> Decides(t, e, TranslateIn(t, e.a, e.list).value, row)
  {
    ConjunctExactly(t, e);
  }

  /** For a prefix test: on a text column exactly when it has a bitmap, and on another column
      exactly when it has none or no key in it can start with the prefix. */
  lemma PrefixPushdownExactly(t: Table, e: Expr)
    requires DistinctColumns(t) && e.BytesPrefix? && TranslateTest(t, e).Some?
    ensures var ty := t.Col(e.a.name).value.storageType;
            (if RealBitmap(t, e.a.name) then SafePrefix(e.prefix, ty) else ty != TextType) <==>
            forall row :: Typed(t, row) ==> Decides(t, e, TranslateTest(t, e).value, row)
  {
    ConjunctExactly(t, e);
  }

  /** For an order comparison: exactly when the column is an integer column on the left, the
      literal an integer and the bound does not saturate, or no value can pass. */
  lemma OrderPushdownExactly(t: Table, e: Expr)
    requires DistinctColumns(t) && e.Cmp? && e.op != EqOp && e.op != NeOp
    requires TranslateCmp(t, e.op, e.a, e.b).Some?
    ensures var (name, lit) := ColumnLiteral(e.a, e.b).value;
            SafeBound(e.op, e.a, t.Col(name).value.storageType, lit) <==>
            forall row :: Typed(t, row) ==> Decides(t, e, TranslateCmp(t, e.op, e.a, e.b).value, row)
  {
    ConjunctExactly(t, e);
  }

  /** A row with one non-null cell. */
  function OneCell(name: string, v: Value): Row {
    map[name := v]
  }

  lemma OneCellTyped(t: Table, name: string, v: Value)
    requires DistinctColumns(t) && t.HasCol(name) && Fits(v, t.Col(name).value.storageType)
    ensures Typed(t, OneCell(name, v)) && Get(OneCell(name, v), name) == v
    ensures CellById(t, OneCell(name, v), t.Col(name).value.id) == Some(v)
    ensures forall c :: c in t.columns && c.id == t.Col(name).value.id ==> c.name == name
  {
    forall c | c in t.columns ensures Fits(Get(OneCell(name, v), c.name), c.storageType) {
      if c.name == name {
        assert c == t.Col(name).value;
      }
    }
    CellOfColumn(t, OneCell(name, v), name);
  }

  /** The row on which an unsafe conjunct and its condition disagree. */
  lemma Counterexample(t: Table, e: Expr) returns (row: Row)
    requires DistinctColumns(t) && IsAtom(e) && Translate(t, e).0.Some? && Translate(t, e).1 && !SafeConjunct(t, e)
    ensures Typed(t, row) && !Decides(t, e, Translate(t, e).0.value, row)
  {
    if e.Cmp? && e.op == EqOp {
      row := EqCounterexample(t, e);
    } else if e.Cmp? {
      row := OrderCounterexample(t, e);
    } else if e.In? {
      row := InCounterexample(t, e);
    } else {
      row := PrefixCounterexample(t, e);
    }
  }

  lemma EqCounterexample(t: Table, e: Expr) returns (row: Row)
    requires DistinctColumns(t) && e.Cmp? && e.op == EqOp && TranslateEq(t, e.a, e.b).Some? && !SafeConjunct(t, e)
    ensures Typed(t, row) && !Decides(t, e, TranslateEq(t, e.a, e.b).value, row)
  {
    var (name, lit) := ColumnLiteral(e.a, e.b).value;
    var ty := t.Col(name).value.storageType;
    var v := if Alias(lit, ty).Some? then Alias(lit, ty).value else LiteralValue(lit);
    AliasExactly(lit, ty, v);
    row := OneCell(name, v);
    OneCellTyped(t, name, v);
    CompareTextEqual(v, LiteralValue(lit));
    CompareTextEqual(LiteralValue(lit), v);
  }

  lemma InCounterexample(t: Table, e: Expr) returns (row: Row)
    requires DistinctColumns(t) && e.In? && TranslateIn(t, e.a, e.list).Some? && !SafeConjunct(t, e)
    ensures Typed(t, row) && !Decides(t, e, TranslateIn(t, e.a, e.list).value, row)
  {
    var ty := t.Col(e.a.name).value.storageType;
    if NoneMistaken(e.list, ty) {
      var lit :| lit in e.list && LiteralFits(lit, ty);
      row := UnansweredMember(t, e, lit);
    } else {
      var lit :| lit in e.list && Alias(lit, ty).Some? && Mistaken(e.list, ty, Alias(lit, ty).value);
      row := MistakenMember(t, e, lit);
    }
  }

  lemma UnansweredMember(t: Table, e: Expr, lit: Literal) returns (row: Row)
    requires DistinctColumns(t) && e.In? && TranslateIn(t, e.a, e.list).Some? && !RealBitmap(t, e.a.name)
    requires lit in e.list && LiteralFits(lit, t.Col(e.a.name).value.storageType)
    ensures Typed(t, row) && !Decides(t, e, TranslateIn(t, e.a, e.list).value, row)
  {
    var v := LiteralValue(lit);
    row := OneCell(e.a.name, v);
    OneCellTyped(t, e.a.name, v);
  }

  lemma MistakenMember(t: Table, e: Expr, lit: Literal) returns (row: Row)
    requires DistinctColumns(t) && e.In? && TranslateIn(t, e.a, e.list).Some?
    requires var ty := t.Col(e.a.name).value.storageType;
             lit in e.list && Alias(lit, ty).Some? && Mistaken(e.list, ty, Alias(lit, ty).value)
    ensures Typed(t, row) && !Decides(t, e, TranslateIn(t, e.a, e.list).value, row)
  {
    var ty := t.Col(e.a.name).value.storageType;
    var v := Alias(lit, ty).value;
    AliasExactly(lit, ty, v);
    row := OneCell(e.a.name, v);
    OneCellTyped(t, e.a.name, v);
    InMeans(t, e, row);
  }

  lemma PrefixCounterexample(t: Table, e: Expr) returns (row: Row)
    requires DistinctColumns(t) && e.BytesPrefix? && TranslateTest(t, e).Some? && !SafeConjunct(t, e)
    ensures Typed(t, row) && !Decides(t, e, TranslateTest(t, e).value, row)
  {
    var name, ty, prefix := e.a.name, t.Col(e.a.name).value.storageType, Utf8(e.prefix);
    var v :=
      match ty
      case TextType => Text(e.prefix)
      case IntType => Int(FromBigEndian(prefix + seq(8 - |prefix|, k => 0)))
      case BoolType => Bool(!(prefix <= [0]));
    row := OneCell(name, v);
    OneCellTyped(t, name, v);
  }

  lemma OrderCounterexample(t: Table, e: Expr) returns (row: Row)
    requires DistinctColumns(t) && e.Cmp? && e.op != EqOp && e.op != NeOp
    requires TranslateCmp(t, e.op, e.a, e.b).Some? && !SafeConjunct(t, e)
    ensures Typed(t, row) && !Decides(t, e, TranslateCmp(t, e.op, e.a, e.b).value, row)
  {
    var (name, lit) := ColumnLiteral(e.a, e.b).value;
    var ty := t.Col(name).value.storageType;
    var v := LiteralI64(lit).value;
    var cell :=
      if ty == BoolType then (if e.op == LteOp || e.op == GteOp then LiteralValue(lit) else Bool(v == 0))
      else if lit.LBool? then Int(if e.op == LtOp || e.op == LteOp then I64_MIN else I64_MAX)
      else if e.a.Column? then Int(v)
      else
        match e.op
        case LtOp => Int(I64_MIN)
        case GtOp => Int(I64_MAX)
        case LteOp => Int(if v == I64_MIN then I64_MAX else I64_MIN)
        case GteOp => Int(if v == I64_MAX then I64_MIN else I64_MAX);
    row := OneCell(name, cell);
    OneCellTyped(t, name, cell);
  }

  // ── what is translated ───────────────────────────────────────────────────

  /** The comparison is between the column and the literal, in either order. */
  predicate Comparing(e: Expr, name: string, lit: Literal) {
    e.Cmp? && ((e.a == Expr.Column(name) && e.b == Lit(lit)) || (e.a == Lit(lit) && e.b == Expr.Column(name)))
  }

  predicate Wildcard(c: char) {
    c == '%' || c == '_'
  }

  /** The expression has a condition on the column: an equality or a membership test without
      nulls on an indexed column, an order comparison with an integer or boolean on a column
      that holds no text, a pattern with some literal text on a column with a text index, a
      prefix on an indexed column, and any null test. */
  ghost predicate PushableOn(t: Table, e: Expr, name: string) {
    t.HasCol(name) &&
    match e
    case Cmp(op, _, _) =>
      exists lit :: Comparing(e, name, lit) && op != NeOp
        && if op == EqOp then lit != LNull && HasBitmapIndex(t, name)
           else (lit.LInt? || lit.LBool?) && t.Col(name).value.storageType != TextType
    case In(a, list) => a == Expr.Column(name) && LNull !in list && HasBitmapIndex(t, name)
    case Like(a, pattern) => a == Expr.Column(name) && HasFmIndex(t, name) && '\\' !in pattern && exists c :: c in pattern && !Wildcard(c)
    case Contains(a, _) => a == Expr.Column(name) && HasFmIndex(t, name)
    case BytesPrefix(a, _) => a == Expr.Column(name) && HasBitmapIndex(t, name)
    case IsNull(a) => a == Expr.Column(name)
    case IsNotNull(a) => a == Expr.Column(name)
    case _ => false
  }

  ghost predicate Pushable(t: Table, e: Expr) {
    exists name :: PushableOn(t, e, name)
  }

  lemma {:induction false} RunsAre(current: string, pattern: string)
    ensures Runs(current, pattern) == [] <==> current == "" && forall c :: c in pattern ==> Wildcard(c)
    decreases |pattern|
  {
    if pattern != "" {
      assert pattern[0] in pattern && forall c :: c in pattern <==> c == pattern[0] || c in pattern[1..];
      if Wildcard(pattern[0]) {
        RunsAre("", pattern[1..]);
      } else {
        RunsAre(current + [pattern[0]], pattern[1..]);
      }
    }
  }

  lemma ComparedOnce(e: Expr, name: string, lit: Literal)
    requires e.Cmp?
    ensures Comparing(e, name, lit) <==> ColumnLiteral(e.a, e.b) == Some((name, lit))
  {
  }

  lemma ComparisonTranslated(t: Table, e: Expr)
    requires e.Cmp?
    ensures Translate(t, e).0.Some? <==> Pushable(t, e)
  {
    forall name, lit ensures Comparing(e, name, lit) <==> ColumnLiteral(e.a, e.b) == Some((name, lit)) {
      ComparedOnce(e, name, lit);
    }
    if Translate(t, e).0.Some? {
      var (name, lit) := ColumnLiteral(e.a, e.b).value;
      assert Comparing(e, name, lit);
      assert PushableOn(t, e, name);
    }
  }

  lemma TestTranslated(t: Table, e: Expr)
    requires e.In? || e.Like? || e.Contains? || e.BytesPrefix? || e.IsNull? || e.IsNotNull?
    ensures Translate(t, e).0.Some? <==> Pushable(t, e)
  {
    if e.Like? {
      RunsAre("", e.pattern);
    }
    if Translate(t, e).0.Some? {
      assert PushableOn(t, e, e.a.name);
    }
  }

  /** Exactly these expressions have a condition, and it stands for the whole expression but
      for text patterns and null tests, which are checked again. */
  lemma TranslatedExactly(t: Table, e: Expr)
    requires !e.And?
    ensures Translate(t, e).0.Some? <==> Pushable(t, e)
    ensures Translate(t, e).1 <==> Pushable(t, e) && (e.Cmp? || e.In? || e.BytesPrefix?)
  {
    if e.Cmp? {
      ComparisonTranslated(t, e);
    } else if e.In? || e.Like? || e.Contains? || e.BytesPrefix? || e.IsNull? || e.IsNotNull? {
      TestTranslated(t, e);
    }
  }

  /** `conjuncts`: those of nested ANDs, from left to right. */
  function Conjuncts(e: Expr): seq<Expr>
    decreases e, 0
  {
    if e.And? then AllConjuncts(e.parts) else [e]
  }

  function AllConjuncts(parts: seq<Expr>): seq<Expr>
    decreases parts, 1
  {
    if parts == [] then [] else Conjuncts(parts[0]) + AllConjuncts(parts[1..])
  }

  /** The conditions of a list of conjuncts, in their order. */
  function ConditionsOf(t: Table, es: seq<Expr>): seq<Condition>
    requires forall e :: e in es ==> !e.And?
  {
    if es == [] then []
    else (match Translate(t, es[0]).0 case None => [] case Some(c) => [c]) + ConditionsOf(t, es[1..])
  }

  lemma {:induction false} ConditionsAppend(t: Table, a: seq<Expr>, b: seq<Expr>)
    requires (forall e :: e in a ==> !e.And?) && forall e :: e in b ==> !e.And?
    ensures forall e :: e in a + b ==> !e.And?
    ensures ConditionsOf(t, a + b) == ConditionsOf(t, a) + ConditionsOf(t, b)
    decreases |a|
  {
    assert forall e :: e in a + b <==> e in a || e in b;
    if a == [] {
      assert a + b == b;
    } else {
      ConditionsAppend(t, a[1..], b);
      ConditionsCons(t, a, b);
    }
  }

  lemma ConditionsCons(t: Table, a: seq<Expr>, b: seq<Expr>)
    requires a != [] && (forall e :: e in a + b ==> !e.And?) && (forall e :: e in a ==> !e.And?) && forall e :: e in a[1..] + b ==> !e.And?
    ensures var first := match Translate(t, a[0]).0 case None => [] case Some(c) => [c];
            && ConditionsOf(t, a + b) == first + ConditionsOf(t, a[1..] + b)
            && forall rest :: first + ConditionsOf(t, a[1..]) + rest == first + (ConditionsOf(t, a[1..]) + rest)
  {
    assert (a + b)[0] == a[0] && (a + b)[1..] == a[1..] + b;
  }

  lemma {:induction false} ConjunctsFlat(e: Expr)
    ensures forall c :: c in Conjuncts(e) ==> !c.And?
    decreases e, 0
  {
    if e.And? {
      AllConjunctsFlat(e.parts);
    }
  }

  lemma {:induction false} AllConjunctsFlat(parts: seq<Expr>)
    ensures forall c :: c in AllConjuncts(parts) ==> !c.And?
    decreases parts, 1
  {
    if parts != [] {
      ConjunctsFlat(parts[0]);
      AllConjunctsFlat(parts[1..]);
    }
  }

  /** A predicate is translated conjunct by conjunct, and stands for the whole exactly when
      every conjunct's condition does. */
  lemma {:induction false} CollectExactly(t: Table, e: Expr)
    ensures (forall c :: c in Conjuncts(e) ==> !c.And?) && Collect(t, e).conditions == ConditionsOf(t, Conjuncts(e))
    ensures Collect(t, e).fullyTranslated <==> forall c :: c in Conjuncts(e) ==> Translate(t, c).1
    decreases e, 0
  {
    ConjunctsFlat(e);
    if e.And? {
      CollectAllExactly(t, e.parts);
    } else {
      assert ConditionsOf(t, [e][1..]) == [];
    }
  }

  lemma {:induction false} CollectAllExactly(t: Table, parts: seq<Expr>)
    ensures forall c :: c in AllConjuncts(parts) ==> !c.And?
    ensures CollectAll(t, parts).conditions == ConditionsOf(t, AllConjuncts(parts))
    ensures CollectAll(t, parts).fullyTranslated <==> forall c :: c in AllConjuncts(parts) ==> Translate(t, c).1
    decreases parts, 1
  {
    AllConjunctsFlat(parts);
    if parts != [] {
      CollectExactly(t, parts[0]);
      CollectAllExactly(t, parts[1..]);
      ConditionsAppend(t, Conjuncts(parts[0]), AllConjuncts(parts[1..]));
    }
  }
}
