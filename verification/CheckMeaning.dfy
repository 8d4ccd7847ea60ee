/** What a check expression means and how it may be written: comparisons on the values of a row,
    a three-valued answer as the classical answers it stands for, and the other spellings of
    operators, keywords, quotes and numbers. */
module CheckMeaning {
  import opened Strings
  import opened Values
  import opened Check

  // ── comparisons ──────────────────────────────────────────────────────────

  /** The value an operand stands for: a number, a text, a truth value, or nothing. */
  ghost predicate IsNumber(o: Operand, row: Row, x: real) {
    o == Number(x) || (o.Column? && Get(row, o.name).Int? && x == Get(row, o.name).i as real)
  }

  ghost predicate IsText(o: Operand, row: Row, s: string) {
    o == Operand.Text(s) || (o.Column? && Get(row, o.name) == Value.Text(s))
  }

  ghost predicate IsFlag(o: Operand, row: Row, b: bool) {
    o == Boolean(b) || (o.Column? && Get(row, o.name) == Bool(b))
  }

  predicate IsMissing(o: Operand, row: Row) {
    o == Operand.Null || (o.Column? && Get(row, o.name) == Value.Null)
  }

  /** Numbers compare as reals. */
  lemma NumbersCompare(l: Operand, r: Operand, row: Row, x: real, y: real)
    requires IsNumber(l, row, x) && IsNumber(r, row, y)
    ensures Eval(Compare(l, Eq, r), row) == Some(x == y)
    ensures Eval(Compare(l, Ne, r), row) == Some(x != y)
    ensures Eval(Compare(l, Lt, r), row) == Some(x < y)
    ensures Eval(Compare(l, Le, r), row) == Some(x <= y)
    ensures Eval(Compare(l, Gt, r), row) == Some(x > y)
    ensures Eval(Compare(l, Ge, r), row) == Some(x >= y)
  {
  }

  /** Texts compare by their first difference. */
  lemma TextsCompare(l: Operand, r: Operand, row: Row, s: string, t: string)
    requires IsText(l, row, s) && IsText(r, row, t)
    ensures Eval(Compare(l, Eq, r), row) == Some(s == t)
    ensures Eval(Compare(l, Ne, r), row) == Some(s != t)
    ensures Eval(Compare(l, Lt, r), row) == Some(TextBefore(s, t))
    ensures Eval(Compare(l, Le, r), row) == Some(TextBefore(s, t) || s == t)
    ensures Eval(Compare(l, Gt, r), row) == Some(TextBefore(t, s))
    ensures Eval(Compare(l, Ge, r), row) == Some(TextBefore(t, s) || s == t)
  {
    CompareTextMeans(s, t);
  }

  /** False comes before true. */
  lemma FlagsCompare(l: Operand, r: Operand, row: Row, a: bool, b: bool)
    requires IsFlag(l, row, a) && IsFlag(r, row, b)
    ensures Eval(Compare(l, Eq, r), row) == Some(a == b)
    ensures Eval(Compare(l, Ne, r), row) == Some(a != b)
    ensures Eval(Compare(l, Lt, r), row) == Some(!a && b)
    ensures Eval(Compare(l, Le, r), row) == Some(!a || b)
    ensures Eval(Compare(l, Gt, r), row) == Some(a && !b)
    ensures Eval(Compare(l, Ge, r), row) == Some(a || !b)
  {
  }

  /** The two operands hold values of one kind. */
  ghost predicate OneKind(l: Operand, r: Operand, row: Row) {
    || (exists x, y :: IsNumber(l, row, x) && IsNumber(r, row, y))
    || (exists s, t :: IsText(l, row, s) && IsText(r, row, t))
    || (exists a, b :: IsFlag(l, row, a) && IsFlag(r, row, b))
  }

  /** On values of one kind exactly one of less, equal and greater holds, and the other operators
      are what their names say. */
  lemma OneKindLaws(l: Operand, r: Operand, row: Row)
    requires OneKind(l, r, row)
    ensures forall op :: Eval(Compare(l, op, r), row).Some?
    ensures var lt, eq, gt := Eval(Compare(l, Lt, r), row).value, Eval(Compare(l, Eq, r), row).value, Eval(Compare(l, Gt, r), row).value;
            && (lt || eq || gt) && !(lt && eq) && !(lt && gt) && !(eq && gt)
            && Eval(Compare(l, Ne, r), row) == Some(!eq)
            && Eval(Compare(l, Le, r), row) == Some(lt || eq)
            && Eval(Compare(l, Ge, r), row) == Some(!lt)
  {
    if x, y :| IsNumber(l, row, x) && IsNumber(r, row, y) {
      NumbersCompare(l, r, row, x, y);
    } else if s, t :| IsText(l, row, s) && IsText(r, row, t) {
      TextsCompare(l, r, row, s, t);
      CompareTextMeans(s, t);
    } else {
      var a, b :| IsFlag(l, row, a) && IsFlag(r, row, b);
      FlagsCompare(l, r, row, a, b);
    }
    forall op ensures Eval(Compare(l, op, r), row).Some? {
      assert op == Eq || op == Ne || op == Lt || op == Le || op == Gt || op == Ge;
    }
  }

  /** Values of different kinds are unequal and not ordered. */
  lemma MixedLaws(l: Operand, r: Operand, row: Row)
    requires !OneKind(l, r, row) && !IsMissing(l, row) && !IsMissing(r, row)
    ensures Eval(Compare(l, Eq, r), row) == Some(false) && Eval(Compare(l, Ne, r), row) == Some(true)
    ensures Eval(Compare(l, Lt, r), row) == None && Eval(Compare(l, Le, r), row) == None
    ensures Eval(Compare(l, Gt, r), row) == None && Eval(Compare(l, Ge, r), row) == None
  {
    KindOf(l, row);
    KindOf(r, row);
  }

  /** The value of an operand is of just one kind. */
  lemma KindOf(o: Operand, row: Row)
    ensures forall x :: IsNumber(o, row, x) <==> Resolve(o, row) == Num(x)
    ensures forall s :: IsText(o, row, s) <==> Resolve(o, row) == Str(s)
    ensures forall b :: IsFlag(o, row, b) <==> Resolve(o, row) == Flag(b)
    ensures IsMissing(o, row) <==> Resolve(o, row) == Unknown
  {
  }

  /** A missing operand leaves every comparison unknown. */
  lemma MissingIsUnknown(l: Operand, op: Operator, r: Operand, row: Row)
    ensures IsMissing(l, row) || IsMissing(r, row) ==> Eval(Compare(l, op, r), row) == None
  {
  }

  // ── three-valued answers ─────────────────────────────────────────────────

  /** An expression with its comparisons answered. */
  datatype Classical = Answer(b: bool) | Both(l: Classical, r: Classical) | Either(l: Classical, r: Classical) | Reversed(p: Classical)

  /** Two-valued logic. */
  predicate Truth(p: Classical) {
    match p
    case Answer(b) => b
    case Both(l, r) => Truth(l) && Truth(r)
    case Either(l, r) => Truth(l) || Truth(r)
    case Reversed(q) => !Truth(q)
  }

  /** `p` is the expression with each comparison answered as on the row, or at will where the row
      leaves it unknown. */
  ghost predicate Answers(e: Expr, row: Row, p: Classical) {
    match e
    case Compare(_, _, _) => p.Answer? && (Eval(e, row).Some? ==> p.b == Eval(e, row).value)
    case And(l, r) => p.Both? && Answers(l, row, p.l) && Answers(r, row, p.r)
    case Or(l, r) => p.Either? && Answers(l, row, p.l) && Answers(r, row, p.r)
    case Not(x) => p.Reversed? && Answers(x, row, p.p)
  }

  lemma {:induction false} DefiniteIsClassical(e: Expr, row: Row, p: Classical)
    requires Answers(e, row, p) && Eval(e, row).Some?
    ensures Eval(e, row) == Some(Truth(p))
  {
    match e
    case Compare(_, _, _) =>
    case And(l, r) =>
      if Eval(l, row).Some? {
        DefiniteIsClassical(l, row, p.l);
      }
      if Eval(r, row).Some? {
        DefiniteIsClassical(r, row, p.r);
      }
    case Or(l, r) =>
      if Eval(l, row).Some? {
        DefiniteIsClassical(l, row, p.l);
      }
      if Eval(r, row).Some? {
        DefiniteIsClassical(r, row, p.r);
      }
    case Not(x) => DefiniteIsClassical(x, row, p.p);
  }

  /** An answer that is not the other one can be had. */
  lemma {:induction false} Attains(e: Expr, row: Row, b: bool) returns (p: Classical)
    requires Eval(e, row) != Some(!b)
    ensures Answers(e, row, p) && Truth(p) == b
  {
    match e
    case Compare(_, _, _) => p := Answer(b);
    case And(l, r) =>
      var at := if b || Eval(l, row) != Some(true) then b else true;
      var bt := if b || at then b else if Eval(r, row) == Some(true) then true else false;
      var x := Attains(l, row, at);
      var y := Attains(r, row, bt);
      p := Both(x, y);
    case Or(l, r) =>
      var at := if !b || Eval(l, row) != Some(false) then b else false;
      var bt := if !b || !at then b else if Eval(r, row) == Some(false) then false else true;
      var x := Attains(l, row, at);
      var y := Attains(r, row, bt);
      p := Either(x, y);
    case Not(x) =>
      var q := Attains(x, row, !b);
      p := Reversed(q);
  }

  /** The answer is definite exactly when it is the classical answer however the unknown
      comparisons come out, and it is that one. */
  lemma EvalIsClassical(e: Expr, row: Row, b: bool)
    ensures Eval(e, row) == Some(b) <==> forall p :: Answers(e, row, p) ==> Truth(p) == b
  {
    if Eval(e, row) == Some(b) {
      forall p | Answers(e, row, p) ensures Truth(p) == b {
        DefiniteIsClassical(e, row, p);
      }
    } else {
      var p := Attains(e, row, !b);
    }
  }

  /** A row is rejected exactly when the expression is false however the unknown comparisons come
      out. */
  lemma RejectedExactly(e: Expr, row: Row)
    ensures !Holds(e, row) <==> forall p :: Answers(e, row, p) ==> !Truth(p)
  {
    EvalIsClassical(e, row, false);
  }
}
