/** Joins: the filter split by alias and pushed to each side, the index probe for foreign-key
    equality, and the nested loop, against joining full tables and filtering at the end. */
module Join {
  import opened Lists
  import opened Strings
  import opened Values
  import opened Bytes
  import opened Schema
  import opened Query
  import opened Pushdown
  import opened Overlay
  import opened Exec

  datatype JoinKind = Inner | Left | Cross

  datatype JoinClause = JoinClause(table: string, alias: string, kind: JoinKind, on: Option<Expr>)

  /** A join query before sorting; aliases default to table names. */
  datatype JoinQuery = JoinQuery(table: string, alias: string, joins: seq<JoinClause>, filter: Option<Expr>)

  /** The fallback for a column name without an alias. */
  type Bare = (JoinRow, string) -> Value

  // ── splitting the filter ─────────────────────────────────────────────────

  const SUBQUERY := "__subquery__"

  /** `collect_aliases` */
  function Aliases(e: Expr): set<string>
    decreases e, 0
  {
    match e
    case Column(name) => (match SplitDot(name) case None => {} case Some((alias, _)) => {alias})
    case Lit(_) => {}
    case And(parts) => AllAliases(parts)
    case Or(parts) => AllAliases(parts)
    case Not(x) => Aliases(x)
    case Cmp(_, a, b) => Aliases(a) + Aliases(b)
    case In(a, _) => Aliases(a)
    case NotIn(a, _) => Aliases(a)
    case IsNull(a) => Aliases(a)
    case IsNotNull(a) => Aliases(a)
    case Like(a, _) => Aliases(a)
    case Contains(a, _) => Aliases(a)
    case BytesPrefix(a, _) => Aliases(a)
    case InSubquery(a, _) => Aliases(a)
    case Exists(_) => {SUBQUERY}
    case NotExists(_) => {SUBQUERY}
  }

  function AllAliases(parts: seq<Expr>): set<string>
    decreases parts, 1
  {
    if parts == [] then {} else Aliases(parts[0]) + AllAliases(parts[1..])
  }

  /** The expression has the one alias `a`. */
  predicate OnlyAlias(e: Expr, a: string) {
    Aliases(e) == {a}
  }

  /** `strip_alias_prefix` */
  function Strip(e: Expr, alias: string): Expr
    decreases e, 0
  {
    match e
    case Column(name) =>
      (match SplitDot(name)
       case None => e
       case Some((a, col)) => if a == alias then Expr.Column(col) else e)
    case Lit(_) => e
    case And(parts) => And(StripAll(parts, alias))
    case Or(parts) => Or(StripAll(parts, alias))
    case Not(x) => Not(Strip(x, alias))
    case Cmp(op, a, b) => Cmp(op, Strip(a, alias), Strip(b, alias))
    case In(a, list) => In(Strip(a, alias), list)
    case NotIn(a, list) => NotIn(Strip(a, alias), list)
    case IsNull(a) => IsNull(Strip(a, alias))
    case IsNotNull(a) => IsNotNull(Strip(a, alias))
    case Like(a, pattern) => Like(Strip(a, alias), pattern)
    case Contains(a, needle) => Contains(Strip(a, alias), needle)
    case BytesPrefix(a, prefix) => BytesPrefix(Strip(a, alias), prefix)
    case InSubquery(a, sub) => InSubquery(Strip(a, alias), sub)
    case Exists(_) => e
    case NotExists(_) => e
  }

  function StripAll(parts: seq<Expr>, alias: string): (r: seq<Expr>)
    ensures |r| == |parts|
    ensures forall i :: 0 <= i < |parts| ==> r[i] == Strip(parts[i], alias)
    decreases parts, 1
  {
    if parts == [] then [] else [Strip(parts[0], alias)] + StripAll(parts[1..], alias)
  }

  /** The conjuncts pushed to an alias, stripped of it. */
  function SideOf(cs: seq<Expr>, alias: string): seq<Expr> {
    if cs == [] then []
    else SidePart(cs[0], alias) + SideOf(cs[1..], alias)
  }

  function SidePart(c: Expr, alias: string): seq<Expr> {
    if OnlyAlias(c, alias) then [Strip(c, alias)] else []
  }

  predicate HasOneAlias(e: Expr) {
    exists a :: a in Aliases(e) && OnlyAlias(e, a)
  }

  /** The conjuncts left for after the join. */
  function ResidualOf(cs: seq<Expr>): seq<Expr> {
    if cs == [] then []
    else (if HasOneAlias(cs[0]) then [] else [cs[0]]) + ResidualOf(cs[1..])
  }

  function FilterConjuncts(q: JoinQuery): seq<Expr> {
    match q.filter case None => [] case Some(f) => Conjuncts(f)
  }

  // ── one side of the join ─────────────────────────────────────────────────

  /** `side_conditions` */
  function SideConditions(cx: Context, table: string, cs: seq<Expr>): seq<Condition> {
    match FindTable(cx.tables, table)
    case None => []
    case Some(t) => if cs == [] then [] else Collect(t, cs[0]).conditions + SideConditions(cx, table, cs[1..])
  }

  /** `passes_side_filter`, which may fail. */
  function PassesSide(cx: Context, cs: seq<Expr>): Row -> Option<bool> {
    (row: Row) => EvalAnd(cx, true, cs, Flat(row))
  }

  /** The rows fetched for one side, with the conjuncts applied again. */
  function SideRows(cx: Context, table: string, cs: seq<Expr>, probe: seq<Condition>): Option<seq<Row>> {
    match FilteredRows(cx, table, SideConditions(cx, table, cs) + probe)
    case None => None
    case Some(rows) => FilterBy(PassesSide(cx, cs), rows)
  }

  // ── the probe ────────────────────────────────────────────────────────────

  /** An `ON` that equates a column of the joined alias with another column. */
  datatype Equality = Equality(right: string, left: string)

  predicate Prefixed(name: string, alias: string) {
    alias + "." <= name
  }

  function RightOf(name: string, alias: string): string
    requires Prefixed(name, alias)
  {
    name[|alias| + 1..]
  }

  function EqualityOf(on: Expr, alias: string): Option<Equality> {
    match on
    case Cmp(EqOp, Column(a), Column(b)) =>
      if Prefixed(a, alias) && !Prefixed(b, alias) then Some(Equality(RightOf(a, alias), b))
      else if Prefixed(b, alias) && !Prefixed(a, alias) then Some(Equality(RightOf(b, alias), a))
      else None
    case _ => None
  }

  /** `has_declared_bitmap_index`: an index of any kind counts. */
  predicate HasDeclaredIndex(t: Table, name: string) {
    || (exists x :: x in t.indexes && name in x.columns)
    || (exists u :: u in t.uniqueConstraints && name in u.columns)
  }

  /** The index key of a column of an accumulated row. */
  function LeftKey(row: JoinRow, left: string): Option<seq<Byte>> {
    match SplitDot(left)
    case None => None
    case Some((alias, col)) =>
      if alias in row && row[alias].Some? then ValueKey(Get(row[alias].value, col)) else None
  }

  /** The distinct keys of the accumulated rows. */
  function ProbeKeys(acc: seq<JoinRow>, left: string): seq<seq<Byte>> {
    if acc == [] then []
    else
      var before := ProbeKeys(acc[..|acc| - 1], left);
      match LeftKey(acc[|acc| - 1], left)
      case None => before
      case Some(k) => if k in before then before else before + [k]
  }

  /** `fk_join_condition` */
  function FkCondition(t: Table, alias: string, on: Expr, acc: seq<JoinRow>): Option<Condition> {
    match EqualityOf(on, alias)
    case None => None
    case Some(eq) =>
      if !HasDeclaredIndex(t, eq.right) || t.Col(eq.right).None? || SplitDot(eq.left).None? || ProbeKeys(acc, eq.left) == [] then None
      else Some(BitmapIn(t.Col(eq.right).value.id, ProbeKeys(acc, eq.left)))
  }

  function Probe(cx: Context, j: JoinClause, acc: seq<JoinRow>): seq<Condition> {
    if j.kind == Cross || j.on.None? || FindTable(cx.tables, j.table).None? then []
    else
      match FkCondition(FindTable(cx.tables, j.table).value, j.alias, j.on.value, acc)
      case None => []
      case Some(c) => [c]
  }

  // ── the nested loop ──────────────────────────────────────────────────────

  /** Whether a combined row is kept, which may fail. */
  function OnTest(cx: Context, pushed: bool, j: JoinClause, bare: Bare): JoinRow -> Option<bool> {
    (row: JoinRow) =>
      if j.kind == Cross || j.on.None? then Some(true) else Eval(cx, pushed, j.on.value, Joined(row, bare))
  }

  /** The right rows that match one left row. */
  function Matches(test: JoinRow -> Option<bool>, alias: string, left: JoinRow, rows: seq<Row>): Option<seq<JoinRow>> {
    if rows == [] then Some([])
    else
      match (test(left[alias := Some(rows[0])]), Matches(test, alias, left, rows[1..]))
      case (Some(b), Some(rest)) => Some(if b then [left[alias := Some(rows[0])]] + rest else rest)
      case _ => None
  }

  function NestedLoop(test: JoinRow -> Option<bool>, kind: JoinKind, alias: string, acc: seq<JoinRow>, rows: seq<Row>): Option<seq<JoinRow>> {
    if acc == [] then Some([])
    else
      match (Matches(test, alias, acc[0], rows), NestedLoop(test, kind, alias, acc[1..], rows))
      case (Some(ms), Some(rest)) =>
        Some((if ms == [] && kind == Left then [acc[0][alias := None]] else ms) + rest)
      case _ => None
  }

  function BaseRows(alias: string, rows: seq<Row>): seq<JoinRow> {
    seq(|rows|, k requires 0 <= k < |rows| => map[alias := Some(rows[k])])
  }

  /** The joins of `run_join`, one after the other. */
  function PushedJoins(cx: Context, cs: seq<Expr>, joins: seq<JoinClause>, acc: seq<JoinRow>, bare: Bare): Option<seq<JoinRow>>
    decreases |joins|
  {
    if joins == [] then Some(acc)
    else
      match PushedStep(cx, cs, joins[0], acc, bare)
      case None => None
      case Some(next) => PushedJoins(cx, cs, joins[1..], next, bare)
  }

  /** One join of `run_join`. */
  function PushedStep(cx: Context, cs: seq<Expr>, j: JoinClause, acc: seq<JoinRow>, bare: Bare): Option<seq<JoinRow>> {
    match SideRows(cx, j.table, SideOf(cs, j.alias), Probe(cx, j, acc))
    case None => None
    case Some(rows) => NestedLoop(OnTest(cx, true, j, bare), j.kind, j.alias, acc, rows)
  }

  /** The residual conjuncts, all evaluated. */
  function AllHold(cx: Context, cs: seq<Expr>, sc: Scope): Option<bool> {
    if cs == [] then Some(true)
    else
      match (Eval(cx, true, cs[0], sc), AllHold(cx, cs[1..], sc))
      case (Some(b), Some(rest)) => Some(b && rest)
      case _ => None
  }

  function ResidualTest(cx: Context, cs: seq<Expr>, bare: Bare): JoinRow -> Option<bool> {
    (row: JoinRow) => AllHold(cx, cs, Joined(row, bare))
  }

  function FilterJoined(test: JoinRow -> Option<bool>, rows: seq<JoinRow>): Option<seq<JoinRow>> {
    if rows == [] then Some([])
    else
      match (test(rows[0]), FilterJoined(test, rows[1..]))
      case (Some(b), Some(rest)) => Some(if b then [rows[0]] + rest else rest)
      case _ => None
  }

  /** `run_join` before sorting. */
  function RunJoin(cx: Context, q: JoinQuery, bare: Bare): Option<seq<JoinRow>> {
    var cs := FilterConjuncts(q);
    match SideRows(cx, q.table, SideOf(cs, q.alias), [])
    case None => None
    case Some(base) =>
      match PushedJoins(cx, cs, q.joins, BaseRows(q.alias, base), bare)
      case None => None
      case Some(acc) =>
        if ResidualOf(cs) == [] then Some(acc) else FilterJoined(ResidualTest(cx, ResidualOf(cs), bare), acc)
  }

  // ── the plain join ───────────────────────────────────────────────────────

  function PlainJoins(cx: Context, joins: seq<JoinClause>, acc: seq<JoinRow>, bare: Bare): Option<seq<JoinRow>>
    decreases |joins|
  {
    if joins == [] then Some(acc)
    else
      match PlainStep(cx, joins[0], acc, bare)
      case None => None
      case Some(next) => PlainJoins(cx, joins[1..], next, bare)
  }

  function PlainStep(cx: Context, j: JoinClause, acc: seq<JoinRow>, bare: Bare): Option<seq<JoinRow>> {
    match TableRows(cx, j.table)
    case None => None
    case Some(rows) => NestedLoop(OnTest(cx, false, j, bare), j.kind, j.alias, acc, rows)
  }

  function FilterTest(cx: Context, f: Expr, bare: Bare): JoinRow -> Option<bool> {
    (row: JoinRow) => Eval(cx, false, f, Joined(row, bare))
  }

  /** Every row of every table joined in order, and then the whole filter. */
  function PlainJoin(cx: Context, q: JoinQuery, bare: Bare): Option<seq<JoinRow>> {
    match TableRows(cx, q.table)
    case None => None
    case Some(base) =>
      match PlainJoins(cx, q.joins, BaseRows(q.alias, base), bare)
      case None => None
      case Some(acc) => match q.filter case None => Some(acc) case Some(f) => FilterJoined(FilterTest(cx, f, bare), acc)
  }

  // ── expressions that cannot fail ─────────────────────────────────────────

  predicate IsScalar(e: Expr) {
    e.Column? || e.Lit?
  }

  /** Operands are scalars and subqueries read tables that exist. */
  predicate NoErrors(cx: Context, e: Expr)
    decreases e
  {
    match e
    case Column(_) => true
    case Lit(_) => true
    case And(parts) => forall p :: p in parts ==> NoErrors(cx, p)
    case Or(parts) => forall p :: p in parts ==> NoErrors(cx, p)
    case Not(x) => NoErrors(cx, x)
    case Cmp(_, a, b) => IsScalar(a) && IsScalar(b)
    case InSubquery(a, sub) => IsScalar(a) && Run(cx, false, sub).Some?
    case Exists(sub) => Run(cx, false, sub).Some?
    case NotExists(sub) => Run(cx, false, sub).Some?
    case _ => IsScalar(e.a)
  }

  lemma {:induction false} NeverFails(cx: Context, e: Expr, sc: Scope)
    requires NoErrors(cx, e)
    ensures Eval(cx, false, e, sc).Some?
    decreases e, 0
  {
    if e.And? {
      AndNeverFails(cx, e.parts, sc);
    } else if e.Or? {
      OrNeverFails(cx, e.parts, sc);
    } else if e.Not? {
      NeverFails(cx, e.e, sc);
    }
  }

  lemma {:induction false} AndNeverFails(cx: Context, parts: seq<Expr>, sc: Scope)
    requires forall p :: p in parts ==> NoErrors(cx, p)
    ensures EvalAnd(cx, false, parts, sc).Some?
    ensures EvalAnd(cx, false, parts, sc) == Some(true) <==> forall p :: p in parts ==> Holds(cx, p, sc)
    decreases parts, 0
  {
    if parts != [] {
      NeverFails(cx, parts[0], sc);
      AndNeverFails(cx, parts[1..], sc);
      assert forall p :: p in parts <==> p == parts[0] || p in parts[1..];
      assert (forall p :: p in parts ==> Holds(cx, p, sc))
        <==> Holds(cx, parts[0], sc) && forall p :: p in parts[1..] ==> Holds(cx, p, sc);
    }
  }

  lemma {:induction false} OrNeverFails(cx: Context, parts: seq<Expr>, sc: Scope)
    requires forall p :: p in parts ==> NoErrors(cx, p)
    ensures EvalOr(cx, false, parts, sc).Some?
    decreases parts, 0
  {
    if parts != [] {
      NeverFails(cx, parts[0], sc);
      OrNeverFails(cx, parts[1..], sc);
    }
  }

  /** The expression holds under plain evaluation. */
  predicate Holds(cx: Context, e: Expr, sc: Scope) {
    Eval(cx, false, e, sc) == Some(true)
  }

  /** An expression evaluated alike by pushed and plain evaluation, without errors. */
  ghost predicate Steady(cx: Context, e: Expr) {
    NoErrors(cx, e) && SafeExpr(cx, e)
  }

  lemma SteadyAgrees(cx: Context, e: Expr, sc: Scope)
    requires EngineSound(cx) && WellTyped(cx) && Steady(cx, e)
    ensures Eval(cx, true, e, sc) == Eval(cx, false, e, sc) == Some(Holds(cx, e, sc))
  {
    NeverFails(cx, e, sc);
    EvalAgrees(cx, e, sc);
    assert Eval(cx, false, e, sc).value == Holds(cx, e, sc);
  }

  lemma SteadyAllAgree(cx: Context, cs: seq<Expr>, sc: Scope)
    requires EngineSound(cx) && WellTyped(cx) && forall c :: c in cs ==> Steady(cx, c)
    ensures EvalAnd(cx, true, cs, sc) == Some(forall c :: c in cs ==> Holds(cx, c, sc))
    ensures EvalAnd(cx, false, cs, sc) == Some(forall c :: c in cs ==> Holds(cx, c, sc))
  {
    AndNeverFails(cx, cs, sc);
    AndAgrees(cx, cs, sc);
  }

  // ── stripping an alias ───────────────────────────────────────────────────

  /** Every column of the expression is written `alias.column`. */
  predicate Qualified(e: Expr)
    decreases e
  {
    match e
    case Column(name) => SplitDot(name).Some?
    case Lit(_) => true
    case And(parts) => forall p :: p in parts ==> Qualified(p)
    case Or(parts) => forall p :: p in parts ==> Qualified(p)
    case Not(x) => Qualified(x)
    case Cmp(_, a, b) => Qualified(a) && Qualified(b)
    case Exists(_) => true
    case NotExists(_) => true
    case _ => Qualified(e.a)
  }

  lemma StripScalar(e: Expr, alias: string, sc: Scope, row: Row)
    requires IsScalar(e) && Qualified(e) && Aliases(e) <= {alias}
    requires sc.Joined? && alias in sc.rows && sc.rows[alias] == Some(row)
    ensures EvalVal(Strip(e, alias), Flat(row)) == EvalVal(e, sc)
    ensures Truthy(EvalVal(e, sc).value) == Truthy(EvalVal(Strip(e, alias), Flat(row)).value)
  {
    if e.Column? {
      assert SplitDot(e.name).value.0 in Aliases(e);
    }
  }

  lemma StripAtom(e: Expr, alias: string, sc: Scope, row: Row)
    requires IsAtom(e) && Qualified(e) && Aliases(e) <= {alias}
    requires e.Column? || e.Lit? || (if e.Cmp? then IsScalar(e.a) && IsScalar(e.b) else IsScalar(e.a))
    requires sc.Joined? && alias in sc.rows && sc.rows[alias] == Some(row)
    ensures IsAtom(Strip(e, alias)) && EvalAtom(Strip(e, alias), Flat(row)) == EvalAtom(e, sc)
  {
    if e.Column? || e.Lit? {
      StripScalar(e, alias, sc, row);
    } else {
      StripScalar(e.a, alias, sc, row);
      if e.Cmp? {
        StripScalar(e.b, alias, sc, row);
      }
    }
  }

  /** A conjunct with one alias means the same on that alias's row alone. */
  lemma {:induction false} StripKeeps(cx: Context, e: Expr, alias: string, sc: Scope, row: Row)
    requires NoErrors(cx, e) && Qualified(e) && Aliases(e) <= {alias}
    requires sc.Joined? && alias in sc.rows && sc.rows[alias] == Some(row)
    ensures Eval(cx, false, Strip(e, alias), Flat(row)) == Eval(cx, false, e, sc)
    decreases e, 0
  {
    if IsAtom(e) {
      StripAtom(e, alias, sc, row);
    } else if e.And? {
      StripKeepsAnd(cx, e.parts, alias, sc, row);
    } else if e.Or? {
      StripKeepsOr(cx, e.parts, alias, sc, row);
    } else if e.Not? {
      StripKeeps(cx, e.e, alias, sc, row);
    } else if e.InSubquery? {
      StripScalar(e.a, alias, sc, row);
    }
  }

  lemma {:induction false} StripKeepsAnd(cx: Context, parts: seq<Expr>, alias: string, sc: Scope, row: Row)
    requires forall p :: p in parts ==> NoErrors(cx, p) && Qualified(p)
    requires AllAliases(parts) <= {alias}
    requires sc.Joined? && alias in sc.rows && sc.rows[alias] == Some(row)
    ensures EvalAnd(cx, false, StripAll(parts, alias), Flat(row)) == EvalAnd(cx, false, parts, sc)
    decreases parts, 0
  {
    if parts != [] {
      StripKeeps(cx, parts[0], alias, sc, row);
      StripKeepsAnd(cx, parts[1..], alias, sc, row);
      assert StripAll(parts, alias)[1..] == StripAll(parts[1..], alias);
    }
  }

  lemma {:induction false} StripKeepsOr(cx: Context, parts: seq<Expr>, alias: string, sc: Scope, row: Row)
    requires forall p :: p in parts ==> NoErrors(cx, p) && Qualified(p)
    requires AllAliases(parts) <= {alias}
    requires sc.Joined? && alias in sc.rows && sc.rows[alias] == Some(row)
    ensures EvalOr(cx, false, StripAll(parts, alias), Flat(row)) == EvalOr(cx, false, parts, sc)
    decreases parts, 0
  {
    if parts != [] {
      StripKeeps(cx, parts[0], alias, sc, row);
      StripKeepsOr(cx, parts[1..], alias, sc, row);
      assert StripAll(parts, alias)[1..] == StripAll(parts[1..], alias);
    }
  }

  lemma {:induction false} StripSteady(cx: Context, e: Expr, alias: string)
    requires Steady(cx, e)
    ensures Steady(cx, Strip(e, alias))
    decreases e, 0
  {
    match e
    case And(parts) => StripAllSteady(cx, parts, alias);
    case Or(parts) => StripAllSteady(cx, parts, alias);
    case Not(x) => StripSteady(cx, x, alias);
    case _ =>
  }

  lemma {:induction false} StripAllSteady(cx: Context, parts: seq<Expr>, alias: string)
    requires forall p :: p in parts ==> Steady(cx, p)
    ensures forall p :: p in StripAll(parts, alias) ==> Steady(cx, p)
    decreases parts, 0
  {
    forall p | p in StripAll(parts, alias) ensures Steady(cx, p) {
      var i :| 0 <= i < |parts| && StripAll(parts, alias)[i] == p;
      StripSteady(cx, parts[i], alias);
    }
  }

  // ── the nested loop on filtered sides ────────────────────────────────────

  /** The test never fails, and pushed and plain evaluation agree on it. */
  ghost predicate SameTests(fast: JoinRow -> Option<bool>, plain: JoinRow -> Option<bool>) {
    forall x :: plain(x).Some? && fast(x) == plain(x)
  }

  /** Matching a left row that passes against the right rows that may match and pass. */
  lemma {:induction false} MatchesFiltered(
    fast: JoinRow -> Option<bool>, plain: JoinRow -> Option<bool>, alias: string, left: JoinRow, rows: seq<Row>,
    pass: JoinRow -> bool, kept: Row -> bool)
    requires SameTests(fast, plain)
    requires forall r :: r in rows && kept(r) ==> pass(left[alias := Some(r)])
    requires forall r :: r in rows && pass(left[alias := Some(r)]) && plain(left[alias := Some(r)]) == Some(true) ==> kept(r)
    ensures Matches(plain, alias, left, rows).Some?
    ensures Matches(fast, alias, left, Keep(rows, kept)) == Some(Keep(Matches(plain, alias, left, rows).value, pass))
    decreases |rows|
  {
    if rows != [] {
      var r := rows[0];
      var x := left[alias := Some(r)];
      assert r in rows && forall q :: q in rows[1..] ==> q in rows;
      MatchesFiltered(fast, plain, alias, left, rows[1..], pass, kept);
      assert plain(x).Some? && fast(x) == plain(x);
      var rest := Matches(plain, alias, left, rows[1..]).value;
      if plain(x) == Some(true) {
        assert Matches(plain, alias, left, rows).value == [x] + rest;
        assert ([x] + rest)[1..] == rest;
      } else {
        assert Matches(plain, alias, left, rows).value == rest;
      }
      if kept(r) {
        assert Keep(rows, kept) == [r] + Keep(rows[1..], kept);
        assert ([r] + Keep(rows[1..], kept))[1..] == Keep(rows[1..], kept);
      } else {
        assert Keep(rows, kept) == Keep(rows[1..], kept);
        assert plain(x) == Some(true) ==> !pass(x);
      }
    }
  }

  /** No match of a left row that fails passes. */
  lemma {:induction false} MatchesDropped(plain: JoinRow -> Option<bool>, alias: string, left: JoinRow, rows: seq<Row>, pass: JoinRow -> bool)
    requires Matches(plain, alias, left, rows).Some?
    requires forall r :: r in rows ==> !pass(left[alias := Some(r)])
    ensures Keep(Matches(plain, alias, left, rows).value, pass) == []
    decreases |rows|
  {
    if rows != [] {
      assert rows[0] in rows && forall q :: q in rows[1..] ==> q in rows;
      MatchesDropped(plain, alias, left, rows[1..], pass);
      var x, rest := left[alias := Some(rows[0])], Matches(plain, alias, left, rows[1..]).value;
      if plain(x) == Some(true) {
        assert ([x] + rest)[1..] == rest;
      }
    }
  }

  lemma {:induction false} MatchesNeverFail(plain: JoinRow -> Option<bool>, alias: string, left: JoinRow, rows: seq<Row>)
    requires forall x :: plain(x).Some?
    ensures Matches(plain, alias, left, rows).Some?
    ensures forall x :: x in Matches(plain, alias, left, rows).value ==>
              exists r :: r in rows && x == left[alias := Some(r)] && plain(x) == Some(true)
    decreases |rows|
  {
    if rows != [] {
      MatchesNeverFail(plain, alias, left, rows[1..]);
      assert plain(left[alias := Some(rows[0])]).Some?;
      assert forall q :: q in rows[1..] ==> q in rows;
      assert rows[0] in rows;
    }
  }

  /** What filtering before the join may rely on: a combined row passes when its left part
      does and its right part does; matching right rows that pass are kept; and nothing is
      filtered on the right of a left join. */
  ghost predicate Separable(
    plain: JoinRow -> Option<bool>, kind: JoinKind, alias: string, acc: seq<JoinRow>, rows: seq<Row>,
    pass: JoinRow -> bool, side: Row -> bool, kept: Row -> bool) {
    && (forall left, r :: left in acc && r in rows ==> (pass(left[alias := Some(r)]) <==> pass(left) && side(r)))
    && (forall left :: left in acc ==> (pass(left[alias := None]) <==> pass(left)))
    && (forall r :: r in rows && kept(r) ==> side(r))
    && (forall left, r :: left in acc && pass(left) && r in rows && side(r) && plain(left[alias := Some(r)]) == Some(true) ==> kept(r))
    && (kind == Left ==> forall r :: r in rows ==> side(r))
  }

  lemma {:induction false} LoopFiltered(
    fast: JoinRow -> Option<bool>, plain: JoinRow -> Option<bool>, kind: JoinKind, alias: string,
    acc: seq<JoinRow>, rows: seq<Row>, pass: JoinRow -> bool, side: Row -> bool, kept: Row -> bool)
    requires SameTests(fast, plain) && Separable(plain, kind, alias, acc, rows, pass, side, kept)
    ensures NestedLoop(plain, kind, alias, acc, rows).Some?
    ensures NestedLoop(fast, kind, alias, Keep(acc, pass), Keep(rows, kept))
         == Some(Keep(NestedLoop(plain, kind, alias, acc, rows).value, pass))
    decreases |acc|
  {
    if acc != [] {
      assert acc[0] in acc && forall l :: l in acc[1..] ==> l in acc;
      LoopFiltered(fast, plain, kind, alias, acc[1..], rows, pass, side, kept);
      OneLeftFiltered(fast, plain, kind, alias, acc, rows, pass, side, kept);
      var ms := Matches(plain, alias, acc[0], rows).value;
      var here := if ms == [] && kind == Left then [acc[0][alias := None]] else ms;
      KeepAppend(here, NestedLoop(plain, kind, alias, acc[1..], rows).value, pass);
      if pass(acc[0]) {
        assert Keep(acc, pass) == [acc[0]] + Keep(acc[1..], pass);
        assert ([acc[0]] + Keep(acc[1..], pass))[1..] == Keep(acc[1..], pass);
      } else {
        assert Keep(acc, pass) == Keep(acc[1..], pass);
        assert NestedLoop(plain, kind, alias, acc, rows).value == here + NestedLoop(plain, kind, alias, acc[1..], rows).value;
        assert [] + Keep(NestedLoop(plain, kind, alias, acc[1..], rows).value, pass)
            == Keep(NestedLoop(plain, kind, alias, acc[1..], rows).value, pass);
      }
    }
  }

  /** The rows one left row contributes, before and after filtering. */
  lemma OneLeftFiltered(
    fast: JoinRow -> Option<bool>, plain: JoinRow -> Option<bool>, kind: JoinKind, alias: string,
    acc: seq<JoinRow>, rows: seq<Row>, pass: JoinRow -> bool, side: Row -> bool, kept: Row -> bool)
    requires acc != [] && SameTests(fast, plain) && Separable(plain, kind, alias, acc, rows, pass, side, kept)
    ensures Matches(plain, alias, acc[0], rows).Some?
    ensures var ms := Matches(plain, alias, acc[0], rows).value;
            var here := if ms == [] && kind == Left then [acc[0][alias := None]] else ms;
            if pass(acc[0]) then
              var fs := Matches(fast, alias, acc[0], Keep(rows, kept));
              fs.Some? && Keep(here, pass) == if fs.value == [] && kind == Left then [acc[0][alias := None]] else fs.value
            else Keep(here, pass) == []
  {
    var left := acc[0];
    MatchesNeverFail(plain, alias, left, rows);
    var ms := Matches(plain, alias, left, rows).value;
    if pass(left) {
      MatchesFiltered(fast, plain, alias, left, rows, pass, kept);
      if kind == Left {
        forall x | x in ms ensures pass(x) {
          var r :| r in rows && x == left[alias := Some(r)] && plain(x) == Some(true);
        }
        KeepEvery(ms, pass);
      }
    } else {
      MatchesDropped(plain, alias, left, rows, pass);
    }
  }

  // ── one side, fetched and filtered ───────────────────────────────────────

  /** The rows fetched under conditions are the table's rows thinned out by a test that every
      row meeting the conditions passes. */
  lemma FetchKeeps(cx: Context, table: string, conditions: seq<Condition>) returns (k: Row -> bool)
    requires EngineSound(cx) && TableRows(cx, table).Some?
    requires table !in cx.ctes ==> FindTable(cx.tables, table).Some?
    ensures FilteredRows(cx, table, conditions) == Some(Keep(TableRows(cx, table).value, k))
    ensures table in cx.ctes ==> forall r :: k(r)
    ensures table !in cx.ctes ==>
              var t := FindTable(cx.tables, table).value;
              forall r :: (forall c :: c in conditions ==> EngineMeans(t, r, c)) ==> k(r)
  {
    var rows := TableRows(cx, table).value;
    if conditions == [] || table in cx.ctes {
      k := (r: Row) => true;
      KeepEvery(rows, k);
    } else {
      var t := FindTable(cx.tables, table).value;
      if HasStagedFor(cx.staged, table) {
        k := MatchesAll(t, conditions);
        forall r | forall c :: c in conditions ==> EngineMeans(t, r, c) ensures k(r) {
          forall c | c in conditions ensures RowMatches(t, r, c) {
            assert Means(t, r, c);
          }
        }
      } else {
        k := EngineKeeps(cx, t, conditions);
        ReplayNothing(KeyedBy(t), SnapshotOf(cx, table), cx.staged);
      }
    }
  }

  /** The conjuncts pushed to a table are translated soundly. */
  ghost predicate SideSafe(cx: Context, table: string, cs: seq<Expr>) {
    && (forall c :: c in cs ==> Steady(cx, c))
    && (table !in cx.ctes && FindTable(cx.tables, table).Some? ==>
          forall c :: c in cs ==> Safe(FindTable(cx.tables, table).value, c))
  }

  lemma {:induction false} SideConditionsRight(cx: Context, table: string, cs: seq<Expr>, row: Row, c: Condition)
    requires FindTable(cx.tables, table).Some?
    requires var t := FindTable(cx.tables, table).value;
             DistinctColumns(t) && Typed(t, row) && forall e :: e in cs ==> Safe(t, e) && Holds(cx, e, Flat(row))
    requires c in SideConditions(cx, table, cs)
    ensures EngineMeans(FindTable(cx.tables, table).value, row, c)
  {
    var t := FindTable(cx.tables, table).value;
    if c in Collect(t, cs[0]).conditions {
      CollectRight(cx, false, t, cs[0], row);
    } else {
      SideConditionsRight(cx, table, cs[1..], row, c);
    }
  }

  lemma {:induction false} FilterByKeeps(test: Row -> Option<bool>, p: Row -> bool, rows: seq<Row>)
    requires forall r :: r in rows ==> test(r) == Some(p(r))
    ensures FilterBy(test, rows) == Some(Keep(rows, p))
  {
    if rows != [] {
      assert rows[0] in rows && forall r :: r in rows[1..] ==> r in rows;
      FilterByKeeps(test, p, rows[1..]);
    }
  }

  /** The row passes the conjuncts of its side. */
  function Passing(cx: Context, cs: seq<Expr>): Row -> bool {
    (row: Row) => forall c :: c in cs ==> Holds(cx, c, Flat(row))
  }

  /** The rows of one side are the table's rows that pass its conjuncts, less some that fail
      the probe. */
  lemma SideKeeps(cx: Context, table: string, cs: seq<Expr>, probe: seq<Condition>) returns (p: Row -> bool)
    requires EngineSound(cx) && WellTyped(cx) && SideSafe(cx, table, cs) && TableRows(cx, table).Some?
    ensures SideRows(cx, table, cs, probe) == Some(Keep(TableRows(cx, table).value, p))
    ensures forall r :: p(r) ==> Passing(cx, cs)(r)
    ensures table in cx.ctes ==> forall r :: Passing(cx, cs)(r) ==> p(r)
    ensures table !in cx.ctes ==> FindTable(cx.tables, table).Some?
    ensures table !in cx.ctes ==>
              var t := FindTable(cx.tables, table).value;
              forall r :: r in TableRows(cx, table).value && Passing(cx, cs)(r) && (forall c :: c in probe ==> EngineMeans(t, r, c)) ==> p(r)
  {
    var rows := TableRows(cx, table).value;
    var k := FetchKeeps(cx, table, SideConditions(cx, table, cs) + probe);
    var pass := Passing(cx, cs);
    p := (r: Row) => k(r) && pass(r);
    forall r ensures PassesSide(cx, cs)(r) == Some(pass(r)) {
      SteadyAllAgree(cx, cs, Flat(r));
    }
    FilterByKeeps(PassesSide(cx, cs), pass, Keep(rows, k));
    KeepKeep(rows, k, pass, p);
    if table !in cx.ctes {
      var t := FindTable(cx.tables, table).value;
      forall r | r in rows && pass(r) && (forall c :: c in probe ==> EngineMeans(t, r, c)) ensures p(r) {
        forall c | c in SideConditions(cx, table, cs) + probe ensures EngineMeans(t, r, c) {
          if c in SideConditions(cx, table, cs) {
            SideConditionsRight(cx, table, cs, r, c);
          }
        }
      }
    }
  }

  // ── the probe finds every match ──────────────────────────────────────────

  lemma {:induction false} ProbeKeysHas(acc: seq<JoinRow>, left: string, row: JoinRow)
    requires row in acc && LeftKey(row, left).Some?
    ensures LeftKey(row, left).value in ProbeKeys(acc, left)
    decreases |acc|
  {
    var front, last := acc[..|acc| - 1], acc[|acc| - 1];
    assert acc == front + [last];
    if row != last {
      ProbeKeysHas(front, left, row);
    }
  }

  lemma {:induction false} SplitAt(alias: string, col: string)
    requires '.' !in alias
    ensures SplitDot(alias + "." + col) == Some((alias, col))
  {
    var name := alias + "." + col;
    if alias == "" {
      assert name[0] == '.' && name[1..] == col;
    } else {
      assert name[0] == alias[0] && name[1..] == alias[1..] + "." + col;
      SplitAt(alias[1..], col);
      assert [alias[0]] + alias[1..] == alias;
    }
  }

  lemma PrefixedSplits(name: string, alias: string)
    requires '.' !in alias && Prefixed(name, alias)
    ensures SplitDot(name) == Some((alias, RightOf(name, alias)))
  {
    assert name == alias + "." + RightOf(name, alias);
    SplitAt(alias, RightOf(name, alias));
  }

  lemma UnprefixedSplits(name: string, alias: string)
    requires !Prefixed(name, alias) && SplitDot(name).Some?
    ensures SplitDot(name).value.0 != alias
  {
    var (a, col) := SplitDot(name).value;
    assert name == a + "." + col;
    assert name[..|a| + 1] == a + ".";
  }

  /** No pair of null keys: `json_cmp` makes null equal null, and nulls are not indexed. */
  ghost predicate NoNullKeys(acc: seq<JoinRow>, rows: seq<Row>, eq: Equality, bare: Bare) {
    || (forall left :: left in acc ==> Joined(left, bare).Lookup(eq.left) != Null)
    || (forall r :: r in rows ==> Get(r, eq.right) != Null)
  }

  /** Where a probe is built, its column has a bitmap and no pair of keys is null. */
  ghost predicate ProbeSafe(cx: Context, j: JoinClause, acc: seq<JoinRow>, rows: seq<Row>, bare: Bare) {
    j.table !in cx.ctes && j.kind != Cross && j.on.Some? && EqualityOf(j.on.value, j.alias).Some?
      && FindTable(cx.tables, j.table).Some? ==>
      var t, eq := FindTable(cx.tables, j.table).value, EqualityOf(j.on.value, j.alias).value;
      HasDeclaredIndex(t, eq.right) ==> RealBitmap(t, eq.right) && NoNullKeys(acc, rows, eq, bare)
  }

  /** A pair that satisfies the equality has equal values on both sides. */
  lemma EqualityHolds(cx: Context, j: JoinClause, left: JoinRow, r: Row, bare: Bare)
    requires j.on.Some? && EqualityOf(j.on.value, j.alias).Some? && '.' !in j.alias
    requires SplitDot(EqualityOf(j.on.value, j.alias).value.left).Some?
    requires Eval(cx, false, j.on.value, Joined(left[j.alias := Some(r)], bare)) == Some(true)
    ensures var eq := EqualityOf(j.on.value, j.alias).value;
            Get(r, eq.right) == Joined(left, bare).Lookup(eq.left)
  {
    var on, eq, sc := j.on.value, EqualityOf(j.on.value, j.alias).value, Joined(left[j.alias := Some(r)], bare);
    var (a, b) := (on.a.name, on.b.name);
    if Prefixed(a, j.alias) {
      PrefixedSplits(a, j.alias);
      UnprefixedSplits(b, j.alias);
    } else {
      PrefixedSplits(b, j.alias);
      UnprefixedSplits(a, j.alias);
    }
    CompareTextEqual(sc.Lookup(a), sc.Lookup(b));
    assert EvalAtom(on, sc) == Some(true);
  }

  /** A right row that matches an accumulated row survives the probe over those rows. */
  lemma ProbeFindsMatch(cx: Context, j: JoinClause, acc: seq<JoinRow>, probed: seq<JoinRow>, rows: seq<Row>, bare: Bare,
                        left: JoinRow, r: Row, c: Condition)
    requires WellTyped(cx) && ProbeSafe(cx, j, acc, rows, bare) && '.' !in j.alias
    requires left in acc && left in probed && r in rows && c in Probe(cx, j, probed) && j.table !in cx.ctes
    requires OnTest(cx, false, j, bare)(left[j.alias := Some(r)]) == Some(true)
    ensures EngineMeans(FindTable(cx.tables, j.table).value, r, c)
  {
    var t := FindTable(cx.tables, j.table).value;
    var eq := EqualityOf(j.on.value, j.alias).value;
    var col := t.Col(eq.right).value;
    EqualityHolds(cx, j, left, r, bare);
    CellOfColumn(t, r, eq.right);
    assert Get(r, eq.right) != Null;
    assert LeftKey(left, eq.left) == ValueKey(Get(r, eq.right));
    ProbeKeysHas(probed, eq.left, left);
    assert c == BitmapIn(col.id, ProbeKeys(probed, eq.left));
    assert Means(t, r, c) && col in t.columns && RealBitmap(t, col.name);
  }

  // ── the joins, one after the other ───────────────────────────────────────

  /** A joined row passes the conjuncts pushed to its aliases. */
  function PassesSides(cx: Context, cs: seq<Expr>): JoinRow -> bool {
    (row: JoinRow) => forall a :: a in row.Keys && row[a].Some? ==> Passing(cx, SideOf(cs, a))(row[a].value)
  }

  lemma CombinedPasses(cx: Context, cs: seq<Expr>, left: JoinRow, alias: string, r: Row)
    requires alias !in left
    ensures PassesSides(cx, cs)(left[alias := Some(r)]) <==> PassesSides(cx, cs)(left) && Passing(cx, SideOf(cs, alias))(r)
    ensures PassesSides(cx, cs)(left[alias := None]) <==> PassesSides(cx, cs)(left)
  {
    var x, y := left[alias := Some(r)], left[alias := None];
    assert forall a :: a in left ==> x[a] == left[a] && y[a] == left[a];
    assert x[alias] == Some(r) && y[alias] == None;
  }

  /** What each join needs, on the rows the plain join has at that point. */
  ghost predicate JoinSafe(cx: Context, cs: seq<Expr>, j: JoinClause, acc: seq<JoinRow>, bare: Bare) {
    && TableRows(cx, j.table).Some?
    && '.' !in j.alias
    && (forall row :: row in acc ==> j.alias !in row)
    && (j.on.Some? ==> Steady(cx, j.on.value))
    && SideSafe(cx, j.table, SideOf(cs, j.alias))
    && (j.kind == Left ==> SideOf(cs, j.alias) == [])
    && ProbeSafe(cx, j, acc, TableRows(cx, j.table).value, bare)
  }

  ghost predicate JoinsSafe(cx: Context, cs: seq<Expr>, joins: seq<JoinClause>, acc: seq<JoinRow>, bare: Bare)
    decreases |joins|
  {
    joins != [] ==>
      && JoinSafe(cx, cs, joins[0], acc, bare)
      && match PlainStep(cx, joins[0], acc, bare)
         case None => true
         case Some(next) => JoinsSafe(cx, cs, joins[1..], next, bare)
  }

  lemma OnAgrees(cx: Context, j: JoinClause, bare: Bare)
    requires EngineSound(cx) && WellTyped(cx) && (j.on.Some? ==> Steady(cx, j.on.value))
    ensures SameTests(OnTest(cx, true, j, bare), OnTest(cx, false, j, bare))
  {
    forall x ensures OnTest(cx, false, j, bare)(x).Some? && OnTest(cx, true, j, bare)(x) == OnTest(cx, false, j, bare)(x) {
      if j.on.Some? {
        SteadyAgrees(cx, j.on.value, Joined(x, bare));
      }
    }
  }

  /** One join over filtered rows gives the filtered rows of the plain join. */
  lemma JoinStep(cx: Context, cs: seq<Expr>, j: JoinClause, acc: seq<JoinRow>, bare: Bare)
    requires EngineSound(cx) && WellTyped(cx) && JoinSafe(cx, cs, j, acc, bare)
    ensures var pass := PassesSides(cx, cs);
            && PlainStep(cx, j, acc, bare).Some?
            && PushedStep(cx, cs, j, Keep(acc, pass), bare) == Some(Keep(PlainStep(cx, j, acc, bare).value, pass))
  {
    var pass, rows := PassesSides(cx, cs), TableRows(cx, j.table).value;
    var side, probed := Passing(cx, SideOf(cs, j.alias)), Keep(acc, pass);
    var fast, plain := OnTest(cx, true, j, bare), OnTest(cx, false, j, bare);
    var kept := SideKeeps(cx, j.table, SideOf(cs, j.alias), Probe(cx, j, probed));
    OnAgrees(cx, j, bare);
    forall left, r | left in acc && r in rows
      ensures pass(left[j.alias := Some(r)]) <==> pass(left) && side(r)
    {
      CombinedPasses(cx, cs, left, j.alias, r);
    }
    forall left | left in acc ensures pass(left[j.alias := None]) <==> pass(left) {
      CombinedPasses(cx, cs, left, j.alias, map[]);
    }
    forall left, r | left in acc && pass(left) && r in rows && side(r) && plain(left[j.alias := Some(r)]) == Some(true)
      ensures kept(r)
    {
      if j.table !in cx.ctes {
        KeepHas(acc, pass, left);
        forall c | c in Probe(cx, j, probed) ensures EngineMeans(FindTable(cx.tables, j.table).value, r, c) {
          ProbeFindsMatch(cx, j, acc, probed, rows, bare, left, r, c);
        }
      }
    }
    assert Separable(plain, j.kind, j.alias, acc, rows, pass, side, kept);
    LoopFiltered(fast, plain, j.kind, j.alias, acc, rows, pass, side, kept);
  }

  lemma {:induction false} JoinsAgree(cx: Context, cs: seq<Expr>, joins: seq<JoinClause>, acc: seq<JoinRow>, bare: Bare)
    requires EngineSound(cx) && WellTyped(cx) && JoinsSafe(cx, cs, joins, acc, bare)
    ensures PlainJoins(cx, joins, acc, bare).Some?
    ensures var pass := PassesSides(cx, cs);
            PushedJoins(cx, cs, joins, Keep(acc, pass), bare) == Some(Keep(PlainJoins(cx, joins, acc, bare).value, pass))
    decreases |joins|
  {
    if joins != [] {
      JoinStep(cx, cs, joins[0], acc, bare);
      JoinsAgree(cx, cs, joins[1..], PlainStep(cx, joins[0], acc, bare).value, bare);
    }
  }

  // ── the filter, split and put together again ─────────────────────────────

  lemma {:induction false} SideOfHas(cs: seq<Expr>, alias: string, s: Expr)
    ensures s in SideOf(cs, alias) <==> exists c :: c in cs && OnlyAlias(c, alias) && s == Strip(c, alias)
  {
    if cs != [] {
      SideOfHas(cs[1..], alias, s);
      assert forall c :: c in cs <==> c == cs[0] || c in cs[1..];
    }
  }

  lemma {:induction false} ResidualHas(cs: seq<Expr>, c: Expr)
    ensures c in ResidualOf(cs) <==> c in cs && !HasOneAlias(c)
  {
    if cs != [] {
      ResidualHas(cs[1..], c);
      assert c in cs <==> c == cs[0] || c in cs[1..];
    }
  }

  lemma {:induction false} ConjunctsHold(cx: Context, e: Expr, sc: Scope)
    requires Steady(cx, e)
    ensures forall c :: c in Conjuncts(e) ==> Steady(cx, c)
    ensures Holds(cx, e, sc) <==> forall c :: c in Conjuncts(e) ==> Holds(cx, c, sc)
    decreases e, 0
  {
    if e.And? {
      AndNeverFails(cx, e.parts, sc);
      AllConjunctsHold(cx, e.parts, sc);
    }
  }

  lemma {:induction false} AllConjunctsHold(cx: Context, parts: seq<Expr>, sc: Scope)
    requires forall p :: p in parts ==> Steady(cx, p)
    ensures forall c :: c in AllConjuncts(parts) ==> Steady(cx, c)
    ensures (forall p :: p in parts ==> Holds(cx, p, sc)) <==> forall c :: c in AllConjuncts(parts) ==> Holds(cx, c, sc)
    decreases parts, 1
  {
    if parts != [] {
      ConjunctsHold(cx, parts[0], sc);
      AllConjunctsHold(cx, parts[1..], sc);
      assert forall p :: p in parts <==> p == parts[0] || p in parts[1..];
      assert forall c :: c in AllConjuncts(parts) <==> c in Conjuncts(parts[0]) || c in AllConjuncts(parts[1..]);
    }
  }

  /** The aliases whose rows are never missing: all but those joined on the left. */
  function SolidAliases(joins: seq<JoinClause>): set<string> {
    set j | j in joins && j.kind != Left :: j.alias
  }

  function AliasSet(joins: seq<JoinClause>): set<string> {
    set j | j in joins :: j.alias
  }

  /** A filter that can be split: a conjunct that names one alias only names it in every
      column, and that alias is one of the query's and not the right side of a left join. */
  ghost predicate Splittable(cx: Context, q: JoinQuery) {
    q.filter.Some? ==>
      && Steady(cx, q.filter.value)
      && forall c, a :: c in FilterConjuncts(q) && OnlyAlias(c, a) ==>
           Qualified(c) && a in {q.alias} + SolidAliases(q.joins)
  }

  /** A row of the joined shape passes the filter exactly when it passes the conjuncts of its
      sides and the residual ones. */
  lemma FilterSplits(cx: Context, q: JoinQuery, row: JoinRow, bare: Bare)
    requires q.filter.Some? && Splittable(cx, q)
    requires forall a :: a in {q.alias} + SolidAliases(q.joins) ==> a in row && row[a].Some?
    ensures var cs := FilterConjuncts(q);
            Holds(cx, q.filter.value, Joined(row, bare)) <==>
            PassesSides(cx, cs)(row) && forall c :: c in ResidualOf(cs) ==> Holds(cx, c, Joined(row, bare))
  {
    var cs, sc := FilterConjuncts(q), Joined(row, bare);
    ConjunctsHold(cx, q.filter.value, sc);
    forall c | c in cs ensures c in ResidualOf(cs) <==> !HasOneAlias(c) {
      ResidualHas(cs, c);
    }
    forall c | c in ResidualOf(cs) ensures c in cs {
      ResidualHas(cs, c);
    }
    if forall c :: c in cs ==> Holds(cx, c, sc) {
      ConjunctsPassSides(cx, q, row, bare);
    }
    if PassesSides(cx, cs)(row) {
      SidesPassConjuncts(cx, q, row, bare);
    }
  }

  lemma ConjunctsPassSides(cx: Context, q: JoinQuery, row: JoinRow, bare: Bare)
    requires q.filter.Some? && Splittable(cx, q)
    requires forall c :: c in FilterConjuncts(q) ==> Steady(cx, c) && Holds(cx, c, Joined(row, bare))
    ensures PassesSides(cx, FilterConjuncts(q))(row)
  {
    var cs, sc := FilterConjuncts(q), Joined(row, bare);
    forall a, s | a in row.Keys && row[a].Some? && s in SideOf(cs, a) ensures Holds(cx, s, Flat(row[a].value)) {
      SideOfHas(cs, a, s);
      var c :| c in cs && OnlyAlias(c, a) && s == Strip(c, a);
      StripKeeps(cx, c, a, sc, row[a].value);
    }
  }

  lemma SidesPassConjuncts(cx: Context, q: JoinQuery, row: JoinRow, bare: Bare)
    requires q.filter.Some? && Splittable(cx, q)
    requires forall a :: a in {q.alias} + SolidAliases(q.joins) ==> a in row && row[a].Some?
    requires forall c :: c in FilterConjuncts(q) ==> Steady(cx, c)
    requires PassesSides(cx, FilterConjuncts(q))(row)
    ensures forall c :: c in FilterConjuncts(q) && HasOneAlias(c) ==> Holds(cx, c, Joined(row, bare))
  {
    var cs, sc := FilterConjuncts(q), Joined(row, bare);
    forall c | c in cs && HasOneAlias(c) ensures Holds(cx, c, sc) {
      var a :| a in Aliases(c) && OnlyAlias(c, a);
      SideOfHas(cs, a, Strip(c, a));
      assert Passing(cx, SideOf(cs, a))(row[a].value);
      StripKeeps(cx, c, a, sc, row[a].value);
    }
  }

  // ── the shape of joined rows ─────────────────────────────────────────────

  /** Every row has the aliases joined so far, and a row for each solid one. */
  ghost predicate Shaped(rows: seq<JoinRow>, done: set<string>, solid: set<string>) {
    forall row :: row in rows ==> row.Keys == done && forall a :: a in solid ==> a in row && row[a].Some?
  }

  lemma OneShaped(test: JoinRow -> Option<bool>, j: JoinClause, left: JoinRow, rows: seq<Row>, done: set<string>, solid: set<string>)
    requires (forall x :: test(x).Some?) && Shaped([left], done, solid)
    ensures Matches(test, j.alias, left, rows).Some?
    ensures var ms := Matches(test, j.alias, left, rows).value;
            Shaped(if ms == [] && j.kind == Left then [left[j.alias := None]] else ms, done + {j.alias},
                   if j.kind == Left then solid - {j.alias} else solid + {j.alias})
  {
    MatchesNeverFail(test, j.alias, left, rows);
    assert left in [left];
    var ms := Matches(test, j.alias, left, rows).value;
    forall x | x in ms ensures x.Keys == done + {j.alias} && x[j.alias].Some? && forall a :: a in solid ==> a in x && x[a].Some? {
      var r :| r in rows && x == left[j.alias := Some(r)] && test(x) == Some(true);
    }
  }

  lemma {:induction false} LoopShaped(test: JoinRow -> Option<bool>, j: JoinClause, acc: seq<JoinRow>, rows: seq<Row>,
                                      done: set<string>, solid: set<string>)
    requires (forall x :: test(x).Some?) && Shaped(acc, done, solid)
    requires NestedLoop(test, j.kind, j.alias, acc, rows).Some?
    ensures Shaped(NestedLoop(test, j.kind, j.alias, acc, rows).value, done + {j.alias},
                   if j.kind == Left then solid - {j.alias} else solid + {j.alias})
    decreases |acc|
  {
    if acc != [] {
      assert acc[0] in acc && forall l :: l in acc[1..] ==> l in acc;
      LoopShaped(test, j, acc[1..], rows, done, solid);
      OneShaped(test, j, acc[0], rows, done, solid);
    }
  }

  /** What a join query needs beyond its filter, on the rows the plain join has at each point. */
  ghost predicate JoinsOk(cx: Context, cs: seq<Expr>, joins: seq<JoinClause>, acc: seq<JoinRow>, bare: Bare)
    decreases |joins|
  {
    joins != [] ==>
      var j := joins[0];
      && TableRows(cx, j.table).Some?
      && '.' !in j.alias
      && (j.on.Some? ==> Steady(cx, j.on.value))
      && SideSafe(cx, j.table, SideOf(cs, j.alias))
      && ProbeSafe(cx, j, acc, TableRows(cx, j.table).value, bare)
      && match PlainStep(cx, j, acc, bare)
         case None => true
         case Some(next) => JoinsOk(cx, cs, joins[1..], next, bare)
  }

  ghost predicate DistinctAliases(joins: seq<JoinClause>, done: set<string>)
    decreases |joins|
  {
    joins != [] ==> joins[0].alias !in done && DistinctAliases(joins[1..], done + {joins[0].alias})
  }

  lemma {:induction false} JoinsAreSafe(cx: Context, cs: seq<Expr>, joins: seq<JoinClause>, acc: seq<JoinRow>, bare: Bare,
                                        done: set<string>, solid: set<string>)
    requires EngineSound(cx) && WellTyped(cx)
    requires JoinsOk(cx, cs, joins, acc, bare) && DistinctAliases(joins, done)
    requires Shaped(acc, done, solid) && solid <= done
    requires forall c, a :: c in cs && OnlyAlias(c, a) && a !in done ==> a in SolidAliases(joins)
    ensures JoinsSafe(cx, cs, joins, acc, bare) && PlainJoins(cx, joins, acc, bare).Some?
    ensures Shaped(PlainJoins(cx, joins, acc, bare).value, done + AliasSet(joins), solid + SolidAliases(joins))
    decreases |joins|
  {
    if joins == [] {
      assert done + AliasSet(joins) == done && solid + SolidAliases(joins) == solid;
    } else {
      var j := joins[0];
      var more := if j.kind == Left then solid - {j.alias} else solid + {j.alias};
      HeadIsSafe(cx, cs, joins, acc, bare, done, solid);
      StepShaped(cx, cs, j, acc, bare, done, solid);
      AliasesUnfold(joins);
      JoinsAreSafe(cx, cs, joins[1..], PlainStep(cx, j, acc, bare).value, bare, done + {j.alias}, more);
      SetsUnfold(done, j.alias, AliasSet(joins[1..]));
      assert j.kind == Left ==> j.alias !in solid || j.alias in done;
      assert more + SolidAliases(joins[1..]) == solid + SolidAliases(joins);
    }
  }

  lemma SetsUnfold(done: set<string>, a: string, rest: set<string>)
    ensures done + {a} + rest == done + ({a} + rest)
  {
  }

  lemma StepShaped(cx: Context, cs: seq<Expr>, j: JoinClause, acc: seq<JoinRow>, bare: Bare, done: set<string>, solid: set<string>)
    requires EngineSound(cx) && WellTyped(cx) && JoinSafe(cx, cs, j, acc, bare) && Shaped(acc, done, solid)
    ensures PlainStep(cx, j, acc, bare).Some?
    ensures Shaped(PlainStep(cx, j, acc, bare).value, done + {j.alias}, if j.kind == Left then solid - {j.alias} else solid + {j.alias})
  {
    JoinStep(cx, cs, j, acc, bare);
    OnAgrees(cx, j, bare);
    LoopShaped(OnTest(cx, false, j, bare), j, acc, TableRows(cx, j.table).value, done, solid);
  }

  lemma HeadIsSafe(cx: Context, cs: seq<Expr>, joins: seq<JoinClause>, acc: seq<JoinRow>, bare: Bare, done: set<string>, solid: set<string>)
    requires joins != [] && JoinsOk(cx, cs, joins, acc, bare) && DistinctAliases(joins, done) && Shaped(acc, done, solid)
    requires forall c, a :: c in cs && OnlyAlias(c, a) && a !in done ==> a in SolidAliases(joins)
    ensures JoinSafe(cx, cs, joins[0], acc, bare)
  {
    var j := joins[0];
    OneSolid(joins, done);
    if j.kind == Left && SideOf(cs, j.alias) != [] {
      SideOfHas(cs, j.alias, SideOf(cs, j.alias)[0]);
    }
  }

  lemma AliasesUnfold(joins: seq<JoinClause>)
    requires joins != []
    ensures AliasSet(joins) == {joins[0].alias} + AliasSet(joins[1..])
    ensures SolidAliases(joins) == (if joins[0].kind == Left then {} else {joins[0].alias}) + SolidAliases(joins[1..])
  {
    assert forall j :: j in joins <==> j == joins[0] || j in joins[1..];
  }

  /** With distinct aliases, the alias of a left join is not solid. */
  lemma {:induction false} OneSolid(joins: seq<JoinClause>, done: set<string>)
    requires joins != [] && DistinctAliases(joins, done)
    ensures joins[0].alias !in AliasSet(joins[1..])
    ensures joins[0].kind == Left ==> joins[0].alias !in SolidAliases(joins)
  {
    NotAgain(joins[1..], done + {joins[0].alias}, joins[0].alias);
    AliasesUnfold(joins);
  }

  lemma {:induction false} NotAgain(joins: seq<JoinClause>, done: set<string>, a: string)
    requires DistinctAliases(joins, done) && a in done
    ensures a !in AliasSet(joins)
    decreases |joins|
  {
    if joins != [] {
      NotAgain(joins[1..], done + {joins[0].alias}, a);
      AliasesUnfold(joins);
    }
  }

  // ── main result ──────────────────────────────────────────────────────────

  lemma {:induction false} FilterJoinedKeeps(test: JoinRow -> Option<bool>, p: JoinRow -> bool, rows: seq<JoinRow>)
    requires forall x :: x in rows ==> test(x) == Some(p(x))
    ensures FilterJoined(test, rows) == Some(Keep(rows, p))
  {
    if rows != [] {
      assert rows[0] in rows && forall x :: x in rows[1..] ==> x in rows;
      FilterJoinedKeeps(test, p, rows[1..]);
    }
  }

  lemma {:induction false} BaseKeeps(alias: string, rows: seq<Row>, p: Row -> bool, pass: JoinRow -> bool)
    requires forall r: Row :: pass(map[alias := Some(r)]) <==> p(r)
    ensures BaseRows(alias, Keep(rows, p)) == Keep(BaseRows(alias, rows), pass)
  {
    if rows != [] {
      BaseKeeps(alias, rows[1..], p, pass);
      assert BaseRows(alias, rows) == [map[alias := Some(rows[0])]] + BaseRows(alias, rows[1..]);
      if p(rows[0]) {
        assert BaseRows(alias, [rows[0]] + Keep(rows[1..], p)) == [map[alias := Some(rows[0])]] + BaseRows(alias, Keep(rows[1..], p));
      }
    }
  }

  lemma BasePasses(cx: Context, cs: seq<Expr>, alias: string)
    ensures forall r: Row :: PassesSides(cx, cs)(map[alias := Some(r)]) <==> Passing(cx, SideOf(cs, alias))(r)
  {
    forall r: Row ensures PassesSides(cx, cs)(map[alias := Some(r)]) <==> Passing(cx, SideOf(cs, alias))(r) {
      var x: JoinRow := map[alias := Some(r)];
      assert x[alias] == Some(r);
    }
  }

  lemma {:induction false} AllHoldIs(cx: Context, cs: seq<Expr>, sc: Scope)
    requires EngineSound(cx) && WellTyped(cx) && forall c :: c in cs ==> Steady(cx, c)
    ensures AllHold(cx, cs, sc) == Some(forall c :: c in cs ==> Holds(cx, c, sc))
  {
    if cs != [] {
      SteadyAgrees(cx, cs[0], sc);
      AllHoldIs(cx, cs[1..], sc);
      assert forall c :: c in cs <==> c == cs[0] || c in cs[1..];
    }
  }

  /** The queries the theorem is about. */
  ghost predicate QueryOk(cx: Context, q: JoinQuery, bare: Bare) {
    && TableRows(cx, q.table).Some?
    && DistinctAliases(q.joins, {q.alias})
    && Splittable(cx, q)
    && SideSafe(cx, q.table, SideOf(FilterConjuncts(q), q.alias))
    && JoinsOk(cx, FilterConjuncts(q), q.joins, BaseRows(q.alias, TableRows(cx, q.table).value), bare)
  }

  /** The filtered base rows, joined, are the plain joined rows that pass the sides. */
  lemma SidesArePushed(cx: Context, q: JoinQuery, bare: Bare)
    requires EngineSound(cx) && WellTyped(cx) && QueryOk(cx, q, bare)
    ensures var cs := FilterConjuncts(q);
            var base := SideRows(cx, q.table, SideOf(cs, q.alias), []);
            var plain := PlainJoins(cx, q.joins, BaseRows(q.alias, TableRows(cx, q.table).value), bare);
            && base.Some? && plain.Some?
            && PushedJoins(cx, cs, q.joins, BaseRows(q.alias, base.value), bare) == Some(Keep(plain.value, PassesSides(cx, cs)))
            && Shaped(plain.value, {q.alias} + AliasSet(q.joins), {q.alias} + SolidAliases(q.joins))
  {
    var cs, rows := FilterConjuncts(q), TableRows(cx, q.table).value;
    var side := Passing(cx, SideOf(cs, q.alias));
    var p := SideKeeps(cx, q.table, SideOf(cs, q.alias), []);
    KeepAlike(rows, p, side);
    BasePasses(cx, cs, q.alias);
    BaseKeeps(q.alias, rows, side, PassesSides(cx, cs));
    assert Shaped(BaseRows(q.alias, rows), {q.alias}, {q.alias});
    JoinsAreSafe(cx, cs, q.joins, BaseRows(q.alias, rows), bare, {q.alias}, {q.alias});
    JoinsAgree(cx, cs, q.joins, BaseRows(q.alias, rows), bare);
  }

  /** `run_join`, with the filter split, each part pushed to its side and the right side
      fetched by an index probe, returns the row sequence of the plain nested loop over full
      tables followed by the whole filter. */
  lemma JoinIsPlain(cx: Context, q: JoinQuery, bare: Bare)
    requires EngineSound(cx) && WellTyped(cx) && QueryOk(cx, q, bare)
    ensures PlainJoin(cx, q, bare).Some? && RunJoin(cx, q, bare) == PlainJoin(cx, q, bare)
  {
    SidesArePushed(cx, q, bare);
    JoinEnds(cx, q, bare);
  }

  lemma JoinEnds(cx: Context, q: JoinQuery, bare: Bare)
    requires EngineSound(cx) && WellTyped(cx) && Splittable(cx, q) && TableRows(cx, q.table).Some?
    requires var cs := FilterConjuncts(q);
             var base := SideRows(cx, q.table, SideOf(cs, q.alias), []);
             var plain := PlainJoins(cx, q.joins, BaseRows(q.alias, TableRows(cx, q.table).value), bare);
             && base.Some? && plain.Some?
             && PushedJoins(cx, cs, q.joins, BaseRows(q.alias, base.value), bare) == Some(Keep(plain.value, PassesSides(cx, cs)))
             && Shaped(plain.value, {q.alias} + AliasSet(q.joins), {q.alias} + SolidAliases(q.joins))
    ensures PlainJoin(cx, q, bare).Some? && RunJoin(cx, q, bare) == PlainJoin(cx, q, bare)
  {
    var cs := FilterConjuncts(q);
    var rows := PlainJoins(cx, q.joins, BaseRows(q.alias, TableRows(cx, q.table).value), bare).value;
    var pass := PassesSides(cx, cs);
    if q.filter.None? {
      KeepEvery(rows, pass);
    } else {
      FilterAtEnd(cx, q, rows, bare);
      FilterNeverFails(cx, q.filter.value, rows, bare);
    }
  }

  lemma FilterNeverFails(cx: Context, f: Expr, rows: seq<JoinRow>, bare: Bare)
    requires EngineSound(cx) && WellTyped(cx) && Steady(cx, f)
    ensures FilterJoined(FilterTest(cx, f, bare), rows).Some?
  {
    var whole := (row: JoinRow) => Holds(cx, f, Joined(row, bare));
    forall row: JoinRow ensures FilterTest(cx, f, bare)(row) == Some(whole(row)) {
      SteadyAgrees(cx, f, Joined(row, bare));
    }
    FilterJoinedKeeps(FilterTest(cx, f, bare), whole, rows);
  }

  /** The residual conjuncts on the rows that pass the sides are the whole filter. */
  lemma FilterAtEnd(cx: Context, q: JoinQuery, rows: seq<JoinRow>, bare: Bare)
    requires EngineSound(cx) && WellTyped(cx) && q.filter.Some? && Splittable(cx, q)
    requires forall row: JoinRow :: row in rows ==> forall a :: a in {q.alias} + SolidAliases(q.joins) ==> a in row && row[a].Some?
    ensures var cs := FilterConjuncts(q);
            var kept := Keep(rows, PassesSides(cx, cs));
            FilterJoined(FilterTest(cx, q.filter.value, bare), rows)
            == if ResidualOf(cs) == [] then Some(kept) else FilterJoined(ResidualTest(cx, ResidualOf(cs), bare), kept)
  {
    var cs, f := FilterConjuncts(q), q.filter.value;
    var pass, residual := PassesSides(cx, cs), ResidualOf(cs);
    var whole := (row: JoinRow) => Holds(cx, f, Joined(row, bare));
    var rest := (row: JoinRow) => forall c :: c in residual ==> Holds(cx, c, Joined(row, bare));
    forall row | row in rows ensures whole(row) <==> pass(row) && rest(row) {
      FilterSplits(cx, q, row, bare);
    }
    forall row: JoinRow ensures FilterTest(cx, f, bare)(row) == Some(whole(row)) {
      SteadyAgrees(cx, f, Joined(row, bare));
    }
    ConjunctsHold(cx, f, Joined(map[], bare));
    forall row: JoinRow ensures ResidualTest(cx, residual, bare)(row) == Some(rest(row)) {
      forall c | c in residual ensures Steady(cx, c) {
        ResidualHas(cs, c);
      }
      AllHoldIs(cx, residual, Joined(row, bare));
    }
    FilterJoinedKeeps(FilterTest(cx, f, bare), whole, rows);
    FilterJoinedKeeps(ResidualTest(cx, residual, bare), rest, Keep(rows, pass));
    KeepKeep(rows, pass, rest, whole);
    if residual == [] {
      KeepEvery(Keep(rows, pass), rest);
    }
  }

  // ── the loops of the code ────────────────────────────────────────────────

  /** `split_join_filter`: the conjuncts sorted into one list per alias and the rest. */
  method SplitJoinFilter(q: JoinQuery) returns (sides: map<string, seq<Expr>>, residual: seq<Expr>)
    ensures SidesAre(FilterConjuncts(q), sides)
    ensures residual == ResidualOf(FilterConjuncts(q))
  {
    sides, residual := map[], [];
    var cs := FilterConjuncts(q);
    var i := 0;
    while i < |cs|
      invariant 0 <= i <= |cs|
      invariant SidesAre(cs[..i], sides)
      invariant residual == ResidualOf(cs[..i])
    {
      var c := cs[i];
      assert cs[..i + 1] == cs[..i] + [c];
      ResidualStep(cs[..i], c);
      if HasOneAlias(c) {
        var alias :| alias in Aliases(c) && OnlyAlias(c, alias);
        var before := if alias in sides then sides[alias] else [];
        SidesStep(cs[..i], c, alias, sides);
        sides := sides[alias := before + [Strip(c, alias)]];
      } else {
        NoSideStep(cs[..i], c, sides);
        residual := residual + [c];
      }
      i := i + 1;
    }
    assert cs[..|cs|] == cs;
  }

  /** The lists per alias collected from the conjuncts. */
  ghost predicate SidesAre(cs: seq<Expr>, sides: map<string, seq<Expr>>) {
    forall a :: SideOf(cs, a) == if a in sides then sides[a] else []
  }

  lemma SidesStep(cs: seq<Expr>, c: Expr, alias: string, sides: map<string, seq<Expr>>)
    requires SidesAre(cs, sides) && OnlyAlias(c, alias)
    ensures var before := if alias in sides then sides[alias] else [];
            SidesAre(cs + [c], sides[alias := before + [Strip(c, alias)]])
  {
    var before := if alias in sides then sides[alias] else [];
    var after := sides[alias := before + [Strip(c, alias)]];
    SplitStep(cs, c);
    forall a ensures SideOf(cs + [c], a) == if a in after then after[a] else [] {
      assert OnlyAlias(c, a) <==> a == alias;
    }
  }

  lemma NoSideStep(cs: seq<Expr>, c: Expr, sides: map<string, seq<Expr>>)
    requires SidesAre(cs, sides) && !HasOneAlias(c)
    ensures SidesAre(cs + [c], sides)
  {
    SplitStep(cs, c);
  }

  lemma ResidualStep(cs: seq<Expr>, c: Expr)
    ensures ResidualOf(cs + [c]) == if HasOneAlias(c) then ResidualOf(cs) else ResidualOf(cs) + [c]
  {
    SplitStep(cs, c);
  }

  /** One more conjunct goes to the side of its one alias, or to the rest. */
  lemma SplitStep(cs: seq<Expr>, c: Expr)
    ensures forall a :: SideOf(cs + [c], a) == if OnlyAlias(c, a) then SideOf(cs, a) + [Strip(c, a)] else SideOf(cs, a)
    ensures forall a :: OnlyAlias(c, a) ==> HasOneAlias(c)
    ensures ResidualOf(cs + [c]) == if HasOneAlias(c) then ResidualOf(cs) else ResidualOf(cs) + [c]
  {
    forall a
      ensures SideOf(cs + [c], a) == if OnlyAlias(c, a) then SideOf(cs, a) + [Strip(c, a)] else SideOf(cs, a)
      ensures OnlyAlias(c, a) ==> HasOneAlias(c)
    {
      SideOfAppend(cs, [c], a);
      assert SideOf([c], a) == if OnlyAlias(c, a) then [Strip(c, a)] else [];
      assert SideOf(cs, a) + [] == SideOf(cs, a);
      assert OnlyAlias(c, a) ==> a in Aliases(c);
    }
    ResidualAppend(cs, [c]);
    assert ResidualOf([c]) == if HasOneAlias(c) then [] else [c];
    assert ResidualOf(cs) + [] == ResidualOf(cs);
  }

  lemma {:induction false} SideOfAppend(xs: seq<Expr>, ys: seq<Expr>, a: string)
    ensures SideOf(xs + ys, a) == SideOf(xs, a) + SideOf(ys, a)
  {
    if xs == [] {
      assert xs + ys == ys;
    } else {
      SideOfAppend(xs[1..], ys, a);
      assert (xs + ys)[0] == xs[0] && (xs + ys)[1..] == xs[1..] + ys;
      AppendAssoc(SidePart(xs[0], a), SideOf(xs[1..], a), SideOf(ys, a));
    }
  }

  lemma {:induction false} ResidualAppend(xs: seq<Expr>, ys: seq<Expr>)
    ensures ResidualOf(xs + ys) == ResidualOf(xs) + ResidualOf(ys)
  {
    if xs == [] {
      assert xs + ys == ys;
    } else {
      ResidualAppend(xs[1..], ys);
      assert (xs + ys)[0] == xs[0] && (xs + ys)[1..] == xs[1..] + ys;
      AppendAssoc(if HasOneAlias(xs[0]) then [] else [xs[0]], ResidualOf(xs[1..]), ResidualOf(ys));
    }
  }

  /** The loop of `fk_join_condition` over the accumulated rows. */
  method CollectProbeKeys(acc: seq<JoinRow>, left: string) returns (values: seq<seq<Byte>>)
    ensures values == ProbeKeys(acc, left)
  {
    values := [];
    var seen: set<seq<Byte>> := {};
    var i := 0;
    while i < |acc|
      invariant 0 <= i <= |acc|
      invariant values == ProbeKeys(acc[..i], left)
      invariant forall k :: k in seen <==> k in values
    {
      assert acc[..i + 1][..i] == acc[..i];
      var key := LeftKey(acc[i], left);
      if key.Some? && key.value !in seen {
        seen := seen + {key.value};
        values := values + [key.value];
      }
      i := i + 1;
    }
    assert acc[..|acc|] == acc;
  }

  method FkJoinCondition(t: Table, alias: string, on: Expr, acc: seq<JoinRow>) returns (c: Option<Condition>)
    ensures c == FkCondition(t, alias, on, acc)
  {
    var eq := EqualityOf(on, alias);
    if eq.None? || !HasDeclaredIndex(t, eq.value.right) {
      return None;
    }
    var col := t.Col(eq.value.right);
    if col.None? || SplitDot(eq.value.left).None? {
      return None;
    }
    var values := CollectProbeKeys(acc, eq.value.left);
    if values == [] {
      return None;
    }
    return Some(BitmapIn(col.value.id, values));
  }

  /** The inner loop over the right rows. */
  method MatchRows(test: JoinRow -> Option<bool>, alias: string, left: JoinRow, rows: seq<Row>) returns (found: Option<seq<JoinRow>>)
    ensures found == Matches(test, alias, left, rows)
  {
    var ms: seq<JoinRow> := [];
    var i := 0;
    assert rows[0..] == rows;
    PrependNoRows(Matches(test, alias, left, rows));
    while i < |rows|
      invariant 0 <= i <= |rows|
      invariant Matches(test, alias, left, rows) == PrependJoined(ms, Matches(test, alias, left, rows[i..]))
    {
      assert rows[i..][0] == rows[i] && rows[i..][1..] == rows[i + 1..];
      var combined := left[alias := Some(rows[i])];
      var keep := test(combined);
      if keep.None? {
        return None;
      }
      if keep.value {
        PrependMore(ms, [combined], Matches(test, alias, left, rows[i + 1..]));
        ms := ms + [combined];
      }
      i := i + 1;
    }
    assert ms + [] == ms;
    return Some(ms);
  }

  /** The loop over the accumulated rows. */
  method JoinRows(test: JoinRow -> Option<bool>, kind: JoinKind, alias: string, acc: seq<JoinRow>, rows: seq<Row>)
    returns (joined: Option<seq<JoinRow>>)
    ensures joined == NestedLoop(test, kind, alias, acc, rows)
  {
    var next: seq<JoinRow> := [];
    var i := 0;
    assert acc[0..] == acc;
    PrependNoRows(NestedLoop(test, kind, alias, acc, rows));
    while i < |acc|
      invariant 0 <= i <= |acc|
      invariant NestedLoop(test, kind, alias, acc, rows) == PrependJoined(next, NestedLoop(test, kind, alias, acc[i..], rows))
    {
      assert acc[i..][0] == acc[i] && acc[i..][1..] == acc[i + 1..];
      var found := MatchRows(test, alias, acc[i], rows);
      if found.None? {
        return None;
      }
      var here := found.value;
      if here == [] && kind == Left {
        here := [acc[i][alias := None]];
      }
      PrependMore(next, here, NestedLoop(test, kind, alias, acc[i + 1..], rows));
      next := next + here;
      i := i + 1;
    }
    assert next + [] == next;
    return Some(next);
  }

  function PrependJoined(front: seq<JoinRow>, rest: Option<seq<JoinRow>>): Option<seq<JoinRow>> {
    match rest case None => None case Some(rows) => Some(front + rows)
  }

  lemma PrependNoRows(rest: Option<seq<JoinRow>>)
    ensures PrependJoined([], rest) == rest
  {
    if rest.Some? {
      assert [] + rest.value == rest.value;
    }
  }

  lemma PrependMore(front: seq<JoinRow>, here: seq<JoinRow>, rest: Option<seq<JoinRow>>)
    ensures PrependJoined(front, PrependJoined(here, rest)) == PrependJoined(front + here, rest)
  {
    if rest.Some? {
      assert front + (here + rest.value) == front + here + rest.value;
    }
  }

  /** The loop over the joins. */
  method JoinAll(cx: Context, ghost cs: seq<Expr>, sides: map<string, seq<Expr>>, joins: seq<JoinClause>, base: seq<JoinRow>, bare: Bare)
    returns (result: Option<seq<JoinRow>>)
    requires SidesAre(cs, sides)
    ensures result == PushedJoins(cx, cs, joins, base, bare)
  {
    var acc := base;
    var i := 0;
    assert joins[0..] == joins;
    while i < |joins|
      invariant 0 <= i <= |joins|
      invariant PushedJoins(cx, cs, joins, base, bare) == PushedJoins(cx, cs, joins[i..], acc, bare)
    {
      assert joins[i..][0] == joins[i] && joins[i..][1..] == joins[i + 1..];
      var next := JoinOne(cx, cs, sides, joins[i], acc, bare);
      if next.None? {
        return None;
      }
      acc := next.value;
      i := i + 1;
    }
    return Some(acc);
  }

  /** The join of one clause, or its failure. */
  method JoinOne(cx: Context, ghost cs: seq<Expr>, sides: map<string, seq<Expr>>, j: JoinClause, acc: seq<JoinRow>, bare: Bare)
    returns (next: Option<seq<JoinRow>>)
    requires SidesAre(cs, sides)
    ensures next == PushedStep(cx, cs, j, acc, bare)
  {
    var side := if j.alias in sides then sides[j.alias] else [];
    var probe: seq<Condition> := [];
    var t := FindTable(cx.tables, j.table);
    if j.kind != Cross && j.on.Some? && t.Some? {
      var c := FkJoinCondition(t.value, j.alias, j.on.value, acc);
      if c.Some? {
        probe := [c.value];
      }
    }
    var rows := SideRows(cx, j.table, side, probe);
    if rows.None? {
      return None;
    }
    next := JoinRows(OnTest(cx, true, j, bare), j.kind, j.alias, acc, rows.value);
  }

  /** `run_join` */
  method RunJoinQuery(cx: Context, q: JoinQuery, bare: Bare) returns (result: Option<seq<JoinRow>>)
    ensures result == RunJoin(cx, q, bare)
  {
    var sides, residual := SplitJoinFilter(q);
    var base := SideRows(cx, q.table, if q.alias in sides then sides[q.alias] else [], []);
    if base.None? {
      return None;
    }
    result := JoinAll(cx, FilterConjuncts(q), sides, q.joins, BaseRows(q.alias, base.value), bare);
    if result.Some? && residual != [] {
      result := FilterJoined(ResidualTest(cx, residual, bare), result.value);
    }
  }
}
