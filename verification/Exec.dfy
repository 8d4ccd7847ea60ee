/** Executing a select inside a transaction: the pushed form against the plain scan. */
module Exec {
  import opened Lists
  import opened Strings
  import opened Values
  import opened Schema
  import opened Query
  import opened Pushdown
  import opened Overlay

  /** What a query reads: the schema, the materialized CTEs, the visible rows at the read
      snapshot, and the staged writes. `engine` decides which rows the native indexes
      return for a list of conditions; `firstValue` is the first value of a row in key order. */
  datatype Context = Context(
    tables: seq<Table>,
    ctes: map<string, seq<Row>>,
    snapshot: map<string, seq<Stored>>,
    staged: seq<StagedOp>,
    engine: (Table, seq<Condition>, Row) -> bool,
    firstValue: Row -> Value
  )

  function SnapshotOf(cx: Context, name: string): seq<Stored> {
    if name in cx.snapshot then cx.snapshot[name] else []
  }

  /** The rows of a table with the staged writes laid over them. */
  function VisibleRows(cx: Context, t: Table): seq<Row> {
    ValuesOf(Replay(KeyedBy(t), SnapshotOf(cx, t.name), cx.staged))
  }

  /** `table_rows`: a CTE shadows a table; a table is read through the overlay. */
  function TableRows(cx: Context, name: string): Option<seq<Row>> {
    if name in cx.ctes then Some(cx.ctes[name])
    else
      match FindTable(cx.tables, name)
      case None => None
      case Some(t) => Some(VisibleRows(cx, t))
  }

  function MatchesAll(t: Table, conditions: seq<Condition>): Row -> bool {
    (row: Row) => forall c :: c in conditions ==> RowMatches(t, row, c)
  }

  function EngineKeeps(cx: Context, t: Table, conditions: seq<Condition>): Row -> bool {
    (row: Row) => cx.engine(t, conditions, row)
  }

  /** `table_rows_filtered`: a CTE is returned whole. */
  function FilteredRows(cx: Context, name: string, conditions: seq<Condition>): Option<seq<Row>> {
    if conditions == [] || name in cx.ctes then TableRows(cx, name)
    else
      match FindTable(cx.tables, name)
      case None => None
      case Some(t) =>
        if HasStagedFor(cx.staged, name) then Some(Keep(VisibleRows(cx, t), MatchesAll(t, conditions)))
        else Some(Keep(ValuesOf(SnapshotOf(cx, name)), EngineKeeps(cx, t, conditions)))
  }

  function SubqueryValue(cx: Context, sub: Select, row: Row): Value {
    match sub.column
    case Some(name) => Get(row, name)
    case None => cx.firstValue(row)
  }

  // ── evaluation ───────────────────────────────────────────────────────────

  /** The plan `run_select` follows, if any condition can be pushed. */
  function PlanOf(cx: Context, pushed: bool, table: string, f: Expr): Option<PushdownPlan> {
    match FindTable(cx.tables, table)
    case None => None
    case Some(t) => if pushed && Collect(t, f).conditions != [] then Some(Collect(t, f)) else None
  }

  /** `eval_pred`, with subqueries run by pushdown or by plain scans. */
  function Eval(cx: Context, pushed: bool, e: Expr, sc: Scope): Option<bool>
    decreases e, 0
  {
    if IsAtom(e) then EvalAtom(e, sc)
    else if e.And? then EvalAnd(cx, pushed, e.parts, sc)
    else if e.Or? then EvalOr(cx, pushed, e.parts, sc)
    else if e.Not? then
      match Eval(cx, pushed, e.e, sc)
      case None => None
      case Some(b) => Some(!b)
    else if e.InSubquery? then
      match (EvalVal(e.a, sc), Run(cx, pushed, e.sub))
      case (Some(v), Some(rows)) => Some(exists r :: r in rows && SubqueryValue(cx, e.sub, r) == v)
      case _ => None
    else
      match Run(cx, pushed, e.sub)
      case None => None
      case Some(rows) => Some(if e.Exists? then rows != [] else rows == [])
  }

  function EvalAnd(cx: Context, pushed: bool, parts: seq<Expr>, sc: Scope): Option<bool>
    decreases parts, 0
  {
    if parts == [] then Some(true)
    else
      match Eval(cx, pushed, parts[0], sc)
      case None => None
      case Some(b) => if b then EvalAnd(cx, pushed, parts[1..], sc) else Some(false)
  }

  function EvalOr(cx: Context, pushed: bool, parts: seq<Expr>, sc: Scope): Option<bool>
    decreases parts, 0
  {
    if parts == [] then Some(false)
    else
      match Eval(cx, pushed, parts[0], sc)
      case None => None
      case Some(b) => if b then Some(true) else EvalOr(cx, pushed, parts[1..], sc)
  }

  /** Keep the rows that pass, or fail with the first error. */
  function FilterRows(cx: Context, pushed: bool, f: Expr, rows: seq<Row>): Option<seq<Row>>
    decreases f, 1, |rows|
  {
    if rows == [] then Some([])
    else
      match (Eval(cx, pushed, f, Flat(rows[0])), FilterRows(cx, pushed, f, rows[1..]))
      case (Some(b), Some(rest)) => Some(if b then [rows[0]] + rest else rest)
      case _ => None
  }

  /** `run_select` before sorting; with `pushed` false, the scan of every visible row
      followed by the whole filter. */
  function Run(cx: Context, pushed: bool, sel: Select): Option<seq<Row>>
    decreases sel, 0
  {
    match sel.filter
    case None => TableRows(cx, sel.table)
    case Some(f) =>
      match PlanOf(cx, pushed, sel.table, f)
      case Some(plan) =>
        (match FilteredRows(cx, sel.table, plan.conditions)
         case None => None
         case Some(rows) => if plan.fullyTranslated then Some(rows) else FilterRows(cx, pushed, f, rows))
      case None =>
        match TableRows(cx, sel.table)
        case None => None
        case Some(rows) => FilterRows(cx, pushed, f, rows)
  }

  /** `run_select` */
  method RunSelect(cx: Context, sel: Select) returns (result: Option<seq<Row>>)
    ensures result == Run(cx, true, sel)
  {
    if sel.filter.None? {
      return TableRows(cx, sel.table);
    }
    var f := sel.filter.value;
    var plan := None;
    var t := FindTable(cx.tables, sel.table);
    if t.Some? {
      plan := TranslatePredicate(t.value, f);
    }
    var fetched := if plan.Some? then FilteredRows(cx, sel.table, plan.value.conditions) else TableRows(cx, sel.table);
    if fetched.None? || (plan.Some? && plan.value.fullyTranslated) {
      return fetched;
    }
    result := Residual(cx, true, f, fetched.value);
  }

  /** The residual evaluation: the loop keeps the rows that pass and stops at an error. */
  method Residual(cx: Context, pushed: bool, f: Expr, rows: seq<Row>) returns (result: Option<seq<Row>>)
    ensures result == FilterRows(cx, pushed, f, rows)
  {
    var kept := [];
    var i := 0;
    assert rows[0..] == rows;
    PrependNothing(FilterRows(cx, pushed, f, rows));
    while i < |rows|
      invariant 0 <= i <= |rows|
      invariant FilterRows(cx, pushed, f, rows) == PrependRows(kept, FilterRows(cx, pushed, f, rows[i..]))
    {
      assert rows[i..][0] == rows[i] && rows[i..][1..] == rows[i + 1..];
      var b := Eval(cx, pushed, f, Flat(rows[i]));
      if b.None? {
        return None;
      }
      if b.value {
        PrependOne(kept, rows[i], FilterRows(cx, pushed, f, rows[i + 1..]));
        kept := kept + [rows[i]];
      }
      i := i + 1;
    }
    assert kept + [] == kept;
    return Some(kept);
  }

  function PrependRows(front: seq<Row>, rest: Option<seq<Row>>): Option<seq<Row>> {
    match rest
    case None => None
    case Some(rows) => Some(front + rows)
  }

  lemma PrependNothing(rest: Option<seq<Row>>)
    ensures PrependRows([], rest) == rest
  {
    if rest.Some? {
      assert [] + rest.value == rest.value;
    }
  }

  lemma PrependOne(front: seq<Row>, r: Row, rest: Option<seq<Row>>)
    ensures PrependRows(front, PrependRows([r], rest)) == PrependRows(front + [r], rest)
  {
    if rest.Some? {
      assert front + ([r] + rest.value) == front + [r] + rest.value;
    }
  }

  // ── what the theorems assume ─────────────────────────────────────────────

  /** The engine returns every row that satisfies the conditions and, where it resolves a
      condition exactly, no other. */
  ghost predicate EngineSound(cx: Context) {
    forall t: Table, cs: seq<Condition>, row: Row ::
      && ((forall c :: c in cs ==> EngineMeans(t, row, c)) ==> cx.engine(t, cs, row))
      && (cx.engine(t, cs, row) ==> forall c :: c in cs && EngineExact(c) ==> EngineMeans(t, row, c))
  }

  /** Distinct columns and rows of the columns' types. */
  ghost predicate WellTyped(cx: Context) {
    && (forall t :: t in cx.tables ==> DistinctColumns(t))
    && (forall t: Table, r: Row :: FindTable(cx.tables, t.name) == Some(t) && r in VisibleRows(cx, t) ==> Typed(t, r))
  }

  /** No conjunct is a prefix test that counts as translated. */
  predicate NoPrefix(t: Table, f: Expr) {
    forall c :: c in Collect(t, f).conditions ==> !c.CondBytesPrefix?
  }

  /** A filter on a real table may skip the residual check only if the table is not
      shadowed by a CTE, and if staged rows are not matched against a prefix condition. */
  predicate SafeFilter(cx: Context, table: string, f: Expr) {
    match PlanOf(cx, true, table, f)
    case None => true
    case Some(plan) =>
      var t := FindTable(cx.tables, table).value;
      if table in cx.ctes then !plan.fullyTranslated
      else Safe(t, f) && (plan.fullyTranslated && HasStagedFor(cx.staged, table) ==> NoPrefix(t, f))
  }

  /** Every select inside the expression has a safe filter. */
  predicate SafeExpr(cx: Context, e: Expr)
    decreases e, 0
  {
    match e
    case And(parts) => forall p :: p in parts ==> SafeExpr(cx, p)
    case Or(parts) => forall p :: p in parts ==> SafeExpr(cx, p)
    case Not(x) => SafeExpr(cx, x)
    case InSubquery(_, sub) => SafeSelect(cx, sub)
    case Exists(sub) => SafeSelect(cx, sub)
    case NotExists(sub) => SafeSelect(cx, sub)
    case _ => true
  }

  predicate SafeSelect(cx: Context, sel: Select)
    decreases sel, 0
  {
    match sel.filter
    case None => true
    case Some(f) => SafeExpr(cx, f) && SafeFilter(cx, sel.table, f)
  }

  // ── collected conditions against the predicate ───────────────────────────

  lemma {:induction false} CollectRight(cx: Context, pushed: bool, t: Table, e: Expr, row: Row)
    requires DistinctColumns(t) && Typed(t, row) && Safe(t, e)
    ensures Eval(cx, pushed, e, Flat(row)) == Some(true) ==>
              forall c :: c in Collect(t, e).conditions ==> EngineMeans(t, row, c)
    ensures Collect(t, e).fullyTranslated && (forall c :: c in Collect(t, e).conditions ==> Meets(t, row, c)) ==>
              Eval(cx, pushed, e, Flat(row)) == Some(true)
    ensures Collect(t, e).fullyTranslated ==>
              forall c :: c in Collect(t, e).conditions ==> EngineExact(c)
    decreases e, 0
  {
    if e.And? {
      CollectAllRight(cx, pushed, t, e.parts, row);
    } else if !IsAtom(e) || Translate(t, e).0.None? {
      assert Collect(t, e) == PushdownPlan([], false);
    } else {
      AtomRight(t, e, row);
      assert Eval(cx, pushed, e, Flat(row)) == EvalAtom(e, Flat(row));
    }
  }

  lemma AtomRight(t: Table, e: Expr, row: Row)
    requires DistinctColumns(t) && Typed(t, row) && Safe(t, e)
    requires IsAtom(e) && Translate(t, e).0.Some?
    ensures EvalAtom(e, Flat(row)) == Some(true) ==>
              forall c :: c in Collect(t, e).conditions ==> EngineMeans(t, row, c)
    ensures Collect(t, e).fullyTranslated && (forall c :: c in Collect(t, e).conditions ==> Meets(t, row, c)) ==>
              EvalAtom(e, Flat(row)) == Some(true)
    ensures Collect(t, e).fullyTranslated ==>
              forall c :: c in Collect(t, e).conditions ==> EngineExact(c)
  {
    var (c, full) := Translate(t, e);
    assert Collect(t, e) == PushdownPlan([c.value], full);
    assert c.value in [c.value];
    ConjunctIsRight(t, e, row);
  }

  lemma {:induction false} CollectAllRight(cx: Context, pushed: bool, t: Table, parts: seq<Expr>, row: Row)
    requires DistinctColumns(t) && Typed(t, row) && forall p :: p in parts ==> Safe(t, p)
    ensures EvalAnd(cx, pushed, parts, Flat(row)) == Some(true) ==>
              forall c :: c in CollectAll(t, parts).conditions ==> EngineMeans(t, row, c)
    ensures CollectAll(t, parts).fullyTranslated
            && (forall c :: c in CollectAll(t, parts).conditions ==> Meets(t, row, c)) ==>
              EvalAnd(cx, pushed, parts, Flat(row)) == Some(true)
    ensures CollectAll(t, parts).fullyTranslated ==>
              forall c :: c in CollectAll(t, parts).conditions ==> EngineExact(c)
    decreases parts, 0
  {
    if parts != [] {
      CollectRight(cx, pushed, t, parts[0], row);
      CollectAllRight(cx, pushed, t, parts[1..], row);
      var head, rest := Collect(t, parts[0]), CollectAll(t, parts[1..]);
      assert CollectAll(t, parts).conditions == head.conditions + rest.conditions;
    }
  }

  // ── filtering what was pushed equals filtering everything ────────────────

  /** `FilterRows` for any test that may fail. */
  function FilterBy(test: Row -> Option<bool>, rows: seq<Row>): Option<seq<Row>> {
    if rows == [] then Some([])
    else
      match (test(rows[0]), FilterBy(test, rows[1..]))
      case (Some(b), Some(rest)) => Some(if b then [rows[0]] + rest else rest)
      case _ => None
  }

  function Verdict(cx: Context, pushed: bool, f: Expr): Row -> Option<bool> {
    (row: Row) => Eval(cx, pushed, f, Flat(row))
  }

  lemma {:induction false} FilterIsFilterBy(cx: Context, pushed: bool, f: Expr, rows: seq<Row>)
    ensures FilterRows(cx, pushed, f, rows) == FilterBy(Verdict(cx, pushed, f), rows)
    decreases |rows|
  {
    if rows != [] {
      FilterIsFilterBy(cx, pushed, f, rows[1..]);
      assert Verdict(cx, pushed, f)(rows[0]) == Eval(cx, pushed, f, Flat(rows[0]));
    }
  }

  lemma {:induction false} KeepThenFilter(fast: Row -> Option<bool>, plain: Row -> Option<bool>, rows: seq<Row>, p: Row -> bool)
    requires FilterBy(plain, rows).Some?
    requires forall r :: r in rows && plain(r).Some? ==> fast(r) == plain(r)
    requires forall r :: r in rows && plain(r) == Some(true) ==> p(r)
    ensures FilterBy(fast, Keep(rows, p)) == FilterBy(plain, rows)
    ensures (forall r :: r in rows && p(r) ==> plain(r) == Some(true)) ==> Some(Keep(rows, p)) == FilterBy(plain, rows)
    decreases |rows|
  {
    if rows != [] {
      assert rows[0] in rows && forall r :: r in rows[1..] ==> r in rows;
      KeepThenFilter(fast, plain, rows[1..], p);
      var rest := Keep(rows[1..], p);
      if p(rows[0]) {
        assert Keep(rows, p) == [rows[0]] + rest;
        assert ([rows[0]] + rest)[1..] == rest;
      } else {
        assert Keep(rows, p) == rest;
      }
    }
  }

  /** The rows fetched under the conditions of a safe filter are the visible rows, thinned
      out by a test that every passing row passes, and that only passing rows pass when the
      filter is fully translated. */
  lemma FetchedRows(cx: Context, table: string, f: Expr) returns (p: Row -> bool)
    requires EngineSound(cx) && WellTyped(cx) && SafeFilter(cx, table, f)
    requires PlanOf(cx, true, table, f).Some?
    ensures var plan := PlanOf(cx, true, table, f).value;
            var rows := TableRows(cx, table).value;
            && TableRows(cx, table).Some?
            && FilteredRows(cx, table, plan.conditions) == Some(Keep(rows, p))
            && (forall r :: r in rows && Eval(cx, false, f, Flat(r)) == Some(true) ==> p(r))
            && (plan.fullyTranslated ==>
                  forall r :: r in rows && p(r) ==> Eval(cx, false, f, Flat(r)) == Some(true))
  {
    var plan := PlanOf(cx, true, table, f).value;
    var t := FindTable(cx.tables, table).value;
    if table in cx.ctes {
      p := (r: Row) => true;
      KeepEvery(cx.ctes[table], p);
    } else if HasStagedFor(cx.staged, table) {
      p := MatchesAll(t, plan.conditions);
      forall r | r in TableRows(cx, table).value
        ensures Eval(cx, false, f, Flat(r)) == Some(true) ==> p(r)
        ensures plan.fullyTranslated && p(r) ==> Eval(cx, false, f, Flat(r)) == Some(true)
      {
        CollectRight(cx, false, t, f, r);
        forall c | c in plan.conditions && Means(t, r, c) ensures RowMatches(t, r, c) {
        }
        if plan.fullyTranslated && p(r) {
          forall c | c in plan.conditions ensures Meets(t, r, c) {
            assert RowMatches(t, r, c) && EngineExact(c) && !c.CondBytesPrefix?;
          }
        }
      }
    } else {
      p := EngineKeeps(cx, t, plan.conditions);
      ReplayNothing(KeyedBy(t), SnapshotOf(cx, table), cx.staged);
      forall r | r in TableRows(cx, table).value
        ensures Eval(cx, false, f, Flat(r)) == Some(true) ==> p(r)
        ensures plan.fullyTranslated && p(r) ==> Eval(cx, false, f, Flat(r)) == Some(true)
      {
        CollectRight(cx, false, t, f, r);
      }
    }
  }

  // ── main results ─────────────────────────────────────────────────────────

  lemma {:induction false} EvalAgrees(cx: Context, e: Expr, sc: Scope)
    requires EngineSound(cx) && WellTyped(cx) && SafeExpr(cx, e)
    requires Eval(cx, false, e, sc).Some?
    ensures Eval(cx, true, e, sc) == Eval(cx, false, e, sc)
    decreases e, 0
  {
    if e.And? {
      AndAgrees(cx, e.parts, sc);
    } else if e.Or? {
      OrAgrees(cx, e.parts, sc);
    } else if e.Not? {
      EvalAgrees(cx, e.e, sc);
    } else if !IsAtom(e) {
      RunAgrees(cx, e.sub);
    }
  }

  lemma {:induction false} AndAgrees(cx: Context, parts: seq<Expr>, sc: Scope)
    requires EngineSound(cx) && WellTyped(cx) && forall p :: p in parts ==> SafeExpr(cx, p)
    requires EvalAnd(cx, false, parts, sc).Some?
    ensures EvalAnd(cx, true, parts, sc) == EvalAnd(cx, false, parts, sc)
    decreases parts, 0
  {
    if parts != [] {
      EvalAgrees(cx, parts[0], sc);
      if Eval(cx, false, parts[0], sc) == Some(true) {
        AndAgrees(cx, parts[1..], sc);
      }
    }
  }

  lemma {:induction false} OrAgrees(cx: Context, parts: seq<Expr>, sc: Scope)
    requires EngineSound(cx) && WellTyped(cx) && forall p :: p in parts ==> SafeExpr(cx, p)
    requires EvalOr(cx, false, parts, sc).Some?
    ensures EvalOr(cx, true, parts, sc) == EvalOr(cx, false, parts, sc)
    decreases parts, 0
  {
    if parts != [] {
      EvalAgrees(cx, parts[0], sc);
      if Eval(cx, false, parts[0], sc) == Some(false) {
        OrAgrees(cx, parts[1..], sc);
      }
    }
  }

  /** Pushdown is invisible: wherever the plain scan succeeds, the pushed select returns the
      same rows in the same order, in subqueries too. */
  lemma {:induction false} RunAgrees(cx: Context, sel: Select)
    requires EngineSound(cx) && WellTyped(cx) && SafeSelect(cx, sel)
    requires Run(cx, false, sel).Some?
    ensures Run(cx, true, sel) == Run(cx, false, sel)
    decreases sel, 0
  {
    if sel.filter.Some? {
      var f, rows := sel.filter.value, TableRows(cx, sel.table).value;
      var fast, plain := Verdict(cx, true, f), Verdict(cx, false, f);
      forall r | r in rows && plain(r).Some? ensures fast(r) == plain(r) {
        EvalAgrees(cx, f, Flat(r));
      }
      FilterIsFilterBy(cx, false, f, rows);
      if PlanOf(cx, true, sel.table, f).Some? {
        var p := FetchedRows(cx, sel.table, f);
        KeepThenFilter(fast, plain, rows, p);
        FilterIsFilterBy(cx, true, f, Keep(rows, p));
      } else {
        var p := (r: Row) => true;
        KeepThenFilter(fast, plain, rows, p);
        KeepEvery(rows, p);
        FilterIsFilterBy(cx, true, f, rows);
      }
    }
  }

  lemma {:induction false} FilterHas(cx: Context, f: Expr, rows: seq<Row>, r: Row)
    requires FilterRows(cx, false, f, rows).Some?
    ensures r in FilterRows(cx, false, f, rows).value <==> r in rows && Eval(cx, false, f, Flat(r)) == Some(true)
    decreases |rows|
  {
    if rows != [] {
      FilterHas(cx, f, rows[1..], r);
      assert r in rows <==> r == rows[0] || r in rows[1..];
    }
  }

  /** Read your own writes: inside a transaction a select returns exactly the rows that pass
      the filter in the table obtained from the snapshot by applying the transaction's
      inserts, updates, deletes and truncates in order. */
  lemma SelectReadsOwnWrites(cx: Context, t: Table, f: Expr, r: Row)
    requires EngineSound(cx) && WellTyped(cx)
    requires FindTable(cx.tables, t.name) == Some(t) && t.name !in cx.ctes
    requires DistinctPks(KeyedBy(t), SnapshotOf(cx, t.name))
    requires SafeSelect(cx, Select(t.name, None, Some(f)))
    requires Run(cx, false, Select(t.name, None, Some(f))).Some?
    ensures Run(cx, true, Select(t.name, None, Some(f))).Some?
    ensures var k := KeyedBy(t);
            var table := ApplyAll(k, AsMap(k, SnapshotOf(cx, t.name)), cx.staged);
            r in Run(cx, true, Select(t.name, None, Some(f))).value <==>
            k.pk(r) in table && table[k.pk(r)] == r && Eval(cx, false, f, Flat(r)) == Some(true)
  {
    var k, sel := KeyedBy(t), Select(t.name, None, Some(f));
    RunAgrees(cx, sel);
    var rows := Replay(k, SnapshotOf(cx, t.name), cx.staged);
    FilterHas(cx, f, ValuesOf(rows), r);
    ReplayRefines(k, SnapshotOf(cx, t.name), cx.staged);
    InAsMap(k, rows, k.pk(r), r);
    if r in ValuesOf(rows) {
      var i :| 0 <= i < |ValuesOf(rows)| && ValuesOf(rows)[i] == r;
      assert rows[i] in rows;
    }
    if x :| x in rows && x.values == r {
      var i :| 0 <= i < |rows| && rows[i] == x;
      assert ValuesOf(rows)[i] == r;
    }
  }

  // ── where the pushed form goes wrong ─────────────────────────────────────

  /** Filtering keeps every row exactly when every row passes, and none exactly when none does. */
  lemma {:induction false} FilterExtremes(cx: Context, f: Expr, rows: seq<Row>)
    requires FilterRows(cx, false, f, rows).Some?
    ensures |FilterRows(cx, false, f, rows).value| <= |rows|
    ensures FilterRows(cx, false, f, rows) == Some(rows) <==> forall r :: r in rows ==> Eval(cx, false, f, Flat(r)) == Some(true)
    ensures FilterRows(cx, false, f, rows) == Some([]) <==> forall r :: r in rows ==> Eval(cx, false, f, Flat(r)) != Some(true)
    decreases |rows|
  {
    if rows != [] {
      FilterExtremes(cx, f, rows[1..]);
      assert rows == [rows[0]] + rows[1..];
      assert forall r :: r in rows <==> r == rows[0] || r in rows[1..];
    }
  }

  /** The row passes the filter. */
  predicate Passes(cx: Context, f: Expr, r: Row) {
    Eval(cx, false, f, Flat(r)) == Some(true)
  }

  /** A CTE named like a table of the schema is returned unfiltered when the filter counts as
      fully translated: the conditions are not applied to it and the residual is skipped. That
      is right exactly when all of its rows pass. */
  lemma ShadowingCteExactly(cx: Context, sel: Select)
    requires sel.table in cx.ctes && sel.filter.Some?
    requires PlanOf(cx, true, sel.table, sel.filter.value).Some?
    requires PlanOf(cx, true, sel.table, sel.filter.value).value.fullyTranslated
    requires Run(cx, false, sel).Some?
    ensures Run(cx, true, sel) == Some(cx.ctes[sel.table])
    ensures Run(cx, true, sel) == Run(cx, false, sel) <==>
            forall r :: r in cx.ctes[sel.table] ==> Passes(cx, sel.filter.value, r)
  {
    FilterExtremes(cx, sel.filter.value, cx.ctes[sel.table]);
  }

  // ── filters of one conjunct ──────────────────────────────────────────────

  lemma {:induction false} FilterByTest(cx: Context, f: Expr, rows: seq<Row>)
    requires forall r :: r in rows ==> Eval(cx, false, f, Flat(r)).Some?
    ensures FilterRows(cx, false, f, rows) == Some(Keep(rows, (r: Row) => Passes(cx, f, r)))
    decreases |rows|
  {
    if rows != [] {
      assert rows[0] in rows && forall r :: r in rows[1..] ==> r in rows;
      FilterByTest(cx, f, rows[1..]);
    }
  }

  /** What decides whether a row is fetched: the engine, or the check of staged rows. */
  ghost function Fetched(cx: Context, t: Table, c: Condition): Row -> bool {
    (r: Row) => if HasStagedFor(cx.staged, t.name) then RowMatches(t, r, c) else EngineMeans(t, r, c)
  }

  /** A select whose filter is one conjunct that counts as fully translated gives the plain
      answer exactly when its condition keeps just the visible rows that pass. */
  lemma OneConjunctExactly(cx: Context, t: Table, f: Expr)
    requires FindTable(cx.tables, t.name) == Some(t) && t.name !in cx.ctes
    requires EngineSound(cx) || HasStagedFor(cx.staged, t.name)
    requires IsAtom(f) && Translate(t, f).0.Some? && Translate(t, f).1
    ensures var sel, c := Select(t.name, None, Some(f)), Translate(t, f).0.value;
            && Run(cx, true, sel) == Some(Keep(VisibleRows(cx, t), Fetched(cx, t, c)))
            && (Run(cx, true, sel) == Run(cx, false, sel) <==>
                  forall r :: r in VisibleRows(cx, t) ==> (Fetched(cx, t, c)(r) <==> Passes(cx, f, r)))
  {
    var c, rows := Translate(t, f).0.value, VisibleRows(cx, t);
    var passes := (r: Row) => Passes(cx, f, r);
    assert Collect(t, f) == PushdownPlan([c], true);
    FetchedByOne(cx, t, c);
    forall r: Row ensures Eval(cx, false, f, Flat(r)).Some? {
      FullIsDefined(t, f, r);
      assert Eval(cx, false, f, Flat(r)) == EvalAtom(f, Flat(r));
    }
    FilterByTest(cx, f, rows);
    KeepSame(rows, Fetched(cx, t, c), passes);
  }

  lemma FetchedByOne(cx: Context, t: Table, c: Condition)
    requires FindTable(cx.tables, t.name) == Some(t) && t.name !in cx.ctes
    requires (EngineSound(cx) || HasStagedFor(cx.staged, t.name)) && EngineExact(c)
    ensures FilteredRows(cx, t.name, [c]) == Some(Keep(VisibleRows(cx, t), Fetched(cx, t, c)))
  {
    var rows := VisibleRows(cx, t);
    assert c in [c];
    if HasStagedFor(cx.staged, t.name) {
      KeepAlike(rows, MatchesAll(t, [c]), Fetched(cx, t, c));
    } else {
      ReplayNothing(KeyedBy(t), SnapshotOf(cx, t.name), cx.staged);
      KeepAlike(rows, EngineKeeps(cx, t, [c]), Fetched(cx, t, c));
    }
  }

  /** The condition needs a bitmap on a column that has none. */
  predicate Unindexed(t: Table, c: Condition) {
    && (c.BitmapEq? || c.BitmapIn? || c.CondBytesPrefix?)
    && forall col :: col in t.columns && col.id == c.column ==> !RealBitmap(t, col.name)
  }

  /** Primary keys are taken for bitmap columns when a condition is built. In a table without
      staged rows the engine answers such a condition with nothing, which is right exactly
      when no row passes. */
  lemma UnindexedExactly(cx: Context, t: Table, f: Expr)
    requires EngineSound(cx) && FindTable(cx.tables, t.name) == Some(t) && t.name !in cx.ctes
    requires IsAtom(f) && Translate(t, f).0.Some? && Translate(t, f).1 && Unindexed(t, Translate(t, f).0.value)
    requires !HasStagedFor(cx.staged, t.name)
    ensures var sel := Select(t.name, None, Some(f));
            && Run(cx, true, sel) == Some([])
            && (Run(cx, true, sel) == Run(cx, false, sel) <==> forall r :: r in VisibleRows(cx, t) ==> !Passes(cx, f, r))
  {
    var fetched := Fetched(cx, t, Translate(t, f).0.value);
    OneConjunctExactly(cx, t, f);
    forall r: Row ensures !fetched(r) {
    }
    KeepNone(VisibleRows(cx, t), fetched);
  }

  lemma UnindexedColumn(t: Table, name: string)
    requires DistinctColumns(t) && t.HasCol(name) && !RealBitmap(t, name)
    ensures forall col :: col in t.columns && col.id == t.Col(name).value.id ==> !RealBitmap(t, col.name)
  {
    CellOfColumn(t, map[], name);
  }

  /** The rows an answered equality is wrong about. */
  lemma EqFetched(cx: Context, t: Table, name: string, lit: Literal, r: Row)
    requires DistinctColumns(t) && Typed(t, r) && t.HasCol(name) && lit != LNull
    requires Indexed(t, name) || (name in t.primaryKey && HasStagedFor(cx.staged, t.name))
    ensures var f := Cmp(EqOp, Expr.Column(name), Lit(lit));
            && TranslateEq(t, f.a, f.b).Some?
            && ((Fetched(cx, t, TranslateEq(t, f.a, f.b).value)(r) <==> Passes(cx, f, r)) <==>
                  Alias(lit, t.Col(name).value.storageType) != Some(Get(r, name)))
  {
    var f, ty := Cmp(EqOp, Expr.Column(name), Lit(lit)), t.Col(name).value.storageType;
    EqMeans(t, f, r);
    AliasExactly(lit, ty, Get(r, name));
    CompareTextEqual(Get(r, name), LiteralValue(lit));
    CellOfColumn(t, r, name);
    assert Eval(cx, false, f, Flat(r)) == EvalAtom(f, Flat(r));
  }

  lemma InFetched(cx: Context, t: Table, name: string, list: seq<Literal>, r: Row)
    requires DistinctColumns(t) && Typed(t, r) && t.HasCol(name) && LNull !in list
    requires RealBitmap(t, name) || (name in t.primaryKey && HasStagedFor(cx.staged, t.name))
    ensures var f := In(Expr.Column(name), list);
            && TranslateIn(t, f.a, list).Some?
            && ((Fetched(cx, t, TranslateIn(t, f.a, list).value)(r) <==> Passes(cx, f, r)) <==>
                  !Mistaken(list, t.Col(name).value.storageType, Get(r, name)))
  {
    var f := In(Expr.Column(name), list);
    InMeans(t, f, r);
    CellOfColumn(t, r, name);
    assert Eval(cx, false, f, Flat(r)) == EvalAtom(f, Flat(r));
  }

  /** An equality whose condition is answered gives the right rows, whatever the type of its
      literal, exactly when no visible row holds the literal's alias. */
  lemma AliasedEqExactly(cx: Context, t: Table, name: string, lit: Literal)
    requires EngineSound(cx) && WellTyped(cx) && FindTable(cx.tables, t.name) == Some(t) && t.name !in cx.ctes
    requires t.HasCol(name) && lit != LNull
    requires Indexed(t, name) || (name in t.primaryKey && HasStagedFor(cx.staged, t.name))
    ensures var f, ty := Cmp(EqOp, Expr.Column(name), Lit(lit)), t.Col(name).value.storageType;
            var sel := Select(t.name, None, Some(f));
            Run(cx, true, sel) == Run(cx, false, sel) <==>
            forall r :: r in VisibleRows(cx, t) ==> Alias(lit, ty) != Some(Get(r, name))
  {
    var f, ty := Cmp(EqOp, Expr.Column(name), Lit(lit)), t.Col(name).value.storageType;
    var c := TranslateEq(t, f.a, f.b).value;
    assert Translate(t, f) == (Some(c), true);
    OneConjunctExactly(cx, t, f);
    forall r | r in VisibleRows(cx, t)
      ensures (Fetched(cx, t, c)(r) <==> Passes(cx, f, r)) <==> Alias(lit, ty) != Some(Get(r, name))
    {
      EqFetched(cx, t, name, lit, r);
    }
  }

  /** The same for a membership test: exactly when no visible row is mistaken for a member. */
  lemma AliasedInExactly(cx: Context, t: Table, name: string, list: seq<Literal>)
    requires EngineSound(cx) && WellTyped(cx) && FindTable(cx.tables, t.name) == Some(t) && t.name !in cx.ctes
    requires t.HasCol(name) && LNull !in list
    requires RealBitmap(t, name) || (name in t.primaryKey && HasStagedFor(cx.staged, t.name))
    ensures var f, ty := In(Expr.Column(name), list), t.Col(name).value.storageType;
            var sel := Select(t.name, None, Some(f));
            Run(cx, true, sel) == Run(cx, false, sel) <==>
            forall r :: r in VisibleRows(cx, t) ==> !Mistaken(list, ty, Get(r, name))
  {
    var f, ty := In(Expr.Column(name), list), t.Col(name).value.storageType;
    var c := TranslateIn(t, f.a, list).value;
    assert Translate(t, f) == (Some(c), true);
    OneConjunctExactly(cx, t, f);
    forall r | r in VisibleRows(cx, t)
      ensures (Fetched(cx, t, c)(r) <==> Passes(cx, f, r)) <==> !Mistaken(list, ty, Get(r, name))
    {
      InFetched(cx, t, name, list, r);
    }
  }

  /** An equality on one column of a composite key without a bitmap of its own is answered
      rightly exactly when no row passes or, in a table with staged rows, when no row holds
      the literal's alias. */
  lemma EqOnKeyColumnExactly(cx: Context, t: Table, name: string, lit: Literal)
    requires EngineSound(cx) && WellTyped(cx) && FindTable(cx.tables, t.name) == Some(t) && t.name !in cx.ctes
    requires name in t.primaryKey && t.primaryKey != [name] && t.HasCol(name) && !RealBitmap(t, name) && lit != LNull
    ensures var f, ty := Cmp(EqOp, Expr.Column(name), Lit(lit)), t.Col(name).value.storageType;
            var sel := Select(t.name, None, Some(f));
            && (!HasStagedFor(cx.staged, t.name) ==> Run(cx, true, sel) == Some([]))
            && (Run(cx, true, sel) == Run(cx, false, sel) <==>
                  if HasStagedFor(cx.staged, t.name) then forall r :: r in VisibleRows(cx, t) ==> Alias(lit, ty) != Some(Get(r, name))
                  else forall r :: r in VisibleRows(cx, t) ==> !Passes(cx, f, r))
  {
    UnindexedColumn(t, name);
    if HasStagedFor(cx.staged, t.name) {
      AliasedEqExactly(cx, t, name, lit);
    } else {
      UnindexedExactly(cx, t, Cmp(EqOp, Expr.Column(name), Lit(lit)));
    }
  }

  /** So is a membership test on any column of a primary key. */
  lemma InOnKeyColumnExactly(cx: Context, t: Table, name: string, list: seq<Literal>)
    requires EngineSound(cx) && WellTyped(cx) && FindTable(cx.tables, t.name) == Some(t) && t.name !in cx.ctes
    requires name in t.primaryKey && t.HasCol(name) && !RealBitmap(t, name) && LNull !in list
    ensures var f, ty := In(Expr.Column(name), list), t.Col(name).value.storageType;
            var sel := Select(t.name, None, Some(f));
            && (!HasStagedFor(cx.staged, t.name) ==> Run(cx, true, sel) == Some([]))
            && (Run(cx, true, sel) == Run(cx, false, sel) <==>
                  if HasStagedFor(cx.staged, t.name) then forall r :: r in VisibleRows(cx, t) ==> !Mistaken(list, ty, Get(r, name))
                  else forall r :: r in VisibleRows(cx, t) ==> !Passes(cx, f, r))
  {
    UnindexedColumn(t, name);
    if HasStagedFor(cx.staged, t.name) {
      AliasedInExactly(cx, t, name, list);
    } else {
      UnindexedExactly(cx, t, In(Expr.Column(name), list));
    }
  }

  /** In a transaction that has written to the table, a translated prefix test keeps every
      visible row, because the check on staged rows does not know the condition. That is
      right exactly when every visible row passes. */
  lemma StagedPrefixExactly(cx: Context, t: Table, name: string, prefix: string)
    requires FindTable(cx.tables, t.name) == Some(t) && t.name !in cx.ctes && HasStagedFor(cx.staged, t.name)
    requires t.HasCol(name) && HasBitmapIndex(t, name)
    ensures var f := BytesPrefix(Expr.Column(name), prefix);
            var sel := Select(t.name, None, Some(f));
            && Run(cx, true, sel) == Some(VisibleRows(cx, t))
            && (Run(cx, true, sel) == Run(cx, false, sel) <==> forall r :: r in VisibleRows(cx, t) ==> Passes(cx, f, r))
  {
    var f := BytesPrefix(Expr.Column(name), prefix);
    OneConjunctExactly(cx, t, f);
    KeepEvery(VisibleRows(cx, t), Fetched(cx, t, Translate(t, f).0.value));
  }
}
