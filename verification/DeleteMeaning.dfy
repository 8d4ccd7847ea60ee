/** What a delete means, said of the rows and their foreign keys: when it is accepted, and
    which rows are there afterwards. */
module DeleteMeaning {
  import opened Strings
  import opened Values
  import opened Schema
  import opened Overlay
  import opened Planner
  import opened Rules
  import opened Guards
  import opened Operations
  import opened Keeping
  import opened Accepting
  import opened DeleteOps
  import opened Renulls
  import opened Deletes
  import opened DeleteLimits
  import opened Children

  // ── the rows a delete falls on ───────────────────────────────────────────

  type Rows = map<RowRef, Row>

  /** The row `c` references `p` through a foreign key with this action. */
  ghost predicate Hangs(rules: Rules, rows: Rows, p: RowRef, c: RowRef, fk: ForeignKey, action: Action) {
    c in rows && rules.References(c.table, rows[c], fk, p) && fk.onDelete == action
  }

  ghost predicate CascadesTo(rules: Rules, rows: Rows, p: RowRef, c: RowRef) {
    exists fk :: Hangs(rules, rows, p, c, fk, Cascade)
  }

  /** Each row of the chain references the one before it, with ON DELETE CASCADE. */
  ghost predicate Falling(rules: Rules, rows: Rows, chain: seq<RowRef>, from: RowRef, to: RowRef) {
    && chain != [] && chain[0] == from && chain[|chain| - 1] == to
    && forall i :: 0 <= i < |chain| - 1 ==> CascadesTo(rules, rows, chain[i], chain[i + 1])
  }

  /** A delete of `from` cascades to `to`, or is of `to` itself. */
  ghost predicate Falls(rules: Rules, rows: Rows, from: RowRef, to: RowRef) {
    exists chain :: Falling(rules, rows, chain, from, to)
  }

  /** Some row the delete falls on would, in one or more steps, cascade to itself. */
  ghost predicate Loops(rules: Rules, rows: Rows, r: RowRef) {
    exists d, c :: Falls(rules, rows, r, d) && CascadesTo(rules, rows, d, c) && Falls(rules, rows, c, d)
  }

  /** A reference with RESTRICT into a row the delete falls on. */
  ghost predicate Restricts(rules: Rules, rows: Rows, r: RowRef) {
    exists d, c, fk :: Falls(rules, rows, r, d) && Hangs(rules, rows, d, c, fk, Restrict)
  }

  /** The row has a reference with SET NULL into a row the delete falls on. */
  ghost predicate LosesParent(rules: Rules, rows: Rows, r: RowRef, c: RowRef, fk: ForeignKey) {
    exists d :: Falls(rules, rows, r, d) && Hangs(rules, rows, d, c, fk, SetNull)
  }

  /** The columns of the foreign key can be nulled in the row. */
  predicate CanNull(rules: Rules, x: Txn, c: RowRef, fk: ForeignKey) {
    && (forall col :: col in fk.columns ==> rules.Nullable(c.table, col))
    && (Read(rules, x, c).Some? ==> rules.valid(c.table, NullOut(Read(rules, x, c).value, fk.columns)))
  }

  /** What the full path of a delete must meet, apart from not running in a circle. */
  ghost predicate Deletable(rules: Rules, x: Txn, r: RowRef) {
    && rules.Known(r.table)
    && Findable(rules, x, r)
    && !Restricts(rules, View(x).rows, r)
    && forall c, fk :: LosesParent(rules, View(x).rows, r, c, fk) ==> CanNull(rules, x, c, fk)
  }

  /** The search for children finds the references into every row the delete falls on. */
  ghost predicate Complete(rules: Rules, rows: Rows, g: Graph, r: RowRef) {
    g.tables == rules.tables && forall d :: Falls(rules, rows, r, d) ==> Finds(rules, rows, g, d)
  }

  // ── the planner's graph is the graph of the rows ─────────────────────────

  lemma EdgesAreHanging(rules: Rules, rows: Rows, g: Graph, p: RowRef, c: RowRef, fk: ForeignKey, action: Action)
    requires DistinctTables(rules.tables) && g.tables == rules.tables && Finds(rules, rows, g, p)
    ensures Hangs(rules, rows, p, c, fk, action) <==> Edge(c.table, fk, c.pk) in Edges(g, p) && fk.onDelete == action
  {
    var e := Edge(c.table, fk, c.pk);
    assert e.Child() == c;
    if Hangs(rules, rows, p, c, fk, action) {
      ReferenceIsEdge(rules, rows, g, p, c, fk);
    }
    if e in Edges(g, p) {
      EdgeIsReference(rules, rows, g, p, e);
    }
  }

  lemma CascadesAreSame(rules: Rules, rows: Rows, g: Graph, p: RowRef, c: RowRef)
    requires DistinctTables(rules.tables) && g.tables == rules.tables && Finds(rules, rows, g, p)
    ensures Cascades(g, p, c) <==> CascadesTo(rules, rows, p, c)
  {
    if e :| e in Edges(g, p) && e.fk.onDelete == Cascade && e.Child() == c {
      assert e == Edge(c.table, e.fk, c.pk);
      EdgesAreHanging(rules, rows, g, p, c, e.fk, Cascade);
    }
    if fk :| Hangs(rules, rows, p, c, fk, Cascade) {
      EdgesAreHanging(rules, rows, g, p, c, fk, Cascade);
      assert Edge(c.table, fk, c.pk).Child() == c;
    }
  }

  lemma FallsFurther(rules: Rules, rows: Rows, r: RowRef, p: RowRef, c: RowRef)
    requires Falls(rules, rows, r, p) && CascadesTo(rules, rows, p, c)
    ensures Falls(rules, rows, r, c)
  {
    var chain :| Falling(rules, rows, chain, r, p);
    assert Falling(rules, rows, chain + [c], r, c);
  }

  lemma FallsOnItself(rules: Rules, rows: Rows, r: RowRef)
    ensures Falls(rules, rows, r, r)
  {
    assert Falling(rules, rows, [r], r, r);
  }

  lemma {:induction false} FallsThrough(rules: Rules, rows: Rows, a: RowRef, b: RowRef, chain: seq<RowRef>, c: RowRef)
    requires Falls(rules, rows, a, b) && Falling(rules, rows, chain, b, c)
    ensures Falls(rules, rows, a, c)
    decreases |chain|
  {
    if |chain| > 1 {
      assert CascadesTo(rules, rows, chain[0], chain[1]);
      FallsFurther(rules, rows, a, b, chain[1]);
      assert Falling(rules, rows, chain[1..], chain[1], c);
      FallsThrough(rules, rows, a, chain[1], chain[1..], c);
    }
  }

  lemma FallsTransitively(rules: Rules, rows: Rows, a: RowRef, b: RowRef, c: RowRef)
    requires Falls(rules, rows, a, b) && Falls(rules, rows, b, c)
    ensures Falls(rules, rows, a, c)
  {
    var chain :| Falling(rules, rows, chain, b, c);
    FallsThrough(rules, rows, a, b, chain, c);
  }

  /** What the search reaches from a row the delete falls on, the delete falls on from there. */
  lemma {:induction false} PathFalls(rules: Rules, rows: Rows, g: Graph, r: RowRef, from: RowRef, path: seq<RowRef>, to: RowRef)
    requires DistinctTables(rules.tables) && Complete(rules, rows, g, r) && Falls(rules, rows, r, from)
    ensures IsPath(g, path, from, to) ==> Falls(rules, rows, r, to) && Falling(rules, rows, path, from, to)
    ensures Falling(rules, rows, path, from, to) ==> IsPath(g, path, from, to)
    decreases |path|
  {
    if |path| > 1 && path[0] == from {
      CascadesAreSame(rules, rows, g, from, path[1]);
      TailIsPath(rules, rows, g, path, from, to);
      if CascadesTo(rules, rows, from, path[1]) {
        FallsFurther(rules, rows, r, from, path[1]);
        PathFalls(rules, rows, g, r, path[1], path[1..], to);
      }
    }
  }

  lemma TailIsPath(rules: Rules, rows: Rows, g: Graph, path: seq<RowRef>, from: RowRef, to: RowRef)
    requires |path| > 1
    ensures IsPath(g, path, from, to) <==> path[0] == from && Cascades(g, from, path[1]) && IsPath(g, path[1..], path[1], to)
    ensures Falling(rules, rows, path, from, to) <==>
            path[0] == from && CascadesTo(rules, rows, from, path[1]) && Falling(rules, rows, path[1..], path[1], to)
  {
    var tail := path[1..];
    assert forall i :: 0 <= i < |tail| ==> tail[i] == path[i + 1];
    if path[0] == from && Cascades(g, from, path[1]) && IsPath(g, tail, path[1], to) {
      forall i | 0 <= i < |path| - 1 ensures Cascades(g, path[i], path[i + 1]) {
        assert i > 0 ==> Cascades(g, tail[i - 1], tail[i]);
      }
    }
    if path[0] == from && CascadesTo(rules, rows, from, path[1]) && Falling(rules, rows, tail, path[1], to) {
      forall i | 0 <= i < |path| - 1 ensures CascadesTo(rules, rows, path[i], path[i + 1]) {
        assert i > 0 ==> CascadesTo(rules, rows, tail[i - 1], tail[i]);
      }
    }
  }

  lemma ReachesIsFalls(rules: Rules, rows: Rows, g: Graph, r: RowRef, from: RowRef, to: RowRef)
    requires DistinctTables(rules.tables) && Complete(rules, rows, g, r) && Falls(rules, rows, r, from)
    ensures Reaches(g, from, to) <==> Falls(rules, rows, from, to)
  {
    if path :| IsPath(g, path, from, to) {
      PathFalls(rules, rows, g, r, from, path, to);
    }
    if path :| Falling(rules, rows, path, from, to) {
      PathFalls(rules, rows, g, r, from, path, to);
    }
  }

  /** The graph is cyclic exactly when the rows run in a circle, and blocked exactly when a
      reference restricts. */
  lemma GraphIsRows(rules: Rules, rows: Rows, g: Graph, r: RowRef)
    requires DistinctTables(rules.tables) && Complete(rules, rows, g, r)
    ensures forall d :: Reaches(g, r, d) <==> Falls(rules, rows, r, d)
    ensures Cyclic(g, r) <==> Loops(rules, rows, r)
    ensures Blocked(g, r) <==> Restricts(rules, rows, r)
  {
    FallsOnItself(rules, rows, r);
    forall d ensures Reaches(g, r, d) <==> Falls(rules, rows, r, d) {
      ReachesIsFalls(rules, rows, g, r, r, d);
    }
    CyclicIsLoop(rules, rows, g, r);
    BlockedIsRestricted(rules, rows, g, r);
  }

  lemma CyclicIsLoop(rules: Rules, rows: Rows, g: Graph, r: RowRef)
    requires DistinctTables(rules.tables) && Complete(rules, rows, g, r)
    requires forall d :: Reaches(g, r, d) <==> Falls(rules, rows, r, d)
    ensures Cyclic(g, r) <==> Loops(rules, rows, r)
  {
    forall d, c | Falls(rules, rows, r, d)
      ensures Cascades(g, d, c) <==> CascadesTo(rules, rows, d, c)
      ensures Cascades(g, d, c) ==> (Reaches(g, c, d) <==> Falls(rules, rows, c, d))
    {
      CascadesAreSame(rules, rows, g, d, c);
      if Cascades(g, d, c) {
        FallsFurther(rules, rows, r, d, c);
        ReachesIsFalls(rules, rows, g, r, c, d);
      }
    }
    if Cyclic(g, r) {
      var d :| Reaches(g, r, d) && OnCycle(g, d);
      var c :| Cascades(g, d, c) && Reaches(g, c, d);
      assert Falls(rules, rows, r, d) && CascadesTo(rules, rows, d, c) && Falls(rules, rows, c, d);
    }
    if d, c :| Falls(rules, rows, r, d) && CascadesTo(rules, rows, d, c) && Falls(rules, rows, c, d) {
      assert Cascades(g, d, c) && Reaches(g, c, d);
      assert Reaches(g, r, d) && OnCycle(g, d);
    }
  }

  lemma BlockedIsRestricted(rules: Rules, rows: Rows, g: Graph, r: RowRef)
    requires DistinctTables(rules.tables) && Complete(rules, rows, g, r)
    requires forall d :: Reaches(g, r, d) <==> Falls(rules, rows, r, d)
    ensures Blocked(g, r) <==> Restricts(rules, rows, r)
  {
    if rc :| BlockedBy(g, r, rc) {
      var d :| Reaches(g, r, d) && RestrictedBy(g, d, rc);
      var e :| e in Edges(g, d) && e.fk.onDelete == Restrict && e.Restriction() == rc;
      assert e == Edge(e.Child().table, e.fk, e.Child().pk);
      EdgesAreHanging(rules, rows, g, d, e.Child(), e.fk, Restrict);
    }
    if d, c, fk :| Falls(rules, rows, r, d) && Hangs(rules, rows, d, c, fk, Restrict) {
      EdgesAreHanging(rules, rows, g, d, c, fk, Restrict);
      var e := Edge(c.table, fk, c.pk);
      assert RestrictedBy(g, d, e.Restriction());
      assert BlockedBy(g, r, e.Restriction());
    }
  }

  // ── the set-null updates of the plan ─────────────────────────────────────

  lemma {:induction false} EdgeNullsFound(es: seq<Edge>, su: SetNullUpdate) returns (e: Edge)
    requires su in EdgeNulls(es)
    ensures e in es && e.fk.onDelete == SetNull && e.Nulls() == su
  {
    if es[0].fk.onDelete == SetNull && es[0].Nulls() == su {
      e := es[0];
    } else {
      e := EdgeNullsFound(es[1..], su);
    }
  }

  lemma {:induction false} RowNullsFound(g: Graph, rows: seq<RowRef>, su: SetNullUpdate) returns (p: RowRef, e: Edge)
    requires su in RowNulls(g, rows)
    ensures p in rows && e in Edges(g, p) && e.fk.onDelete == SetNull && e.Nulls() == su
    decreases |rows|
  {
    var front, last := rows[..|rows| - 1], rows[|rows| - 1];
    if su in EdgeNulls(Edges(g, last)) {
      p := last;
      e := EdgeNullsFound(Edges(g, last), su);
    } else {
      p, e := RowNullsFound(g, front, su);
    }
  }

  /** The plan nulls exactly the references with SET NULL into the rows the delete falls on. */
  lemma NullsAreLost(rules: Rules, rows: Rows, g: Graph, r: RowRef, plan: DeletePlan, su: SetNullUpdate)
    requires DistinctTables(rules.tables) && Complete(rules, rows, g, r) && PlanSpec(g, r, Planned(plan)) && plan.restricted == []
    ensures su in plan.setNull <==>
            exists fk: ForeignKey :: LosesParent(rules, rows, r, NulledRow(su), fk) && fk.columns == su.columns
  {
    var c := NulledRow(su);
    GraphIsRows(rules, rows, g, r);
    assert su in plan.setNull <==> su in multiset(plan.setNull);
    if su in plan.setNull {
      var p, e := RowNullsFound(g, plan.delete, su);
      assert e == Edge(c.table, e.fk, c.pk);
      EdgesAreHanging(rules, rows, g, p, c, e.fk, SetNull);
      assert LosesParent(rules, rows, r, c, e.fk);
    }
    if fk: ForeignKey :| LosesParent(rules, rows, r, c, fk) && fk.columns == su.columns {
      var d :| Falls(rules, rows, r, d) && Hangs(rules, rows, d, c, fk, SetNull);
      EdgesAreHanging(rules, rows, g, d, c, fk, SetNull);
      var e := Edge(c.table, fk, c.pk);
      assert e.Nulls() == su;
      RowNullsHave(g, plan.delete, d, e);
    }
  }

  // ── when a delete is accepted ────────────────────────────────────────────

  lemma AllCanNull(rules: Rules, x: Txn, g: Graph, r: RowRef, plan: DeletePlan)
    requires DistinctTables(rules.tables) && Faithful(rules, x)
    requires Complete(rules, View(x).rows, g, r) && PlanSpec(g, r, Planned(plan)) && plan.restricted == []
    ensures (forall su :: su in plan.setNull ==> Accepts(rules, x, su)) <==>
            forall c, fk :: LosesParent(rules, View(x).rows, r, c, fk) ==> CanNull(rules, x, c, fk)
  {
    if forall su :: su in plan.setNull ==> Accepts(rules, x, su) {
      forall c, fk | LosesParent(rules, View(x).rows, r, c, fk) ensures CanNull(rules, x, c, fk) {
        LostIsPlanned(rules, x, g, r, plan, c, fk);
      }
    }
    if forall c, fk :: LosesParent(rules, View(x).rows, r, c, fk) ==> CanNull(rules, x, c, fk) {
      forall su | su in plan.setNull ensures Accepts(rules, x, su) {
        var fk := PlannedIsLost(rules, x, g, r, plan, su);
      }
    }
  }

  lemma LostIsPlanned(rules: Rules, x: Txn, g: Graph, r: RowRef, plan: DeletePlan, c: RowRef, fk: ForeignKey)
    requires DistinctTables(rules.tables) && Faithful(rules, x)
    requires Complete(rules, View(x).rows, g, r) && PlanSpec(g, r, Planned(plan)) && plan.restricted == []
    requires LosesParent(rules, View(x).rows, r, c, fk)
    ensures var su := SetNullUpdate(c.table, c.pk, fk.columns);
            su in plan.setNull && (Accepts(rules, x, su) <==> CanNull(rules, x, c, fk))
  {
    var su := SetNullUpdate(c.table, c.pk, fk.columns);
    assert NulledRow(su) == c;
    NullsAreLost(rules, View(x).rows, g, r, plan, su);
    OneCanNull(rules, x, r, c, fk);
  }

  lemma PlannedIsLost(rules: Rules, x: Txn, g: Graph, r: RowRef, plan: DeletePlan, su: SetNullUpdate) returns (fk: ForeignKey)
    requires DistinctTables(rules.tables) && Faithful(rules, x)
    requires Complete(rules, View(x).rows, g, r) && PlanSpec(g, r, Planned(plan)) && plan.restricted == []
    requires su in plan.setNull
    ensures LosesParent(rules, View(x).rows, r, NulledRow(su), fk) && (Accepts(rules, x, su) <==> CanNull(rules, x, NulledRow(su), fk))
  {
    NullsAreLost(rules, View(x).rows, g, r, plan, su);
    fk :| LosesParent(rules, View(x).rows, r, NulledRow(su), fk) && fk.columns == su.columns;
    OneCanNull(rules, x, r, NulledRow(su), fk);
  }

  lemma OneCanNull(rules: Rules, x: Txn, r: RowRef, c: RowRef, fk: ForeignKey)
    requires Faithful(rules, x) && LosesParent(rules, View(x).rows, r, c, fk)
    ensures Accepts(rules, x, SetNullUpdate(c.table, c.pk, fk.columns)) <==> CanNull(rules, x, c, fk)
  {
    ReadIsView(rules, x, c);
  }

  lemma DeletedUnfolds(rules: Rules, x: Txn, r: RowRef, plan: DeletePlan)
    ensures Deleted(rules, x, r, plan).Accepted? <==>
            && rules.Known(r.table) && Lookup(rules, x, r).Some? && plan.restricted == []
            && SetNullAll(rules, x, x, plan.setNull).Accepted?
  {
  }

  /** A planned delete is accepted exactly when the row can be found, no reference into a row
      it falls on restricts, and every reference it sets null can be nulled. */
  lemma DeletedAcceptedExactly(rules: Rules, x: Txn, g: Graph, r: RowRef, plan: DeletePlan)
    requires DistinctTables(rules.tables) && Faithful(rules, x)
    requires Complete(rules, View(x).rows, g, r) && PlanSpec(g, r, Planned(plan))
    ensures Deleted(rules, x, r, plan).Accepted? <==> Deletable(rules, x, r)
  {
    DeletedUnfolds(rules, x, r, plan);
    LookupIsView(rules, x, r);
    GraphIsRows(rules, View(x).rows, g, r);
    PlanIsExact(g, r, Planned(plan));
    if plan.restricted == [] {
      AcceptsAll(rules, x, x, plan.setNull);
      AllCanNull(rules, x, g, r, plan);
    }
  }

  /** A delete that is planned first is accepted exactly when, besides, the rows it falls on do
      not run in a circle. */
  lemma DeleteAcceptedExactly(rules: Rules, x: Txn, g: Graph, r: RowRef, planning: PlanResult)
    requires DistinctTables(rules.tables) && Faithful(rules, x)
    requires Complete(rules, View(x).rows, g, r) && PlanSpec(g, r, planning)
    ensures planning.Planned? && Deleted(rules, x, r, planning.plan).Accepted? <==>
            Deletable(rules, x, r) && !Loops(rules, View(x).rows, r)
  {
    GraphIsRows(rules, View(x).rows, g, r);
    PlanIsExact(g, r, planning);
    if planning.Planned? {
      DeletedAcceptedExactly(rules, x, g, r, planning.plan);
    }
  }

  /** Whether the delete was accepted is what the rows say, if all references were found. */
  ghost predicate AnswersExactly(rules: Rules, x: Txn, g: Graph, r: RowRef, accepted: bool) {
    DistinctTables(rules.tables) && Faithful(rules, x) && Complete(rules, View(x).rows, g, r) ==>
      (accepted <==> Deletable(rules, x, r) && !Loops(rules, View(x).rows, r))
  }

  lemma UnplannedAnswers(rules: Rules, x: Txn, g: Graph, r: RowRef)
    requires !rules.Known(r.table) || Lookup(rules, x, r).None?
    ensures AnswersExactly(rules, x, g, r, false)
  {
    if Faithful(rules, x) {
      LookupIsView(rules, x, r);
    }
  }

  lemma PlannedAnswers(rules: Rules, x: Txn, g: Graph, r: RowRef, planning: PlanResult)
    requires PlanSpec(g, r, planning)
    ensures AnswersExactly(rules, x, g, r, planning.Planned? && Deleted(rules, x, r, planning.plan).Accepted?)
    ensures planning.Planned? <==> HasTable(g.tables, r.table) && !Cyclic(g, r)
  {
    PlanIsExact(g, r, planning);
    if DistinctTables(rules.tables) && Faithful(rules, x) && Complete(rules, View(x).rows, g, r) {
      DeleteAcceptedExactly(rules, x, g, r, planning);
    }
  }

  // ── what is left ─────────────────────────────────────────────────────────

  /** The row is to go: of the target's own table, only the target is deleted. */
  ghost predicate ToGo(rules: Rules, rows: Rows, r: RowRef, c: RowRef) {
    Falls(rules, rows, r, c) && (c.table != r.table || c == r)
  }

  ghost predicate ToNull(rules: Rules, rows: Rows, r: RowRef, c: RowRef) {
    exists fk :: LosesParent(rules, rows, r, c, fk)
  }

  lemma NulledRowsLose(rules: Rules, rows: Rows, g: Graph, r: RowRef, plan: DeletePlan, c: RowRef)
    requires DistinctTables(rules.tables) && Complete(rules, rows, g, r) && PlanSpec(g, r, Planned(plan)) && plan.restricted == []
    ensures c in RowsOf(plan.setNull) <==> ToNull(rules, rows, r, c)
    ensures c in RowsOf(plan.setNull) ==>
              exists fk: ForeignKey :: LosesParent(rules, rows, r, c, fk) && fk.columns == LastNull(plan.setNull, c).value.columns
  {
    if c in RowsOf(plan.setNull) {
      NullsAreLost(rules, rows, g, r, plan, LastNull(plan.setNull, c).value);
    }
    if fk :| LosesParent(rules, rows, r, c, fk) {
      var su := SetNullUpdate(c.table, c.pk, fk.columns);
      NullsAreLost(rules, rows, g, r, plan, su);
      assert NulledRow(su) == c;
    }
  }

  /** After an accepted delete exactly the rows to go are gone, except those that are nulled as
      well; a row that lost a parent has the columns of one such reference nulled; and every
      other row is as it was. */
  lemma DeletedRowsExactly(rules: Rules, x: Txn, g: Graph, r: RowRef, plan: DeletePlan, c: RowRef)
    requires DistinctTables(rules.tables) && Local(rules, x) && FreshPlan(x, r, plan)
    requires Complete(rules, View(x).rows, g, r) && PlanSpec(g, r, Planned(plan)) && Deleted(rules, x, r, plan).Accepted?
    ensures var before, after := View(x).rows, View(Deleted(rules, x, r, plan).txn).rows;
            && (c in after <==> c in before && (ToGo(rules, before, r, c) ==> ToNull(rules, before, r, c)))
            && (c in after && !ToNull(rules, before, r, c) ==> after[c] == before[c])
            && (c in after && ToNull(rules, before, r, c) ==>
                  exists fk: ForeignKey :: LosesParent(rules, before, r, c, fk) && after[c] == NullOut(before[c], fk.columns))
  {
    DeletedIs(rules, x, r, plan);
    GraphIsRows(rules, View(x).rows, g, r);
    NulledRowsLose(rules, View(x).rows, g, r, plan, c);
    assert c in plan.delete <==> Falls(rules, View(x).rows, r, c);
    RowAfter(rules, x, r, plan, c);
  }

  lemma RowAfter(rules: Rules, x: Txn, r: RowRef, plan: DeletePlan, c: RowRef)
    requires Local(rules, x) && FreshPlan(x, r, plan) && Deleted(rules, x, r, plan).Accepted?
    requires r in plan.delete
    ensures var before, after := View(x).rows, View(Deleted(rules, x, r, plan).txn).rows;
            && (c in after <==> c in before && (Goes(r, plan, c) ==> c in RowsOf(plan.setNull)))
            && (c in after ==> after[c] == if c in RowsOf(plan.setNull) then NullOut(before[c], LastNull(plan.setNull, c).value.columns)
                                            else before[c])
  {
    DeleteEffect(rules, x, r, plan, c);
    ReadIsView(rules, x, c);
    if c in RowsOf(plan.setNull) || c in plan.delete {
      assert !WroteRow(x.writes, c);
      UnwrittenIsSnapshot(x, c);
    }
  }

  /** With a clean plan, the rows afterwards are the rows before without those to go. */
  lemma CleanDeleteLeaves(rules: Rules, x: Txn, g: Graph, r: RowRef, plan: DeletePlan, c: RowRef)
    requires DistinctTables(rules.tables) && Local(rules, x) && FreshPlan(x, r, plan) && CleanPlan(rules, x, r, plan)
    requires Complete(rules, View(x).rows, g, r) && PlanSpec(g, r, Planned(plan)) && Deleted(rules, x, r, plan).Accepted?
    ensures c in View(Deleted(rules, x, r, plan).txn).rows <==> c in View(x).rows && !ToGo(rules, View(x).rows, r, c)
  {
    DeletedIs(rules, x, r, plan);
    GraphIsRows(rules, View(x).rows, g, r);
    NulledRowsLose(rules, View(x).rows, g, r, plan, c);
    DeletedRowsExactly(rules, x, g, r, plan, c);
  }

  // ── the scan of the code ─────────────────────────────────────────────────

  lemma FallenIsVisible(rules: Rules, rows: Rows, r: RowRef, d: RowRef)
    requires Falls(rules, rows, r, d) && d != r
    ensures d in rows && rules.Known(d.table)
  {
    var chain :| Falling(rules, rows, chain, r, d);
    assert CascadesTo(rules, rows, chain[|chain| - 2], chain[|chain| - 1]);
  }

  /** The scan finds all references exactly when the key of every row the delete falls on can
      be decoded with the target's table, or nothing references that row. */
  lemma ScanIsCompleteExactly(tables: seq<Table>, valid: (string, Row) -> bool, x: Txn, root: Table, scan: string -> seq<Row>, r: RowRef)
    requires InScope(tables, valid) && Local(KitRules(tables, valid), x) && Scans(KitRules(tables, valid), x, scan)
    requires FindTable(tables, r.table) == Some(root) && r in View(x).rows
    ensures var rules, rows := KitRules(tables, valid), View(x).rows;
            Complete(rules, rows, ScanGraph(tables, root, scan), r) <==>
            forall d :: Falls(rules, rows, r, d) ==>
              || (FindTable(tables, d.table).Some? && Decodes(root, FindTable(tables, d.table).value))
              || forall c, fk :: c in rows ==> !rules.References(c.table, rows[c], fk, d)
  {
    var rules, rows := KitRules(tables, valid), View(x).rows;
    forall d | Falls(rules, rows, r, d)
      ensures FindTable(tables, d.table).Some?
      ensures Finds(rules, rows, ScanGraph(tables, root, scan), d) <==>
              || Decodes(root, FindTable(tables, d.table).value)
              || forall c, fk :: c in rows ==> !rules.References(c.table, rows[c], fk, d)
    {
      if d != r {
        FallenIsVisible(rules, rows, r, d);
      }
      ScanFindsExactly(tables, valid, x, root, scan, d, FindTable(tables, d.table).value);
    }
  }
}
