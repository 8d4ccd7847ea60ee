/** A planned delete keeps a transaction sound: the set-null updates, the cascades, and the
    target last. */
module Deletes {
  import opened Strings
  import opened Values
  import opened Schema
  import opened Overlay
  import opened Planner
  import opened Rules
  import opened Guards
  import opened Operations
  import opened Keeping
  import opened DeleteOps
  import opened Renulls

  // ── the whole delete ─────────────────────────────────────────────────────

  /** On the given rows, the search for children finds exactly the references to `p`. */
  ghost predicate Finds(rules: Rules, rows: map<RowRef, Row>, g: Graph, p: RowRef) {
    forall t, fk, c :: t in rules.tables && fk in t.foreignKeys && fk.referencesTable == p.table ==>
      (c in g.find(t, fk, p.pk) <==>
         RowRef(t.name, c) in rows && rules.parent(fk, rows[RowRef(t.name, c)]) == Some(p.pk))
  }

  /** The plan is what the planner answers, and the children of its rows are those the
      transaction sees. */
  ghost predicate PlannedFor(rules: Rules, x: Txn, r: RowRef, plan: DeletePlan) {
    exists g :: PlannedOn(rules, View(x).rows, g, r, plan)
  }

  ghost predicate PlannedOn(rules: Rules, rows: map<RowRef, Row>, g: Graph, r: RowRef, plan: DeletePlan) {
    && g.tables == rules.tables
    && PlanSpec(g, r, Planned(plan))
    && forall p :: p in plan.delete ==> Finds(rules, rows, g, p)
  }

  /** A plan on rows that have not been written in this transaction. */
  ghost predicate FreshPlan(x: Txn, r: RowRef, plan: DeletePlan) {
    && !WroteRow(x.writes, r)
    && Unwritten(x, plan.setNull)
    && (forall d :: d in plan.delete ==> !WroteRow(x.writes, d))
  }

  /** A planned row that is deleted: the target's table is left to the caller, who deletes the
      target only. */
  predicate Goes(r: RowRef, plan: DeletePlan, p: RowRef) {
    p in plan.delete && (p.table != r.table || p == r)
  }

  /** What a plan has to be for its application to leave the transaction sound. The target is
      not nulled. A row of another table than the target's is not nulled as well, and its
      guard is written if it could be referenced; another row of the target's table, which is
      never deleted, is nulled. And a nulled row, as its last update leaves it, references no
      row that goes and has each key an earlier update of it has reserved. */
  ghost predicate CleanPlan(rules: Rules, x: Txn, r: RowRef, plan: DeletePlan) {
    && r !in RowsOf(plan.setNull)
    && (forall d :: d in plan.delete && d.table != r.table ==>
          d !in RowsOf(plan.setNull) && (rules.Referenced(d.table) ==> WroteGuard(x.writes, d)))
    && (forall d :: d in plan.delete && d.table == r.table && d != r ==> d in RowsOf(plan.setNull))
    && (forall c :: NullsRow(x, plan.setNull, c) ==> FreeOf(rules, x, r, plan, c))
    && NoKeysLost(rules, x, plan.setNull)
  }

  /** The row, after its last update, references no row that goes. */
  ghost predicate FreeOf(rules: Rules, x: Txn, r: RowRef, plan: DeletePlan, c: RowRef)
    requires NullsRow(x, plan.setNull, c)
  {
    forall fk, p :: rules.References(c.table, NulledLast(x, plan.setNull, c), fk, p) ==> !Goes(r, plan, p)
  }

  /** A delete the theorems cover. It may be refused after any of the set-null updates. */
  ghost predicate DeleteInScope(rules: Rules, x: Txn, r: RowRef, plan: DeletePlan) {
    && FreshPlan(x, r, plan)
    && CleanPlan(rules, x, r, plan)
    && forall n :: 0 <= n <= |plan.setNull| ==> NoKeysLost(rules, x, plan.setNull[..n])
  }

  // ── the references into a row are the edges of the planner's graph ───────

  lemma {:induction false} ForeignKeyEdgesHave(g: Graph, t: Table, fks: seq<ForeignKey>, root: RowRef, fk: ForeignKey, pk: string)
    requires fk in fks && fk.referencesTable == root.table && pk in g.find(t, fk, root.pk)
    ensures Edge(t.name, fk, pk) in ForeignKeyEdges(g, t, fks, root)
  {
    if fks[0] == fk {
      KeyEdgesHave(t, fk, g.find(t, fk, root.pk), pk);
    } else {
      ForeignKeyEdgesHave(g, t, fks[1..], root, fk, pk);
    }
  }

  lemma {:induction false} KeyEdgesHave(t: Table, fk: ForeignKey, pks: seq<string>, pk: string)
    requires pk in pks
    ensures Edge(t.name, fk, pk) in KeyEdges(t, fk, pks)
  {
    if pks[0] != pk {
      KeyEdgesHave(t, fk, pks[1..], pk);
    }
  }

  lemma {:induction false} TableEdgesHave(g: Graph, ts: seq<Table>, root: RowRef, t: Table, fk: ForeignKey, pk: string)
    requires t in ts && fk in t.foreignKeys && fk.referencesTable == root.table && pk in g.find(t, fk, root.pk)
    ensures Edge(t.name, fk, pk) in TableEdges(g, ts, root)
  {
    if ts[0] == t {
      ForeignKeyEdgesHave(g, t, t.foreignKeys, root, fk, pk);
    } else {
      TableEdgesHave(g, ts[1..], root, t, fk, pk);
    }
  }

  lemma {:induction false} TableEdgesFound(g: Graph, ts: seq<Table>, r: RowRef, e: Edge) returns (t: Table)
    requires e in TableEdges(g, ts, r)
    ensures t in ts && e.table == t.name && e.fk in t.foreignKeys
    ensures e.fk.referencesTable == r.table && e.pk in g.find(t, e.fk, r.pk)
  {
    if e in ForeignKeyEdges(g, ts[0], ts[0].foreignKeys, r) {
      ForeignKeyEdgesFound(g, ts[0], ts[0].foreignKeys, r, e);
      t := ts[0];
    } else {
      t := TableEdgesFound(g, ts[1..], r, e);
    }
  }

  lemma {:induction false} ForeignKeyEdgesFound(g: Graph, t: Table, fks: seq<ForeignKey>, r: RowRef, e: Edge)
    requires e in ForeignKeyEdges(g, t, fks, r)
    ensures e.table == t.name && e.fk in fks && e.fk.referencesTable == r.table && e.pk in g.find(t, e.fk, r.pk)
  {
    if fks[0].referencesTable == r.table && e in KeyEdges(t, fks[0], g.find(t, fks[0], r.pk)) {
      KeyEdgesFound(t, fks[0], g.find(t, fks[0], r.pk), e);
    } else {
      ForeignKeyEdgesFound(g, t, fks[1..], r, e);
    }
  }

  lemma {:induction false} KeyEdgesFound(t: Table, fk: ForeignKey, pks: seq<string>, e: Edge)
    requires e in KeyEdges(t, fk, pks)
    ensures e.table == t.name && e.fk == fk && e.pk in pks
  {
    if e != Edge(t.name, fk, pks[0]) {
      KeyEdgesFound(t, fk, pks[1..], e);
    }
  }

  /** A row that references `p` is an edge of the planner's graph. */
  lemma ReferenceIsEdge(rules: Rules, rows: map<RowRef, Row>, g: Graph, p: RowRef, c: RowRef, fk: ForeignKey)
    requires g.tables == rules.tables && Finds(rules, rows, g, p)
    requires c in rows && rules.References(c.table, rows[c], fk, p)
    ensures Edge(c.table, fk, c.pk) in Edges(g, p)
  {
    var t := FindTable(rules.tables, c.table).value;
    TableEdgesHave(g, rules.tables, p, t, fk, c.pk);
  }

  /** An edge of the planner's graph is a row that references `p`. */
  lemma EdgeIsReference(rules: Rules, rows: map<RowRef, Row>, g: Graph, p: RowRef, e: Edge)
    requires DistinctTables(rules.tables) && g.tables == rules.tables && Finds(rules, rows, g, p)
    requires e in Edges(g, p)
    ensures e.Child() in rows && rules.References(e.table, rows[e.Child()], e.fk, p)
  {
    var t := TableEdgesFound(g, g.tables, p, e);
    FindsItself(rules.tables, t);
  }

  // ── what an unrestricted plan covers ─────────────────────────────────────

  lemma {:induction false} EdgeNullsHave(es: seq<Edge>, e: Edge)
    requires e in es && e.fk.onDelete == SetNull
    ensures e.Nulls() in EdgeNulls(es)
  {
    if es[0] != e {
      EdgeNullsHave(es[1..], e);
    }
  }

  lemma {:induction false} RowNullsHave(g: Graph, rows: seq<RowRef>, p: RowRef, e: Edge)
    requires p in rows && e in Edges(g, p) && e.fk.onDelete == SetNull
    ensures e.Nulls() in RowNulls(g, rows)
    decreases |rows|
  {
    var front, last := rows[..|rows| - 1], rows[|rows| - 1];
    if p == last {
      EdgeNullsHave(Edges(g, last), e);
    } else {
      assert p in front;
      RowNullsHave(g, front, p, e);
    }
  }

  /** Each reference into a planned row is nulled, or its row goes before. */
  lemma PlanCovers(g: Graph, root: RowRef, plan: DeletePlan, i: nat, e: Edge)
    requires PlanSpec(g, root, Planned(plan)) && plan.restricted == [] && i < |plan.delete| && e in Edges(g, plan.delete[i])
    ensures e.fk.onDelete != Restrict
    ensures e.fk.onDelete == Cascade ==> e.Child() in plan.delete[..i]
    ensures e.fk.onDelete == SetNull ==> e.Nulls() in plan.setNull
  {
    var p := plan.delete[i];
    assert p in plan.delete;
    if e.fk.onDelete == Restrict {
      assert RestrictedBy(g, p, e.Restriction());
      assert BlockedBy(g, root, e.Restriction());
    }
    if e.fk.onDelete == Cascade {
      assert Cascades(g, p, e.Child());
      EachRowOnce(g, plan.delete, {}, i);
    }
    if e.fk.onDelete == SetNull {
      RowNullsHave(g, plan.delete, p, e);
      assert e.Nulls() in multiset(plan.setNull);
    }
  }

  /** A planned row other than the target references a planned row. */
  lemma PlannedChild(g: Graph, root: RowRef, plan: DeletePlan, d: RowRef) returns (p: RowRef, e: Edge)
    requires PlanSpec(g, root, Planned(plan)) && d in plan.delete && d != root
    ensures p in plan.delete && e in Edges(g, p) && e.Child() == d
  {
    var path :| IsPath(g, path, root, d);
    p := path[|path| - 2];
    assert Cascades(g, path[|path| - 2], path[|path| - 1]);
    assert IsPath(g, path[..|path| - 1], root, p);
    e :| e in Edges(g, p) && e.fk.onDelete == Cascade && e.Child() == d;
  }

  /** The planned rows are visible. */
  lemma PlannedVisible(rules: Rules, rows: map<RowRef, Row>, g: Graph, root: RowRef, plan: DeletePlan, d: RowRef)
    requires DistinctTables(rules.tables) && PlannedOn(rules, rows, g, root, plan) && root in rows && d in plan.delete
    ensures d in rows
  {
    if d != root {
      var p, e := PlannedChild(g, root, plan, d);
      EdgeIsReference(rules, rows, g, p, e);
    }
  }

  /** A reference of a nulled row was there before. */
  lemma NulledReference(rules: Rules, m: map<RowRef, Row>, n: map<RowRef, Row>, sus: seq<SetNullUpdate>, c: RowRef, fk: ForeignKey, p: RowRef)
    requires rules.WellFormed() && NulledRows(m, n, sus)
    requires c in n && rules.References(c.table, n[c], fk, p)
    ensures c in m && rules.References(c.table, m[c], fk, p)
  {
    if c in RowsOf(sus) {
      var su :| su in sus && NulledRow(su) == c;
      assert n[c] == NullOut(m[c], su.columns);
    }
  }

  /** The rows once the nulls are made: each as its last update leaves it. */
  lemma LastIsStored(x: Txn, z: Txn, sus: seq<SetNullUpdate>, c: RowRef)
    requires NulledRows(View(x).rows, View(z).rows, Lasts(sus)) && NullsRow(x, sus, c)
    ensures View(z).rows[c] == NulledLast(x, sus, c)
  {
    LastsAre(sus);
    assert LastNull(Lasts(sus), c) == LastNull(sus, c);
  }

  lemma NulledIsFree(rules: Rules, x: Txn, z: Txn, r: RowRef, plan: DeletePlan, c: RowRef, fk: ForeignKey, p: RowRef)
    requires NulledRows(View(x).rows, View(z).rows, Lasts(plan.setNull)) && CleanPlan(rules, x, r, plan) && Goes(r, plan, p)
    ensures NullsRow(x, plan.setNull, c) ==> !rules.References(c.table, View(z).rows[c], fk, p)
  {
    if NullsRow(x, plan.setNull, c) {
      LastIsStored(x, z, plan.setNull, c);
      assert FreeOf(rules, x, r, plan, c);
    }
  }

  /** In a clean plan, only rows that go before it reference a row that goes. */
  lemma CleanPlanGoesInOrder(rules: Rules, x: Txn, z: Txn, g: Graph, r: RowRef, plan: DeletePlan, i: nat, c: RowRef, fk: ForeignKey)
    requires rules.WellFormed() && PlannedOn(rules, View(x).rows, g, r, plan) && plan.restricted == []
    requires NulledRows(View(x).rows, View(z).rows, Lasts(plan.setNull)) && CleanPlan(rules, x, r, plan)
    requires i < |plan.delete| && Goes(r, plan, plan.delete[i])
    requires c in View(z).rows && rules.References(c.table, View(z).rows[c], fk, plan.delete[i])
    ensures c in Cascaded(plan.delete[..i], r.table)
  {
    var p, e := plan.delete[i], Edge(c.table, fk, c.pk);
    NulledReference(rules, View(x).rows, View(z).rows, Lasts(plan.setNull), c, fk, p);
    ReferenceIsEdge(rules, View(x).rows, g, p, c, fk);
    PlanCovers(g, r, plan, i, e);
    NotTheTarget(g, r, plan, i);
    NulledIsFree(rules, x, z, r, plan, c, fk, p);
    assert e.fk.onDelete == SetNull ==> NulledRow(e.Nulls()) == c && c in RowsOf(plan.setNull);
    assert forall d :: d in plan.delete[..i] ==> d in plan.delete;
  }

  lemma NotTheTarget(g: Graph, r: RowRef, plan: DeletePlan, i: nat)
    requires PlanSpec(g, r, Planned(plan)) && plan.restricted == [] && i < |plan.delete|
    ensures r !in plan.delete[..i]
  {
    EachRowOnce(g, plan.delete, {}, |plan.delete| - 1);
    assert forall d :: d in plan.delete[..i] ==> d in plan.delete[..|plan.delete| - 1];
  }

  // ── the target ───────────────────────────────────────────────────────────

  /** All updates up to the first that is refused. */
  lemma {:induction false} NullsKeepLocal(rules: Rules, x: Txn, sus: seq<SetNullUpdate>)
    requires rules.WellFormed() && Local(rules, x) && Unwritten(x, sus)
    requires forall n :: 0 <= n <= |sus| ==> NoKeysLost(rules, x, sus[..n])
    ensures Local(rules, SetNullAll(rules, x, x, sus).txn)
    decreases |sus|
  {
    if SetNullAll(rules, x, x, sus).Accepted? {
      assert sus[..|sus|] == sus;
      LastsAreEnough(rules, x, sus);
      LastsAre(sus);
      NullsKeep(rules, x, Lasts(sus));
      EquivalentLocal(rules, SetNullAll(rules, x, x, Lasts(sus)).txn, SetNullAll(rules, x, x, sus).txn);
    } else {
      var front := sus[..|sus| - 1];
      assert forall su :: su in front ==> su in sus;
      forall n | 0 <= n <= |front| ensures NoKeysLost(rules, x, front[..n]) {
        assert front[..n] == sus[..n];
      }
      NullsKeepLocal(rules, x, front);
      RefusedStays(rules, x, SetNullAll(rules, x, x, front), sus[|sus| - 1]);
    }
  }

  lemma RefusedStays(rules: Rules, x: Txn, y: Answer, su: SetNullUpdate)
    ensures SetNullOne(rules, x, y.txn, su).Rejected? ==> SetNullOne(rules, x, y.txn, su).txn == y.txn
  {
  }

  lemma DeletedKeeps(rules: Rules, x: Txn, r: RowRef, plan: DeletePlan)
    requires rules.WellFormed() && Local(rules, x) && DeleteInScope(rules, x, r, plan) && PlannedFor(rules, x, r, plan)
    ensures Local(rules, Deleted(rules, x, r, plan).txn)
  {
    LookupIsView(rules, x, r);
    if rules.Known(r.table) && Lookup(rules, x, r).Some? && plan.restricted == [] {
      NullsKeepLocal(rules, x, plan.setNull);
      if SetNullAll(rules, x, x, plan.setNull).Accepted? {
        CleanDeleteKeeps(rules, x, r, plan);
      }
    }
  }

  /** An accepted delete with a clean plan. */
  lemma CleanDeleteKeeps(rules: Rules, x: Txn, r: RowRef, plan: DeletePlan)
    requires rules.WellFormed() && Local(rules, x) && FreshPlan(x, r, plan) && CleanPlan(rules, x, r, plan) && PlannedFor(rules, x, r, plan)
    requires r in View(x).rows && plan.restricted == [] && SetNullAll(rules, x, x, plan.setNull).Accepted?
    ensures Local(rules, DeleteTarget(rules, CascadeAll(rules, x, SetNullAll(rules, x, x, plan.setNull).txn, plan.delete, r.table), r))
  {
    var sus := plan.setNull;
    var y, z := SetNullAll(rules, x, x, sus).txn, SetNullAll(rules, x, x, Lasts(sus)).txn;
    LastsAreEnough(rules, x, sus);
    LastsAre(sus);
    NullsKeep(rules, x, Lasts(sus));
    TargetKeeps(rules, x, z, r, plan);
    EquivalentCascades(rules, x, z, y, plan.delete, r.table);
    EquivalentDelete(rules, CascadeAll(rules, x, z, plan.delete, r.table), CascadeAll(rules, x, y, plan.delete, r.table), r);
    EquivalentLocal(rules, DeleteTarget(rules, CascadeAll(rules, x, z, plan.delete, r.table), r),
                    DeleteTarget(rules, CascadeAll(rules, x, y, plan.delete, r.table), r));
  }

  lemma TargetKeeps(rules: Rules, x: Txn, z: Txn, r: RowRef, plan: DeletePlan)
    requires rules.WellFormed() && Local(rules, x) && FreshPlan(x, r, plan) && CleanPlan(rules, x, r, plan) && PlannedFor(rules, x, r, plan)
    requires r in View(x).rows && plan.restricted == []
    requires Local(rules, z) && Nulled(x, z, Lasts(plan.setNull))
    ensures Local(rules, DeleteTarget(rules, CascadeAll(rules, x, z, plan.delete, r.table), r))
  {
    var g :| PlannedOn(rules, View(x).rows, g, r, plan);
    PlannedOnce(g, r, plan);
    StillUnwritten(rules, x, z, r, plan);
    forall i, c, fk | 0 <= i < |plan.delete| && plan.delete[i].table != r.table && c in View(z).rows
                      && rules.References(c.table, View(z).rows[c], fk, plan.delete[i])
      ensures c in Cascaded(plan.delete[..i], r.table)
    {
      assert plan.delete[i] in plan.delete;
      CleanPlanGoesInOrder(rules, x, z, g, r, plan, i, c, fk);
    }
    CascadesKeep(rules, x, z, plan.delete, r.table);
    TargetUnreferenced(rules, x, z, g, r, plan);
    TargetGoes(rules, CascadeAll(rules, x, z, plan.delete, r.table), r);
  }

  lemma TargetUnreferenced(rules: Rules, x: Txn, z: Txn, g: Graph, r: RowRef, plan: DeletePlan)
    requires rules.WellFormed() && PlannedOn(rules, View(x).rows, g, r, plan) && plan.restricted == []
    requires NulledRows(View(x).rows, View(z).rows, Lasts(plan.setNull)) && CleanPlan(rules, x, r, plan) && r in View(x).rows
    ensures r in View(z).rows && r !in Cascaded(plan.delete, r.table)
    ensures forall c, fk :: c in View(z).rows && c !in Cascaded(plan.delete, r.table) ==> !rules.References(c.table, View(z).rows[c], fk, r)
  {
    var n := |plan.delete| - 1;
    PlannedOnce(g, r, plan);
    forall c, fk | c in View(z).rows && rules.References(c.table, View(z).rows[c], fk, r) ensures c in Cascaded(plan.delete, r.table) {
      CleanPlanGoesInOrder(rules, x, z, g, r, plan, n, c, fk);
      assert forall d :: d in plan.delete[..n] ==> d in plan.delete;
    }
  }

  lemma StillUnwritten(rules: Rules, x: Txn, z: Txn, r: RowRef, plan: DeletePlan)
    requires FreshPlan(x, r, plan) && CleanPlan(rules, x, r, plan) && Nulled(x, z, Lasts(plan.setNull))
    ensures r !in Written(z)
    ensures forall d :: d in plan.delete && d.table != r.table ==>
              d !in Written(z) && (rules.Referenced(d.table) ==> WroteGuard(z.writes, d))
  {
    LastsAre(plan.setNull);
    forall d | d in RowsOf(Lasts(plan.setNull)) ensures d in RowsOf(plan.setNull) {
      assert LastNull(Lasts(plan.setNull), d) == LastNull(plan.setNull, d);
    }
  }

  lemma TargetGoes(rules: Rules, z: Txn, r: RowRef)
    requires rules.WellFormed() && Local(rules, z) && r !in Written(z) && r in View(z).rows
    requires forall c, fk :: c in View(z).rows ==> !rules.References(c.table, View(z).rows[c], fk, r)
    ensures Local(rules, DeleteTarget(rules, z, r))
  {
    DeleteKeeps(rules, z, DeleteTarget(rules, z, r), r, {r});
  }

  lemma PlannedOnce(g: Graph, r: RowRef, plan: DeletePlan)
    requires PlanSpec(g, r, Planned(plan)) && plan.restricted == []
    ensures r in plan.delete && plan.delete[|plan.delete| - 1] == r
    ensures forall i :: 0 <= i < |plan.delete| ==> plan.delete[i] !in plan.delete[..i]
  {
    forall i | 0 <= i < |plan.delete| ensures plan.delete[i] !in plan.delete[..i] {
      EachRowOnce(g, plan.delete, {}, i);
    }
  }
}
