/** A delete plan applied to a database: whatever the depth of the cascade, and with
    self-references, no surviving row is left pointing at a deleted one. */
module PlanApply {
  import opened Strings
  import opened Values
  import opened Schema
  import opened Planner
  import opened Rules
  import opened DeleteOps
  import opened Deletes

  /** A row with all the set-null updates that name it. */
  function NulledBy(row: Row, r: RowRef, sus: seq<SetNullUpdate>): Row {
    if sus == [] then row
    else
      var before, su := NulledBy(row, r, sus[..|sus| - 1]), sus[|sus| - 1];
      if NulledRow(su) == r then NullOut(before, su.columns) else before
  }

  /** The set-null updates merged per row, and then the deletes. */
  function AppliedPlan(rows: map<RowRef, Row>, plan: DeletePlan): map<RowRef, Row> {
    map r | r in rows && r !in plan.delete :: NulledBy(rows[r], r, plan.setNull)
  }

  lemma {:induction false} NulledByShrinks(rules: Rules, table: string, row: Row, r: RowRef, sus: seq<SetNullUpdate>, fk: ForeignKey)
    requires rules.NullingShrinks() && fk in rules.ForeignKeys(table)
    ensures var p := rules.parent(fk, NulledBy(row, r, sus)); p.Some? ==> rules.parent(fk, row) == p
    ensures SetNullUpdate(r.table, r.pk, fk.columns) in sus ==> rules.parent(fk, NulledBy(row, r, sus)) == None
    decreases |sus|
  {
    if sus != [] {
      var front, su := sus[..|sus| - 1], sus[|sus| - 1];
      assert sus == front + [su];
      NulledByShrinks(rules, table, row, r, front, fk);
    }
  }

  /** Every reference into a row that goes is nulled, or its row goes too. */
  lemma ReferenceGoes(rules: Rules, rows: map<RowRef, Row>, g: Graph, root: RowRef, plan: DeletePlan, c: RowRef, fk: ForeignKey, p: RowRef)
    requires PlannedOn(rules, rows, g, root, plan) && plan.restricted == []
    requires p in plan.delete && c in rows && rules.References(c.table, rows[c], fk, p)
    ensures c in plan.delete || SetNullUpdate(c.table, c.pk, fk.columns) in plan.setNull
  {
    var i :| 0 <= i < |plan.delete| && plan.delete[i] == p;
    ReferenceIsEdge(rules, rows, g, p, c, fk);
    var e := Edge(c.table, fk, c.pk);
    assert e.Child() == c;
    PlanCovers(g, root, plan, i, e);
  }

  /** A database whose references all have their parents keeps that property under an
      unrestricted plan, given that the planner finds exactly the rows that reference the
      rows it deletes. */
  lemma PlanLeavesNoOrphans(rules: Rules, rows: map<RowRef, Row>, g: Graph, root: RowRef, plan: DeletePlan)
    requires rules.NullingShrinks() && PlannedOn(rules, rows, g, root, plan) && plan.restricted == []
    requires forall c, fk, p :: c in rows && rules.References(c.table, rows[c], fk, p) ==> p in rows
    ensures var after := AppliedPlan(rows, plan);
            forall c, fk, p :: c in after && rules.References(c.table, after[c], fk, p) ==> p in after
  {
    var after := AppliedPlan(rows, plan);
    forall c, fk, p | c in after && rules.References(c.table, after[c], fk, p) ensures p in after {
      NulledByShrinks(rules, c.table, rows[c], c, plan.setNull, fk);
      assert rules.References(c.table, rows[c], fk, p);
      if p in plan.delete {
        ReferenceGoes(rules, rows, g, root, plan, c, fk, p);
      }
    }
  }

  /** A restricted plan, applied, changes nothing. */
  lemma RestrictedPlanIsEmpty(rows: map<RowRef, Row>, g: Graph, root: RowRef, plan: DeletePlan)
    requires PlanSpec(g, root, Planned(plan)) && plan.restricted != []
    ensures AppliedPlan(rows, plan) == rows
  {
  }
}
