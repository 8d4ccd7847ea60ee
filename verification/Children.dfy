/** The search for the rows that reference a row: the scan of the code, which decodes every
    parent's key with the table of the row that is deleted, against the references there are. */
module Children {
  import opened Strings
  import opened Values
  import opened Schema
  import opened Overlay
  import opened Planner
  import opened Rules
  import opened Guards
  import opened Operations
  import opened Keeping
  import opened DeleteOps
  import opened Deletes
  import Keys

  // ── the code ─────────────────────────────────────────────────────────────

  /** `component_to_value` */
  function ComponentValue(c: Keys.KeyComponent): Value {
    match c
    case Null => Null
    case Int(i) => Int(i)
    case Text(s) => Text(s)
  }

  /** `pk_string_to_value`: the values of an encoded key in column order, if the table's key
      has as many columns. */
  function PkValues(t: Table, encoded: string): Option<seq<Value>> {
    var cs := Keys.DecodePk(encoded);
    if |cs| != |t.primaryKey| then None
    else Some(seq(|cs|, k requires 0 <= k < |cs| => ComponentValue(cs[k])))
  }

  /** `fk_matches`: the foreign-key columns equal the key values one by one. */
  predicate FkMatches(fk: ForeignKey, child: Row, parentPk: seq<Value>) {
    forall k :: 0 <= k < |fk.columns| && k < |parentPk| ==> Get(child, fk.columns[k]) == parentPk[k]
  }

  /** A row is found as a child of the key, decoded with the table of the deleted row. */
  predicate FoundAsChild(root: Table, fk: ForeignKey, child: Row, parentPk: string) {
    PkValues(root, parentPk).Some? && FkMatches(fk, child, PkValues(root, parentPk).value)
  }

  function ChildrenIn(root: Table, t: Table, fk: ForeignKey, parentPk: string, rows: seq<Row>): seq<string> {
    if rows == [] then []
    else
      var before, last := ChildrenIn(root, t, fk, parentPk, rows[..|rows| - 1]), rows[|rows| - 1];
      if FoundAsChild(root, fk, last, parentPk) then before + [EncodedPk(t, last)] else before
  }

  /** `find_children`: one scan of the child table. */
  method FindChildren(root: Table, t: Table, fk: ForeignKey, parentPk: string, rows: seq<Row>) returns (out: seq<string>)
    ensures out == ChildrenIn(root, t, fk, parentPk, rows)
  {
    out := [];
    var values := PkValues(root, parentPk);
    var i := 0;
    while i < |rows|
      invariant 0 <= i <= |rows|
      invariant out == ChildrenIn(root, t, fk, parentPk, rows[..i])
    {
      assert rows[..i + 1][..i] == rows[..i];
      if values.Some? && FkMatches(fk, rows[i], values.value) {
        out := out + [EncodedPk(t, rows[i])];
      }
      i := i + 1;
    }
    assert rows[..|rows|] == rows;
  }

  /** The planner's graph, from a scan of each table. */
  function ScanGraph(tables: seq<Table>, root: Table, scan: string -> seq<Row>): Graph {
    Graph(tables, (t: Table, fk: ForeignKey, pk: string) => ChildrenIn(root, t, fk, pk, scan(t.name)))
  }

  // ── one child ────────────────────────────────────────────────────────────

  /** The components of the key of a row of the table. */
  predicate KeyOfRow(t: Table, cs: seq<Keys.KeyComponent>) {
    && |cs| == |t.primaryKey|
    && forall k :: 0 <= k < |cs| ==>
         && t.Col(t.primaryKey[k]).Some?
         && if t.Col(t.primaryKey[k]).value.storageType == IntType then cs[k].Int? else cs[k].Text?
  }

  lemma WholeKeyOfRow(t: Table, row: Row)
    requires PkTyped(t, row) && PkWhole(t, row)
    ensures KeyOfRow(t, PkComponents(t, row))
  {
  }

  /** The keys of `parent` can be decoded with the table of the deleted row: they have as many
      columns, and none of them is boolean, which text does not give back. */
  predicate Decodes(root: Table, parent: Table) {
    && |root.primaryKey| == |parent.primaryKey|
    && forall c :: c in parent.primaryKey && parent.Col(c).Some? ==> parent.Col(c).value.storageType != BoolType
  }

  /** A typed row is found as a child exactly when it is one and the key can be decoded. */
  lemma ChildFoundExactly(tables: seq<Table>, root: Table, parent: Table, fk: ForeignKey, child: Row, cs: seq<Keys.KeyComponent>)
    requires FindTable(tables, fk.referencesTable) == Some(parent) && fk.columns != []
    requires FkTyped(parent, fk, child) && KeyOfRow(parent, cs)
    ensures FoundAsChild(root, fk, child, Keys.EncodePk(cs))
       <==> Decodes(root, parent) && ParentKey(tables, fk, child) == Some(Keys.EncodePk(cs))
  {
    Keys.DecodeEncodePk(cs);
    var ps := ParentComponents(parent, fk, child);
    if FoundAsChild(root, fk, child, Keys.EncodePk(cs)) {
      var values := PkValues(root, Keys.EncodePk(cs)).value;
      forall k | 0 <= k < |cs| ensures ps[k] == cs[k] && Get(child, fk.columns[k]) == ComponentValue(cs[k]) {
        assert Get(child, fk.columns[k]) == values[k];
      }
      assert ps == cs && !FkNull(fk, child);
    }
    if Decodes(root, parent) && ParentKey(tables, fk, child) == Some(Keys.EncodePk(cs)) {
      Keys.EncodePkInjective(ps, cs);
      forall k | 0 <= k < |fk.columns| ensures Get(child, fk.columns[k]) == ComponentValue(cs[k]) {
        assert ps[k] == cs[k];
      }
    }
  }

  // ── all children ─────────────────────────────────────────────────────────

  lemma {:induction false} ChildrenInHas(root: Table, t: Table, fk: ForeignKey, parentPk: string, rows: seq<Row>, c: string)
    ensures c in ChildrenIn(root, t, fk, parentPk, rows)
       <==> exists row :: row in rows && FoundAsChild(root, fk, row, parentPk) && EncodedPk(t, row) == c
    decreases |rows|
  {
    if rows != [] {
      var front, last := rows[..|rows| - 1], rows[|rows| - 1];
      ChildrenInHas(root, t, fk, parentPk, front, c);
      assert rows == front + [last];
      assert forall row :: row in rows <==> row in front || row == last;
    }
  }

  /** A scan gives the rows the transaction reads. */
  ghost predicate Scans(rules: Rules, x: Txn, scan: string -> seq<Row>) {
    forall name, row :: rules.Known(name) ==>
      (row in scan(name) <==> rules.pk(name, row) in Reads(rules, x, name) && Reads(rules, x, name)[rules.pk(name, row)] == row)
  }

  /** One child of a visible row is found exactly when it references it and the key can be
      decoded. */
  lemma ScanFindsChild(tables: seq<Table>, valid: (string, Row) -> bool, x: Txn, root: Table, scan: string -> seq<Row>,
                       p: RowRef, parent: Table, t: Table, fk: ForeignKey, c: string)
    requires InScope(tables, valid) && Local(KitRules(tables, valid), x) && Scans(KitRules(tables, valid), x, scan)
    requires p in View(x).rows && FindTable(tables, p.table) == Some(parent)
    requires t in tables && fk in t.foreignKeys && fk.referencesTable == p.table
    ensures c in ChildrenIn(root, t, fk, p.pk, scan(t.name))
       <==> Decodes(root, parent)
            && RowRef(t.name, c) in View(x).rows
            && ParentKey(tables, fk, View(x).rows[RowRef(t.name, c)]) == Some(p.pk)
  {
    var rules, q := KitRules(tables, valid), RowRef(t.name, c);
    var rows := Reads(rules, x, t.name);
    FindsItself(tables, t);
    ChildrenInHas(root, t, fk, p.pk, scan(t.name), c);
    assert FaithfulAt(rules, x, q);
    var pRow := View(x).rows[p];
    assert rules.pk(p.table, pRow) == p.pk && valid(parent.name, pRow);
    WholeKeyOfRow(parent, pRow);
    if c in rows {
      assert valid(t.name, rows[c]) && rules.pk(t.name, rows[c]) == c && fk in rules.ForeignKeys(t.name);
      assert rules.parent(fk, rows[c]) == rules.parent(fk, View(x).rows[q]);
      ChildFoundExactly(tables, root, parent, fk, rows[c], PkComponents(parent, pRow));
    }
    assert c in rows ==> rows[c] in scan(t.name);
  }

  /** The scan finds exactly the references to a visible row exactly when the row's key can be
      decoded with the deleted row's table, or there are none. On the first level, where the
      two tables are the same, that fails for boolean keys only. */
  lemma ScanFindsExactly(tables: seq<Table>, valid: (string, Row) -> bool, x: Txn, root: Table, scan: string -> seq<Row>,
                         p: RowRef, parent: Table)
    requires InScope(tables, valid) && Local(KitRules(tables, valid), x) && Scans(KitRules(tables, valid), x, scan)
    requires p in View(x).rows && FindTable(tables, p.table) == Some(parent)
    ensures Finds(KitRules(tables, valid), View(x).rows, ScanGraph(tables, root, scan), p)
       <==> Decodes(root, parent) || forall c, fk :: c in View(x).rows ==>
              !KitRules(tables, valid).References(c.table, View(x).rows[c], fk, p)
  {
    var rules, g, rows := KitRules(tables, valid), ScanGraph(tables, root, scan), View(x).rows;
    forall t, fk, c | t in tables && fk in t.foreignKeys && fk.referencesTable == p.table
      ensures c in g.find(t, fk, p.pk) <==>
              Decodes(root, parent) && RowRef(t.name, c) in rows && rules.parent(fk, rows[RowRef(t.name, c)]) == Some(p.pk)
      ensures RowRef(t.name, c) in rows && rules.parent(fk, rows[RowRef(t.name, c)]) == Some(p.pk) ==>
                rules.References(t.name, rows[RowRef(t.name, c)], fk, p)
    {
      ScanFindsChild(tables, valid, x, root, scan, p, parent, t, fk, c);
      FindsItself(tables, t);
    }
    if c, fk :| c in rows && rules.References(c.table, rows[c], fk, p) {
      var t := FindTable(tables, c.table).value;
      assert t in tables && RowRef(t.name, c.pk) == c && c.pk in g.find(t, fk, p.pk) <==> Decodes(root, parent);
    }
  }

  // ── plans made from scans ────────────────────────────────────────────────

  /** Everything that is found is visible. */
  lemma FoundIsVisible(tables: seq<Table>, valid: (string, Row) -> bool, x: Txn, root: Table, scan: string -> seq<Row>, q: RowRef, e: Edge)
    requires InScope(tables, valid) && Faithful(KitRules(tables, valid), x) && Scans(KitRules(tables, valid), x, scan)
    requires e in Edges(ScanGraph(tables, root, scan), q)
    ensures e.Child() in View(x).rows
  {
    var rules, g := KitRules(tables, valid), ScanGraph(tables, root, scan);
    var t := TableEdgesFound(g, tables, q, e);
    FindsItself(tables, t);
    ChildrenInHas(root, t, e.fk, q.pk, scan(t.name), e.pk);
    assert FaithfulAt(rules, x, e.Child());
  }

  /** What the search never leaves: the target and the visible rows. */
  lemma ScanIsClosed(tables: seq<Table>, valid: (string, Row) -> bool, x: Txn, root: Table, scan: string -> seq<Row>, r: RowRef)
    requires InScope(tables, valid) && Faithful(KitRules(tables, valid), x) && Scans(KitRules(tables, valid), x, scan)
    ensures Closed(ScanGraph(tables, root, scan), View(x).rows.Keys + {r})
  {
    forall q, e | e in Edges(ScanGraph(tables, root, scan), q) ensures e.Child() in View(x).rows {
      FoundIsVisible(tables, valid, x, root, scan, q, e);
    }
  }

  /** The plan made from scans is the plan the protocol theorems ask for, as long as the keys
      of its rows can be decoded or nothing can reference them. */
  lemma ScanPlanIsPlanned(tables: seq<Table>, valid: (string, Row) -> bool, x: Txn, root: Table, scan: string -> seq<Row>,
                          r: RowRef, plan: DeletePlan)
    requires InScope(tables, valid) && Local(KitRules(tables, valid), x) && Scans(KitRules(tables, valid), x, scan)
    requires FindTable(tables, r.table) == Some(root) && r in View(x).rows
    requires PlanSpec(ScanGraph(tables, root, scan), r, Planned(plan)) && plan.restricted == []
    requires forall d :: d in plan.delete && KitRules(tables, valid).Referenced(d.table) ==>
               FindTable(tables, d.table).Some? && Decodes(root, FindTable(tables, d.table).value)
    ensures PlannedFor(KitRules(tables, valid), x, r, plan)
  {
    var rules, g := KitRules(tables, valid), ScanGraph(tables, root, scan);
    forall d | d in plan.delete ensures Finds(rules, View(x).rows, g, d) {
      if d != r {
        var q, e := PlannedChild(g, r, plan, d);
        FoundIsVisible(tables, valid, x, root, scan, q, e);
        var t := TableEdgesFound(g, tables, q, e);
        FindsItself(tables, t);
      }
      var parent := FindTable(tables, d.table).value;
      ScanFindsExactly(tables, valid, x, root, scan, d, parent);
      if !rules.Referenced(d.table) {
        forall c, fk | c in View(x).rows ensures !rules.References(c.table, View(x).rows[c], fk, d) {
          UnreferencedBy(rules, c.table, View(x).rows[c], fk, d);
        }
      }
    }
    assert PlannedOn(rules, View(x).rows, g, r, plan);
  }
}
