/** Every interleaving of kit transactions: no committed state has an orphan, or two rows
    that agree on a unique constraint. */
module Protocol {
  import opened Strings
  import opened Values
  import opened Schema
  import opened Overlay
  import opened Planner
  import opened Rules
  import opened Guards
  import opened Commit
  import opened Operations
  import opened Keeping
  import opened RowOps
  import opened DeleteOps
  import opened Deletes
  import opened FastPaths
  import Keys

  // ── the state machine ────────────────────────────────────────────────────

  /** The committed store and the open transactions. */
  datatype Db = Db(store: Store, live: map<nat, Live>)

  datatype Op =
    | InsertOp(table: string, row: Row, explicit: bool)
    | UpdateOp(r: RowRef, patch: Row)
    | UpsertOp(table: string, values: Row, onConflict: Option<Row>, refresh: Row)
    | DeleteOp(r: RowRef, plan: DeletePlan)
    | TruncateOp(table: string)

  datatype Step =
    | Begin(id: nat)
    | Do(id: nat, op: Op)
    | TryCommit(id: nat)
    | Rollback(id: nat)

  /** An operation of an open transaction. The fast paths look rows up in the index as it is
      now: it finds a row of the committed store, and the snapshot's version of it if nobody
      has committed the row since. */
  function Performed(rules: Rules, s: Store, l: Live, op: Op): Answer {
    match op
    case InsertOp(table, row, explicit) => Inserted(rules, l.txn, table, row, explicit)
    case UpdateOp(r, patch) => UpdatedBy(rules, l.txn, r, patch, r in s.rows && RowKey(r) !in l.since)
    case UpsertOp(table, values, patch, refresh) => Upserted(rules, l.txn, table, values, patch, refresh)
    case DeleteOp(r, plan) => DeletedBy(rules, l.txn, r, plan, r in s.rows)
    case TruncateOp(table) => Truncated(rules, l.txn, table)
  }

  /** After a commit every other open transaction has its keys behind it. */
  function AfterCommit(db: Db, id: nat, w: Writes): Db {
    Db(Applied(db.store, w), map i | i in db.live && i != id :: Overtaken(db.live[i], w))
  }

  /** Steps of transactions that are not open do nothing; a commit that conflicts, and a
      rollback, leave the store as it is. */
  function Next(rules: Rules, db: Db, step: Step): Db {
    match step
    case Begin(id) => if id in db.live then db else db.(live := db.live[id := Live(Opened(db.store), {})])
    case Do(id, op) =>
      if id !in db.live then db
      else db.(live := db.live[id := db.live[id].(txn := Performed(rules, db.store, db.live[id], op).txn)])
    case TryCommit(id) =>
      if id !in db.live then db
      else if Conflicts(db.live[id]) then db.(live := db.live - {id})
      else AfterCommit(db, id, db.live[id].txn.writes)
    case Rollback(id) => db.(live := db.live - {id})
  }

  function Run(rules: Rules, db: Db, steps: seq<Step>): Db
    decreases |steps|
  {
    if steps == [] then db else Run(rules, Next(rules, db, steps[0]), steps[1..])
  }

  // ── scope ────────────────────────────────────────────────────────────────

  ghost predicate OpInScope(rules: Rules, x: Txn, op: Op) {
    match op
    case InsertOp(table, row, explicit) => InsertInScope(rules, x, table, row, explicit)
    case UpdateOp(r, patch) => UpdateInScope(rules, x, r, patch)
    case UpsertOp(table, values, patch, refresh) => UpsertInScope(rules, x, table, values, patch, refresh)
    case DeleteOp(r, plan) =>
      if rules.FastDeletes(r.table) then !WroteRow(x.writes, r)
      else DeleteInScope(rules, x, r, plan) && PlannedFor(rules, x, r, plan)
    case TruncateOp(_) => true
  }

  /** Every operation of the run is in scope when it is performed. */
  ghost predicate RunInScope(rules: Rules, db: Db, steps: seq<Step>)
    decreases |steps|
  {
    steps != [] ==>
      && (steps[0].Do? && steps[0].id in db.live ==> OpInScope(rules, db.live[steps[0].id].txn, steps[0].op))
      && RunInScope(rules, Next(rules, db, steps[0]), steps[1..])
  }

  // ── the invariant ────────────────────────────────────────────────────────

  ghost predicate LiveSound(rules: Rules, s: Store, l: Live) {
    Local(rules, l.txn) && Tracked(rules, s, l)
  }

  ghost predicate Inv(rules: Rules, db: Db) {
    Sound(rules, db.store) && forall id :: id in db.live ==> LiveSound(rules, db.store, db.live[id])
  }

  lemma OpKeepsLocal(rules: Rules, s: Store, l: Live, op: Op)
    requires rules.WellFormed() && Local(rules, l.txn) && OpInScope(rules, l.txn, op)
    ensures Local(rules, Performed(rules, s, l, op).txn)
  {
    var x := l.txn;
    match op
    case InsertOp(table, row, explicit) => InsertKeeps(rules, x, table, row, explicit);
    case UpdateOp(r, patch) => UpdatedByKeeps(rules, x, r, patch, r in s.rows && RowKey(r) !in l.since);
    case UpsertOp(table, values, patch, refresh) => UpsertKeeps(rules, x, table, values, patch, refresh);
    case DeleteOp(r, plan) =>
      if rules.FastDeletes(r.table) {
        FastDeleteKeeps(rules, x, r, r in s.rows);
      } else {
        DeletedKeeps(rules, x, r, plan);
      }
    case TruncateOp(table) => TruncateKeeps(rules, x, table);
  }

  // ── operations leave the snapshot alone ──────────────────────────────────

  lemma {:induction false} NullsKeepSnapshot(rules: Rules, planned: Txn, x: Txn, sus: seq<SetNullUpdate>)
    ensures SetNullAll(rules, planned, x, sus).txn.snapshot == x.snapshot
    decreases |sus|
  {
    if sus != [] {
      var o, su := SetNullAll(rules, planned, x, sus[..|sus| - 1]), sus[|sus| - 1];
      NullsKeepSnapshot(rules, planned, x, sus[..|sus| - 1]);
      var was := Read(rules, planned, NulledRow(su));
      if o.Accepted? && was.Some? {
        var r, row := NulledRow(su), NullOut(was.value, su.columns);
        SetNullWrites(rules, o.txn, r, row);
      }
    }
  }

  lemma UpsertKeepsSnapshot(rules: Rules, x: Txn, table: string, values: Row, patch: Option<Row>, refresh: Row)
    ensures Upserted(rules, x, table, values, patch, refresh).txn.snapshot == x.snapshot
  {
    var r := RowRef(table, rules.pk(table, values));
    NewKeepsSnapshot(rules, x, r, values, patch);
    if patch.Some? && Lookup(rules, x, r).Some? {
      var was, merged := Lookup(rules, x, r).value, values + patch.value + refresh;
      var q := RowRef(table, rules.pk(table, merged));
      UpsertStages(rules, x, r, q, merged, UpsertStores(x.snapshot, r, q, merged, was, patch.value), was);
    }
  }

  lemma NewKeepsSnapshot(rules: Rules, x: Txn, r: RowRef, values: Row, patch: Option<Row>)
    ensures UpsertNew(rules, x, r, values, patch).snapshot == x.snapshot
  {
    InsertStages(rules, x, r, values, true);
  }

  lemma DeleteKeepsSnapshot(rules: Rules, x: Txn, r: RowRef, plan: DeletePlan)
    ensures Deleted(rules, x, r, plan).txn.snapshot == x.snapshot
  {
    NullsKeepSnapshot(rules, x, x, plan.setNull);
    CascadeEffect(rules, x, SetNullAll(rules, x, x, plan.setNull).txn, plan.delete, r.table);
  }

  lemma UpdateKeepsSnapshot(rules: Rules, x: Txn, r: RowRef, patch: Row, current: bool)
    ensures UpdatedBy(rules, x, r, patch, current).txn.snapshot == x.snapshot
  {
    var was := Lookup(rules, x, r);
    if was.Some? {
      var values := was.value + patch;
      WithGuardsKeepsRest(rules, x, RowRef(r.table, rules.pk(r.table, values)), values, was);
    }
  }

  lemma OpKeepsSnapshot(rules: Rules, s: Store, l: Live, op: Op)
    ensures Performed(rules, s, l, op).txn.snapshot == l.txn.snapshot
  {
    match op
    case InsertOp(table, row, explicit) =>
      InsertStages(rules, l.txn, RowRef(table, rules.pk(table, row)), row, explicit);
    case UpdateOp(r, patch) => UpdateKeepsSnapshot(rules, l.txn, r, patch, r in s.rows && RowKey(r) !in l.since);
    case UpsertOp(table, values, patch, refresh) => UpsertKeepsSnapshot(rules, l.txn, table, values, patch, refresh);
    case DeleteOp(r, plan) => DeleteKeepsSnapshot(rules, l.txn, r, plan);
    case TruncateOp(_) =>
  }

  // ── every step keeps the invariant ───────────────────────────────────────

  lemma OpenedFaithful(rules: Rules, s: Store)
    requires UnderPk(rules, s) && AllValid(rules, s)
    ensures Faithful(rules, Opened(s))
  {
    OpenedView(s);
    forall r: RowRef ensures FaithfulAt(rules, Opened(s), r) {
      InTable(s, r.table, r.pk);
    }
  }

  lemma OpenedIsSound(rules: Rules, s: Store)
    requires Sound(rules, s)
    ensures LiveSound(rules, s, Live(Opened(s), {}))
  {
    var l := Live(Opened(s), {});
    OpenedView(s);
    OpenedFaithful(rules, s);
    assert Tracked(rules, s, l) by {
      SnapshotTracked(rules, s, l);
    }
  }

  lemma SnapshotTracked(rules: Rules, s: Store, l: Live)
    requires l.txn.snapshot == s
    ensures Tracked(rules, s, l)
  {
  }

  lemma DoKeepsInv(rules: Rules, db: Db, id: nat, op: Op)
    requires rules.WellFormed() && Inv(rules, db) && id in db.live && OpInScope(rules, db.live[id].txn, op)
    ensures Inv(rules, Next(rules, db, Do(id, op)))
  {
    var l := db.live[id];
    assert LiveSound(rules, db.store, l);
    OpKeepsLocal(rules, db.store, l, op);
    OpKeepsSnapshot(rules, db.store, l, op);
    var m := l.(txn := Performed(rules, db.store, l, op).txn);
    assert Tracked(rules, db.store, m) by {
      SameSnapshotTracked(rules, db.store, l, m);
    }
  }

  lemma SameSnapshotTracked(rules: Rules, s: Store, l: Live, m: Live)
    requires Tracked(rules, s, l) && m.since == l.since && m.txn.snapshot == l.txn.snapshot
    ensures Tracked(rules, s, m)
  {
  }

  lemma CommitKeepsInv(rules: Rules, db: Db, id: nat)
    requires Inv(rules, db) && id in db.live && !Conflicts(db.live[id])
    ensures Inv(rules, AfterCommit(db, id, db.live[id].txn.writes))
  {
    var l := db.live[id];
    assert LiveSound(rules, db.store, l);
    var after := AfterCommit(db, id, l.txn.writes);
    CommitKeepsSound(rules, db.store, l);
    forall i | i in after.live ensures LiveSound(rules, after.store, after.live[i]) {
      assert LiveSound(rules, db.store, db.live[i]);
      CommitKeepsTracked(rules, db.store, l, db.live[i]);
    }
  }

  lemma NextKeepsInv(rules: Rules, db: Db, step: Step)
    requires rules.WellFormed() && Inv(rules, db)
    requires step.Do? && step.id in db.live ==> OpInScope(rules, db.live[step.id].txn, step.op)
    ensures Inv(rules, Next(rules, db, step))
  {
    match step
    case Begin(id) =>
      if id !in db.live {
        OpenedIsSound(rules, db.store);
      }
    case Do(id, op) =>
      if id in db.live {
        DoKeepsInv(rules, db, id, op);
      }
    case TryCommit(id) =>
      if id in db.live && !Conflicts(db.live[id]) {
        CommitKeepsInv(rules, db, id);
      }
    case Rollback(_) =>
  }

  // ── main results ─────────────────────────────────────────────────────────

  lemma {:induction false} RunKeepsInv(rules: Rules, db: Db, steps: seq<Step>)
    requires rules.WellFormed() && Inv(rules, db) && RunInScope(rules, db, steps)
    ensures Inv(rules, Run(rules, db, steps))
    decreases |steps|
  {
    if steps != [] {
      NextKeepsInv(rules, db, steps[0]);
      RunKeepsInv(rules, Next(rules, db, steps[0]), steps[1..]);
    }
  }

  const EMPTY_DB := Db(EMPTY_STORE, map[])

  /** From an empty database, after any interleaving of begins, operations, commits and
      rollbacks, the committed rows have their parents and own their guards. */
  lemma ReachableIsSound(rules: Rules, steps: seq<Step>)
    requires rules.WellFormed() && RunInScope(rules, EMPTY_DB, steps)
    ensures Sound(rules, Run(rules, EMPTY_DB, steps).store)
  {
    RunKeepsInv(rules, EMPTY_DB, steps);
  }

  /** Every open transaction of a run is sound by itself, which is what the statements about
      single transactions ask for. */
  lemma OpenIsLocal(rules: Rules, steps: seq<Step>, id: nat)
    requires rules.WellFormed() && RunInScope(rules, EMPTY_DB, steps) && id in Run(rules, EMPTY_DB, steps).live
    ensures Local(rules, Run(rules, EMPTY_DB, steps).live[id].txn)
  {
    RunKeepsInv(rules, EMPTY_DB, steps);
    assert LiveSound(rules, Run(rules, EMPTY_DB, steps).store, Run(rules, EMPTY_DB, steps).live[id]);
  }

  /** Two rows agree on a unique constraint: equal, non-null values in all of its columns. */
  predicate AgreeOn(t: Table, uq: UniqueConstraint, a: Row, b: Row) {
    forall c :: c in uq.columns ==> t.HasCol(c) && Get(a, c) == Get(b, c) && Get(a, c) != Null
  }

  lemma {:induction false} AgreeingKeys(t: Table, columns: seq<string>, a: Row, b: Row)
    requires forall c :: c in columns ==> t.HasCol(c) && Get(a, c) == Get(b, c) && Get(a, c) != Null
    ensures UniqueComponents(t, columns, a).Some? && UniqueComponents(t, columns, a) == UniqueComponents(t, columns, b)
  {
    if columns != [] {
      AgreeingKeys(t, columns[1..], a, b);
    }
  }

  /** The row's foreign-key cells are the primary-key cells of the parent row. */
  predicate PointsAt(parent: Table, fk: ForeignKey, row: Row, parentRow: Row) {
    && |fk.columns| == |parent.primaryKey|
    && forall k :: 0 <= k < |fk.columns| ==> Get(row, fk.columns[k]) == Get(parentRow, parent.primaryKey[k])
  }

  lemma SameComponent(col: Column, a: Value, b: Value)
    requires Fits(a, col.storageType) && Fits(b, col.storageType) && KeyComponentOf(col, a) == KeyComponentOf(col, b)
    ensures a == b
  {
  }

  lemma SameComponents(parent: Table, fk: ForeignKey, row: Row, parentRow: Row, k: nat)
    requires FkTyped(parent, fk, row) && PkTyped(parent, parentRow) && k < |fk.columns|
    requires ParentComponents(parent, fk, row) == PkComponents(parent, parentRow)
    ensures Get(row, fk.columns[k]) == Get(parentRow, parent.primaryKey[k])
  {
    var c := parent.primaryKey[k];
    assert c in parent.primaryKey;
    assert ParentComponents(parent, fk, row)[k] == PkComponents(parent, parentRow)[k];
    SameComponent(parent.Col(c).value, Get(row, fk.columns[k]), Get(parentRow, c));
  }

  lemma EncodedPointsAt(parent: Table, fk: ForeignKey, row: Row, parentRow: Row)
    requires FkTyped(parent, fk, row) && PkTyped(parent, parentRow)
    requires Keys.EncodePk(ParentComponents(parent, fk, row)) == Keys.EncodePk(PkComponents(parent, parentRow))
    ensures PointsAt(parent, fk, row, parentRow)
  {
    Keys.EncodePkInjective(ParentComponents(parent, fk, row), PkComponents(parent, parentRow));
    forall k | 0 <= k < |fk.columns| ensures Get(row, fk.columns[k]) == Get(parentRow, parent.primaryKey[k]) {
      SameComponents(parent, fk, row, parentRow, k);
    }
  }

  /** The row that a committed row points at, on the cells. */
  lemma CommittedParent(tables: seq<Table>, valid: (string, Row) -> bool, s: Store, r: RowRef, t: Table, fk: ForeignKey, parent: Table)
    returns (q: RowRef)
    requires InScope(tables, valid) && Sound(KitRules(tables, valid), s)
    requires r in s.rows && FindTable(tables, r.table) == Some(t) && fk in t.foreignKeys
    requires FindTable(tables, fk.referencesTable) == Some(parent)
    requires forall c :: c in fk.columns ==> Get(s.rows[r], c) != Null
    ensures q in s.rows && q.table == fk.referencesTable && PointsAt(parent, fk, s.rows[r], s.rows[q])
  {
    var rules := KitRules(tables, valid);
    q := RowRef(fk.referencesTable, ParentKey(tables, fk, s.rows[r]).value);
    assert rules.References(r.table, s.rows[r], fk, q);
    assert rules.pk(q.table, s.rows[q]) == q.pk && valid(t.name, s.rows[r]) && valid(parent.name, s.rows[q]);
    EncodedPointsAt(parent, fk, s.rows[r], s.rows[q]);
  }

  lemma CommittedParents(tables: seq<Table>, valid: (string, Row) -> bool, s: Store)
    requires InScope(tables, valid) && Sound(KitRules(tables, valid), s)
    ensures forall r, t, fk, parent ::
              r in s.rows && FindTable(tables, r.table) == Some(t) && fk in t.foreignKeys
              && FindTable(tables, fk.referencesTable) == Some(parent)
              && (forall c :: c in fk.columns ==> Get(s.rows[r], c) != Null) ==>
                exists q :: q in s.rows && q.table == fk.referencesTable && PointsAt(parent, fk, s.rows[r], s.rows[q])
  {
    forall r, t, fk, parent |
        r in s.rows && FindTable(tables, r.table) == Some(t) && fk in t.foreignKeys
        && FindTable(tables, fk.referencesTable) == Some(parent)
        && (forall c :: c in fk.columns ==> Get(s.rows[r], c) != Null)
      ensures exists q :: q in s.rows && q.table == fk.referencesTable && PointsAt(parent, fk, s.rows[r], s.rows[q])
    {
      var q := CommittedParent(tables, valid, s, r, t, fk, parent);
    }
  }

  /** Two rows of a table that agree on the primary key or on a unique constraint are one. */
  lemma CommittedOnce(tables: seq<Table>, valid: (string, Row) -> bool, s: Store)
    requires InScope(tables, valid) && KitRules(tables, valid).WellFormed() && Sound(KitRules(tables, valid), s)
    ensures forall r, q, t ::
              r in s.rows && q in s.rows && r.table == q.table && FindTable(tables, r.table) == Some(t)
              && PkMatches(t, s.rows[r], s.rows[q]) ==>
                r == q
    ensures forall r, q, t, uq ::
              r in s.rows && q in s.rows && r.table == q.table && FindTable(tables, r.table) == Some(t)
              && uq in t.uniqueConstraints && AgreeOn(t, uq, s.rows[r], s.rows[q]) ==>
                r == q
  {
    var rules := KitRules(tables, valid);
    forall r, q, t |
        r in s.rows && q in s.rows && r.table == q.table && FindTable(tables, r.table) == Some(t) && PkMatches(t, s.rows[r], s.rows[q])
      ensures r == q
    {
      SamePkIsSameRow(tables, valid, s, r, q, t);
    }
    forall r, q, t, uq |
        r in s.rows && q in s.rows && r.table == q.table && FindTable(tables, r.table) == Some(t)
        && uq in t.uniqueConstraints && AgreeOn(t, uq, s.rows[r], s.rows[q])
      ensures r == q
    {
      AgreeingKeys(t, uq.columns, s.rows[r], s.rows[q]);
      if r != q {
        NoDuplicates(rules, s, r, q, uq);
      }
    }
  }

  lemma SamePkIsSameRow(tables: seq<Table>, valid: (string, Row) -> bool, s: Store, r: RowRef, q: RowRef, t: Table)
    requires Sound(KitRules(tables, valid), s) && r in s.rows && q in s.rows && r.table == q.table
    requires FindTable(tables, r.table) == Some(t) && PkMatches(t, s.rows[r], s.rows[q])
    ensures r == q
  {
    var rules := KitRules(tables, valid);
    assert PkComponents(t, s.rows[r]) == PkComponents(t, s.rows[q]);
    assert rules.pk(r.table, s.rows[r]) == r.pk && rules.pk(q.table, s.rows[q]) == q.pk;
  }

  /** The promise of the module, on the schema's own columns: in any reachable committed
      state every row is valid; a row with no null in a foreign key has a parent whose primary
      key holds the same values; and no two rows of a table agree on their primary key or on a
      unique constraint. */
  lemma NoOrphansNoDuplicates(tables: seq<Table>, valid: (string, Row) -> bool, steps: seq<Step>)
    requires InScope(tables, valid) && RunInScope(KitRules(tables, valid), EMPTY_DB, steps)
    ensures var rows := Run(KitRules(tables, valid), EMPTY_DB, steps).store.rows;
            && (forall r :: r in rows ==> valid(r.table, rows[r]))
            && (forall r, t, fk, parent ::
                  r in rows && FindTable(tables, r.table) == Some(t) && fk in t.foreignKeys
                  && FindTable(tables, fk.referencesTable) == Some(parent)
                  && (forall c :: c in fk.columns ==> Get(rows[r], c) != Null) ==>
                    exists q :: q in rows && q.table == fk.referencesTable && PointsAt(parent, fk, rows[r], rows[q]))
            && (forall r, q, t ::
                  r in rows && q in rows && r.table == q.table && FindTable(tables, r.table) == Some(t)
                  && PkMatches(t, rows[r], rows[q]) ==>
                    r == q)
            && (forall r, q, t, uq ::
                  r in rows && q in rows && r.table == q.table && FindTable(tables, r.table) == Some(t)
                  && uq in t.uniqueConstraints && AgreeOn(t, uq, rows[r], rows[q]) ==>
                    r == q)
  {
    var rules := KitRules(tables, valid);
    KitRulesWellFormed(tables, valid);
    ReachableIsSound(rules, steps);
    var s := Run(rules, EMPTY_DB, steps).store;
    CommittedParents(tables, valid, s);
    CommittedOnce(tables, valid, s);
  }
}
