/** The writing operations of a kit transaction, as functions from transaction to
    transaction. */
module Operations {
  import opened Strings
  import opened Values
  import opened Schema
  import opened Overlay
  import opened Planner
  import opened Rules
  import opened Guards
  import Keys

  datatype KitError =
    | UnknownTable
    | NotFound
    | Invalid
    | Duplicate(constraint: string)
    | DuplicatePk
    | MissingParent(constraint: string)
    | Restricted
    | AfterWrites
    | Unplanned

  /** An operation that fails leaves what it had staged before the failure. */
  datatype Answer = Accepted(txn: Txn) | Rejected(error: KitError, txn: Txn)

  // ── reading ──────────────────────────────────────────────────────────────

  /** A row among those a scan of its table finds. */
  function Read(rules: Rules, x: Txn, r: RowRef): Option<Row> {
    var rows := Reads(rules, x, r.table);
    if r.pk in rows then Some(rows[r.pk]) else None
  }

  /** A lookup by primary key scans a table with staged operations, and asks the engine's
      indexes otherwise. */
  predicate Answered(rules: Rules, x: Txn, table: string) {
    HasStagedFor(x.staged, table) || rules.Answers(table)
  }

  /** `get_by_pk_internal` */
  function Lookup(rules: Rules, x: Txn, r: RowRef): Option<Row> {
    if Answered(rules, x, r.table) then Read(rules, x, r) else None
  }

  /** `parent_exists(..) || staged_row_exists(..)` */
  predicate Exists(rules: Rules, x: Txn, r: RowRef) {
    Lookup(rules, x, r).Some? || StagedRowExists(KeyedAs(rules, r.table), x.staged, r.pk)
  }

  // ── checks ───────────────────────────────────────────────────────────────

  /** `assert_key_free`: committed and staged guards of the key are the row's own. */
  predicate KeyFree(x: Txn, k: string, r: RowRef) {
    && (k in x.snapshot.owners ==> x.snapshot.owners[k].row == r)
    && (forall s :: s in x.stagedUnique && s.key == k ==> s.owner == r)
  }

  function OldKey(rules: Rules, table: string, uq: UniqueConstraint, was: Option<Row>): Option<string> {
    match was case None => None case Some(row) => rules.key(table, uq, row)
  }

  /** A key the write has to check and reserve: present, and not the one the row had. */
  function GainedKey(rules: Rules, table: string, uq: UniqueConstraint, row: Row, was: Option<Row>): Option<string> {
    var k := rules.key(table, uq, row);
    if k == OldKey(rules, table, uq, was) then None else k
  }

  /** `check_unique_constraints`: the first constraint whose key is taken. */
  function Taken(rules: Rules, x: Txn, uqs: seq<UniqueConstraint>, r: RowRef, row: Row, was: Option<Row>): Option<string> {
    if uqs == [] then None
    else
      var k := GainedKey(rules, r.table, uqs[0], row, was);
      if k.Some? && !KeyFree(x, k.value, r) then Some(uqs[0].name) else Taken(rules, x, uqs[1..], r, row, was)
  }

  /** `check_pk`: an explicit single-column key is looked up, an explicit composite key must
      have no guard; an assigned key is not checked. */
  predicate PkTaken(rules: Rules, x: Txn, r: RowRef, row: Row, explicit: bool) {
    explicit
    && if rules.SingleKey(r.table) then Exists(rules, x, r)
       else
         rules.PkGuard(r.table).Some?
         && match rules.key(r.table, rules.PkGuard(r.table).value, row)
            case None => false
            case Some(k) => k in x.snapshot.owners || exists s :: s in x.stagedUnique && s.key == k
  }

  /** `check_foreign_keys`: the first foreign key whose parent does not exist. */
  function Orphaned(rules: Rules, x: Txn, fks: seq<ForeignKey>, row: Row): Option<string> {
    if fks == [] then None
    else
      match rules.parent(fks[0], row)
      case None => Orphaned(rules, x, fks[1..], row)
      case Some(q) =>
        if Exists(rules, x, RowRef(fks[0].referencesTable, q)) then Orphaned(rules, x, fks[1..], row)
        else Some(fks[0].name)
  }

  // ── guard writes ─────────────────────────────────────────────────────────

  function WithoutKey(entries: seq<StagedUnique>, k: string): seq<StagedUnique> {
    if entries == [] then []
    else (if entries[0].key == k then [] else [entries[0]]) + WithoutKey(entries[1..], k)
  }

  function WithoutOwner(entries: seq<StagedUnique>, r: RowRef): seq<StagedUnique> {
    if entries == [] then []
    else (if entries[0].owner == r then [] else [entries[0]]) + WithoutOwner(entries[1..], r)
  }

  function WithoutTable(entries: seq<StagedUnique>, table: string): seq<StagedUnique> {
    if entries == [] then []
    else (if entries[0].owner.table == table then [] else [entries[0]]) + WithoutTable(entries[1..], table)
  }

  /** `put_unique_guard` */
  function PutKey(x: Txn, c: string, k: string, r: RowRef): Txn {
    x.(writes := x.writes.(owners := x.writes.owners[k := Owner(c, r)]),
       stagedUnique := x.stagedUnique + [StagedUnique(k, r)])
  }

  /** `delete_unique_guard` */
  function DropKey(x: Txn, k: string): Txn {
    x.(writes := x.writes.(ownerDels := x.writes.ownerDels + (set j | j in x.snapshot.owners && j == k)),
       stagedUnique := WithoutKey(x.stagedUnique, k))
  }

  function ReserveOne(rules: Rules, x: Txn, uq: UniqueConstraint, r: RowRef, row: Row, was: Option<Row>): Txn {
    var k, lost := rules.key(r.table, uq, row), OldKey(rules, r.table, uq, was);
    if k == lost then x
    else
      var y := if k.Some? then PutKey(x, uq.name, k.value, r) else x;
      if lost.Some? then DropKey(y, lost.value) else y
  }

  /** `reserve_unique_guards` */
  function Reserve(rules: Rules, x: Txn, uqs: seq<UniqueConstraint>, r: RowRef, row: Row, was: Option<Row>): Txn {
    if uqs == [] then x
    else ReserveOne(rules, Reserve(rules, x, uqs[..|uqs| - 1], r, row, was), uqs[|uqs| - 1], r, row, was)
  }

  /** `reserve_pk_guard` */
  function ReservePk(rules: Rules, x: Txn, r: RowRef, row: Row, explicit: bool): Txn {
    if rules.PkGuard(r.table).Some? && explicit then ReserveOne(rules, x, rules.PkGuard(r.table).value, r, row, None)
    else x
  }

  /** A guard constraint of the table, as `delete_unique_guards_for_owner` sees it. */
  predicate OfTable(rules: Rules, table: string, c: string) {
    c == "__pk_" + table || exists uq :: uq in rules.Declared(table) && uq.name == c
  }

  function OwnedKeys(rules: Rules, s: Store, r: RowRef): set<string> {
    set k | k in s.owners && s.owners[k].row == r && OfTable(rules, r.table, s.owners[k].constraint)
  }

  /** `delete_unique_guards_for_owner` */
  function DropOwned(rules: Rules, x: Txn, r: RowRef): Txn {
    x.(writes := x.writes.(ownerDels := x.writes.ownerDels + OwnedKeys(rules, x.snapshot, r)),
       stagedUnique := WithoutOwner(x.stagedUnique, r))
  }

  /** `touch_row_guard`: rewrite the guard row with the next version, once. */
  function Touch(x: Txn, g: RowRef): Txn {
    if g in x.touched then x
    else
      var version := if g in x.snapshot.guards then x.snapshot.guards[g] + 1 else 1;
      x.(writes := x.writes.(guards := x.writes.guards[g := version],
                             guardDels := x.writes.guardDels + (set h | h in x.snapshot.guards && h == g)),
         touched := x.touched + {g})
  }

  /** `touch_foreign_key_guards` */
  function TouchParents(rules: Rules, x: Txn, fks: seq<ForeignKey>, row: Row): Txn {
    if fks == [] then x
    else
      var y, fk := TouchParents(rules, x, fks[..|fks| - 1], row), fks[|fks| - 1];
      match rules.parent(fk, row)
      case None => y
      case Some(q) => Touch(y, RowRef(fk.referencesTable, q))
  }

  // ── row writes ───────────────────────────────────────────────────────────

  function PutRow(x: Txn, r: RowRef, row: Row): Txn {
    x.(writes := x.writes.(rows := x.writes.rows[r := row]))
  }

  /** `core.delete`: the row id names the version the snapshot has. */
  function DropRow(x: Txn, r: RowRef): Txn {
    x.(writes := x.writes.(rowDels := x.writes.rowDels + (set q | q in x.snapshot.rows && q == r)))
  }

  function Stage(x: Txn, op: StagedOp): Txn {
    x.(staged := x.staged + [op])
  }

  // ── operations ───────────────────────────────────────────────────────────

  /** The checks shared by the writes of one row. */
  function Refusal(rules: Rules, x: Txn, r: RowRef, row: Row, was: Option<Row>): Option<KitError> {
    var taken := Taken(rules, x, rules.Declared(r.table), r, row, was);
    var orphaned := Orphaned(rules, x, rules.ForeignKeys(r.table), row);
    if taken.Some? then Some(Duplicate(taken.value))
    else if orphaned.Some? then Some(MissingParent(orphaned.value))
    else None
  }

  /** The guards of a new or changed row. */
  function WithGuards(rules: Rules, x: Txn, r: RowRef, row: Row, was: Option<Row>): Txn {
    TouchParents(rules, Reserve(rules, x, rules.Declared(r.table), r, row, was), rules.ForeignKeys(r.table), row)
  }

  /** `do_insert` of a row with its defaults applied. */
  function Inserted(rules: Rules, x: Txn, table: string, row: Row, explicit: bool): Answer {
    var r := RowRef(table, rules.pk(table, row));
    if !rules.Known(table) then Rejected(UnknownTable, x)
    else if !rules.valid(table, row) then Rejected(Invalid, x)
    else
      var taken := Taken(rules, x, rules.Declared(table), r, row, None);
      if taken.Some? then Rejected(Duplicate(taken.value), x)
      else if PkTaken(rules, x, r, row, explicit) then Rejected(DuplicatePk, x)
      else
        var orphaned := Orphaned(rules, x, rules.ForeignKeys(table), row);
        if orphaned.Some? then Rejected(MissingParent(orphaned.value), x)
        else Accepted(InsertRow(rules, x, r, row, explicit))
  }

  function InsertRow(rules: Rules, x: Txn, r: RowRef, row: Row, explicit: bool): Txn {
    Stage(PutRow(InsertGuards(rules, x, r, row, explicit), r, row), Insert(r.table, row))
  }

  /** The guards of a row taken for new. */
  function InsertGuards(rules: Rules, x: Txn, r: RowRef, row: Row, explicit: bool): Txn {
    var reserved := ReservePk(rules, Reserve(rules, x, rules.Declared(r.table), r, row, None), r, row, explicit);
    TouchParents(rules, reserved, rules.ForeignKeys(r.table), row)
  }

  /** The full path of `update`; `patch` includes the timestamps an update stamps. */
  function Updated(rules: Rules, x: Txn, r: RowRef, patch: Row): Answer {
    if !rules.Known(r.table) then Rejected(UnknownTable, x)
    else
      match Lookup(rules, x, r)
      case None => Rejected(NotFound, x)
      case Some(was) => Replaced(rules, x, r, was, was + patch)
  }

  function Replaced(rules: Rules, x: Txn, r: RowRef, was: Row, values: Row): Answer {
    var q := RowRef(r.table, rules.pk(r.table, values));
    if !rules.valid(r.table, values) then Rejected(Invalid, x)
    else
      match Refusal(rules, x, q, values, Some(was))
      case Some(e) => Rejected(e, x)
      case None => Accepted(UpdateRow(rules, x, r, q, values, values, was))
  }

  /** Guards follow `values`; the engine stores `stored` in the place of `r`. */
  function UpdateRow(rules: Rules, x: Txn, r: RowRef, q: RowRef, values: Row, stored: Row, was: Row): Txn {
    Stage(PutRow(DropRow(WithGuards(rules, x, q, values, Some(was)), r), q, stored), Update(r.table, r.pk, 0, values))
  }

  /** `update_fast`: the snapshot's row with the patch merged in, put without any check and
      without touching a guard. `current` says that the version the index finds now is the
      one the snapshot has. */
  function UpdatedFast(rules: Rules, x: Txn, r: RowRef, patch: Row, current: bool): Answer {
    if !current || r !in x.snapshot.rows then Rejected(NotFound, x)
    else
      var stored := x.snapshot.rows[r] + patch;
      Accepted(FastRow(x, r, RowRef(r.table, rules.pk(r.table, stored)), stored))
  }

  /** The row is put under the key it has now. If that is another one the old row stays. */
  function FastRow(x: Txn, r: RowRef, q: RowRef, stored: Row): Txn {
    Stage(PutRow(x, q, stored), Update(r.table, r.pk, 0, stored))
  }

  /** `update` */
  function UpdatedBy(rules: Rules, x: Txn, r: RowRef, patch: Row, current: bool): Answer {
    if rules.FastUpdates(r.table) then UpdatedFast(rules, x, r, patch, current) else Updated(rules, x, r, patch)
  }

  /** `upsert` of a row with its defaults applied: `patch` is none for DO NOTHING, and
      `refresh` holds the timestamps an update stamps. */
  function Upserted(rules: Rules, x: Txn, table: string, values: Row, patch: Option<Row>, refresh: Row): Answer {
    var r := RowRef(table, rules.pk(table, values));
    if !rules.Known(table) then Rejected(UnknownTable, x)
    else if !rules.valid(table, values) then Rejected(Invalid, x)
    else
      match (Lookup(rules, x, r), patch)
      case (Some(_), None) => Accepted(x)
      case (Some(was), Some(p)) =>
        var merged := values + p + refresh;
        var q := RowRef(table, rules.pk(table, merged));
        if !rules.valid(table, merged) then Rejected(Invalid, x)
        else
          (match Refusal(rules, x, q, merged, Some(was))
           case Some(e) => Rejected(e, x)
           case None => Accepted(UpsertRow(rules, x, r, q, merged, UpsertStores(x.snapshot, r, q, merged, was, p), was)))
      case (None, _) =>
        match Refusal(rules, x, r, values, None)
        case Some(e) => Rejected(e, x)
        case None => Accepted(UpsertNew(rules, x, r, values, patch))
  }

  /** A row the lookup did not find. The engine's own upsert may find it all the same: then it
      does nothing, or merges the patch into what it has. */
  function UpsertNew(rules: Rules, x: Txn, r: RowRef, values: Row, patch: Option<Row>): Txn {
    var guarded := InsertGuards(rules, x, r, values, true);
    var put :=
      if r !in x.snapshot.rows then PutRow(guarded, r, values)
      else if patch.None? then guarded
      else PutRow(guarded, r, x.snapshot.rows[r] + patch.value);
    Stage(put, Insert(r.table, values))
  }

  /** What the engine's own upsert stores: it goes by the key of the merged row, and merges the
      patch into the row it finds there. */
  function UpsertStores(s: Store, r: RowRef, q: RowRef, merged: Row, was: Row, patch: Row): Row {
    if q == r then was + patch else if q in s.rows then s.rows[q] + patch else merged
  }

  /** Under another key than the old row's, the old row stays. */
  function UpsertRow(rules: Rules, x: Txn, r: RowRef, q: RowRef, merged: Row, stored: Row, was: Row): Txn {
    Stage(PutRow(WithGuards(rules, x, q, merged, Some(was)), q, stored), Update(r.table, r.pk, 0, merged))
  }

  // ── delete ───────────────────────────────────────────────────────────────

  /** `apply_set_null` on the row as it was when the delete was planned. */
  function SetNullOne(rules: Rules, planned: Txn, x: Txn, su: SetNullUpdate): Answer {
    var r := RowRef(su.table, su.pk);
    match Read(rules, planned, r)
    case None => Accepted(x)
    case Some(was) =>
      var row := NullOut(was, su.columns);
      if exists c :: c in su.columns && !rules.Nullable(su.table, c) then Rejected(Restricted, x)
      else if !rules.valid(su.table, row) then Rejected(Invalid, x)
      else Accepted(SetNullRow(rules, x, r, row))
  }

  function SetNullRow(rules: Rules, x: Txn, r: RowRef, row: Row): Txn {
    var cleared := PutRow(DropRow(DropOwned(rules, x, r), r), r, row);
    var reserved := ReservePk(rules, Reserve(rules, cleared, rules.Declared(r.table), r, row, None), r, row, true);
    Stage(reserved, Update(r.table, r.pk, 0, row))
  }

  function SetNullAll(rules: Rules, planned: Txn, x: Txn, sus: seq<SetNullUpdate>): Answer {
    if sus == [] then Accepted(x)
    else
      match SetNullAll(rules, planned, x, sus[..|sus| - 1])
      case Rejected(e, y) => Rejected(e, y)
      case Accepted(y) => SetNullOne(rules, planned, y, sus[|sus| - 1])
  }

  function DeleteRow(rules: Rules, x: Txn, r: RowRef): Txn {
    Stage(DropRow(DropOwned(rules, x, r), r), Delete(r.table, r.pk))
  }

  /** The cascade deletes; rows of the target's own table are left to the caller. */
  function CascadeAll(rules: Rules, planned: Txn, x: Txn, rows: seq<RowRef>, table: string): Txn {
    if rows == [] then x
    else
      var y, r := CascadeAll(rules, planned, x, rows[..|rows| - 1], table), rows[|rows| - 1];
      if r.table == table || Read(rules, planned, r).None? then y else DeleteRow(rules, y, r)
  }

  /** The full path of `delete`, as planned. */
  function Deleted(rules: Rules, x: Txn, r: RowRef, plan: DeletePlan): Answer {
    if !rules.Known(r.table) then Rejected(UnknownTable, x)
    else if Lookup(rules, x, r).None? then Rejected(NotFound, x)
    else if plan.restricted != [] then Rejected(Restricted, x)
    else
      match SetNullAll(rules, x, x, plan.setNull)
      case Rejected(e, y) => Rejected(e, y)
      case Accepted(y) => Accepted(DeleteTarget(rules, CascadeAll(rules, x, y, plan.delete, r.table), r))
  }

  function DeleteTarget(rules: Rules, x: Txn, r: RowRef): Txn {
    Stage(DropRow(Touch(DropOwned(rules, x, r), r), r), Delete(r.table, r.pk))
  }

  /** The fast path of `delete`: the version the index finds now is deleted, whether or not
      the snapshot has it. */
  function DeletedFast(x: Txn, r: RowRef, found: bool): Answer {
    if !found then Rejected(NotFound, x) else Accepted(FastDrop(x, r))
  }

  function FastDrop(x: Txn, r: RowRef): Txn {
    Stage(x.(writes := x.writes.(rowDels := x.writes.rowDels + {r})), Delete(r.table, r.pk))
  }

  /** `delete` */
  function DeletedBy(rules: Rules, x: Txn, r: RowRef, plan: DeletePlan, found: bool): Answer {
    if rules.FastDeletes(r.table) then DeletedFast(x, r, found) else Deleted(rules, x, r, plan)
  }

  // ── truncate ─────────────────────────────────────────────────────────────

  function Truncated(rules: Rules, x: Txn, table: string): Answer {
    if !rules.Known(table) then Rejected(UnknownTable, x)
    else if DataStagedFor(x.staged, table) then Rejected(AfterWrites, x)
    else if rules.Inbound(table) then Rejected(Restricted, x)
    else Accepted(TruncateTable(x, table))
  }

  /** Every guard and row of the table that the snapshot has. */
  function TruncateTable(x: Txn, table: string): Txn {
    var w := x.writes.(
      ownerDels := x.writes.ownerDels + (set k | k in x.snapshot.owners && x.snapshot.owners[k].row.table == table),
      guardDels := x.writes.guardDels + (set g | g in x.snapshot.guards && g.table == table),
      rowDels := x.writes.rowDels + (set r | r in x.snapshot.rows && r.table == table));
    Stage(x.(writes := w,
             stagedUnique := WithoutTable(x.stagedUnique, table),
             touched := StillTouched(x.touched, table)),
          Truncate(table))
  }

  /** `touched_guards.retain(..)`: the guards are remembered under their encoded keys, and
      those that start with the table's name are forgotten. */
  function StillTouched(touched: set<RowRef>, table: string): set<RowRef> {
    set g | g in touched && !(table + [':'] <= Keys.EncodeRowGuardKey(g.table, g.pk))
  }

  /** The encoded keys start with `rg:`, so that of the names without a colon only `rg` forgets
      any guard, and it forgets all. */
  lemma ForgetsAllOrNone(touched: set<RowRef>, table: string)
    requires ':' !in table
    ensures StillTouched(touched, table) == if table == "rg" then {} else touched
  {
    forall g: RowRef ensures table + [':'] <= Keys.EncodeRowGuardKey(g.table, g.pk) <==> table == "rg" {
      var key := Keys.EncodeRowGuardKey(g.table, g.pk);
      assert key == "rg" + [':'] + key[3..];
      if table + [':'] <= key {
        assert key == table + [':'] + key[|table| + 1..];
        CutAtSeparator(table, key[|table| + 1..], "rg", key[3..], ':');
      }
    }
  }
}
