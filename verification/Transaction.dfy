/** The kit transaction as the object it is: its methods update the staged operations, the
    reserved keys, the touched guards and the engine's write set step by step. */
module Transaction {
  import opened Strings
  import opened Values
  import opened Schema
  import opened Overlay
  import opened Planner
  import opened Rules
  import opened Guards
  import opened Operations
  import opened Keeping
  import opened DeleteOps
  import opened Deletes
  import opened DeleteMeaning

  /** `staged_unique.retain(|s| s.encoded_key != key)` */
  method RetainOtherKeys(entries: seq<StagedUnique>, k: string) returns (kept: seq<StagedUnique>)
    ensures kept == WithoutKey(entries, k)
  {
    kept := [];
    var i := 0;
    assert entries[0..] == entries && [] + WithoutKey(entries, k) == WithoutKey(entries, k);
    while i < |entries|
      invariant 0 <= i <= |entries|
      invariant kept + WithoutKey(entries[i..], k) == WithoutKey(entries, k)
    {
      assert entries[i..][0] == entries[i] && entries[i..][1..] == entries[i + 1..];
      ghost var rest := WithoutKey(entries[i + 1..], k);
      if entries[i].key != k {
        assert kept + ([entries[i]] + rest) == kept + [entries[i]] + rest;
        kept := kept + [entries[i]];
      }
      i := i + 1;
    }
    assert kept + [] == kept;
  }

  class Transaction {
    const rules: Rules
    const snapshot: Store
    var writes: Writes
    var staged: seq<StagedOp>
    var stagedUnique: seq<StagedUnique>
    var touched: set<RowRef>

    ghost function Value(): Txn
      reads this
    {
      Txn(snapshot, writes, staged, stagedUnique, touched)
    }

    constructor (rules: Rules, snapshot: Store)
      ensures this.rules == rules && Value() == Opened(snapshot)
    {
      this.rules := rules;
      this.snapshot := snapshot;
      writes := NO_WRITES;
      staged := [];
      stagedUnique := [];
      touched := {};
    }

    // ── reads and checks ───────────────────────────────────────────────────

    /** `has_staged_for` */
    method HasStaged(table: string) returns (found: bool)
      ensures found == HasStagedFor(staged, table)
    {
      var i := 0;
      while i < |staged|
        invariant 0 <= i <= |staged|
        invariant forall op :: op in staged[..i] ==> op.table != table
      {
        if staged[i].table == table {
          assert staged[i] in staged;
          return true;
        }
        i := i + 1;
      }
      assert staged[..i] == staged;
      return false;
    }

    /** `get_by_pk_internal`: a scan with the staged operations replayed, if the table has
        any; otherwise what the engine's indexes answer. */
    method GetByPk(r: RowRef) returns (row: Option<Row>)
      ensures row == Lookup(rules, Value(), r)
    {
      var hasStaged := HasStaged(r.table);
      if !hasStaged && !rules.Answers(r.table) {
        return None;
      }
      var rows := ApplyAll(KeyedAs(rules, r.table), TableOf(snapshot, r.table), staged);
      if r.pk in rows {
        return Some(rows[r.pk]);
      }
      return None;
    }

    /** `staged_row_exists`: a replay of the staged operations of one table. */
    method StagedExists(r: RowRef) returns (exists_: bool)
      ensures exists_ == StagedRowExists(KeyedAs(rules, r.table), staged, r.pk)
    {
      var t := KeyedAs(rules, r.table);
      exists_ := false;
      var i := 0;
      while i < |staged|
        invariant 0 <= i <= |staged|
        invariant exists_ == StagedRowExists(t, staged[..i], r.pk)
      {
        assert staged[..i + 1][..i] == staged[..i];
        var op := staged[i];
        if op.table == r.table {
          match op
          case Insert(_, values) => if t.pk(values) == r.pk { exists_ := true; }
          case Update(_, _, _, values) => if t.pk(values) == r.pk { exists_ := true; }
          case Delete(_, pk) => if pk == r.pk { exists_ := false; }
          case Truncate(_) => exists_ := false;
        }
        i := i + 1;
      }
      assert staged[..|staged|] == staged;
    }

    method RowExists(r: RowRef) returns (found: bool)
      ensures found == Exists(rules, Value(), r)
    {
      var row := GetByPk(r);
      var second := StagedExists(r);
      return row.Some? || second;
    }

    method AssertKeyFree(k: string, r: RowRef) returns (free: bool)
      ensures free == KeyFree(Value(), k, r)
    {
      if k in snapshot.owners && snapshot.owners[k].row != r {
        return false;
      }
      var i := 0;
      while i < |stagedUnique|
        invariant 0 <= i <= |stagedUnique|
        invariant forall s :: s in stagedUnique[..i] && s.key == k ==> s.owner == r
      {
        if stagedUnique[i].key == k && stagedUnique[i].owner != r {
          assert stagedUnique[i] in stagedUnique;
          return false;
        }
        i := i + 1;
      }
      assert stagedUnique[..i] == stagedUnique;
      return true;
    }

    method CheckUniqueConstraints(r: RowRef, row: Row, was: Option<Row>) returns (taken: Option<string>)
      ensures taken == Taken(rules, Value(), rules.Declared(r.table), r, row, was)
    {
      var uqs := rules.Declared(r.table);
      var i := 0;
      assert uqs[0..] == uqs;
      while i < |uqs|
        invariant 0 <= i <= |uqs|
        invariant Taken(rules, Value(), uqs, r, row, was) == Taken(rules, Value(), uqs[i..], r, row, was)
      {
        assert uqs[i..][0] == uqs[i] && uqs[i..][1..] == uqs[i + 1..];
        var k := rules.key(r.table, uqs[i], row);
        if k.Some? && k != OldKey(rules, r.table, uqs[i], was) {
          var free := AssertKeyFree(k.value, r);
          if !free {
            return Some(uqs[i].name);
          }
        }
        i := i + 1;
      }
      return None;
    }

    method CheckPk(r: RowRef, row: Row, explicit: bool) returns (taken: bool)
      ensures taken == PkTaken(rules, Value(), r, row, explicit)
    {
      if !explicit {
        return false;
      }
      if rules.SingleKey(r.table) {
        taken := RowExists(r);
        return;
      }
      if rules.PkGuard(r.table).None? {
        return false;
      }
      var k := rules.key(r.table, rules.PkGuard(r.table).value, row);
      if k.None? {
        return false;
      }
      if k.value in snapshot.owners {
        return true;
      }
      return exists s :: s in stagedUnique && s.key == k.value;
    }

    method CheckForeignKeys(table: string, row: Row) returns (orphaned: Option<string>)
      ensures orphaned == Orphaned(rules, Value(), rules.ForeignKeys(table), row)
    {
      var fks := rules.ForeignKeys(table);
      var i := 0;
      assert fks[0..] == fks;
      while i < |fks|
        invariant 0 <= i <= |fks|
        invariant Orphaned(rules, Value(), fks, row) == Orphaned(rules, Value(), fks[i..], row)
      {
        assert fks[i..][0] == fks[i] && fks[i..][1..] == fks[i + 1..];
        var parent := rules.parent(fks[i], row);
        if parent.Some? {
          var found := RowExists(RowRef(fks[i].referencesTable, parent.value));
          if !found {
            return Some(fks[i].name);
          }
        }
        i := i + 1;
      }
      return None;
    }

    // ── guards ─────────────────────────────────────────────────────────────

    method PutUniqueGuard(constraint: string, k: string, r: RowRef)
      modifies this
      ensures Value() == PutKey(old(Value()), constraint, k, r)
    {
      writes := writes.(owners := writes.owners[k := Owner(constraint, r)]);
      stagedUnique := stagedUnique + [StagedUnique(k, r)];
    }

    method DeleteUniqueGuard(k: string)
      modifies this
      ensures Value() == DropKey(old(Value()), k)
    {
      writes := writes.(ownerDels := writes.ownerDels + set j | j in snapshot.owners && j == k);
      stagedUnique := RetainOtherKeys(stagedUnique, k);
    }

    method DeleteUniqueGuardsForOwner(r: RowRef)
      modifies this
      ensures Value() == DropOwned(rules, old(Value()), r)
    {
      writes := writes.(ownerDels := writes.ownerDels + OwnedKeys(rules, snapshot, r));
      stagedUnique := WithoutOwner(stagedUnique, r);
    }

    method ReserveOneGuard(uq: UniqueConstraint, r: RowRef, row: Row, was: Option<Row>)
      modifies this
      ensures Value() == ReserveOne(rules, old(Value()), uq, r, row, was)
    {
      var k, lost := rules.key(r.table, uq, row), OldKey(rules, r.table, uq, was);
      if k == lost {
        return;
      }
      if k.Some? {
        PutUniqueGuard(uq.name, k.value, r);
      }
      if lost.Some? {
        DeleteUniqueGuard(lost.value);
      }
    }

    method ReserveUniqueGuards(r: RowRef, row: Row, was: Option<Row>)
      modifies this
      ensures Value() == Reserve(rules, old(Value()), rules.Declared(r.table), r, row, was)
    {
      var uqs := rules.Declared(r.table);
      var i := 0;
      while i < |uqs|
        invariant 0 <= i <= |uqs|
        invariant Value() == Reserve(rules, old(Value()), uqs[..i], r, row, was)
      {
        assert uqs[..i + 1][..i] == uqs[..i];
        ReserveOneGuard(uqs[i], r, row, was);
        i := i + 1;
      }
      assert uqs[..|uqs|] == uqs;
    }

    method ReservePkGuard(r: RowRef, row: Row, explicit: bool)
      modifies this
      ensures Value() == ReservePk(rules, old(Value()), r, row, explicit)
    {
      if rules.PkGuard(r.table).Some? && explicit {
        ReserveOneGuard(rules.PkGuard(r.table).value, r, row, None);
      }
    }

    method TouchRowGuard(g: RowRef)
      modifies this
      ensures Value() == Touch(old(Value()), g)
    {
      if g in touched {
        return;
      }
      touched := touched + {g};
      var version := 1;
      if g in snapshot.guards {
        version := snapshot.guards[g] + 1;
      }
      writes := writes.(guards := writes.guards[g := version],
                        guardDels := writes.guardDels + set h | h in snapshot.guards && h == g);
    }

    method TouchForeignKeyGuards(table: string, row: Row)
      modifies this
      ensures Value() == TouchParents(rules, old(Value()), rules.ForeignKeys(table), row)
    {
      var fks := rules.ForeignKeys(table);
      var i := 0;
      while i < |fks|
        invariant 0 <= i <= |fks|
        invariant Value() == TouchParents(rules, old(Value()), fks[..i], row)
      {
        assert fks[..i + 1][..i] == fks[..i];
        var parent := rules.parent(fks[i], row);
        if parent.Some? {
          TouchRowGuard(RowRef(fks[i].referencesTable, parent.value));
        }
        i := i + 1;
      }
      assert fks[..|fks|] == fks;
    }

    // ── row writes ─────────────────────────────────────────────────────────

    method CorePut(r: RowRef, row: Row)
      modifies this
      ensures Value() == PutRow(old(Value()), r, row)
    {
      writes := writes.(rows := writes.rows[r := row]);
    }

    /** `core.upsert` of a row the lookup did not find: the engine looks for itself. */
    method CoreUpsert(r: RowRef, values: Row, patch: Option<Row>)
      modifies this
      ensures Value() ==
                if r !in snapshot.rows then PutRow(old(Value()), r, values)
                else if patch.None? then old(Value())
                else PutRow(old(Value()), r, snapshot.rows[r] + patch.value)
    {
      if r !in snapshot.rows {
        CorePut(r, values);
      } else if patch.Some? {
        CorePut(r, snapshot.rows[r] + patch.value);
      }
    }

    method CoreDelete(r: RowRef)
      modifies this
      ensures Value() == DropRow(old(Value()), r)
    {
      writes := writes.(rowDels := writes.rowDels + set q | q in snapshot.rows && q == r);
    }

    method Push(op: StagedOp)
      modifies this
      ensures Value() == Stage(old(Value()), op)
    {
      staged := staged + [op];
    }

    // ── operations ─────────────────────────────────────────────────────────

    method GuardNewRow(r: RowRef, row: Row, explicit: bool)
      modifies this
      ensures Value() == InsertGuards(rules, old(Value()), r, row, explicit)
    {
      ReserveUniqueGuards(r, row, None);
      ReservePkGuard(r, row, explicit);
      TouchForeignKeyGuards(r.table, row);
    }

    method InsertRowWithGuards(r: RowRef, row: Row, explicit: bool)
      modifies this
      ensures Value() == InsertRow(rules, old(Value()), r, row, explicit)
    {
      GuardNewRow(r, row, explicit);
      CorePut(r, row);
      Push(Insert(r.table, row));
    }

    method InsertInto(table: string, row: Row, explicit: bool) returns (error: Option<KitError>)
      modifies this
      ensures Value() == Inserted(rules, old(Value()), table, row, explicit).txn
      ensures error == ErrorOf(Inserted(rules, old(Value()), table, row, explicit))
    {
      var r := RowRef(table, rules.pk(table, row));
      if !rules.Known(table) {
        return Some(UnknownTable);
      }
      if !rules.valid(table, row) {
        return Some(Invalid);
      }
      var taken := CheckUniqueConstraints(r, row, None);
      if taken.Some? {
        return Some(Duplicate(taken.value));
      }
      var pkTaken := CheckPk(r, row, explicit);
      if pkTaken {
        return Some(DuplicatePk);
      }
      var orphaned := CheckForeignKeys(table, row);
      if orphaned.Some? {
        return Some(MissingParent(orphaned.value));
      }
      InsertRowWithGuards(r, row, explicit);
      return None;
    }

    /** The checks of an update or upsert, in the order the code makes them. */
    method CheckRow(r: RowRef, row: Row, was: Option<Row>) returns (error: Option<KitError>)
      ensures error == Refusal(rules, Value(), r, row, was)
    {
      var taken := CheckUniqueConstraints(r, row, was);
      if taken.Some? {
        return Some(Duplicate(taken.value));
      }
      var orphaned := CheckForeignKeys(r.table, row);
      if orphaned.Some? {
        return Some(MissingParent(orphaned.value));
      }
      return None;
    }

    /** `update` */
    method UpdateRowBy(r: RowRef, patch: Row, current: bool) returns (error: Option<KitError>)
      modifies this
      ensures Value() == UpdatedBy(rules, old(Value()), r, patch, current).txn
      ensures error == ErrorOf(UpdatedBy(rules, old(Value()), r, patch, current))
    {
      if rules.FastUpdates(r.table) {
        error := UpdateFast(r, patch, current);
        return;
      }
      if !rules.Known(r.table) {
        return Some(UnknownTable);
      }
      var was := GetByPk(r);
      if was.None? {
        return Some(NotFound);
      }
      error := Replace(r, was.value, was.value + patch);
    }

    /** `update_fast`: the engine's version of the row, merged and put. */
    method UpdateFast(r: RowRef, patch: Row, current: bool) returns (error: Option<KitError>)
      modifies this
      ensures Value() == UpdatedFast(rules, old(Value()), r, patch, current).txn
      ensures error == ErrorOf(UpdatedFast(rules, old(Value()), r, patch, current))
    {
      if !current || r !in snapshot.rows {
        return Some(NotFound);
      }
      var merged := snapshot.rows[r] + patch;
      CorePut(RowRef(r.table, rules.pk(r.table, merged)), merged);
      Push(Update(r.table, r.pk, 0, merged));
      return None;
    }

    /** The full path of `update` once the row has been fetched and merged. */
    method Replace(r: RowRef, was: Row, values: Row) returns (error: Option<KitError>)
      modifies this
      ensures Value() == Replaced(rules, old(Value()), r, was, values).txn
      ensures error == ErrorOf(Replaced(rules, old(Value()), r, was, values))
    {
      var q := RowRef(r.table, rules.pk(r.table, values));
      if !rules.valid(r.table, values) {
        return Some(Invalid);
      }
      error := CheckRow(q, values, Some(was));
      if error.Some? {
        return;
      }
      ReserveUniqueGuards(q, values, Some(was));
      TouchForeignKeyGuards(r.table, values);
      CoreDelete(r);
      CorePut(q, values);
      Push(Update(r.table, r.pk, 0, values));
    }

    method Upsert(table: string, values: Row, patch: Option<Row>, refresh: Row) returns (error: Option<KitError>)
      modifies this
      ensures Value() == Upserted(rules, old(Value()), table, values, patch, refresh).txn
      ensures error == ErrorOf(Upserted(rules, old(Value()), table, values, patch, refresh))
    {
      var r := RowRef(table, rules.pk(table, values));
      if !rules.Known(table) {
        return Some(UnknownTable);
      }
      if !rules.valid(table, values) {
        return Some(Invalid);
      }
      var was := GetByPk(r);
      if was.None? {
        error := CheckRow(r, values, None);
        if error.None? {
          GuardNewRow(r, values, true);
          CoreUpsert(r, values, patch);
          Push(Insert(r.table, values));
        }
        return;
      }
      if patch.None? {
        return None;
      }
      var merged := values + patch.value + refresh;
      var q := RowRef(table, rules.pk(table, merged));
      if !rules.valid(table, merged) {
        return Some(Invalid);
      }
      error := CheckRow(q, merged, was);
      if error.Some? {
        return;
      }
      ReserveUniqueGuards(q, merged, was);
      TouchForeignKeyGuards(table, merged);
      CorePut(q, UpsertStores(snapshot, r, q, merged, was.value, patch.value));
      Push(Update(table, r.pk, 0, merged));
    }

    // ── delete ─────────────────────────────────────────────────────────────

    /** `apply_set_null` on the row found while planning. */
    method ApplySetNull(ghost planned: Txn, cached: Option<Row>, su: SetNullUpdate) returns (error: Option<KitError>)
      requires cached == Read(rules, planned, NulledRow(su))
      modifies this
      ensures Value() == SetNullOne(rules, planned, old(Value()), su).txn
      ensures error == ErrorOf(SetNullOne(rules, planned, old(Value()), su))
    {
      if cached.None? {
        return None;
      }
      var r, values := RowRef(su.table, su.pk), NullOut(cached.value, su.columns);
      if exists c :: c in su.columns && !rules.Nullable(su.table, c) {
        return Some(Restricted);
      }
      if !rules.valid(su.table, values) {
        return Some(Invalid);
      }
      DeleteUniqueGuardsForOwner(r);
      CoreDelete(r);
      CorePut(r, values);
      ReserveUniqueGuards(r, values, None);
      ReservePkGuard(r, values, true);
      Push(Update(r.table, r.pk, 0, values));
      return None;
    }

    method DeleteCascaded(r: RowRef)
      modifies this
      ensures Value() == DeleteRow(rules, old(Value()), r)
    {
      DeleteUniqueGuardsForOwner(r);
      CoreDelete(r);
      Push(Delete(r.table, r.pk));
    }

    method ApplySetNulls(cache: RowRef -> Option<Row>, sus: seq<SetNullUpdate>) returns (error: Option<KitError>)
      requires forall r :: cache(r) == Read(rules, Value(), r)
      modifies this
      ensures Value() == SetNullAll(rules, old(Value()), old(Value()), sus).txn
      ensures error == ErrorOf(SetNullAll(rules, old(Value()), old(Value()), sus))
    {
      ghost var planned := Value();
      error := None;
      var i := 0;
      while i < |sus| && error.None?
        invariant 0 <= i <= |sus|
        invariant Value() == SetNullAll(rules, planned, planned, sus[..i]).txn
        invariant error == ErrorOf(SetNullAll(rules, planned, planned, sus[..i]))
      {
        SetNullStep(rules, planned, sus, i);
        error := ApplySetNull(planned, cache(NulledRow(sus[i])), sus[i]);
        i := i + 1;
      }
      FailedStays(rules, planned, sus, i);
    }

    method ApplyCascades(cache: RowRef -> Option<Row>, ghost planned: Txn, rows: seq<RowRef>, table: string)
      requires forall r :: cache(r) == Read(rules, planned, r)
      modifies this
      ensures Value() == CascadeAll(rules, planned, old(Value()), rows, table)
    {
      var i := 0;
      while i < |rows|
        invariant 0 <= i <= |rows|
        invariant Value() == CascadeAll(rules, planned, old(Value()), rows[..i], table)
      {
        CascadeStep(rules, planned, old(Value()), rows, i, table);
        if rows[i].table != table && cache(rows[i]).Some? {
          DeleteCascaded(rows[i]);
        }
        i := i + 1;
      }
      assert rows[..|rows|] == rows;
    }

    /** `delete_row` after planning, and the delete of the target itself. */
    method ApplyPlan(r: RowRef, cache: RowRef -> Option<Row>, plan: DeletePlan) returns (error: Option<KitError>)
      requires rules.Known(r.table) && Lookup(rules, Value(), r).Some? && plan.restricted == []
      requires forall q :: cache(q) == Read(rules, Value(), q)
      modifies this
      ensures Value() == Deleted(rules, old(Value()), r, plan).txn
      ensures error == ErrorOf(Deleted(rules, old(Value()), r, plan))
    {
      ghost var planned := Value();
      error := ApplySetNulls(cache, plan.setNull);
      if error.Some? {
        return;
      }
      ApplyCascades(cache, planned, plan.delete, r.table);
      DeleteUniqueGuardsForOwner(r);
      TouchRowGuard(r);
      CoreDelete(r);
      Push(Delete(r.table, r.pk));
    }

    /** `delete`. On the full path: plan, and if nothing restricts it apply the plan; `find` is
        the search for children, and `cache` holds the rows seen while planning. Without a
        plan nothing has changed. On the fast path `found` is what the index answers now. */
    method DeleteByPk(r: RowRef, find: FindChildren, cache: RowRef -> Option<Row>, found: bool)
      returns (error: Option<KitError>, plan: Option<DeletePlan>)
      requires Closed(Graph(rules.tables, find), View(Value()).rows.Keys + {r})
      requires forall q :: cache(q) == Read(rules, Value(), q)
      modifies this
      ensures rules.FastDeletes(r.table) ==>
                Value() == DeletedFast(old(Value()), r, found).txn && error == ErrorOf(DeletedFast(old(Value()), r, found))
      ensures !rules.FastDeletes(r.table) ==>
                (plan.Some? <==> rules.Known(r.table) && Lookup(rules, old(Value()), r).Some? && !Cyclic(Graph(rules.tables, find), r))
      ensures !rules.FastDeletes(r.table) && plan.None? ==>
                && Value() == old(Value())
                && error == Some(if !rules.Known(r.table) then UnknownTable
                                 else if Lookup(rules, old(Value()), r).None? then NotFound
                                 else Unplanned)
      ensures plan.Some? ==>
                && !rules.FastDeletes(r.table)
                && PlanSpec(Graph(rules.tables, find), r, Planned(plan.value))
                && Value() == Deleted(rules, old(Value()), r, plan.value).txn
                && error == ErrorOf(Deleted(rules, old(Value()), r, plan.value))
      ensures !rules.FastDeletes(r.table) ==> AnswersExactly(rules, old(Value()), Graph(rules.tables, find), r, error.None?)
    {
      if rules.FastDeletes(r.table) {
        error := DeleteFast(r, found);
        return error, None;
      }
      if !rules.Known(r.table) {
        UnplannedAnswers(rules, Value(), Graph(rules.tables, find), r);
        return Some(UnknownTable), None;
      }
      var row := GetByPk(r);
      if row.None? {
        UnplannedAnswers(rules, Value(), Graph(rules.tables, find), r);
        return Some(NotFound), None;
      }
      var planning := PlanDelete(Graph(rules.tables, find), r, View(Value()).rows.Keys + {r});
      PlannedAnswers(rules, Value(), Graph(rules.tables, find), r, planning);
      if planning.Refused? {
        return Some(Unplanned), None;
      }
      plan := Some(planning.plan);
      if planning.plan.restricted != [] {
        DeletedRefuses(rules, Value(), r, planning.plan);
        return Some(Restricted), plan;
      }
      error := ApplyPlan(r, cache, planning.plan);
    }

    method DeleteFast(r: RowRef, found: bool) returns (error: Option<KitError>)
      modifies this
      ensures Value() == DeletedFast(old(Value()), r, found).txn
      ensures error == ErrorOf(DeletedFast(old(Value()), r, found))
    {
      if !found {
        return Some(NotFound);
      }
      writes := writes.(rowDels := writes.rowDels + {r});
      Push(Delete(r.table, r.pk));
      return None;
    }

    // ── truncate ───────────────────────────────────────────────────────────

    method TruncateAll(table: string) returns (error: Option<KitError>)
      modifies this
      ensures Value() == Truncated(rules, old(Value()), table).txn
      ensures error == ErrorOf(Truncated(rules, old(Value()), table))
    {
      if !rules.Known(table) {
        return Some(UnknownTable);
      }
      if exists op :: op in staged && !op.Truncate? && op.table == table {
        return Some(AfterWrites);
      }
      if rules.Inbound(table) {
        return Some(Restricted);
      }
      writes := writes.(
        ownerDels := writes.ownerDels + (set k | k in snapshot.owners && snapshot.owners[k].row.table == table),
        guardDels := writes.guardDels + (set g | g in snapshot.guards && g.table == table),
        rowDels := writes.rowDels + (set q | q in snapshot.rows && q.table == table));
      stagedUnique := WithoutTable(stagedUnique, table);
      touched := StillTouched(touched, table);
      Push(Truncate(table));
      return None;
    }
  }

  lemma CascadeStep(rules: Rules, planned: Txn, x: Txn, rows: seq<RowRef>, i: nat, table: string)
    requires i < |rows|
    ensures var y := CascadeAll(rules, planned, x, rows[..i], table);
            CascadeAll(rules, planned, x, rows[..i + 1], table) ==
            if rows[i].table == table || Read(rules, planned, rows[i]).None? then y else DeleteRow(rules, y, rows[i])
  {
    assert rows[..i + 1][..i] == rows[..i];
  }

  lemma SetNullStep(rules: Rules, planned: Txn, sus: seq<SetNullUpdate>, i: nat)
    requires i < |sus|
    ensures var before := SetNullAll(rules, planned, planned, sus[..i]);
            SetNullAll(rules, planned, planned, sus[..i + 1]) ==
            if before.Rejected? then before else SetNullOne(rules, planned, before.txn, sus[i])
  {
    assert sus[..i + 1][..i] == sus[..i];
  }

  /** A delete that is refused leaves the transaction alone. */
  lemma DeletedRefuses(rules: Rules, x: Txn, r: RowRef, plan: DeletePlan)
    ensures rules.Known(r.table) && Lookup(rules, x, r).Some? && plan.restricted != [] ==>
              Deleted(rules, x, r, plan) == Rejected(Restricted, x)
  {
  }

  function ErrorOf(a: Answer): Option<KitError> {
    match a case Accepted(_) => None case Rejected(e, _) => Some(e)
  }

  lemma {:induction false} FailedStays(rules: Rules, planned: Txn, sus: seq<SetNullUpdate>, i: nat)
    requires i <= |sus|
    requires i == |sus| || SetNullAll(rules, planned, planned, sus[..i]).Rejected?
    ensures SetNullAll(rules, planned, planned, sus) == SetNullAll(rules, planned, planned, sus[..i])
    decreases |sus| - i
  {
    if i == |sus| {
      assert sus[..i] == sus;
    } else {
      assert sus[..i + 1][..i] == sus[..i];
      FailedStays(rules, planned, sus, i + 1);
    }
  }
}
