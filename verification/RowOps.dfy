/** Insert, update, upsert and truncate keep a transaction sound. */
module RowOps {
  import opened Strings
  import opened Values
  import opened Schema
  import opened Overlay
  import opened Planner
  import opened Rules
  import opened Guards
  import opened Operations
  import opened Keeping

  /** An insert the theorems cover: the row has not been written in this transaction, and a
      primary key that is not looked up (assigned, or of no columns) is not in use. */
  ghost predicate InsertInScope(rules: Rules, x: Txn, table: string, row: Row, explicit: bool) {
    var r := RowRef(table, rules.pk(table, row));
    && !WroteRow(x.writes, r)
    && (rules.PkGuard(table).Some? ==> explicit)
    && (rules.PkGuard(table).None? && !(explicit && rules.SingleKey(table)) ==> r !in View(x).rows)
  }

  /** An explicit primary key that is taken is refused: a single column because the row is
      visible, a composite key because a visible row owns its guard. */
  lemma InsertIsFresh(rules: Rules, x: Txn, table: string, row: Row, explicit: bool)
    requires rules.WellFormed() && Local(rules, x) && InsertInScope(rules, x, table, row, explicit)
    requires Inserted(rules, x, table, row, explicit).Accepted?
    ensures RowRef(table, rules.pk(table, row)) !in View(x).rows
  {
    var r := RowRef(table, rules.pk(table, row));
    InsertChecks(rules, x, table, row, explicit);
    ExistsIsView(rules, x, r);
    if r in View(x).rows && rules.PkGuard(table).Some? {
      TakenByOwner(rules, x, r, row);
    }
  }

  /** The guard of a composite key is there when the row is. */
  lemma TakenByOwner(rules: Rules, x: Txn, r: RowRef, row: Row)
    requires rules.WellFormed() && Local(rules, x) && !WroteRow(x.writes, r) && r in View(x).rows
    requires rules.PkGuard(r.table).Some? && rules.pk(r.table, row) == r.pk && rules.valid(r.table, row)
    ensures rules.key(r.table, rules.PkGuard(r.table).value, row).Some?
    ensures rules.key(r.table, rules.PkGuard(r.table).value, row).value in x.snapshot.owners
  {
    var uq := rules.PkGuard(r.table).value;
    GuardedSplits(rules, r.table);
    assert rules.pk(r.table, View(x).rows[r]) == r.pk;
    var k := rules.key(r.table, uq, row).value;
    assert rules.key(r.table, uq, View(x).rows[r]) == Some(k);
    OldKeyIsOwned(rules, x, r, uq, k);
  }

  /** What an accepted insert has checked. */
  lemma InsertChecks(rules: Rules, x: Txn, table: string, row: Row, explicit: bool)
    requires Inserted(rules, x, table, row, explicit).Accepted?
    ensures var r := RowRef(table, rules.pk(table, row));
            && rules.Known(table) && rules.valid(table, row)
            && Taken(rules, x, rules.Declared(table), r, row, None) == None
            && !PkTaken(rules, x, r, row, explicit)
            && Orphaned(rules, x, rules.ForeignKeys(table), row) == None
            && Inserted(rules, x, table, row, explicit).txn == InsertRow(rules, x, r, row, explicit)
  {
  }

  lemma InsertPuts(rules: Rules, x: Txn, r: RowRef, row: Row, explicit: bool)
    requires rules.PkGuard(r.table).Some? ==> explicit
    requires r !in View(x).rows && rules.pk(r.table, row) == r.pk && rules.valid(r.table, row)
    ensures PutWithGuards(rules, x, InsertRow(rules, x, r, row, explicit), r, row, row, Insert(r.table, row))
  {
    ReservesAll(rules, x, r, row, explicit);
  }

  lemma InsertKeysFree(rules: Rules, x: Txn, table: string, row: Row, explicit: bool, uq: UniqueConstraint)
    requires PutsOwned(x) && InsertInScope(rules, x, table, row, explicit)
    requires Taken(rules, x, rules.Declared(table), RowRef(table, rules.pk(table, row)), row, None) == None
    requires !PkTaken(rules, x, RowRef(table, rules.pk(table, row)), row, explicit)
    requires uq in rules.Guarded(table) && rules.key(table, uq, row).Some?
    ensures Unclaimed(x, rules.key(table, uq, row).value, RowRef(table, rules.pk(table, row)))
  {
    var r := RowRef(table, rules.pk(table, row));
    GuardedSplits(rules, table);
    if uq in rules.Declared(table) {
      UntakenIsFree(rules, x, rules.Declared(table), r, row, None, uq);
    }
    FreeIsUnclaimed(x, rules.key(table, uq, row).value, r);
  }

  lemma InsertKeeps(rules: Rules, x: Txn, table: string, row: Row, explicit: bool)
    requires rules.WellFormed() && Local(rules, x) && InsertInScope(rules, x, table, row, explicit)
    ensures Local(rules, Inserted(rules, x, table, row, explicit).txn)
  {
    if Inserted(rules, x, table, row, explicit).Accepted? {
      AcceptedInsert(rules, x, table, row, explicit);
    }
  }

  /** An accepted insert adds exactly its row, at a key nobody had. */
  lemma AcceptedInsert(rules: Rules, x: Txn, table: string, row: Row, explicit: bool)
    requires rules.WellFormed() && Local(rules, x) && InsertInScope(rules, x, table, row, explicit)
    requires Inserted(rules, x, table, row, explicit).Accepted?
    ensures var y, r := Inserted(rules, x, table, row, explicit).txn, RowRef(table, rules.pk(table, row));
            Local(rules, y) && r !in View(x).rows && View(y).rows == View(x).rows[r := row]
  {
    var r := RowRef(table, rules.pk(table, row));
    var y := InsertRow(rules, x, r, row, explicit);
    InsertIsFresh(rules, x, table, row, explicit);
    InsertChecks(rules, x, table, row, explicit);
    InsertPuts(rules, x, r, row, explicit);
    forall uq | uq in rules.Guarded(r.table) && GainedKey(rules, r.table, uq, row, Seen(x, r)).Some?
      ensures Unclaimed(x, GainedKey(rules, r.table, uq, row, Seen(x, r)).value, r)
    {
      InsertKeysFree(rules, x, table, row, explicit, uq);
    }
    PutKeepsLocal(rules, x, y, r, row, row, Insert(table, row));
  }

  lemma UpdateKeeps(rules: Rules, x: Txn, r: RowRef, patch: Row)
    requires rules.WellFormed() && Local(rules, x) && !WroteRow(x.writes, r)
    requires r in View(x).rows ==> rules.pk(r.table, View(x).rows[r] + patch) == r.pk
    ensures Local(rules, Updated(rules, x, r, patch).txn)
  {
    if Updated(rules, x, r, patch).Accepted? {
      LookupIsView(rules, x, r);
      AcceptedUpdate(rules, x, r, patch);
    }
  }

  /** An accepted update that keeps the primary key replaces exactly its row. */
  lemma AcceptedUpdate(rules: Rules, x: Txn, r: RowRef, patch: Row)
    requires rules.WellFormed() && Local(rules, x) && !WroteRow(x.writes, r)
    requires r in View(x).rows ==> rules.pk(r.table, View(x).rows[r] + patch) == r.pk
    requires Updated(rules, x, r, patch).Accepted?
    ensures var y := Updated(rules, x, r, patch).txn;
            Local(rules, y) && r in View(x).rows && View(y).rows == View(x).rows[r := View(x).rows[r] + patch]
  {
    LookupIsView(rules, x, r);
    var was := View(x).rows[r];
    var values := was + patch;
    ReplaceKeeps(rules, x, UpdateRow(rules, x, r, r, values, values, was), r, values, values);
  }

  lemma ReplaceKeeps(rules: Rules, x: Txn, y: Txn, r: RowRef, values: Row, stored: Row)
    requires rules.WellFormed() && Local(rules, x) && !WroteRow(x.writes, r) && r in View(x).rows
    requires rules.pk(r.table, values) == r.pk && Refusal(rules, x, r, values, Seen(x, r)) == None
    requires rules.Alike(r.table, values, stored) && rules.valid(r.table, values) && rules.valid(r.table, stored)
    requires var guarded := WithGuards(rules, x, r, values, Seen(x, r));
             var op := Update(r.table, r.pk, 0, values);
             y == Stage(PutRow(guarded, r, stored), op) || y == Stage(PutRow(DropRow(guarded, r), r, stored), op)
    ensures Local(rules, y) && View(y).rows == View(x).rows[r := stored]
  {
    var was := View(x).rows[r];
    ReservesDeclared(rules, x, r, values, was);
    forall uq | uq in rules.Guarded(r.table) && GainedKey(rules, r.table, uq, values, Seen(x, r)).Some?
      ensures Unclaimed(x, GainedKey(rules, r.table, uq, values, Seen(x, r)).value, r)
    {
      UntakenIsFree(rules, x, rules.Declared(r.table), r, values, Some(was), uq);
      FreeIsUnclaimed(x, GainedKey(rules, r.table, uq, values, Seen(x, r)).value, r);
    }
    PutKeepsLocal(rules, x, y, r, values, stored, Update(r.table, r.pk, 0, values));
  }

  // ── upsert ───────────────────────────────────────────────────────────────

  /** An upsert the theorems cover: the row has not been written in this transaction; a row
      that is there is found by its key, and keeps its primary key; and what the engine
      stores is valid and has the keys and references of the row that was checked. */
  ghost predicate UpsertInScope(rules: Rules, x: Txn, table: string, values: Row, patch: Option<Row>, refresh: Row) {
    var r := RowRef(table, rules.pk(table, values));
    match (Lookup(rules, x, r), patch)
    case (Some(_), None) => true
    case (Some(was), Some(p)) =>
      && !WroteRow(x.writes, r)
      && rules.pk(table, was + p) == r.pk
      && rules.Alike(table, values + p + refresh, was + p)
      && rules.valid(table, was + p)
    case (None, _) =>
      !WroteRow(x.writes, r) && r !in View(x).rows
  }

  /** The key guard of a row that is not there is not there either. */
  lemma AbsentPkUnclaimed(rules: Rules, x: Txn, r: RowRef, row: Row)
    requires rules.WellFormed() && Local(rules, x) && !WroteRow(x.writes, r)
    requires rules.pk(r.table, row) == r.pk && r !in View(x).rows
    requires rules.PkGuard(r.table).Some? && rules.key(r.table, rules.PkGuard(r.table).value, row).Some?
    ensures Unclaimed(x, rules.key(r.table, rules.PkGuard(r.table).value, row).value, r)
  {
    var uq := rules.PkGuard(r.table).value;
    var k := rules.key(r.table, uq, row).value;
    GuardedSplits(rules, r.table);
    assert rules.HasKey(r.table, row, uq.name, k);
    if k in x.snapshot.owners {
      PkKeyIsOwn(rules, x.snapshot, r, row, k);
    }
    if k in x.writes.owners {
      PkKeyIsOwn(rules, View(x), r, row, k);
    }
  }

  lemma PkKeyIsOwn(rules: Rules, s: Store, r: RowRef, row: Row, k: string)
    requires rules.WellFormed() && Sound(rules, s) && rules.pk(r.table, row) == r.pk
    requires rules.PkGuard(r.table).Some? && rules.key(r.table, rules.PkGuard(r.table).value, row) == Some(k)
    requires k in s.owners
    ensures s.owners[k].row == r && r in s.rows
  {
    var uq, o := rules.PkGuard(r.table).value, s.owners[k];
    GuardedSplits(rules, r.table);
    assert rules.HasKey(r.table, row, uq.name, k);
    assert rules.HasKey(o.row.table, s.rows[o.row], o.constraint, k);
    var ur :| ur in rules.Guarded(r.table) && ur.name == uq.name && rules.key(r.table, ur, s.rows[o.row]) == Some(k);
    assert ur == uq;
  }

  lemma UpsertNewKeeps(rules: Rules, x: Txn, r: RowRef, values: Row)
    requires rules.WellFormed() && Local(rules, x) && !WroteRow(x.writes, r)
    requires rules.pk(r.table, values) == r.pk && r !in View(x).rows && rules.valid(r.table, values)
    requires Refusal(rules, x, r, values, None) == None
    ensures var y := InsertRow(rules, x, r, values, true);
            Local(rules, y) && View(y).rows == View(x).rows[r := values]
  {
    var y := InsertRow(rules, x, r, values, true);
    InsertPuts(rules, x, r, values, true);
    forall uq | uq in rules.Guarded(r.table) && GainedKey(rules, r.table, uq, values, Seen(x, r)).Some?
      ensures Unclaimed(x, GainedKey(rules, r.table, uq, values, Seen(x, r)).value, r)
    {
      NewKeyUnclaimed(rules, x, r, values, uq);
    }
    PutKeepsLocal(rules, x, y, r, values, values, Insert(r.table, values));
  }

  lemma NewKeyUnclaimed(rules: Rules, x: Txn, r: RowRef, values: Row, uq: UniqueConstraint)
    requires rules.WellFormed() && Local(rules, x) && !WroteRow(x.writes, r)
    requires rules.pk(r.table, values) == r.pk && r !in View(x).rows
    requires Taken(rules, x, rules.Declared(r.table), r, values, None) == None
    requires uq in rules.Guarded(r.table) && rules.key(r.table, uq, values).Some?
    ensures Unclaimed(x, rules.key(r.table, uq, values).value, r)
  {
    GuardedSplits(rules, r.table);
    if uq in rules.Declared(r.table) {
      DeclaredUnclaimed(rules, x, r, values, uq);
    } else {
      assert uq == rules.PkGuard(r.table).value;
      AbsentPkUnclaimed(rules, x, r, values);
    }
  }

  lemma DeclaredUnclaimed(rules: Rules, x: Txn, r: RowRef, values: Row, uq: UniqueConstraint)
    requires PutsOwned(x) && !WroteRow(x.writes, r)
    requires Taken(rules, x, rules.Declared(r.table), r, values, None) == None
    requires uq in rules.Declared(r.table) && rules.key(r.table, uq, values).Some?
    ensures Unclaimed(x, rules.key(r.table, uq, values).value, r)
  {
    assert GainedKey(rules, r.table, uq, values, None) == rules.key(r.table, uq, values);
    UntakenIsFree(rules, x, rules.Declared(r.table), r, values, None, uq);
    FreeIsUnclaimed(x, rules.key(r.table, uq, values).value, r);
  }

  lemma UpsertKeeps(rules: Rules, x: Txn, table: string, values: Row, patch: Option<Row>, refresh: Row)
    requires rules.WellFormed() && Local(rules, x) && UpsertInScope(rules, x, table, values, patch, refresh)
    ensures Local(rules, Upserted(rules, x, table, values, patch, refresh).txn)
  {
    var r, o := RowRef(table, rules.pk(table, values)), Upserted(rules, x, table, values, patch, refresh);
    LookupIsView(rules, x, r);
    if o.Accepted? && r !in View(x).rows {
      UnwrittenIsSnapshot(x, r);
      UpsertNewKeeps(rules, x, r, values);
    } else if o.Accepted? && patch.Some? {
      var was, p := View(x).rows[r], patch.value;
      ReplaceKeeps(rules, x, o.txn, r, values + p + refresh, was + p);
    }
  }

  // ── truncate ─────────────────────────────────────────────────────────────

  lemma NoPutsOf(x: Txn, table: string)
    requires PutsStaged(x) && !DataStagedFor(x.staged, table)
    ensures forall r :: r in x.writes.rows ==> r.table != table
  {
  }

  lemma TruncateView(x: Txn, table: string, y: Txn)
    requires PutsStaged(x) && PutsOwned(x) && !DataStagedFor(x.staged, table) && y == TruncateTable(x, table)
    ensures forall r :: r in View(y).rows <==> r in View(x).rows && r.table != table
    ensures forall r :: r in View(y).rows ==> View(y).rows[r] == View(x).rows[r]
    ensures forall k :: k in View(y).owners <==> k in View(x).owners && View(x).owners[k].row.table != table
    ensures forall k :: k in View(y).owners ==> View(y).owners[k] == View(x).owners[k]
  {
    NoPutsOf(x, table);
  }

  lemma TruncateKeepsSound(rules: Rules, x: Txn, table: string, y: Txn)
    requires Local(rules, x) && !DataStagedFor(x.staged, table) && y == TruncateTable(x, table)
    requires forall r, row, fk, p :: rules.References(r, row, fk, p) ==> p.table != table
    ensures Sound(rules, View(y))
  {
    TruncateView(x, table, y);
    forall c, fk, p | c in View(y).rows && rules.References(c.table, View(y).rows[c], fk, p) ensures p in View(y).rows {
      assert rules.References(c.table, View(x).rows[c], fk, p);
    }
    forall r, c, k | r in View(y).rows && rules.HasKey(r.table, View(y).rows[r], c, k)
      ensures k in View(y).owners && View(y).owners[k] == Owner(c, r)
    {
      assert rules.HasKey(r.table, View(x).rows[r], c, k);
    }
  }

  lemma TruncateKeepsFaithful(rules: Rules, x: Txn, table: string, y: Txn)
    requires Faithful(rules, x)
    requires y.snapshot == x.snapshot && y.staged == x.staged + [Truncate(table)]
    requires y.writes.rows == x.writes.rows
    requires forall r :: r in View(y).rows <==> r in View(x).rows && r.table != table
    requires forall r :: r in View(y).rows ==> View(y).rows[r] == View(x).rows[r]
    ensures Faithful(rules, y)
  {
    assert y.staged[..|x.staged|] == x.staged && y.staged[|x.staged|] == Truncate(table);
    forall r: RowRef ensures FaithfulAt(rules, y, r) {
      assert FaithfulAt(rules, x, r);
      ReadsAfter(rules, x, y, r.table);
    }
  }

  lemma UnreferencedTable(rules: Rules, table: string)
    requires rules.WellFormed()
    requires !rules.Inbound(table)
    ensures forall r, row, fk, p :: rules.References(r, row, fk, p) ==> p.table != table
    ensures !rules.Referenced(table)
  {
    forall t, fk | t in rules.tables && fk in t.foreignKeys ensures fk.referencesTable != table {
      FindsItself(rules.tables, t);
      assert fk in rules.ForeignKeys(t.name);
    }
    forall r, row, fk, p | rules.References(r, row, fk, p) ensures p.table != table {
      var t := FindTable(rules.tables, r).value;
      assert t in rules.tables && fk in t.foreignKeys;
    }
  }

  lemma TruncateKeeps(rules: Rules, x: Txn, table: string)
    requires rules.WellFormed() && Local(rules, x)
    ensures Local(rules, Truncated(rules, x, table).txn)
  {
    if Truncated(rules, x, table).Accepted? {
      var y := TruncateTable(x, table);
      UnreferencedTable(rules, table);
      NoPutsOf(x, table);
      TruncateKeepsSound(rules, x, table, y);
      TruncateView(x, table, y);
      TruncateKeepsFaithful(rules, x, table, y);
      TruncateKeepsGuards(rules, x, table, y);
      TruncateKeepsOwners(rules, x, table, y);
      TruncateKeepsStaged(rules, x, table, y);
    }
  }

  lemma TruncateKeepsGuards(rules: Rules, x: Txn, table: string, y: Txn)
    requires Local(rules, x) && !DataStagedFor(x.staged, table) && y == TruncateTable(x, table)
    requires !rules.Referenced(table)
    ensures ParentsTouched(rules, y) && DeletesTouched(rules, y) && y.touched <= y.writes.guards.Keys
  {
    assert y.writes.rows == x.writes.rows && y.writes.guards == x.writes.guards;
    forall p | p in y.writes.rowDels && p !in y.writes.rows && rules.Referenced(p.table) ensures WroteGuard(y.writes, p) {
      assert p.table != table;
    }
  }

  lemma TruncateKeepsOwners(rules: Rules, x: Txn, table: string, y: Txn)
    requires Local(rules, x) && !DataStagedFor(x.staged, table) && y == TruncateTable(x, table)
    ensures PutsOwned(y) && StagedArePut(y) && DelsOwned(y)
  {
    NoPutsOf(x, table);
    forall s ensures s in y.stagedUnique <==> s in x.stagedUnique && s.owner.table != table {
      WithoutTableHas(x.stagedUnique, table, s);
    }
  }

  lemma TruncateKeepsStaged(rules: Rules, x: Txn, table: string, y: Txn)
    requires PutsStaged(x) && UpdatesKeepPk(rules, x) && y == TruncateTable(x, table)
    ensures PutsStaged(y) && UpdatesKeepPk(rules, y)
  {
    assert y.staged == x.staged + [Truncate(table)];
    forall r | r in y.writes.rows ensures DataStagedFor(y.staged, r.table) {
      assert DataStagedFor(x.staged, r.table);
      assert forall op :: op in x.staged ==> op in y.staged;
    }
  }
}
