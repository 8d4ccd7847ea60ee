/** Exactly when a write is accepted: what the checks on guards and staged rows say about
    the rows themselves. */
module Accepting {
  import opened Strings
  import opened Values
  import opened Schema
  import opened Overlay
  import opened Planner
  import opened Rules
  import opened Guards
  import opened Operations
  import opened Keeping
  import opened RowOps

  /** Another row has the key, in the snapshot or as the transaction sees it: a key given up
      earlier in the same transaction still counts. */
  ghost predicate HeldByOther(rules: Rules, x: Txn, k: string, r: RowRef) {
    exists q, c :: q != r && (Holding(rules, x.snapshot, q, c, k) || Holding(rules, View(x), q, c, k))
  }

  ghost predicate Holding(rules: Rules, s: Store, q: RowRef, c: string, k: string) {
    q in s.rows && rules.HasKey(q.table, s.rows[q], c, k)
  }

  /** The guards and the reserved keys say exactly which keys other rows hold. */
  lemma KeyFreeExactly(rules: Rules, x: Txn, k: string, r: RowRef)
    requires Local(rules, x) && !WroteRow(x.writes, r)
    ensures KeyFree(x, k, r) <==> !HeldByOther(rules, x, k, r)
  {
    if k in x.snapshot.owners && x.snapshot.owners[k].row != r {
      assert Holding(rules, x.snapshot, x.snapshot.owners[k].row, x.snapshot.owners[k].constraint, k);
    }
    forall s | s in x.stagedUnique && s.key == k && s.owner != r ensures HeldByOther(rules, x, k, r) {
      var o := x.writes.owners[k];
      assert View(x).owners[k] == o && Holding(rules, View(x), o.row, o.constraint, k);
    }
    if HeldByOther(rules, x, k, r) {
      var q, c :| q != r && (Holding(rules, x.snapshot, q, c, k) || Holding(rules, View(x), q, c, k));
      if Holding(rules, x.snapshot, q, c, k) {
        assert x.snapshot.owners[k] == Owner(c, q);
      } else {
        assert View(x).owners[k] == Owner(c, q);
        assert k in x.writes.owners ==> StagedUnique(k, q) in x.stagedUnique;
      }
    }
  }

  lemma {:induction false} FreeIsUntaken(rules: Rules, x: Txn, uqs: seq<UniqueConstraint>, r: RowRef, row: Row, was: Option<Row>)
    requires forall uq :: uq in uqs && GainedKey(rules, r.table, uq, row, was).Some? ==>
               KeyFree(x, GainedKey(rules, r.table, uq, row, was).value, r)
    ensures Taken(rules, x, uqs, r, row, was) == None
  {
    if uqs != [] {
      assert uqs[0] in uqs && forall uq :: uq in uqs[1..] ==> uq in uqs;
      FreeIsUntaken(rules, x, uqs[1..], r, row, was);
    }
  }

  /** The unique check passes exactly when no gained key is held by another row. */
  lemma TakenExactly(rules: Rules, x: Txn, r: RowRef, row: Row, was: Option<Row>)
    requires Local(rules, x) && !WroteRow(x.writes, r)
    ensures var uqs := rules.Declared(r.table);
            Taken(rules, x, uqs, r, row, was) == None <==>
            forall uq :: uq in uqs && GainedKey(rules, r.table, uq, row, was).Some? ==>
              !HeldByOther(rules, x, GainedKey(rules, r.table, uq, row, was).value, r)
  {
    var uqs := rules.Declared(r.table);
    forall uq | uq in uqs && GainedKey(rules, r.table, uq, row, was).Some?
      ensures var k := GainedKey(rules, r.table, uq, row, was).value;
              KeyFree(x, k, r) <==> !HeldByOther(rules, x, k, r)
      ensures Taken(rules, x, uqs, r, row, was) == None ==> KeyFree(x, GainedKey(rules, r.table, uq, row, was).value, r)
    {
      KeyFreeExactly(rules, x, GainedKey(rules, r.table, uq, row, was).value, r);
      if Taken(rules, x, uqs, r, row, was) == None {
        UntakenIsFree(rules, x, uqs, r, row, was, uq);
      }
    }
    if forall uq :: uq in uqs && GainedKey(rules, r.table, uq, row, was).Some? ==>
         KeyFree(x, GainedKey(rules, r.table, uq, row, was).value, r) {
      FreeIsUntaken(rules, x, uqs, r, row, was);
    }
  }

  lemma {:induction false} ExistsIsUnorphaned(rules: Rules, x: Txn, fks: seq<ForeignKey>, row: Row)
    requires forall fk :: fk in fks && rules.parent(fk, row).Some? ==>
               Exists(rules, x, RowRef(fk.referencesTable, rules.parent(fk, row).value))
    ensures Orphaned(rules, x, fks, row) == None
  {
    if fks != [] {
      assert fks[0] in fks && forall fk :: fk in fks[1..] ==> fk in fks;
      ExistsIsUnorphaned(rules, x, fks[1..], row);
    }
  }

  lemma OrphanedIsMissing(rules: Rules, x: Txn, table: string, row: Row)
    ensures Orphaned(rules, x, rules.ForeignKeys(table), row) == None <==>
            forall fk, p :: rules.References(table, row, fk, p) ==> Exists(rules, x, p)
  {
    var fks := rules.ForeignKeys(table);
    if Orphaned(rules, x, fks, row) == None {
      forall fk, p | rules.References(table, row, fk, p) ensures Exists(rules, x, p) {
        UnorphanedExists(rules, x, fks, row, fk);
      }
    }
    if forall fk, p :: rules.References(table, row, fk, p) ==> Exists(rules, x, p) {
      forall fk | fk in fks && rules.parent(fk, row).Some?
        ensures Exists(rules, x, RowRef(fk.referencesTable, rules.parent(fk, row).value))
      {
        assert rules.References(table, row, fk, RowRef(fk.referencesTable, rules.parent(fk, row).value));
      }
      ExistsIsUnorphaned(rules, x, fks, row);
    }
  }

  /** The row is visible, and in a table whose lookups are answered. */
  predicate Findable(rules: Rules, x: Txn, r: RowRef) {
    r in View(x).rows && Answered(rules, x, r.table)
  }

  /** The foreign-key check passes exactly when every referenced row is visible and can be
      looked up: a parent whose composite key has no bitmaps is never found. */
  lemma OrphanedExactly(rules: Rules, x: Txn, table: string, row: Row)
    requires Local(rules, x)
    ensures Orphaned(rules, x, rules.ForeignKeys(table), row) == None <==>
            forall fk, p :: rules.References(table, row, fk, p) ==> Findable(rules, x, p)
  {
    OrphanedIsMissing(rules, x, table, row);
    forall p: RowRef ensures Exists(rules, x, p) <==> Findable(rules, x, p) {
      ExistsIsView(rules, x, p);
    }
  }

  /** Whatever the transaction has staged before, the foreign-key check passes exactly when
      every referenced row is looked up or has been staged and moved away, and an explicit
      single-column key is refused exactly then, too: a child may reference the key a row has
      left, and no row may take it. */
  lemma MovedKeyCounts(rules: Rules, x: Txn, table: string, row: Row)
    ensures Orphaned(rules, x, rules.ForeignKeys(table), row) == None <==>
            forall fk, p :: rules.References(table, row, fk, p) ==>
              Lookup(rules, x, p).Some? || StillCounts(KeyedAs(rules, p.table), x.staged, p.pk)
    ensures var r := RowRef(table, rules.pk(table, row));
            rules.SingleKey(table) ==>
              (PkTaken(rules, x, r, row, true) <==>
                 Lookup(rules, x, r).Some? || StillCounts(KeyedAs(rules, table), x.staged, r.pk))
  {
    var fks := rules.ForeignKeys(table);
    ExistsExactly(rules, x, RowRef(table, rules.pk(table, row)));
    OrphanedIsMissing(rules, x, table, row);
    forall p: RowRef ensures Exists(rules, x, p) <==> Lookup(rules, x, p).Some? || StillCounts(KeyedAs(rules, p.table), x.staged, p.pk) {
      ExistsExactly(rules, x, p);
    }
  }

  /** A primary key counts as taken exactly when a row with it is visible. */
  lemma PkTakenExactly(rules: Rules, x: Txn, table: string, row: Row, explicit: bool)
    requires rules.WellFormed() && Local(rules, x) && InsertInScope(rules, x, table, row, explicit)
    requires rules.valid(table, row)
    ensures var r := RowRef(table, rules.pk(table, row)); PkTaken(rules, x, r, row, explicit) <==> r in View(x).rows
  {
    var r := RowRef(table, rules.pk(table, row));
    ExistsIsView(rules, x, r);
    if rules.PkGuard(table).Some? {
      var uq := rules.PkGuard(table).value;
      var k := rules.key(table, uq, row).value;
      GuardedSplits(rules, table);
      if r in View(x).rows {
        assert rules.key(table, uq, View(x).rows[r]) == Some(k);
        OldKeyIsOwned(rules, x, r, uq, k);
      }
      if k in x.snapshot.owners {
        PkKeyIsOwn(rules, x.snapshot, r, row, k);
      }
      if k in x.writes.owners {
        PkKeyIsOwn(rules, View(x), r, row, k);
      }
    }
  }

  /** What an insert must meet, said of the rows. */
  ghost predicate Insertable(rules: Rules, x: Txn, table: string, row: Row) {
    var r := RowRef(table, rules.pk(table, row));
    && rules.Known(table)
    && rules.valid(table, row)
    && r !in View(x).rows
    && (forall uq :: uq in rules.Declared(table) && rules.key(table, uq, row).Some? ==>
          !HeldByOther(rules, x, rules.key(table, uq, row).value, r))
    && (forall fk, p :: rules.References(table, row, fk, p) ==> Findable(rules, x, p))
  }

  /** An insert is accepted exactly when the row is valid, its primary key is free, no other
      row holds one of its unique keys, and every row it references can be found. */
  lemma InsertAcceptedExactly(rules: Rules, x: Txn, table: string, row: Row, explicit: bool)
    requires rules.WellFormed() && Local(rules, x) && InsertInScope(rules, x, table, row, explicit)
    ensures Inserted(rules, x, table, row, explicit).Accepted? <==> Insertable(rules, x, table, row)
  {
    var r := RowRef(table, rules.pk(table, row));
    TakenExactly(rules, x, r, row, None);
    if rules.valid(table, row) {
      PkTakenExactly(rules, x, table, row, explicit);
    }
    OrphanedExactly(rules, x, table, row);
    assert forall uq :: GainedKey(rules, r.table, uq, row, None) == rules.key(r.table, uq, row);
  }

  /** What the full path of an update must meet, said of the rows. */
  ghost predicate Updatable(rules: Rules, x: Txn, r: RowRef, values: Row) {
    && rules.Known(r.table)
    && Findable(rules, x, r)
    && rules.valid(r.table, values)
    && (forall uq :: uq in rules.Declared(r.table) && GainedKey(rules, r.table, uq, values, Seen(x, r)).Some? ==>
          !HeldByOther(rules, x, GainedKey(rules, r.table, uq, values, Seen(x, r)).value, r))
    && (forall fk, p :: rules.References(r.table, values, fk, p) ==> Findable(rules, x, p))
  }

  /** An update is accepted, on its fast path exactly when the row is in the snapshot and
      nobody has changed it since, and otherwise exactly when the row can be found, the new
      value is valid, no other row holds a key it gains, and every row it references can be
      found. */
  lemma UpdateAcceptedExactly(rules: Rules, x: Txn, r: RowRef, patch: Row, current: bool)
    requires rules.WellFormed() && Local(rules, x) && !WroteRow(x.writes, r)
    requires r in View(x).rows ==> rules.pk(r.table, View(x).rows[r] + patch) == r.pk
    ensures rules.FastUpdates(r.table) ==>
              (UpdatedBy(rules, x, r, patch, current).Accepted? <==> current && r in View(x).rows)
    ensures !rules.FastUpdates(r.table) ==>
              (UpdatedBy(rules, x, r, patch, current).Accepted? <==>
                 r in View(x).rows && Updatable(rules, x, r, View(x).rows[r] + patch))
  {
    UnwrittenIsSnapshot(x, r);
    if !rules.FastUpdates(r.table) {
      LookupIsView(rules, x, r);
      if r in View(x).rows && Answered(rules, x, r.table) {
        ReplacedExactly(rules, x, r, View(x).rows[r] + patch);
      }
    }
  }

  lemma ReplacedExactly(rules: Rules, x: Txn, r: RowRef, values: Row)
    requires Local(rules, x) && !WroteRow(x.writes, r) && Findable(rules, x, r) && rules.pk(r.table, values) == r.pk
    ensures rules.Known(r.table) && Replaced(rules, x, r, View(x).rows[r], values).Accepted? <==>
            Updatable(rules, x, r, values)
  {
    var was := Some(View(x).rows[r]);
    ReplacedUnfolds(rules, x, r, View(x).rows[r], values);
    TakenExactly(rules, x, r, values, was);
    OrphanedExactly(rules, x, r.table, values);
  }

  lemma ReplacedUnfolds(rules: Rules, x: Txn, r: RowRef, was: Row, values: Row)
    requires rules.pk(r.table, values) == r.pk
    ensures Replaced(rules, x, r, was, values).Accepted? <==>
            && rules.valid(r.table, values)
            && Taken(rules, x, rules.Declared(r.table), r, values, Some(was)) == None
            && Orphaned(rules, x, rules.ForeignKeys(r.table), values) == None
  {
  }
}
