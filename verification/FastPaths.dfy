/** The paths on which `update` and `delete` skip the checks and the guards: what they keep,
    and exactly when. */
module FastPaths {
  import opened Strings
  import opened Values
  import opened Schema
  import opened Overlay
  import opened Planner
  import opened Rules
  import opened Guards
  import opened Operations
  import opened Keeping
  import opened RowOps

  lemma FastIsUnguarded(rules: Rules, table: string)
    requires rules.WellFormed() && rules.FastDeletes(table)
    ensures rules.Guarded(table) == [] && !rules.Referenced(table)
  {
    GuardedSplits(rules, table);
    UnreferencedTable(rules, table);
  }

  // ── update ───────────────────────────────────────────────────────────────

  /** Every reference of the new value has its parent, and was there before or points at a
      parent whose guard the transaction has written anyway. */
  ghost predicate PatchKeepsReferences(rules: Rules, x: Txn, r: RowRef, stored: Row) {
    forall fk, p :: rules.References(r.table, stored, fk, p) ==>
      && p in View(x).rows
      && (WroteGuard(x.writes, p) || (r in x.snapshot.rows && rules.References(r.table, x.snapshot.rows[r], fk, p)))
  }

  /** The fast path keeps a transaction sound exactly when the new value keeps the primary key
      and is valid, and the patch makes no new reference that is unchecked or untouched. */
  lemma FastUpdateIsSafeExactly(rules: Rules, x: Txn, r: RowRef, patch: Row)
    requires rules.WellFormed() && Local(rules, x) && !WroteRow(x.writes, r) && r in x.snapshot.rows
    requires rules.FastUpdates(r.table)
    ensures var stored := x.snapshot.rows[r] + patch;
            Local(rules, UpdatedFast(rules, x, r, patch, true).txn)
            <==> rules.pk(r.table, stored) == r.pk && rules.valid(r.table, stored) && PatchKeepsReferences(rules, x, r, stored)
  {
    var stored := x.snapshot.rows[r] + patch;
    var q := RowRef(r.table, rules.pk(r.table, stored));
    var y := FastRow(x, r, q, stored);
    FastView(rules, x, r, q, stored);
    UnwrittenIsSnapshot(x, r);
    if q != r {
      MovedIsUnread(rules, x, y, r, stored);
    } else if rules.valid(r.table, stored) && PatchKeepsReferences(rules, x, r, stored) {
      FastKeepsLocal(rules, x, r, stored);
    }
    if q == r && Local(rules, y) {
      assert y.writes.rows[r] == stored && View(y).rows[r] == stored;
      forall fk, p | rules.References(r.table, stored, fk, p)
        ensures p in View(x).rows
        ensures WroteGuard(x.writes, p) || rules.References(r.table, x.snapshot.rows[r], fk, p)
      {
        assert p in View(y).rows && p != r;
      }
    }
  }

  lemma FastView(rules: Rules, x: Txn, r: RowRef, q: RowRef, stored: Row)
    ensures View(FastRow(x, r, q, stored)).rows == View(x).rows[q := stored]
    ensures View(FastRow(x, r, q, stored)).owners == View(x).owners
  {
    MapUpdate(x.snapshot.rows - x.writes.rowDels, x.writes.rows, q, stored);
  }

  lemma MapUpdate(m: map<RowRef, Row>, puts: map<RowRef, Row>, q: RowRef, row: Row)
    ensures m + puts[q := row] == (m + puts)[q := row]
  {
  }

  /** A fast update to another primary key adds a row and keeps the old one, or silently
      replaces the row of that key. What would be committed is sound exactly when the new
      value is valid and its references have their parents. */
  lemma FastMoveExactly(rules: Rules, x: Txn, r: RowRef, patch: Row)
    requires rules.WellFormed() && Local(rules, x) && !WroteRow(x.writes, r) && r in x.snapshot.rows
    requires rules.FastUpdates(r.table)
    ensures var stored := x.snapshot.rows[r] + patch;
            var y, q := UpdatedFast(rules, x, r, patch, true).txn, RowRef(r.table, rules.pk(r.table, stored));
            && View(y).rows == View(x).rows[q := stored]
            && (View(y).rows == (View(x).rows - {r})[q := stored] <==> q == r)
            && (Sound(rules, View(y)) <==>
                  rules.valid(r.table, stored) && forall fk, p :: rules.References(r.table, stored, fk, p) ==> p in View(x).rows)
  {
    var stored := x.snapshot.rows[r] + patch;
    var q := RowRef(r.table, rules.pk(r.table, stored));
    var y := FastRow(x, r, q, stored);
    FastView(rules, x, r, q, stored);
    UnwrittenIsSnapshot(x, r);
    FastIsUnguarded(rules, r.table);
    assert q != r ==> r in View(y).rows && r !in (View(x).rows - {r})[q := stored];
    assert q == r ==> View(x).rows[q := stored] == (View(x).rows - {r})[q := stored];
    PlainPutExactly(rules, View(x), View(y), q, stored);
  }

  /** A row put into a table without guards, which nothing references. */
  lemma PlainPutExactly(rules: Rules, s: Store, t: Store, q: RowRef, row: Row)
    requires Sound(rules, s) && t.rows == s.rows[q := row] && t.owners == s.owners
    requires rules.Guarded(q.table) == [] && !rules.Referenced(q.table) && rules.pk(q.table, row) == q.pk
    ensures Sound(rules, t) <==>
            rules.valid(q.table, row) && forall fk, p :: rules.References(q.table, row, fk, p) ==> p in s.rows
  {
    PlainPutOrphans(rules, s, t, q, row);
    assert rules.valid(q.table, row) <==> AllValid(rules, t) by {
      assert t.rows[q] == row;
    }
  }

  lemma PlainPutOrphans(rules: Rules, s: Store, t: Store, q: RowRef, row: Row)
    requires NoOrphans(rules, s) && t.rows == s.rows[q := row] && !rules.Referenced(q.table)
    ensures NoOrphans(rules, t) <==> forall fk, p :: rules.References(q.table, row, fk, p) ==> p in s.rows
  {
    forall c, fk, p | rules.References(c, row, fk, p) ensures p != q {
      ReferencedBy(rules, c, row, fk, p);
    }
    if NoOrphans(rules, t) {
      forall fk, p | rules.References(q.table, row, fk, p) ensures p in s.rows {
        assert t.rows[q] == row && p in t.rows;
      }
    }
  }

  lemma FastIsWritten(rules: Rules, x: Txn, r: RowRef, stored: Row)
    requires rules.pk(r.table, stored) == r.pk && rules.valid(r.table, stored)
    requires x.touched <= x.writes.guards.Keys && !WroteRow(x.writes, r)
    ensures RowWritten(rules, x, FastRow(x, r, r, stored), r, Some(stored), map[], {}, {})
  {
    assert x.writes.owners + map[] == x.writes.owners;
    assert StagedAs(rules, Update(r.table, r.pk, 0, stored), r, Some(stored));
  }

  lemma FastKeepsLocal(rules: Rules, x: Txn, r: RowRef, stored: Row)
    requires rules.WellFormed() && Local(rules, x) && !WroteRow(x.writes, r) && r in x.snapshot.rows
    requires rules.FastUpdates(r.table) && rules.pk(r.table, stored) == r.pk && rules.valid(r.table, stored)
    requires PatchKeepsReferences(rules, x, r, stored)
    ensures Local(rules, FastRow(x, r, r, stored)) && View(FastRow(x, r, r, stored)).rows == View(x).rows[r := stored]
  {
    var y := FastRow(x, r, r, stored);
    UnwrittenIsSnapshot(x, r);
    FastIsWritten(rules, x, r, stored);
    FastIsUnguarded(rules, r.table);
    WrittenRows(rules, x, y, r, Some(stored), map[], {}, {});
    WriteKeepsUnderPk(rules, x, y, r, Some(stored), map[], {}, {});
    WriteKeepsFaithful(rules, x, y, r, Some(stored), map[], {}, {});
    WriteKeepsOwned(rules, x, y, r, Some(stored), map[], {}, {});
    WriteKeepsNoStale(rules, x, y, r, Some(stored), map[], {}, {});
    WriteKeepsPuts(rules, x, y, r, Some(stored), map[], {}, {});
    FastKeepsReferences(rules, x, r, stored);
  }

  lemma FastKeepsReferences(rules: Rules, x: Txn, r: RowRef, stored: Row)
    requires Local(rules, x) && !WroteRow(x.writes, r) && r in x.snapshot.rows && rules.pk(r.table, stored) == r.pk
    requires PatchKeepsReferences(rules, x, r, stored) && rules.valid(r.table, stored)
    ensures var y := FastRow(x, r, r, stored);
            NoOrphans(rules, View(y)) && ParentsTouched(rules, y) && DeletesTouched(rules, y)
  {
    var y := FastRow(x, r, r, stored);
    FastIsWritten(rules, x, r, stored);
    WrittenRows(rules, x, y, r, Some(stored), map[], {}, {});
    forall c, fk, p | c in View(y).rows && rules.References(c.table, View(y).rows[c], fk, p) ensures p in View(y).rows {
      if c != r {
        assert rules.References(c.table, View(x).rows[c], fk, p);
      }
    }
  }

  /** An update the theorems cover: the row has not been written in this transaction, it
      keeps its primary key, and a patch on the fast path is valid and brings no reference
      that is unchecked or untouched. */
  ghost predicate UpdateInScope(rules: Rules, x: Txn, r: RowRef, patch: Row) {
    && !WroteRow(x.writes, r)
    && (r in View(x).rows ==>
          var values := View(x).rows[r] + patch;
          && rules.pk(r.table, values) == r.pk
          && (rules.FastUpdates(r.table) ==> rules.valid(r.table, values) && PatchKeepsReferences(rules, x, r, values)))
  }

  lemma UpdatedByKeeps(rules: Rules, x: Txn, r: RowRef, patch: Row, current: bool)
    requires rules.WellFormed() && Local(rules, x) && UpdateInScope(rules, x, r, patch)
    ensures Local(rules, UpdatedBy(rules, x, r, patch, current).txn)
  {
    if !rules.FastUpdates(r.table) {
      UpdateKeeps(rules, x, r, patch);
    } else if UpdatedFast(rules, x, r, patch, current).Accepted? {
      UnwrittenIsSnapshot(x, r);
      FastKeepsLocal(rules, x, r, View(x).rows[r] + patch);
    }
  }

  // ── delete ───────────────────────────────────────────────────────────────

  lemma FastDropIsWritten(rules: Rules, x: Txn, r: RowRef)
    requires x.touched <= x.writes.guards.Keys && !WroteRow(x.writes, r)
    ensures RowWritten(rules, x, FastDrop(x, r), r, None, map[], {}, {})
  {
    assert x.writes.owners + map[] == x.writes.owners;
  }

  /** The fast path of `delete` always keeps a transaction sound: nothing can reference the
      row and it has no guards. */
  lemma FastDeleteKeeps(rules: Rules, x: Txn, r: RowRef, found: bool)
    requires rules.WellFormed() && Local(rules, x) && !WroteRow(x.writes, r) && rules.FastDeletes(r.table)
    ensures Local(rules, DeletedFast(x, r, found).txn)
    ensures DeletedFast(x, r, found).Accepted? ==> View(DeletedFast(x, r, found).txn).rows == View(x).rows - {r}
  {
    var y := FastDrop(x, r);
    FastIsUnguarded(rules, r.table);
    FastDropIsWritten(rules, x, r);
    forall c, fk | c in View(x).rows ensures !rules.References(c.table, View(x).rows[c], fk, r) {
      UnreferencedBy(rules, c.table, View(x).rows[c], fk, r);
    }
    WriteKeepsLocal(rules, x, y, r, None, map[], {}, {});
    WrittenRows(rules, x, y, r, None, map[], {}, {});
  }
}
