/** Commit under snapshot isolation where the first committer wins: what a transaction may
    rely on about the store it did not read, and why committing keeps the store sound. */
module Commit {
  import opened Strings
  import opened Values
  import opened Schema
  import opened Planner
  import opened Rules
  import opened Guards

  /** An open transaction, and the keys others have committed since its snapshot. */
  datatype Live = Live(txn: Txn, since: set<Key>)

  /** The engine refuses the commit: a key it writes was committed since its snapshot. */
  predicate Conflicts(l: Live) {
    exists key :: key in l.since && Wrote(l.txn.writes, key)
  }

  function KeysOf(w: Writes): (keys: set<Key>)
    ensures forall key :: key in keys <==> Wrote(w, key)
  {
    (set r | r in w.rows.Keys + w.rowDels :: RowKey(r))
    + (set k | k in w.owners.Keys + w.ownerDels :: OwnerKey(k))
    + (set g | g in w.guards.Keys + w.guardDels :: GuardKey(g))
  }

  predicate SameRow(s: Store, t: Store, r: RowRef) {
    (r in s.rows <==> r in t.rows) && (r in s.rows ==> s.rows[r] == t.rows[r])
  }

  predicate SameOwner(s: Store, t: Store, k: string) {
    (k in s.owners <==> k in t.owners) && (k in s.owners ==> s.owners[k] == t.owners[k])
  }

  // ── how far the store can have moved from a snapshot ─────────────────────

  /** Keys nobody has committed since are as the snapshot has them. */
  ghost predicate Unmoved(s: Store, l: Live) {
    && (forall r :: RowKey(r) !in l.since ==> SameRow(s, l.txn.snapshot, r))
    && (forall k :: OwnerKey(k) !in l.since ==> SameOwner(s, l.txn.snapshot, k))
  }

  /** A parent that has gone since left its guard committed. */
  ghost predicate LostParents(rules: Rules, s: Store, l: Live) {
    forall p :: p in l.txn.snapshot.rows && p !in s.rows && rules.Referenced(p.table) ==> GuardKey(p) in l.since
  }

  /** A reference that has come since left its parent's guard committed. */
  ghost predicate NewReferences(rules: Rules, s: Store, l: Live) {
    forall r, fk, p :: r in s.rows && rules.References(r.table, s.rows[r], fk, p) ==>
      GuardKey(p) in l.since
      || (r in l.txn.snapshot.rows && rules.References(r.table, l.txn.snapshot.rows[r], fk, p))
  }

  ghost predicate Tracked(rules: Rules, s: Store, l: Live) {
    Unmoved(s, l) && LostParents(rules, s, l) && NewReferences(rules, s, l)
  }

  // ── the committed store ──────────────────────────────────────────────────

  lemma NoConflictRow(s: Store, l: Live, r: RowRef)
    requires Unmoved(s, l) && !Conflicts(l) && WroteRow(l.txn.writes, r)
    ensures SameRow(s, l.txn.snapshot, r)
  {
    assert Wrote(l.txn.writes, RowKey(r));
  }

  lemma NoConflictOwner(s: Store, l: Live, k: string)
    requires Unmoved(s, l) && !Conflicts(l) && WroteOwner(l.txn.writes, k)
    ensures SameOwner(s, l.txn.snapshot, k)
  {
    assert Wrote(l.txn.writes, OwnerKey(k));
  }

  lemma NoConflictGuard(l: Live, g: RowRef)
    requires !Conflicts(l) && WroteGuard(l.txn.writes, g)
    ensures GuardKey(g) !in l.since
  {
    assert Wrote(l.txn.writes, GuardKey(g));
  }

  /** A row put by the transaction: its parent is still there. */
  lemma PutRowHasParent(rules: Rules, s: Store, l: Live, r: RowRef, fk: ForeignKey, p: RowRef)
    requires Sound(rules, s) && Local(rules, l.txn) && Tracked(rules, s, l) && !Conflicts(l)
    requires r in l.txn.writes.rows && rules.References(r.table, l.txn.writes.rows[r], fk, p)
    requires rules.Referenced(p.table)
    ensures p in Applied(s, l.txn.writes).rows
  {
    var x := l.txn;
    assert r in View(x).rows && View(x).rows[r] == x.writes.rows[r];
    assert p in View(x).rows;
    if p !in x.writes.rows {
      if WroteGuard(x.writes, p) {
        NoConflictGuard(l, p);
      } else {
        NoConflictRow(s, l, r);
        assert rules.References(r.table, s.rows[r], fk, p);
      }
    }
  }

  /** A row the transaction did not touch: its parent has not been deleted under it. */
  lemma OldRowHasParent(rules: Rules, s: Store, l: Live, r: RowRef, fk: ForeignKey, p: RowRef)
    requires Sound(rules, s) && Local(rules, l.txn) && Tracked(rules, s, l) && !Conflicts(l)
    requires r in s.rows && !WroteRow(l.txn.writes, r) && rules.References(r.table, s.rows[r], fk, p)
    requires rules.Referenced(p.table)
    ensures p in Applied(s, l.txn.writes).rows
  {
    var x := l.txn;
    assert p in s.rows;
    if p in x.writes.rowDels && p !in x.writes.rows {
      NoConflictGuard(l, p);
      assert rules.References(r.table, x.snapshot.rows[r], fk, p);
      UnwrittenIsSnapshot(x, r);
    }
  }

  lemma CommitKeepsNoOrphans(rules: Rules, s: Store, l: Live)
    requires Sound(rules, s) && Local(rules, l.txn) && Tracked(rules, s, l) && !Conflicts(l)
    ensures NoOrphans(rules, Applied(s, l.txn.writes))
  {
    var after := Applied(s, l.txn.writes);
    forall r, fk, p | r in after.rows && rules.References(r.table, after.rows[r], fk, p) ensures p in after.rows {
      ReferencedBy(rules, r.table, after.rows[r], fk, p);
      if r in l.txn.writes.rows {
        PutRowHasParent(rules, s, l, r, fk, p);
      } else {
        OldRowHasParent(rules, s, l, r, fk, p);
      }
    }
  }

  lemma PutRowOwns(rules: Rules, s: Store, l: Live, r: RowRef, c: string, k: string)
    requires Sound(rules, s) && Local(rules, l.txn) && Unmoved(s, l) && !Conflicts(l)
    requires r in l.txn.writes.rows && rules.HasKey(r.table, l.txn.writes.rows[r], c, k)
    ensures var after := Applied(s, l.txn.writes); k in after.owners && after.owners[k] == Owner(c, r)
  {
    var x := l.txn;
    assert r in View(x).rows && View(x).rows[r] == x.writes.rows[r];
    assert k in View(x).owners && View(x).owners[k] == Owner(c, r);
    if k !in x.writes.owners {
      assert k in x.snapshot.owners && x.snapshot.owners[k] == Owner(c, r);
      assert rules.HasKey(r.table, x.snapshot.rows[r], c, k);
      NoConflictRow(s, l, r);
      assert k in s.owners && s.owners[k] == Owner(c, r);
    }
  }

  lemma OldRowOwns(rules: Rules, s: Store, l: Live, r: RowRef, c: string, k: string)
    requires Sound(rules, s) && Local(rules, l.txn) && Unmoved(s, l) && !Conflicts(l)
    requires r in s.rows && !WroteRow(l.txn.writes, r) && rules.HasKey(r.table, s.rows[r], c, k)
    ensures var after := Applied(s, l.txn.writes); k in after.owners && after.owners[k] == Owner(c, r)
  {
    var x := l.txn;
    assert k in s.owners && s.owners[k] == Owner(c, r);
    if WroteOwner(x.writes, k) {
      NoConflictOwner(s, l, k);
    }
  }

  lemma CommitKeepsOwned(rules: Rules, s: Store, l: Live)
    requires Sound(rules, s) && Local(rules, l.txn) && Unmoved(s, l) && !Conflicts(l)
    ensures Owned(rules, Applied(s, l.txn.writes))
  {
    var after := Applied(s, l.txn.writes);
    forall r, c, k | r in after.rows && rules.HasKey(r.table, after.rows[r], c, k)
      ensures k in after.owners && after.owners[k] == Owner(c, r)
    {
      if r in l.txn.writes.rows {
        PutRowOwns(rules, s, l, r, c, k);
      } else {
        OldRowOwns(rules, s, l, r, c, k);
      }
    }
  }

  lemma CommitKeepsNoStale(rules: Rules, s: Store, l: Live)
    requires Sound(rules, s) && Local(rules, l.txn) && Unmoved(s, l) && !Conflicts(l)
    ensures NoStale(rules, Applied(s, l.txn.writes))
  {
    var after := Applied(s, l.txn.writes);
    forall k | k in after.owners
      ensures var o := after.owners[k];
              o.row in after.rows && rules.HasKey(o.row.table, after.rows[o.row], o.constraint, k)
    {
      KeptOwnerHasRow(rules, s, l, k);
    }
  }

  lemma KeptOwnerHasRow(rules: Rules, s: Store, l: Live, k: string)
    requires Sound(rules, s) && Local(rules, l.txn) && Unmoved(s, l) && !Conflicts(l)
    requires k in Applied(s, l.txn.writes).owners
    ensures var after := Applied(s, l.txn.writes);
            var o := after.owners[k];
            o.row in after.rows && rules.HasKey(o.row.table, after.rows[o.row], o.constraint, k)
  {
    var x := l.txn;
    var o := Applied(s, x.writes).owners[k];
    if k in x.writes.owners {
      assert View(x).owners[k] == o && o.row in x.writes.rows;
    } else {
      assert rules.HasKey(o.row.table, s.rows[o.row], o.constraint, k);
      if WroteRow(x.writes, o.row) {
        NoConflictRow(s, l, o.row);
        assert rules.HasKey(o.row.table, x.snapshot.rows[o.row], o.constraint, k);
        assert k in View(x).owners && View(x).owners[k] == o;
        assert o.row in View(x).rows;
      }
    }
  }

  /** A commit without conflicts keeps the store sound. */
  lemma CommitKeepsSound(rules: Rules, s: Store, l: Live)
    requires Sound(rules, s) && Local(rules, l.txn) && Tracked(rules, s, l) && !Conflicts(l)
    ensures Sound(rules, Applied(s, l.txn.writes))
  {
    CommitKeepsNoOrphans(rules, s, l);
    CommitKeepsOwned(rules, s, l);
    CommitKeepsNoStale(rules, s, l);
    CommitKeepsRows(rules, s, l.txn);
  }

  lemma CommitKeepsRows(rules: Rules, s: Store, x: Txn)
    requires UnderPk(rules, s) && AllValid(rules, s) && UnderPk(rules, View(x)) && AllValid(rules, View(x))
    ensures UnderPk(rules, Applied(s, x.writes)) && AllValid(rules, Applied(s, x.writes))
  {
    var after := Applied(s, x.writes);
    forall r | r in after.rows
      ensures rules.pk(r.table, after.rows[r]) == r.pk && rules.valid(r.table, after.rows[r])
    {
      if r in x.writes.rows {
        assert View(x).rows[r] == after.rows[r];
      }
    }
  }

  // ── the other open transactions ──────────────────────────────────────────

  function Overtaken(m: Live, w: Writes): Live {
    m.(since := m.since + KeysOf(w))
  }

  lemma CommitKeepsUnmoved(s: Store, w: Writes, m: Live)
    requires Unmoved(s, m)
    ensures Unmoved(Applied(s, w), Overtaken(m, w))
  {
    var after, n := Applied(s, w), Overtaken(m, w);
    forall r | RowKey(r) !in n.since ensures SameRow(after, n.txn.snapshot, r) {
      assert !Wrote(w, RowKey(r)) && SameRow(s, m.txn.snapshot, r);
    }
    forall k | OwnerKey(k) !in n.since ensures SameOwner(after, n.txn.snapshot, k) {
      assert !Wrote(w, OwnerKey(k)) && SameOwner(s, m.txn.snapshot, k);
    }
  }

  lemma CommitKeepsNewReferences(rules: Rules, s: Store, l: Live, m: Live)
    requires Local(rules, l.txn) && Unmoved(s, l) && !Conflicts(l) && NewReferences(rules, s, m)
    ensures NewReferences(rules, Applied(s, l.txn.writes), Overtaken(m, l.txn.writes))
  {
    var w := l.txn.writes;
    var after, n := Applied(s, w), Overtaken(m, w);
    forall r, fk, p | r in after.rows && rules.References(r.table, after.rows[r], fk, p)
      ensures GuardKey(p) in n.since
           || (r in n.txn.snapshot.rows && rules.References(r.table, n.txn.snapshot.rows[r], fk, p))
    {
      if r in w.rows {
        if WroteGuard(w, p) {
          assert Wrote(w, GuardKey(p));
        } else {
          NoConflictRow(s, l, r);
          assert rules.References(r.table, s.rows[r], fk, p);
        }
      } else {
        assert rules.References(r.table, s.rows[r], fk, p);
      }
    }
  }

  /** A commit leaves enough behind for every other open transaction. */
  lemma CommitKeepsTracked(rules: Rules, s: Store, l: Live, m: Live)
    requires Local(rules, l.txn) && Unmoved(s, l) && !Conflicts(l) && Tracked(rules, s, m)
    ensures Tracked(rules, Applied(s, l.txn.writes), Overtaken(m, l.txn.writes))
  {
    var w := l.txn.writes;
    CommitKeepsUnmoved(s, w, m);
    CommitKeepsNewReferences(rules, s, l, m);
    forall p | p in m.txn.snapshot.rows && p !in Applied(s, w).rows && rules.Referenced(p.table)
      ensures GuardKey(p) in Overtaken(m, w).since
    {
      if p in s.rows {
        assert Wrote(w, GuardKey(p));
      }
    }
  }
}
