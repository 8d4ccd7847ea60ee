/** Every operation on one row keeps the transaction sound. */
module Keeping {
  import opened Strings
  import opened Values
  import opened Schema
  import opened Overlay
  import opened Planner
  import opened Rules
  import opened Guards
  import opened Operations

  // ── reads ────────────────────────────────────────────────────────────────

  /** Within a sound transaction a scan finds what its commit would leave. */
  lemma ReadIsView(rules: Rules, x: Txn, r: RowRef)
    requires Faithful(rules, x)
    ensures Read(rules, x, r).Some? <==> r in View(x).rows
    ensures r in View(x).rows ==> rules.Alike(r.table, Read(rules, x, r).value, View(x).rows[r])
    ensures r !in x.writes.rows ==> Read(rules, x, r) == Seen(x, r)
  {
    assert FaithfulAt(rules, x, r);
  }

  /** A lookup finds exactly the rows that are visible, in tables whose lookups are answered. */
  lemma LookupIsView(rules: Rules, x: Txn, r: RowRef)
    requires Faithful(rules, x)
    ensures Lookup(rules, x, r).Some? <==> r in View(x).rows && Answered(rules, x, r.table)
    ensures Answered(rules, x, r.table) && r !in x.writes.rows ==> Lookup(rules, x, r) == Seen(x, r)
  {
    ReadIsView(rules, x, r);
  }

  /** The second look at the staged rows never finds a row that is not visible. */
  lemma ExistsIsView(rules: Rules, x: Txn, r: RowRef)
    requires Faithful(rules, x) && UpdatesKeepPk(rules, x)
    ensures Exists(rules, x, r) <==> r in View(x).rows && Answered(rules, x, r.table)
  {
    LookupIsView(rules, x, r);
    ReadIsView(rules, x, r);
    StagedIsVisible(KeyedAs(rules, r.table), TableOf(x.snapshot, r.table), x.staged, r.pk);
    StagedIsStaged(KeyedAs(rules, r.table), x.staged, r.pk);
  }

  /** In any transaction: a row counts as there exactly when its lookup finds it, or the second
      look still finds it under a key it has left. */
  lemma ExistsExactly(rules: Rules, x: Txn, r: RowRef)
    ensures Exists(rules, x, r) <==> Lookup(rules, x, r).Some? || StillCounts(KeyedAs(rules, r.table), x.staged, r.pk)
  {
    MovedRowCountsExactly(KeyedAs(rules, r.table), TableOf(x.snapshot, r.table), x.staged, r.pk);
    StagedIsStaged(KeyedAs(rules, r.table), x.staged, r.pk);
  }

  /** A row that is staged as moved to another key, and stays where it was, is no longer read
      there. */
  lemma MovedIsUnread(rules: Rules, x: Txn, y: Txn, r: RowRef, values: Row)
    requires y.snapshot == x.snapshot && y.staged == x.staged + [Update(r.table, r.pk, 0, values)]
    requires rules.pk(r.table, values) != r.pk && r in View(y).rows
    ensures !Faithful(rules, y)
  {
    assert y.staged[..|x.staged|] == x.staged;
    ReadsAfter(rules, x, y, r.table);
    assert r.pk !in Reads(rules, y, r.table);
    assert !FaithfulAt(rules, y, r);
  }

  // ── checks ───────────────────────────────────────────────────────────────

  lemma {:induction false} UntakenIsFree(rules: Rules, x: Txn, uqs: seq<UniqueConstraint>, r: RowRef, row: Row, was: Option<Row>, uq: UniqueConstraint)
    requires Taken(rules, x, uqs, r, row, was) == None && uq in uqs
    requires GainedKey(rules, r.table, uq, row, was).Some?
    ensures KeyFree(x, GainedKey(rules, r.table, uq, row, was).value, r)
  {
    if uq != uqs[0] {
      UntakenIsFree(rules, x, uqs[1..], r, row, was, uq);
    }
  }

  lemma {:induction false} UnorphanedExists(rules: Rules, x: Txn, fks: seq<ForeignKey>, row: Row, fk: ForeignKey)
    requires Orphaned(rules, x, fks, row) == None && fk in fks && rules.parent(fk, row).Some?
    ensures Exists(rules, x, RowRef(fk.referencesTable, rules.parent(fk, row).value))
  {
    if fk != fks[0] {
      UnorphanedExists(rules, x, fks[1..], row, fk);
    }
  }

  // ── what reserving does ──────────────────────────────────────────────────

  lemma {:induction false} WithoutKeyHas(entries: seq<StagedUnique>, k: string, s: StagedUnique)
    ensures s in WithoutKey(entries, k) <==> s in entries && s.key != k
  {
    if entries != [] {
      WithoutKeyHas(entries[1..], k, s);
      assert s in entries <==> s == entries[0] || s in entries[1..];
    }
  }

  lemma {:induction false} WithoutOwnerHas(entries: seq<StagedUnique>, r: RowRef, s: StagedUnique)
    ensures s in WithoutOwner(entries, r) <==> s in entries && s.owner != r
  {
    if entries != [] {
      WithoutOwnerHas(entries[1..], r, s);
      assert s in entries <==> s == entries[0] || s in entries[1..];
    }
  }

  lemma {:induction false} WithoutTableHas(entries: seq<StagedUnique>, table: string, s: StagedUnique)
    ensures s in WithoutTable(entries, table) <==> s in entries && s.owner.table != table
  {
    if entries != [] {
      WithoutTableHas(entries[1..], table, s);
      assert s in entries <==> s == entries[0] || s in entries[1..];
    }
  }

  /** The guards `Reserve` puts. */
  ghost function NewKeys(rules: Rules, uqs: seq<UniqueConstraint>, r: RowRef, row: Row, was: Option<Row>): map<string, Owner> {
    if uqs == [] then map[]
    else
      var before, uq := NewKeys(rules, uqs[..|uqs| - 1], r, row, was), uqs[|uqs| - 1];
      before + NewKey(rules, uq, r, row, was)
  }

  /** The row had the key and no longer does. */
  predicate Loses(rules: Rules, uq: UniqueConstraint, r: RowRef, row: Row, was: Option<Row>, k: string) {
    OldKey(rules, r.table, uq, was) == Some(k) && rules.key(r.table, uq, row) != Some(k)
  }

  /** The guards `Reserve` deletes. */
  ghost function LostKeys(rules: Rules, x: Txn, uqs: seq<UniqueConstraint>, r: RowRef, row: Row, was: Option<Row>): set<string> {
    set k | k in x.snapshot.owners && exists uq :: uq in uqs && Loses(rules, uq, r, row, was, k)
  }

  lemma {:induction false} NewKeysFrom(rules: Rules, uqs: seq<UniqueConstraint>, r: RowRef, row: Row, was: Option<Row>, k: string)
    returns (uq: UniqueConstraint)
    requires k in NewKeys(rules, uqs, r, row, was)
    ensures uq in uqs && GainedKey(rules, r.table, uq, row, was) == Some(k)
    ensures NewKeys(rules, uqs, r, row, was)[k] == Owner(uq.name, r)
    decreases |uqs|
  {
    var last := uqs[|uqs| - 1];
    if GainedKey(rules, r.table, last, row, was) == Some(k) {
      uq := last;
    } else {
      uq := NewKeysFrom(rules, uqs[..|uqs| - 1], r, row, was, k);
    }
  }

  lemma {:induction false} NewKeysHas(rules: Rules, uqs: seq<UniqueConstraint>, r: RowRef, row: Row, was: Option<Row>, uq: UniqueConstraint, k: string)
    requires rules.WellFormed() && (forall u :: u in uqs ==> u in rules.Guarded(r.table))
    requires uq in uqs && GainedKey(rules, r.table, uq, row, was) == Some(k)
    ensures k in NewKeys(rules, uqs, r, row, was) && NewKeys(rules, uqs, r, row, was)[k] == Owner(uq.name, r)
    decreases |uqs|
  {
    var front, last := uqs[..|uqs| - 1], uqs[|uqs| - 1];
    assert uqs == front + [last];
    if GainedKey(rules, r.table, last, row, was) == Some(k) {
      assert rules.HasKey(r.table, row, last.name, k) && rules.HasKey(r.table, row, uq.name, k);
    } else {
      NewKeysHas(rules, front, r, row, was, uq, k);
    }
  }

  /** A key lost to one constraint is not gained under another. */
  lemma LostIsNotNew(rules: Rules, uqs: seq<UniqueConstraint>, r: RowRef, row: Row, was: Option<Row>, uq: UniqueConstraint, k: string)
    requires rules.WellFormed() && (forall u :: u in uqs ==> u in rules.Guarded(r.table))
    requires uq in rules.Guarded(r.table) && Loses(rules, uq, r, row, was, k)
    ensures k !in NewKeys(rules, uqs, r, row, was)
  {
    if k in NewKeys(rules, uqs, r, row, was) {
      var ur := NewKeysFrom(rules, uqs, r, row, was, k);
      assert rules.HasKey(r.table, row, ur.name, k);
      assert rules.HasKey(r.table, was.value, uq.name, k);
    }
  }

  lemma LostKeysGrow(rules: Rules, x: Txn, uqs: seq<UniqueConstraint>, r: RowRef, row: Row, was: Option<Row>)
    requires uqs != []
    ensures var last := uqs[|uqs| - 1];
            LostKeys(rules, x, uqs, r, row, was) == LostKeys(rules, x, uqs[..|uqs| - 1], r, row, was)
              + (set k | k in x.snapshot.owners && Loses(rules, last, r, row, was, k))
  {
    assert uqs == uqs[..|uqs| - 1] + [uqs[|uqs| - 1]];
  }

  ghost function NewKey(rules: Rules, uq: UniqueConstraint, r: RowRef, row: Row, was: Option<Row>): map<string, Owner> {
    match GainedKey(rules, r.table, uq, row, was)
    case None => map[]
    case Some(k) => map[k := Owner(uq.name, r)]
  }

  lemma ReserveOneEffect(rules: Rules, x: Txn, uq: UniqueConstraint, r: RowRef, row: Row, was: Option<Row>)
    ensures var y := ReserveOne(rules, x, uq, r, row, was);
            && y == x.(writes := x.writes.(owners := x.writes.owners + NewKey(rules, uq, r, row, was),
                                           ownerDels := x.writes.ownerDels + LostKeys(rules, x, [uq], r, row, was)),
                       stagedUnique := y.stagedUnique)
            && (forall s :: s in x.stagedUnique && !Loses(rules, uq, r, row, was, s.key) ==> s in y.stagedUnique)
            && (forall s :: s in y.stagedUnique ==> s in x.stagedUnique || (s.owner == r && s.key in NewKey(rules, uq, r, row, was)))
            && (forall k :: k in NewKey(rules, uq, r, row, was) ==> StagedUnique(k, r) in y.stagedUnique)
  {
    var k, lost := rules.key(r.table, uq, row), OldKey(rules, r.table, uq, was);
    var put := if k.Some? && k != lost then PutKey(x, uq.name, k.value, r) else x;
    assert put.writes.owners == x.writes.owners + NewKey(rules, uq, r, row, was);
    assert forall j :: Loses(rules, uq, r, row, was, j) <==> lost == Some(j) && k != lost;
    if k != lost && lost.Some? {
      assert LostKeys(rules, x, [uq], r, row, was) == set j | j in x.snapshot.owners && j == lost.value;
      forall s ensures s in DropKey(put, lost.value).stagedUnique <==> s in put.stagedUnique && s.key != lost.value {
        WithoutKeyHas(put.stagedUnique, lost.value, s);
      }
    } else {
      assert LostKeys(rules, x, [uq], r, row, was) == {};
    }
  }

  /** `Reserve` changes the unique guards and the list of reserved keys, nothing else. */
  lemma {:induction false} ReserveEffect(rules: Rules, x: Txn, uqs: seq<UniqueConstraint>, r: RowRef, row: Row, was: Option<Row>)
    requires rules.WellFormed() && (forall u :: u in uqs ==> u in rules.Guarded(r.table))
    requires forall u, k :: u in uqs && OldKey(rules, r.table, u, was) == Some(k) ==> k !in x.writes.owners
    ensures var y := Reserve(rules, x, uqs, r, row, was);
            && y == x.(writes := x.writes.(owners := x.writes.owners + NewKeys(rules, uqs, r, row, was),
                                           ownerDels := x.writes.ownerDels + LostKeys(rules, x, uqs, r, row, was)),
                       stagedUnique := y.stagedUnique)
            && (forall s :: s in x.stagedUnique && s.key in x.writes.owners ==> s in y.stagedUnique)
            && (forall s :: s in y.stagedUnique ==> s in x.stagedUnique || (s.owner == r && s.key in NewKeys(rules, uqs, r, row, was)))
            && (forall k :: k in NewKeys(rules, uqs, r, row, was) ==> StagedUnique(k, r) in y.stagedUnique)
    decreases |uqs|
  {
    if uqs == [] {
      assert x.writes.owners + map[] == x.writes.owners;
      assert LostKeys(rules, x, uqs, r, row, was) == {};
    } else {
      var front, uq := uqs[..|uqs| - 1], uqs[|uqs| - 1];
      ReserveEffect(rules, x, front, r, row, was);
      var z := Reserve(rules, x, front, r, row, was);
      ReserveOneEffect(rules, z, uq, r, row, was);
      LostKeysGrow(rules, x, uqs, r, row, was);
      assert LostKeys(rules, z, [uq], r, row, was) == set k | k in x.snapshot.owners && Loses(rules, uq, r, row, was, k);
      StepOwners(x.writes.owners, NewKeys(rules, front, r, row, was), NewKey(rules, uq, r, row, was));
      forall k | Loses(rules, uq, r, row, was, k) ensures k !in NewKeys(rules, front, r, row, was) {
        LostIsNotNew(rules, front, r, row, was, uq, k);
      }
    }
  }

  /** `Reserve` leaves everything but unique guards alone, whatever it starts from. */
  lemma {:induction false} ReserveKeepsRest(rules: Rules, x: Txn, uqs: seq<UniqueConstraint>, r: RowRef, row: Row, was: Option<Row>)
    ensures var y := Reserve(rules, x, uqs, r, row, was);
            y == x.(writes := x.writes.(owners := y.writes.owners, ownerDels := y.writes.ownerDels),
                    stagedUnique := y.stagedUnique)
    decreases |uqs|
  {
    if uqs != [] {
      ReserveKeepsRest(rules, x, uqs[..|uqs| - 1], r, row, was);
    }
  }

  lemma StepOwners(m: map<string, Owner>, front: map<string, Owner>, last: map<string, Owner>)
    ensures m + front + last == m + (front + last)
  {
  }

  // ── what touching does ───────────────────────────────────────────────────

  ghost function Parents(rules: Rules, fks: seq<ForeignKey>, row: Row): set<RowRef> {
    set fk | fk in fks && rules.parent(fk, row).Some? :: RowRef(fk.referencesTable, rules.parent(fk, row).value)
  }

  /** `y` is `x` with more row guards touched. */
  ghost predicate OnlyTouched(x: Txn, y: Txn, touches: set<RowRef>) {
    && y == x.(writes := x.writes.(guards := y.writes.guards, guardDels := y.writes.guardDels), touched := y.touched)
    && x.writes.guards.Keys + touches <= y.writes.guards.Keys
    && x.writes.guardDels <= y.writes.guardDels
    && y.touched <= y.writes.guards.Keys
  }

  /** `TouchParents` leaves everything but row guards alone. */
  lemma {:induction false} TouchKeepsRest(rules: Rules, x: Txn, fks: seq<ForeignKey>, row: Row)
    ensures var y := TouchParents(rules, x, fks, row);
            y == x.(writes := x.writes.(guards := y.writes.guards, guardDels := y.writes.guardDels), touched := y.touched)
    decreases |fks|
  {
    if fks != [] {
      TouchKeepsRest(rules, x, fks[..|fks| - 1], row);
    }
  }

  /** Guarding a row neither opens another snapshot nor stages anything. */
  lemma WithGuardsKeepsRest(rules: Rules, x: Txn, r: RowRef, row: Row, was: Option<Row>)
    ensures var y := WithGuards(rules, x, r, row, was); y.snapshot == x.snapshot && y.staged == x.staged
  {
    ReserveKeepsRest(rules, x, rules.Declared(r.table), r, row, was);
    TouchKeepsRest(rules, Reserve(rules, x, rules.Declared(r.table), r, row, was), rules.ForeignKeys(r.table), row);
  }

  /** An accepted insert stages just its row. */
  lemma InsertStages(rules: Rules, x: Txn, r: RowRef, row: Row, explicit: bool)
    ensures var y := InsertRow(rules, x, r, row, explicit);
            y.snapshot == x.snapshot && y.staged == x.staged + [Insert(r.table, row)]
  {
    var reserved := Reserve(rules, x, rules.Declared(r.table), r, row, None);
    ReserveKeepsRest(rules, x, rules.Declared(r.table), r, row, None);
    TouchKeepsRest(rules, ReservePk(rules, reserved, r, row, explicit), rules.ForeignKeys(r.table), row);
  }

  lemma UpsertStages(rules: Rules, x: Txn, r: RowRef, q: RowRef, merged: Row, stored: Row, was: Row)
    ensures var y := UpsertRow(rules, x, r, q, merged, stored, was);
            && y.snapshot == x.snapshot && y.staged == x.staged + [Update(r.table, r.pk, 0, merged)]
            && y.writes.rows == x.writes.rows[q := stored] && y.writes.rowDels == x.writes.rowDels
  {
    ReserveKeepsRest(rules, x, rules.Declared(q.table), q, merged, Some(was));
    TouchKeepsRest(rules, Reserve(rules, x, rules.Declared(q.table), q, merged, Some(was)), rules.ForeignKeys(q.table), merged);
  }

  lemma {:induction false} TouchEffect(rules: Rules, x: Txn, fks: seq<ForeignKey>, row: Row)
    requires x.touched <= x.writes.guards.Keys
    ensures OnlyTouched(x, TouchParents(rules, x, fks, row), Parents(rules, fks, row))
    decreases |fks|
  {
    if fks != [] {
      var front := fks[..|fks| - 1];
      assert fks == front + [fks[|fks| - 1]];
      TouchEffect(rules, x, front, row);
    }
  }

  // ── keys and references of one row ───────────────────────────────────────

  lemma KeyIsOwned(rules: Rules, x: Txn, r: RowRef, c: string, k: string)
    requires Local(rules, x) && !WroteRow(x.writes, r)
    requires r in View(x).rows && rules.HasKey(r.table, View(x).rows[r], c, k)
    ensures k !in x.writes.owners && k in x.snapshot.owners && x.snapshot.owners[k] == Owner(c, r)
  {
    assert View(x).owners[k] == Owner(c, r);
  }

  lemma OldKeyIsOwned(rules: Rules, x: Txn, r: RowRef, uq: UniqueConstraint, k: string)
    requires Local(rules, x) && !WroteRow(x.writes, r) && r in View(x).rows && uq in rules.Guarded(r.table)
    requires rules.key(r.table, uq, View(x).rows[r]) == Some(k)
    ensures k !in x.writes.owners && k in x.snapshot.owners && x.snapshot.owners[k] == Owner(uq.name, r)
  {
    assert rules.HasKey(r.table, View(x).rows[r], uq.name, k);
    KeyIsOwned(rules, x, r, uq.name, k);
  }

  /** Nobody but the row holds the key, in the snapshot or among the transaction's writes. */
  predicate Unclaimed(x: Txn, k: string, r: RowRef) {
    k !in x.writes.owners && (k in x.snapshot.owners ==> x.snapshot.owners[k].row == r)
  }

  lemma FreeIsUnclaimed(x: Txn, k: string, r: RowRef)
    requires PutsOwned(x) && !WroteRow(x.writes, r) && KeyFree(x, k, r)
    ensures Unclaimed(x, k, r)
  {
  }

  /** The row the transaction sees, if any. */
  function Seen(x: Txn, r: RowRef): Option<Row> {
    if r in View(x).rows then Some(View(x).rows[r]) else None
  }

  /** Gained keys that are free, and lost keys that are released, keep the guards exact. */
  lemma ChangeKeepsKeys(rules: Rules, x: Txn, r: RowRef, row: Row)
    requires rules.WellFormed() && Local(rules, x) && !WroteRow(x.writes, r)
    requires forall uq :: uq in rules.Guarded(r.table) && GainedKey(rules, r.table, uq, row, Seen(x, r)).Some? ==>
               Unclaimed(x, GainedKey(rules, r.table, uq, row, Seen(x, r)).value, r)
    ensures var uqs := rules.Guarded(r.table);
            KeysKept(rules, x, r, Some(row), NewKeys(rules, uqs, r, row, Seen(x, r)), LostKeys(rules, x, uqs, r, row, Seen(x, r)))
  {
    var uqs, was := rules.Guarded(r.table), Seen(x, r);
    var puts, dels := NewKeys(rules, uqs, r, row, was), LostKeys(rules, x, uqs, r, row, was);
    forall k | k in puts
      ensures puts[k].row == r && rules.HasKey(r.table, row, puts[k].constraint, k)
      ensures k !in x.writes.owners && (k in x.snapshot.owners ==> x.snapshot.owners[k].row == r)
    {
      var uq := NewKeysFrom(rules, uqs, r, row, was, k);
    }
    forall k | k in dels ensures k in x.snapshot.owners && x.snapshot.owners[k].row == r {
      var uq :| uq in uqs && Loses(rules, uq, r, row, was, k);
      OldKeyIsOwned(rules, x, r, uq, k);
    }
    forall c, k | rules.HasKey(r.table, row, c, k)
      ensures (k in puts && puts[k] == Owner(c, r))
           || (r in View(x).rows && rules.HasKey(r.table, View(x).rows[r], c, k) && k !in dels)
    {
      HeldKey(rules, x, r, row, c, k);
    }
    forall c, k | r in View(x).rows && rules.HasKey(r.table, View(x).rows[r], c, k)
      ensures k in dels || rules.HasKey(r.table, row, c, k)
    {
      KeyIsOwned(rules, x, r, c, k);
      var uq :| uq in uqs && uq.name == c && rules.key(r.table, uq, View(x).rows[r]) == Some(k);
      assert rules.key(r.table, uq, row) == Some(k) || Loses(rules, uq, r, row, was, k);
    }
  }

  /** A key of the new row is reserved, or was its own and is not released. */
  lemma HeldKey(rules: Rules, x: Txn, r: RowRef, row: Row, c: string, k: string)
    requires rules.WellFormed() && rules.HasKey(r.table, row, c, k)
    ensures var uqs := rules.Guarded(r.table);
            var puts, dels := NewKeys(rules, uqs, r, row, Seen(x, r)), LostKeys(rules, x, uqs, r, row, Seen(x, r));
            || (k in puts && puts[k] == Owner(c, r))
            || (r in View(x).rows && rules.HasKey(r.table, View(x).rows[r], c, k) && k !in dels)
  {
    var uqs, was := rules.Guarded(r.table), Seen(x, r);
    var uq :| uq in uqs && uq.name == c && rules.key(r.table, uq, row) == Some(k);
    if GainedKey(rules, r.table, uq, row, was) == Some(k) {
      NewKeysHas(rules, uqs, r, row, was, uq, k);
    } else {
      assert rules.HasKey(r.table, was.value, c, k);
      if ur :| ur in uqs && Loses(rules, ur, r, row, was, k) {
        assert rules.HasKey(r.table, was.value, ur.name, k);
      }
    }
  }

  /** The references that passed the check exist and are touched. */
  lemma CheckedReferences(rules: Rules, x: Txn, r: RowRef, row: Row)
    requires Local(rules, x) && Orphaned(rules, x, rules.ForeignKeys(r.table), row) == None
    ensures ReferencesKept(rules, x, r, row, Parents(rules, rules.ForeignKeys(r.table), row))
  {
    var fks := rules.ForeignKeys(r.table);
    forall fk, p | rules.References(r.table, row, fk, p)
      ensures p in View(x).rows && p in Parents(rules, fks, row)
    {
      UnorphanedExists(rules, x, fks, row, fk);
      ExistsIsView(rules, x, p);
    }
  }

  lemma WithGuardsEffect(rules: Rules, x: Txn, r: RowRef, row: Row)
    requires rules.WellFormed() && Local(rules, x) && !WroteRow(x.writes, r)
    ensures var uqs, was := rules.Guarded(r.table), Seen(x, r);
            var reserved := Reserve(rules, x, uqs, r, row, was);
            var y := TouchParents(rules, reserved, rules.ForeignKeys(r.table), row);
            && y.snapshot == x.snapshot && y.staged == x.staged
            && y.writes.rows == x.writes.rows && y.writes.rowDels == x.writes.rowDels
            && y.writes.owners == x.writes.owners + NewKeys(rules, uqs, r, row, was)
            && y.writes.ownerDels == x.writes.ownerDels + LostKeys(rules, x, uqs, r, row, was)
            && x.writes.guards.Keys + Parents(rules, rules.ForeignKeys(r.table), row) <= y.writes.guards.Keys
            && x.writes.guardDels <= y.writes.guardDels && y.touched <= y.writes.guards.Keys
            && (forall s :: s in x.stagedUnique && s.key in x.writes.owners ==> s in y.stagedUnique)
            && (forall s :: s in y.stagedUnique ==> s in x.stagedUnique || (s.owner == r && s.key in NewKeys(rules, uqs, r, row, was)))
            && (forall k :: k in NewKeys(rules, uqs, r, row, was) ==> StagedUnique(k, r) in y.stagedUnique)
  {
    var uqs, was := rules.Guarded(r.table), Seen(x, r);
    forall u, k | u in uqs && OldKey(rules, r.table, u, was) == Some(k) ensures k !in x.writes.owners {
      OldKeyIsOwned(rules, x, r, u, k);
    }
    ReserveEffect(rules, x, uqs, r, row, was);
    TouchEffect(rules, Reserve(rules, x, uqs, r, row, was), rules.ForeignKeys(r.table), row);
  }

  // ── insert, update, upsert ───────────────────────────────────────────────

  /** A put of a row with its guards reserved and its parents touched. The guards follow
      `row`; what is stored has the same keys and references. */
  ghost predicate PutWithGuards(rules: Rules, x: Txn, y: Txn, r: RowRef, row: Row, stored: Row, op: StagedOp) {
    var guarded := TouchParents(rules, Reserve(rules, x, rules.Guarded(r.table), r, row, Seen(x, r)),
                                rules.ForeignKeys(r.table), row);
    && (y == Stage(PutRow(guarded, r, stored), op) || y == Stage(PutRow(DropRow(guarded, r), r, stored), op))
    && rules.Alike(r.table, row, stored)
    && StagedAs(rules, op, r, Some(stored))
  }

  lemma PutIsWritten(rules: Rules, x: Txn, y: Txn, r: RowRef, row: Row, stored: Row, op: StagedOp)
    requires rules.WellFormed() && Local(rules, x) && !WroteRow(x.writes, r)
    requires PutWithGuards(rules, x, y, r, row, stored, op)
    ensures var uqs, was := rules.Guarded(r.table), Seen(x, r);
            RowWritten(rules, x, y, r, Some(stored), NewKeys(rules, uqs, r, row, was), LostKeys(rules, x, uqs, r, row, was),
                       Parents(rules, rules.ForeignKeys(r.table), row))
  {
    var uqs, was := rules.Guarded(r.table), Seen(x, r);
    WithGuardsEffect(rules, x, r, row);
    forall k | k in NewKeys(rules, uqs, r, row, was) ensures NewKeys(rules, uqs, r, row, was)[k].row == r {
      var uq := NewKeysFrom(rules, uqs, r, row, was, k);
    }
  }

  lemma AlikeHasKeys(rules: Rules, table: string, a: Row, b: Row)
    requires rules.Alike(table, a, b)
    ensures forall c, k :: rules.HasKey(table, a, c, k) <==> rules.HasKey(table, b, c, k)
    ensures forall fk, p :: rules.References(table, a, fk, p) <==> rules.References(table, b, fk, p)
  {
    forall c, k ensures rules.HasKey(table, a, c, k) <==> rules.HasKey(table, b, c, k) {
    }
  }

  /** Putting a row whose parents exist and whose gained keys nobody holds. */
  lemma PutKeepsLocal(rules: Rules, x: Txn, y: Txn, r: RowRef, row: Row, stored: Row, op: StagedOp)
    requires rules.WellFormed() && Local(rules, x) && !WroteRow(x.writes, r)
    requires PutWithGuards(rules, x, y, r, row, stored, op) && rules.valid(r.table, stored)
    requires Orphaned(rules, x, rules.ForeignKeys(r.table), row) == None
    requires forall uq :: uq in rules.Guarded(r.table) && GainedKey(rules, r.table, uq, row, Seen(x, r)).Some? ==>
               Unclaimed(x, GainedKey(rules, r.table, uq, row, Seen(x, r)).value, r)
    ensures Local(rules, y)
    ensures View(y).rows == View(x).rows[r := stored]
  {
    var uqs, was := rules.Guarded(r.table), Seen(x, r);
    var puts, dels := NewKeys(rules, uqs, r, row, was), LostKeys(rules, x, uqs, r, row, was);
    var touches := Parents(rules, rules.ForeignKeys(r.table), row);
    PutIsWritten(rules, x, y, r, row, stored, op);
    ChangeKeepsKeys(rules, x, r, row);
    CheckedReferences(rules, x, r, row);
    AlikeHasKeys(rules, r.table, row, stored);
    WriteKeepsLocal(rules, x, y, r, Some(stored), puts, dels, touches);
    WrittenRows(rules, x, y, r, Some(stored), puts, dels, touches);
  }

  lemma GuardedSplits(rules: Rules, table: string)
    ensures rules.PkGuard(table).None? ==> rules.Guarded(table) == rules.Declared(table)
    ensures rules.PkGuard(table).Some? ==> rules.Guarded(table) == rules.Declared(table) + [rules.PkGuard(table).value]
  {
    if rules.Known(table) {
      var t := FindTable(rules.tables, table).value;
      assert t.uniqueConstraints + [] == t.uniqueConstraints;
    }
  }

  /** Reserving the declared keys and then the key guard is reserving all of them. */
  lemma ReservesAll(rules: Rules, x: Txn, r: RowRef, row: Row, explicit: bool)
    requires rules.PkGuard(r.table).Some? ==> explicit
    ensures ReservePk(rules, Reserve(rules, x, rules.Declared(r.table), r, row, None), r, row, explicit)
         == Reserve(rules, x, rules.Guarded(r.table), r, row, None)
  {
    GuardedSplits(rules, r.table);
    var uqs := rules.Guarded(r.table);
    assert rules.PkGuard(r.table).Some? ==> uqs[..|uqs| - 1] == rules.Declared(r.table);
  }

  /** A row that keeps its primary key keeps its key guard. */
  lemma ReservesDeclared(rules: Rules, x: Txn, r: RowRef, row: Row, was: Row)
    requires rules.WellFormed() && rules.pk(r.table, row) == rules.pk(r.table, was)
    ensures Reserve(rules, x, rules.Declared(r.table), r, row, Some(was))
         == Reserve(rules, x, rules.Guarded(r.table), r, row, Some(was))
    ensures forall uq :: uq in rules.Guarded(r.table) && GainedKey(rules, r.table, uq, row, Some(was)).Some? ==>
              uq in rules.Declared(r.table)
  {
    GuardedSplits(rules, r.table);
    var uqs := rules.Guarded(r.table);
    if rules.PkGuard(r.table).Some? {
      assert uqs[..|uqs| - 1] == rules.Declared(r.table);
    }
  }
}
