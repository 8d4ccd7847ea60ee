/** Where the constraint protocol does not hold by itself: upserts, updates that move a row,
    and lookups that are not answered, with exactly the condition under which each is right. */
module Limits {
  import opened Strings
  import opened Values
  import opened Schema
  import opened Overlay
  import opened Planner
  import opened Rules
  import opened Guards
  import opened Operations
  import opened Keeping
  import opened RowOps

  // ── guards that are written, exactly ─────────────────────────────────────

  lemma {:induction false} TouchesExactly(rules: Rules, x: Txn, fks: seq<ForeignKey>, row: Row, g: RowRef)
    requires x.touched <= x.writes.guards.Keys
    ensures WroteGuard(TouchParents(rules, x, fks, row).writes, g) <==> WroteGuard(x.writes, g) || g in Parents(rules, fks, row)
    decreases |fks|
  {
    if fks != [] {
      var front, fk := fks[..|fks| - 1], fks[|fks| - 1];
      TouchesExactly(rules, x, front, row, g);
      TouchEffect(rules, x, front, row);
      assert forall f :: f in fks <==> f in front || f == fk by {
        assert fks == front + [fk];
      }
    }
  }

  /** Guarding a row changes guards only. */
  lemma GuardsOnly(rules: Rules, x: Txn, r: RowRef, row: Row, was: Option<Row>)
    requires x.touched <= x.writes.guards.Keys
    ensures var y := WithGuards(rules, x, r, row, was);
            && y.snapshot == x.snapshot && y.staged == x.staged
            && y.writes.rows == x.writes.rows && y.writes.rowDels == x.writes.rowDels
            && forall g :: WroteGuard(y.writes, g) <==>
                 WroteGuard(x.writes, g) || g in Parents(rules, rules.ForeignKeys(r.table), row)
  {
    var reserved := Reserve(rules, x, rules.Declared(r.table), r, row, was);
    ReserveKeepsRest(rules, x, rules.Declared(r.table), r, row, was);
    TouchEffect(rules, reserved, rules.ForeignKeys(r.table), row);
    forall g {
      TouchesExactly(rules, reserved, rules.ForeignKeys(r.table), row, g);
    }
  }

  // ── upsert with DO UPDATE ────────────────────────────────────────────────

  /** What the upsert of an existing row has found and checked when it comes to write. */
  ghost predicate UpsertReady(rules: Rules, x: Txn, r: RowRef, merged: Row, stored: Row, was: Row) {
    && Local(rules, x) && !WroteRow(x.writes, r)
    && Seen(x, r) == Some(was)
    && rules.valid(r.table, merged)
    && Refusal(rules, x, r, merged, Some(was)) == None
    && rules.pk(r.table, merged) == rules.pk(r.table, stored) == r.pk
  }

  lemma UpsertWrites(rules: Rules, x: Txn, r: RowRef, merged: Row, stored: Row, was: Row)
    requires x.touched <= x.writes.guards.Keys
    ensures var y := UpsertRow(rules, x, r, r, merged, stored, was);
            && y.snapshot == x.snapshot && y.writes.rows == x.writes.rows[r := stored]
            && y.staged == x.staged + [Update(r.table, r.pk, 0, merged)]
            && View(y).rows == View(x).rows[r := stored]
            && forall g :: WroteGuard(y.writes, g) <==>
                 WroteGuard(x.writes, g) || g in Parents(rules, rules.ForeignKeys(r.table), merged)
  {
    GuardsOnly(rules, x, r, merged, Some(was));
    var guarded := WithGuards(rules, x, r, merged, Some(was));
    var y := UpsertRow(rules, x, r, r, merged, stored, was);
    assert y.writes == guarded.writes.(rows := guarded.writes.rows[r := stored]);
    PutView(x.snapshot.rows - x.writes.rowDels, x.writes.rows, r, stored);
  }

  lemma PutView(m: map<RowRef, Row>, puts: map<RowRef, Row>, r: RowRef, row: Row)
    ensures m + puts[r := row] == (m + puts)[r := row]
  {
  }

  lemma UpsertOwners(rules: Rules, x: Txn, r: RowRef, merged: Row, stored: Row, was: Row)
    ensures View(UpsertRow(rules, x, r, r, merged, stored, was)).owners == View(UpsertRow(rules, x, r, r, merged, merged, was)).owners
  {
  }

  /** The guards and the staged operation follow the merged row, while the engine stores the
      old row with the patch. The upsert keeps the transaction sound exactly when what it
      stores is valid and has the keys and references of what it checked. */
  lemma UpsertKeepsExactly(rules: Rules, x: Txn, r: RowRef, merged: Row, stored: Row, was: Row)
    requires rules.WellFormed() && UpsertReady(rules, x, r, merged, stored, was)
    ensures Local(rules, UpsertRow(rules, x, r, r, merged, stored, was))
       <==> rules.valid(r.table, stored) && rules.Alike(r.table, merged, stored)
  {
    var y := UpsertRow(rules, x, r, r, merged, stored, was);
    UpsertWrites(rules, x, r, merged, stored, was);
    if rules.valid(r.table, stored) && rules.Alike(r.table, merged, stored) {
      ReplaceKeeps(rules, x, y, r, merged, stored);
    }
    if Local(rules, y) {
      StoredIsAlike(rules, x, y, r, merged, stored);
    }
  }

  lemma StoredIsAlike(rules: Rules, x: Txn, y: Txn, r: RowRef, merged: Row, stored: Row)
    requires y.snapshot == x.snapshot && y.staged == x.staged + [Update(r.table, r.pk, 0, merged)]
    requires Faithful(rules, y) && AllValid(rules, View(y)) && r in View(y).rows && View(y).rows[r] == stored
    requires rules.pk(r.table, merged) == r.pk
    ensures rules.valid(r.table, stored) && rules.Alike(r.table, merged, stored)
  {
    assert y.staged[..|x.staged|] == x.staged;
    ReadsAfter(rules, x, y, r.table);
    assert FaithfulAt(rules, y, r);
  }

  /** The same of the operation: a DO UPDATE of a row that is found keeps the transaction sound
      exactly when the merged row keeps the primary key, and the row that is stored is valid
      and has its keys and references. */
  lemma UpsertedKeepsExactly(rules: Rules, x: Txn, table: string, values: Row, patch: Row, refresh: Row)
    requires rules.WellFormed() && Local(rules, x)
    requires var r := RowRef(table, rules.pk(table, values)); !WroteRow(x.writes, r) && r in View(x).rows && Answered(rules, x, table)
    requires Upserted(rules, x, table, values, Some(patch), refresh).Accepted?
    ensures var r, merged := RowRef(table, rules.pk(table, values)), values + patch + refresh;
            var stored := View(x).rows[r] + patch;
            Local(rules, Upserted(rules, x, table, values, Some(patch), refresh).txn)
            <==> rules.pk(table, merged) == r.pk && rules.valid(table, stored) && rules.Alike(table, merged, stored)
  {
    var r, merged := RowRef(table, rules.pk(table, values)), values + patch + refresh;
    var q := RowRef(table, rules.pk(table, merged));
    UpsertedIs(rules, x, table, values, patch, refresh);
    UpsertKeepsKey(rules, x, r, q, merged, View(x).rows[r], patch);
  }

  lemma UpsertedIs(rules: Rules, x: Txn, table: string, values: Row, patch: Row, refresh: Row)
    requires Local(rules, x)
    requires var r := RowRef(table, rules.pk(table, values)); !WroteRow(x.writes, r) && r in View(x).rows && Answered(rules, x, table)
    requires Upserted(rules, x, table, values, Some(patch), refresh).Accepted?
    ensures var r, merged := RowRef(table, rules.pk(table, values)), values + patch + refresh;
            var was, q := View(x).rows[r], RowRef(table, rules.pk(table, merged));
            && Seen(x, r) == Some(was)
            && rules.valid(table, merged)
            && Refusal(rules, x, q, merged, Some(was)) == None
            && Upserted(rules, x, table, values, Some(patch), refresh).txn
               == UpsertRow(rules, x, r, q, merged, UpsertStores(x.snapshot, r, q, merged, was, patch), was)
  {
    LookupIsView(rules, x, RowRef(table, rules.pk(table, values)));
  }

  lemma UpsertKeepsKey(rules: Rules, x: Txn, r: RowRef, q: RowRef, merged: Row, was: Row, patch: Row)
    requires rules.WellFormed() && Local(rules, x) && !WroteRow(x.writes, r) && Seen(x, r) == Some(was)
    requires q == RowRef(r.table, rules.pk(r.table, merged))
    requires rules.valid(r.table, merged) && Refusal(rules, x, q, merged, Some(was)) == None
    ensures Local(rules, UpsertRow(rules, x, r, q, merged, UpsertStores(x.snapshot, r, q, merged, was, patch), was))
       <==> q == r && rules.valid(r.table, was + patch) && rules.Alike(r.table, merged, was + patch)
  {
    var stored := UpsertStores(x.snapshot, r, q, merged, was, patch);
    UpsertStages(rules, x, r, q, merged, stored, was);
    if q != r {
      UnwrittenIsSnapshot(x, r);
      MovedIsUnread(rules, x, UpsertRow(rules, x, r, q, merged, stored, was), r, merged);
    } else if rules.pk(r.table, stored) == r.pk {
      UpsertKeepsExactly(rules, x, r, merged, stored, was);
    } else {
      assert View(UpsertRow(rules, x, r, q, merged, stored, was)).rows[r] == stored;
    }
  }

  /** Every reference of the stored row has its parent, and a guard or its earlier self to
      keep the parent there. */
  ghost predicate ReferencesStand(rules: Rules, x: Txn, r: RowRef, merged: Row, stored: Row) {
    forall fk, p :: rules.References(r.table, stored, fk, p) ==>
      && p in View(x).rows
      && (p in Parents(rules, rules.ForeignKeys(r.table), merged) || WroteGuard(x.writes, p)
          || (r in x.snapshot.rows && rules.References(r.table, x.snapshot.rows[r], fk, p)))
  }

  ghost predicate SameKeys(rules: Rules, table: string, a: Row, b: Row) {
    forall uq :: uq in rules.Guarded(table) ==> rules.key(table, uq, a) == rules.key(table, uq, b)
  }

  /** What the upsert would commit is sound, and safe from concurrent deletes, exactly when
      the stored row is valid, has the keys that were reserved, and references only parents
      that exist and are guarded. */
  lemma UpsertIsSoundExactly(rules: Rules, x: Txn, r: RowRef, merged: Row, stored: Row, was: Row)
    requires rules.WellFormed() && UpsertReady(rules, x, r, merged, stored, was)
    ensures var y := UpsertRow(rules, x, r, r, merged, stored, was);
            Sound(rules, View(y)) && ParentsTouched(rules, y) <==>
            rules.valid(r.table, stored) && SameKeys(rules, r.table, stored, merged) && ReferencesStand(rules, x, r, merged, stored)
  {
    var y := UpsertRow(rules, x, r, r, merged, stored, was);
    UpsertWrites(rules, x, r, merged, stored, was);
    UpsertKeysExactly(rules, x, r, merged, stored, was);
    StoredReferencesExactly(rules, x, y, r, merged, stored);
  }

  lemma UpsertKeysExactly(rules: Rules, x: Txn, r: RowRef, merged: Row, stored: Row, was: Row)
    requires rules.WellFormed() && UpsertReady(rules, x, r, merged, stored, was)
    ensures var t := View(UpsertRow(rules, x, r, r, merged, stored, was));
            Owned(rules, t) && NoStale(rules, t) <==> SameKeys(rules, r.table, stored, merged)
  {
    var y := UpsertRow(rules, x, r, r, merged, stored, was);
    var z := UpsertRow(rules, x, r, r, merged, merged, was);
    MergedIsExact(rules, x, r, merged, was);
    StoredInstead(rules, x, r, merged, stored, was);
    StoredKeysExactly(rules, View(z), View(y), r);
  }

  /** What is stored makes no difference to the guards, and to no other row. */
  lemma StoredInstead(rules: Rules, x: Txn, r: RowRef, merged: Row, stored: Row, was: Row)
    requires x.touched <= x.writes.guards.Keys
    ensures var s, t := View(UpsertRow(rules, x, r, r, merged, merged, was)), View(UpsertRow(rules, x, r, r, merged, stored, was));
            && s.owners == t.owners
            && r in s.rows && r in t.rows && s.rows[r] == merged && t.rows[r] == stored
            && t.rows == s.rows[r := t.rows[r]]
  {
    UpsertWrites(rules, x, r, merged, stored, was);
    UpsertWrites(rules, x, r, merged, merged, was);
    UpsertOwners(rules, x, r, merged, stored, was);
  }

  lemma MergedIsExact(rules: Rules, x: Txn, r: RowRef, merged: Row, was: Row)
    requires rules.WellFormed() && UpsertReady(rules, x, r, merged, merged, was)
    ensures var s := View(UpsertRow(rules, x, r, r, merged, merged, was)); Owned(rules, s) && NoStale(rules, s)
  {
    ReplaceKeeps(rules, x, UpsertRow(rules, x, r, r, merged, merged, was), r, merged, merged);
  }

  /** The guards are exact for the stored row precisely when it has the merged row's keys. */
  lemma StoredKeysExactly(rules: Rules, s: Store, t: Store, r: RowRef)
    requires rules.WellFormed() && Owned(rules, s) && NoStale(rules, s)
    requires s.owners == t.owners && r in s.rows && r in t.rows && t.rows == s.rows[r := t.rows[r]]
    ensures Owned(rules, t) && NoStale(rules, t) <==> SameKeys(rules, r.table, t.rows[r], s.rows[r])
  {
    if Owned(rules, t) && NoStale(rules, t) {
      forall uq | uq in rules.Guarded(r.table) ensures rules.key(r.table, uq, t.rows[r]) == rules.key(r.table, uq, s.rows[r]) {
        HasSameKey(rules, s, t, r, uq);
        HasSameKey(rules, t, s, r, uq);
      }
    }
    if SameKeys(rules, r.table, t.rows[r], s.rows[r]) {
      SameKeysExact(rules, s, t, r);
    }
  }

  lemma HasSameKey(rules: Rules, s: Store, t: Store, r: RowRef, uq: UniqueConstraint)
    requires rules.KeysApart() && Owned(rules, s) && NoStale(rules, t)
    requires s.owners == t.owners && r in s.rows && r in t.rows && uq in rules.Guarded(r.table)
    ensures var k := rules.key(r.table, uq, s.rows[r]); k.Some? ==> rules.key(r.table, uq, t.rows[r]) == k
  {
    var k := rules.key(r.table, uq, s.rows[r]);
    if k.Some? {
      assert rules.HasKey(r.table, s.rows[r], uq.name, k.value);
      assert rules.HasKey(r.table, t.rows[r], uq.name, k.value);
    }
  }

  lemma SameKeysExact(rules: Rules, s: Store, t: Store, r: RowRef)
    requires Owned(rules, s) && NoStale(rules, s)
    requires t.owners == s.owners && r in s.rows && r in t.rows && t.rows == s.rows[r := t.rows[r]]
    requires SameKeys(rules, r.table, t.rows[r], s.rows[r])
    ensures Owned(rules, t) && NoStale(rules, t)
  {
    forall c, k ensures rules.HasKey(r.table, t.rows[r], c, k) <==> rules.HasKey(r.table, s.rows[r], c, k) {
    }
    forall q, c, k | q in t.rows && rules.HasKey(q.table, t.rows[q], c, k)
      ensures k in t.owners && t.owners[k] == Owner(c, q)
    {
      assert rules.HasKey(q.table, s.rows[q], c, k);
    }
  }

  lemma StoredReferencesExactly(rules: Rules, x: Txn, y: Txn, r: RowRef, merged: Row, stored: Row)
    requires Local(rules, x) && r in View(x).rows && rules.pk(r.table, stored) == r.pk
    requires y.snapshot == x.snapshot && y.writes.rows == x.writes.rows[r := stored]
    requires View(y).rows == View(x).rows[r := stored]
    requires forall g :: WroteGuard(y.writes, g) <==>
               WroteGuard(x.writes, g) || g in Parents(rules, rules.ForeignKeys(r.table), merged)
    ensures UnderPk(rules, View(y)) && (AllValid(rules, View(y)) <==> rules.valid(r.table, stored))
    ensures NoOrphans(rules, View(y)) && ParentsTouched(rules, y) <==> ReferencesStand(rules, x, r, merged, stored)
  {
    assert View(y).rows[r] == stored;
    if ReferencesStand(rules, x, r, merged, stored) {
      StandingReferences(rules, x, y, r, merged, stored);
    }
    if NoOrphans(rules, View(y)) && ParentsTouched(rules, y) {
      ReferencesMustStand(rules, x, y, r, merged, stored);
    }
  }

  lemma StandingReferences(rules: Rules, x: Txn, y: Txn, r: RowRef, merged: Row, stored: Row)
    requires r in View(x).rows
    requires y.snapshot == x.snapshot && y.writes.rows == x.writes.rows[r := stored]
    requires View(y).rows == View(x).rows[r := stored]
    requires forall g :: WroteGuard(y.writes, g) <==>
               WroteGuard(x.writes, g) || g in Parents(rules, rules.ForeignKeys(r.table), merged)
    requires NoOrphans(rules, View(x)) && ParentsTouched(rules, x) && ReferencesStand(rules, x, r, merged, stored)
    ensures NoOrphans(rules, View(y)) && ParentsTouched(rules, y)
  {
    forall c, fk, p | c in View(y).rows && rules.References(c.table, View(y).rows[c], fk, p) ensures p in View(y).rows {
      assert c != r ==> rules.References(c.table, View(x).rows[c], fk, p);
    }
    forall c, fk, p | c in y.writes.rows && rules.References(c.table, y.writes.rows[c], fk, p)
      ensures WroteGuard(y.writes, p)
           || (c in y.snapshot.rows && rules.References(c.table, y.snapshot.rows[c], fk, p))
    {
      assert c != r ==> rules.References(c.table, x.writes.rows[c], fk, p);
    }
  }

  lemma ReferencesMustStand(rules: Rules, x: Txn, y: Txn, r: RowRef, merged: Row, stored: Row)
    requires r in View(x).rows
    requires y.snapshot == x.snapshot && y.writes.rows == x.writes.rows[r := stored]
    requires View(y).rows == View(x).rows[r := stored]
    requires forall g :: WroteGuard(y.writes, g) <==>
               WroteGuard(x.writes, g) || g in Parents(rules, rules.ForeignKeys(r.table), merged)
    requires NoOrphans(rules, View(y)) && ParentsTouched(rules, y)
    ensures ReferencesStand(rules, x, r, merged, stored)
  {
    forall fk, p | rules.References(r.table, stored, fk, p)
      ensures p in View(x).rows
      ensures p in Parents(rules, rules.ForeignKeys(r.table), merged) || WroteGuard(x.writes, p)
           || (r in x.snapshot.rows && rules.References(r.table, x.snapshot.rows[r], fk, p))
    {
      assert View(y).rows[r] == stored && y.writes.rows[r] == stored;
      assert p in View(y).rows;
    }
  }

  // ── upserts of rows that are not found ───────────────────────────────────

  /** The row that is stored has the keys and references of the row that was checked, and
      keeps every key the old row had. */
  ghost predicate TakesOver(rules: Rules, table: string, values: Row, was: Row, stored: Row) {
    && rules.valid(table, stored)
    && rules.Alike(table, values, stored)
    && forall uq :: uq in rules.Guarded(table) && rules.key(table, uq, was).Some? ==>
         rules.key(table, uq, stored) == rules.key(table, uq, was)
  }

  /** An upsert takes a row that is there for new when its lookup is not answered: a composite
      key without bitmaps, in a table nothing has been staged for. It keeps the transaction
      sound exactly when it is a DO UPDATE that gives up no key of the old row and stores the
      keys and references it has checked. */
  lemma UnfoundUpsertExactly(rules: Rules, x: Txn, r: RowRef, values: Row, patch: Option<Row>)
    requires rules.WellFormed() && Local(rules, x) && !WroteRow(x.writes, r) && r in View(x).rows
    requires rules.Known(r.table) && !Answered(rules, x, r.table)
    requires rules.valid(r.table, values) && rules.pk(r.table, values) == r.pk
    requires Refusal(rules, x, r, values, None) == None
    ensures var was := View(x).rows[r];
            Local(rules, UpsertNew(rules, x, r, values, patch))
            <==> patch.Some? && rules.pk(r.table, was + patch.value) == r.pk && TakesOver(rules, r.table, values, was, was + patch.value)
  {
    var was := View(x).rows[r];
    var y := UpsertNew(rules, x, r, values, patch);
    UnwrittenIsSnapshot(x, r);
    UnfoundWrites(rules, x, r, values, patch);
    if patch.Some? && rules.pk(r.table, was + patch.value) == r.pk && TakesOver(rules, r.table, values, was, was + patch.value) {
      TakesOverKeeps(rules, x, r, values, patch.value);
    }
    if Local(rules, y) {
      SoundTakesOver(rules, x, r, values, patch);
    }
  }

  lemma UnansweredIsComposite(rules: Rules, x: Txn, table: string)
    requires rules.Known(table) && !Answered(rules, x, table)
    ensures rules.PkGuard(table).Some?
  {
  }

  lemma UnfoundWrites(rules: Rules, x: Txn, r: RowRef, values: Row, patch: Option<Row>)
    requires rules.WellFormed() && Local(rules, x) && !WroteRow(x.writes, r) && r in View(x).rows
    requires rules.pk(r.table, values) == r.pk
    ensures r in x.snapshot.rows && x.snapshot.rows[r] == View(x).rows[r]
    ensures var y, uqs := UpsertNew(rules, x, r, values, patch), rules.Guarded(r.table);
            && y.snapshot == x.snapshot && y.writes.rowDels == x.writes.rowDels
            && y.writes.rows == (if patch.None? then x.writes.rows else x.writes.rows[r := View(x).rows[r] + patch.value])
            && y.writes.owners == x.writes.owners + NewKeys(rules, uqs, r, values, None)
            && y.writes.ownerDels == x.writes.ownerDels
            && x.writes.guards.Keys + Parents(rules, rules.ForeignKeys(r.table), values) <= y.writes.guards.Keys
            && x.writes.guardDels <= y.writes.guardDels && y.touched <= y.writes.guards.Keys
            && y.staged == x.staged + [Insert(r.table, values)]
            && (forall s :: s in x.stagedUnique && s.key in x.writes.owners ==> s in y.stagedUnique)
            && (forall s :: s in y.stagedUnique ==> s in x.stagedUnique || (s.owner == r && s.key in NewKeys(rules, uqs, r, values, None)))
            && (forall k :: k in NewKeys(rules, uqs, r, values, None) ==> StagedUnique(k, r) in y.stagedUnique)
  {
    var uqs := rules.Guarded(r.table);
    UnwrittenIsSnapshot(x, r);
    ReservesAll(rules, x, r, values, true);
    ReserveEffect(rules, x, uqs, r, values, None);
    assert LostKeys(rules, x, uqs, r, values, None) == {};
    TouchEffect(rules, Reserve(rules, x, uqs, r, values, None), rules.ForeignKeys(r.table), values);
  }

  lemma TakesOverKeeps(rules: Rules, x: Txn, r: RowRef, values: Row, patch: Row)
    requires rules.WellFormed() && Local(rules, x) && !WroteRow(x.writes, r) && r in View(x).rows
    requires rules.pk(r.table, values) == r.pk && rules.valid(r.table, values)
    requires Refusal(rules, x, r, values, None) == None
    requires var stored := View(x).rows[r] + patch;
             rules.pk(r.table, stored) == r.pk && TakesOver(rules, r.table, values, View(x).rows[r], stored)
    ensures Local(rules, UpsertNew(rules, x, r, values, Some(patch)))
  {
    var stored, uqs := View(x).rows[r] + patch, rules.Guarded(r.table);
    var y := UpsertNew(rules, x, r, values, Some(patch));
    var puts, touches := NewKeys(rules, uqs, r, values, None), Parents(rules, rules.ForeignKeys(r.table), values);
    UnfoundIsWritten(rules, x, r, values, patch);
    AlikeHasKeys(rules, r.table, values, stored);
    TakenOverKeys(rules, x, r, values, stored);
    CheckedReferences(rules, x, r, values);
    WriteKeepsLocal(rules, x, y, r, Some(stored), puts, {}, touches);
  }

  lemma UnfoundIsWritten(rules: Rules, x: Txn, r: RowRef, values: Row, patch: Row)
    requires rules.WellFormed() && Local(rules, x) && !WroteRow(x.writes, r) && r in View(x).rows
    requires rules.pk(r.table, values) == r.pk && rules.valid(r.table, values)
    requires rules.Alike(r.table, values, View(x).rows[r] + patch)
    ensures RowWritten(rules, x, UpsertNew(rules, x, r, values, Some(patch)), r, Some(View(x).rows[r] + patch),
                       NewKeys(rules, rules.Guarded(r.table), r, values, None), {},
                       Parents(rules, rules.ForeignKeys(r.table), values))
  {
    UnfoundWrites(rules, x, r, values, Some(patch));
    var puts := NewKeys(rules, rules.Guarded(r.table), r, values, None);
    forall k | k in puts ensures puts[k].row == r {
      var uq := NewKeysFrom(rules, rules.Guarded(r.table), r, values, None, k);
    }
    assert x.writes.ownerDels + {} == x.writes.ownerDels;
  }

  lemma TakenOverKeys(rules: Rules, x: Txn, r: RowRef, values: Row, stored: Row)
    requires rules.WellFormed() && Local(rules, x) && !WroteRow(x.writes, r) && r in View(x).rows
    requires rules.pk(r.table, values) == r.pk && Refusal(rules, x, r, values, None) == None
    requires TakesOver(rules, r.table, values, View(x).rows[r], stored)
    ensures KeysKept(rules, x, r, Some(stored), NewKeys(rules, rules.Guarded(r.table), r, values, None), {})
  {
    var was, uqs := View(x).rows[r], rules.Guarded(r.table);
    var puts := NewKeys(rules, uqs, r, values, None);
    forall k | k in puts
      ensures puts[k].row == r && rules.HasKey(r.table, stored, puts[k].constraint, k)
      ensures Unclaimed(x, k, r)
    {
      var uq := NewKeysFrom(rules, uqs, r, values, None, k);
      TakenOverIsFree(rules, x, r, values, uq);
    }
    forall c, k | rules.HasKey(r.table, stored, c, k) ensures k in puts && puts[k] == Owner(c, r) {
      var uq :| uq in uqs && uq.name == c && rules.key(r.table, uq, stored) == Some(k);
      NewKeysHas(rules, uqs, r, values, None, uq, k);
    }
    forall c, k | rules.HasKey(r.table, was, c, k) ensures rules.HasKey(r.table, stored, c, k) {
    }
  }

  lemma TakenOverIsFree(rules: Rules, x: Txn, r: RowRef, values: Row, uq: UniqueConstraint)
    requires rules.WellFormed() && Local(rules, x) && !WroteRow(x.writes, r) && r in View(x).rows
    requires rules.pk(r.table, values) == r.pk && Taken(rules, x, rules.Declared(r.table), r, values, None) == None
    requires uq in rules.Guarded(r.table) && rules.key(r.table, uq, values).Some?
    ensures Unclaimed(x, rules.key(r.table, uq, values).value, r)
  {
    GuardedSplits(rules, r.table);
    if uq in rules.Declared(r.table) {
      DeclaredUnclaimed(rules, x, r, values, uq);
    } else {
      SamePkSameKey(rules, r.table, values, View(x).rows[r]);
      OldKeyIsOwned(rules, x, r, uq, rules.key(r.table, uq, values).value);
    }
  }

  lemma SamePkSameKey(rules: Rules, table: string, a: Row, b: Row)
    requires rules.PkGuarded() && rules.PkGuard(table).Some? && rules.pk(table, a) == rules.pk(table, b)
    ensures rules.key(table, rules.PkGuard(table).value, a) == rules.key(table, rules.PkGuard(table).value, b)
  {
  }

  lemma SoundTakesOver(rules: Rules, x: Txn, r: RowRef, values: Row, patch: Option<Row>)
    requires rules.WellFormed() && Local(rules, x) && !WroteRow(x.writes, r) && r in View(x).rows
    requires rules.Known(r.table) && !Answered(rules, x, r.table)
    requires rules.valid(r.table, values) && rules.pk(r.table, values) == r.pk
    requires Local(rules, UpsertNew(rules, x, r, values, patch))
    ensures patch.Some?
    ensures rules.pk(r.table, View(x).rows[r] + patch.value) == r.pk
    ensures TakesOver(rules, r.table, values, View(x).rows[r], View(x).rows[r] + patch.value)
  {
    var was, y, uqs := View(x).rows[r], UpsertNew(rules, x, r, values, patch), rules.Guarded(r.table);
    UnansweredIsComposite(rules, x, r.table);
    UnfoundWrites(rules, x, r, values, patch);
    GuardedSplits(rules, r.table);
    var uq := rules.PkGuard(r.table).value;
    NewKeysHas(rules, uqs, r, values, None, uq, rules.key(r.table, uq, values).value);
    assert r in y.writes.rows;
    var stored := was + patch.value;
    assert View(y).rows[r] == stored;
    assert y.staged[..|x.staged|] == x.staged;
    ReadsAfter(rules, x, y, r.table);
    assert FaithfulAt(rules, y, r);
    forall u | u in uqs && rules.key(r.table, u, was).Some? ensures rules.key(r.table, u, stored) == rules.key(r.table, u, was) {
      KeyStays(rules, x, y, r, u, rules.key(r.table, u, was).value);
    }
  }

  /** A key that is not given back has to be kept. */
  lemma KeyStays(rules: Rules, x: Txn, y: Txn, r: RowRef, uq: UniqueConstraint, k: string)
    requires rules.KeysApart() && Owned(rules, View(x)) && NoStale(rules, View(y)) && r in View(x).rows && r in View(y).rows
    requires y.snapshot == x.snapshot && y.writes.ownerDels == x.writes.ownerDels
    requires k in x.writes.owners && x.writes.owners[k].row == r ==> k in y.writes.owners && y.writes.owners[k].row == r
    requires k in y.writes.owners ==> k in x.writes.owners || y.writes.owners[k].row == r
    requires uq in rules.Guarded(r.table) && rules.key(r.table, uq, View(x).rows[r]) == Some(k)
    ensures rules.key(r.table, uq, View(y).rows[r]) == Some(k)
  {
    assert rules.HasKey(r.table, View(x).rows[r], uq.name, k);
    assert View(x).owners[k] == Owner(uq.name, r);
    assert k in View(y).owners && View(y).owners[k].row == r;
    var c := View(y).owners[k].constraint;
    assert rules.HasKey(r.table, View(y).rows[r], c, k);
    var ur :| ur in rules.Guarded(r.table) && ur.name == c && rules.key(r.table, ur, View(y).rows[r]) == Some(k);
    assert c == uq.name && ur == uq;
  }

  // ── updates that change the primary key ──────────────────────────────────

  /** What lets a row move to another primary key: its composite key guard is among the
      declared constraints, which an update reserves; every unique key it will have is new;
      the keys of a row it overwrites are all taken over; and nothing references it. */
  ghost predicate MovesCleanly(rules: Rules, x: Txn, r: RowRef, q: RowRef, values: Row) {
    r in View(x).rows &&
    var was := View(x).rows[r];
    && (rules.PkGuard(r.table).Some? ==> rules.PkGuard(r.table).value in rules.Declared(r.table))
    && (forall uq :: uq in rules.Declared(r.table) && rules.key(r.table, uq, values).Some? ==>
          rules.key(r.table, uq, values) != rules.key(r.table, uq, was))
    && (q in View(x).rows ==>
          forall uq :: uq in rules.Declared(r.table) && rules.key(r.table, uq, View(x).rows[q]).Some? ==>
            rules.key(r.table, uq, values) == rules.key(r.table, uq, View(x).rows[q]))
    && Unreferenced(rules, View(x), r)
  }

  ghost predicate Unreferenced(rules: Rules, s: Store, r: RowRef) {
    forall c, fk :: c in s.rows ==> !rules.References(c.table, s.rows[c], fk, r)
  }

  /** Every row but `r` is as it was. */
  ghost predicate OthersStay(s: Store, t: Store, r: RowRef) {
    forall q :: q in s.rows && q != r ==> q in t.rows && t.rows[q] == s.rows[q]
  }

  /** `y` is `x` after row `r` has moved to `q`, reserving `news` and releasing `lost`. */
  ghost predicate MovedTo(x: Txn, y: Txn, r: RowRef, q: RowRef, values: Row, news: map<string, Owner>, lost: set<string>) {
    && y.snapshot == x.snapshot
    && y.writes.rows == x.writes.rows[q := values]
    && y.writes.rowDels == x.writes.rowDels + (set p | p in x.snapshot.rows && p == r)
    && y.writes.owners == x.writes.owners + news
    && y.writes.ownerDels == x.writes.ownerDels + lost
  }

  /** What a move to another key has found and checked. */
  ghost predicate MoveReady(rules: Rules, x: Txn, r: RowRef, q: RowRef, values: Row) {
    && Local(rules, x) && !WroteRow(x.writes, r) && r in View(x).rows
    && q == RowRef(r.table, rules.pk(r.table, values)) && q != r
    && rules.valid(r.table, values)
    && Taken(rules, x, rules.Declared(r.table), q, values, Some(View(x).rows[r])) == None
    && Orphaned(rules, x, rules.ForeignKeys(r.table), values) == None
  }

  /** An update of a row leaves the transaction's view sound exactly when it keeps the primary
      key or moves cleanly; and it leaves every other row alone exactly when it keeps the
      primary key, the new one is free, or the row there is the same: no check finds out that
      the new primary key is in use. */
  lemma MoveIsSoundExactly(rules: Rules, x: Txn, r: RowRef, patch: Row)
    requires rules.WellFormed() && Local(rules, x) && !WroteRow(x.writes, r)
    requires Updated(rules, x, r, patch).Accepted?
    ensures r in View(x).rows
    ensures var values := View(x).rows[r] + patch;
            var y, q := Updated(rules, x, r, patch).txn, RowRef(r.table, rules.pk(r.table, values));
            && (Sound(rules, View(y)) <==> q == r || MovesCleanly(rules, x, r, q, values))
            && (OthersStay(View(x), View(y), r) <==> q == r || q !in View(x).rows || View(x).rows[q] == values)
  {
    LookupIsView(rules, x, r);
    var was := View(x).rows[r];
    var values := was + patch;
    var q := RowRef(r.table, rules.pk(r.table, values));
    if q == r {
      AcceptedUpdate(rules, x, r, patch);
      StaysPut(View(x), View(Updated(rules, x, r, patch).txn), r, values);
    } else {
      ReplacedMoves(rules, x, r, q, values);
    }
  }

  /** What such an update commits is safe from concurrent transactions exactly when it keeps the
      primary key, nothing can reference the row, or its guard has been written anyway: the
      update touches the guards of its parents only, and not that of the key it leaves. */
  lemma MoveIsSafeExactly(rules: Rules, x: Txn, r: RowRef, patch: Row)
    requires rules.WellFormed() && Local(rules, x) && !WroteRow(x.writes, r)
    requires Updated(rules, x, r, patch).Accepted?
    ensures r in View(x).rows
    ensures var y, q := Updated(rules, x, r, patch).txn, RowRef(r.table, rules.pk(r.table, View(x).rows[r] + patch));
            DeletesTouched(rules, y) && ParentsTouched(rules, y) <==> q == r || !rules.Referenced(r.table) || WroteGuard(x.writes, r)
  {
    LookupIsView(rules, x, r);
    var was := View(x).rows[r];
    var q := RowRef(r.table, rules.pk(r.table, was + patch));
    ReplacedChecks(rules, x, r, was, was + patch);
    MoveTouches(rules, x, r, q, was + patch, was);
  }

  lemma MoveTouches(rules: Rules, x: Txn, r: RowRef, q: RowRef, values: Row, was: Row)
    requires rules.WellFormed() && ParentsTouched(rules, x) && DeletesTouched(rules, x) && x.touched <= x.writes.guards.Keys
    requires !WroteRow(x.writes, r) && r in x.snapshot.rows && q.table == r.table
    ensures var y := UpdateRow(rules, x, r, q, values, values, was);
            DeletesTouched(rules, y) && ParentsTouched(rules, y) <==> q == r || !rules.Referenced(r.table) || WroteGuard(x.writes, r)
  {
    var y := UpdateRow(rules, x, r, q, values, values, was);
    GuardsOnly(rules, x, q, values, Some(was));
    assert r !in Parents(rules, rules.ForeignKeys(r.table), values);
    assert forall p :: p in y.writes.rowDels <==> p in x.writes.rowDels || p == r;
    assert forall p :: p in y.writes.rows <==> p in x.writes.rows || p == q;
    forall fk, p | rules.References(q.table, values, fk, p) ensures WroteGuard(y.writes, p) {
      assert p in Parents(rules, rules.ForeignKeys(r.table), values);
    }
  }

  lemma StaysPut(s: Store, t: Store, r: RowRef, values: Row)
    requires t.rows == s.rows[r := values]
    ensures OthersStay(s, t, r)
  {
  }

  lemma ReplacedMoves(rules: Rules, x: Txn, r: RowRef, q: RowRef, values: Row)
    requires rules.WellFormed() && Local(rules, x) && !WroteRow(x.writes, r) && r in View(x).rows
    requires q == RowRef(r.table, rules.pk(r.table, values)) && q != r
    requires Replaced(rules, x, r, View(x).rows[r], values).Accepted?
    ensures var y := Replaced(rules, x, r, View(x).rows[r], values).txn;
            && (Sound(rules, View(y)) <==> MovesCleanly(rules, x, r, q, values))
            && (OthersStay(View(x), View(y), r) <==> q !in View(x).rows || View(x).rows[q] == values)
  {
    var was, uqs := View(x).rows[r], rules.Declared(r.table);
    ReplacedChecks(rules, x, r, was, values);
    MovedWrites(rules, x, r, q, values);
    MovedExactly(rules, x, UpdateRow(rules, x, r, q, values, values, was), r, q, values,
                 NewKeys(rules, uqs, q, values, Some(was)), LostKeys(rules, x, uqs, q, values, Some(was)));
  }

  lemma ReplacedChecks(rules: Rules, x: Txn, r: RowRef, was: Row, values: Row)
    requires Replaced(rules, x, r, was, values).Accepted?
    ensures var q := RowRef(r.table, rules.pk(r.table, values));
            && Replaced(rules, x, r, was, values).txn == UpdateRow(rules, x, r, q, values, values, was)
            && rules.valid(r.table, values)
            && Taken(rules, x, rules.Declared(r.table), q, values, Some(was)) == None
            && Orphaned(rules, x, rules.ForeignKeys(r.table), values) == None
  {
  }

  lemma MovedExactly(rules: Rules, x: Txn, y: Txn, r: RowRef, q: RowRef, values: Row, news: map<string, Owner>, lost: set<string>)
    requires rules.WellFormed() && MoveReady(rules, x, r, q, values) && MovedTo(x, y, r, q, values, news, lost)
    requires news == NewKeys(rules, rules.Declared(r.table), q, values, Some(View(x).rows[r]))
    requires lost == LostKeys(rules, x, rules.Declared(r.table), q, values, Some(View(x).rows[r]))
    ensures Sound(rules, View(y)) <==> MovesCleanly(rules, x, r, q, values)
    ensures OthersStay(View(x), View(y), r) <==> q !in View(x).rows || View(x).rows[q] == values
  {
    MovedRows(x, y, r, q, values, news, lost);
    OthersStayExactly(View(x), View(y), r, q, values);
    LostWereOwn(rules, x, r, q, values);
    if MovesCleanly(rules, x, r, q, values) {
      CleanMoveIsSound(rules, x, y, r, q, values, news, lost);
    }
    if Sound(rules, View(y)) {
      SoundMoveIsClean(rules, x, y, r, q, values, news, lost);
    }
  }

  lemma OthersStayExactly(s: Store, t: Store, r: RowRef, q: RowRef, values: Row)
    requires t.rows == (s.rows - {r})[q := values] && q != r
    ensures OthersStay(s, t, r) <==> q !in s.rows || s.rows[q] == values
  {
    assert t.rows[q] == values;
  }

  // ── a clean move is sound ────────────────────────────────────────────────

  lemma CleanMoveIsSound(rules: Rules, x: Txn, y: Txn, r: RowRef, q: RowRef, values: Row, news: map<string, Owner>, lost: set<string>)
    requires rules.WellFormed() && MoveReady(rules, x, r, q, values) && MovesCleanly(rules, x, r, q, values)
    requires MovedTo(x, y, r, q, values, news, lost) && View(y).rows == (View(x).rows - {r})[q := values]
    requires news == NewKeys(rules, rules.Declared(r.table), q, values, Some(View(x).rows[r]))
    requires lost == LostKeys(rules, x, rules.Declared(r.table), q, values, Some(View(x).rows[r]))
    requires forall k :: k in lost ==> k !in x.writes.owners && k in x.snapshot.owners && x.snapshot.owners[k].row == r
    ensures Sound(rules, View(y))
  {
    ChangedKeysAreNew(rules, x, r, q, values, View(x).rows[r]);
    MovedRowOwns(rules, x, y, r, q, values, news, lost);
    MovedNoStale(rules, x, y, r, q, values, news, lost);
    MovedNoOrphans(rules, x, y, r, q, values);
    MovedUnderPk(rules, View(x), View(y), r, q, values);
  }

  lemma MovedUnderPk(rules: Rules, s: Store, t: Store, r: RowRef, q: RowRef, values: Row)
    requires UnderPk(rules, s) && AllValid(rules, s) && t.rows == (s.rows - {r})[q := values]
    requires rules.pk(q.table, values) == q.pk && rules.valid(q.table, values)
    ensures UnderPk(rules, t) && AllValid(rules, t)
  {
  }

  lemma MovedNoStale(rules: Rules, x: Txn, y: Txn, r: RowRef, q: RowRef, values: Row, news: map<string, Owner>, lost: set<string>)
    requires rules.WellFormed() && MoveReady(rules, x, r, q, values) && MovesCleanly(rules, x, r, q, values)
    requires MovedTo(x, y, r, q, values, news, lost) && View(y).rows == (View(x).rows - {r})[q := values]
    requires lost == LostKeys(rules, x, rules.Declared(r.table), q, values, Some(View(x).rows[r]))
    requires forall j :: j in lost ==> j !in x.writes.owners && j in x.snapshot.owners && x.snapshot.owners[j].row == r
    requires forall c, j :: rules.HasKey(q.table, values, c, j) <==> j in news && news[j] == Owner(c, q)
    requires forall j :: j in news ==> news[j].row == q
    ensures NoStale(rules, View(y))
  {
    forall c, k | rules.HasKey(r.table, View(x).rows[r], c, k) ensures k in lost {
      GivenUpIsLost(rules, x, r, q, values, c, k);
    }
    forall c, k | q in View(x).rows && rules.HasKey(q.table, View(x).rows[q], c, k) ensures rules.HasKey(q.table, values, c, k) {
      OverwrittenIsTakenOver(rules, x, r, q, values, c, k);
    }
    forall k | k in View(y).owners
      ensures var o := View(y).owners[k];
              o.row in View(y).rows && rules.HasKey(o.row.table, View(y).rows[o.row], o.constraint, k)
    {
      MovedKeyNotStale(rules, x, y, r, q, values, news, lost, k);
    }
  }

  lemma MovedNoOrphans(rules: Rules, x: Txn, y: Txn, r: RowRef, q: RowRef, values: Row)
    requires rules.WellFormed() && MoveReady(rules, x, r, q, values) && Unreferenced(rules, View(x), r)
    requires View(y).rows == (View(x).rows - {r})[q := values]
    ensures NoOrphans(rules, View(y))
  {
    forall c, fk, p | c in View(y).rows && rules.References(c.table, View(y).rows[c], fk, p) ensures p in View(y).rows {
      if c == q {
        UnorphanedExists(rules, x, rules.ForeignKeys(r.table), values, fk);
        ExistsIsView(rules, x, p);
      } else {
        assert rules.References(c.table, View(x).rows[c], fk, p);
      }
    }
  }

  lemma ChangedKeysAreNew(rules: Rules, x: Txn, r: RowRef, q: RowRef, values: Row, was: Row)
    requires rules.WellFormed() && q.table == r.table
    requires rules.PkGuard(r.table).Some? ==> rules.PkGuard(r.table).value in rules.Declared(r.table)
    requires forall uq :: uq in rules.Declared(r.table) && rules.key(r.table, uq, values).Some? ==>
               rules.key(r.table, uq, values) != rules.key(r.table, uq, was)
    requires Taken(rules, x, rules.Declared(r.table), q, values, Some(was)) == None
    ensures var news := NewKeys(rules, rules.Declared(r.table), q, values, Some(was));
            && (forall k :: k in news ==> KeyFree(x, k, q) && news[k].row == q)
            && (forall c, k :: rules.HasKey(q.table, values, c, k) <==> k in news && news[k] == Owner(c, q))
  {
    var uqs := rules.Declared(r.table);
    var news := NewKeys(rules, uqs, q, values, Some(was));
    GuardedSplits(rules, r.table);
    forall k | k in news
      ensures KeyFree(x, k, q) && news[k].row == q && rules.HasKey(q.table, values, news[k].constraint, k)
    {
      var u := NewKeysFrom(rules, uqs, q, values, Some(was), k);
      UntakenIsFree(rules, x, uqs, q, values, Some(was), u);
    }
    forall c, k | rules.HasKey(q.table, values, c, k) ensures k in news && news[k] == Owner(c, q) {
      var uq :| uq in rules.Guarded(r.table) && uq.name == c && rules.key(r.table, uq, values) == Some(k);
      NewKeysHas(rules, uqs, q, values, Some(was), uq, k);
    }
  }

  lemma MovedRowOwns(rules: Rules, x: Txn, y: Txn, r: RowRef, q: RowRef, values: Row, news: map<string, Owner>, lost: set<string>)
    requires Owned(rules, View(x)) && PutsOwned(x) && MovedTo(x, y, r, q, values, news, lost)
    requires View(y).rows == (View(x).rows - {r})[q := values]
    requires forall k :: k in lost ==> k !in x.writes.owners && k in x.snapshot.owners && x.snapshot.owners[k].row == r
    requires forall k :: k in news ==> KeyFree(x, k, q)
    requires forall c, k :: rules.HasKey(q.table, values, c, k) ==> k in news && news[k] == Owner(c, q)
    ensures Owned(rules, View(y))
  {
    forall z, c, k | z in View(y).rows && rules.HasKey(z.table, View(y).rows[z], c, k)
      ensures k in View(y).owners && View(y).owners[k] == Owner(c, z)
    {
      MovedOwner(x, y, r, q, values, news, lost, k);
      if z != q {
        assert View(x).owners[k] == Owner(c, z);
      }
    }
  }

  lemma MovedKeyNotStale(rules: Rules, x: Txn, y: Txn, r: RowRef, q: RowRef, values: Row, news: map<string, Owner>, lost: set<string>, k: string)
    requires NoStale(rules, View(x)) && r in View(x).rows && q.table == r.table
    requires MovedTo(x, y, r, q, values, news, lost) && View(y).rows == (View(x).rows - {r})[q := values]
    requires forall j :: j in lost ==> j !in x.writes.owners
    requires forall c, j :: rules.HasKey(r.table, View(x).rows[r], c, j) ==> j in lost
    requires forall c, j :: rules.HasKey(q.table, values, c, j) <==> j in news && news[j] == Owner(c, q)
    requires q in View(x).rows ==>
               forall c, j :: rules.HasKey(q.table, View(x).rows[q], c, j) ==> rules.HasKey(q.table, values, c, j)
    requires forall j :: j in news ==> news[j].row == q
    requires k in View(y).owners
    ensures var o := View(y).owners[k];
            o.row in View(y).rows && rules.HasKey(o.row.table, View(y).rows[o.row], o.constraint, k)
  {
    MovedOwner(x, y, r, q, values, news, lost, k);
    var o := View(y).owners[k];
    if k in news {
      assert news[k] == Owner(o.constraint, q);
    } else {
      assert rules.HasKey(o.row.table, View(x).rows[o.row], o.constraint, k);
    }
  }

  /** Every key of a row that moves cleanly is given up. */
  lemma GivenUpIsLost(rules: Rules, x: Txn, r: RowRef, q: RowRef, values: Row, c: string, k: string)
    requires rules.WellFormed() && MoveReady(rules, x, r, q, values) && MovesCleanly(rules, x, r, q, values)
    requires rules.HasKey(r.table, View(x).rows[r], c, k)
    ensures k in LostKeys(rules, x, rules.Declared(r.table), q, values, Some(View(x).rows[r]))
  {
    GuardedSplits(rules, r.table);
    KeyIsOwned(rules, x, r, c, k);
    var uq :| uq in rules.Guarded(r.table) && uq.name == c && rules.key(r.table, uq, View(x).rows[r]) == Some(k);
    assert uq in rules.Declared(r.table) && Loses(rules, uq, q, values, Some(View(x).rows[r]), k);
  }

  lemma OverwrittenIsTakenOver(rules: Rules, x: Txn, r: RowRef, q: RowRef, values: Row, c: string, k: string)
    requires MovesCleanly(rules, x, r, q, values) && q.table == r.table
    requires q in View(x).rows && rules.HasKey(q.table, View(x).rows[q], c, k)
    ensures rules.HasKey(q.table, values, c, k)
  {
    GuardedSplits(rules, r.table);
  }

  // ── a sound move is clean ────────────────────────────────────────────────

  lemma SoundMoveIsClean(rules: Rules, x: Txn, y: Txn, r: RowRef, q: RowRef, values: Row, news: map<string, Owner>, lost: set<string>)
    requires rules.WellFormed() && MoveReady(rules, x, r, q, values) && Sound(rules, View(y))
    requires MovedTo(x, y, r, q, values, news, lost) && View(y).rows == (View(x).rows - {r})[q := values]
    requires news == NewKeys(rules, rules.Declared(r.table), q, values, Some(View(x).rows[r]))
    requires lost == LostKeys(rules, x, rules.Declared(r.table), q, values, Some(View(x).rows[r]))
    requires forall k :: k in lost ==> k !in x.writes.owners && k in x.snapshot.owners && x.snapshot.owners[k].row == r
    ensures MovesCleanly(rules, x, r, q, values)
  {
    var was := View(x).rows[r];
    forall c, fk | c in View(x).rows ensures !rules.References(c.table, View(x).rows[c], fk, r) {
      MovedUnreferenced(rules, x, y, r, q, values, c, fk);
    }
    forall uq | uq in rules.Guarded(r.table) && rules.key(r.table, uq, was).Some?
      ensures uq in rules.Declared(r.table) && rules.key(r.table, uq, values) != rules.key(r.table, uq, was)
    {
      MovedKeyGoes(rules, x, y, r, q, values, news, lost, uq);
    }
    GuardedSplits(rules, r.table);
    if q in View(x).rows {
      forall uq | uq in rules.Declared(r.table) && rules.key(r.table, uq, View(x).rows[q]).Some?
        ensures rules.key(r.table, uq, values) == rules.key(r.table, uq, View(x).rows[q])
      {
        OverwrittenKeyStays(rules, x, y, r, q, values, news, lost, uq);
      }
    }
  }

  lemma MovedUnreferenced(rules: Rules, x: Txn, y: Txn, r: RowRef, q: RowRef, values: Row, c: RowRef, fk: ForeignKey)
    requires rules.WellFormed() && NoOrphans(rules, View(y)) && q != r && q.table == r.table
    requires View(y).rows == (View(x).rows - {r})[q := values] && c in View(x).rows
    ensures !rules.References(c.table, View(x).rows[c], fk, r)
  {
    if c.table != r.table {
      assert c in View(y).rows && View(y).rows[c] == View(x).rows[c] && r !in View(y).rows;
      assert !rules.References(c.table, View(y).rows[c], fk, r);
    }
  }

  /** A key the row had is not gained. */
  lemma OldIsNotNew(rules: Rules, r: RowRef, q: RowRef, values: Row, was: Row, uq: UniqueConstraint, k: string)
    requires rules.WellFormed() && q.table == r.table && uq in rules.Guarded(r.table) && rules.key(r.table, uq, was) == Some(k)
    ensures k !in NewKeys(rules, rules.Declared(r.table), q, values, Some(was))
  {
    GuardedSplits(rules, r.table);
    if k in NewKeys(rules, rules.Declared(r.table), q, values, Some(was)) {
      var u := NewKeysFrom(rules, rules.Declared(r.table), q, values, Some(was), k);
      assert rules.HasKey(r.table, values, u.name, k) && rules.HasKey(r.table, was, uq.name, k);
    }
  }

  lemma LostIsGone(rules: Rules, x: Txn, r: RowRef, q: RowRef, values: Row, was: Row, uq: UniqueConstraint, k: string)
    requires rules.WellFormed() && q.table == r.table && uq in rules.Guarded(r.table) && rules.key(r.table, uq, was) == Some(k)
    requires k in LostKeys(rules, x, rules.Declared(r.table), q, values, Some(was))
    ensures uq in rules.Declared(r.table) && rules.key(r.table, uq, values) != Some(k)
  {
    GuardedSplits(rules, r.table);
    var u :| u in rules.Declared(r.table) && Loses(rules, u, q, values, Some(was), k);
    assert rules.HasKey(r.table, was, u.name, k) && rules.HasKey(r.table, was, uq.name, k);
  }

  /** A key of the moved row that stayed behind would be stale. */
  lemma MovedKeyGoes(rules: Rules, x: Txn, y: Txn, r: RowRef, q: RowRef, values: Row, news: map<string, Owner>, lost: set<string>, uq: UniqueConstraint)
    requires rules.WellFormed() && Local(rules, x) && !WroteRow(x.writes, r) && r in View(x).rows
    requires q.table == r.table && q != r && NoStale(rules, View(y))
    requires MovedTo(x, y, r, q, values, news, lost) && View(y).rows == (View(x).rows - {r})[q := values]
    requires news == NewKeys(rules, rules.Declared(r.table), q, values, Some(View(x).rows[r]))
    requires lost == LostKeys(rules, x, rules.Declared(r.table), q, values, Some(View(x).rows[r]))
    requires uq in rules.Guarded(r.table) && rules.key(r.table, uq, View(x).rows[r]).Some?
    ensures uq in rules.Declared(r.table) && rules.key(r.table, uq, values) != rules.key(r.table, uq, View(x).rows[r])
  {
    var was := View(x).rows[r];
    var k := rules.key(r.table, uq, was).value;
    OldKeyIsOwned(rules, x, r, uq, k);
    OldIsNotNew(rules, r, q, values, was, uq, k);
    MovedOwner(x, y, r, q, values, news, lost, k);
    assert View(x).owners[k] == Owner(uq.name, r) && r !in View(y).rows;
    LostIsGone(rules, x, r, q, values, was, uq, k);
  }

  lemma OverwrittenKeyStays(rules: Rules, x: Txn, y: Txn, r: RowRef, q: RowRef, values: Row, news: map<string, Owner>, lost: set<string>, uq: UniqueConstraint)
    requires rules.KeysApart() && Owned(rules, View(x)) && NoStale(rules, View(y))
    requires q in View(x).rows && r in View(x).rows && q.table == r.table && q != r
    requires MovedTo(x, y, r, q, values, news, lost) && View(y).rows == (View(x).rows - {r})[q := values]
    requires news == NewKeys(rules, rules.Declared(r.table), q, values, Some(View(x).rows[r]))
    requires forall k :: k in lost ==> k !in x.writes.owners && k in x.snapshot.owners && x.snapshot.owners[k].row == r
    requires uq in rules.Declared(r.table) && rules.key(r.table, uq, View(x).rows[q]).Some?
    ensures rules.key(r.table, uq, values) == rules.key(r.table, uq, View(x).rows[q])
  {
    var k := rules.key(r.table, uq, View(x).rows[q]).value;
    GuardedSplits(rules, r.table);
    assert rules.HasKey(q.table, View(x).rows[q], uq.name, k) && View(x).owners[k] == Owner(uq.name, q);
    MovedOwner(x, y, r, q, values, news, lost, k);
    if k in news {
      var u := NewKeysFrom(rules, rules.Declared(r.table), q, values, Some(View(x).rows[r]), k);
    }
    assert View(y).owners[k].row == q;
    var c := View(y).owners[k].constraint;
    assert rules.HasKey(q.table, values, c, k);
  }

  // ── what a move writes ───────────────────────────────────────────────────

  lemma MovedRows(x: Txn, y: Txn, r: RowRef, q: RowRef, values: Row, news: map<string, Owner>, lost: set<string>)
    requires MovedTo(x, y, r, q, values, news, lost) && !WroteRow(x.writes, r) && q != r
    ensures View(y).rows == (View(x).rows - {r})[q := values]
  {
    MapMove(x.snapshot.rows, x.writes.rowDels, (set p | p in x.snapshot.rows && p == r), x.writes.rows, r, q, values);
  }

  lemma MapMove(m: map<RowRef, Row>, dels: set<RowRef>, gone: set<RowRef>, puts: map<RowRef, Row>, r: RowRef, q: RowRef, row: Row)
    requires r !in puts && r !in dels && q != r
    requires forall p :: p in gone <==> p in m && p == r
    ensures m - (dels + gone) + puts[q := row] == (m - dels + puts - {r})[q := row]
  {
  }

  lemma MovedOwner(x: Txn, y: Txn, r: RowRef, q: RowRef, values: Row, news: map<string, Owner>, lost: set<string>, k: string)
    requires MovedTo(x, y, r, q, values, news, lost) && (k in lost ==> k !in x.writes.owners)
    ensures k in View(y).owners <==> k in news || (k in View(x).owners && k !in lost)
    ensures k in View(y).owners ==> View(y).owners[k] == if k in news then news[k] else View(x).owners[k]
  {
  }

  lemma LostWereOwn(rules: Rules, x: Txn, r: RowRef, q: RowRef, values: Row)
    requires Local(rules, x) && !WroteRow(x.writes, r) && r in View(x).rows && q.table == r.table
    ensures forall k :: k in LostKeys(rules, x, rules.Declared(r.table), q, values, Some(View(x).rows[r])) ==>
              k !in x.writes.owners && k in x.snapshot.owners && x.snapshot.owners[k].row == r
  {
    GuardedSplits(rules, r.table);
    forall k | k in LostKeys(rules, x, rules.Declared(r.table), q, values, Some(View(x).rows[r]))
      ensures k !in x.writes.owners && k in x.snapshot.owners && x.snapshot.owners[k].row == r
    {
      var u :| u in rules.Declared(r.table) && Loses(rules, u, q, values, Some(View(x).rows[r]), k);
      OldKeyIsOwned(rules, x, r, u, k);
    }
  }

  lemma MovedWrites(rules: Rules, x: Txn, r: RowRef, q: RowRef, values: Row)
    requires rules.WellFormed() && Local(rules, x) && !WroteRow(x.writes, r) && r in View(x).rows && q.table == r.table
    ensures var was, uqs := View(x).rows[r], rules.Declared(r.table);
            MovedTo(x, UpdateRow(rules, x, r, q, values, values, was), r, q, values,
                    NewKeys(rules, uqs, q, values, Some(was)), LostKeys(rules, x, uqs, q, values, Some(was)))
  {
    var was, uqs := View(x).rows[r], rules.Declared(r.table);
    GuardedSplits(rules, r.table);
    forall u, j | u in uqs && OldKey(rules, r.table, u, Some(was)) == Some(j) ensures j !in x.writes.owners {
      OldKeyIsOwned(rules, x, r, u, j);
    }
    ReserveEffect(rules, x, uqs, q, values, Some(was));
    TouchEffect(rules, Reserve(rules, x, uqs, q, values, Some(was)), rules.ForeignKeys(r.table), values);
  }
}
