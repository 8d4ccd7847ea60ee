/** `insert_many`: one pass over the rows with preloaded primary keys and cached parent
    lookups, against inserting the rows one by one, and exactly when the two agree. */
module Batch {
  import opened Strings
  import opened Values
  import opened Schema
  import opened Overlay
  import opened Planner
  import opened Rules
  import opened Guards
  import opened Operations
  import opened Keeping
  import opened Transaction

  /** A row of a batch, and whether the caller supplied its whole primary key. */
  datatype Supplied = Supplied(row: Row, explicit: bool)

  /** The rows inserted one by one, up to the first error. */
  function InsertAll(rules: Rules, x: Txn, table: string, rows: seq<Supplied>): Answer
    decreases |rows|
  {
    if rows == [] then Accepted(x)
    else
      match Inserted(rules, x, table, rows[0].row, rows[0].explicit)
      case Rejected(e, y) => Rejected(e, y)
      case Accepted(y) => InsertAll(rules, y, table, rows[1..])
  }

  // ── what an insert adds to the rows that exist ───────────────────────────

  /** A staged insert adds its own row to those that exist. It may bring others to light, when
      it is the first operation of a table whose lookups were not answered. */
  lemma StagedInsertExists(rules: Rules, x: Txn, y: Txn, r: RowRef, row: Row, p: RowRef)
    requires y.snapshot == x.snapshot && y.staged == x.staged + [Insert(r.table, row)] && r.pk == rules.pk(r.table, row)
    ensures Exists(rules, x, p) || p == r ==> Exists(rules, y, p)
    ensures p.table != r.table || Answered(rules, x, r.table) ==>
              (Exists(rules, y, p) <==> Exists(rules, x, p) || p == r)
  {
    assert y.staged[..|x.staged|] == x.staged && y.staged[|x.staged|] == Insert(r.table, row);
    ReadsAfter(rules, x, y, p.table);
    assert y.staged[..|y.staged| - 1] == x.staged;
    assert forall op :: op in y.staged <==> op in x.staged || op == Insert(r.table, row);
    assert HasStagedFor(y.staged, p.table) <==> HasStagedFor(x.staged, p.table) || p.table == r.table;
  }

  /** An accepted insert takes no row away from those that exist, and adds just its own to a
      table whose lookups are answered. */
  lemma InsertExists(rules: Rules, x: Txn, r: RowRef, row: Row, explicit: bool, p: RowRef)
    requires r.pk == rules.pk(r.table, row)
    ensures var y := InsertRow(rules, x, r, row, explicit);
            && (Exists(rules, x, p) ==> Exists(rules, y, p))
            && (Answered(rules, x, r.table) && p.table == r.table ==> (Exists(rules, y, p) <==> Exists(rules, x, p) || p == r))
  {
    InsertStages(rules, x, r, row, explicit);
    StagedInsertExists(rules, x, InsertRow(rules, x, r, row, explicit), r, row, p);
  }

  // ── the batch ────────────────────────────────────────────────────────────

  /** `check_pk` with the preloaded keys: an explicit single-column key is looked up there. */
  predicate SeenTaken(rules: Rules, x: Txn, r: RowRef, s: Supplied, seen: set<string>) {
    if rules.SingleKey(r.table) then s.explicit && r.pk in seen else PkTaken(rules, x, r, s.row, s.explicit)
  }

  /** An explicit single-column key is added to the preloaded ones at once; an assigned key is
      not. */
  function SeenAfter(rules: Rules, r: RowRef, s: Supplied, seen: set<string>): set<string> {
    if rules.SingleKey(r.table) && s.explicit then seen + {r.pk} else seen
  }

  /** `do_insert` inside a batch. */
  function InsertedSeen(rules: Rules, x: Txn, table: string, s: Supplied, seen: set<string>): Answer {
    var r := RowRef(table, rules.pk(table, s.row));
    if !rules.Known(table) then Rejected(UnknownTable, x)
    else if !rules.valid(table, s.row) then Rejected(Invalid, x)
    else
      var taken := Taken(rules, x, rules.Declared(table), r, s.row, None);
      if taken.Some? then Rejected(Duplicate(taken.value), x)
      else if SeenTaken(rules, x, r, s, seen) then Rejected(DuplicatePk, x)
      else
        var orphaned := Orphaned(rules, x, rules.ForeignKeys(table), s.row);
        if orphaned.Some? then Rejected(MissingParent(orphaned.value), x)
        else Accepted(InsertRow(rules, x, r, s.row, s.explicit))
  }

  /** `insert_many` from the preloaded keys. */
  function BatchAll(rules: Rules, x: Txn, table: string, rows: seq<Supplied>, seen: set<string>): Answer
    decreases |rows|
  {
    if rows == [] then Accepted(x)
    else
      match InsertedSeen(rules, x, table, rows[0], seen)
      case Rejected(e, y) => Rejected(e, y)
      case Accepted(y) =>
        BatchAll(rules, y, table, rows[1..], SeenAfter(rules, RowRef(table, rules.pk(table, rows[0].row)), rows[0], seen))
  }

  /** A parent the cache has found still exists. */
  ghost predicate CacheIsFresh(rules: Rules, x: Txn, found: map<RowRef, bool>) {
    forall p :: p in found && found[p] ==> Exists(rules, x, p)
  }

  /** No parent has been looked up in vain: the batch ends with the first that is missing. */
  predicate AllFound(found: map<RowRef, bool>) {
    forall p :: p in found ==> found[p]
  }

  /** `check_foreign_keys` with the cache of parent lookups. */
  method CheckCached(tx: Transaction, table: string, row: Row, cache: map<RowRef, bool>)
    returns (orphaned: Option<string>, found: map<RowRef, bool>)
    requires CacheIsFresh(tx.rules, tx.Value(), cache) && AllFound(cache)
    ensures orphaned == Orphaned(tx.rules, tx.Value(), tx.rules.ForeignKeys(table), row)
    ensures CacheIsFresh(tx.rules, tx.Value(), found) && (orphaned.None? ==> AllFound(found))
  {
    var fks := tx.rules.ForeignKeys(table);
    found := cache;
    var i := 0;
    assert fks[0..] == fks;
    while i < |fks|
      invariant 0 <= i <= |fks|
      invariant CacheIsFresh(tx.rules, tx.Value(), found) && AllFound(found)
      invariant Orphaned(tx.rules, tx.Value(), fks, row) == Orphaned(tx.rules, tx.Value(), fks[i..], row)
    {
      assert fks[i..][0] == fks[i] && fks[i..][1..] == fks[i + 1..];
      var parent := tx.rules.parent(fks[i], row);
      if parent.Some? {
        var p := RowRef(fks[i].referencesTable, parent.value);
        var hit;
        if p in found {
          hit := found[p];
        } else {
          hit := tx.RowExists(p);
          found := found[p := hit];
        }
        if !hit {
          return Some(fks[i].name), found;
        }
      }
      i := i + 1;
    }
    return None, found;
  }

  method CheckSeen(tx: Transaction, r: RowRef, s: Supplied, seen: set<string>) returns (taken: bool, known: set<string>)
    ensures taken == SeenTaken(tx.rules, tx.Value(), r, s, seen)
    ensures known == SeenAfter(tx.rules, r, s, seen)
  {
    if tx.rules.SingleKey(r.table) {
      if !s.explicit {
        return false, seen;
      }
      return r.pk in seen, seen + {r.pk};
    }
    taken := tx.CheckPk(r, s.row, s.explicit);
    known := seen;
  }

  method InsertCached(tx: Transaction, table: string, s: Supplied, seen: set<string>, cache: map<RowRef, bool>)
    returns (error: Option<KitError>, known: set<string>, found: map<RowRef, bool>)
    requires CacheIsFresh(tx.rules, tx.Value(), cache) && AllFound(cache)
    modifies tx
    ensures tx.Value() == InsertedSeen(tx.rules, old(tx.Value()), table, s, seen).txn
    ensures error == ErrorOf(InsertedSeen(tx.rules, old(tx.Value()), table, s, seen))
    ensures error.None? ==>
              && known == SeenAfter(tx.rules, RowRef(table, tx.rules.pk(table, s.row)), s, seen)
              && CacheIsFresh(tx.rules, tx.Value(), found) && AllFound(found)
  {
    known, found := seen, cache;
    var r := RowRef(table, tx.rules.pk(table, s.row));
    if !tx.rules.Known(table) {
      return Some(UnknownTable), known, found;
    }
    if !tx.rules.valid(table, s.row) {
      return Some(Invalid), known, found;
    }
    var taken := tx.CheckUniqueConstraints(r, s.row, None);
    if taken.Some? {
      return Some(Duplicate(taken.value)), known, found;
    }
    var pkTaken;
    pkTaken, known := CheckSeen(tx, r, s, seen);
    if pkTaken {
      return Some(DuplicatePk), known, found;
    }
    var orphaned;
    orphaned, found := CheckCached(tx, table, s.row, cache);
    if orphaned.Some? {
      return Some(MissingParent(orphaned.value)), known, found;
    }
    ghost var x := tx.Value();
    tx.InsertRowWithGuards(r, s.row, s.explicit);
    forall p | p in found && found[p] ensures Exists(tx.rules, tx.Value(), p) {
      InsertExists(tx.rules, x, r, s.row, s.explicit, p);
    }
    return None, known, found;
  }

  /** The keys loaded before the batch: those of the rows the transaction sees. */
  function Preloaded(rules: Rules, x: Txn, table: string): set<string> {
    Reads(rules, x, table).Keys
  }

  /** `insert_many`: one pass with preloaded keys and cached parents. */
  method InsertMany(tx: Transaction, table: string, rows: seq<Supplied>) returns (error: Option<KitError>)
    modifies tx
    ensures tx.Value() == BatchAll(tx.rules, old(tx.Value()), table, rows, Preloaded(tx.rules, old(tx.Value()), table)).txn
    ensures error == ErrorOf(BatchAll(tx.rules, old(tx.Value()), table, rows, Preloaded(tx.rules, old(tx.Value()), table)))
  {
    ghost var x := tx.Value();
    var seen := ApplyAll(KeyedAs(tx.rules, table), TableOf(tx.snapshot, table), tx.staged).Keys;
    ghost var preloaded := seen;
    var found: map<RowRef, bool> := map[];
    error := None;
    var i := 0;
    assert rows[0..] == rows;
    while i < |rows|
      invariant 0 <= i <= |rows| && error == None
      invariant CacheIsFresh(tx.rules, tx.Value(), found) && AllFound(found)
      invariant BatchAll(tx.rules, x, table, rows, preloaded) == BatchAll(tx.rules, tx.Value(), table, rows[i..], seen)
    {
      assert rows[i..][0] == rows[i] && rows[i..][1..] == rows[i + 1..];
      error, seen, found := InsertCached(tx, table, rows[i], seen, found);
      if error.Some? {
        return;
      }
      i := i + 1;
    }
  }

  // ── the batch against single inserts ─────────────────────────────────────

  /** The preloaded keys, and those given besides, assigned in the batch or left by a staged
      row, are those a single insert counts as there. */
  ghost predicate SeenIsExact(rules: Rules, x: Txn, table: string, seen: set<string>, given: set<string>) {
    rules.SingleKey(table) ==> forall pk :: pk in seen || pk in given <==> Exists(rules, x, RowRef(table, pk))
  }

  /** The row would get as far as the check of its primary key. */
  predicate ReachesPkCheck(rules: Rules, x: Txn, table: string, row: Row) {
    && rules.Known(table) && rules.valid(table, row)
    && Taken(rules, x, rules.Declared(table), RowRef(table, rules.pk(table, row)), row, None) == None
  }

  /** The row repeats, explicitly, a key that is given and not preloaded. */
  predicate RepeatsAssigned(rules: Rules, x: Txn, table: string, s: Supplied, seen: set<string>, given: set<string>) {
    var pk := rules.pk(table, s.row);
    rules.SingleKey(table) && s.explicit && pk !in seen && pk in given && ReachesPkCheck(rules, x, table, s.row)
  }

  function AssignedAfter(rules: Rules, table: string, s: Supplied, given: set<string>): set<string> {
    if s.explicit then given else given + {rules.pk(table, s.row)}
  }

  /** Some row that the batch gets to repeats a key assigned earlier in the batch. */
  predicate Collides(rules: Rules, x: Txn, table: string, rows: seq<Supplied>, seen: set<string>, given: set<string>)
    decreases |rows|
  {
    rows != [] &&
    (|| RepeatsAssigned(rules, x, table, rows[0], seen, given)
     || match InsertedSeen(rules, x, table, rows[0], seen)
        case Rejected(_, _) => false
        case Accepted(y) =>
          Collides(rules, y, table, rows[1..], SeenAfter(rules, RowRef(table, rules.pk(table, rows[0].row)), rows[0], seen),
                   AssignedAfter(rules, table, rows[0], given)))
  }

  /** The keys that rows staged by the transaction have left, and that still count. */
  function MovedKeys(rules: Rules, x: Txn, table: string): set<string> {
    set op | op in x.staged && op.Update? && StillCounts(KeyedAs(rules, table), x.staged, op.oldPk) :: op.oldPk
  }

  /** The preloaded keys are those of the rows that are looked up; the second look at the
      staged rows adds those that rows have left. */
  lemma PreloadIsExact(rules: Rules, x: Txn, table: string)
    ensures SeenIsExact(rules, x, table, Preloaded(rules, x, table), MovedKeys(rules, x, table))
  {
    forall pk | rules.SingleKey(table)
      ensures pk in Preloaded(rules, x, table) || pk in MovedKeys(rules, x, table) <==> Exists(rules, x, RowRef(table, pk))
    {
      ExistsExactly(rules, x, RowRef(table, pk));
    }
  }

  /** One row of the batch is inserted as it would be by itself, unless it repeats an assigned
      key; then it would have been refused as a duplicate, and is not. */
  lemma OneInserted(rules: Rules, x: Txn, table: string, s: Supplied, seen: set<string>, given: set<string>)
    requires SeenIsExact(rules, x, table, seen, given)
    ensures var one, batch := Inserted(rules, x, table, s.row, s.explicit), InsertedSeen(rules, x, table, s, seen);
            if RepeatsAssigned(rules, x, table, s, seen, given) then
              one == Rejected(DuplicatePk, x) && (batch.Rejected? ==> batch.error != DuplicatePk)
            else one == batch
  {
  }

  lemma SeenStaysExact(rules: Rules, x: Txn, table: string, s: Supplied, seen: set<string>, given: set<string>)
    requires SeenIsExact(rules, x, table, seen, given) && InsertedSeen(rules, x, table, s, seen).Accepted?
    ensures var r := RowRef(table, rules.pk(table, s.row));
            SeenIsExact(rules, InsertedSeen(rules, x, table, s, seen).txn, table, SeenAfter(rules, r, s, seen),
                        AssignedAfter(rules, table, s, given))
  {
    var r := RowRef(table, rules.pk(table, s.row));
    var known, after := SeenAfter(rules, r, s, seen), AssignedAfter(rules, table, s, given);
    forall pk | rules.SingleKey(table)
      ensures pk in known || pk in after <==> Exists(rules, InsertRow(rules, x, r, s.row, s.explicit), RowRef(table, pk))
    {
      InsertExists(rules, x, r, s.row, s.explicit, RowRef(table, pk));
    }
  }

  lemma {:induction false} BatchGrows(rules: Rules, x: Txn, table: string, rows: seq<Supplied>, seen: set<string>)
    ensures |BatchAll(rules, x, table, rows, seen).txn.staged| >= |x.staged|
    decreases |rows|
  {
    if rows != [] {
      var r, o := RowRef(table, rules.pk(table, rows[0].row)), InsertedSeen(rules, x, table, rows[0], seen);
      if o.Accepted? {
        InsertStages(rules, x, r, rows[0].row, rows[0].explicit);
        BatchGrows(rules, o.txn, table, rows[1..], SeenAfter(rules, r, rows[0], seen));
      }
    }
  }

  /** A row that repeats an assigned key makes the difference: single inserts end there. */
  lemma RepeatDiffers(rules: Rules, x: Txn, table: string, rows: seq<Supplied>, seen: set<string>, given: set<string>)
    requires rows != [] && SeenIsExact(rules, x, table, seen, given)
    requires RepeatsAssigned(rules, x, table, rows[0], seen, given)
    ensures BatchAll(rules, x, table, rows, seen) != InsertAll(rules, x, table, rows)
  {
    var s := rows[0];
    var r, o := RowRef(table, rules.pk(table, s.row)), InsertedSeen(rules, x, table, s, seen);
    OneInserted(rules, x, table, s, seen, given);
    if o.Accepted? {
      InsertStages(rules, x, r, s.row, s.explicit);
      BatchGrows(rules, o.txn, table, rows[1..], SeenAfter(rules, r, s, seen));
    }
  }

  lemma {:induction false} BatchExactly(rules: Rules, x: Txn, table: string, rows: seq<Supplied>, seen: set<string>, given: set<string>)
    requires SeenIsExact(rules, x, table, seen, given)
    ensures BatchAll(rules, x, table, rows, seen) == InsertAll(rules, x, table, rows) <==> !Collides(rules, x, table, rows, seen, given)
    decreases |rows|
  {
    if rows != [] {
      if RepeatsAssigned(rules, x, table, rows[0], seen, given) {
        RepeatDiffers(rules, x, table, rows, seen, given);
      } else {
        OneInserted(rules, x, table, rows[0], seen, given);
        var o := InsertedSeen(rules, x, table, rows[0], seen);
        if o.Accepted? {
          SeenStaysExact(rules, x, table, rows[0], seen, given);
          BatchExactly(rules, o.txn, table, rows[1..], SeenAfter(rules, RowRef(table, rules.pk(table, rows[0].row)), rows[0], seen),
                       AssignedAfter(rules, table, rows[0], given));
        }
      }
    }
  }

  /** `insert_many` does what inserting the rows one by one does, with the same staged
      operations, guards and rows and the same first error, exactly when no explicit row it
      gets to repeats a primary key that was assigned earlier in the batch, or that a row
      staged before it has left. */
  lemma BatchIsInsertsExactly(rules: Rules, x: Txn, table: string, rows: seq<Supplied>)
    ensures BatchAll(rules, x, table, rows, Preloaded(rules, x, table)) == InsertAll(rules, x, table, rows)
       <==> !Collides(rules, x, table, rows, Preloaded(rules, x, table), MovedKeys(rules, x, table))
  {
    PreloadIsExact(rules, x, table);
    BatchExactly(rules, x, table, rows, Preloaded(rules, x, table), MovedKeys(rules, x, table));
  }

  /** Without moved rows there are no such keys. */
  lemma NoMovedKeys(rules: Rules, x: Txn, table: string)
    requires UpdatesKeepPk(rules, x)
    ensures MovedKeys(rules, x, table) == {}
  {
    forall op | op in x.staged && op.Update? ensures !StillCounts(KeyedAs(rules, table), x.staged, op.oldPk) {
    }
  }

  /** A later explicit row has the key of an earlier assigned one. */
  predicate LaterRepeats(rules: Rules, table: string, rows: seq<Supplied>, given: set<string>) {
    exists j :: 0 <= j < |rows| && rows[j].explicit && AssignedBefore(rules, table, rows, given, j)
  }

  predicate AssignedBefore(rules: Rules, table: string, rows: seq<Supplied>, given: set<string>, j: int)
    requires 0 <= j < |rows|
  {
    var pk := rules.pk(table, rows[j].row);
    pk in given || exists i :: 0 <= i < j && !rows[i].explicit && rules.pk(table, rows[i].row) == pk
  }

  /** A batch in which no explicit row has the key of an earlier assigned one, which shows in
      the batch alone, does not collide. */
  lemma {:induction false} NoRepeatNoCollision(rules: Rules, x: Txn, table: string, rows: seq<Supplied>, seen: set<string>, given: set<string>)
    requires !LaterRepeats(rules, table, rows, given)
    ensures !Collides(rules, x, table, rows, seen, given)
    decreases |rows|
  {
    if rows != [] {
      var s, rest := rows[0], rows[1..];
      assert rows[0].explicit ==> !AssignedBefore(rules, table, rows, given, 0);
      var after := AssignedAfter(rules, table, s, given);
      forall j | 0 <= j < |rest| && rest[j].explicit ensures !AssignedBefore(rules, table, rest, after, j) {
        LaterStays(rules, table, rows, given, j);
      }
      var o := InsertedSeen(rules, x, table, s, seen);
      if o.Accepted? {
        NoRepeatNoCollision(rules, o.txn, table, rest, SeenAfter(rules, RowRef(table, rules.pk(table, s.row)), s, seen), after);
      }
    }
  }

  lemma LaterStays(rules: Rules, table: string, rows: seq<Supplied>, given: set<string>, j: nat)
    requires j + 1 < |rows| && !AssignedBefore(rules, table, rows, given, j + 1)
    ensures !AssignedBefore(rules, table, rows[1..], AssignedAfter(rules, table, rows[0], given), j)
  {
    var rest := rows[1..];
    assert rest[j] == rows[j + 1];
    forall i | 0 <= i < j && !rest[i].explicit ensures rules.pk(table, rest[i].row) != rules.pk(table, rest[j].row) {
      assert rest[i] == rows[i + 1];
    }
    assert !rows[0].explicit ==> rules.pk(table, rows[0].row) != rules.pk(table, rows[j + 1].row);
  }
}
