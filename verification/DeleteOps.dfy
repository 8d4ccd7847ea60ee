/** The steps of a planned delete keep a transaction sound: set-null updates and cascades. */
module DeleteOps {
  import opened Strings
  import opened Values
  import opened Schema
  import opened Overlay
  import opened Planner
  import opened Rules
  import opened Guards
  import opened Operations
  import opened Keeping

  // ── the keys a row gives back ────────────────────────────────────────────

  lemma OwnedIsReleased(rules: Rules, x: Txn, r: RowRef, c: string, k: string)
    requires Local(rules, x) && !WroteRow(x.writes, r)
    requires r in View(x).rows && rules.HasKey(r.table, View(x).rows[r], c, k)
    ensures k in OwnedKeys(rules, x.snapshot, r)
  {
    KeyIsOwned(rules, x, r, c, k);
    GuardIsOfTable(rules, r.table, View(x).rows[r], c, k);
  }

  lemma GuardIsOfTable(rules: Rules, table: string, row: Row, c: string, k: string)
    requires rules.HasKey(table, row, c, k)
    ensures OfTable(rules, table, c)
  {
    GuardedSplits(rules, table);
    var uq :| uq in rules.Guarded(table) && uq.name == c && rules.key(table, uq, row) == Some(k);
    if uq !in rules.Declared(table) {
      PkGuardName(rules, table);
    }
  }

  lemma PkGuardName(rules: Rules, table: string)
    requires rules.PkGuard(table).Some?
    ensures rules.PkGuard(table).value.name == "__pk_" + table
  {
  }

  /** A row that goes gives back all of its keys. */
  lemma DeleteKeepsKeys(rules: Rules, x: Txn, r: RowRef)
    requires Local(rules, x) && !WroteRow(x.writes, r)
    ensures KeysKept(rules, x, r, None, map[], OwnedKeys(rules, x.snapshot, r))
  {
    forall c, k | r in View(x).rows && rules.HasKey(r.table, View(x).rows[r], c, k)
      ensures k in OwnedKeys(rules, x.snapshot, r)
    {
      OwnedIsReleased(rules, x, r, c, k);
    }
  }

  /** `y` is `x` after the delete of row `r`, whose guard is among those touched. */
  ghost predicate RowDeleted(rules: Rules, x: Txn, y: Txn, r: RowRef, touches: set<RowRef>) {
    && y == x.(writes := x.writes.(ownerDels := x.writes.ownerDels + OwnedKeys(rules, x.snapshot, r),
                                   rowDels := x.writes.rowDels + (set q | q in x.snapshot.rows && q == r),
                                   guards := y.writes.guards,
                                   guardDels := y.writes.guardDels),
               stagedUnique := WithoutOwner(x.stagedUnique, r),
               touched := y.touched,
               staged := x.staged + [Delete(r.table, r.pk)])
    && x.writes.guards.Keys + touches <= y.writes.guards.Keys
    && x.writes.guardDels <= y.writes.guardDels
    && y.touched <= y.writes.guards.Keys
  }

  lemma DeleteIsWritten(rules: Rules, x: Txn, y: Txn, r: RowRef, touches: set<RowRef>)
    requires !WroteRow(x.writes, r) && r in x.snapshot.rows && RowDeleted(rules, x, y, r, touches)
    ensures RowWritten(rules, x, y, r, None, map[], OwnedKeys(rules, x.snapshot, r), touches)
  {
    forall s ensures s in y.stagedUnique <==> s in x.stagedUnique && s.owner != r {
      WithoutOwnerHas(x.stagedUnique, r, s);
    }
    assert x.writes.owners + map[] == x.writes.owners;
    assert (set q | q in x.snapshot.rows && q == r) == {r};
  }

  lemma DeleteKeeps(rules: Rules, x: Txn, y: Txn, r: RowRef, touches: set<RowRef>)
    requires rules.WellFormed() && Local(rules, x) && !WroteRow(x.writes, r) && r in View(x).rows
    requires RowDeleted(rules, x, y, r, touches) && DeleteKept(rules, x, r, touches)
    ensures Local(rules, y) && View(y).rows == View(x).rows - {r}
  {
    var dels := OwnedKeys(rules, x.snapshot, r);
    UnwrittenIsSnapshot(x, r);
    DeleteKeepsKeys(rules, x, r);
    DeleteIsWritten(rules, x, y, r, touches);
    WriteKeepsLocal(rules, x, y, r, None, map[], dels, touches);
    WrittenRows(rules, x, y, r, None, map[], dels, touches);
  }

  // ── set-null ─────────────────────────────────────────────────────────────

  /** A nulled row keeps some of its keys and references, and gains none. */
  lemma NulledKeys(rules: Rules, x: Txn, r: RowRef, columns: seq<string>)
    requires rules.WellFormed() && Local(rules, x) && !WroteRow(x.writes, r) && r in View(x).rows
    ensures var row := NullOut(View(x).rows[r], columns);
            && KeysKept(rules, x, r, Some(row), NewKeys(rules, rules.Guarded(r.table), r, row, None), OwnedKeys(rules, x.snapshot, r))
            && ReferencesKept(rules, x, r, row, {})
  {
    var was, uqs := View(x).rows[r], rules.Guarded(r.table);
    var row := NullOut(was, columns);
    var puts, dels := NewKeys(rules, uqs, r, row, None), OwnedKeys(rules, x.snapshot, r);
    forall k | k in puts
      ensures puts[k].row == r && rules.HasKey(r.table, row, puts[k].constraint, k)
      ensures k !in x.writes.owners && (k in x.snapshot.owners ==> x.snapshot.owners[k].row == r)
    {
      var uq := NewKeysFrom(rules, uqs, r, row, None, k);
      OldKeyIsOwned(rules, x, r, uq, k);
    }
    forall c, k | rules.HasKey(r.table, row, c, k) ensures k in puts && puts[k] == Owner(c, r) {
      var uq :| uq in uqs && uq.name == c && rules.key(r.table, uq, row) == Some(k);
      NewKeysHas(rules, uqs, r, row, None, uq, k);
    }
    forall c, k | rules.HasKey(r.table, was, c, k) ensures k in dels {
      OwnedIsReleased(rules, x, r, c, k);
    }
    forall fk, p | rules.References(r.table, row, fk, p)
      ensures p in View(x).rows && rules.References(r.table, was, fk, p)
    {
      assert rules.References(r.table, was, fk, p);
    }
  }

  lemma SetNullIsWritten(rules: Rules, x: Txn, r: RowRef, row: Row)
    requires rules.WellFormed() && Local(rules, x) && !WroteRow(x.writes, r) && r in View(x).rows
    requires rules.pk(r.table, row) == r.pk && rules.valid(r.table, row)
    ensures RowWritten(rules, x, SetNullRow(rules, x, r, row), r, Some(row),
                       NewKeys(rules, rules.Guarded(r.table), r, row, None), OwnedKeys(rules, x.snapshot, r), {})
  {
    var uqs := rules.Guarded(r.table);
    UnwrittenIsSnapshot(x, r);
    ClearedReserves(rules, x, r, row);
    var puts := NewKeys(rules, uqs, r, row, None);
    forall s ensures s in WithoutOwner(x.stagedUnique, r) <==> s in x.stagedUnique && s.owner != r {
      WithoutOwnerHas(x.stagedUnique, r, s);
    }
    forall k | k in puts ensures puts[k].row == r {
      var uq := NewKeysFrom(rules, uqs, r, row, None, k);
    }
    assert StagedAs(rules, Update(r.table, r.pk, 0, row), r, Some(row));
    SetNullWrites(rules, x, r, row);
  }

  /** What is reserved for the nulled row once its guards are gone. */
  lemma ClearedReserves(rules: Rules, x: Txn, r: RowRef, row: Row)
    requires rules.WellFormed()
    ensures var y := SetNullRow(rules, x, r, row);
            var puts := NewKeys(rules, rules.Guarded(r.table), r, row, None);
            var kept := WithoutOwner(x.stagedUnique, r);
            && y.writes.owners == x.writes.owners + puts
            && y.writes.ownerDels == x.writes.ownerDels + OwnedKeys(rules, x.snapshot, r)
            && (forall s :: s in kept && s.key in x.writes.owners ==> s in y.stagedUnique)
            && (forall s :: s in y.stagedUnique ==> s in kept || (s.owner == r && s.key in puts))
            && (forall k :: k in puts ==> StagedUnique(k, r) in y.stagedUnique)
  {
    var uqs := rules.Guarded(r.table);
    var cleared := PutRow(DropRow(DropOwned(rules, x, r), r), r, row);
    ReservesAll(rules, cleared, r, row, true);
    ReserveEffect(rules, cleared, uqs, r, row, None);
    assert LostKeys(rules, cleared, uqs, r, row, None) == {};
  }

  /** A set-null puts the row and drops its old version, and leaves the row guards alone. */
  lemma SetNullWrites(rules: Rules, x: Txn, r: RowRef, row: Row)
    ensures var y := SetNullRow(rules, x, r, row);
            && y.snapshot == x.snapshot
            && y.writes.rows == x.writes.rows[r := row]
            && y.writes.rowDels == x.writes.rowDels + (set q | q in x.snapshot.rows && q == r)
            && y.writes.guards == x.writes.guards && y.writes.guardDels == x.writes.guardDels && y.touched == x.touched
            && y.staged == x.staged + [Update(r.table, r.pk, 0, row)]
  {
    ReserveKeepsRest(rules, PutRow(DropRow(DropOwned(rules, x, r), r), r, row), rules.Declared(r.table), r, row, None);
  }

  lemma NulledKeepsPk(rules: Rules, s: Store, r: RowRef, columns: seq<string>)
    requires rules.NullingShrinks() && UnderPk(rules, s) && r in s.rows
    requires forall c :: c in columns ==> rules.Nullable(r.table, c)
    ensures rules.pk(r.table, NullOut(s.rows[r], columns)) == r.pk
  {
  }

  lemma SetNullKeeps(rules: Rules, x: Txn, r: RowRef, columns: seq<string>)
    requires rules.WellFormed() && Local(rules, x) && !WroteRow(x.writes, r) && r in View(x).rows
    requires forall c :: c in columns ==> rules.Nullable(r.table, c)
    requires rules.valid(r.table, NullOut(View(x).rows[r], columns))
    ensures var row := NullOut(View(x).rows[r], columns);
            var y := SetNullRow(rules, x, r, row);
            && Local(rules, y) && View(y).rows == View(x).rows[r := row]
            && y.snapshot == x.snapshot && Written(y) <= Written(x) + {r}
            && y.writes.guards == x.writes.guards && y.writes.guardDels == x.writes.guardDels
  {
    var row := NullOut(View(x).rows[r], columns);
    var y := SetNullRow(rules, x, r, row);
    NulledKeepsPk(rules, View(x), r, columns);
    NulledKeys(rules, x, r, columns);
    SetNullIsWritten(rules, x, r, row);
    var puts, dels := NewKeys(rules, rules.Guarded(r.table), r, row, None), OwnedKeys(rules, x.snapshot, r);
    WriteKeepsLocal(rules, x, y, r, Some(row), puts, dels, {});
    WrittenRows(rules, x, y, r, Some(row), puts, dels, {});
    WriteWrites(rules, x, y, r, Some(row), puts, dels, {});
    SetNullWrites(rules, x, r, row);
  }

  function Written(x: Txn): set<RowRef> {
    x.writes.rows.Keys + x.writes.rowDels
  }

  lemma WriteWrites(rules: Rules, x: Txn, y: Txn, r: RowRef, row: Option<Row>,
                    puts: map<string, Owner>, dels: set<string>, touches: set<RowRef>)
    requires RowWritten(rules, x, y, r, row, puts, dels, touches)
    ensures y.snapshot == x.snapshot && Written(y) <= Written(x) + {r}
  {
  }

  // ── all set-null updates ─────────────────────────────────────────────────

  function NulledRow(su: SetNullUpdate): RowRef {
    RowRef(su.table, su.pk)
  }

  function RowsOf(sus: seq<SetNullUpdate>): set<RowRef> {
    set su | su in sus :: NulledRow(su)
  }

  /** The rows `n` are `m` with the updates made, each row once. */
  ghost predicate NulledRows(m: map<RowRef, Row>, n: map<RowRef, Row>, sus: seq<SetNullUpdate>) {
    && n.Keys == m.Keys
    && (forall q :: q in m && q !in RowsOf(sus) ==> n[q] == m[q])
    && (forall su :: su in sus && NulledRow(su) in m ==> n[NulledRow(su)] == NullOut(m[NulledRow(su)], su.columns))
  }

  ghost predicate Nulled(x: Txn, y: Txn, sus: seq<SetNullUpdate>) {
    && y.snapshot == x.snapshot
    && Written(y) <= Written(x) + RowsOf(sus)
    && y.writes.guards == x.writes.guards && y.writes.guardDels == x.writes.guardDels
    && NulledRows(View(x).rows, View(y).rows, sus)
  }

  lemma {:induction false} NullsKeep(rules: Rules, x: Txn, sus: seq<SetNullUpdate>)
    requires rules.WellFormed() && Local(rules, x)
    requires forall i, j :: 0 <= i < j < |sus| ==> NulledRow(sus[i]) != NulledRow(sus[j])
    requires forall su :: su in sus ==> !WroteRow(x.writes, NulledRow(su))
    ensures var o := SetNullAll(rules, x, x, sus);
            Local(rules, o.txn) && (o.Accepted? ==> Nulled(x, o.txn, sus))
    decreases |sus|
  {
    if sus != [] {
      var front, su := sus[..|sus| - 1], sus[|sus| - 1];
      assert sus == front + [su];
      NullsKeep(rules, x, front);
      var o := SetNullAll(rules, x, x, front);
      if o.Accepted? {
        assert NulledRow(su) !in RowsOf(front);
        NullOneKeeps(rules, x, o.txn, front, su);
      }
    }
  }

  /** What one set-null does to a transaction, whatever it was planned on. */
  lemma SetNullOneIs(rules: Rules, x: Txn, y: Txn, su: SetNullUpdate)
    requires Faithful(rules, x) && NulledRow(su) !in x.writes.rows
    ensures var r, o := NulledRow(su), SetNullOne(rules, x, y, su);
            && (o.Rejected? || r !in View(x).rows ==> o.txn == y)
            && (o.Accepted? && r in View(x).rows ==>
                  && o.txn == SetNullRow(rules, y, r, NullOut(View(x).rows[r], su.columns))
                  && rules.valid(r.table, NullOut(View(x).rows[r], su.columns))
                  && forall c :: c in su.columns ==> rules.Nullable(r.table, c))
  {
    ReadIsView(rules, x, NulledRow(su));
  }

  lemma NullOneKeeps(rules: Rules, x: Txn, y: Txn, front: seq<SetNullUpdate>, su: SetNullUpdate)
    requires rules.WellFormed() && Faithful(rules, x) && Local(rules, y) && Nulled(x, y, front)
    requires NulledRow(su) !in Written(x) && NulledRow(su) !in RowsOf(front)
    ensures var o := SetNullOne(rules, x, y, su);
            Local(rules, o.txn) && (o.Accepted? ==> Nulled(x, o.txn, front + [su]))
  {
    var r, o := NulledRow(su), SetNullOne(rules, x, y, su);
    SetNullOneIs(rules, x, y, su);
    if o.Accepted? {
      RowsGrow(front, su);
      if r in View(x).rows {
        SetNullKeeps(rules, y, r, su.columns);
      }
      NulledOneMore(View(x).rows, View(y).rows, View(o.txn).rows, front, su);
    }
  }

  lemma RowsGrow(front: seq<SetNullUpdate>, su: SetNullUpdate)
    ensures RowsOf(front + [su]) == RowsOf(front) + {NulledRow(su)}
  {
    assert forall s :: s in front + [su] <==> s in front || s == su;
  }

  lemma NulledOneMore(m: map<RowRef, Row>, n: map<RowRef, Row>, o: map<RowRef, Row>, front: seq<SetNullUpdate>, su: SetNullUpdate)
    requires NulledRows(m, n, front) && NulledRow(su) !in RowsOf(front)
    requires o == if NulledRow(su) in m then n[NulledRow(su) := NullOut(m[NulledRow(su)], su.columns)] else n
    ensures NulledRows(m, o, front + [su])
  {
    RowsGrow(front, su);
    forall s | s in front + [su] && NulledRow(s) in m
      ensures o[NulledRow(s)] == NullOut(m[NulledRow(s)], s.columns)
    {
      if s in front {
        assert NulledRow(s) in RowsOf(front);
      }
    }
  }

  // ── cascades ─────────────────────────────────────────────────────────────

  function Cascaded(rows: seq<RowRef>, table: string): set<RowRef> {
    set d | d in rows && d.table != table
  }

  /** `z` is `y` after the cascade deletes. */
  ghost predicate CascadesDone(y: Txn, z: Txn, rows: seq<RowRef>, table: string) {
    && z.snapshot == y.snapshot
    && View(z).rows == View(y).rows - Cascaded(rows, table)
    && Written(z) <= Written(y) + Cascaded(rows, table)
    && forall g :: WroteGuard(y.writes, g) ==> WroteGuard(z.writes, g)
  }

  /** The rows that reference a row that is cascaded go before it. */
  ghost predicate ReferencesFirst(rules: Rules, rows: seq<RowRef>, m: map<RowRef, Row>, table: string) {
    forall i, c, fk :: 0 <= i < |rows| && rows[i].table != table && c in m && rules.References(c.table, m[c], fk, rows[i]) ==>
      c in Cascaded(rows[..i], table)
  }

  /** The rows the cascades drop. */
  ghost function Dropped(rules: Rules, planned: Txn, s: Store, rows: seq<RowRef>, table: string): set<RowRef> {
    set d | d in rows && d.table != table && Read(rules, planned, d).Some? && d in s.rows
  }

  /** `z` is `y` with the given rows dropped, and their keys. */
  ghost predicate DroppedFrom(y: Txn, z: Txn, dropped: set<RowRef>) {
    && z.snapshot == y.snapshot
    && z.writes.rows == y.writes.rows
    && z.writes.rowDels == y.writes.rowDels + dropped
    && z.writes.guards == y.writes.guards && z.writes.guardDels == y.writes.guardDels && z.touched == y.touched
    && z.writes.owners == y.writes.owners
    && (forall k :: k in z.writes.ownerDels ==> k in y.writes.ownerDels || k in y.snapshot.owners)
  }

  lemma {:induction false} CascadeEffect(rules: Rules, planned: Txn, y: Txn, rows: seq<RowRef>, table: string)
    ensures DroppedFrom(y, CascadeAll(rules, planned, y, rows, table), Dropped(rules, planned, y.snapshot, rows, table))
    decreases |rows|
  {
    if rows != [] {
      var front, r := rows[..|rows| - 1], rows[|rows| - 1];
      var z, before := CascadeAll(rules, planned, y, front, table), Dropped(rules, planned, y.snapshot, front, table);
      CascadeEffect(rules, planned, y, front, table);
      DroppedGrows(rules, planned, y.snapshot, front, r, table);
      assert rows == front + [r];
      if r.table == table || Read(rules, planned, r).None? {
        assert CascadeAll(rules, planned, y, rows, table) == z;
        assert before + {} == before;
      } else {
        assert CascadeAll(rules, planned, y, rows, table) == DeleteRow(rules, z, r);
        OneDropped(rules, y, z, r, before);
      }
    } else {
      NothingDropped(rules, planned, y, rows, table);
    }
  }

  lemma NothingDropped(rules: Rules, planned: Txn, y: Txn, rows: seq<RowRef>, table: string)
    requires rows == []
    ensures DroppedFrom(y, y, Dropped(rules, planned, y.snapshot, rows, table))
  {
    assert Dropped(rules, planned, y.snapshot, rows, table) == {};
  }

  lemma DroppedGrows(rules: Rules, planned: Txn, s: Store, front: seq<RowRef>, r: RowRef, table: string)
    ensures Dropped(rules, planned, s, front + [r], table) == Dropped(rules, planned, s, front, table)
              + if r.table != table && Read(rules, planned, r).Some? && r in s.rows then {r} else {}
  {
    assert forall d :: d in front + [r] <==> d in front || d == r;
  }

  lemma OneDropped(rules: Rules, y: Txn, z: Txn, r: RowRef, dropped: set<RowRef>)
    requires DroppedFrom(y, z, dropped)
    ensures DroppedFrom(y, DeleteRow(rules, z, r), dropped + if r in y.snapshot.rows then {r} else {})
  {
    var o := DeleteRow(rules, z, r);
    assert o.writes.rowDels == z.writes.rowDels + (set q | q in z.snapshot.rows && q == r);
    assert (set q | q in z.snapshot.rows && q == r) == if r in y.snapshot.rows then {r} else {};
  }

  lemma {:induction false} CascadesKeep(rules: Rules, x: Txn, y: Txn, rows: seq<RowRef>, table: string)
    requires rules.WellFormed() && Faithful(rules, x) && Local(rules, y) && View(y).rows.Keys == View(x).rows.Keys
    requires forall i :: 0 <= i < |rows| ==> rows[i] !in rows[..i]
    requires ReferencesFirst(rules, rows, View(y).rows, table)
    requires forall d :: d in rows && d.table != table ==>
               d !in Written(y) && (rules.Referenced(d.table) ==> WroteGuard(y.writes, d))
    ensures var z := CascadeAll(rules, x, y, rows, table); Local(rules, z) && CascadesDone(y, z, rows, table)
    decreases |rows|
  {
    if rows == [] {
      assert Cascaded(rows, table) == {};
    } else {
      var front, r := rows[..|rows| - 1], rows[|rows| - 1];
      assert rows == front + [r] && r !in front;
      FrontFirst(rules, rows, View(y).rows, table);
      CascadesKeep(rules, x, y, front, table);
      ReadIsView(rules, x, r);
      var z := CascadeAll(rules, x, y, front, table);
      if r.table != table {
        LastUnreferenced(rules, rows, View(y).rows, View(z).rows, table, r);
      }
      CascadeOneMore(rules, y, z, front, r, table, r.table == table || Read(rules, x, r).None?);
    }
  }

  lemma FrontFirst(rules: Rules, rows: seq<RowRef>, m: map<RowRef, Row>, table: string)
    requires rows != [] && ReferencesFirst(rules, rows, m, table)
    requires forall i :: 0 <= i < |rows| ==> rows[i] !in rows[..i]
    ensures var front := rows[..|rows| - 1];
            ReferencesFirst(rules, front, m, table) && forall i :: 0 <= i < |front| ==> front[i] !in front[..i]
  {
    var front := rows[..|rows| - 1];
    forall i | 0 <= i < |front| ensures front[i] == rows[i] && front[..i] == rows[..i] {
    }
  }

  /** Once the rows before it are gone, nothing references the last row. */
  lemma LastUnreferenced(rules: Rules, rows: seq<RowRef>, m: map<RowRef, Row>, n: map<RowRef, Row>, table: string, r: RowRef)
    requires rows != [] && rows[|rows| - 1] == r && r.table != table && ReferencesFirst(rules, rows, m, table)
    requires n == m - Cascaded(rows[..|rows| - 1], table)
    ensures forall c, fk :: c in n ==> !rules.References(c.table, n[c], fk, r)
  {
    var last := |rows| - 1;
    var gone := Cascaded(rows[..last], table);
    forall c, fk | c in n ensures !rules.References(c.table, n[c], fk, r) {
      assert n[c] == m[c] && (rules.References(c.table, m[c], fk, rows[last]) ==> c in gone);
    }
  }

  lemma CascadeOneMore(rules: Rules, y: Txn, z: Txn, front: seq<RowRef>, r: RowRef, table: string, skipped: bool)
    requires rules.WellFormed() && Local(rules, z) && CascadesDone(y, z, front, table) && r !in front
    requires r.table != table ==> r !in Written(y) && (rules.Referenced(r.table) ==> WroteGuard(y.writes, r))
    requires r.table != table ==> forall c, fk :: c in View(z).rows ==> !rules.References(c.table, View(z).rows[c], fk, r)
    requires skipped <==> r.table == table || r !in View(y).rows
    ensures var o := if skipped then z else DeleteRow(rules, z, r); Local(rules, o) && CascadesDone(y, o, front + [r], table)
  {
    if skipped {
      if r.table != table {
        StillThere(y, z, front, r, table);
        assert View(z).rows - {r} == View(z).rows;
      }
      DoneOneMore(y, z, z, front, r, table);
    } else {
      StillThere(y, z, front, r, table);
      CascadeOneKeeps(rules, z, r);
      DoneOneMore(y, z, DeleteRow(rules, z, r), front, r, table);
    }
  }

  lemma StillThere(y: Txn, z: Txn, front: seq<RowRef>, r: RowRef, table: string)
    requires CascadesDone(y, z, front, table) && r !in front && r !in Written(y)
    ensures r !in Written(z) && (r in View(z).rows <==> r in View(y).rows)
  {
    assert r !in Cascaded(front, table);
  }

  lemma DoneOneMore(y: Txn, z: Txn, o: Txn, front: seq<RowRef>, r: RowRef, table: string)
    requires CascadesDone(y, z, front, table) && o.snapshot == z.snapshot
    requires r.table == table ==> o == z
    requires r.table != table ==> View(o).rows == View(z).rows - {r} && Written(o) <= Written(z) + {r}
    requires o.writes.guards == z.writes.guards && o.writes.guardDels == z.writes.guardDels
    ensures CascadesDone(y, o, front + [r], table)
  {
    CascadedGrows(front, r, table);
    var m, gone := View(y).rows, Cascaded(front, table);
    assert m - gone - {r} == m - (gone + {r});
    assert gone + {} == gone;
  }

  lemma CascadedGrows(front: seq<RowRef>, r: RowRef, table: string)
    ensures Cascaded(front + [r], table) == Cascaded(front, table) + if r.table == table then {} else {r}
  {
    assert forall d :: d in front + [r] <==> d in front || d == r;
  }

  lemma CascadeOneKeeps(rules: Rules, z: Txn, r: RowRef)
    requires rules.WellFormed() && Local(rules, z) && r !in Written(z) && r in View(z).rows
    requires rules.Referenced(r.table) ==> WroteGuard(z.writes, r)
    requires forall c, fk :: c in View(z).rows ==> !rules.References(c.table, View(z).rows[c], fk, r)
    ensures var y := DeleteRow(rules, z, r);
            Local(rules, y) && y.snapshot == z.snapshot && View(y).rows == View(z).rows - {r} && Written(y) <= Written(z) + {r}
  {
    DeleteKeeps(rules, z, DeleteRow(rules, z, r), r, {});
  }
}
