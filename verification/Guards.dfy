/** Stores with their guard rows, the writes a transaction stages over its snapshot, and
    what one row write has to bring along to keep the guards exact. */
module Guards {
  import opened Strings
  import opened Values
  import opened Schema
  import opened Overlay
  import opened Planner
  import opened Rules

  /** A row of `__kit_unique_keys`: the constraint and the row that owns the key. */
  datatype Owner = Owner(constraint: string, row: RowRef)

  /** The application rows, the unique-key guards and the versions of the row guards. */
  datatype Store = Store(rows: map<RowRef, Row>, owners: map<string, Owner>, guards: map<RowRef, int>)

  const EMPTY_STORE := Store(map[], map[], map[])

  /** The write set of an engine transaction. Deletes name rows of the snapshot by row id,
      so a put of the same key stands whichever comes first. */
  datatype Writes = Writes(
    rows: map<RowRef, Row>,
    rowDels: set<RowRef>,
    owners: map<string, Owner>,
    ownerDels: set<string>,
    guards: map<RowRef, int>,
    guardDels: set<RowRef>
  )

  const NO_WRITES := Writes(map[], {}, map[], {}, map[], {})

  function Applied(s: Store, w: Writes): Store {
    Store(s.rows - w.rowDels + w.rows, s.owners - w.ownerDels + w.owners, s.guards - w.guardDels + w.guards)
  }

  /** The keys two transactions can conflict on. */
  datatype Key = RowKey(r: RowRef) | OwnerKey(k: string) | GuardKey(g: RowRef)

  predicate WroteRow(w: Writes, r: RowRef) {
    r in w.rows || r in w.rowDels
  }

  predicate WroteOwner(w: Writes, k: string) {
    k in w.owners || k in w.ownerDels
  }

  predicate WroteGuard(w: Writes, g: RowRef) {
    g in w.guards || g in w.guardDels
  }

  predicate Wrote(w: Writes, key: Key) {
    match key
    case RowKey(r) => WroteRow(w, r)
    case OwnerKey(k) => WroteOwner(w, k)
    case GuardKey(g) => WroteGuard(w, g)
  }

  // ── exact guards ─────────────────────────────────────────────────────────

  /** Rows are stored under their primary key. */
  ghost predicate UnderPk(rules: Rules, s: Store) {
    forall r :: r in s.rows ==> rules.pk(r.table, s.rows[r]) == r.pk
  }

  /** Every reference has its parent row. */
  ghost predicate NoOrphans(rules: Rules, s: Store) {
    forall r, fk, p :: r in s.rows && rules.References(r.table, s.rows[r], fk, p) ==> p in s.rows
  }

  /** Every row owns the guard of each of its keys. */
  ghost predicate Owned(rules: Rules, s: Store) {
    forall r, c, k :: r in s.rows && rules.HasKey(r.table, s.rows[r], c, k) ==>
      k in s.owners && s.owners[k] == Owner(c, r)
  }

  /** Every guard is owned by a row with that key. */
  ghost predicate NoStale(rules: Rules, s: Store) {
    forall k :: k in s.owners ==>
      var o := s.owners[k];
      o.row in s.rows && rules.HasKey(o.row.table, s.rows[o.row], o.constraint, k)
  }

  /** Every row has passed validation. */
  ghost predicate AllValid(rules: Rules, s: Store) {
    forall r :: r in s.rows ==> rules.valid(r.table, s.rows[r])
  }

  /** What every committed state and every transaction's view satisfies. */
  ghost predicate Sound(rules: Rules, s: Store) {
    UnderPk(rules, s) && AllValid(rules, s) && NoOrphans(rules, s) && Owned(rules, s) && NoStale(rules, s)
  }

  /** Where the guards are exact, no two rows of a table agree on a guarded constraint. */
  lemma NoDuplicates(rules: Rules, s: Store, r: RowRef, q: RowRef, uq: UniqueConstraint)
    requires Owned(rules, s)
    requires r in s.rows && q in s.rows && r.table == q.table && r != q
    requires uq in rules.Guarded(r.table)
    ensures rules.key(r.table, uq, s.rows[r]).Some? ==>
              rules.key(r.table, uq, s.rows[r]) != rules.key(r.table, uq, s.rows[q])
  {
    var k := rules.key(r.table, uq, s.rows[r]);
    if k.Some? && k == rules.key(r.table, uq, s.rows[q]) {
      assert rules.HasKey(r.table, s.rows[r], uq.name, k.value);
      assert rules.HasKey(q.table, s.rows[q], uq.name, k.value);
    }
  }

  // ── transactions ─────────────────────────────────────────────────────────

  /** `StagedUnique`: a key reserved by the transaction. */
  datatype StagedUnique = StagedUnique(key: string, owner: RowRef)

  /** A kit transaction with the snapshot it reads. */
  datatype Txn = Txn(
    snapshot: Store,
    writes: Writes,
    staged: seq<StagedOp>,
    stagedUnique: seq<StagedUnique>,
    touched: set<RowRef>
  )

  /** A transaction that has just begun. */
  function Opened(s: Store): Txn {
    Txn(s, NO_WRITES, [], [], {})
  }

  lemma OpenedView(s: Store)
    ensures View(Opened(s)) == s
  {
    assert s.rows - {} + map[] == s.rows && s.owners - {} + map[] == s.owners && s.guards - {} + map[] == s.guards;
  }

  /** What the transaction sees, and what its commit would leave of its snapshot. */
  function View(x: Txn): Store {
    Applied(x.snapshot, x.writes)
  }

  /** A reference written by the transaction touches the parent's guard, or was there before. */
  ghost predicate ParentsTouched(rules: Rules, x: Txn) {
    forall r, fk, p :: r in x.writes.rows && rules.References(r.table, x.writes.rows[r], fk, p) ==>
      WroteGuard(x.writes, p)
      || (r in x.snapshot.rows && rules.References(r.table, x.snapshot.rows[r], fk, p))
  }

  /** A deleted row that could be referenced has its guard touched. */
  ghost predicate DeletesTouched(rules: Rules, x: Txn) {
    forall p :: p in x.writes.rowDels && p !in x.writes.rows && rules.Referenced(p.table) ==> WroteGuard(x.writes, p)
  }

  /** Reserved keys belong to written rows and were free, or owned by the same row, before. */
  ghost predicate PutsOwned(x: Txn) {
    forall k :: k in x.writes.owners ==>
      && x.writes.owners[k].row in x.writes.rows
      && (k in x.snapshot.owners ==> x.snapshot.owners[k].row == x.writes.owners[k].row)
      && StagedUnique(k, x.writes.owners[k].row) in x.stagedUnique
  }

  /** The list of reserved keys holds nothing but reserved keys. */
  ghost predicate StagedArePut(x: Txn) {
    forall s :: s in x.stagedUnique ==> s.key in x.writes.owners && x.writes.owners[s.key].row == s.owner
  }

  /** Released keys were owned by written rows. */
  ghost predicate DelsOwned(x: Txn) {
    forall k :: k in x.writes.ownerDels ==>
      k in x.snapshot.owners && WroteRow(x.writes, x.snapshot.owners[k].row)
  }

  /** A row is put only through an operation staged for its table. */
  ghost predicate PutsStaged(x: Txn) {
    forall r :: r in x.writes.rows ==> DataStagedFor(x.staged, r.table)
  }

  /** A staged insert, update or delete of the table. */
  predicate DataStagedFor(staged: seq<StagedOp>, table: string) {
    exists op :: op in staged && !op.Truncate? && op.table == table
  }

  // ── what the transaction reads ───────────────────────────────────────────

  /** A table of a store, by primary key. */
  function TableOf(s: Store, name: string): map<string, Row> {
    map r | r in s.rows && r.table == name :: r.pk := s.rows[r]
  }

  function KeyedAs(rules: Rules, name: string): Keyed {
    Keyed(name, (row: Row) => rules.pk(name, row))
  }

  /** The rows of a table as the code reads them: the staged operations replayed over the
      snapshot. */
  function Reads(rules: Rules, x: Txn, name: string): map<string, Row> {
    ApplyAll(KeyedAs(rules, name), TableOf(x.snapshot, name), x.staged)
  }

  /** The transaction reads the rows its commit would leave: the same ones where it has put
      nothing, and ones with the same keys and references where it has. */
  ghost predicate Faithful(rules: Rules, x: Txn) {
    forall r: RowRef :: FaithfulAt(rules, x, r)
  }

  ghost predicate FaithfulAt(rules: Rules, x: Txn, r: RowRef) {
    var rows := Reads(rules, x, r.table);
    && (r.pk in rows <==> r in View(x).rows)
    && (r in View(x).rows ==>
          && StandsFor(rules, rows[r.pk], r, View(x).rows[r])
          && (r !in x.writes.rows ==> rows[r.pk] == View(x).rows[r]))
  }

  /** Staged updates keep the primary key. */
  predicate UpdatesKeepPk(rules: Rules, x: Txn) {
    forall op :: op in x.staged && op.Update? ==> op.oldPk == rules.pk(op.table, op.values)
  }

  /** The values staged for the row are valid and have its keys and references. */
  predicate StandsFor(rules: Rules, values: Row, r: RowRef, row: Row) {
    rules.Alike(r.table, values, row) && rules.pk(r.table, values) == r.pk && rules.valid(r.table, values)
  }

  /** The staged operation says what happened to the row. */
  predicate StagedAs(rules: Rules, op: StagedOp, r: RowRef, row: Option<Row>) {
    && op.table == r.table
    && match op
       case Insert(_, values) => row.Some? && StandsFor(rules, values, r, row.value)
       case Update(_, oldPk, _, values) => row.Some? && StandsFor(rules, values, r, row.value) && oldPk == r.pk
       case Delete(_, pk) => row == None && pk == r.pk
       case Truncate(_) => false
  }

  /** What holds inside every transaction, whatever the others do. */
  ghost predicate Local(rules: Rules, x: Txn) {
    && Sound(rules, x.snapshot)
    && Sound(rules, View(x))
    && ParentsTouched(rules, x)
    && DeletesTouched(rules, x)
    && PutsOwned(x)
    && StagedArePut(x)
    && DelsOwned(x)
    && PutsStaged(x)
    && Faithful(rules, x)
    && UpdatesKeepPk(rules, x)
    && x.touched <= x.writes.guards.Keys
  }

  /** A transaction that has not written the row sees it as the snapshot has it. */
  lemma UnwrittenIsSnapshot(x: Txn, r: RowRef)
    requires !WroteRow(x.writes, r)
    ensures r in View(x).rows <==> r in x.snapshot.rows
    ensures r in View(x).rows ==> View(x).rows[r] == x.snapshot.rows[r]
  {
  }

  // ── one row write ────────────────────────────────────────────────────────

  /** `y` is `x` after one write of row `r`: its new value (none for a delete), the keys it
      reserves and releases, and the row guards it touches. */
  ghost predicate RowWritten(rules: Rules, x: Txn, y: Txn, r: RowRef, row: Option<Row>,
                             puts: map<string, Owner>, dels: set<string>, touches: set<RowRef>) {
    && y.snapshot == x.snapshot
    && y.writes.rows == (if row.Some? then x.writes.rows[r := row.value] else x.writes.rows)
    && x.writes.rowDels <= y.writes.rowDels <= x.writes.rowDels + {r}
    && (row.None? ==> r in y.writes.rowDels)
    && y.writes.owners == x.writes.owners + puts
    && y.writes.ownerDels == x.writes.ownerDels + dels
    && x.writes.guards.Keys + touches <= y.writes.guards.Keys
    && x.writes.guardDels <= y.writes.guardDels
    && y.touched <= y.writes.guards.Keys
    && (forall s :: s in x.stagedUnique && s.owner != r && s.key in x.writes.owners ==> s in y.stagedUnique)
    && (forall s :: s in y.stagedUnique ==> s in x.stagedUnique || (s.key in puts && puts[s.key].row == s.owner))
    && (forall k :: k in puts ==> StagedUnique(k, puts[k].row) in y.stagedUnique)
    && |y.staged| == |x.staged| + 1 && y.staged[..|x.staged|] == x.staged
    && StagedAs(rules, y.staged[|x.staged|], r, row)
  }

  /** The references the row write makes exist already, and are touched unless they were
      there before. */
  ghost predicate ReferencesKept(rules: Rules, x: Txn, r: RowRef, row: Row, touches: set<RowRef>) {
    forall fk, p :: rules.References(r.table, row, fk, p) ==>
      && p in View(x).rows
      && (p in touches || (r in View(x).rows && rules.References(r.table, View(x).rows[r], fk, p)))
  }

  /** The keys the row write reserves and releases are those it gains and loses. */
  ghost predicate KeysKept(rules: Rules, x: Txn, r: RowRef, row: Option<Row>, puts: map<string, Owner>, dels: set<string>) {
    && (forall k :: k in puts ==>
          && puts[k].row == r && row.Some? && rules.HasKey(r.table, row.value, puts[k].constraint, k)
          && k !in x.writes.owners
          && (k in x.snapshot.owners ==> x.snapshot.owners[k].row == r))
    && (forall k :: k in dels ==> k in x.snapshot.owners && x.snapshot.owners[k].row == r)
    && (row.Some? ==> forall c, k :: rules.HasKey(r.table, row.value, c, k) ==>
          || (k in puts && puts[k] == Owner(c, r))
          || (r in View(x).rows && rules.HasKey(r.table, View(x).rows[r], c, k) && k !in dels))
    && (r in View(x).rows ==> forall c, k :: rules.HasKey(r.table, View(x).rows[r], c, k) ==>
          k in dels || (row.Some? && rules.HasKey(r.table, row.value, c, k)))
  }

  /** A row may go if nothing references it any more, and its guard is written if anything
      could. */
  ghost predicate DeleteKept(rules: Rules, x: Txn, r: RowRef, touches: set<RowRef>) {
    && (forall c, fk :: c in View(x).rows && rules.References(c.table, View(x).rows[c], fk, r) ==> c == r)
    && (rules.Referenced(r.table) ==> r in touches || WroteGuard(x.writes, r))
  }

  lemma WrittenRows(rules: Rules, x: Txn, y: Txn, r: RowRef, row: Option<Row>,
                    puts: map<string, Owner>, dels: set<string>, touches: set<RowRef>)
    requires RowWritten(rules, x, y, r, row, puts, dels, touches) && !WroteRow(x.writes, r)
    ensures View(y).rows == if row.Some? then View(x).rows[r := row.value] else View(x).rows - {r}
  {
  }

  lemma WrittenOwners(rules: Rules, x: Txn, y: Txn, r: RowRef, row: Option<Row>,
                      puts: map<string, Owner>, dels: set<string>, touches: set<RowRef>, k: string)
    requires RowWritten(rules, x, y, r, row, puts, dels, touches)
    requires PutsOwned(x) && !WroteRow(x.writes, r)
    requires k in dels ==> k in x.snapshot.owners && x.snapshot.owners[k].row == r
    ensures k in View(y).owners <==> k in puts || (k in View(x).owners && k !in dels)
    ensures k in View(y).owners ==> View(y).owners[k] == if k in puts then puts[k] else View(x).owners[k]
  {
  }

  lemma WriteKeepsNoOrphans(rules: Rules, x: Txn, y: Txn, r: RowRef, row: Option<Row>,
                            puts: map<string, Owner>, dels: set<string>, touches: set<RowRef>)
    requires RowWritten(rules, x, y, r, row, puts, dels, touches) && !WroteRow(x.writes, r)
    requires NoOrphans(rules, View(x))
    requires row.Some? ==> ReferencesKept(rules, x, r, row.value, touches)
    requires row.None? ==> DeleteKept(rules, x, r, touches)
    ensures NoOrphans(rules, View(y))
  {
    WrittenRows(rules, x, y, r, row, puts, dels, touches);
    forall c, fk, p | c in View(y).rows && rules.References(c.table, View(y).rows[c], fk, p) ensures p in View(y).rows {
      if c != r {
        assert rules.References(c.table, View(x).rows[c], fk, p);
      }
    }
  }

  lemma WriteKeepsTouched(rules: Rules, x: Txn, y: Txn, r: RowRef, row: Option<Row>,
                          puts: map<string, Owner>, dels: set<string>, touches: set<RowRef>)
    requires RowWritten(rules, x, y, r, row, puts, dels, touches) && !WroteRow(x.writes, r)
    requires ParentsTouched(rules, x) && DeletesTouched(rules, x)
    requires row.Some? ==> ReferencesKept(rules, x, r, row.value, touches)
    requires row.None? ==> DeleteKept(rules, x, r, touches)
    ensures ParentsTouched(rules, y) && DeletesTouched(rules, y)
  {
    UnwrittenIsSnapshot(x, r);
    forall q, fk, p | q in y.writes.rows && rules.References(q.table, y.writes.rows[q], fk, p)
      ensures WroteGuard(y.writes, p)
           || (q in y.snapshot.rows && rules.References(q.table, y.snapshot.rows[q], fk, p))
    {
      if q != r {
        assert rules.References(q.table, x.writes.rows[q], fk, p);
      }
    }
  }

  lemma WriteKeepsOwned(rules: Rules, x: Txn, y: Txn, r: RowRef, row: Option<Row>,
                        puts: map<string, Owner>, dels: set<string>, touches: set<RowRef>)
    requires RowWritten(rules, x, y, r, row, puts, dels, touches) && !WroteRow(x.writes, r) && Local(rules, x)
    requires rules.WellFormed() && KeysKept(rules, x, r, row, puts, dels)
    ensures Owned(rules, View(y))
  {
    WrittenRows(rules, x, y, r, row, puts, dels, touches);
    forall q, c, k | q in View(y).rows && rules.HasKey(q.table, View(y).rows[q], c, k)
      ensures k in View(y).owners && View(y).owners[k] == Owner(c, q)
    {
      WrittenOwners(rules, x, y, r, row, puts, dels, touches, k);
      if q != r {
        assert View(x).owners[k] == Owner(c, q);
      } else if k in puts {
        assert rules.HasKey(r.table, row.value, puts[k].constraint, k);
      }
    }
  }

  lemma WriteKeepsNoStale(rules: Rules, x: Txn, y: Txn, r: RowRef, row: Option<Row>,
                          puts: map<string, Owner>, dels: set<string>, touches: set<RowRef>)
    requires RowWritten(rules, x, y, r, row, puts, dels, touches) && !WroteRow(x.writes, r)
    requires NoStale(rules, View(x)) && PutsOwned(x) && KeysKept(rules, x, r, row, puts, dels)
    ensures NoStale(rules, View(y))
  {
    forall k | k in View(y).owners
      ensures var o := View(y).owners[k];
              o.row in View(y).rows && rules.HasKey(o.row.table, View(y).rows[o.row], o.constraint, k)
    {
      WrittenOwners(rules, x, y, r, row, puts, dels, touches, k);
      WrittenRows(rules, x, y, r, row, puts, dels, touches);
      var o := View(y).owners[k];
      if k !in puts {
        assert o == View(x).owners[k] && rules.HasKey(o.row.table, View(x).rows[o.row], o.constraint, k);
      }
    }
  }

  lemma WriteKeepsPuts(rules: Rules, x: Txn, y: Txn, r: RowRef, row: Option<Row>,
                       puts: map<string, Owner>, dels: set<string>, touches: set<RowRef>)
    requires RowWritten(rules, x, y, r, row, puts, dels, touches) && !WroteRow(x.writes, r)
    requires PutsOwned(x) && StagedArePut(x) && DelsOwned(x) && KeysKept(rules, x, r, row, puts, dels)
    ensures PutsOwned(y) && StagedArePut(y) && DelsOwned(y)
  {
    forall k | k in y.writes.owners
      ensures y.writes.owners[k].row in y.writes.rows
      ensures k in y.snapshot.owners ==> y.snapshot.owners[k].row == y.writes.owners[k].row
      ensures StagedUnique(k, y.writes.owners[k].row) in y.stagedUnique
    {
      if k !in puts {
        assert x.writes.owners[k].row != r;
      }
    }
  }

  /** A row write that keeps its references and its keys keeps the transaction sound. */
  lemma WriteKeepsLocal(rules: Rules, x: Txn, y: Txn, r: RowRef, row: Option<Row>,
                        puts: map<string, Owner>, dels: set<string>, touches: set<RowRef>)
    requires rules.WellFormed() && Local(rules, x) && !WroteRow(x.writes, r)
    requires RowWritten(rules, x, y, r, row, puts, dels, touches)
    requires row.Some? ==> ReferencesKept(rules, x, r, row.value, touches)
    requires row.None? ==> DeleteKept(rules, x, r, touches)
    requires row.Some? ==> rules.valid(r.table, row.value)
    requires KeysKept(rules, x, r, row, puts, dels)
    ensures Local(rules, y)
  {
    WriteKeepsNoOrphans(rules, x, y, r, row, puts, dels, touches);
    WriteKeepsTouched(rules, x, y, r, row, puts, dels, touches);
    WriteKeepsOwned(rules, x, y, r, row, puts, dels, touches);
    WriteKeepsNoStale(rules, x, y, r, row, puts, dels, touches);
    WriteKeepsPuts(rules, x, y, r, row, puts, dels, touches);
    WriteKeepsFaithful(rules, x, y, r, row, puts, dels, touches);
    WriteKeepsUnderPk(rules, x, y, r, row, puts, dels, touches);
  }

  lemma WriteKeepsUnderPk(rules: Rules, x: Txn, y: Txn, r: RowRef, row: Option<Row>,
                          puts: map<string, Owner>, dels: set<string>, touches: set<RowRef>)
    requires RowWritten(rules, x, y, r, row, puts, dels, touches) && !WroteRow(x.writes, r)
    requires UnderPk(rules, View(x)) && AllValid(rules, View(x)) && PutsStaged(x)
    requires row.Some? ==> rules.valid(r.table, row.value)
    ensures UnderPk(rules, View(y)) && AllValid(rules, View(y)) && PutsStaged(y)
  {
    WrittenRows(rules, x, y, r, row, puts, dels, touches);
    var op := y.staged[|x.staged|];
    forall q | q in y.writes.rows ensures DataStagedFor(y.staged, q.table) {
      if q in x.writes.rows {
        assert DataStagedFor(x.staged, q.table);
        assert forall op :: op in x.staged ==> op in y.staged[..|x.staged|];
      } else {
        assert op in y.staged && !op.Truncate? && op.table == q.table;
      }
    }
  }

  lemma WriteKeepsFaithful(rules: Rules, x: Txn, y: Txn, r: RowRef, row: Option<Row>,
                           puts: map<string, Owner>, dels: set<string>, touches: set<RowRef>)
    requires RowWritten(rules, x, y, r, row, puts, dels, touches) && !WroteRow(x.writes, r)
    requires Faithful(rules, x) && UpdatesKeepPk(rules, x)
    ensures Faithful(rules, y) && UpdatesKeepPk(rules, y)
  {
    WrittenRows(rules, x, y, r, row, puts, dels, touches);
    var op := y.staged[|x.staged|];
    forall q: RowRef ensures FaithfulAt(rules, y, q) {
      assert FaithfulAt(rules, x, q);
      ReadsAfter(rules, x, y, q.table);
      ApplyStaged(rules, op, r, row, q, Reads(rules, x, q.table));
    }
    forall o | o in y.staged && o.Update? ensures o.oldPk == rules.pk(o.table, o.values) {
      assert o in x.staged || o == op by {
        assert y.staged == x.staged + [op];
      }
    }
  }

  lemma ReadsAfter(rules: Rules, x: Txn, y: Txn, name: string)
    requires y.snapshot == x.snapshot && |y.staged| == |x.staged| + 1 && y.staged[..|x.staged|] == x.staged
    ensures Reads(rules, y, name) == Apply(KeyedAs(rules, name), Reads(rules, x, name), y.staged[|x.staged|])
  {
    assert y.staged[..|y.staged| - 1] == x.staged;
  }

  lemma ApplyStaged(rules: Rules, op: StagedOp, r: RowRef, row: Option<Row>, q: RowRef, m: map<string, Row>)
    requires StagedAs(rules, op, r, row)
    ensures var n := Apply(KeyedAs(rules, q.table), m, op);
            && (q != r ==> (q.pk in n <==> q.pk in m) && (q.pk in m ==> n[q.pk] == m[q.pk]))
            && (q == r ==> (q.pk in n <==> row.Some?) && (row.Some? ==> StandsFor(rules, n[r.pk], r, row.value)))
            && (q == r && op.Insert? ==> n[r.pk] == op.values)
            && (q == r && op.Update? ==> n[r.pk] == op.values)
  {
  }

  lemma InTable(s: Store, name: string, pk: string)
    ensures pk in TableOf(s, name) <==> RowRef(name, pk) in s.rows
    ensures pk in TableOf(s, name) ==> TableOf(s, name)[pk] == s.rows[RowRef(name, pk)]
  {
    var r := RowRef(name, pk);
    if r in s.rows {
      assert r.pk in TableOf(s, name);
    }
  }
}
