/** What a planned delete does beyond the plan, and exactly when applying it is safe: rows
    that survive, rows nulled twice, and cascades that race with new references. */
module DeleteLimits {
  import opened Strings
  import opened Values
  import opened Schema
  import opened Overlay
  import opened Planner
  import opened Rules
  import opened Guards
  import opened Commit
  import opened Operations
  import opened Keeping
  import opened RowOps
  import opened DeleteOps
  import opened Renulls
  import opened Deletes
  import opened Limits

  // ── what the steps write ─────────────────────────────────────────────────

  lemma DeletedIs(rules: Rules, x: Txn, r: RowRef, plan: DeletePlan)
    requires Deleted(rules, x, r, plan).Accepted?
    ensures Lookup(rules, x, r).Some? && plan.restricted == []
    ensures var o := SetNullAll(rules, x, x, plan.setNull);
            o.Accepted? && Deleted(rules, x, r, plan).txn == DeleteTarget(rules, CascadeAll(rules, x, o.txn, plan.delete, r.table), r)
  {
  }

  /** `y` is `x` after the set-null updates, as far as row `c` goes: the row is put as it was
      planned with the columns of the last update nulled, or is left alone. */
  ghost predicate NulledTo(x: Txn, y: Txn, c: RowRef, last: Option<SetNullUpdate>, was: Option<Row>) {
    && y.snapshot == x.snapshot
    && y.writes.guards == x.writes.guards && y.writes.guardDels == x.writes.guardDels && y.touched == x.touched
    && if last.Some? && was.Some? then
         c in y.writes.rows && y.writes.rows[c] == NullOut(was.value, last.value.columns)
       else
         && (c in y.writes.rows <==> c in x.writes.rows)
         && (c in x.writes.rows ==> y.writes.rows[c] == x.writes.rows[c])
         && (c in y.writes.rowDels <==> c in x.writes.rowDels)
  }

  lemma {:induction false} NullEffect(rules: Rules, planned: Txn, x: Txn, sus: seq<SetNullUpdate>, c: RowRef)
    ensures SetNullAll(rules, planned, x, sus).Accepted? ==>
              NulledTo(x, SetNullAll(rules, planned, x, sus).txn, c, LastNull(sus, c), Read(rules, planned, c))
    decreases |sus|
  {
    if sus != [] {
      var front, su := sus[..|sus| - 1], sus[|sus| - 1];
      NullEffect(rules, planned, x, front, c);
      var mid, all := SetNullAll(rules, planned, x, front), SetNullAll(rules, planned, x, sus);
      if all.Accepted? {
        OneNullEffect(rules, planned, mid.txn, su, c);
        assert all == SetNullOne(rules, planned, mid.txn, su);
      }
    }
  }

  lemma OneNullEffect(rules: Rules, planned: Txn, y: Txn, su: SetNullUpdate, c: RowRef)
    ensures var o := SetNullOne(rules, planned, y, su);
            o.Accepted? ==>
              NulledTo(y, o.txn, c, if NulledRow(su) == c then Some(su) else None, Read(rules, planned, c))
  {
    var was := Read(rules, planned, NulledRow(su));
    if was.Some? {
      SetNullWrites(rules, y, NulledRow(su), NullOut(was.value, su.columns));
    }
  }

  lemma TargetEffect(rules: Rules, z: Txn, r: RowRef)
    requires r !in z.touched || WroteGuard(z.writes, r)
    ensures var y := DeleteTarget(rules, z, r);
            && y.snapshot == z.snapshot && y.writes.rows == z.writes.rows && y.writes.owners == z.writes.owners
            && y.writes.rowDels == z.writes.rowDels + (set q | q in z.snapshot.rows && q == r)
            && (forall g :: WroteGuard(y.writes, g) <==> WroteGuard(z.writes, g) || g == r)
            && (forall k :: k in y.writes.ownerDels ==> k in z.writes.ownerDels || k in z.snapshot.owners)
  {
  }

  /** What a whole delete does to one row, put or dropped, and to its guard. */
  ghost predicate DeletesTo(x: Txn, y: Txn, r: RowRef, c: RowRef, last: Option<SetNullUpdate>, was: Option<Row>, dropped: set<RowRef>) {
    && y.snapshot == x.snapshot
    && (WroteGuard(y.writes, c) <==> WroteGuard(x.writes, c) || c == r)
    && if last.Some? && was.Some? then
         c in y.writes.rows && y.writes.rows[c] == NullOut(was.value, last.value.columns)
       else
         && (c in y.writes.rows <==> c in x.writes.rows)
         && (c in x.writes.rows ==> y.writes.rows[c] == x.writes.rows[c])
         && (c in y.writes.rowDels <==> c in x.writes.rowDels || c in dropped || (c == r && r in x.snapshot.rows))
  }

  lemma DeleteEffect(rules: Rules, x: Txn, r: RowRef, plan: DeletePlan, c: RowRef)
    requires x.touched <= x.writes.guards.Keys && Deleted(rules, x, r, plan).Accepted?
    ensures DeletesTo(x, Deleted(rules, x, r, plan).txn, r, c, LastNull(plan.setNull, c), Read(rules, x, c),
                      Dropped(rules, x, x.snapshot, plan.delete, r.table))
  {
    DeletedIs(rules, x, r, plan);
    var o := SetNullAll(rules, x, x, plan.setNull).txn;
    var z := CascadeAll(rules, x, o, plan.delete, r.table);
    NullEffect(rules, x, x, plan.setNull, c);
    CascadeEffect(rules, x, o, plan.delete, r.table);
    EffectsCompose(rules, x, o, z, r, c, LastNull(plan.setNull, c), Read(rules, x, c), Dropped(rules, x, x.snapshot, plan.delete, r.table));
  }

  lemma EffectsCompose(rules: Rules, x: Txn, o: Txn, z: Txn, r: RowRef, c: RowRef, last: Option<SetNullUpdate>, was: Option<Row>,
                       dropped: set<RowRef>)
    requires x.touched <= x.writes.guards.Keys && NulledTo(x, o, c, last, was) && DroppedFrom(o, z, dropped)
    ensures DeletesTo(x, DeleteTarget(rules, z, r), r, c, last, was, dropped)
  {
    TargetEffect(rules, z, r);
  }

  // ── which planned rows survive ───────────────────────────────────────────

  /** A planned row is still there after the delete exactly when the plan also nulls it, or
      it is another row of the target's table: the put of a set-null outlives a delete by row
      id, and the apply phase leaves the target's table to a caller that deletes one row. */
  lemma SurvivesExactly(rules: Rules, x: Txn, r: RowRef, plan: DeletePlan, d: RowRef)
    requires Local(rules, x) && Deleted(rules, x, r, plan).Accepted?
    requires d in plan.delete && d in View(x).rows && !WroteRow(x.writes, d)
    ensures d in View(Deleted(rules, x, r, plan).txn).rows
       <==> d in RowsOf(plan.setNull) || (d.table == r.table && d != r)
  {
    DeleteEffect(rules, x, r, plan, d);
    ReadIsView(rules, x, d);
    UnwrittenIsSnapshot(x, d);
  }

  /** A nulled row ends up with the columns of the last update nulled, and no others: each
      update starts from the row as it was planned. */
  lemma LastNullWins(rules: Rules, x: Txn, r: RowRef, plan: DeletePlan, c: RowRef)
    requires Local(rules, x) && Deleted(rules, x, r, plan).Accepted?
    requires c in RowsOf(plan.setNull) && c in View(x).rows && !WroteRow(x.writes, c)
    ensures var after := View(Deleted(rules, x, r, plan).txn).rows;
            c in after && after[c] == NullOut(View(x).rows[c], LastNull(plan.setNull, c).value.columns)
  {
    DeleteEffect(rules, x, r, plan, c);
    ReadIsView(rules, x, c);
  }

  /** A row that is to be nulled for several references: one of them is gone after the delete
      exactly when it shares a column with the one that is nulled last. */
  lemma NulledReferenceGoesExactly(tables: seq<Table>, valid: (string, Row) -> bool, x: Txn, r: RowRef, plan: DeletePlan,
                                   c: RowRef, fk: ForeignKey)
    requires var rules := KitRules(tables, valid);
             && Local(rules, x) && Deleted(rules, x, r, plan).Accepted?
             && c in RowsOf(plan.setNull) && c in View(x).rows && !WroteRow(x.writes, c)
             && ParentKey(tables, fk, View(x).rows[c]).Some?
    ensures var after := View(Deleted(KitRules(tables, valid), x, r, plan).txn).rows;
            && c in after
            && (ParentKey(tables, fk, after[c]) == None
                <==> exists col :: col in fk.columns && col in LastNull(plan.setNull, c).value.columns)
            && (ParentKey(tables, fk, after[c]).Some? ==> ParentKey(tables, fk, after[c]) == ParentKey(tables, fk, View(x).rows[c]))
  {
    LastNullWins(KitRules(tables, valid), x, r, plan, c);
    ParentGoesExactly(tables, fk, View(x).rows[c], LastNull(plan.setNull, c).value.columns);
  }

  lemma ParentGoesExactly(tables: seq<Table>, fk: ForeignKey, was: Row, columns: seq<string>)
    requires ParentKey(tables, fk, was).Some?
    ensures ParentKey(tables, fk, NullOut(was, columns)) == None <==> exists col :: col in fk.columns && col in columns
    ensures ParentKey(tables, fk, NullOut(was, columns)).Some? ==> ParentKey(tables, fk, NullOut(was, columns)) == ParentKey(tables, fk, was)
  {
    NulledParent(tables, fk, was, columns);
    forall col | col in fk.columns ensures Get(NullOut(was, columns), col) == Null <==> col in columns {
      assert Get(was, col) != Null;
    }
  }

  // ── when the delete keeps the transaction sound ──────────────────────────

  /** A delete keeps the transaction sound exactly when its plan is clean. */
  lemma DeleteKeepsExactly(rules: Rules, x: Txn, r: RowRef, plan: DeletePlan)
    requires rules.WellFormed() && Local(rules, x) && FreshPlan(x, r, plan) && PlannedFor(rules, x, r, plan)
    requires Deleted(rules, x, r, plan).Accepted?
    ensures Local(rules, Deleted(rules, x, r, plan).txn) <==> CleanPlan(rules, x, r, plan)
  {
    DeletedIs(rules, x, r, plan);
    LookupIsView(rules, x, r);
    if CleanPlan(rules, x, r, plan) {
      CleanDeleteKeeps(rules, x, r, plan);
    }
    if Local(rules, Deleted(rules, x, r, plan).txn) {
      SoundDeleteIsClean(rules, x, r, plan);
    }
  }

  lemma SoundDeleteIsClean(rules: Rules, x: Txn, r: RowRef, plan: DeletePlan)
    requires rules.WellFormed() && Local(rules, x) && FreshPlan(x, r, plan) && PlannedFor(rules, x, r, plan)
    requires Deleted(rules, x, r, plan).Accepted? && Local(rules, Deleted(rules, x, r, plan).txn)
    ensures CleanPlan(rules, x, r, plan)
  {
    var g :| PlannedOn(rules, View(x).rows, g, r, plan);
    DeletedIs(rules, x, r, plan);
    LookupIsView(rules, x, r);
    PlannedOnce(g, r, plan);
    forall d | d in plan.delete ensures d in View(x).rows {
      PlannedVisible(rules, View(x).rows, g, r, plan, d);
    }
    forall d | Goes(r, plan, d) ensures d !in RowsOf(plan.setNull) {
      DeletedIsNotNulled(rules, x, r, plan, d);
    }
    forall d | d in plan.delete && d.table != r.table ensures rules.Referenced(d.table) ==> WroteGuard(x.writes, d) {
      DeleteEffect(rules, x, r, plan, d);
      ReadIsView(rules, x, d);
      UnwrittenIsSnapshot(x, d);
    }
    forall d | d in plan.delete && d.table == r.table && d != r ensures d in RowsOf(plan.setNull) {
      SurvivorIsNulled(rules, x, g, r, plan, d);
    }
    forall c | NullsRow(x, plan.setNull, c) ensures FreeOf(rules, x, r, plan, c) {
      NulledReferencesNothing(rules, x, r, plan, c);
    }
    KeysAreKept(rules, x, r, plan);
  }

  /** A nulled row references no row that goes, or it would be an orphan. */
  lemma NulledReferencesNothing(rules: Rules, x: Txn, r: RowRef, plan: DeletePlan, c: RowRef)
    requires Local(rules, x) && FreshPlan(x, r, plan) && NullsRow(x, plan.setNull, c)
    requires Deleted(rules, x, r, plan).Accepted? && NoOrphans(rules, View(Deleted(rules, x, r, plan).txn))
    requires forall p :: p in plan.delete ==> p in View(x).rows
    requires forall p :: Goes(r, plan, p) ==> p !in RowsOf(plan.setNull)
    ensures FreeOf(rules, x, r, plan, c)
  {
    var after := View(Deleted(rules, x, r, plan).txn).rows;
    LastNullWins(rules, x, r, plan, c);
    forall fk, p | rules.References(c.table, NulledLast(x, plan.setNull, c), fk, p) ensures !Goes(r, plan, p) {
      assert p in after;
      if p in plan.delete {
        SurvivesExactly(rules, x, r, plan, p);
      }
    }
  }

  /** A key that an update reserves is still reserved after the delete, and so must be the
      row's. */
  lemma KeysAreKept(rules: Rules, x: Txn, r: RowRef, plan: DeletePlan)
    requires rules.WellFormed() && Local(rules, x) && FreshPlan(x, r, plan) && Deleted(rules, x, r, plan).Accepted?
    requires NoStale(rules, View(Deleted(rules, x, r, plan).txn))
    ensures NoKeysLost(rules, x, plan.setNull)
  {
    forall su, k | su in plan.setNull && KeyAfter(rules, x, su, k)
      ensures KeyAfter(rules, x, LastNull(plan.setNull, NulledRow(su)).value, k)
    {
      KeyIsKept(rules, x, r, plan, su, k);
    }
  }

  lemma KeyIsKept(rules: Rules, x: Txn, r: RowRef, plan: DeletePlan, su: SetNullUpdate, k: string)
    requires rules.WellFormed() && Local(rules, x) && FreshPlan(x, r, plan) && Deleted(rules, x, r, plan).Accepted?
    requires NoStale(rules, View(Deleted(rules, x, r, plan).txn)) && su in plan.setNull && KeyAfter(rules, x, su, k)
    ensures KeyAfter(rules, x, LastNull(plan.setNull, NulledRow(su)).value, k)
  {
    var after := View(Deleted(rules, x, r, plan).txn);
    ReservedStays(rules, x, r, plan, su, k);
    LastNullWins(rules, x, r, plan, NulledRow(su));
    assert rules.HasKey(su.table, after.rows[NulledRow(su)], after.owners[k].constraint, k);
  }

  lemma ReservedStays(rules: Rules, x: Txn, r: RowRef, plan: DeletePlan, su: SetNullUpdate, k: string)
    requires rules.WellFormed() && Local(rules, x) && FreshPlan(x, r, plan) && Deleted(rules, x, r, plan).Accepted?
    requires su in plan.setNull && KeyAfter(rules, x, su, k)
    ensures var owners := View(Deleted(rules, x, r, plan).txn).owners; k in owners && owners[k].row == NulledRow(su)
  {
    DeletedIs(rules, x, r, plan);
    var o := SetNullAll(rules, x, x, plan.setNull).txn;
    NullKeysAre(rules, x, plan.setNull);
    KeyAfterIsOwn(rules, x, su, k);
    assert NullKey(rules, x, plan.setNull, k);
    NullRowsAre(rules, x, plan.setNull);
    CascadeEffect(rules, x, o, plan.delete, r.table);
    TargetEffect(rules, CascadeAll(rules, x, o, plan.delete, r.table), r);
  }

  /** A row that is nulled and then deleted is read as gone, but stays. */
  lemma DeletedIsNotNulled(rules: Rules, x: Txn, r: RowRef, plan: DeletePlan, d: RowRef)
    requires Local(rules, x) && Deleted(rules, x, r, plan).Accepted? && Faithful(rules, Deleted(rules, x, r, plan).txn)
    requires d in plan.delete && d in View(x).rows && !WroteRow(x.writes, d) && (d.table != r.table || d == r)
    ensures d !in RowsOf(plan.setNull)
  {
    var y := Deleted(rules, x, r, plan).txn;
    DeletedIs(rules, x, r, plan);
    DeleteEffect(rules, x, r, plan, d);
    ReadIsView(rules, x, d);
    DeletedUnread(rules, x, SetNullAll(rules, x, x, plan.setNull).txn, r, plan.delete, d);
    assert FaithfulAt(rules, y, d);
  }

  lemma DeletedUnread(rules: Rules, planned: Txn, y: Txn, r: RowRef, rows: seq<RowRef>, d: RowRef)
    requires d in rows && Read(rules, planned, d).Some? && (d.table != r.table || d == r)
    ensures d.pk !in Reads(rules, DeleteTarget(rules, CascadeAll(rules, planned, y, rows, r.table), r), d.table)
  {
    var z := CascadeAll(rules, planned, y, rows, r.table);
    var w := DeleteTarget(rules, z, r);
    if d != r {
      CascadedUnread(rules, planned, y, rows, r.table, d);
    }
    assert w.staged[..|z.staged|] == z.staged;
    CascadeEffect(rules, planned, y, rows, r.table);
    ReadsAfter(rules, z, w, d.table);
  }

  lemma {:induction false} CascadedUnread(rules: Rules, planned: Txn, y: Txn, rows: seq<RowRef>, table: string, d: RowRef)
    requires d in rows && d.table != table && Read(rules, planned, d).Some?
    ensures d.pk !in Reads(rules, CascadeAll(rules, planned, y, rows, table), d.table)
    decreases |rows|
  {
    var front, r := rows[..|rows| - 1], rows[|rows| - 1];
    var mid, z := CascadeAll(rules, planned, y, front, table), CascadeAll(rules, planned, y, rows, table);
    assert rows == front + [r];
    if d in front {
      CascadedUnread(rules, planned, y, front, table, d);
    }
    if z != mid {
      assert z.staged[..|mid.staged|] == mid.staged;
      ReadsAfter(rules, mid, z, d.table);
    }
  }

  /** What a planned row other than the target references, and loses. */
  lemma LosesParent(rules: Rules, x: Txn, g: Graph, r: RowRef, plan: DeletePlan, d: RowRef) returns (fk: ForeignKey, p: RowRef)
    requires rules.WellFormed() && PlannedOn(rules, View(x).rows, g, r, plan) && plan.restricted == []
    requires d in plan.delete && d != r
    ensures p in plan.delete && p.table != d.table
    ensures d in View(x).rows && rules.References(d.table, View(x).rows[d], fk, p)
  {
    var e;
    p, e := PlannedChild(g, r, plan, d);
    fk := e.fk;
    EdgeIsReference(rules, View(x).rows, g, p, e);
  }

  lemma SurvivorIsNulled(rules: Rules, x: Txn, g: Graph, r: RowRef, plan: DeletePlan, d: RowRef)
    requires rules.WellFormed() && Local(rules, x) && FreshPlan(x, r, plan) && PlannedOn(rules, View(x).rows, g, r, plan)
    requires Deleted(rules, x, r, plan).Accepted? && NoOrphans(rules, View(Deleted(rules, x, r, plan).txn))
    requires plan.restricted == [] && d in plan.delete && d.table == r.table && d != r
    requires forall p :: p in plan.delete ==> p in View(x).rows
    requires forall p :: Goes(r, plan, p) ==> p !in RowsOf(plan.setNull)
    ensures d in RowsOf(plan.setNull)
  {
    var after := View(Deleted(rules, x, r, plan).txn).rows;
    var fk, p := LosesParent(rules, x, g, r, plan, d);
    SurvivesExactly(rules, x, r, plan, p);
    SurvivorStays(rules, x, r, plan, d);
  }

  lemma SurvivorStays(rules: Rules, x: Txn, r: RowRef, plan: DeletePlan, d: RowRef)
    requires Local(rules, x) && Deleted(rules, x, r, plan).Accepted?
    requires d in View(x).rows && !WroteRow(x.writes, d) && d.table == r.table && d != r
    ensures var after := View(Deleted(rules, x, r, plan).txn).rows;
            d !in RowsOf(plan.setNull) ==> d in after && after[d] == View(x).rows[d]
  {
    DeleteEffect(rules, x, r, plan, d);
    UnwrittenIsSnapshot(x, d);
  }

  // ── cascades that race with new references ───────────────────────────────

  /** A delete that cascades to `c`, and an insert of a row that references `c`, both begun on
      the same state. */
  ghost predicate Racing(rules: Rules, s: Store, r: RowRef, plan: DeletePlan, c: RowRef, table: string, row: Row, explicit: bool,
                         fk: ForeignKey) {
    var x := Opened(s);
    && Local(rules, x)
    && Deleted(rules, x, r, plan).Accepted?
    && c in plan.delete && c in s.rows && c.table != r.table && c !in RowsOf(plan.setNull)
    && rules.References(table, row, fk, c)
    && InsertInScope(rules, x, table, row, explicit)
    && Inserted(rules, x, table, row, explicit).Accepted?
  }

  /** A cascade touches no guard but the target's. The delete commits, and then the insert is
      refused exactly when its row references the target as well; otherwise both commit, and
      the new row is an orphan. */
  lemma CascadeRace(rules: Rules, s: Store, r: RowRef, plan: DeletePlan, c: RowRef, table: string, row: Row, explicit: bool, fk: ForeignKey)
    requires rules.WellFormed() && Racing(rules, s, r, plan, c, table, row, explicit, fk)
    ensures var deleter := Live(Deleted(rules, Opened(s), r, plan).txn, {});
            var inserter := Overtaken(Live(Inserted(rules, Opened(s), table, row, explicit).txn, {}), deleter.txn.writes);
            && !Conflicts(deleter)
            && (Conflicts(inserter) <==> exists f :: rules.References(table, row, f, r))
            && (!Conflicts(inserter) ==> !NoOrphans(rules, Applied(Applied(s, deleter.txn.writes), inserter.txn.writes)))
  {
    var x, q := Opened(s), RowRef(table, rules.pk(table, row));
    var d, y := Deleted(rules, x, r, plan).txn, Inserted(rules, x, table, row, explicit).txn;
    OpenedView(s);
    InsertWrites(rules, s, table, row, explicit);
    forall p
      ensures WroteRow(d.writes, p) ==> p in s.rows
      ensures WroteGuard(d.writes, p) <==> p == r
    {
      DeleteEffect(rules, x, r, plan, p);
      ReadIsView(rules, x, p);
    }
    DeleteEffect(rules, x, r, plan, c);
    ReadIsView(rules, x, c);
    DeleteOwners(rules, x, r, plan);
    RaceEnds(rules, s, r, c, q, row, fk, d, y);
  }

  lemma RaceEnds(rules: Rules, s: Store, r: RowRef, c: RowRef, q: RowRef, row: Row, fk: ForeignKey, d: Txn, y: Txn)
    requires rules.References(q.table, row, fk, c) && q !in s.rows && c in s.rows
    requires forall p :: WroteRow(d.writes, p) ==> p in s.rows
    requires forall g :: WroteGuard(d.writes, g) <==> g == r
    requires forall k :: WroteOwner(d.writes, k) ==> k in s.owners
    requires c in d.writes.rowDels && c !in d.writes.rows
    requires q in y.writes.rows && y.writes.rows[q] == row && (forall p :: WroteRow(y.writes, p) ==> p == q)
    requires forall k :: WroteOwner(y.writes, k) ==> k !in s.owners
    requires forall g :: WroteGuard(y.writes, g) <==> exists f :: rules.References(q.table, row, f, g)
    ensures !Conflicts(Live(d, {}))
    ensures var inserter := Overtaken(Live(y, {}), d.writes);
            && (Conflicts(inserter) <==> exists f :: rules.References(q.table, row, f, r))
            && !NoOrphans(rules, Applied(Applied(s, d.writes), y.writes))
  {
    var inserter := Overtaken(Live(y, {}), d.writes);
    forall key | Wrote(d.writes, key) && Wrote(y.writes, key) ensures key == GuardKey(r) {
      match key
      case RowKey(p) =>
      case OwnerKey(k) =>
      case GuardKey(g) =>
    }
    if exists f :: rules.References(q.table, row, f, r) {
      assert WroteGuard(d.writes, r) && WroteGuard(y.writes, r);
      assert Wrote(d.writes, GuardKey(r)) && Wrote(y.writes, GuardKey(r));
      assert GuardKey(r) in inserter.since;
    }
    var after := Applied(Applied(s, d.writes), y.writes);
    assert !WroteRow(y.writes, c);
    assert q in after.rows && after.rows[q] == row && c !in after.rows;
  }

  /** The keys a delete writes were there before. */
  lemma DeleteOwners(rules: Rules, x: Txn, r: RowRef, plan: DeletePlan)
    requires rules.WellFormed() && Local(rules, x) && x.writes == NO_WRITES && Deleted(rules, x, r, plan).Accepted?
    ensures forall k :: WroteOwner(Deleted(rules, x, r, plan).txn.writes, k) ==> k in x.snapshot.owners
  {
    DeletedIs(rules, x, r, plan);
    var o := SetNullAll(rules, x, x, plan.setNull).txn;
    NullOwners(rules, x, plan.setNull);
    NullEffect(rules, x, x, plan.setNull, r);
    CascadeEffect(rules, x, o, plan.delete, r.table);
    TargetEffect(rules, CascadeAll(rules, x, o, plan.delete, r.table), r);
  }

  lemma {:induction false} NullOwners(rules: Rules, x: Txn, sus: seq<SetNullUpdate>)
    requires rules.WellFormed() && Local(rules, x) && x.writes == NO_WRITES
    ensures var y := SetNullAll(rules, x, x, sus).txn;
            y.snapshot == x.snapshot && forall k :: WroteOwner(y.writes, k) ==> k in x.snapshot.owners
    decreases |sus|
  {
    if sus != [] {
      var front, su := sus[..|sus| - 1], sus[|sus| - 1];
      NullOwners(rules, x, front);
      var mid, was := SetNullAll(rules, x, x, front), Read(rules, x, NulledRow(su));
      if mid.Accepted? && was.Some? {
        ReadIsView(rules, x, NulledRow(su));
        OneNullOwners(rules, x, mid.txn, NulledRow(su), was.value, su.columns);
      }
    }
  }

  lemma OneNullOwners(rules: Rules, x: Txn, y: Txn, c: RowRef, was: Row, columns: seq<string>)
    requires rules.WellFormed() && Local(rules, x) && x.writes == NO_WRITES && y.snapshot == x.snapshot
    requires c in View(x).rows && View(x).rows[c] == was
    requires forall k :: WroteOwner(y.writes, k) ==> k in x.snapshot.owners
    ensures var z := SetNullRow(rules, y, c, NullOut(was, columns));
            z.snapshot == x.snapshot && forall k :: WroteOwner(z.writes, k) ==> k in x.snapshot.owners
  {
    var row, uqs := NullOut(was, columns), rules.Guarded(c.table);
    ClearedReserves(rules, y, c, row);
    SetNullWrites(rules, y, c, row);
    forall k | k in NewKeys(rules, uqs, c, row, None) ensures k in x.snapshot.owners {
      var uq := NewKeysFrom(rules, uqs, c, row, None, k);
      assert rules.key(c.table, uq, was) == Some(k);
      OldKeyIsOwned(rules, x, c, uq, k);
    }
  }

  /** An insert begun on a sound state writes its own row, keys nobody has, and the guards of
      its parents. */
  lemma InsertWrites(rules: Rules, s: Store, table: string, row: Row, explicit: bool)
    requires rules.WellFormed() && Local(rules, Opened(s)) && InsertInScope(rules, Opened(s), table, row, explicit)
    requires Inserted(rules, Opened(s), table, row, explicit).Accepted?
    ensures var w, q := Inserted(rules, Opened(s), table, row, explicit).txn.writes, RowRef(table, rules.pk(table, row));
            && q !in s.rows
            && q in w.rows && w.rows[q] == row
            && (forall p :: WroteRow(w, p) ==> p == q)
            && (forall k :: WroteOwner(w, k) ==> k !in s.owners)
            && (forall g :: WroteGuard(w, g) <==> exists f :: rules.References(table, row, f, g))
  {
    var x, q := Opened(s), RowRef(table, rules.pk(table, row));
    var y := InsertRow(rules, x, q, row, explicit);
    OpenedView(s);
    InsertIsFresh(rules, x, table, row, explicit);
    InsertChecks(rules, x, table, row, explicit);
    ReservesAll(rules, x, q, row, explicit);
    PutIsWritten(rules, x, y, q, row, row, Insert(table, row));
    FreshKeys(rules, s, table, row, explicit);
    FreshGuards(rules, s, q, row, explicit);
  }

  lemma FreshKeys(rules: Rules, s: Store, table: string, row: Row, explicit: bool)
    requires rules.WellFormed() && Sound(rules, s) && InsertInScope(rules, Opened(s), table, row, explicit)
    requires var q := RowRef(table, rules.pk(table, row));
             && q !in s.rows
             && Taken(rules, Opened(s), rules.Declared(table), q, row, None) == None
             && !PkTaken(rules, Opened(s), q, row, explicit)
    ensures var uqs, q := rules.Guarded(table), RowRef(table, rules.pk(table, row));
            && LostKeys(rules, Opened(s), uqs, q, row, None) == {}
            && forall k :: k in NewKeys(rules, uqs, q, row, None) ==> k !in s.owners
  {
    var uqs, q := rules.Guarded(table), RowRef(table, rules.pk(table, row));
    forall k | k in NewKeys(rules, uqs, q, row, None) ensures k !in s.owners {
      var uq := NewKeysFrom(rules, uqs, q, row, None, k);
      InsertKeysFree(rules, Opened(s), table, row, explicit, uq);
    }
  }

  lemma FreshGuards(rules: Rules, s: Store, q: RowRef, row: Row, explicit: bool)
    ensures var w := InsertRow(rules, Opened(s), q, row, explicit).writes;
            forall g :: WroteGuard(w, g) <==> exists f :: rules.References(q.table, row, f, g)
  {
    var x, fks := Opened(s), rules.ForeignKeys(q.table);
    var reserved := Reserve(rules, x, rules.Declared(q.table), q, row, None);
    var all := ReservePk(rules, reserved, q, row, explicit);
    ReserveKeepsRest(rules, x, rules.Declared(q.table), q, row, None);
    forall g ensures WroteGuard(InsertRow(rules, x, q, row, explicit).writes, g) <==> exists f :: rules.References(q.table, row, f, g) {
      TouchesExactly(rules, all, fks, row, g);
      ParentsAreReferenced(rules, q.table, row, g);
    }
  }

  lemma ParentsAreReferenced(rules: Rules, table: string, row: Row, g: RowRef)
    ensures g in Parents(rules, rules.ForeignKeys(table), row) <==> exists f :: rules.References(table, row, f, g)
  {
    var fks := rules.ForeignKeys(table);
    if g in Parents(rules, fks, row) {
      var f :| f in fks && rules.parent(f, row).Some? && g == RowRef(f.referencesTable, rules.parent(f, row).value);
      assert rules.References(table, row, f, g);
    }
    if f :| rules.References(table, row, f, g) {
      assert f in fks && g == RowRef(f.referencesTable, rules.parent(f, row).value);
    }
  }
}
