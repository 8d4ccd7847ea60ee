/** Upserts and truncates, said of the rows: when they are accepted and what they leave. */
module Outcomes {
  import opened Strings
  import opened Values
  import opened Schema
  import opened Overlay
  import opened Planner
  import opened Rules
  import opened Guards
  import opened Operations
  import opened Keeping
  import opened RowOps
  import opened Accepting
  import opened Limits

  // ── upsert ───────────────────────────────────────────────────────────────

  /** What the row must meet to be written under `r`: it is valid, no other row holds a key it
      gains, and every row it references can be found. */
  ghost predicate Writable(rules: Rules, x: Txn, r: RowRef, row: Row, was: Option<Row>) {
    && rules.valid(r.table, row)
    && (forall uq :: uq in rules.Declared(r.table) && GainedKey(rules, r.table, uq, row, was).Some? ==>
          !HeldByOther(rules, x, GainedKey(rules, r.table, uq, row, was).value, r))
    && (forall fk, p :: rules.References(r.table, row, fk, p) ==> Findable(rules, x, p))
  }

  lemma WritableExactly(rules: Rules, x: Txn, r: RowRef, row: Row, was: Option<Row>)
    requires Local(rules, x) && !WroteRow(x.writes, r)
    ensures Writable(rules, x, r, row, was) <==> rules.valid(r.table, row) && Refusal(rules, x, r, row, was) == None
  {
    TakenExactly(rules, x, r, row, was);
    OrphanedExactly(rules, x, r.table, row);
  }

  /** The row an upsert with DO UPDATE checks, and its key. */
  function Merged(values: Row, patch: Row, refresh: Row): Row {
    values + patch + refresh
  }

  function MergedRef(rules: Rules, table: string, values: Row, patch: Row, refresh: Row): RowRef {
    RowRef(table, rules.pk(table, Merged(values, patch, refresh)))
  }

  /** What an upsert must meet. A row that can be found is left alone by DO NOTHING, and
      replaced by DO UPDATE; otherwise the row is taken for new. */
  ghost predicate Upsertable(rules: Rules, x: Txn, table: string, values: Row, patch: Option<Row>, refresh: Row) {
    var r := RowRef(table, rules.pk(table, values));
    && rules.Known(table) && rules.valid(table, values)
    && (Findable(rules, x, r) && patch.Some? ==>
          var q := MergedRef(rules, table, values, patch.value, refresh);
          Writable(rules, x, q, Merged(values, patch.value, refresh), Some(View(x).rows[r])))
    && (!Findable(rules, x, r) ==> Writable(rules, x, r, values, None))
  }

  /** The rows the upsert looks at have not been written in this transaction. */
  ghost predicate UpsertFresh(rules: Rules, x: Txn, table: string, values: Row, patch: Option<Row>, refresh: Row) {
    && !WroteRow(x.writes, RowRef(table, rules.pk(table, values)))
    && (patch.Some? ==> !WroteRow(x.writes, MergedRef(rules, table, values, patch.value, refresh)))
  }

  lemma UpsertAcceptedExactly(rules: Rules, x: Txn, table: string, values: Row, patch: Option<Row>, refresh: Row)
    requires Local(rules, x) && UpsertFresh(rules, x, table, values, patch, refresh)
    ensures Upserted(rules, x, table, values, patch, refresh).Accepted? <==> Upsertable(rules, x, table, values, patch, refresh)
  {
    var r := RowRef(table, rules.pk(table, values));
    LookupIsView(rules, x, r);
    if rules.Known(table) && rules.valid(table, values) {
      if !Findable(rules, x, r) {
        WritableExactly(rules, x, r, values, None);
      } else if patch.Some? {
        var q := MergedRef(rules, table, values, patch.value, refresh);
        WritableExactly(rules, x, q, Merged(values, patch.value, refresh), Some(View(x).rows[r]));
      }
    }
  }

  /** Guarding a new row writes no row. */
  lemma InsertGuardsOnly(rules: Rules, x: Txn, r: RowRef, row: Row, explicit: bool)
    ensures var y := InsertGuards(rules, x, r, row, explicit);
            y.snapshot == x.snapshot && y.staged == x.staged && y.writes.rows == x.writes.rows && y.writes.rowDels == x.writes.rowDels
  {
    var reserved := Reserve(rules, x, rules.Declared(r.table), r, row, None);
    ReserveKeepsRest(rules, x, rules.Declared(r.table), r, row, None);
    TouchKeepsRest(rules, ReservePk(rules, reserved, r, row, explicit), rules.ForeignKeys(r.table), row);
  }

  lemma PutShows(x: Txn, y: Txn, r: RowRef, row: Row)
    requires y.snapshot == x.snapshot && y.writes.rows == x.writes.rows[r := row] && y.writes.rowDels == x.writes.rowDels
    ensures View(y).rows == View(x).rows[r := row]
  {
    PutView(x.snapshot.rows - x.writes.rowDels, x.writes.rows, r, row);
  }

  /** What the engine puts for DO UPDATE: the patch over the old row, unless the merged row has
      another key; then over the row that has that key, or the merged row. */
  function Stored(x: Txn, r: RowRef, q: RowRef, merged: Row, patch: Row): Row
    requires r in View(x).rows
  {
    if q in View(x).rows then View(x).rows[q] + patch else merged
  }

  /** The rows after an accepted upsert. A new row is there as given. DO NOTHING leaves a row
      that is there as it was. DO UPDATE patches the row under the key of the merged row, and
      every other row stays, the one the lookup found included. */
  lemma UpsertLeaves(rules: Rules, x: Txn, table: string, values: Row, patch: Option<Row>, refresh: Row)
    requires Local(rules, x) && UpsertFresh(rules, x, table, values, patch, refresh)
    requires Upserted(rules, x, table, values, patch, refresh).Accepted?
    ensures var r := RowRef(table, rules.pk(table, values));
            var before, after := View(x).rows, View(Upserted(rules, x, table, values, patch, refresh).txn).rows;
            && (r !in before ==> after == before[r := values])
            && (r in before && patch.None? ==> after == before)
            && (r in before && !Findable(rules, x, r) && patch.Some? ==> after == before[r := before[r] + patch.value])
            && (Findable(rules, x, r) && patch.Some? ==>
                  var q := MergedRef(rules, table, values, patch.value, refresh);
                  after == before[q := Stored(x, r, q, Merged(values, patch.value, refresh), patch.value)])
  {
    var r := RowRef(table, rules.pk(table, values));
    LookupIsView(rules, x, r);
    UnwrittenIsSnapshot(x, r);
    if !Findable(rules, x, r) {
      NewLeaves(rules, x, r, values, patch);
    } else if patch.Some? {
      var q := MergedRef(rules, table, values, patch.value, refresh);
      PatchLeaves(rules, x, r, q, Merged(values, patch.value, refresh), patch.value);
    }
  }

  lemma PatchLeaves(rules: Rules, x: Txn, r: RowRef, q: RowRef, merged: Row, patch: Row)
    requires Local(rules, x) && !WroteRow(x.writes, r) && !WroteRow(x.writes, q) && r in View(x).rows
    ensures var stored := UpsertStores(x.snapshot, r, q, merged, View(x).rows[r], patch);
            View(UpsertRow(rules, x, r, q, merged, stored, View(x).rows[r])).rows == View(x).rows[q := Stored(x, r, q, merged, patch)]
  {
    var was := View(x).rows[r];
    UnwrittenIsSnapshot(x, q);
    GuardsOnly(rules, x, q, merged, Some(was));
    var y := UpsertRow(rules, x, r, q, merged, UpsertStores(x.snapshot, r, q, merged, was, patch), was);
    PutShows(x, y, q, Stored(x, r, q, merged, patch));
  }

  lemma NewLeaves(rules: Rules, x: Txn, r: RowRef, values: Row, patch: Option<Row>)
    requires !WroteRow(x.writes, r)
    ensures View(UpsertNew(rules, x, r, values, patch)).rows ==
            if r !in View(x).rows then View(x).rows[r := values]
            else if patch.None? then View(x).rows
            else View(x).rows[r := View(x).rows[r] + patch.value]
  {
    var y := UpsertNew(rules, x, r, values, patch);
    UnwrittenIsSnapshot(x, r);
    InsertGuardsOnly(rules, x, r, values, true);
    if r !in View(x).rows {
      PutShows(x, y, r, values);
    } else if patch.Some? {
      PutShows(x, y, r, View(x).rows[r] + patch.value);
    }
  }

  // ── truncate ─────────────────────────────────────────────────────────────

  /** A truncate is accepted exactly when nothing but truncates has been staged for the table
      and no foreign key of another table points to it, whatever its ON DELETE says. */
  lemma TruncateAcceptedExactly(rules: Rules, x: Txn, table: string)
    ensures Truncated(rules, x, table).Accepted? <==>
            && (exists t :: t in rules.tables && t.name == table)
            && (forall op :: op in x.staged ==> op.table == table ==> op.Truncate?)
            && (forall t, fk :: t in rules.tables && fk in t.foreignKeys && t.name != table ==> fk.referencesTable != table)
  {
  }

  /** After an accepted truncate the table has no visible row and no key, and every other table
      has the rows and keys it had. */
  lemma TruncateLeaves(rules: Rules, x: Txn, table: string)
    requires Local(rules, x) && Truncated(rules, x, table).Accepted?
    ensures var before, after := View(x), View(Truncated(rules, x, table).txn);
            && (forall r :: r in after.rows <==> r in before.rows && r.table != table)
            && (forall r :: r in after.rows ==> after.rows[r] == before.rows[r])
            && (forall k :: k in after.owners <==> k in before.owners && before.owners[k].row.table != table)
            && (forall k :: k in after.owners ==> after.owners[k] == before.owners[k])
  {
    TruncateView(x, table, TruncateTable(x, table));
  }
}
