/** A transaction's staged writes laid over the rows of its read snapshot. */
module Overlay {
  import opened Strings
  import opened Values
  import opened Schema
  import Keys

  /** A row with its engine row id; rows inserted by the transaction carry id 0. */
  datatype Stored = Stored(id: nat, values: Row)

  datatype StagedOp =
    | Insert(table: string, values: Row)
    | Update(table: string, oldPk: string, rowId: nat, values: Row)
    | Delete(table: string, pk: string)
    | Truncate(table: string)

  /** `has_staged_for` */
  predicate HasStagedFor(staged: seq<StagedOp>, name: string) {
    exists op :: op in staged && op.table == name
  }

  // ── primary keys of rows ─────────────────────────────────────────────────

  function ValueText(v: Value): string {
    match v
    case Null => "null"
    case Bool(b) => if b then "true" else "false"
    case Int(i) => FormatInt(i)
    case Text(s) => s
  }

  /** `key_component`: the typed key component of a value in a column. */
  function KeyComponentOf(col: Column, v: Value): Keys.KeyComponent {
    if v == Null then Keys.Null
    else if col.storageType == IntType then Keys.Int(if v.Int? then v.i else 0)
    else Keys.Text(ValueText(v))
  }

  function PkComponents(t: Table, values: Row): seq<Keys.KeyComponent> {
    seq(|t.primaryKey|, k requires 0 <= k < |t.primaryKey| =>
      match t.Col(t.primaryKey[k])
      case None => Keys.Null
      case Some(col) => KeyComponentOf(col, Get(values, t.primaryKey[k])))
  }

  function EncodedPk(t: Table, values: Row): string {
    Keys.EncodePk(PkComponents(t, values))
  }

  /** A table as the replay sees it: its name and the primary key of its rows. */
  datatype Keyed = Keyed(name: string, pk: Row -> string)

  function KeyedBy(t: Table): Keyed {
    Keyed(t.name, (values: Row) => EncodedPk(t, values))
  }

  // ── the replay ───────────────────────────────────────────────────────────

  /** `rows.retain(|r| pk(r) not in dropped)` */
  function Without(t: Keyed, rows: seq<Stored>, dropped: set<string>): seq<Stored> {
    if rows == [] then []
    else
      var rest := Without(t, rows[..|rows| - 1], dropped);
      var last := rows[|rows| - 1];
      if t.pk(last.values) in dropped then rest else rest + [last]
  }

  function ReplayOne(t: Keyed, rows: seq<Stored>, op: StagedOp): seq<Stored> {
    if op.table != t.name then rows
    else
      match op
      case Insert(_, values) =>
        Without(t, rows, {t.pk(values)}) + [Stored(0, values)]
      case Update(_, oldPk, rowId, values) =>
        Without(t, rows, {oldPk, t.pk(values)}) + [Stored(rowId, values)]
      case Delete(_, pk) => Without(t, rows, {pk})
      case Truncate(_) => []
  }

  function Replay(t: Keyed, rows: seq<Stored>, staged: seq<StagedOp>): seq<Stored> {
    if staged == [] then rows
    else ReplayOne(t, Replay(t, rows, staged[..|staged| - 1]), staged[|staged| - 1])
  }

  function ValuesOf(rows: seq<Stored>): seq<Row> {
    seq(|rows|, k requires 0 <= k < |rows| => rows[k].values)
  }

  lemma {:induction false} ReplayNothing(t: Keyed, rows: seq<Stored>, staged: seq<StagedOp>)
    requires !HasStagedFor(staged, t.name)
    ensures Replay(t, rows, staged) == rows
    decreases |staged|
  {
    if staged != [] {
      var front := staged[..|staged| - 1];
      assert forall op :: op in front ==> op in staged;
      assert staged[|staged| - 1] in staged;
      ReplayNothing(t, rows, front);
    }
  }

  /** `replay_staged_rows`: the loop over the staged operations edits the row vector. */
  method ReplayStagedRows(t: Keyed, snapshot: seq<Stored>, staged: seq<StagedOp>) returns (rows: seq<Stored>)
    ensures rows == Replay(t, snapshot, staged)
  {
    rows := snapshot;
    var i := 0;
    while i < |staged|
      invariant 0 <= i <= |staged|
      invariant rows == Replay(t, snapshot, staged[..i])
    {
      var op := staged[i];
      assert staged[..i + 1][..i] == staged[..i];
      if op.table == t.name {
        match op
        case Insert(_, values) =>
          rows := Retain(t, rows, {t.pk(values)});
          rows := rows + [Stored(0, values)];
        case Update(_, oldPk, rowId, values) =>
          rows := Retain(t, rows, {oldPk, t.pk(values)});
          rows := rows + [Stored(rowId, values)];
        case Delete(_, pk) =>
          rows := Retain(t, rows, {pk});
        case Truncate(_) =>
          rows := [];
      }
      i := i + 1;
    }
    assert staged[..|staged|] == staged;
  }

  method Retain(t: Keyed, rows: seq<Stored>, dropped: set<string>) returns (kept: seq<Stored>)
    ensures kept == Without(t, rows, dropped)
  {
    kept := [];
    var i := 0;
    while i < |rows|
      invariant 0 <= i <= |rows|
      invariant kept == Without(t, rows[..i], dropped)
    {
      assert rows[..i + 1][..i] == rows[..i];
      if t.pk(rows[i].values) !in dropped {
        kept := kept + [rows[i]];
      }
      i := i + 1;
    }
    assert rows[..|rows|] == rows;
  }

  // ── the table it stands for ──────────────────────────────────────────────

  /** No two rows share a primary key. */
  ghost predicate DistinctPks(t: Keyed, rows: seq<Stored>) {
    forall i, j :: 0 <= i < j < |rows| ==> t.pk(rows[i].values) != t.pk(rows[j].values)
  }

  /** The rows by primary key. */
  function AsMap(t: Keyed, rows: seq<Stored>): map<string, Row> {
    if rows == [] then map[]
    else AsMap(t, rows[..|rows| - 1])[t.pk(rows[|rows| - 1].values) := rows[|rows| - 1].values]
  }

  /** An operation on a table as a map from primary keys to rows. */
  function Apply(t: Keyed, m: map<string, Row>, op: StagedOp): map<string, Row> {
    if op.table != t.name then m
    else
      match op
      case Insert(_, values) => m[t.pk(values) := values]
      case Update(_, oldPk, _, values) => (m - {oldPk})[t.pk(values) := values]
      case Delete(_, pk) => m - {pk}
      case Truncate(_) => map[]
  }

  function ApplyAll(t: Keyed, m: map<string, Row>, staged: seq<StagedOp>): map<string, Row> {
    if staged == [] then m else Apply(t, ApplyAll(t, m, staged[..|staged| - 1]), staged[|staged| - 1])
  }

  lemma {:induction false} WithoutHas(t: Keyed, rows: seq<Stored>, dropped: set<string>, r: Stored)
    ensures r in Without(t, rows, dropped) <==> r in rows && t.pk(r.values) !in dropped
    decreases |rows|
  {
    if rows != [] {
      var front, last := rows[..|rows| - 1], rows[|rows| - 1];
      WithoutHas(t, front, dropped, r);
      assert rows == front + [last];
    }
  }

  lemma {:induction false} WithoutDistinct(t: Keyed, rows: seq<Stored>, dropped: set<string>)
    requires DistinctPks(t, rows)
    ensures DistinctPks(t, Without(t, rows, dropped))
    decreases |rows|
  {
    if rows != [] {
      var front, last := rows[..|rows| - 1], rows[|rows| - 1];
      WithoutDistinct(t, front, dropped);
      var rest := Without(t, front, dropped);
      forall i | 0 <= i < |rest| ensures t.pk(rest[i].values) != t.pk(last.values) {
        assert rest[i] in rest;
        WithoutHas(t, front, dropped, rest[i]);
        var j :| 0 <= j < |front| && front[j] == rest[i];
      }
    }
  }

  lemma {:induction false} WithoutMap(t: Keyed, rows: seq<Stored>, dropped: set<string>)
    ensures AsMap(t, Without(t, rows, dropped)) == AsMap(t, rows) - dropped
    decreases |rows|
  {
    if rows != [] {
      var front, last := rows[..|rows| - 1], rows[|rows| - 1];
      WithoutMap(t, front, dropped);
      var rest, m, k := Without(t, front, dropped), AsMap(t, front), t.pk(last.values);
      if k in dropped {
        assert m[k := last.values] - dropped == m - dropped;
      } else {
        assert (rest + [last])[..|rest|] == rest;
        assert (m - dropped)[k := last.values] == m[k := last.values] - dropped;
      }
    }
  }

  /** A row put in the place of the rows it replaces. */
  lemma ReplacesRows(t: Keyed, rows: seq<Stored>, dropped: set<string>, r: Stored)
    requires DistinctPks(t, rows) && t.pk(r.values) in dropped
    ensures DistinctPks(t, Without(t, rows, dropped) + [r])
    ensures AsMap(t, Without(t, rows, dropped) + [r]) == (AsMap(t, rows) - dropped)[t.pk(r.values) := r.values]
  {
    var rest := Without(t, rows, dropped);
    WithoutDistinct(t, rows, dropped);
    WithoutMap(t, rows, dropped);
    forall i | 0 <= i < |rest| ensures t.pk(rest[i].values) != t.pk(r.values) {
      WithoutHas(t, rows, dropped, rest[i]);
    }
    assert (rest + [r])[..|rest|] == rest;
  }

  lemma ReplayOneRefines(t: Keyed, rows: seq<Stored>, op: StagedOp)
    requires DistinctPks(t, rows)
    ensures DistinctPks(t, ReplayOne(t, rows, op))
    ensures AsMap(t, ReplayOne(t, rows, op)) == Apply(t, AsMap(t, rows), op)
  {
    if op.table == t.name {
      var m := AsMap(t, rows);
      match op
      case Insert(_, values) =>
        var pk := t.pk(values);
        ReplacesRows(t, rows, {pk}, Stored(0, values));
        assert (m - {pk})[pk := values] == m[pk := values];
      case Update(_, oldPk, rowId, values) =>
        var pk := t.pk(values);
        ReplacesRows(t, rows, {oldPk, pk}, Stored(rowId, values));
        assert (m - {oldPk, pk})[pk := values] == (m - {oldPk})[pk := values];
      case Delete(_, pk) =>
        WithoutDistinct(t, rows, {pk});
        WithoutMap(t, rows, {pk});
      case Truncate(_) =>
    }
  }

  /** The row vector keeps primary keys distinct and stands for the table obtained by
      applying the staged inserts, updates, deletes and truncates in order. */
  lemma {:induction false} ReplayRefines(t: Keyed, rows: seq<Stored>, staged: seq<StagedOp>)
    requires DistinctPks(t, rows)
    ensures DistinctPks(t, Replay(t, rows, staged))
    ensures AsMap(t, Replay(t, rows, staged)) == ApplyAll(t, AsMap(t, rows), staged)
    decreases |staged|
  {
    if staged != [] {
      var front := staged[..|staged| - 1];
      ReplayRefines(t, rows, front);
      ReplayOneRefines(t, Replay(t, rows, front), staged[|staged| - 1]);
    }
  }

  /** A row is in the vector exactly when the table maps its primary key to it. */
  lemma {:induction false} InAsMap(t: Keyed, rows: seq<Stored>, pk: string, values: Row)
    requires DistinctPks(t, rows)
    ensures (pk in AsMap(t, rows) && AsMap(t, rows)[pk] == values) <==>
            exists r :: r in rows && r.values == values && t.pk(r.values) == pk
    decreases |rows|
  {
    if rows != [] {
      var front, last := rows[..|rows| - 1], rows[|rows| - 1];
      InAsMap(t, front, pk, values);
      LastPkDiffers(t, rows);
      assert forall r :: r in rows <==> r in front || r == last by {
        assert rows == front + [last];
      }
    }
  }

  lemma LastPkDiffers(t: Keyed, rows: seq<Stored>)
    requires DistinctPks(t, rows) && rows != []
    ensures forall r :: r in rows[..|rows| - 1] ==> t.pk(r.values) != t.pk(rows[|rows| - 1].values)
  {
    var front := rows[..|rows| - 1];
    forall r | r in front ensures t.pk(r.values) != t.pk(rows[|rows| - 1].values) {
      var i :| 0 <= i < |front| && front[i] == r;
      assert rows[i] == r;
    }
  }

  // ── the second look at the staged rows ───────────────────────────────────

  /** `staged_row_exists`: does the staging, replayed on its own, hold a row of this key?
      It does not take an update's old key away. */
  function StagedRowExists(t: Keyed, staged: seq<StagedOp>, pk: string): bool {
    if staged == [] then false
    else
      var op := staged[|staged| - 1];
      var before := StagedRowExists(t, staged[..|staged| - 1], pk);
      if op.table != t.name then before
      else
        match op
        case Insert(_, values) => before || t.pk(values) == pk
        case Update(_, _, _, values) => before || t.pk(values) == pk
        case Delete(_, gone) => before && gone != pk
        case Truncate(_) => false
  }

  lemma {:induction false} StagedIsStaged(t: Keyed, staged: seq<StagedOp>, pk: string)
    ensures StagedRowExists(t, staged, pk) ==> HasStagedFor(staged, t.name)
    decreases |staged|
  {
    if staged != [] {
      var front := staged[..|staged| - 1];
      StagedIsStaged(t, front, pk);
      assert forall op :: op in front ==> op in staged;
      assert staged[|staged| - 1] in staged;
    }
  }

  /** Updates of the table keep the primary key. */
  predicate KeepsPks(t: Keyed, staged: seq<StagedOp>) {
    forall k :: 0 <= k < |staged| && staged[k].table == t.name && staged[k].Update? ==>
      staged[k].oldPk == t.pk(staged[k].values)
  }

  /** When updates keep primary keys, the second look adds nothing: what it finds is
      visible in the overlay already. */
  lemma {:induction false} StagedIsVisible(t: Keyed, m: map<string, Row>, staged: seq<StagedOp>, pk: string)
    requires KeepsPks(t, staged)
    ensures StagedRowExists(t, staged, pk) ==> pk in ApplyAll(t, m, staged)
    decreases |staged|
  {
    if staged != [] {
      var front := staged[..|staged| - 1];
      assert staged[|staged| - 1] == staged[|staged| - 1];
      StagedIsVisible(t, m, front, pk);
    }
  }

  /** The update moves the row of this key to another one. */
  predicate MovesAway(t: Keyed, op: StagedOp, pk: string) {
    op.table == t.name && op.Update? && op.oldPk == pk && t.pk(op.values) != pk
  }

  /** The operation stages a row of this key, or takes it away for the second look as well. */
  predicate Settles(t: Keyed, op: StagedOp, pk: string) {
    op.table == t.name &&
    match op
    case Insert(_, values) => t.pk(values) == pk
    case Update(_, _, _, values) => t.pk(values) == pk
    case Delete(_, gone) => gone == pk
    case Truncate(_) => true
  }

  /** A staged row has been moved away from this key by operation `i`, and nothing has settled
      the matter since. */
  predicate MovedAt(t: Keyed, staged: seq<StagedOp>, pk: string, i: nat) {
    && i < |staged|
    && MovesAway(t, staged[i], pk)
    && StagedRowExists(t, staged[..i], pk)
    && forall j :: i < j < |staged| ==> !Settles(t, staged[j], pk)
  }

  predicate StillCounts(t: Keyed, staged: seq<StagedOp>, pk: string) {
    exists i :: 0 <= i < |staged| && MovedAt(t, staged, pk, i)
  }

  lemma MovedBefore(t: Keyed, staged: seq<StagedOp>, pk: string, i: nat)
    requires i + 1 < |staged|
    ensures var last := |staged| - 1;
            MovedAt(t, staged, pk, i) <==> MovedAt(t, staged[..last], pk, i) && !Settles(t, staged[last], pk)
  {
    var last := |staged| - 1;
    var front := staged[..last];
    assert front[..i] == staged[..i] && front[i] == staged[i];
    assert forall j :: i < j < last ==> front[j] == staged[j];
  }

  /** The second look finds a row that is gone exactly when a row the transaction had staged
      under this key was moved to another one, and no later operation has staged, deleted or
      truncated the key: a snapshot's row that is moved does no harm. */
  lemma {:induction false} MovedRowCountsExactly(t: Keyed, m: map<string, Row>, staged: seq<StagedOp>, pk: string)
    ensures StagedRowExists(t, staged, pk) && pk !in ApplyAll(t, m, staged) <==> StillCounts(t, staged, pk)
    decreases |staged|
  {
    if staged != [] {
      var last := |staged| - 1;
      var front, op := staged[..last], staged[last];
      MovedRowCountsExactly(t, m, front, pk);
      forall i: nat | i < last ensures MovedAt(t, staged, pk, i) <==> MovedAt(t, front, pk, i) && !Settles(t, op, pk) {
        MovedBefore(t, staged, pk, i);
      }
      assert MovedAt(t, staged, pk, last) <==> MovesAway(t, op, pk) && StagedRowExists(t, front, pk);
    }
  }
}
