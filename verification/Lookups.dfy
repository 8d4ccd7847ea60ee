/** Looking rows up by the values of their primary key: the scan of a table with staged
    operations, and the engine's indexes otherwise, against the row of that encoded key. */
module Lookups {
  import opened Lists
  import opened Strings
  import opened Values
  import opened Schema
  import opened Overlay
  import opened Planner
  import opened Rules
  import opened Guards
  import opened Operations
  import opened Keeping
  import Bytes
  import Keys
  import Query
  import Pushdown

  // ── the code ─────────────────────────────────────────────────────────────

  /** `pk_conditions`: the index of a one-column key, or a bitmap test of each column. */
  function KeyConditions(t: Table, columns: seq<string>, key: Row): Option<seq<Query.Condition>> {
    if columns == [] then Some([])
    else
      match (t.Col(columns[0]), Query.ValueKey(Get(key, columns[0])), KeyConditions(t, columns[1..], key))
      case (Some(col), Some(k), Some(rest)) =>
        Some([if |t.primaryKey| == 1 then Query.Pk(k) else Query.BitmapEq(col.id, k)] + rest)
      case _ => None
  }

  function PkConditions(t: Table, key: Row): Option<seq<Query.Condition>> {
    if t.primaryKey == [] then None else KeyConditions(t, t.primaryKey, key)
  }

  /** The engine answers conditions on keys with exactly the rows that meet them. */
  ghost function Meets(t: Table, cs: seq<Query.Condition>): Row -> bool {
    (row: Row) => forall c :: c in cs ==> Query.EngineMeans(t, row, c)
  }

  /** The rows a lookup looks through. */
  ghost function Candidates(t: Table, snapshot: seq<Stored>, staged: seq<StagedOp>, key: Row): seq<Row> {
    if HasStagedFor(staged, t.name) then ValuesOf(Replay(KeyedBy(t), snapshot, staged))
    else
      match PkConditions(t, key)
      case Some(cs) => Keep(ValuesOf(snapshot), Meets(t, cs))
      case None => ValuesOf(snapshot)
  }

  /** `iter().find(..)` */
  function FindMatch(t: Table, rows: seq<Row>, key: Row): Option<Row> {
    if rows == [] then None else if PkMatches(t, rows[0], key) then Some(rows[0]) else FindMatch(t, rows[1..], key)
  }

  /** `get_by_pk_internal` */
  ghost function GetByPk(t: Table, snapshot: seq<Stored>, staged: seq<StagedOp>, key: Row): Option<Row> {
    FindMatch(t, Candidates(t, snapshot, staged, key), key)
  }

  /** `parent_exists`: what the engine returns is not compared with the key again. */
  ghost predicate ParentExists(t: Table, snapshot: seq<Stored>, staged: seq<StagedOp>, key: Row) {
    if !HasStagedFor(staged, t.name) && PkConditions(t, key).Some? then Candidates(t, snapshot, staged, key) != []
    else GetByPk(t, snapshot, staged, key).Some?
  }

  // ── conditions on keys ───────────────────────────────────────────────────

  lemma {:induction false} KeyConditionsAre(t: Table, columns: seq<string>, key: Row)
    requires forall c :: c in columns ==> t.Col(c).Some?
    ensures KeyConditions(t, columns, key).None? <==> exists c :: c in columns && Get(key, c) == Null
    ensures KeyConditions(t, columns, key).Some? ==>
              forall cond :: cond in KeyConditions(t, columns, key).value <==>
                exists c :: c in columns && Query.ValueKey(Get(key, c)).Some?
                            && cond == ColumnCondition(t, c, Query.ValueKey(Get(key, c)).value)
  {
    if columns != [] {
      KeyConditionsAre(t, columns[1..], key);
      assert forall c :: c in columns <==> c == columns[0] || c in columns[1..];
    }
  }

  function ColumnCondition(t: Table, c: string, k: seq<Bytes.Byte>): Query.Condition
    requires t.Col(c).Some?
  {
    if |t.primaryKey| == 1 then Query.Pk(k) else Query.BitmapEq(t.Col(c).value.id, k)
  }

  /** One condition on a key column holds exactly when the cell has the key's index key and
      the engine has an index to tell. */
  lemma ColumnConditionMeans(t: Table, c: string, k: seq<Bytes.Byte>, row: Row)
    requires Pushdown.DistinctColumns(t) && c in t.primaryKey && t.Col(c).Some?
    ensures Query.EngineMeans(t, row, ColumnCondition(t, c, k))
       <==> Query.ValueKey(Get(row, c)) == Some(k) && (|t.primaryKey| == 1 || RealBitmap(t, c))
  {
    Pushdown.CellOfColumn(t, row, c);
    var col := t.Col(c).value;
    assert forall d :: d in t.columns && d.id == col.id ==> d == col;
    if |t.primaryKey| == 1 {
      assert t.primaryKey[0] == c;
    }
  }

  /** The engine returns a typed row for a typed key without nulls exactly when the keys
      agree and the lookup is answered. */
  lemma MeetsExactly(t: Table, row: Row, key: Row)
    requires Pushdown.DistinctColumns(t) && PkTyped(t, row) && PkTyped(t, key)
    requires t.primaryKey != [] && PkConditions(t, key).Some?
    ensures Meets(t, PkConditions(t, key).value)(row) <==> PkMatches(t, row, key) && Answering(t)
  {
    var cs := PkConditions(t, key).value;
    KeyConditionsAre(t, t.primaryKey, key);
    forall c | c in t.primaryKey
      ensures Query.ValueKey(Get(key, c)).Some?
      ensures var cond := ColumnCondition(t, c, Query.ValueKey(Get(key, c)).value);
              && cond in cs
              && (Query.EngineMeans(t, row, cond) <==> Get(row, c) == Get(key, c) && (|t.primaryKey| == 1 || RealBitmap(t, c)))
    {
      assert Get(key, c) != Null;
      var k := Query.ValueKey(Get(key, c)).value;
      ColumnConditionMeans(t, c, k, row);
      if Query.ValueKey(Get(row, c)) == Some(k) {
        Pushdown.KeyInjective(Get(row, c), Get(key, c), t.Col(c).value.storageType);
      }
    }
    assert t.primaryKey[0] in t.primaryKey;
    if PkMatches(t, row, key) && Answering(t) {
      forall cond | cond in cs ensures Query.EngineMeans(t, row, cond) {
        var c :| c in t.primaryKey && cond == ColumnCondition(t, c, Query.ValueKey(Get(key, c)).value);
      }
    }
  }

  // ── the row that is found ────────────────────────────────────────────────

  lemma {:induction false} FindMatchIs(t: Table, rows: seq<Row>, key: Row)
    ensures FindMatch(t, rows, key).None? ==> forall row :: row in rows ==> !PkMatches(t, row, key)
    ensures FindMatch(t, rows, key).Some? ==>
              FindMatch(t, rows, key).value in rows && PkMatches(t, FindMatch(t, rows, key).value, key)
  {
    if rows != [] {
      FindMatchIs(t, rows[1..], key);
    }
  }

  /** The rows of a table by encoded key: what is looked through stands for the map. */
  ghost predicate StandFor(t: Table, rows: seq<Row>, m: map<string, Row>) {
    && (forall row :: row in rows <==> EncodedPk(t, row) in m && m[EncodedPk(t, row)] == row)
    && (forall k :: k in m ==> EncodedPk(t, m[k]) == k && PkTyped(t, m[k]) && PkWhole(t, m[k]))
  }

  /** Among rows that stand for the map, the match is the row of the encoded key. */
  lemma MatchIsByKey(t: Table, rows: seq<Row>, m: map<string, Row>, key: Row)
    requires StandFor(t, rows, m)
    ensures PkTyped(t, key) ==>
              FindMatch(t, rows, key) == if EncodedPk(t, key) in m then Some(m[EncodedPk(t, key)]) else None
    ensures !PkTyped(t, key) ==> FindMatch(t, rows, key) == None
  {
    var k := EncodedPk(t, key);
    FindMatchIs(t, rows, key);
    forall row | row in rows ensures PkMatches(t, row, key) <==> PkTyped(t, key) && EncodedPk(t, row) == k {
      if PkTyped(t, key) {
        PkMatchesIsSameKey(t, row, key);
      }
    }
    if PkTyped(t, key) && k in m {
      assert m[k] in rows;
    }
  }

  lemma MatchIn(t: Table, rows: seq<Row>, kept: seq<Row>, m: map<string, Row>, key: Row)
    requires StandFor(t, rows, m)
    requires forall row :: row in kept <==> row in rows && PkMatches(t, row, key)
    ensures FindMatch(t, kept, key) == FindMatch(t, rows, key)
    ensures kept != [] <==> FindMatch(t, rows, key).Some?
  {
    FindMatchIs(t, rows, key);
    FindMatchIs(t, kept, key);
    if kept != [] {
      assert kept[0] in kept;
    }
    forall a, b | a in rows && b in rows && PkMatches(t, a, key) && PkMatches(t, b, key) ensures a == b {
      assert PkMatches(t, a, b);
      PkMatchesIsSameKey(t, a, b);
    }
  }

  /** Both lookups find the row of the encoded key, if the key is typed, and exactly if the
      lookup is answered: in a table with staged operations, by a key of one column, or by a
      composite key whose columns all have bitmaps. */
  lemma LookupFindsByKey(t: Table, snapshot: seq<Stored>, staged: seq<StagedOp>, key: Row, m: map<string, Row>)
    requires Pushdown.DistinctColumns(t) && (forall c :: c in t.primaryKey ==> t.Col(c).Some?)
    requires StandFor(t, ValuesOf(Replay(KeyedBy(t), snapshot, staged)), m)
    ensures GetByPk(t, snapshot, staged, key) ==
              if PkTyped(t, key) && EncodedPk(t, key) in m && (HasStagedFor(staged, t.name) || Answering(t))
              then Some(m[EncodedPk(t, key)]) else None
    ensures PkTyped(t, key) ==>
              (ParentExists(t, snapshot, staged, key) <==> GetByPk(t, snapshot, staged, key).Some?)
  {
    var rows := ValuesOf(Replay(KeyedBy(t), snapshot, staged));
    MatchIsByKey(t, rows, m, key);
    if !HasStagedFor(staged, t.name) {
      ReplayNothing(KeyedBy(t), snapshot, staged);
      if PkConditions(t, key).Some? {
        ProbeFindsByKey(t, rows, key, m);
      } else {
        NoConditionsNoMatch(t, rows, key, m);
      }
    }
  }

  lemma ProbeFindsByKey(t: Table, rows: seq<Row>, key: Row, m: map<string, Row>)
    requires Pushdown.DistinctColumns(t) && (forall c :: c in t.primaryKey ==> t.Col(c).Some?)
    requires StandFor(t, rows, m) && PkConditions(t, key).Some?
    ensures var kept := Keep(rows, Meets(t, PkConditions(t, key).value));
            && FindMatch(t, kept, key) == (if Answering(t) then FindMatch(t, rows, key) else None)
            && (PkTyped(t, key) ==> (kept != [] <==> FindMatch(t, kept, key).Some?))
  {
    var meets := Meets(t, PkConditions(t, key).value);
    var kept := Keep(rows, meets);
    forall row ensures row in kept <==> row in rows && meets(row) {
      KeepHas(rows, meets, row);
    }
    FindMatchIs(t, kept, key);
    FindMatchIs(t, rows, key);
    assert kept == [] || kept[0] in kept;
    if PkTyped(t, key) {
      forall row | row in rows ensures meets(row) <==> PkMatches(t, row, key) && Answering(t) {
        MeetsExactly(t, row, key);
      }
      if Answering(t) {
        MatchIn(t, rows, kept, m, key);
      }
    } else {
      forall row | row in rows ensures !PkMatches(t, row, key) {
      }
    }
  }

  /** A key with a null is of no row; a key of no columns is looked up by scanning. */
  lemma NoConditionsNoMatch(t: Table, rows: seq<Row>, key: Row, m: map<string, Row>)
    requires (forall c :: c in t.primaryKey ==> t.Col(c).Some?) && StandFor(t, rows, m)
    requires PkConditions(t, key).None?
    ensures !Answering(t) ==> FindMatch(t, rows, key) == None
  {
    KeyConditionsAre(t, t.primaryKey, key);
    FindMatchIs(t, rows, key);
  }

  // ── the same lookups as operations on a transaction ──────────────────────

  /** The rows the engine has for the table at the snapshot. */
  ghost predicate SnapshotOf(t: Table, s: Store, snapshot: seq<Stored>) {
    DistinctPks(KeyedBy(t), snapshot) && AsMap(KeyedBy(t), snapshot) == TableOf(s, t.name)
  }

  lemma {:induction false} SameKeyed(a: Keyed, b: Keyed, m: map<string, Row>, staged: seq<StagedOp>)
    requires a.name == b.name && forall row :: a.pk(row) == b.pk(row)
    ensures ApplyAll(a, m, staged) == ApplyAll(b, m, staged)
    decreases |staged|
  {
    if staged != [] {
      SameKeyed(a, b, m, staged[..|staged| - 1]);
    }
  }

  lemma ReadsAsScanned(tables: seq<Table>, valid: (string, Row) -> bool, x: Txn, t: Table, snapshot: seq<Stored>)
    requires FindTable(tables, t.name) == Some(t) && SnapshotOf(t, x.snapshot, snapshot)
    ensures ApplyAll(KeyedBy(t), AsMap(KeyedBy(t), snapshot), x.staged) == Reads(KitRules(tables, valid), x, t.name)
  {
    var rules := KitRules(tables, valid);
    SameKeyed(KeyedBy(t), KeyedAs(rules, t.name), TableOf(x.snapshot, t.name), x.staged);
  }

  /** The scanned rows stand for the rows the transaction reads. */
  lemma ScanStandsFor(tables: seq<Table>, valid: (string, Row) -> bool, x: Txn, t: Table, snapshot: seq<Stored>)
    requires InScope(tables, valid) && Local(KitRules(tables, valid), x)
    requires FindTable(tables, t.name) == Some(t) && SnapshotOf(t, x.snapshot, snapshot)
    ensures StandFor(t, ValuesOf(Replay(KeyedBy(t), snapshot, x.staged)), Reads(KitRules(tables, valid), x, t.name))
  {
    var rules, k := KitRules(tables, valid), KeyedBy(t);
    var m, stored := Reads(rules, x, t.name), Replay(k, snapshot, x.staged);
    ReplayRefines(k, snapshot, x.staged);
    ReadsAsScanned(tables, valid, x, t, snapshot);
    forall row ensures row in ValuesOf(stored) <==> EncodedPk(t, row) in m && m[EncodedPk(t, row)] == row {
      InAsMap(k, stored, k.pk(row), row);
      InValues(stored, row);
    }
    forall pk | pk in m ensures EncodedPk(t, m[pk]) == pk && PkTyped(t, m[pk]) && PkWhole(t, m[pk]) {
      assert FaithfulAt(rules, x, RowRef(t.name, pk));
    }
  }

  lemma InValues(stored: seq<Stored>, row: Row)
    ensures row in ValuesOf(stored) <==> exists r :: r in stored && r.values == row
  {
    if row in ValuesOf(stored) {
      var i :| 0 <= i < |ValuesOf(stored)| && ValuesOf(stored)[i] == row;
      assert stored[i] in stored;
    }
    if r :| r in stored && r.values == row {
      var i :| 0 <= i < |stored| && stored[i] == r;
      assert ValuesOf(stored)[i] == row;
    }
  }

  /** `get_by_pk_internal` on values is `Lookup` on the encoded key. */
  lemma LookupRefines(tables: seq<Table>, valid: (string, Row) -> bool, x: Txn, t: Table, snapshot: seq<Stored>, key: Row)
    requires InScope(tables, valid) && Local(KitRules(tables, valid), x) && Pushdown.DistinctColumns(t)
    requires FindTable(tables, t.name) == Some(t) && SnapshotOf(t, x.snapshot, snapshot)
    ensures GetByPk(t, snapshot, x.staged, key) ==
              if PkTyped(t, key) then Lookup(KitRules(tables, valid), x, RowRef(t.name, EncodedPk(t, key))) else None
    ensures PkTyped(t, key) ==>
              (ParentExists(t, snapshot, x.staged, key)
               <==> Lookup(KitRules(tables, valid), x, RowRef(t.name, EncodedPk(t, key))).Some?)
  {
    ScanStandsFor(tables, valid, x, t, snapshot);
    LookupFindsByKey(t, snapshot, x.staged, key, Reads(KitRules(tables, valid), x, t.name));
    LookupUnfolds(tables, valid, x, t, EncodedPk(t, key));
  }

  lemma LookupUnfolds(tables: seq<Table>, valid: (string, Row) -> bool, x: Txn, t: Table, pk: string)
    requires FindTable(tables, t.name) == Some(t)
    ensures var rules := KitRules(tables, valid);
            var m := Reads(rules, x, t.name);
            Lookup(rules, x, RowRef(t.name, pk)) ==
              if pk in m && (HasStagedFor(x.staged, t.name) || Answering(t)) then Some(m[pk]) else None
  {
  }

  /** A row that is there is found by its own key exactly when the table has staged
      operations, its key has one column, or every key column has a bitmap. Otherwise update
      and delete answer that there is no such row, and a foreign key to it is refused. */
  lemma VisibleRowFoundExactly(tables: seq<Table>, valid: (string, Row) -> bool, x: Txn, t: Table, snapshot: seq<Stored>, r: RowRef)
    requires InScope(tables, valid) && Local(KitRules(tables, valid), x) && Pushdown.DistinctColumns(t)
    requires FindTable(tables, t.name) == Some(t) && SnapshotOf(t, x.snapshot, snapshot)
    requires r.table == t.name && r in View(x).rows
    ensures GetByPk(t, snapshot, x.staged, View(x).rows[r]).Some? <==> HasStagedFor(x.staged, t.name) || Answering(t)
  {
    var rules := KitRules(tables, valid);
    LookupRefines(tables, valid, x, t, snapshot, View(x).rows[r]);
    LookupIsView(rules, x, r);
    assert rules.pk(t.name, View(x).rows[r]) == r.pk && valid(t.name, View(x).rows[r]);
  }

  // ── parents by the values of a foreign key ───────────────────────────────

  /** `parent_pk_value` and `pk_to_map`: the parent's key columns with the child's values. */
  function ParentValues(parent: Table, fk: ForeignKey, row: Row): Row
    requires DistinctKey(parent)
  {
    map k | 0 <= k < |parent.primaryKey| && k < |fk.columns| :: parent.primaryKey[k] := Get(row, fk.columns[k])
  }

  predicate DistinctKey(t: Table) {
    forall i, j :: 0 <= i < j < |t.primaryKey| ==> t.primaryKey[i] != t.primaryKey[j]
  }

  lemma ParentValuesAre(parent: Table, fk: ForeignKey, row: Row)
    requires DistinctKey(parent) && FkTyped(parent, fk, row)
    ensures PkTyped(parent, ParentValues(parent, fk, row))
    ensures EncodedPk(parent, ParentValues(parent, fk, row)) == Keys.EncodePk(ParentComponents(parent, fk, row))
  {
    var key := ParentValues(parent, fk, row);
    forall k | 0 <= k < |parent.primaryKey| ensures Get(key, parent.primaryKey[k]) == Get(row, fk.columns[k]) {
      assert parent.primaryKey[k] in key;
    }
    forall c | c in parent.primaryKey ensures parent.Col(c).Some? && Fits(Get(key, c), parent.Col(c).value.storageType) {
      var k :| 0 <= k < |parent.primaryKey| && parent.primaryKey[k] == c;
    }
    assert PkComponents(parent, key) == ParentComponents(parent, fk, row);
  }

  /** `check_foreign_keys` looks the parent up by value, and finds it exactly when the
      operation on encoded keys does. */
  lemma ParentLookupRefines(tables: seq<Table>, valid: (string, Row) -> bool, x: Txn, parent: Table, snapshot: seq<Stored>,
                            t: Table, fk: ForeignKey, row: Row)
    requires InScope(tables, valid) && Local(KitRules(tables, valid), x)
    requires Pushdown.DistinctColumns(parent) && DistinctKey(parent)
    requires t in tables && fk in t.foreignKeys && valid(t.name, row) && !FkNull(fk, row)
    requires FindTable(tables, fk.referencesTable) == Some(parent) && SnapshotOf(parent, x.snapshot, snapshot)
    ensures ParentKey(tables, fk, row).Some?
    ensures ParentExists(parent, snapshot, x.staged, ParentValues(parent, fk, row))
       <==> Lookup(KitRules(tables, valid), x, RowRef(parent.name, ParentKey(tables, fk, row).value)).Some?
  {
    assert FksTyped(tables, t, row);
    ParentValuesAre(parent, fk, row);
    LookupRefines(tables, valid, x, parent, snapshot, ParentValues(parent, fk, row));
  }
}
