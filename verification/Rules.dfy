/** The relational rules of a schema: which row a foreign key points at, and which keys of
    `__kit_unique_keys` belong to a row. */
module Rules {
  import opened Strings
  import opened Values
  import opened Schema
  import opened Overlay
  import opened Planner
  import Keys

  // ── the code's key builders ──────────────────────────────────────────────

  /** The components of a unique key; none if a column is unknown or null. */
  function UniqueComponents(t: Table, columns: seq<string>, row: Row): Option<seq<Keys.KeyComponent>> {
    if columns == [] then Some([])
    else
      match t.Col(columns[0])
      case None => None
      case Some(col) =>
        if KeyComponentOf(col, Get(row, columns[0])) == Keys.Null then None
        else
          match UniqueComponents(t, columns[1..], row)
          case None => None
          case Some(rest) => Some([KeyComponentOf(col, Get(row, columns[0]))] + rest)
  }

  /** `unique_key` */
  function UniqueKey(t: Table, uq: UniqueConstraint, row: Row): Option<string> {
    match UniqueComponents(t, uq.columns, row)
    case None => None
    case Some(cs) => Some(Keys.EncodeUniqueKey(Keys.KIT_KEY_VERSION, uq.name, cs))
  }

  /** `fk_values_null` */
  predicate FkNull(fk: ForeignKey, row: Row) {
    exists c :: c in fk.columns && Get(row, c) == Null
  }

  /** `parent_pk_components`: child columns zipped with the parent's primary key. */
  function ParentComponents(parent: Table, fk: ForeignKey, row: Row): seq<Keys.KeyComponent> {
    var n := if |fk.columns| <= |parent.primaryKey| then |fk.columns| else |parent.primaryKey|;
    seq(n, k requires 0 <= k < n =>
      match parent.Col(parent.primaryKey[k])
      case None => Keys.Null
      case Some(col) => KeyComponentOf(col, Get(row, fk.columns[k])))
  }

  /** The encoded primary key of the row a foreign key points at. */
  function ParentKey(tables: seq<Table>, fk: ForeignKey, row: Row): Option<string> {
    if FkNull(fk, row) then None
    else
      match FindTable(tables, fk.referencesTable)
      case None => None
      case Some(parent) => Some(Keys.EncodePk(ParentComponents(parent, fk, row)))
  }

  /** The guard of a composite primary key is kept like a unique constraint. */
  function PkConstraint(t: Table): UniqueConstraint {
    UniqueConstraint("__pk_" + t.name, t.primaryKey)
  }

  function AllConstraints(t: Table): seq<UniqueConstraint> {
    t.uniqueConstraints + if |t.primaryKey| >= 2 then [PkConstraint(t)] else []
  }

  /** The columns of a set-null update, nulled. */
  function NullOut(row: Row, columns: seq<string>): Row {
    row + map c | c in columns :: Null
  }

  /** The engine answers a lookup by primary key: a key of one column has an index of its own,
      the columns of a composite key need a bitmap each. */
  predicate Answering(t: Table) {
    |t.primaryKey| <= 1 || forall c :: c in t.primaryKey ==> RealBitmap(t, c)
  }

  // ── the rules the protocol runs on ───────────────────────────────────────

  /** The schema with its key builders as values. */
  datatype Rules = Rules(
    tables: seq<Table>,
    pk: (string, Row) -> string,
    parent: (ForeignKey, Row) -> Option<string>,
    key: (string, UniqueConstraint, Row) -> Option<string>,
    valid: (string, Row) -> bool
  ) {
    function ForeignKeys(table: string): seq<ForeignKey> {
      match FindTable(tables, table) case None => [] case Some(t) => t.foreignKeys
    }

    /** The declared unique constraints. */
    function Declared(table: string): seq<UniqueConstraint> {
      match FindTable(tables, table) case None => [] case Some(t) => t.uniqueConstraints
    }

    /** The constraints guarded by rows of `__kit_unique_keys`. */
    function Guarded(table: string): seq<UniqueConstraint> {
      match FindTable(tables, table) case None => [] case Some(t) => AllConstraints(t)
    }

    predicate Nullable(table: string, column: string) {
      match FindTable(tables, table)
      case None => false
      case Some(t) => match t.Col(column) case None => false case Some(c) => c.nullable
    }

    /** A row of `table` points at `p` through `fk`. */
    predicate References(table: string, row: Row, fk: ForeignKey, p: RowRef) {
      fk in ForeignKeys(table) && fk.referencesTable == p.table && parent(fk, row) == Some(p.pk)
    }

    /** `k` is the row's key under the constraint named `c`. */
    predicate HasKey(table: string, row: Row, c: string, k: string) {
      exists uq :: uq in Guarded(table) && uq.name == c && key(table, uq, row) == Some(k)
    }

    /** Some table has a foreign key to `table`. */
    predicate Referenced(table: string) {
      exists t :: t in tables && exists fk :: fk in t.foreignKeys && fk.referencesTable == table
    }

    /** The guard of a composite primary key. */
    function PkGuard(table: string): Option<UniqueConstraint> {
      match FindTable(tables, table)
      case None => None
      case Some(t) => if |t.primaryKey| >= 2 then Some(PkConstraint(t)) else None
    }

    predicate SingleKey(table: string) {
      match FindTable(tables, table) case None => false case Some(t) => |t.primaryKey| == 1
    }

    predicate Known(table: string) {
      FindTable(tables, table).Some?
    }

    /** Another table has a foreign key to `table`. */
    predicate Inbound(table: string) {
      exists t :: t in tables && t.name != table && exists fk :: fk in t.foreignKeys && fk.referencesTable == table
    }

    predicate Answers(table: string) {
      match FindTable(tables, table) case None => false case Some(t) => Answering(t)
    }

    /** The tables whose updates skip checks and guards. */
    predicate FastUpdates(table: string) {
      FastDeletes(table) && FindTable(tables, table).Some? && !FindTable(tables, table).value.checked
    }

    /** The tables whose deletes skip planning and guards. */
    predicate FastDeletes(table: string) {
      SingleKey(table) && Declared(table) == [] && !Inbound(table)
    }

    /** The rows have the same primary key, references and unique keys. */
    predicate Alike(table: string, a: Row, b: Row) {
      && pk(table, a) == pk(table, b)
      && (forall fk :: fk in ForeignKeys(table) ==> parent(fk, a) == parent(fk, b))
      && (forall uq :: uq in Guarded(table) ==> key(table, uq, a) == key(table, uq, b))
    }

    /** Keys tell the constraints of all tables apart. */
    ghost predicate KeysApart() {
      && (forall t, a, c, u, b, d, k :: HasKey(t, a, c, k) && HasKey(u, b, d, k) ==> t == u && c == d)
      && (forall t, uq, ur :: uq in Guarded(t) && ur in Guarded(t) && uq.name == ur.name ==> uq == ur)
    }

    /** The key of the primary-key guard stands for the primary key. */
    ghost predicate PkGuarded() {
      && (forall t, a, b :: PkGuard(t).Some? && pk(t, a) == pk(t, b) ==>
            key(t, PkGuard(t).value, a) == key(t, PkGuard(t).value, b))
      && (forall t, a, b ::
            PkGuard(t).Some? && key(t, PkGuard(t).value, a).Some? && key(t, PkGuard(t).value, a) == key(t, PkGuard(t).value, b) ==>
              pk(t, a) == pk(t, b))
    }

    /** Nulling columns takes references and keys away and adds none. */
    ghost predicate NullingShrinks() {
      && (forall fk, row, columns, q :: parent(fk, NullOut(row, columns)) == Some(q) ==> parent(fk, row) == Some(q))
      && (forall t, uq, row, columns, k :: key(t, uq, NullOut(row, columns)) == Some(k) ==> key(t, uq, row) == Some(k))
      && (forall t, fk, row :: fk in ForeignKeys(t) ==> parent(fk, NullOut(row, fk.columns)) == None)
      && (forall t, row, columns :: (forall c :: c in columns ==> Nullable(t, c)) ==>
            pk(t, NullOut(row, columns)) == pk(t, row))
    }

    /** A valid row has its whole primary key. */
    ghost predicate PkPresent() {
      forall t, row :: valid(t, row) && PkGuard(t).Some? ==> key(t, PkGuard(t).value, row).Some?
    }

    ghost predicate WellFormed() {
      && DistinctTables(tables)
      && KeysApart()
      && PkGuarded()
      && PkPresent()
      && NullingShrinks()
      && (forall t, fk :: fk in ForeignKeys(t) ==> fk.referencesTable != t)
    }
  }

  lemma ReferencedBy(rules: Rules, table: string, row: Row, fk: ForeignKey, p: RowRef)
    requires rules.References(table, row, fk, p)
    ensures rules.Referenced(p.table)
  {
    var t := FindTable(rules.tables, table).value;
    assert t in rules.tables && fk in t.foreignKeys && fk.referencesTable == p.table;
  }

  lemma UnreferencedBy(rules: Rules, table: string, row: Row, fk: ForeignKey, p: RowRef)
    requires !rules.Referenced(p.table)
    ensures !rules.References(table, row, fk, p)
  {
    if rules.References(table, row, fk, p) {
      ReferencedBy(rules, table, row, fk, p);
    }
  }

  function KitRules(tables: seq<Table>, valid: (string, Row) -> bool): Rules {
    Rules(
      tables,
      (name, row) => match FindTable(tables, name) case None => "" case Some(t) => EncodedPk(t, row),
      (fk, row) => ParentKey(tables, fk, row),
      (name, uq, row) => match FindTable(tables, name) case None => None case Some(t) => UniqueKey(t, uq, row),
      valid
    )
  }

  // ── what validation lets through ─────────────────────────────────────────

  /** The primary-key cells hold values of their columns' types. */
  predicate PkTyped(t: Table, row: Row) {
    forall c :: c in t.primaryKey ==> t.Col(c).Some? && Fits(Get(row, c), t.Col(c).value.storageType)
  }

  predicate PkWhole(t: Table, row: Row) {
    forall c :: c in t.primaryKey ==> Get(row, c) != Null
  }

  /** A foreign key as wide as the parent's key, whose cells hold values of its types. */
  predicate FkTyped(parent: Table, fk: ForeignKey, row: Row) {
    && |fk.columns| == |parent.primaryKey|
    && forall k :: 0 <= k < |fk.columns| ==>
         && parent.Col(parent.primaryKey[k]).Some?
         && Fits(Get(row, fk.columns[k]), parent.Col(parent.primaryKey[k]).value.storageType)
  }

  predicate FksTyped(tables: seq<Table>, t: Table, row: Row) {
    forall fk :: fk in t.foreignKeys && FindTable(tables, fk.referencesTable).Some? ==>
      FkTyped(FindTable(tables, fk.referencesTable).value, fk, row)
  }

  /** A row that passes validation has its whole primary key, and key cells of their columns'
      types. */
  ghost predicate TypedRows(tables: seq<Table>, valid: (string, Row) -> bool) {
    forall t, row: Row :: t in tables && valid(t.name, row) ==> PkTyped(t, row) && PkWhole(t, row) && FksTyped(tables, t, row)
  }

  /** The schemas the protocol theorems are about: table names and guarded constraint names
      are free of colons, the latter distinct across tables, no foreign key references its own
      table, primary-key columns are not nullable, and validation lets only typed rows
      through. */
  ghost predicate InScope(tables: seq<Table>, valid: (string, Row) -> bool) {
    && DistinctTables(tables)
    && (forall t :: t in tables ==> ':' !in t.name)
    && TypedRows(tables, valid)
    && ConstraintsApart(tables)
    && (forall t, fk :: t in tables && fk in t.foreignKeys ==> fk.columns != [] && fk.referencesTable != t.name)
    && WholeKeys(tables)
  }

  ghost predicate ConstraintsApart(tables: seq<Table>) {
    && (forall t, uq :: t in tables && uq in AllConstraints(t) ==> ':' !in uq.name)
    && (forall t, u, uq, ur ::
          t in tables && u in tables && uq in AllConstraints(t) && ur in AllConstraints(u) && uq.name == ur.name ==>
            t == u && uq == ur)
  }

  ghost predicate WholeKeys(tables: seq<Table>) {
    forall t, c :: t in tables && c in t.primaryKey ==> t.Col(c).Some? && !t.Col(c).value.nullable
  }

  // ── the key builders are well formed ─────────────────────────────────────

  lemma {:induction false} NulledUnique(t: Table, columns: seq<string>, row: Row, nulled: seq<string>)
    ensures var a := UniqueComponents(t, columns, NullOut(row, nulled));
            a.Some? ==> UniqueComponents(t, columns, row) == a
  {
    if columns != [] {
      NulledUnique(t, columns[1..], row, nulled);
      if columns[0] in nulled {
        assert Get(NullOut(row, nulled), columns[0]) == Null;
      } else {
        assert Get(NullOut(row, nulled), columns[0]) == Get(row, columns[0]);
      }
    }
  }

  lemma NulledParent(tables: seq<Table>, fk: ForeignKey, row: Row, nulled: seq<string>)
    ensures var a := ParentKey(tables, fk, NullOut(row, nulled));
            a.Some? ==> ParentKey(tables, fk, row) == a
    ensures fk.columns != [] ==> ParentKey(tables, fk, NullOut(row, fk.columns)) == None
  {
    var after := NullOut(row, nulled);
    if !FkNull(fk, after) {
      forall c | c in fk.columns ensures Get(after, c) == Get(row, c) {
        assert c in nulled ==> Get(after, c) == Null;
      }
      var found := FindTable(tables, fk.referencesTable);
      if found.Some? {
        assert ParentComponents(found.value, fk, after) == ParentComponents(found.value, fk, row);
      }
    }
    if fk.columns != [] {
      assert fk.columns[0] in fk.columns && Get(NullOut(row, fk.columns), fk.columns[0]) == Null;
    }
  }

  /** The components of a composite key follow from the encoded primary key. */
  lemma {:induction false} PkDetermines(t: Table, columns: seq<string>, a: Row, b: Row)
    requires forall c :: c in columns ==> t.Col(c).Some?
    requires forall c :: c in columns ==>
               KeyComponentOf(t.Col(c).value, Get(a, c)) == KeyComponentOf(t.Col(c).value, Get(b, c))
    ensures UniqueComponents(t, columns, a) == UniqueComponents(t, columns, b)
  {
    if columns != [] {
      PkDetermines(t, columns[1..], a, b);
    }
  }

  lemma SamePkSameGuard(t: Table, a: Row, b: Row)
    requires EncodedPk(t, a) == EncodedPk(t, b)
    requires forall c :: c in t.primaryKey ==> t.Col(c).Some?
    ensures UniqueKey(t, PkConstraint(t), a) == UniqueKey(t, PkConstraint(t), b)
  {
    Keys.EncodePkInjective(PkComponents(t, a), PkComponents(t, b));
    forall c | c in t.primaryKey
      ensures KeyComponentOf(t.Col(c).value, Get(a, c)) == KeyComponentOf(t.Col(c).value, Get(b, c))
    {
      var k :| 0 <= k < |t.primaryKey| && t.primaryKey[k] == c;
      assert PkComponents(t, a)[k] == PkComponents(t, b)[k];
    }
    PkDetermines(t, t.primaryKey, a, b);
  }

  lemma {:induction false} ComponentsOfPk(t: Table, columns: seq<string>, row: Row)
    requires UniqueComponents(t, columns, row).Some?
    ensures var cs := UniqueComponents(t, columns, row).value;
            && |cs| == |columns|
            && forall k :: 0 <= k < |columns| ==>
                 t.Col(columns[k]).Some? && cs[k] == KeyComponentOf(t.Col(columns[k]).value, Get(row, columns[k]))
  {
    if columns != [] {
      ComponentsOfPk(t, columns[1..], row);
    }
  }

  lemma SameGuardSamePk(t: Table, a: Row, b: Row)
    requires ':' !in PkConstraint(t).name
    requires UniqueKey(t, PkConstraint(t), a).Some? && UniqueKey(t, PkConstraint(t), a) == UniqueKey(t, PkConstraint(t), b)
    ensures EncodedPk(t, a) == EncodedPk(t, b)
  {
    var uq := PkConstraint(t);
    Keys.UniqueKeyInjective(
      Keys.KIT_KEY_VERSION, uq.name, UniqueComponents(t, uq.columns, a).value,
      Keys.KIT_KEY_VERSION, uq.name, UniqueComponents(t, uq.columns, b).value);
    ComponentsOfPk(t, uq.columns, a);
    ComponentsOfPk(t, uq.columns, b);
    assert PkComponents(t, a) == UniqueComponents(t, uq.columns, a).value == PkComponents(t, b);
  }

  lemma NulledPk(t: Table, row: Row, nulled: seq<string>)
    requires forall c :: c in t.primaryKey ==> t.Col(c).Some? && !t.Col(c).value.nullable
    requires forall c :: c in nulled ==> t.Col(c).Some? && t.Col(c).value.nullable
    ensures EncodedPk(t, NullOut(row, nulled)) == EncodedPk(t, row)
  {
    assert forall c :: c in t.primaryKey ==> Get(NullOut(row, nulled), c) == Get(row, c);
    assert PkComponents(t, NullOut(row, nulled)) == PkComponents(t, row);
  }

  lemma KeysApart(tables: seq<Table>, t: Table, uq: UniqueConstraint, a: Row, u: Table, ur: UniqueConstraint, b: Row)
    requires ConstraintsApart(tables) && t in tables && u in tables && uq in AllConstraints(t) && ur in AllConstraints(u)
    requires UniqueKey(t, uq, a).Some? && UniqueKey(t, uq, a) == UniqueKey(u, ur, b)
    ensures t == u && uq == ur
  {
    Keys.UniqueKeyInjective(
      Keys.KIT_KEY_VERSION, uq.name, UniqueComponents(t, uq.columns, a).value,
      Keys.KIT_KEY_VERSION, ur.name, UniqueComponents(u, ur.columns, b).value);
  }

  lemma HasKeyTables(rules: Rules, table: string, row: Row, c: string, k: string) returns (t: Table, uq: UniqueConstraint)
    requires rules.HasKey(table, row, c, k)
    ensures t in rules.tables && t.name == table && FindTable(rules.tables, table) == Some(t)
    ensures uq in AllConstraints(t) && uq.name == c && rules.key(table, uq, row) == Some(k)
  {
    t := FindTable(rules.tables, table).value;
    uq :| uq in rules.Guarded(table) && uq.name == c && rules.key(table, uq, row) == Some(k);
  }

  lemma KitKeysApart(tables: seq<Table>, valid: (string, Row) -> bool)
    requires ConstraintsApart(tables)
    ensures KitRules(tables, valid).KeysApart()
  {
    var rules := KitRules(tables, valid);
    forall t, a, c, u, b, d, k | rules.HasKey(t, a, c, k) && rules.HasKey(u, b, d, k) ensures t == u && c == d {
      SameKeySameConstraint(tables, valid, t, a, c, u, b, d, k);
    }
  }

  lemma SameKeySameConstraint(tables: seq<Table>, valid: (string, Row) -> bool,
                              t: string, a: Row, c: string, u: string, b: Row, d: string, k: string)
    requires ConstraintsApart(tables)
    requires KitRules(tables, valid).HasKey(t, a, c, k) && KitRules(tables, valid).HasKey(u, b, d, k)
    ensures t == u && c == d
  {
    var rules := KitRules(tables, valid);
    var t', uq := HasKeyTables(rules, t, a, c, k);
    var u', ur := HasKeyTables(rules, u, b, d, k);
    KeysApart(tables, t', uq, a, u', ur, b);
  }

  lemma KitPkGuarded(tables: seq<Table>, valid: (string, Row) -> bool)
    requires ConstraintsApart(tables) && WholeKeys(tables)
    ensures KitRules(tables, valid).PkGuarded()
  {
    var rules := KitRules(tables, valid);
    forall t, a, b | rules.PkGuard(t).Some?
      ensures rules.pk(t, a) == rules.pk(t, b) ==>
                rules.key(t, rules.PkGuard(t).value, a) == rules.key(t, rules.PkGuard(t).value, b)
      ensures rules.key(t, rules.PkGuard(t).value, a).Some?
              && rules.key(t, rules.PkGuard(t).value, a) == rules.key(t, rules.PkGuard(t).value, b) ==>
                rules.pk(t, a) == rules.pk(t, b)
    {
      PkGuardStandsFor(tables, FindTable(tables, t).value, a, b);
    }
  }

  lemma PkGuardStandsFor(tables: seq<Table>, t: Table, a: Row, b: Row)
    requires ConstraintsApart(tables) && WholeKeys(tables) && t in tables && |t.primaryKey| >= 2
    ensures EncodedPk(t, a) == EncodedPk(t, b) ==> UniqueKey(t, PkConstraint(t), a) == UniqueKey(t, PkConstraint(t), b)
    ensures UniqueKey(t, PkConstraint(t), a).Some? && UniqueKey(t, PkConstraint(t), a) == UniqueKey(t, PkConstraint(t), b) ==>
              EncodedPk(t, a) == EncodedPk(t, b)
  {
    assert PkConstraint(t) in AllConstraints(t);
    if EncodedPk(t, a) == EncodedPk(t, b) {
      SamePkSameGuard(t, a, b);
    }
    if UniqueKey(t, PkConstraint(t), a).Some? && UniqueKey(t, PkConstraint(t), a) == UniqueKey(t, PkConstraint(t), b) {
      SameGuardSamePk(t, a, b);
    }
  }

  lemma KitNullingShrinks(tables: seq<Table>, valid: (string, Row) -> bool)
    requires InScope(tables, valid)
    ensures KitRules(tables, valid).NullingShrinks()
  {
    var rules := KitRules(tables, valid);
    forall fk, row, columns ensures var q := rules.parent(fk, NullOut(row, columns)); q.Some? ==> rules.parent(fk, row) == q {
      NulledParent(tables, fk, row, columns);
    }
    forall t, uq: UniqueConstraint, row, columns
      ensures var k := rules.key(t, uq, NullOut(row, columns)); k.Some? ==> rules.key(t, uq, row) == k
    {
      if FindTable(tables, t).Some? {
        NulledUnique(FindTable(tables, t).value, uq.columns, row, columns);
      }
    }
    forall t, fk, row | fk in rules.ForeignKeys(t) ensures rules.parent(fk, NullOut(row, fk.columns)) == None {
      NulledParent(tables, fk, row, fk.columns);
    }
    forall t, row, columns | forall c :: c in columns ==> rules.Nullable(t, c)
      ensures rules.pk(t, NullOut(row, columns)) == rules.pk(t, row)
    {
      if FindTable(tables, t).Some? {
        assert forall c :: c in columns ==> rules.Nullable(t, c);
        NulledPk(FindTable(tables, t).value, row, columns);
      }
    }
  }

  lemma {:induction false} WholeComponents(t: Table, columns: seq<string>, row: Row)
    requires forall c :: c in columns ==> t.Col(c).Some? && Get(row, c) != Null
    ensures UniqueComponents(t, columns, row).Some?
  {
    if columns != [] {
      WholeComponents(t, columns[1..], row);
    }
  }

  lemma KitPkPresent(tables: seq<Table>, valid: (string, Row) -> bool)
    requires InScope(tables, valid)
    ensures KitRules(tables, valid).PkPresent()
  {
    var rules := KitRules(tables, valid);
    forall t, row | rules.valid(t, row) && rules.PkGuard(t).Some? ensures rules.key(t, rules.PkGuard(t).value, row).Some? {
      var u := FindTable(tables, t).value;
      assert valid(u.name, row);
      WholeComponents(u, u.primaryKey, row);
    }
  }

  /** The code's key builders meet what the protocol asks of them. */
  lemma KitRulesWellFormed(tables: seq<Table>, valid: (string, Row) -> bool)
    requires InScope(tables, valid)
    ensures KitRules(tables, valid).WellFormed()
  {
    KitKeysApart(tables, valid);
    KitPkGuarded(tables, valid);
    KitPkPresent(tables, valid);
    KitNullingShrinks(tables, valid);
  }

  /** Row guards and planner visits, which the code knows by text, stand for one row each. */
  lemma RowsKnownByText(tables: seq<Table>, valid: (string, Row) -> bool, r: RowRef, q: RowRef)
    requires InScope(tables, valid) && HasTable(tables, r.table) && HasTable(tables, q.table)
    ensures Keys.EncodeRowGuardKey(r.table, r.pk) == Keys.EncodeRowGuardKey(q.table, q.pk) ==> r == q
    ensures VisitKey(r) == VisitKey(q) ==> r == q
  {
    if Keys.EncodeRowGuardKey(r.table, r.pk) == Keys.EncodeRowGuardKey(q.table, q.pk) {
      Keys.RowGuardKeyInjective(r.table, r.pk, q.table, q.pk);
    }
    if VisitKey(r) == VisitKey(q) {
      VisitKeyInjective(r, q);
    }
  }

  // ── rows found by value are the rows found by key ────────────────────────

  /** `pk_matches`: the primary-key values agree. */
  predicate PkMatches(t: Table, a: Row, b: Row) {
    forall c :: c in t.primaryKey ==> Get(a, c) == Get(b, c)
  }

  /** Looking a row up by its primary-key values finds the row of that encoded key. */
  lemma PkMatchesIsSameKey(t: Table, a: Row, b: Row)
    requires PkTyped(t, a) && PkTyped(t, b)
    ensures PkMatches(t, a, b) <==> EncodedPk(t, a) == EncodedPk(t, b)
  {
    if PkMatches(t, a, b) {
      assert PkComponents(t, a) == PkComponents(t, b);
    }
    if EncodedPk(t, a) == EncodedPk(t, b) {
      Keys.EncodePkInjective(PkComponents(t, a), PkComponents(t, b));
      forall c | c in t.primaryKey ensures Get(a, c) == Get(b, c) {
        var k :| 0 <= k < |t.primaryKey| && t.primaryKey[k] == c;
        assert PkComponents(t, a)[k] == PkComponents(t, b)[k];
      }
    }
  }
}
