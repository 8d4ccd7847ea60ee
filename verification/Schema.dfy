/** The parts of a kit schema the model uses. */
module Schema {
  import opened Strings
  import opened Values

  /** Storage types, grouped by the value they hold. `IntType` stands for the signed
      integer types and nanosecond timestamps, `TextType` for the textual types. */
  datatype ColumnType = BoolType | IntType | TextType

  /** A value of the column type's kind. */
  predicate Fits(v: Value, ty: ColumnType) {
    match v
    case Null => true
    case Bool(_) => ty == BoolType
    case Int(_) => ty == IntType
    case Text(_) => ty == TextType
  }

  datatype Column = Column(id: nat, name: string, storageType: ColumnType, applicationType: ColumnType, nullable: bool)

  datatype Action = Restrict | SetNull | Cascade

  datatype ForeignKey = ForeignKey(name: string, columns: seq<string>, referencesTable: string, onDelete: Action)

  datatype UniqueConstraint = UniqueConstraint(name: string, columns: seq<string>)

  datatype IndexKind = Bitmap | LearnedRange | Fm

  datatype Index = Index(name: string, columns: seq<string>, kind: IndexKind)

  datatype Table = Table(
    name: string,
    columns: seq<Column>,
    primaryKey: seq<string>,
    indexes: seq<Index>,
    foreignKeys: seq<ForeignKey>,
    uniqueConstraints: seq<UniqueConstraint>,
    checked: bool  // has at least one check constraint
  ) {
    /** `Table::column`: the first column of that name. */
    function Col(colName: string): (r: Option<Column>)
      ensures r.Some? ==> r.value in columns && r.value.name == colName
      ensures r.None? ==> forall c :: c in columns ==> c.name != colName
    {
      FindColumn(columns, colName)
    }

    predicate HasCol(colName: string) {
      Col(colName).Some?
    }
  }

  /** A column backed by a bitmap in the engine: a declared bitmap index or a unique
      constraint. Primary keys get another kind of index. */
  predicate RealBitmap(t: Table, name: string) {
    || (exists x :: x in t.indexes && x.kind == Bitmap && name in x.columns)
    || (exists u :: u in t.uniqueConstraints && name in u.columns)
  }

  function FindColumn(columns: seq<Column>, colName: string): (r: Option<Column>)
    ensures r.Some? ==> r.value in columns && r.value.name == colName
    ensures r.None? ==> forall c :: c in columns ==> c.name != colName
  {
    if columns == [] then None
    else if columns[0].name == colName then Some(columns[0])
    else FindColumn(columns[1..], colName)
  }

  predicate HasTable(tables: seq<Table>, name: string) {
    exists t :: t in tables && t.name == name
  }

  /** `Schema::table` on a schema with distinct table names. */
  function FindTable(tables: seq<Table>, name: string): (r: Option<Table>)
    ensures r.Some? ==> r.value in tables && r.value.name == name
    ensures r.None? <==> !HasTable(tables, name)
  {
    if tables == [] then None
    else if tables[0].name == name then Some(tables[0])
    else FindTable(tables[1..], name)
  }

  /** Table names are distinct, as `Schema::new` checks. */
  predicate DistinctTables(tables: seq<Table>) {
    forall i, j :: 0 <= i < j < |tables| ==> tables[i].name != tables[j].name
  }

  /** With distinct names, every table of the schema is the one found under its name. */
  lemma {:induction false} FindsItself(tables: seq<Table>, t: Table)
    requires DistinctTables(tables) && t in tables
    ensures FindTable(tables, t.name) == Some(t)
  {
    if tables[0] != t {
      var k :| 0 < k < |tables| && tables[k] == t;
      assert tables[0].name != t.name;
      assert tables[1..][k - 1] == t;
      FindsItself(tables[1..], t);
    }
  }
}
