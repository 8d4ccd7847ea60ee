/** Delete planning: a depth-first search over the foreign keys that reference a row,
    with a path stack, a memo of rows already planned, and truncation of the plan when a
    branch is restricted. The memo is not rolled back. */
module Planner {
  import opened Schema
  import opened Strings

  datatype RowRef = RowRef(table: string, pk: string)

  datatype SetNullUpdate = SetNullUpdate(table: string, pk: string, columns: seq<string>)

  datatype RestrictedConstraint = RestrictedConstraint(table: string, constraint: string)

  datatype PlannerError = TableNotFound(table: string) | CircularDelete(table: string)

  /** The text under which path and memo remember a row. */
  function VisitKey(r: RowRef): string {
    r.table + [':'] + r.pk
  }

  /** For tables named without a colon the text stands for the row, so path and memo may be
      taken as rows. */
  lemma VisitKeyInjective(r: RowRef, q: RowRef)
    requires ':' !in r.table && ':' !in q.table && VisitKey(r) == VisitKey(q)
    ensures r == q
  {
    CutAtSeparator(r.table, r.pk, q.table, q.pk, ':');
  }

  /** `find_children`: the primary keys of the rows of a table that reference a parent key
      through a foreign key. */
  type FindChildren = (Table, ForeignKey, string) -> seq<string>

  /** A row `pk` of `table` that references the row under consideration through `fk`. */
  datatype Edge = Edge(table: string, fk: ForeignKey, pk: string) {
    function Child(): RowRef {
      RowRef(table, pk)
    }

    function Nulls(): SetNullUpdate {
      SetNullUpdate(table, pk, fk.columns)
    }

    function Restriction(): RestrictedConstraint {
      RestrictedConstraint(table, fk.name)
    }
  }

  datatype Graph = Graph(tables: seq<Table>, find: FindChildren)

  // ── the references into a row, in the order the search meets them ────────

  function KeyEdges(t: Table, fk: ForeignKey, pks: seq<string>): seq<Edge> {
    if pks == [] then [] else [Edge(t.name, fk, pks[0])] + KeyEdges(t, fk, pks[1..])
  }

  function ForeignKeyEdges(g: Graph, t: Table, fks: seq<ForeignKey>, r: RowRef): seq<Edge> {
    if fks == [] then []
    else if fks[0].referencesTable != r.table then ForeignKeyEdges(g, t, fks[1..], r)
    else KeyEdges(t, fks[0], g.find(t, fks[0], r.pk)) + ForeignKeyEdges(g, t, fks[1..], r)
  }

  function TableEdges(g: Graph, ts: seq<Table>, r: RowRef): seq<Edge> {
    if ts == [] then []
    else ForeignKeyEdges(g, ts[0], ts[0].foreignKeys, r) + TableEdges(g, ts[1..], r)
  }

  function Edges(g: Graph, r: RowRef): seq<Edge> {
    TableEdges(g, g.tables, r)
  }

  // ── the deletion graph ───────────────────────────────────────────────────

  /** `child` references `parent` through a cascading foreign key. */
  ghost predicate Cascades(g: Graph, parent: RowRef, child: RowRef) {
    exists e :: e in Edges(g, parent) && e.fk.onDelete == Cascade && e.Child() == child
  }

  ghost predicate IsPath(g: Graph, p: seq<RowRef>, from: RowRef, to: RowRef) {
    |p| > 0 && p[0] == from && p[|p| - 1] == to
    && forall i :: 0 <= i < |p| - 1 ==> Cascades(g, p[i], p[i + 1])
  }

  /** A delete of `from` cascades to `to` (or is `to` itself). */
  ghost predicate Reaches(g: Graph, from: RowRef, to: RowRef) {
    exists p :: IsPath(g, p, from, to)
  }

  /** `r` cascades back to itself in at least one step. */
  ghost predicate OnCycle(g: Graph, r: RowRef) {
    exists c :: Cascades(g, r, c) && Reaches(g, c, r)
  }

  /** Some row the delete of `r` cascades to lies on a cycle. */
  ghost predicate Cyclic(g: Graph, r: RowRef) {
    exists x :: Reaches(g, r, x) && OnCycle(g, x)
  }

  /** A foreign key that restricts the delete of `r` itself. */
  ghost predicate RestrictedBy(g: Graph, r: RowRef, rc: RestrictedConstraint) {
    exists e :: e in Edges(g, r) && e.fk.onDelete == Restrict && e.Restriction() == rc
  }

  /** A foreign key that restricts the delete of a row `r` cascades to. */
  ghost predicate BlockedBy(g: Graph, r: RowRef, rc: RestrictedConstraint) {
    exists x :: Reaches(g, r, x) && RestrictedBy(g, x, rc)
  }

  ghost predicate Blocked(g: Graph, r: RowRef) {
    exists rc :: BlockedBy(g, r, rc)
  }

  /** The set-null updates out of a list of references, and out of a list of rows. */
  ghost function EdgeNulls(es: seq<Edge>): multiset<SetNullUpdate> {
    if es == [] then multiset{}
    else (if es[0].fk.onDelete == SetNull then multiset{es[0].Nulls()} else multiset{}) + EdgeNulls(es[1..])
  }

  ghost function RowNulls(g: Graph, rows: seq<RowRef>): multiset<SetNullUpdate> {
    if rows == [] then multiset{}
    else RowNulls(g, rows[..|rows| - 1]) + EdgeNulls(Edges(g, rows[|rows| - 1]))
  }

  /** Every row of the list is new, and comes after the rows that cascade from it. */
  ghost predicate ChildrenFirst(g: Graph, rows: seq<RowRef>, base: set<RowRef>) {
    rows != [] ==>
      var front, last := rows[..|rows| - 1], rows[|rows| - 1];
      && ChildrenFirst(g, front, base)
      && last !in base + PathSet(front)
      && forall c :: Cascades(g, last, c) ==> c in base + PathSet(front)
  }

  /** A finite set of rows that the references never leave. */
  ghost predicate Closed(g: Graph, universe: set<RowRef>) {
    forall r, e :: r in universe && e in Edges(g, r) ==> e.Child() in universe
  }

  // ── reachability ─────────────────────────────────────────────────────────

  lemma ReachesSelf(g: Graph, r: RowRef)
    ensures Reaches(g, r, r)
  {
    assert IsPath(g, [r], r, r);
  }

  lemma ReachesCons(g: Graph, a: RowRef, b: RowRef, c: RowRef)
    requires Cascades(g, a, b) && Reaches(g, b, c)
    ensures Reaches(g, a, c)
  {
    var p :| IsPath(g, p, b, c);
    var q := [a] + p;
    forall i | 0 <= i < |q| - 1 ensures Cascades(g, q[i], q[i + 1]) {
      if i > 0 {
        assert q[i] == p[i - 1] && q[i + 1] == p[i];
      }
    }
    assert IsPath(g, q, a, c);
  }

  lemma ReachesUncons(g: Graph, a: RowRef, c: RowRef) returns (b: RowRef)
    requires Reaches(g, a, c) && a != c
    ensures Cascades(g, a, b) && Reaches(g, b, c)
  {
    var p :| IsPath(g, p, a, c);
    b := p[1];
    assert Cascades(g, p[0], p[1]);
    var q := p[1..];
    assert forall i :: 0 <= i < |q| ==> q[i] == p[i + 1];
    assert IsPath(g, q, b, c);
  }

  /** A row whose cascading children lie above no cycle lies above none itself. */
  lemma AcyclicFromChildren(g: Graph, r: RowRef)
    requires forall c :: Cascades(g, r, c) ==> !Cyclic(g, c)
    ensures !Cyclic(g, r)
  {
    if Cyclic(g, r) {
      var x :| Reaches(g, r, x) && OnCycle(g, x);
      if x != r {
        var c := ReachesUncons(g, r, x);
      }
    }
  }

  /** What restricts a delete is what restricts the row or one of its cascading children. */
  lemma BlockedByUnfold(g: Graph, r: RowRef, rc: RestrictedConstraint)
    ensures BlockedBy(g, r, rc) <==>
            RestrictedBy(g, r, rc) || exists c :: Cascades(g, r, c) && BlockedBy(g, c, rc)
  {
    ReachesSelf(g, r);
    if BlockedBy(g, r, rc) && !RestrictedBy(g, r, rc) {
      var x :| Reaches(g, r, x) && RestrictedBy(g, x, rc);
      var c := ReachesUncons(g, r, x);
      assert BlockedBy(g, c, rc);
    }
    forall c | Cascades(g, r, c) && BlockedBy(g, c, rc) ensures BlockedBy(g, r, rc) {
      var x :| Reaches(g, c, x) && RestrictedBy(g, x, rc);
      ReachesCons(g, r, c, x);
    }
  }

  // ── the search as a function of its state ────────────────────────────────

  datatype State = State(
    deleted: set<RowRef>,
    delete: seq<RowRef>,
    setNull: seq<SetNullUpdate>,
    restricted: seq<RestrictedConstraint>
  )

  datatype Outcome = Failed(error: PlannerError) | Done(deletable: bool, st: State)

  function PathSet(path: seq<RowRef>): set<RowRef> {
    set r | r in path
  }

  ghost predicate Extends(st: State, st': State) {
    st.delete <= st'.delete && st.setNull <= st'.setNull
  }

  ghost function Visit(g: Graph, universe: set<RowRef>, r: RowRef, path: seq<RowRef>, st: State): (o: Outcome)
    requires Closed(g, universe) && r in universe
    ensures o.Done? ==> Extends(st, o.st)
    decreases universe - PathSet(path), 0
  {
    if r in st.deleted then Done(true, st)
    else if r in path then Failed(CircularDelete(r.table))
    else if !HasTable(g.tables, r.table) then Failed(TableNotFound(r.table))
    else
      assert r in universe - PathSet(path) && r !in universe - PathSet(path + [r]);
      match Sweep(g, universe, Edges(g, r), path + [r], st, false)
      case Failed(e) => Failed(e)
      case Done(free, st') =>
        if free then
          Done(true, st'.(delete := st'.delete + [r], deleted := st'.deleted + {r}))
        else
          Done(false, st'.(delete := st'.delete[..|st.delete|], setNull := st'.setNull[..|st.setNull|]))
  }

  /** The loop over the references into the row on top of the path. `blocked` is the
      loop's `restricted` flag; the result says whether it stayed clear. */
  ghost function Sweep(
    g: Graph, universe: set<RowRef>, es: seq<Edge>, path: seq<RowRef>, st: State, blocked: bool
  ): (o: Outcome)
    requires Closed(g, universe)
    requires forall e :: e in es ==> e.Child() in universe
    ensures o.Done? ==> Extends(st, o.st)
    decreases universe - PathSet(path), |es| + 1
  {
    if es == [] then Done(!blocked, st)
    else
      match es[0].fk.onDelete
      case Restrict =>
        Sweep(g, universe, es[1..], path, st.(restricted := st.restricted + [es[0].Restriction()]), true)
      case SetNull =>
        Sweep(g, universe, es[1..], path, st.(setNull := st.setNull + [es[0].Nulls()]), blocked)
      case Cascade =>
        match Visit(g, universe, es[0].Child(), path, st)
        case Failed(e) => Failed(e)
        case Done(deletable, st') => Sweep(g, universe, es[1..], path, st', blocked || !deletable)
  }

  // ── what the search keeps ────────────────────────────────────────────────

  /** The memo holds only rows that are safe to delete together with all they cascade to. */
  ghost predicate MemoSound(g: Graph, st: State) {
    forall d :: d in st.deleted ==>
      && !Cyclic(g, d)
      && (forall rc :: !RestrictedBy(g, d, rc))
      && (forall c :: Cascades(g, d, c) ==> c in st.deleted)
  }

  lemma {:induction false} MemoReaches(g: Graph, st: State, p: seq<RowRef>, d: RowRef, x: RowRef)
    requires MemoSound(g, st) && d in st.deleted && IsPath(g, p, d, x)
    ensures x in st.deleted
    decreases |p|
  {
    if |p| > 1 {
      assert Cascades(g, p[0], p[1]);
      var q := p[1..];
      assert forall i :: 0 <= i < |q| ==> q[i] == p[i + 1];
      MemoReaches(g, st, q, p[1], x);
    }
  }

  lemma MemoUnblocked(g: Graph, st: State, d: RowRef)
    requires MemoSound(g, st) && d in st.deleted
    ensures forall x :: Reaches(g, d, x) ==> x in st.deleted
    ensures forall rc :: !BlockedBy(g, d, rc)
  {
    forall x | Reaches(g, d, x) ensures x in st.deleted {
      var p :| IsPath(g, p, d, x);
      MemoReaches(g, st, p, d, x);
    }
  }

  lemma {:induction false} RowNullsAppend(g: Graph, a: seq<RowRef>, b: seq<RowRef>)
    ensures RowNulls(g, a + b) == RowNulls(g, a) + RowNulls(g, b)
    decreases |b|
  {
    if b == [] {
      assert a + b == a;
    } else {
      var n := |b| - 1;
      assert (a + b)[..|a + b| - 1] == a + b[..n];
      RowNullsAppend(g, a, b[..n]);
    }
  }

  lemma {:induction false} ChildrenFirstAppend(g: Graph, a: seq<RowRef>, b: seq<RowRef>, base: set<RowRef>)
    requires ChildrenFirst(g, a, base)
    requires ChildrenFirst(g, b, base + PathSet(a))
    ensures ChildrenFirst(g, a + b, base)
    decreases |b|
  {
    if b == [] {
      assert a + b == a;
    } else {
      var n := |b| - 1;
      assert (a + b)[..|a + b| - 1] == a + b[..n];
      ChildrenFirstAppend(g, a, b[..n], base);
      assert PathSet(a + b[..n]) == PathSet(a) + PathSet(b[..n]);
    }
  }

  /** Row by row: none is repeated, and the rows that cascade from it stand before it. */
  lemma {:induction false} EachRowOnce(g: Graph, rows: seq<RowRef>, base: set<RowRef>, i: nat)
    requires ChildrenFirst(g, rows, base) && i < |rows|
    ensures rows[i] !in base && rows[i] !in rows[..i]
    ensures forall c :: Cascades(g, rows[i], c) ==> c in base || c in rows[..i]
    decreases |rows|
  {
    var n := |rows| - 1;
    if i < n {
      EachRowOnce(g, rows[..n], base, i);
      assert rows[..n][..i] == rows[..i];
    }
  }

  /** The plan grew by exactly the rows that entered the memo, children first, and by the
      set-null updates out of `es` and out of those rows. */
  ghost predicate Grew(g: Graph, st: State, st': State, es: seq<Edge>)
  {
    Extends(st, st') &&
    var rows := st'.delete[|st.delete|..];
    && ChildrenFirst(g, rows, st.deleted)
    && st'.deleted == st.deleted + PathSet(rows)
    && multiset(st'.setNull[|st.setNull|..]) == EdgeNulls(es) + RowNulls(g, rows)
    && st'.restricted == st.restricted
  }

  lemma TailsCompose<T>(a: seq<T>, b: seq<T>, c: seq<T>)
    requires a <= b && b <= c
    ensures a <= c && c[|a|..] == b[|a|..] + c[|b|..]
  {
  }

  lemma GrewTrans(g: Graph, st: State, mid: State, st': State, es: seq<Edge>)
    requires Grew(g, st, mid, []) && Grew(g, mid, st', es)
    ensures Grew(g, st, st', es)
  {
    TailsCompose(st.delete, mid.delete, st'.delete);
    TailsCompose(st.setNull, mid.setNull, st'.setNull);
    GrewJoin(g, st, mid, st', mid.delete[|st.delete|..], st'.delete[|mid.delete|..],
             mid.setNull[|st.setNull|..], st'.setNull[|mid.setNull|..], es);
  }

  lemma GrewJoin(g: Graph, st: State, mid: State, st': State, a: seq<RowRef>, b: seq<RowRef>,
                 m: seq<SetNullUpdate>, n: seq<SetNullUpdate>, es: seq<Edge>)
    requires Extends(st, st') && st'.delete[|st.delete|..] == a + b && st'.setNull[|st.setNull|..] == m + n
    requires ChildrenFirst(g, a, st.deleted) && mid.deleted == st.deleted + PathSet(a)
    requires ChildrenFirst(g, b, mid.deleted) && st'.deleted == mid.deleted + PathSet(b)
    requires multiset(m) == RowNulls(g, a) && multiset(n) == EdgeNulls(es) + RowNulls(g, b)
    requires st'.restricted == st.restricted
    ensures Grew(g, st, st', es)
  {
    ChildrenFirstAppend(g, a, b, st.deleted);
    RowNullsAppend(g, a, b);
    JoinNulls(m, n, RowNulls(g, a), EdgeNulls(es), RowNulls(g, b));
    PathSetAppend(a, b);
    GrewIs(g, st, st', a + b, m + n, RowNulls(g, a + b), es);
  }

  lemma JoinNulls(m: seq<SetNullUpdate>, n: seq<SetNullUpdate>, a: multiset<SetNullUpdate>, e: multiset<SetNullUpdate>,
                  b: multiset<SetNullUpdate>)
    requires multiset(m) == a && multiset(n) == e + b
    ensures multiset(m + n) == e + (a + b)
  {
  }

  lemma PathSetAppend(a: seq<RowRef>, b: seq<RowRef>)
    ensures PathSet(a + b) == PathSet(a) + PathSet(b)
  {
  }

  lemma GrewIs(g: Graph, st: State, st': State, rows: seq<RowRef>, nulls: seq<SetNullUpdate>, total: multiset<SetNullUpdate>,
               es: seq<Edge>)
    requires Extends(st, st') && st'.delete[|st.delete|..] == rows && st'.setNull[|st.setNull|..] == nulls
    requires ChildrenFirst(g, rows, st.deleted) && st'.deleted == st.deleted + PathSet(rows)
    requires multiset(nulls) == EdgeNulls(es) + total && total == RowNulls(g, rows) && st'.restricted == st.restricted
    ensures Grew(g, st, st', es)
  {
  }

  /** A cascading child among a list of references. */
  ghost predicate CascadesIn(es: seq<Edge>, c: RowRef) {
    exists e :: e in es && e.fk.onDelete == Cascade && e.Child() == c
  }

  ghost predicate RestrictedIn(es: seq<Edge>, rc: RestrictedConstraint) {
    exists e :: e in es && e.fk.onDelete == Restrict && e.Restriction() == rc
  }

  /** What the references in `es` bring to the list of restrictions. */
  ghost predicate BlockedIn(g: Graph, es: seq<Edge>, rc: RestrictedConstraint) {
    RestrictedIn(es, rc) || exists c :: CascadesIn(es, c) && BlockedBy(g, c, rc)
  }

  ghost predicate VisitPost(g: Graph, r: RowRef, st: State, o: Outcome) {
    match o
    case Failed(TableNotFound(t)) => t == r.table && !HasTable(g.tables, t)
    case Failed(CircularDelete(t)) => exists x: RowRef :: x.table == t && Reaches(g, r, x) && OnCycle(g, x)
    case Done(deletable, st') =>
      && MemoSound(g, st')
      && st.deleted <= st'.deleted
      && !Cyclic(g, r)
      && (deletable <==> !Blocked(g, r))
      && (forall rc :: rc in st'.restricted <==> rc in st.restricted || BlockedBy(g, r, rc))
      && (deletable ==> Grew(g, st, st', []) && r in st'.deleted
                        && forall x :: x in st'.deleted <==> x in st.deleted || Reaches(g, r, x))
      && (!deletable ==> st'.delete == st.delete && st'.setNull == st.setNull)
  }

  ghost predicate SweepPost(g: Graph, es: seq<Edge>, st: State, blocked: bool, o: Outcome) {
    match o
    case Failed(TableNotFound(t)) => exists c: RowRef :: CascadesIn(es, c) && c.table == t && !HasTable(g.tables, t)
    case Failed(CircularDelete(t)) =>
      exists c: RowRef, x: RowRef :: CascadesIn(es, c) && Reaches(g, c, x) && x.table == t && OnCycle(g, x)
    case Done(free, st') =>
      && MemoSound(g, st')
      && st.deleted <= st'.deleted
      && (forall c :: CascadesIn(es, c) ==> !Cyclic(g, c))
      && (free <==> !blocked && forall rc :: !BlockedIn(g, es, rc))
      && (forall rc :: rc in st'.restricted <==> rc in st.restricted || BlockedIn(g, es, rc))
      && (free ==> Grew(g, st, st', es)
                   && (forall c :: CascadesIn(es, c) ==> c in st'.deleted)
                   && forall x :: x in st'.deleted <==>
                                  x in st.deleted || exists c :: CascadesIn(es, c) && Reaches(g, c, x))
  }

  /** The path is a chain of cascades. */
  ghost predicate Chain(g: Graph, path: seq<RowRef>) {
    forall i :: 0 <= i < |path| - 1 ==> Cascades(g, path[i], path[i + 1])
  }

  /** A row met again while it is still on the path closes a cycle. */
  lemma PathClosesCycle(g: Graph, path: seq<RowRef>, r: RowRef)
    requires Chain(g, path + [r]) && r in path
    ensures OnCycle(g, r)
  {
    var i :| 0 <= i < |path| && path[i] == r;
    var whole := path + [r];
    var p := whole[i + 1..];
    assert Cascades(g, whole[i], whole[i + 1]);
    assert forall k :: 0 <= k < |p| ==> p[k] == whole[i + 1 + k];
    assert IsPath(g, p, whole[i + 1], r);
  }

  lemma KeyEdgesOf(t: Table, fk: ForeignKey, pks: seq<string>, e: Edge)
    requires e in KeyEdges(t, fk, pks)
    ensures e.table == t.name && e.fk == fk
  {
  }

  lemma {:induction false} ForeignKeyEdgesOf(g: Graph, t: Table, fks: seq<ForeignKey>, r: RowRef, e: Edge)
    requires e in ForeignKeyEdges(g, t, fks, r)
    ensures e.table == t.name && e.fk in fks && e.fk.referencesTable == r.table
  {
    if fks[0].referencesTable == r.table && e in KeyEdges(t, fks[0], g.find(t, fks[0], r.pk)) {
      KeyEdgesOf(t, fks[0], g.find(t, fks[0], r.pk), e);
    } else {
      ForeignKeyEdgesOf(g, t, fks[1..], r, e);
    }
  }

  /** The search only ever descends into tables of the schema. */
  lemma {:induction false} TableEdgesOf(g: Graph, ts: seq<Table>, r: RowRef, e: Edge)
    requires e in TableEdges(g, ts, r)
    ensures exists t :: t in ts && e.table == t.name && e.fk in t.foreignKeys && e.fk.referencesTable == r.table
  {
    if e in ForeignKeyEdges(g, ts[0], ts[0].foreignKeys, r) {
      ForeignKeyEdgesOf(g, ts[0], ts[0].foreignKeys, r, e);
    } else {
      TableEdgesOf(g, ts[1..], r, e);
    }
  }

  lemma {:induction false} VisitSound(g: Graph, universe: set<RowRef>, r: RowRef, path: seq<RowRef>, st: State)
    requires Closed(g, universe) && r in universe
    requires Chain(g, path + [r]) && MemoSound(g, st)
    ensures VisitPost(g, r, st, Visit(g, universe, r, path, st))
    decreases universe - PathSet(path), 0
  {
    ReachesSelf(g, r);
    if r in st.deleted {
      MemoUnblocked(g, st, r);
      assert st.delete[|st.delete|..] == [] && st.setNull[|st.setNull|..] == [];
    } else if r in path {
      PathClosesCycle(g, path, r);
    } else if HasTable(g.tables, r.table) {
      assert r in universe - PathSet(path) && r !in universe - PathSet(path + [r]);
      var es := Edges(g, r);
      SweepSound(g, universe, es, r, path + [r], st, false);
      VisitFromSweep(g, r, st, Sweep(g, universe, es, path + [r], st, false),
                     Visit(g, universe, r, path, st));
    }
  }

  /** How the outcome for a row follows from the outcome of the loop over its references. */
  lemma VisitFromSweep(g: Graph, r: RowRef, st: State, swept: Outcome, o: Outcome)
    requires MemoSound(g, st) && r !in st.deleted && HasTable(g.tables, r.table)
    requires SweepPost(g, Edges(g, r), st, false, swept)
    requires swept.Failed? ==> o == swept
    requires swept.Done? ==> Extends(st, swept.st)
    requires swept.Done? && swept.deletable ==>
               o == Done(true, swept.st.(delete := swept.st.delete + [r], deleted := swept.st.deleted + {r}))
    requires swept.Done? && !swept.deletable ==>
               o == Done(false, swept.st.(delete := swept.st.delete[..|st.delete|],
                                          setNull := swept.st.setNull[..|st.setNull|]))
    ensures VisitPost(g, r, st, o)
  {
    var es := Edges(g, r);
    assert forall c :: Cascades(g, r, c) <==> CascadesIn(es, c);
    assert forall rc :: RestrictedBy(g, r, rc) <==> RestrictedIn(es, rc);
    match swept
    case Failed(TableNotFound(t)) =>
      var c :| CascadesIn(es, c) && c.table == t && !HasTable(g.tables, t);
      var e :| e in es && e.fk.onDelete == Cascade && e.Child() == c;
      TableEdgesOf(g, g.tables, r, e);
      assert false;
    case Failed(CircularDelete(t)) =>
      var c: RowRef, x: RowRef :| CascadesIn(es, c) && Reaches(g, c, x) && x.table == t && OnCycle(g, x);
      ReachesCons(g, r, c, x);
    case Done(free, mid) =>
      AcyclicFromChildren(g, r);
      forall rc ensures BlockedIn(g, es, rc) <==> BlockedBy(g, r, rc) {
        BlockedByUnfold(g, r, rc);
      }
      if free {
        forall rc ensures !RestrictedBy(g, r, rc) {
          assert !BlockedIn(g, es, rc);
        }
        DeletableRow(g, r, st, mid);
      }
  }

  /** An unrestricted row joins the plan after everything it cascades to. */
  lemma DeletableRow(g: Graph, r: RowRef, st: State, mid: State)
    requires MemoSound(g, mid) && !Cyclic(g, r)
    requires Grew(g, st, mid, Edges(g, r)) && r !in st.deleted
    requires forall c :: Cascades(g, r, c) ==> c in mid.deleted
    requires forall rc :: !RestrictedBy(g, r, rc)
    requires forall x :: x in mid.deleted <==>
                         x in st.deleted || exists c :: Cascades(g, r, c) && Reaches(g, c, x)
    ensures MemoSound(g, mid.(delete := mid.delete + [r], deleted := mid.deleted + {r}))
    ensures Grew(g, st, mid.(delete := mid.delete + [r], deleted := mid.deleted + {r}), [])
    ensures forall x :: x in mid.deleted + {r} <==> x in st.deleted || Reaches(g, r, x)
  {
    MemoGrowsByReach(g, r, st.deleted, mid.deleted);
    MemoAdds(g, mid, r);
    GrewByRow(g, r, st, mid, mid.(delete := mid.delete + [r], deleted := mid.deleted + {r}));
  }

  lemma GrewByRow(g: Graph, r: RowRef, st: State, mid: State, st': State)
    requires Grew(g, st, mid, Edges(g, r)) && r !in mid.deleted
    requires forall c :: Cascades(g, r, c) ==> c in mid.deleted
    requires st' == mid.(delete := mid.delete + [r], deleted := mid.deleted + {r})
    ensures Grew(g, st, st', [])
  {
    var rows := mid.delete[|st.delete|..];
    LastRow(g, r, st.deleted, rows);
    TailGrows(st.delete, mid.delete, r);
    assert EdgeNulls([]) + RowNulls(g, rows + [r]) == RowNulls(g, rows + [r]);
    GrewIs(g, st, st', rows + [r], mid.setNull[|st.setNull|..], RowNulls(g, rows + [r]), []);
  }

  lemma TailGrows(before: seq<RowRef>, mid: seq<RowRef>, r: RowRef)
    requires before <= mid
    ensures before <= mid + [r] && (mid + [r])[|before|..] == mid[|before|..] + [r]
  {
  }

  lemma MemoAdds(g: Graph, mid: State, r: RowRef)
    requires MemoSound(g, mid) && !Cyclic(g, r)
    requires forall c :: Cascades(g, r, c) ==> c in mid.deleted
    requires forall rc :: !RestrictedBy(g, r, rc)
    ensures MemoSound(g, mid.(delete := mid.delete + [r], deleted := mid.deleted + {r}))
  {
  }

  lemma MemoGrowsByReach(g: Graph, r: RowRef, before: set<RowRef>, mid: set<RowRef>)
    requires !Cyclic(g, r) && r !in before
    requires forall x :: x in mid <==> x in before || exists c :: Cascades(g, r, c) && Reaches(g, c, x)
    ensures r !in mid
    ensures forall x :: x in mid + {r} <==> x in before || Reaches(g, r, x)
  {
    ReachesSelf(g, r);
    assert r !in mid by {
      if r in mid {
        assert OnCycle(g, r);
      }
    }
    forall x ensures x in mid + {r} <==> x in before || Reaches(g, r, x) {
      if Reaches(g, r, x) && x != r {
        var c := ReachesUncons(g, r, x);
      }
      if c :| Cascades(g, r, c) && Reaches(g, c, x) {
        ReachesCons(g, r, c, x);
      }
    }
  }

  lemma LastRow(g: Graph, r: RowRef, base: set<RowRef>, rows: seq<RowRef>)
    requires ChildrenFirst(g, rows, base)
    requires r !in base + PathSet(rows)
    requires forall c :: Cascades(g, r, c) ==> c in base + PathSet(rows)
    ensures ChildrenFirst(g, rows + [r], base)
    ensures PathSet(rows + [r]) == PathSet(rows) + {r}
    ensures RowNulls(g, rows + [r]) == EdgeNulls(Edges(g, r)) + RowNulls(g, rows)
  {
    assert (rows + [r])[..|rows|] == rows;
  }

  lemma {:induction false} SweepSound(
    g: Graph, universe: set<RowRef>, es: seq<Edge>, r: RowRef, path: seq<RowRef>, st: State, blocked: bool
  )
    requires Closed(g, universe)
    requires forall e :: e in es ==> e.Child() in universe
    requires Chain(g, path) && |path| > 0 && path[|path| - 1] == r
    requires forall c :: CascadesIn(es, c) ==> Cascades(g, r, c)
    requires MemoSound(g, st)
    ensures SweepPost(g, es, st, blocked, Sweep(g, universe, es, path, st, blocked))
    decreases universe - PathSet(path), |es| + 1
  {
    if es == [] {
      assert st.delete[|st.delete|..] == [] && st.setNull[|st.setNull|..] == [];
      return;
    }
    var e, rest := es[0], es[1..];
    assert es == [e] + rest;
    assert forall c :: CascadesIn(rest, c) ==> CascadesIn(es, c);
    match e.fk.onDelete
    case Restrict =>
      SweepSound(g, universe, rest, r, path, st.(restricted := st.restricted + [e.Restriction()]), true);
      SweepRestrict(g, es, st, blocked, Sweep(g, universe, es, path, st, blocked));
    case SetNull =>
      var st1 := st.(setNull := st.setNull + [e.Nulls()]);
      SweepSound(g, universe, rest, r, path, st1, blocked);
      SweepNull(g, es, st, blocked, Sweep(g, universe, es, path, st, blocked));
    case Cascade =>
      var c := e.Child();
      assert CascadesIn(es, c);
      assert Chain(g, path + [c]);
      VisitSound(g, universe, c, path, st);
      match Visit(g, universe, c, path, st) {
        case Failed(_) =>
        case Done(deletable, mid) =>
          SweepSound(g, universe, rest, r, path, mid, blocked || !deletable);
          SweepCascade(g, es, st, blocked, deletable, mid, Sweep(g, universe, es, path, st, blocked));
      }
  }

  lemma SweepRestrict(g: Graph, es: seq<Edge>, st: State, blocked: bool, o: Outcome)
    requires es != [] && es[0].fk.onDelete == Restrict
    requires SweepPost(g, es[1..], st.(restricted := st.restricted + [es[0].Restriction()]), true, o)
    ensures SweepPost(g, es, st, blocked, o)
  {
    var rest := es[1..];
    assert es == [es[0]] + rest;
    assert forall c :: CascadesIn(es, c) <==> CascadesIn(rest, c);
    assert RestrictedIn(es, es[0].Restriction()) && BlockedIn(g, es, es[0].Restriction());
    assert forall rc :: BlockedIn(g, es, rc) <==> rc == es[0].Restriction() || BlockedIn(g, rest, rc);
  }

  lemma SweepNull(g: Graph, es: seq<Edge>, st: State, blocked: bool, o: Outcome)
    requires es != [] && es[0].fk.onDelete == SetNull
    requires SweepPost(g, es[1..], st.(setNull := st.setNull + [es[0].Nulls()]), blocked, o)
    ensures SweepPost(g, es, st, blocked, o)
  {
    var rest := es[1..];
    NullBlocksNothing(g, es);
    if o.Done? && o.deletable {
      GrewByNull(g, st, o.st, es);
    }
  }

  lemma GrewByNull(g: Graph, st: State, st': State, es: seq<Edge>)
    requires es != [] && es[0].fk.onDelete == SetNull
    requires Grew(g, st.(setNull := st.setNull + [es[0].Nulls()]), st', es[1..])
    ensures Grew(g, st, st', es)
  {
    var n := |st.setNull|;
    assert st'.setNull[n..] == [es[0].Nulls()] + st'.setNull[n + 1..];
  }

  /** A set-null reference at the head neither cascades nor restricts. */
  lemma NullBlocksNothing(g: Graph, es: seq<Edge>)
    requires es != [] && es[0].fk.onDelete == SetNull
    ensures forall c :: CascadesIn(es, c) <==> CascadesIn(es[1..], c)
    ensures forall rc :: BlockedIn(g, es, rc) <==> BlockedIn(g, es[1..], rc)
  {
    assert es == [es[0]] + es[1..];
    forall c ensures CascadesIn(es, c) <==> CascadesIn(es[1..], c) {
    }
    forall rc ensures RestrictedIn(es, rc) <==> RestrictedIn(es[1..], rc) {
    }
  }

  lemma SweepCascade(g: Graph, es: seq<Edge>, st: State, blocked: bool, deletable: bool, mid: State, o: Outcome)
    requires es != [] && es[0].fk.onDelete == Cascade
    requires VisitPost(g, es[0].Child(), st, Done(deletable, mid))
    requires SweepPost(g, es[1..], mid, blocked || !deletable, o)
    ensures SweepPost(g, es, st, blocked, o)
  {
    var c0, rest := es[0].Child(), es[1..];
    assert es == [es[0]] + rest;
    assert CascadesIn(es, c0);
    assert forall c :: CascadesIn(es, c) <==> c == c0 || CascadesIn(rest, c);
    assert forall rc :: RestrictedIn(es, rc) <==> RestrictedIn(rest, rc);
    assert forall rc :: BlockedIn(g, es, rc) <==> BlockedBy(g, c0, rc) || BlockedIn(g, rest, rc);
    if o.Done? && o.deletable {
      GrewTrans(g, st, mid, o.st, rest);
    }
  }

  // ── the planner ──────────────────────────────────────────────────────────

  datatype Verdict = Ok(deletable: bool) | Err(error: PlannerError)

  class DeletePlanner {
    const g: Graph
    var path: seq<RowRef>
    var deleted: set<RowRef>
    var delete: seq<RowRef>
    var setNull: seq<SetNullUpdate>
    var restricted: seq<RestrictedConstraint>

    constructor (g: Graph)
      ensures this.g == g && path == [] && St() == State({}, [], [], [])
    {
      this.g := g;
      path, deleted, delete, setNull, restricted := [], {}, [], [], [];
    }

    ghost function St(): State
      reads this
    {
      State(deleted, delete, setNull, restricted)
    }

    /** The references in `todo` are still to be planned and lead to `outcome`. */
    ghost predicate Pending(universe: set<RowRef>, todo: seq<Edge>, blocked: bool, outcome: Outcome)
      reads this
    {
      && Closed(g, universe)
      && (forall e :: e in todo ==> e.Child() in universe)
      && outcome == Sweep(g, universe, todo, path, St(), blocked)
    }

    /** `plan_delete_recursive`: the search over the mutable plan is the function `Visit`. */
    method PlanRow(r: RowRef, ghost universe: set<RowRef>) returns (v: Verdict)
      requires Closed(g, universe) && r in universe
      modifies this
      ensures match Visit(g, universe, r, old(path), old(St()))
              case Failed(e) => v == Err(e)
              case Done(deletable, st) => v == Ok(deletable) && St() == st && path == old(path)
      decreases universe - PathSet(path), 0
    {
      if r in deleted {
        return Ok(true);
      }
      if r in path {
        return Err(CircularDelete(r.table));
      }
      path := path + [r];
      if FindTable(g.tables, r.table).None? {
        return Err(TableNotFound(r.table));
      }
      var deleteSnapshot, setNullSnapshot := |delete|, |setNull|;
      assert r in universe - old(PathSet(path)) && r !in universe - PathSet(path);
      v := PlanReferences(r, universe);
      if v.Err? {
        return v;
      }
      path := path[..|path| - 1];
      assert path == old(path);
      if !v.deletable {
        delete := delete[..deleteSnapshot];
        setNull := setNull[..setNullSnapshot];
        return v;
      }
      delete := delete + [r];
      deleted := deleted + {r};
    }

    /** The loops over the tables, their foreign keys into `r`, and the rows found. */
    method PlanReferences(r: RowRef, ghost universe: set<RowRef>) returns (v: Verdict)
      requires Closed(g, universe) && r in universe
      modifies this
      ensures match Sweep(g, universe, Edges(g, r), old(path), old(St()), false)
              case Failed(e) => v == Err(e)
              case Done(free, st) => v == Ok(free) && St() == st && path == old(path)
      decreases universe - PathSet(path), 3
    {
      ghost var outcome := Sweep(g, universe, Edges(g, r), path, St(), false);
      var blocked := false;
      var i := 0;
      while i < |g.tables|
        invariant 0 <= i <= |g.tables|
        invariant path == old(path)
        invariant Pending(universe, TableEdges(g, g.tables[i..], r), blocked, outcome)
      {
        var child := g.tables[i];
        ghost var tablesLeft := TableEdges(g, g.tables[i + 1..], r);
        assert g.tables[i..][0] == child && g.tables[i..][1..] == g.tables[i + 1..];
        assert child.foreignKeys[0..] == child.foreignKeys;
        var j := 0;
        while j < |child.foreignKeys|
          invariant 0 <= j <= |child.foreignKeys|
          invariant path == old(path)
          invariant Pending(universe, ForeignKeyEdges(g, child, child.foreignKeys[j..], r) + tablesLeft, blocked, outcome)
        {
          var fk := child.foreignKeys[j];
          assert child.foreignKeys[j..][0] == fk && child.foreignKeys[j..][1..] == child.foreignKeys[j + 1..];
          ghost var left := ForeignKeyEdges(g, child, child.foreignKeys[j + 1..], r) + tablesLeft;
          if fk.referencesTable == r.table {
            var pks := g.find(child, fk, r.pk);
            assert ForeignKeyEdges(g, child, child.foreignKeys[j..], r) + tablesLeft == KeyEdges(child, fk, pks) + left;
            v := PlanChildren(child, fk, pks, blocked, universe, left, outcome);
            if v.Err? {
              return v;
            }
            blocked := !v.deletable;
          }
          j := j + 1;
        }
        assert ForeignKeyEdges(g, child, child.foreignKeys[j..], r) + tablesLeft == tablesLeft;
        i := i + 1;
      }
      return Ok(!blocked);
    }

    /** The loop over the rows that reference through one foreign key. */
    method PlanChildren(
      child: Table, fk: ForeignKey, pks: seq<string>, blocked: bool,
      ghost universe: set<RowRef>, ghost left: seq<Edge>, ghost outcome: Outcome
    ) returns (v: Verdict)
      requires Pending(universe, KeyEdges(child, fk, pks) + left, blocked, outcome)
      modifies this
      ensures v.Err? ==> outcome == Failed(v.error)
      ensures v.Ok? ==> path == old(path) && Pending(universe, left, !v.deletable, outcome)
      decreases universe - PathSet(path), 2
    {
      v := Ok(!blocked);
      assert pks[0..] == pks;
      var k := 0;
      while k < |pks|
        invariant 0 <= k <= |pks|
        invariant path == old(path) && v.Ok?
        invariant Pending(universe, KeyEdges(child, fk, pks[k..]) + left, !v.deletable, outcome)
      {
        ghost var e, rest := Edge(child.name, fk, pks[k]), KeyEdges(child, fk, pks[k + 1..]) + left;
        assert pks[k..][0] == pks[k] && pks[k..][1..] == pks[k + 1..];
        assert KeyEdges(child, fk, pks[k..]) + left == [e] + rest;
        v := PlanReference(child, fk, pks[k], v.deletable, universe, rest, outcome);
        if v.Err? {
          return v;
        }
        k := k + 1;
      }
      assert KeyEdges(child, fk, pks[k..]) + left == left;
    }

    /** One referencing row: restrict, set null, or cascade. */
    method PlanReference(
      child: Table, fk: ForeignKey, pk: string, free: bool,
      ghost universe: set<RowRef>, ghost rest: seq<Edge>, ghost outcome: Outcome
    ) returns (v: Verdict)
      requires Pending(universe, [Edge(child.name, fk, pk)] + rest, !free, outcome)
      modifies this
      ensures v.Err? ==> outcome == Failed(v.error)
      ensures v.Ok? ==> path == old(path) && Pending(universe, rest, !v.deletable, outcome)
      decreases universe - PathSet(path), 1
    {
      ghost var todo := [Edge(child.name, fk, pk)] + rest;
      assert todo[0] == Edge(child.name, fk, pk) && todo[1..] == rest;
      match fk.onDelete
      case Restrict =>
        restricted := restricted + [RestrictedConstraint(child.name, fk.name)];
        v := Ok(false);
      case SetNull =>
        setNull := setNull + [SetNullUpdate(child.name, pk, fk.columns)];
        v := Ok(free);
      case Cascade =>
        assert todo[0].Child() in universe;
        v := PlanRow(RowRef(child.name, pk), universe);
        if v.Ok? {
          v := Ok(free && v.deletable);
        }
    }
  }

  datatype DeletePlan = DeletePlan(
    delete: seq<RowRef>,
    setNull: seq<SetNullUpdate>,
    restricted: seq<RestrictedConstraint>
  )

  datatype PlanResult = Planned(plan: DeletePlan) | Refused(error: PlannerError)

  /** Every row the delete of `root` cascades to, exactly once, each after the rows that
      cascade from it, `root` last; and exactly the set-null updates out of those rows. */
  ghost predicate CompletePlan(g: Graph, root: RowRef, plan: DeletePlan) {
    && plan.delete != [] && plan.delete[|plan.delete| - 1] == root
    && (forall x :: x in plan.delete <==> Reaches(g, root, x))
    && ChildrenFirst(g, plan.delete, {})
    && multiset(plan.setNull) == RowNulls(g, plan.delete)
  }

  /** What `plan_delete` answers, stated on the deletion graph alone. */
  ghost predicate PlanSpec(g: Graph, root: RowRef, res: PlanResult) {
    match res
    case Refused(TableNotFound(t)) => t == root.table && !HasTable(g.tables, t)
    case Refused(CircularDelete(t)) =>
      HasTable(g.tables, root.table) && exists x: RowRef :: x.table == t && Reaches(g, root, x) && OnCycle(g, x)
    case Planned(plan) =>
      && HasTable(g.tables, root.table)
      && !Cyclic(g, root)
      && (forall rc :: rc in plan.restricted <==> BlockedBy(g, root, rc))
      && (plan.restricted == [] ==> CompletePlan(g, root, plan))
      && (plan.restricted != [] ==> plan.delete == [] && plan.setNull == [])
  }

  method PlanDelete(g: Graph, root: RowRef, ghost universe: set<RowRef>) returns (res: PlanResult)
    requires Closed(g, universe) && root in universe
    ensures PlanSpec(g, root, res)
  {
    var planner := new DeletePlanner(g);
    ghost var st0 := planner.St();
    ghost var o := Visit(g, universe, root, [], st0);
    var v := planner.PlanRow(root, universe);
    VisitSound(g, universe, root, [], st0);
    if v.Err? {
      return Refused(v.error);
    }
    var plan := DeletePlan(planner.delete, planner.setNull, planner.restricted);
    PlanFromVisit(g, root, universe, plan);
    return Planned(plan);
  }

  lemma PlanFromVisit(g: Graph, root: RowRef, universe: set<RowRef>, plan: DeletePlan)
    requires Closed(g, universe) && root in universe
    requires var o := Visit(g, universe, root, [], State({}, [], [], []));
             o.Done? && plan == DeletePlan(o.st.delete, o.st.setNull, o.st.restricted)
    ensures PlanSpec(g, root, Planned(plan))
  {
    var st0 := State({}, [], [], []);
    var o := Visit(g, universe, root, [], st0);
    VisitSound(g, universe, root, [], st0);
    if o.deletable {
      assert o.st.delete[|st0.delete|..] == o.st.delete;
      assert o.st.setNull[|st0.setNull|..] == o.st.setNull;
      ReachesSelf(g, root);
    } else {
      assert exists rc :: BlockedBy(g, root, rc);
    }
  }

  /** The three refusals are exclusive and exact: a circular delete is reported exactly when
      the table exists and a cycle of cascades is reachable, and an answer is a plan
      otherwise; the plan restricts exactly when some reachable row is restricted. */
  lemma PlanIsExact(g: Graph, root: RowRef, res: PlanResult)
    requires PlanSpec(g, root, res)
    ensures res.Refused? && res.error.TableNotFound? <==> !HasTable(g.tables, root.table)
    ensures res.Refused? && res.error.CircularDelete? <==> HasTable(g.tables, root.table) && Cyclic(g, root)
    ensures res.Planned? ==> (res.plan.restricted != [] <==> Blocked(g, root))
  {
    if res.Planned? && res.plan.restricted != [] {
      assert BlockedBy(g, root, res.plan.restricted[0]);
    }
  }
}
