/** Joins on which the pushed form goes wrong: conjuncts that are lost, filters on the right of
    a left join, and probes that miss matching rows; and exactly when it is right. */
module JoinLimits {
  import opened Lists
  import opened Strings
  import opened Values
  import opened Bytes
  import opened Schema
  import opened Query
  import opened Pushdown
  import opened Overlay
  import opened Exec
  import opened Join
  import opened JoinUnion

  // ── where splitting goes wrong ───────────────────────────────────────────

  lemma {:induction false} SameSides(cx: Context, cs: seq<Expr>, ds: seq<Expr>, joins: seq<JoinClause>, acc: seq<JoinRow>, bare: Bare)
    requires forall j :: j in joins ==> SideOf(cs, j.alias) == SideOf(ds, j.alias)
    ensures PushedJoins(cx, cs, joins, acc, bare) == PushedJoins(cx, ds, joins, acc, bare)
    decreases |joins|
  {
    if joins != [] {
      assert forall j :: j in joins[1..] ==> j in joins;
      assert joins[0] in joins;
      var next := PushedStep(cx, cs, joins[0], acc, bare);
      if next.Some? {
        SameSides(cx, cs, ds, joins[1..], next.value, bare);
      }
    }
  }

  /** The conjuncts that are filed under the alias of subqueries, which no table has. */
  function Lost(cs: seq<Expr>): seq<Expr> {
    Keep(cs, (c: Expr) => OnlyAlias(c, SUBQUERY))
  }

  function Found(cs: seq<Expr>): seq<Expr> {
    Keep(cs, (c: Expr) => !OnlyAlias(c, SUBQUERY))
  }

  /** The query without the conjuncts that are lost. */
  function WithoutLost(q: JoinQuery): JoinQuery {
    q.(filter := Some(And(Found(FilterConjuncts(q)))))
  }

  lemma {:induction false} LostSplits(cs: seq<Expr>, c: Expr)
    ensures c in cs <==> c in Lost(cs) || c in Found(cs)
    ensures c in Lost(cs) ==> OnlyAlias(c, SUBQUERY)
  {
    KeepHas(cs, (e: Expr) => OnlyAlias(e, SUBQUERY), c);
    KeepHas(cs, (e: Expr) => !OnlyAlias(e, SUBQUERY), c);
  }

  lemma {:induction false} FoundSides(cs: seq<Expr>, a: string)
    requires a != SUBQUERY
    ensures SideOf(Found(cs), a) == SideOf(cs, a)
    ensures ResidualOf(Found(cs)) == ResidualOf(cs)
  {
    if cs != [] {
      var c, rest := cs[0], Found(cs[1..]);
      FoundSides(cs[1..], a);
      if OnlyAlias(c, SUBQUERY) {
        assert SUBQUERY in Aliases(c) && HasOneAlias(c) && !OnlyAlias(c, a);
        assert Found(cs) == rest;
      } else {
        assert Found(cs) == [c] + rest && ([c] + rest)[1..] == rest;
      }
    }
  }

  lemma {:induction false} FlatConjuncts(cs: seq<Expr>)
    requires forall c :: c in cs ==> !c.And?
    ensures AllConjuncts(cs) == cs
  {
    if cs != [] {
      assert cs[0] in cs && forall c :: c in cs[1..] ==> c in cs;
      FlatConjuncts(cs[1..]);
      assert cs == [cs[0]] + cs[1..];
    }
  }

  lemma FoundConjuncts(q: JoinQuery)
    ensures FilterConjuncts(WithoutLost(q)) == Found(FilterConjuncts(q))
  {
    var cs := FilterConjuncts(q);
    if q.filter.Some? {
      ConjunctsFlat(q.filter.value);
    }
    forall c | c in Found(cs) ensures !c.And? {
      LostSplits(cs, c);
    }
    FlatConjuncts(Found(cs));
  }

  /** The code runs the query as if the lost conjuncts were not there. */
  lemma LostConjunctsIgnored(cx: Context, q: JoinQuery, bare: Bare)
    requires SUBQUERY != q.alias && forall j :: j in q.joins ==> j.alias != SUBQUERY
    ensures RunJoin(cx, q, bare) == RunJoin(cx, WithoutLost(q), bare)
  {
    var cs, p := FilterConjuncts(q), WithoutLost(q);
    FoundConjuncts(q);
    forall a | a != SUBQUERY ensures SideOf(Found(cs), a) == SideOf(cs, a) && ResidualOf(Found(cs)) == ResidualOf(cs) {
      FoundSides(cs, a);
    }
    assert SUBQUERY != q.alias;
    var base := SideRows(cx, q.table, SideOf(cs, q.alias), []);
    if base.Some? {
      SameSides(cx, cs, Found(cs), q.joins, BaseRows(q.alias, base.value), bare);
    }
  }

  /** An `EXISTS` that stands alone, or is combined with nothing but others, is filed under an
      alias no table has, and is never evaluated. The join is right all the same exactly when
      every row that passes the other conjuncts passes these too. */
  lemma LostConjunctsExactly(cx: Context, q: JoinQuery, bare: Bare)
    requires EngineSound(cx) && WellTyped(cx) && q.filter.Some? && Steady(cx, q.filter.value)
    requires SUBQUERY != q.alias && forall j :: j in q.joins ==> j.alias != SUBQUERY
    requires QueryOk(cx, WithoutLost(q), bare)
    ensures PlainJoin(cx, WithoutLost(q), bare).Some?
    ensures RunJoin(cx, q, bare) == PlainJoin(cx, q, bare) <==>
            forall row, c :: row in PlainJoin(cx, WithoutLost(q), bare).value && c in Lost(FilterConjuncts(q)) ==>
              Holds(cx, c, Joined(row, bare))
  {
    var p, f := WithoutLost(q), q.filter.value;
    LostConjunctsIgnored(cx, q, bare);
    JoinIsPlain(cx, p, bare);
    SidesArePushed(cx, p, bare);
    var rows := PlainJoins(cx, q.joins, BaseRows(q.alias, TableRows(cx, q.table).value), bare).value;
    var some := (row: JoinRow) => Holds(cx, p.filter.value, Joined(row, bare));
    var lost := (row: JoinRow) => forall c :: c in Lost(FilterConjuncts(q)) ==> Holds(cx, c, Joined(row, bare));
    var whole := (row: JoinRow) => Holds(cx, f, Joined(row, bare));
    forall row: JoinRow
      ensures FilterTest(cx, f, bare)(row) == Some(whole(row)) && FilterTest(cx, p.filter.value, bare)(row) == Some(some(row))
      ensures whole(row) <==> some(row) && lost(row)
    {
      SteadyAgrees(cx, f, Joined(row, bare));
      SteadyAgrees(cx, p.filter.value, Joined(row, bare));
      WholeFilter(cx, q, Joined(row, bare));
    }
    FilterJoinedKeeps(FilterTest(cx, f, bare), whole, rows);
    FilterJoinedKeeps(FilterTest(cx, p.filter.value, bare), some, rows);
    KeepKeep(rows, some, lost, whole);
    KeepWhole(Keep(rows, some), lost);
  }

  lemma WholeFilter(cx: Context, q: JoinQuery, sc: Scope)
    requires q.filter.Some? && Steady(cx, q.filter.value) && Steady(cx, WithoutLost(q).filter.value)
    ensures var cs := FilterConjuncts(q);
            Holds(cx, q.filter.value, sc) <==>
            Holds(cx, WithoutLost(q).filter.value, sc) && forall c :: c in Lost(cs) ==> Holds(cx, c, sc)
  {
    var cs := FilterConjuncts(q);
    ConjunctsHold(cx, q.filter.value, sc);
    ConjunctsHold(cx, WithoutLost(q).filter.value, sc);
    FoundConjuncts(q);
    forall c ensures c in cs <==> c in Lost(cs) || c in Found(cs) {
      LostSplits(cs, c);
    }
  }

  /** With nothing but a bare `EXISTS` for a filter, the code answers as if there were none:
      that is right exactly when the test holds, or the join is empty anyway. */
  lemma BareExistsExactly(cx: Context, q: JoinQuery, sub: Select, bare: Bare)
    requires EngineSound(cx) && WellTyped(cx) && q.filter.Some? && Steady(cx, q.filter.value)
    requires q.filter.value == Exists(sub) || q.filter.value == NotExists(sub)
    requires SUBQUERY != q.alias && forall j :: j in q.joins ==> j.alias != SUBQUERY
    requires QueryOk(cx, WithoutLost(q), bare)
    ensures RunJoin(cx, q, bare) == PlainJoin(cx, q, bare) <==>
            Holds(cx, q.filter.value, Joined(map[], bare)) || PlainJoin(cx, WithoutLost(q), bare) == Some([])
  {
    var f := q.filter.value;
    LostConjunctsExactly(cx, q, bare);
    BareIsLost(q, sub);
    var rows := PlainJoin(cx, WithoutLost(q), bare).value;
    forall row ensures Holds(cx, f, Joined(row, bare)) <==> Holds(cx, f, Joined(map[], bare)) {
      SameVerdict(cx, f, sub, Joined(row, bare), Joined(map[], bare));
    }
    AllOrNone(rows, [f], Holds(cx, f, Joined(map[], bare)), (row: JoinRow, c: Expr) => Holds(cx, c, Joined(row, bare)));
  }

  lemma BareIsLost(q: JoinQuery, sub: Select)
    requires q.filter.Some? && (q.filter.value == Exists(sub) || q.filter.value == NotExists(sub))
    ensures Lost(FilterConjuncts(q)) == [q.filter.value]
  {
    var f := q.filter.value;
    var lost := (c: Expr) => OnlyAlias(c, SUBQUERY);
    assert FilterConjuncts(q) == [f] && lost(f);
    KeepWhole([f], lost);
  }

  lemma SameVerdict(cx: Context, f: Expr, sub: Select, a: Scope, b: Scope)
    requires f == Exists(sub) || f == NotExists(sub)
    ensures Holds(cx, f, a) == Holds(cx, f, b)
  {
  }

  lemma AllOrNone(rows: seq<JoinRow>, cs: seq<Expr>, verdict: bool, holds: (JoinRow, Expr) -> bool)
    requires |cs| == 1 && forall row :: holds(row, cs[0]) == verdict
    ensures (forall row, c :: row in rows && c in cs ==> holds(row, c)) <==> verdict || rows == []
  {
    if rows != [] {
      assert rows[0] in rows && cs[0] in cs;
      assert holds(rows[0], cs[0]) == verdict;
    }
  }

  // ── where probing goes wrong ─────────────────────────────────────────────

  /** The row has a row of the alias. */
  function Matched(alias: string): JoinRow -> bool {
    (row: JoinRow) => alias in row && row[alias].Some?
  }

  /** Without the unmatched rows of a left join, every join is an inner one. */
  lemma {:induction false} MatchedAreInner(test: JoinRow -> Option<bool>, kind: JoinKind, alias: string, acc: seq<JoinRow>, rows: seq<Row>)
    requires forall x :: test(x).Some?
    ensures NestedLoop(test, kind, alias, acc, rows).Some? && NestedLoop(test, Inner, alias, acc, rows).Some?
    ensures Keep(NestedLoop(test, kind, alias, acc, rows).value, Matched(alias)) == NestedLoop(test, Inner, alias, acc, rows).value
    decreases |acc|
  {
    if acc != [] {
      MatchedAreInner(test, kind, alias, acc[1..], rows);
      MatchesNeverFail(test, alias, acc[0], rows);
      var ms := Matches(test, alias, acc[0], rows).value;
      var here := if ms == [] && kind == Left then [acc[0][alias := None]] else ms;
      KeepAppend(here, NestedLoop(test, kind, alias, acc[1..], rows).value, Matched(alias));
      if here == ms {
        KeepEvery(ms, Matched(alias));
      } else {
        KeepNone(here, Matched(alias));
      }
    }
  }

  lemma {:induction false} InnerFiltered(fast: JoinRow -> Option<bool>, plain: JoinRow -> Option<bool>, alias: string,
                                         acc: seq<JoinRow>, rows: seq<Row>, kept: Row -> bool)
    requires SameTests(fast, plain)
    ensures NestedLoop(plain, Inner, alias, acc, rows).Some?
    ensures NestedLoop(fast, Inner, alias, acc, Keep(rows, kept))
         == Some(Keep(NestedLoop(plain, Inner, alias, acc, rows).value, KeptPart(alias, kept)))
    decreases |acc|
  {
    if acc != [] {
      InnerFiltered(fast, plain, alias, acc[1..], rows, kept);
      MatchesFiltered(fast, plain, alias, acc[0], rows, KeptPart(alias, kept), kept);
      KeepAppend(Matches(plain, alias, acc[0], rows).value, NestedLoop(plain, Inner, alias, acc[1..], rows).value, KeptPart(alias, kept));
    }
  }

  lemma {:induction false} PairIsJoined(test: JoinRow -> Option<bool>, alias: string, acc: seq<JoinRow>, rows: seq<Row>, left: JoinRow, r: Row)
    requires (forall x :: test(x).Some?) && left in acc && r in rows && test(left[alias := Some(r)]) == Some(true)
    ensures NestedLoop(test, Inner, alias, acc, rows).Some?
    ensures left[alias := Some(r)] in NestedLoop(test, Inner, alias, acc, rows).value
    decreases |acc|
  {
    MatchedAreInner(test, Inner, alias, acc, rows);
    if left == acc[0] {
      MatchIsFound(test, alias, left, rows, r);
    } else {
      PairIsJoined(test, alias, acc[1..], rows, left, r);
    }
  }

  /** Leaving right rows out of a join leaves its result alone exactly when none of them
      matches. */
  lemma LeftOutExactly(fast: JoinRow -> Option<bool>, plain: JoinRow -> Option<bool>, kind: JoinKind, alias: string,
                       acc: seq<JoinRow>, rows: seq<Row>, kept: Row -> bool)
    requires SameTests(fast, plain)
    ensures NestedLoop(fast, kind, alias, acc, Keep(rows, kept)) == NestedLoop(plain, kind, alias, acc, rows) <==>
            forall left, r :: left in acc && r in rows && plain(left[alias := Some(r)]) == Some(true) ==> kept(r)
  {
    if forall left, r :: left in acc && r in rows && plain(left[alias := Some(r)]) == Some(true) ==> kept(r) {
      var all, side := (row: JoinRow) => true, (r: Row) => true;
      LoopFiltered(fast, plain, kind, alias, acc, rows, all, side, kept);
      KeepEvery(acc, all);
      KeepEvery(NestedLoop(plain, kind, alias, acc, rows).value, all);
    }
    if NestedLoop(fast, kind, alias, acc, Keep(rows, kept)) == NestedLoop(plain, kind, alias, acc, rows) {
      forall x: JoinRow ensures fast(x).Some? {
        assert plain(x).Some?;
      }
      MatchedAreInner(fast, kind, alias, acc, Keep(rows, kept));
      MatchedAreInner(plain, kind, alias, acc, rows);
      InnerFiltered(fast, plain, alias, acc, rows, kept);
      var inner := NestedLoop(plain, Inner, alias, acc, rows).value;
      KeepWhole(inner, KeptPart(alias, kept));
      forall left, r | left in acc && r in rows && plain(left[alias := Some(r)]) == Some(true) ensures kept(r) {
        PairIsJoined(plain, alias, acc, rows, left, r);
        assert KeptPart(alias, kept)(left[alias := Some(r)]);
      }
    }
  }

  /** The right row matches the accumulated row. */
  predicate Pair(cx: Context, j: JoinClause, bare: Bare, left: JoinRow, r: Row) {
    OnTest(cx, false, j, bare)(left[j.alias := Some(r)]) == Some(true)
  }

  /** A pair that satisfies an `ON` which is probed: the probe finds its right row. */
  predicate ProbeFinds(cx: Context, j: JoinClause, r: Row)
    requires FindTable(cx.tables, j.table).Some? && j.on.Some? && EqualityOf(j.on.value, j.alias).Some?
  {
    var t, right := FindTable(cx.tables, j.table).value, EqualityOf(j.on.value, j.alias).value.right;
    Get(r, right) != Null && (HasStagedFor(cx.staged, j.table) || RealBitmap(t, right))
  }

  /** The rows the probe fetches, among those that match: not null, and in a column with a
      bitmap unless the table has staged rows. */
  lemma ProbedRows(cx: Context, j: JoinClause, acc: seq<JoinRow>, bare: Bare) returns (k: Row -> bool)
    requires EngineSound(cx) && WellTyped(cx) && j.table !in cx.ctes && '.' !in j.alias
    requires FindTable(cx.tables, j.table).Some? && Probe(cx, j, acc) != []
    ensures SideRows(cx, j.table, [], Probe(cx, j, acc)) == Some(Keep(TableRows(cx, j.table).value, k))
    ensures forall left, r :: left in acc && r in TableRows(cx, j.table).value && Pair(cx, j, bare, left, r) ==>
              (k(r) <==> ProbeFinds(cx, j, r))
  {
    var probe := Probe(cx, j, acc);
    assert SideOf([], j.alias) == [];
    k := KeptOf(cx, j.table, [], probe);
    SideRowsAre(cx, j.table, [], probe);
    forall left, r | left in acc && r in TableRows(cx, j.table).value && Pair(cx, j, bare, left, r)
      ensures k(r) <==> ProbeFinds(cx, j, r)
    {
      KeptIsFound(cx, [], j, acc, bare, left, r);
    }
  }

  lemma MatchingMeans(cx: Context, j: JoinClause, acc: seq<JoinRow>, bare: Bare, left: JoinRow, r: Row, c: Condition)
    requires WellTyped(cx) && '.' !in j.alias && FindTable(cx.tables, j.table).Some?
    requires c in Probe(cx, j, acc) && left in acc
    requires Pair(cx, j, bare, left, r)
    ensures var t, right := FindTable(cx.tables, j.table).value, EqualityOf(j.on.value, j.alias).value.right;
            && c.BitmapIn?
            && (Means(t, r, c) <==> Get(r, right) != Null)
            && (EngineMeans(t, r, c) <==> Get(r, right) != Null && RealBitmap(t, right))
  {
    var t := FindTable(cx.tables, j.table).value;
    var eq := EqualityOf(j.on.value, j.alias).value;
    var col := t.Col(eq.right).value;
    EqualityHolds(cx, j, left, r, bare);
    CellOfColumn(t, r, eq.right);
    assert c == BitmapIn(col.id, ProbeKeys(acc, eq.left));
    if Get(r, eq.right) != Null {
      assert LeftKey(left, eq.left) == ValueKey(Get(r, eq.right));
      ProbeKeysHas(acc, eq.left, left);
    }
    assert forall d :: d in t.columns && d.id == col.id ==> d == col;
  }

  /** A probed join gives the rows of the plain join exactly when no matching pair of keys is
      null, because nulls are equal to `json_cmp` and not indexed, and, if anything matches,
      the probed column has a bitmap or the table has staged rows: the code takes an index of
      any kind for a bitmap. */
  lemma ProbedStepExactly(cx: Context, j: JoinClause, acc: seq<JoinRow>, bare: Bare)
    requires EngineSound(cx) && WellTyped(cx) && j.table !in cx.ctes && '.' !in j.alias
    requires FindTable(cx.tables, j.table).Some? && (j.on.Some? ==> Steady(cx, j.on.value)) && Probe(cx, j, acc) != []
    ensures PushedStep(cx, [], j, acc, bare) == PlainStep(cx, j, acc, bare) <==>
            forall left, r :: left in acc && r in TableRows(cx, j.table).value && Pair(cx, j, bare, left, r) ==>
              ProbeFinds(cx, j, r)
  {
    var k := ProbedRows(cx, j, acc, bare);
    var rows, fast, plain := TableRows(cx, j.table).value, OnTest(cx, true, j, bare), OnTest(cx, false, j, bare);
    OnAgrees(cx, j, bare);
    LeftOutExactly(fast, plain, j.kind, j.alias, acc, rows, k);
    StepsAre(cx, j, acc, bare, k);
    PairsAre(cx, j, acc, rows, bare, k);
  }

  lemma PairsAre(cx: Context, j: JoinClause, acc: seq<JoinRow>, rows: seq<Row>, bare: Bare, k: Row -> bool)
    requires FindTable(cx.tables, j.table).Some? && j.on.Some? && EqualityOf(j.on.value, j.alias).Some?
    requires forall left, r :: left in acc && r in rows && Pair(cx, j, bare, left, r) ==> (k(r) <==> ProbeFinds(cx, j, r))
    ensures var plain := OnTest(cx, false, j, bare);
            (forall left, r :: left in acc && r in rows && plain(left[j.alias := Some(r)]) == Some(true) ==> k(r)) <==>
            (forall left, r :: left in acc && r in rows && Pair(cx, j, bare, left, r) ==> ProbeFinds(cx, j, r))
  {
    var plain := OnTest(cx, false, j, bare);
    forall left, r ensures plain(left[j.alias := Some(r)]) == Some(true) <==> Pair(cx, j, bare, left, r) {
    }
  }

  lemma StepsAre(cx: Context, j: JoinClause, acc: seq<JoinRow>, bare: Bare, k: Row -> bool)
    requires TableRows(cx, j.table).Some?
    requires SideRows(cx, j.table, [], Probe(cx, j, acc)) == Some(Keep(TableRows(cx, j.table).value, k))
    ensures var rows := TableRows(cx, j.table).value;
            && PushedStep(cx, [], j, acc, bare) == NestedLoop(OnTest(cx, true, j, bare), j.kind, j.alias, acc, Keep(rows, k))
            && PlainStep(cx, j, acc, bare) == NestedLoop(OnTest(cx, false, j, bare), j.kind, j.alias, acc, rows)
  {
    assert SideOf([], j.alias) == [];
  }

  // ── whole queries ────────────────────────────────────────────────────────

  /** A conjunct that names one alias only names it in every column, and that alias is one of
      the query's, the right side of a left join included. */
  ghost predicate Filed(q: JoinQuery) {
    forall c, a :: c in FilterConjuncts(q) && OnlyAlias(c, a) ==> Qualified(c) && a in {q.alias} + AliasSet(q.joins)
  }

  /** The conjuncts on an alias whose row is missing hold nevertheless. */
  predicate PadsHold(cx: Context, q: JoinQuery, bare: Bare, x: JoinRow) {
    forall c, a :: c in FilterConjuncts(q) && a in x && OnlyAlias(c, a) && x[a].None? ==> Holds(cx, c, Joined(x, bare))
  }

  /** The whole filter, in the parts it is split into. */
  lemma FilterParts(cx: Context, q: JoinQuery, x: JoinRow, bare: Bare)
    requires Filed(q) && (q.filter.Some? ==> Steady(cx, q.filter.value)) && x.Keys == {q.alias} + AliasSet(q.joins)
    ensures FilterHolds(cx, q, bare, x) <==>
            PassesSides(cx, FilterConjuncts(q))(x) && PadsHold(cx, q, bare, x) && ResidualHolds(cx, q, bare, x)
  {
    var cs, sc := FilterConjuncts(q), Joined(x, bare);
    if q.filter.Some? {
      ConjunctsHold(cx, q.filter.value, sc);
      forall c | c in cs ensures c in ResidualOf(cs) <==> !HasOneAlias(c) {
        ResidualHas(cs, c);
      }
      forall c | c in ResidualOf(cs) ensures c in cs {
        ResidualHas(cs, c);
      }
      forall c, a | c in cs && OnlyAlias(c, a) && x[a].Some?
        ensures Holds(cx, Strip(c, a), Flat(x[a].value)) <==> Holds(cx, c, sc)
        ensures Strip(c, a) in SideOf(cs, a)
      {
        StripKeeps(cx, c, a, sc, x[a].value);
        SideOfHas(cs, a, Strip(c, a));
      }
      if PassesSides(cx, cs)(x) && PadsHold(cx, q, bare, x) && ResidualHolds(cx, q, bare, x) {
        PartsHold(cx, q, x, bare);
      }
      if FilterHolds(cx, q, bare, x) {
        forall a, s | a in x.Keys && x[a].Some? && s in SideOf(cs, a) ensures Holds(cx, s, Flat(x[a].value)) {
          SideOfHas(cs, a, s);
        }
      }
    } else {
      forall a ensures SideOf(cs, a) == [] {
      }
    }
  }

  lemma PartsHold(cx: Context, q: JoinQuery, x: JoinRow, bare: Bare)
    requires Filed(q) && x.Keys == {q.alias} + AliasSet(q.joins)
    requires forall c :: c in FilterConjuncts(q) && !HasOneAlias(c) ==> c in ResidualOf(FilterConjuncts(q))
    requires forall c, a :: c in FilterConjuncts(q) && OnlyAlias(c, a) && x[a].Some? ==>
               && Strip(c, a) in SideOf(FilterConjuncts(q), a)
               && (Holds(cx, Strip(c, a), Flat(x[a].value)) ==> Holds(cx, c, Joined(x, bare)))
    requires PassesSides(cx, FilterConjuncts(q))(x) && PadsHold(cx, q, bare, x) && ResidualHolds(cx, q, bare, x)
    ensures forall c :: c in FilterConjuncts(q) ==> Holds(cx, c, Joined(x, bare))
  {
    forall c | c in FilterConjuncts(q) ensures Holds(cx, c, Joined(x, bare)) {
      if HasOneAlias(c) {
        var a :| a in Aliases(c) && OnlyAlias(c, a);
        if x[a].Some? {
          assert Passing(cx, SideOf(FilterConjuncts(q), a))(x[a].value);
        }
      }
    }
  }

  // ── what is fetched is what the probes find ──────────────────────────────

  /** Each probe on the way finds its part of the joined row. */
  ghost predicate ProbesFind(cx: Context, cs: seq<Expr>, joins: seq<JoinClause>, pushed: seq<JoinRow>, bare: Bare, x: JoinRow)
    decreases |joins|
  {
    joins != [] ==>
      var j := joins[0];
      && (j.alias in x && x[j.alias].Some? && j.table !in cx.ctes && Probe(cx, j, pushed) != [] ==> ProbeFinds(cx, j, x[j.alias].value))
      && match PushedStep(cx, cs, j, pushed, bare)
         case None => true
         case Some(next) => ProbesFind(cx, cs, joins[1..], next, bare, x)
  }

  lemma {:induction false} UnionHas(test: JoinRow -> Option<bool>, kind: JoinKind, alias: string, acc: seq<JoinRow>, rows: seq<Row>,
                                    kept: Row -> bool, y: JoinRow)
    returns (left: JoinRow)
    requires (forall x :: test(x).Some?) && y in UnionLoop(test, kind, alias, acc, rows, kept)
    ensures left in acc
    ensures (exists r :: r in rows && y == left[alias := Some(r)] && test(y) == Some(true))
         || (kind == Left && y == left[alias := None]
             && forall r :: r in rows && test(left[alias := Some(r)]) == Some(true) ==> !kept(r))
    decreases |acc|
  {
    MatchesNeverFail(test, alias, acc[0], rows);
    var ms := Matches(test, alias, acc[0], rows).value;
    if y in ms {
      left := acc[0];
    } else if y in UnionOf(test, kind, alias, acc[0], rows, kept) {
      left := acc[0];
      forall r | r in rows && test(left[alias := Some(r)]) == Some(true) ensures !kept(r) {
        MatchIsFound(test, alias, left, rows, r);
        KeepHas(ms, KeptPart(alias, kept), left[alias := Some(r)]);
      }
    } else {
      left := UnionHas(test, kind, alias, acc[1..], rows, kept, y);
    }
  }

  lemma {:induction false} UnionPrefix(cx: Context, cs: seq<Expr>, joins: seq<JoinClause>, acc: seq<JoinRow>, pushed: seq<JoinRow>, bare: Bare,
                                       done: set<string>, x: JoinRow)
    requires EngineSound(cx) && WellTyped(cx) && (forall j :: j in joins ==> JoinFits(cx, cs, j)) && DistinctAliases(joins, done)
    requires (forall y: JoinRow :: y in acc ==> y.Keys == done) && x in Union(cx, cs, joins, acc, pushed, bare)
    ensures Prefix(x, done) in acc
    decreases |joins|
  {
    if joins == [] {
      assert Prefix(x, done) == x;
    } else {
      var j := joins[0];
      assert j in joins && forall k :: k in joins[1..] ==> k in joins;
      var rows, plain := TableRows(cx, j.table).value, OnTest(cx, false, j, bare);
      var kept := KeptOf(cx, j.table, SideOf(cs, j.alias), Probe(cx, j, pushed));
      OnAgrees(cx, j, bare);
      UnionShaped(plain, j.kind, j.alias, acc, rows, kept, done);
      UnionPrefix(cx, cs, joins[1..], UnionLoop(plain, j.kind, j.alias, acc, rows, kept), PushedStep(cx, cs, j, pushed, bare).value, bare,
                  done + {j.alias}, x);
      UnionLeft(plain, j.kind, j.alias, acc, rows, kept, done, x);
    }
  }

  lemma UnionLeft(test: JoinRow -> Option<bool>, kind: JoinKind, alias: string, acc: seq<JoinRow>, rows: seq<Row>, kept: Row -> bool,
                  done: set<string>, x: JoinRow)
    requires (forall x :: test(x).Some?) && alias !in done && forall y: JoinRow :: y in acc ==> y.Keys == done
    requires Prefix(x, done + {alias}) in UnionLoop(test, kind, alias, acc, rows, kept)
    ensures alias in x && Prefix(x, done) in acc
  {
    var y := Prefix(x, done + {alias});
    var left := UnionHas(test, kind, alias, acc, rows, kept, y);
    assert alias in y && y == left[alias := y[alias]];
    WithoutAlias(left, alias, y[alias]);
    PrefixStep(x, done, alias);
  }

  /** A matching part is fetched exactly when the probe finds it. */
  lemma KeptIsFound(cx: Context, cs: seq<Expr>, j: JoinClause, pushed: seq<JoinRow>, bare: Bare, left: JoinRow, r: Row)
    requires WellTyped(cx) && '.' !in j.alias && left in pushed && Pair(cx, j, bare, left, r)
    requires Passing(cx, SideOf(cs, j.alias))(r)
    ensures KeptOf(cx, j.table, SideOf(cs, j.alias), Probe(cx, j, pushed))(r) <==>
            (j.table !in cx.ctes && Probe(cx, j, pushed) != [] ==> ProbeFinds(cx, j, r))
  {
    var probe := Probe(cx, j, pushed);
    if probe != [] {
      assert probe == [probe[0]];
      MatchingMeans(cx, j, pushed, bare, left, r, probe[0]);
    }
  }

  lemma {:induction false} FetchedIsProbed(cx: Context, cs: seq<Expr>, joins: seq<JoinClause>, acc: seq<JoinRow>, pushed: seq<JoinRow>, bare: Bare,
                                           done: set<string>, fetched: JoinRow -> bool, x: JoinRow)
    requires EngineSound(cx) && WellTyped(cx) && (forall j :: j in joins ==> JoinFits(cx, cs, j) && '.' !in j.alias)
    requires DistinctAliases(joins, done) && (forall y: JoinRow :: y in acc ==> y.Keys == done) && pushed == Keep(acc, fetched)
    requires x in Union(cx, cs, joins, acc, pushed, bare) && Prefix(x, done) in pushed && PassesSides(cx, cs)(x)
    ensures FetchedAlong(cx, cs, joins, pushed, bare, x) <==> ProbesFind(cx, cs, joins, pushed, bare, x)
    decreases |joins|
  {
    if joins != [] {
      var j := joins[0];
      assert j in joins && forall k :: k in joins[1..] ==> k in joins;
      var rows, plain := TableRows(cx, j.table).value, OnTest(cx, false, j, bare);
      var kept := KeptOf(cx, j.table, SideOf(cs, j.alias), Probe(cx, j, pushed));
      var union := UnionLoop(plain, j.kind, j.alias, acc, rows, kept);
      StepIsThinned(cx, cs, j, acc, pushed, bare, done, fetched, fetched);
      var next := PushedStep(cx, cs, j, pushed, bare).value;
      var y := Prefix(x, done + {j.alias});
      UnionPrefix(cx, cs, joins[1..], union, next, bare, done + {j.alias}, x);
      PartIsMatch(cx, j, acc, rows, bare, kept, done, x);
      PrefixStep(x, done, j.alias);
      if x[j.alias].Some? {
        KeptIsFound(cx, cs, j, pushed, bare, Prefix(x, done), x[j.alias].value);
      }
      if x[j.alias].Some? ==> kept(x[j.alias].value) {
        KeepHas(acc, fetched, Prefix(x, done));
        KeepHas(union, FetchedBy(j.alias, kept, fetched), y);
        FetchedIsProbed(cx, cs, joins[1..], union, next, bare, done + {j.alias}, FetchedBy(j.alias, kept, fetched), x);
      }
    }
  }

  /** A candidate's part, where it has one, matches what was joined before. */
  lemma PartIsMatch(cx: Context, j: JoinClause, acc: seq<JoinRow>, rows: seq<Row>, bare: Bare, kept: Row -> bool, done: set<string>, x: JoinRow)
    requires EngineSound(cx) && WellTyped(cx) && (j.on.Some? ==> Steady(cx, j.on.value)) && j.alias !in done
    requires forall y: JoinRow :: y in acc ==> y.Keys == done
    requires Prefix(x, done + {j.alias}) in UnionLoop(OnTest(cx, false, j, bare), j.kind, j.alias, acc, rows, kept)
    ensures j.alias in x
    ensures x[j.alias].Some? ==> Pair(cx, j, bare, Prefix(x, done), x[j.alias].value) && x[j.alias].value in rows
    ensures x[j.alias].None? ==> j.kind == Left
  {
    var y := Prefix(x, done + {j.alias});
    OnAgrees(cx, j, bare);
    var left := UnionHas(OnTest(cx, false, j, bare), j.kind, j.alias, acc, rows, kept, y);
    assert j.alias in y;
    PrefixStep(x, done, j.alias);
    assert left == Prefix(x, done) by {
      WithoutAlias(left, j.alias, y[j.alias]);
      assert y == left[j.alias := y[j.alias]];
    }
  }

  /** A candidate that passes the sides and the residual, and that only one of the forms
      returns: the code if its probes find it, and the plain join if it is padded only where
      nothing matches and the conjuncts on its missing sides hold. */
  ghost predicate Differs(cx: Context, q: JoinQuery, bare: Bare, x: JoinRow)
    requires TableRows(cx, q.table).Some?
  {
    && x in Candidates(cx, q, bare) && PassesSides(cx, FilterConjuncts(q))(x) && ResidualHolds(cx, q, bare, x)
    && !(ProbesFind(cx, FilterConjuncts(q), q.joins, PushedBase(cx, q), bare, x)
         <==> GenuineAlong(cx, q.joins, bare, {q.alias}, x) && PadsHold(cx, q, bare, x))
  }

  /** The pushed join equals the plain one exactly when no candidate makes the difference. */
  lemma QualifiedJoinExactly(cx: Context, q: JoinQuery, bare: Bare)
    requires EngineSound(cx) && WellTyped(cx) && QueryFits(cx, q) && Filed(q) && forall j :: j in q.joins ==> '.' !in j.alias
    ensures RunJoin(cx, q, bare) == PlainJoin(cx, q, bare) <==> forall x: JoinRow :: !Differs(cx, q, bare, x)
  {
    PushedJoinExactly(cx, q, bare);
    forall x: JoinRow | x in Candidates(cx, q, bare)
      ensures Differs(cx, q, bare, x) <==> !(Returned(cx, q, bare)(x) <==> Wanted(cx, q, bare)(x))
    {
      FilterParts(cx, q, x, bare);
      ReturnedIsProbed(cx, q, bare, x);
    }
  }

  lemma ReturnedIsProbed(cx: Context, q: JoinQuery, bare: Bare, x: JoinRow)
    requires EngineSound(cx) && WellTyped(cx) && QueryFits(cx, q) && (forall j :: j in q.joins ==> '.' !in j.alias)
    requires x in Candidates(cx, q, bare) && x.Keys == {q.alias} + AliasSet(q.joins)
    ensures Returned(cx, q, bare)(x) <==>
            && PassesSides(cx, FilterConjuncts(q))(x)
            && ProbesFind(cx, FilterConjuncts(q), q.joins, PushedBase(cx, q), bare, x)
            && ResidualHolds(cx, q, bare, x)
  {
    var cs := FilterConjuncts(q);
    var b := Prefix(x, {q.alias});
    UnionPrefix(cx, cs, q.joins, Base(cx, q), PushedBase(cx, q), bare, {q.alias}, x);
    KeepHas(Base(cx, q), BasePassing(cx, q), b);
    assert q.alias in b && b[q.alias] == x[q.alias];
    if PassesSides(cx, cs)(x) {
      assert x[q.alias].Some? && Passing(cx, SideOf(cs, q.alias))(x[q.alias].value);
      FetchedIsProbed(cx, cs, q.joins, Base(cx, q), PushedBase(cx, q), bare, {q.alias}, BasePassing(cx, q), x);
    }
    if Returned(cx, q, bare)(x) {
      FetchedPasses(cx, cs, q.joins, Base(cx, q), PushedBase(cx, q), bare, {q.alias}, BasePassing(cx, q), x);
    }
  }

  lemma PrefixPasses(cx: Context, cs: seq<Expr>, x: JoinRow, done: set<string>, alias: string)
    requires PassesSides(cx, cs)(Prefix(x, done)) && alias in x
    requires x[alias].Some? ==> Passing(cx, SideOf(cs, alias))(x[alias].value)
    ensures PassesSides(cx, cs)(Prefix(x, done + {alias}))
  {
    var y := Prefix(x, done + {alias});
    forall a | a in y && y[a].Some? ensures Passing(cx, SideOf(cs, a))(y[a].value) {
      if a != alias {
        assert Prefix(x, done)[a] == y[a];
      }
    }
  }

  /** What is fetched passes the conjuncts of its side. */
  lemma {:induction false} FetchedPasses(cx: Context, cs: seq<Expr>, joins: seq<JoinClause>, acc: seq<JoinRow>, pushed: seq<JoinRow>, bare: Bare,
                                         done: set<string>, fetched: JoinRow -> bool, x: JoinRow)
    requires EngineSound(cx) && WellTyped(cx) && (forall j :: j in joins ==> JoinFits(cx, cs, j)) && DistinctAliases(joins, done)
    requires (forall y: JoinRow :: y in acc ==> y.Keys == done) && pushed == Keep(acc, fetched)
    requires FetchedAlong(cx, cs, joins, pushed, bare, x)
    requires x.Keys == done + AliasSet(joins) && PassesSides(cx, cs)(Prefix(x, done))
    ensures PassesSides(cx, cs)(x)
    decreases |joins|
  {
    if joins == [] {
      assert Prefix(x, done) == x;
    } else {
      var j := joins[0];
      assert j in joins && forall k :: k in joins[1..] ==> k in joins;
      StepIsThinned(cx, cs, j, acc, pushed, bare, done, fetched, fetched);
      AliasesUnfold(joins);
      SetsUnfold(done, j.alias, AliasSet(joins[1..]));
      var kept := KeptOf(cx, j.table, SideOf(cs, j.alias), Probe(cx, j, pushed));
      PrefixPasses(cx, cs, x, done, j.alias);
      FetchedPasses(cx, cs, joins[1..], UnionLoop(OnTest(cx, false, j, bare), j.kind, j.alias, acc, TableRows(cx, j.table).value, kept),
                    PushedStep(cx, cs, j, pushed, bare).value, bare, done + {j.alias}, FetchedBy(j.alias, kept, fetched), x);
    }
  }

  // ── joins without padding ────────────────────────────────────────────────

  /** Inner and cross joins pad nothing. */
  lemma {:induction false} NothingPadded(cx: Context, cs: seq<Expr>, joins: seq<JoinClause>, acc: seq<JoinRow>, pushed: seq<JoinRow>, bare: Bare,
                                         done: set<string>, x: JoinRow)
    requires EngineSound(cx) && WellTyped(cx) && (forall j :: j in joins ==> JoinFits(cx, cs, j) && j.kind != Left)
    requires DistinctAliases(joins, done) && (forall y: JoinRow :: y in acc ==> y.Keys == done)
    requires x in Union(cx, cs, joins, acc, pushed, bare)
    ensures forall j :: j in joins ==> j.alias in x && x[j.alias].Some?
    ensures GenuineAlong(cx, joins, bare, done, x)
    decreases |joins|
  {
    if joins != [] {
      var j := joins[0];
      assert j in joins && forall k :: k in joins ==> k == j || k in joins[1..];
      assert forall k :: k in joins[1..] ==> k in joins;
      var rows, plain := TableRows(cx, j.table).value, OnTest(cx, false, j, bare);
      var kept := KeptOf(cx, j.table, SideOf(cs, j.alias), Probe(cx, j, pushed));
      var union, next := UnionLoop(plain, j.kind, j.alias, acc, rows, kept), PushedStep(cx, cs, j, pushed, bare).value;
      OnAgrees(cx, j, bare);
      UnionShaped(plain, j.kind, j.alias, acc, rows, kept, done);
      UnionPrefix(cx, cs, joins[1..], union, next, bare, done + {j.alias}, x);
      PartIsMatch(cx, j, acc, rows, bare, kept, done, x);
      NothingPadded(cx, cs, joins[1..], union, next, bare, done + {j.alias}, x);
    }
  }

  /** Any number of inner and cross joins under any filter: the probes leave the answer alone
      exactly when, in each row of it, they find every part: its key is not null, and its
      column has a bitmap or its table staged rows. */
  lemma ProbedJoinsExactly(cx: Context, q: JoinQuery, bare: Bare)
    requires EngineSound(cx) && WellTyped(cx) && QueryFits(cx, q) && Filed(q)
    requires forall j :: j in q.joins ==> '.' !in j.alias && j.kind != Left
    ensures PlainJoin(cx, q, bare).Some?
    ensures RunJoin(cx, q, bare) == PlainJoin(cx, q, bare) <==>
            forall x: JoinRow :: x in PlainJoin(cx, q, bare).value ==>
              ProbesFind(cx, FilterConjuncts(q), q.joins, PushedBase(cx, q), bare, x)
  {
    QualifiedJoinExactly(cx, q, bare);
    PushedJoinExactly(cx, q, bare);
    forall x: JoinRow
      ensures Differs(cx, q, bare, x) <==>
              x in PlainJoin(cx, q, bare).value && !ProbesFind(cx, FilterConjuncts(q), q.joins, PushedBase(cx, q), bare, x)
    {
      KeepHas(Candidates(cx, q, bare), Wanted(cx, q, bare), x);
      if x in Candidates(cx, q, bare) {
        InnerDiffers(cx, q, bare, x);
      }
    }
  }

  lemma InnerDiffers(cx: Context, q: JoinQuery, bare: Bare, x: JoinRow)
    requires EngineSound(cx) && WellTyped(cx) && QueryFits(cx, q) && Filed(q) && (forall j :: j in q.joins ==> j.kind != Left)
    requires x in Candidates(cx, q, bare) && x.Keys == {q.alias} + AliasSet(q.joins)
    ensures Differs(cx, q, bare, x) <==>
            Wanted(cx, q, bare)(x) && !ProbesFind(cx, FilterConjuncts(q), q.joins, PushedBase(cx, q), bare, x)
  {
    InnerCandidate(cx, q, bare, x);
    FilterParts(cx, q, x, bare);
  }

  lemma InnerCandidate(cx: Context, q: JoinQuery, bare: Bare, x: JoinRow)
    requires EngineSound(cx) && WellTyped(cx) && QueryFits(cx, q) && (forall j :: j in q.joins ==> j.kind != Left)
    requires x in Candidates(cx, q, bare) && x.Keys == {q.alias} + AliasSet(q.joins)
    ensures GenuineAlong(cx, q.joins, bare, {q.alias}, x) && PadsHold(cx, q, bare, x)
  {
    BaseShaped(cx, q);
    NothingPadded(cx, FilterConjuncts(q), q.joins, Base(cx, q), PushedBase(cx, q), bare, {q.alias}, x);
    BaseNotPadded(cx, q, bare, x);
    AllParts(q, x);
  }

  lemma AllParts(q: JoinQuery, x: JoinRow)
    requires x.Keys == {q.alias} + AliasSet(q.joins) && x[q.alias].Some? && forall j :: j in q.joins ==> j.alias in x && x[j.alias].Some?
    ensures forall a :: a in x ==> x[a].Some?
  {
  }

  lemma BaseShaped(cx: Context, q: JoinQuery)
    requires TableRows(cx, q.table).Some?
    ensures forall y: JoinRow :: y in Base(cx, q) ==> y.Keys == {q.alias} && y[q.alias].Some?
  {
  }

  lemma BaseNotPadded(cx: Context, q: JoinQuery, bare: Bare, x: JoinRow)
    requires EngineSound(cx) && WellTyped(cx) && QueryFits(cx, q) && x in Candidates(cx, q, bare)
    ensures q.alias in x && x[q.alias].Some?
  {
    var b := Prefix(x, {q.alias});
    BaseShaped(cx, q);
    UnionPrefix(cx, FilterConjuncts(q), q.joins, Base(cx, q), PushedBase(cx, q), bare, {q.alias}, x);
    assert q.alias in b && b[q.alias] == x[q.alias];
  }

  // ── filters on the right of a left join ──────────────────────────────────

  /** The padded row is among the union's if no match is kept. */
  lemma {:induction false} PadIsIn(test: JoinRow -> Option<bool>, alias: string, acc: seq<JoinRow>, rows: seq<Row>, kept: Row -> bool, left: JoinRow)
    requires (forall x :: test(x).Some?) && left in acc && alias !in left
    requires forall r :: r in rows && test(left[alias := Some(r)]) == Some(true) ==> !kept(r)
    ensures left[alias := None] in UnionLoop(test, Left, alias, acc, rows, kept)
    decreases |acc|
  {
    if left == acc[0] {
      MatchesNeverFail(test, alias, left, rows);
      var ms := Matches(test, alias, left, rows).value;
      forall x: JoinRow | x in ms ensures !KeptPart(alias, kept)(x) {
        var r :| r in rows && x == left[alias := Some(r)] && test(x) == Some(true);
      }
      KeepNone(ms, KeptPart(alias, kept));
      assert UnionOf(test, Left, alias, left, rows, kept) == ms + [left[alias := None]];
      assert (ms + [left[alias := None]])[|ms|] == left[alias := None];
    } else {
      PadIsIn(test, alias, acc[1..], rows, kept, left);
    }
  }

  /** The base row matches some right row that passes the conjuncts on the right alias, or it
      matches none and, padded, passes them itself. */
  ghost predicate RightlyPadded(cx: Context, q: JoinQuery, j: JoinClause, bare: Bare, left: JoinRow)
    requires TableRows(cx, j.table).Some?
  {
    var cs, rows := FilterConjuncts(q), TableRows(cx, j.table).value;
    || (exists r :: r in rows && Pair(cx, j, bare, left, r) && Passing(cx, SideOf(cs, j.alias))(r))
    || ((forall r :: r in rows ==> !Pair(cx, j, bare, left, r))
        && forall c :: c in cs && OnlyAlias(c, j.alias) ==> Holds(cx, c, Joined(left[j.alias := None], bare)))
  }

  /** One left join, without a probe. */
  ghost predicate OneLeftJoin(cx: Context, q: JoinQuery) {
    && EngineSound(cx) && WellTyped(cx) && QueryFits(cx, q) && Filed(q)
    && |q.joins| == 1 && q.joins[0].kind == Left && '.' !in q.joins[0].alias
    && TableRows(cx, q.joins[0].table).Some?
    && Probe(cx, q.joins[0], PushedBase(cx, q)) == []
  }

  lemma UnionOfOne(cx: Context, cs: seq<Expr>, j: JoinClause, acc: seq<JoinRow>, pushed: seq<JoinRow>, bare: Bare)
    requires TableRows(cx, j.table).Some? && PushedStep(cx, cs, j, pushed, bare).Some?
    ensures Union(cx, cs, [j], acc, pushed, bare)
         == UnionLoop(OnTest(cx, false, j, bare), j.kind, j.alias, acc, TableRows(cx, j.table).value,
                      KeptOf(cx, j.table, SideOf(cs, j.alias), Probe(cx, j, pushed)))
  {
    assert [j][1..] == [];
  }

  /** The right rows that are fetched, without a probe. */
  ghost function Unprobed(cx: Context, q: JoinQuery): Row -> bool
    requires |q.joins| == 1
  {
    KeptOf(cx, q.joins[0].table, SideOf(FilterConjuncts(q), q.joins[0].alias), [])
  }

  lemma UnprobedIsPassing(cx: Context, q: JoinQuery, r: Row)
    requires |q.joins| == 1
    ensures Unprobed(cx, q)(r) <==> Passing(cx, SideOf(FilterConjuncts(q), q.joins[0].alias))(r)
  {
  }

  lemma OneUnionLoop(cx: Context, q: JoinQuery, bare: Bare)
    requires OneLeftJoin(cx, q)
    ensures var j := q.joins[0];
            && j.alias != q.alias
            && Candidates(cx, q, bare) == UnionLoop(OnTest(cx, false, j, bare), Left, j.alias, Base(cx, q), TableRows(cx, j.table).value, Unprobed(cx, q))
            && SameTests(OnTest(cx, true, j, bare), OnTest(cx, false, j, bare))
  {
    var j, cs := q.joins[0], FilterConjuncts(q);
    assert q.joins == [j] && j in q.joins;
    BaseShaped(cx, q);
    OnAgrees(cx, j, bare);
    StepIsThinned(cx, cs, j, Base(cx, q), PushedBase(cx, q), bare, {q.alias}, BasePassing(cx, q), BasePassing(cx, q));
    UnionOfOne(cx, cs, j, Base(cx, q), PushedBase(cx, q), bare);
  }

  lemma CandidateKeys(cx: Context, q: JoinQuery, bare: Bare, x: JoinRow)
    requires OneLeftJoin(cx, q) && x in Candidates(cx, q, bare)
    ensures x.Keys == {q.alias, q.joins[0].alias}
  {
    var j := q.joins[0];
    OneUnionLoop(cx, q, bare);
    BaseShaped(cx, q);
    UnionShaped(OnTest(cx, false, j, bare), Left, j.alias, Base(cx, q), TableRows(cx, j.table).value, Unprobed(cx, q), {q.alias});
  }

  /** A base row is padded in the union if none of its matches passes. */
  lemma PadIsCandidate(cx: Context, q: JoinQuery, bare: Bare, left: JoinRow)
    requires OneLeftJoin(cx, q) && left in Base(cx, q)
    requires var j := q.joins[0];
             forall r :: r in TableRows(cx, j.table).value && Pair(cx, j, bare, left, r) ==> !Passing(cx, SideOf(FilterConjuncts(q), j.alias))(r)
    ensures left[q.joins[0].alias := None] in Candidates(cx, q, bare)
  {
    var j := q.joins[0];
    OneUnionLoop(cx, q, bare);
    BaseShaped(cx, q);
    forall r | r in TableRows(cx, j.table).value && OnTest(cx, false, j, bare)(left[j.alias := Some(r)]) == Some(true)
      ensures !Unprobed(cx, q)(r)
    {
      UnprobedIsPassing(cx, q, r);
      assert Pair(cx, j, bare, left, r);
    }
    PadIsIn(OnTest(cx, false, j, bare), j.alias, Base(cx, q), TableRows(cx, j.table).value, Unprobed(cx, q), left);
  }

  /** A padded candidate is a padded base row none of whose matches passes. */
  lemma PaddedIsBase(cx: Context, q: JoinQuery, bare: Bare, x: JoinRow) returns (left: JoinRow)
    requires OneLeftJoin(cx, q) && x in Candidates(cx, q, bare) && q.joins[0].alias in x && x[q.joins[0].alias].None?
    ensures left in Base(cx, q) && x == left[q.joins[0].alias := None]
    ensures forall r :: r in TableRows(cx, q.joins[0].table).value && Pair(cx, q.joins[0], bare, left, r) ==>
              !Passing(cx, SideOf(FilterConjuncts(q), q.joins[0].alias))(r)
  {
    var j := q.joins[0];
    OneUnionLoop(cx, q, bare);
    left := UnionHas(OnTest(cx, false, j, bare), Left, j.alias, Base(cx, q), TableRows(cx, j.table).value, Unprobed(cx, q), x);
    forall r | r in TableRows(cx, j.table).value && Pair(cx, j, bare, left, r)
      ensures !Passing(cx, SideOf(FilterConjuncts(q), j.alias))(r)
    {
      UnprobedIsPassing(cx, q, r);
    }
  }

  lemma GenuineOne(cx: Context, j: JoinClause, bare: Bare, done: set<string>, x: JoinRow)
    requires j.alias in x && x[j.alias].None? && TableRows(cx, j.table).Some?
    ensures GenuineAlong(cx, [j], bare, done, x) <==> forall r :: r in TableRows(cx, j.table).value ==> !Pair(cx, j, bare, Prefix(x, done), r)
  {
    assert [j][1..] == [];
  }

  lemma PadShape(left: JoinRow, base: string, alias: string)
    requires left.Keys == {base} && base != alias
    ensures var p := left[alias := None];
            Prefix(p, {base}) == left && p.Keys == {base, alias} && p[base] == left[base] && p[alias] == None
  {
  }

  lemma PadPasses(cx: Context, q: JoinQuery, left: JoinRow, alias: string)
    requires left.Keys == {q.alias} && q.alias != alias && left[q.alias].Some?
    ensures PassesSides(cx, FilterConjuncts(q))(left[alias := None]) <==> BasePassing(cx, q)(left)
  {
    PadShape(left, q.alias, alias);
  }

  lemma PadHolds(cx: Context, q: JoinQuery, bare: Bare, left: JoinRow, alias: string)
    requires left.Keys == {q.alias} && q.alias != alias && left[q.alias].Some?
    ensures var p := left[alias := None];
            PadsHold(cx, q, bare, p) <==> forall c :: c in FilterConjuncts(q) && OnlyAlias(c, alias) ==> Holds(cx, c, Joined(p, bare))
  {
    PadShape(left, q.alias, alias);
  }

  /** What is true of a padded base row. */
  lemma PadFacts(cx: Context, q: JoinQuery, bare: Bare, left: JoinRow)
    requires OneLeftJoin(cx, q) && left in Base(cx, q)
    ensures var j, cs := q.joins[0], FilterConjuncts(q);
            var p := left[j.alias := None];
            && (PassesSides(cx, cs)(p) <==> BasePassing(cx, q)(left))
            && (GenuineAlong(cx, q.joins, bare, {q.alias}, p) <==> forall r :: r in TableRows(cx, j.table).value ==> !Pair(cx, j, bare, left, r))
            && (PadsHold(cx, q, bare, p) <==> forall c :: c in cs && OnlyAlias(c, j.alias) ==> Holds(cx, c, Joined(p, bare)))
  {
    var j := q.joins[0];
    OneUnionLoop(cx, q, bare);
    BaseShaped(cx, q);
    PadShape(left, q.alias, j.alias);
    PadPasses(cx, q, left, j.alias);
    PadHolds(cx, q, bare, left, j.alias);
    assert q.joins == [j];
    GenuineOne(cx, j, bare, {q.alias}, left[j.alias := None]);
  }

  lemma NotProbed(cx: Context, q: JoinQuery, bare: Bare, x: JoinRow)
    requires OneLeftJoin(cx, q)
    ensures ProbesFind(cx, FilterConjuncts(q), q.joins, PushedBase(cx, q), bare, x)
  {
    assert q.joins[1..] == [];
  }

  lemma MatchedIsGenuine(cx: Context, q: JoinQuery, bare: Bare, x: JoinRow)
    requires OneLeftJoin(cx, q) && x in Candidates(cx, q, bare) && q.joins[0].alias in x && x[q.joins[0].alias].Some?
    requires x.Keys == {q.alias, q.joins[0].alias}
    ensures GenuineAlong(cx, q.joins, bare, {q.alias}, x) && PadsHold(cx, q, bare, x)
  {
    BaseNotPadded(cx, q, bare, x);
    assert q.joins[1..] == [] && q.joins == [q.joins[0]];
  }

  lemma DifferenceIsPadded(cx: Context, q: JoinQuery, bare: Bare, x: JoinRow) returns (left: JoinRow)
    requires OneLeftJoin(cx, q) && Differs(cx, q, bare, x) && x.Keys == {q.alias, q.joins[0].alias}
    ensures left in PushedBase(cx, q) && ResidualHolds(cx, q, bare, left[q.joins[0].alias := None])
    ensures !RightlyPadded(cx, q, q.joins[0], bare, left)
  {
    NotProbed(cx, q, bare, x);
    if x[q.joins[0].alias].Some? {
      MatchedIsGenuine(cx, q, bare, x);
    }
    left := PaddedIsBase(cx, q, bare, x);
    PadFacts(cx, q, bare, left);
    KeepHas(Base(cx, q), BasePassing(cx, q), left);
  }

  lemma WrongPadDiffers(cx: Context, q: JoinQuery, bare: Bare, left: JoinRow)
    requires OneLeftJoin(cx, q) && left in PushedBase(cx, q) && ResidualHolds(cx, q, bare, left[q.joins[0].alias := None])
    requires !RightlyPadded(cx, q, q.joins[0], bare, left)
    ensures Differs(cx, q, bare, left[q.joins[0].alias := None])
  {
    KeepHas(Base(cx, q), BasePassing(cx, q), left);
    PadIsCandidate(cx, q, bare, left);
    PadFacts(cx, q, bare, left);
    NotProbed(cx, q, bare, left[q.joins[0].alias := None]);
  }

  /** A filter on the right of a left join is applied below the join. That gives the plain
      answer exactly when every base row that passes its own conjuncts, and the residual when
      padded, has a match that passes the filter, or has no match and passes it when padded. */
  lemma LeftFilterExactly(cx: Context, q: JoinQuery, bare: Bare)
    requires OneLeftJoin(cx, q)
    ensures RunJoin(cx, q, bare) == PlainJoin(cx, q, bare) <==>
            forall left: JoinRow :: left in PushedBase(cx, q) && ResidualHolds(cx, q, bare, left[q.joins[0].alias := None]) ==>
              RightlyPadded(cx, q, q.joins[0], bare, left)
  {
    var j := q.joins[0];
    assert q.joins == [j];
    QualifiedJoinExactly(cx, q, bare);
    if x: JoinRow :| Differs(cx, q, bare, x) {
      CandidateKeys(cx, q, bare, x);
      var left := DifferenceIsPadded(cx, q, bare, x);
    }
    forall left: JoinRow | left in PushedBase(cx, q) && ResidualHolds(cx, q, bare, left[j.alias := None])
      ensures RightlyPadded(cx, q, j, bare, left) || exists x: JoinRow :: Differs(cx, q, bare, x)
    {
      if !RightlyPadded(cx, q, j, bare, left) {
        WrongPadDiffers(cx, q, bare, left);
      }
    }
  }
}
