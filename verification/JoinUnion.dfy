/** The pushed and the plain join side by side: both thin out one sequence of joined rows, in
    which a left join pads a row as soon as none of its matches is fetched. */
module JoinUnion {
  import opened Lists
  import opened Strings
  import opened Values
  import opened Schema
  import opened Query
  import opened Pushdown
  import opened Overlay
  import opened Exec
  import opened Join

  // ── one nested loop ──────────────────────────────────────────────────────

  /** The row's part for the alias is kept. */
  function KeptPart(alias: string, kept: Row -> bool): JoinRow -> bool {
    (row: JoinRow) => alias in row && row[alias].Some? && kept(row[alias].value)
  }

  /** No right row matches. */
  predicate Unmatched(test: JoinRow -> Option<bool>, alias: string, left: JoinRow, rows: seq<Row>) {
    forall r :: r in rows ==> test(left[alias := Some(r)]) != Some(true)
  }

  function Pad(kind: JoinKind, alias: string, left: JoinRow, found: seq<JoinRow>): seq<JoinRow> {
    if kind == Left && found == [] then [left[alias := None]] else []
  }

  /** All matches of a left row, and its padded row if none of them is kept. */
  function UnionOf(test: JoinRow -> Option<bool>, kind: JoinKind, alias: string, left: JoinRow, rows: seq<Row>, kept: Row -> bool): seq<JoinRow> {
    match Matches(test, alias, left, rows)
    case None => []
    case Some(ms) => ms + Pad(kind, alias, left, Keep(ms, KeptPart(alias, kept)))
  }

  function UnionLoop(test: JoinRow -> Option<bool>, kind: JoinKind, alias: string, acc: seq<JoinRow>, rows: seq<Row>, kept: Row -> bool): seq<JoinRow> {
    if acc == [] then []
    else UnionOf(test, kind, alias, acc[0], rows, kept) + UnionLoop(test, kind, alias, acc[1..], rows, kept)
  }

  /** A row of the loop over the kept right rows. */
  function FetchedBy(alias: string, kept: Row -> bool, pass: JoinRow -> bool): JoinRow -> bool {
    (x: JoinRow) => alias in x && pass(x - {alias}) && (x[alias].Some? ==> kept(x[alias].value))
  }

  /** A row of the loop over all right rows. */
  function GenuineBy(test: JoinRow -> Option<bool>, alias: string, rows: seq<Row>, pass: JoinRow -> bool): JoinRow -> bool {
    (x: JoinRow) => alias in x && pass(x - {alias}) && (x[alias].None? ==> Unmatched(test, alias, x - {alias}, rows))
  }

  lemma WithoutAlias(left: JoinRow, alias: string, r: Option<Row>)
    requires alias !in left
    ensures left[alias := r] - {alias} == left
  {
  }

  lemma {:induction false} MatchIsFound(test: JoinRow -> Option<bool>, alias: string, left: JoinRow, rows: seq<Row>, r: Row)
    requires (forall x :: test(x).Some?) && r in rows && test(left[alias := Some(r)]) == Some(true)
    ensures Matches(test, alias, left, rows).Some? && left[alias := Some(r)] in Matches(test, alias, left, rows).value
    decreases |rows|
  {
    MatchesNeverFail(test, alias, left, rows);
    if r != rows[0] {
      MatchIsFound(test, alias, left, rows[1..], r);
    }
  }

  lemma UnmatchedExactly(test: JoinRow -> Option<bool>, alias: string, left: JoinRow, rows: seq<Row>)
    requires forall x :: test(x).Some?
    ensures Matches(test, alias, left, rows).Some?
    ensures Matches(test, alias, left, rows).value == [] <==> Unmatched(test, alias, left, rows)
  {
    MatchesNeverFail(test, alias, left, rows);
    var ms := Matches(test, alias, left, rows).value;
    if ms == [] {
      forall r | r in rows ensures test(left[alias := Some(r)]) != Some(true) {
        if test(left[alias := Some(r)]) == Some(true) {
          MatchIsFound(test, alias, left, rows, r);
        }
      }
    } else {
      assert ms[0] in ms;
    }
  }

  /** The matches of a left row among the union's rows. */
  lemma MatchesThinned(test: JoinRow -> Option<bool>, alias: string, left: JoinRow, rows: seq<Row>, kept: Row -> bool, pass: JoinRow -> bool)
    requires (forall x :: test(x).Some?) && alias !in left
    ensures Matches(test, alias, left, rows).Some?
    ensures var ms := Matches(test, alias, left, rows).value;
            && Keep(ms, FetchedBy(alias, kept, pass)) == (if pass(left) then Keep(ms, KeptPart(alias, kept)) else [])
            && Keep(ms, GenuineBy(test, alias, rows, pass)) == (if pass(left) then ms else [])
  {
    MatchesNeverFail(test, alias, left, rows);
    var ms := Matches(test, alias, left, rows).value;
    forall x: JoinRow | x in ms ensures alias in x && x[alias].Some? && x - {alias} == left {
      var r :| r in rows && x == left[alias := Some(r)] && test(x) == Some(true);
      WithoutAlias(left, alias, Some(r));
    }
    if pass(left) {
      KeepAlike(ms, FetchedBy(alias, kept, pass), KeptPart(alias, kept));
      KeepEvery(ms, GenuineBy(test, alias, rows, pass));
    } else {
      KeepNone(ms, FetchedBy(alias, kept, pass));
      KeepNone(ms, GenuineBy(test, alias, rows, pass));
    }
  }

  lemma PadThinned(test: JoinRow -> Option<bool>, alias: string, left: JoinRow, rows: seq<Row>, kept: Row -> bool, pass: JoinRow -> bool)
    requires alias !in left
    ensures Keep([left[alias := None]], FetchedBy(alias, kept, pass)) == if pass(left) then [left[alias := None]] else []
    ensures Keep([left[alias := None]], GenuineBy(test, alias, rows, pass))
         == if pass(left) && Unmatched(test, alias, left, rows) then [left[alias := None]] else []
  {
    WithoutAlias(left, alias, None);
  }

  /** What one left row contributes to either loop, out of the union. */
  lemma OneUnion(fast: JoinRow -> Option<bool>, plain: JoinRow -> Option<bool>, kind: JoinKind, alias: string, left: JoinRow,
                 rows: seq<Row>, kept: Row -> bool, pass: JoinRow -> bool)
    requires SameTests(fast, plain) && alias !in left
    ensures Matches(plain, alias, left, rows).Some? && Matches(fast, alias, left, Keep(rows, kept)).Some?
    ensures var union := UnionOf(plain, kind, alias, left, rows, kept);
            var ms, fs := Matches(plain, alias, left, rows).value, Matches(fast, alias, left, Keep(rows, kept)).value;
            && Keep(union, FetchedBy(alias, kept, pass)) == (if pass(left) then fs + Pad(kind, alias, left, fs) else [])
            && Keep(union, GenuineBy(plain, alias, rows, pass)) == (if pass(left) then ms + Pad(kind, alias, left, ms) else [])
  {
    UnmatchedExactly(plain, alias, left, rows);
    var ms := Matches(plain, alias, left, rows).value;
    forall r | r in rows && kept(r) ensures KeptPart(alias, kept)(left[alias := Some(r)]) {
    }
    MatchesFiltered(fast, plain, alias, left, rows, KeptPart(alias, kept), kept);
    var fs := Keep(ms, KeptPart(alias, kept));
    MatchesThinned(plain, alias, left, rows, kept, pass);
    PadThinned(plain, alias, left, rows, kept, pass);
    KeepAppend(ms, Pad(kind, alias, left, fs), FetchedBy(alias, kept, pass));
    KeepAppend(ms, Pad(kind, alias, left, fs), GenuineBy(plain, alias, rows, pass));
  }

  lemma LoopUnfolds(test: JoinRow -> Option<bool>, kind: JoinKind, alias: string, acc: seq<JoinRow>, rows: seq<Row>)
    requires acc != [] && Matches(test, alias, acc[0], rows).Some? && NestedLoop(test, kind, alias, acc[1..], rows).Some?
    ensures var ms := Matches(test, alias, acc[0], rows).value;
            NestedLoop(test, kind, alias, acc, rows)
            == Some(ms + Pad(kind, alias, acc[0], ms) + NestedLoop(test, kind, alias, acc[1..], rows).value)
  {
    var ms := Matches(test, alias, acc[0], rows).value;
    assert ms + [] == ms && [] + [acc[0][alias := None]] == [acc[0][alias := None]];
  }

  /** Either loop, over the rows that have come that far, thins out the union. */
  lemma {:induction false} LoopIsFetched(fast: JoinRow -> Option<bool>, plain: JoinRow -> Option<bool>, kind: JoinKind, alias: string,
                                         acc: seq<JoinRow>, rows: seq<Row>, kept: Row -> bool, pass: JoinRow -> bool)
    requires SameTests(fast, plain) && forall x :: x in acc ==> alias !in x
    ensures NestedLoop(fast, kind, alias, Keep(acc, pass), Keep(rows, kept))
         == Some(Keep(UnionLoop(plain, kind, alias, acc, rows, kept), FetchedBy(alias, kept, pass)))
    ensures NestedLoop(plain, kind, alias, Keep(acc, pass), rows)
         == Some(Keep(UnionLoop(plain, kind, alias, acc, rows, kept), GenuineBy(plain, alias, rows, pass)))
    decreases |acc|
  {
    if acc != [] {
      assert acc[0] in acc && forall x :: x in acc[1..] ==> x in acc;
      LoopIsFetched(fast, plain, kind, alias, acc[1..], rows, kept, pass);
      OneUnion(fast, plain, kind, alias, acc[0], rows, kept, pass);
      var here, rest := UnionOf(plain, kind, alias, acc[0], rows, kept), UnionLoop(plain, kind, alias, acc[1..], rows, kept);
      KeepAppend(here, rest, FetchedBy(alias, kept, pass));
      KeepAppend(here, rest, GenuineBy(plain, alias, rows, pass));
      if pass(acc[0]) {
        var more := [acc[0]] + Keep(acc[1..], pass);
        assert Keep(acc, pass) == more && more[0] == acc[0] && more[1..] == Keep(acc[1..], pass);
        LoopUnfolds(fast, kind, alias, more, Keep(rows, kept));
        LoopUnfolds(plain, kind, alias, more, rows);
      } else {
        assert Keep(acc, pass) == Keep(acc[1..], pass);
        assert forall s: seq<JoinRow> :: [] + s == s;
      }
    }
  }

  // ── one side, fetched exactly ────────────────────────────────────────────

  /** The probe leaves the row in; a CTE is not probed. */
  ghost predicate Probed(cx: Context, table: string, probe: seq<Condition>, r: Row) {
    table !in cx.ctes && FindTable(cx.tables, table).Some? ==>
      forall c :: c in probe ==> Fetched(cx, FindTable(cx.tables, table).value, c)(r)
  }

  ghost function KeptOf(cx: Context, table: string, cs: seq<Expr>, probe: seq<Condition>): Row -> bool {
    (r: Row) => Passing(cx, cs)(r) && Probed(cx, table, probe, r)
  }

  /** The rows of a side are exactly those that pass its conjuncts and the probe. */
  lemma SideRowsAre(cx: Context, table: string, cs: seq<Expr>, probe: seq<Condition>)
    requires EngineSound(cx) && WellTyped(cx) && SideSafe(cx, table, cs) && TableRows(cx, table).Some?
    requires forall c :: c in probe ==> EngineExact(c)
    ensures SideRows(cx, table, cs, probe) == Some(Keep(TableRows(cx, table).value, KeptOf(cx, table, cs, probe)))
  {
    var rows, pass, conditions := TableRows(cx, table).value, Passing(cx, cs), SideConditions(cx, table, cs) + probe;
    var k := FetchIs(cx, table, conditions);
    forall r ensures PassesSide(cx, cs)(r) == Some(pass(r)) {
      SteadyAllAgree(cx, cs, Flat(r));
    }
    FilterByKeeps(PassesSide(cx, cs), pass, Keep(rows, k));
    forall r | r in rows ensures KeptOf(cx, table, cs, probe)(r) <==> k(r) && pass(r) {
      if pass(r) {
        KeptIsFetched(cx, table, cs, probe, r, k);
      }
    }
    KeepKeep(rows, k, pass, KeptOf(cx, table, cs, probe));
  }

  /** The row meets the conditions where they are checked. */
  ghost predicate MeetsAll(cx: Context, table: string, conditions: seq<Condition>, r: Row)
    requires FindTable(cx.tables, table).Some?
  {
    forall c :: c in conditions ==> Fetched(cx, FindTable(cx.tables, table).value, c)(r)
  }

  lemma FetchIs(cx: Context, table: string, conditions: seq<Condition>) returns (k: Row -> bool)
    requires EngineSound(cx) && TableRows(cx, table).Some?
    ensures FilteredRows(cx, table, conditions) == Some(Keep(TableRows(cx, table).value, k))
    ensures table in cx.ctes ==> forall r :: k(r)
    ensures table !in cx.ctes ==> FindTable(cx.tables, table).Some?
    ensures table !in cx.ctes ==> forall r ::
              && (MeetsAll(cx, table, conditions, r) ==> k(r))
              && (k(r) ==> forall c :: c in conditions && EngineExact(c) ==> Fetched(cx, FindTable(cx.tables, table).value, c)(r))
  {
    var rows := TableRows(cx, table).value;
    if conditions == [] || table in cx.ctes {
      k := (r: Row) => true;
      KeepEvery(rows, k);
    } else if HasStagedFor(cx.staged, table) {
      k := MatchesAll(FindTable(cx.tables, table).value, conditions);
    } else {
      k := EngineKeeps(cx, FindTable(cx.tables, table).value, conditions);
      ReplayNothing(KeyedBy(FindTable(cx.tables, table).value), SnapshotOf(cx, table), cx.staged);
    }
  }

  lemma KeptIsFetched(cx: Context, table: string, cs: seq<Expr>, probe: seq<Condition>, r: Row, k: Row -> bool)
    requires WellTyped(cx) && SideSafe(cx, table, cs) && TableRows(cx, table).Some? && r in TableRows(cx, table).value
    requires Passing(cx, cs)(r) && forall c :: c in probe ==> EngineExact(c)
    requires table in cx.ctes ==> k(r)
    requires table !in cx.ctes ==> FindTable(cx.tables, table).Some?
    requires table !in cx.ctes ==>
               var conditions := SideConditions(cx, table, cs) + probe;
               && (MeetsAll(cx, table, conditions, r) ==> k(r))
               && (k(r) ==> forall c :: c in conditions && EngineExact(c) ==> Fetched(cx, FindTable(cx.tables, table).value, c)(r))
    ensures k(r) <==> Probed(cx, table, probe, r)
  {
    if table !in cx.ctes {
      var t := FindTable(cx.tables, table).value;
      forall c | c in SideConditions(cx, table, cs) ensures Fetched(cx, t, c)(r) {
        SideConditionsRight(cx, table, cs, r, c);
      }
      if Probed(cx, table, probe, r) {
        assert MeetsAll(cx, table, SideConditions(cx, table, cs) + probe, r);
      }
    }
  }

  // ── the joins, one after the other ───────────────────────────────────────

  /** The part of a joined row that has been joined so far. */
  function Prefix(x: JoinRow, done: set<string>): JoinRow {
    map a | a in x && a in done :: x[a]
  }

  /** Each right row of the joined row is fetched; `pushed` is what the code has accumulated. */
  ghost predicate FetchedAlong(cx: Context, cs: seq<Expr>, joins: seq<JoinClause>, pushed: seq<JoinRow>, bare: Bare, x: JoinRow)
    decreases |joins|
  {
    joins != [] ==>
      var j := joins[0];
      && (j.alias in x && x[j.alias].Some? ==> KeptOf(cx, j.table, SideOf(cs, j.alias), Probe(cx, j, pushed))(x[j.alias].value))
      && match PushedStep(cx, cs, j, pushed, bare)
         case None => true
         case Some(next) => FetchedAlong(cx, cs, joins[1..], next, bare, x)
  }

  /** Where the joined row is padded, nothing matched. */
  ghost predicate GenuineAlong(cx: Context, joins: seq<JoinClause>, bare: Bare, done: set<string>, x: JoinRow)
    decreases |joins|
  {
    joins != [] ==>
      var j := joins[0];
      && (j.alias in x && x[j.alias].None? && TableRows(cx, j.table).Some? ==>
            Unmatched(OnTest(cx, false, j, bare), j.alias, Prefix(x, done), TableRows(cx, j.table).value))
      && GenuineAlong(cx, joins[1..], bare, done + {j.alias}, x)
  }

  /** The joined rows of either form: all matches, and a padded row where none is fetched. */
  ghost function Union(cx: Context, cs: seq<Expr>, joins: seq<JoinClause>, acc: seq<JoinRow>, pushed: seq<JoinRow>, bare: Bare): seq<JoinRow>
    decreases |joins|
  {
    if joins == [] then acc
    else
      var j := joins[0];
      match (TableRows(cx, j.table), PushedStep(cx, cs, j, pushed, bare))
      case (Some(rows), Some(next)) =>
        var kept := KeptOf(cx, j.table, SideOf(cs, j.alias), Probe(cx, j, pushed));
        Union(cx, cs, joins[1..], UnionLoop(OnTest(cx, false, j, bare), j.kind, j.alias, acc, rows, kept), next, bare)
      case _ => []
  }

  /** What a join needs for its tests not to fail and its conditions to be right. */
  ghost predicate JoinFits(cx: Context, cs: seq<Expr>, j: JoinClause) {
    && TableRows(cx, j.table).Some?
    && (j.on.Some? ==> Steady(cx, j.on.value))
    && SideSafe(cx, j.table, SideOf(cs, j.alias))
  }

  ghost function FetchedFrom(cx: Context, cs: seq<Expr>, joins: seq<JoinClause>, pushed: seq<JoinRow>, bare: Bare, done: set<string>,
                             pass: JoinRow -> bool): JoinRow -> bool {
    (x: JoinRow) => pass(Prefix(x, done)) && FetchedAlong(cx, cs, joins, pushed, bare, x)
  }

  ghost function GenuineFrom(cx: Context, joins: seq<JoinClause>, bare: Bare, done: set<string>, pass: JoinRow -> bool): JoinRow -> bool {
    (x: JoinRow) => pass(Prefix(x, done)) && GenuineAlong(cx, joins, bare, done, x)
  }

  lemma {:induction false} UnionShaped(test: JoinRow -> Option<bool>, kind: JoinKind, alias: string, acc: seq<JoinRow>, rows: seq<Row>,
                                       kept: Row -> bool, done: set<string>)
    requires (forall x :: test(x).Some?) && forall x: JoinRow :: x in acc ==> x.Keys == done
    ensures forall x: JoinRow :: x in UnionLoop(test, kind, alias, acc, rows, kept) ==> x.Keys == done + {alias}
    decreases |acc|
  {
    if acc != [] {
      assert acc[0] in acc && forall x :: x in acc[1..] ==> x in acc;
      UnionShaped(test, kind, alias, acc[1..], rows, kept, done);
      MatchesNeverFail(test, alias, acc[0], rows);
      forall x: JoinRow | x in UnionOf(test, kind, alias, acc[0], rows, kept) ensures x.Keys == done + {alias} {
        if x in Matches(test, alias, acc[0], rows).value {
          var r :| r in rows && x == acc[0][alias := Some(r)] && test(x) == Some(true);
        }
      }
    }
  }

  /** One join of either form, out of the union. */
  lemma StepIsThinned(cx: Context, cs: seq<Expr>, j: JoinClause, acc: seq<JoinRow>, pushed: seq<JoinRow>, bare: Bare, done: set<string>,
                      fetched: JoinRow -> bool, genuine: JoinRow -> bool)
    requires EngineSound(cx) && WellTyped(cx) && JoinFits(cx, cs, j) && j.alias !in done
    requires (forall x: JoinRow :: x in acc ==> x.Keys == done) && pushed == Keep(acc, fetched)
    ensures var rows, plain := TableRows(cx, j.table).value, OnTest(cx, false, j, bare);
            var kept := KeptOf(cx, j.table, SideOf(cs, j.alias), Probe(cx, j, pushed));
            var union := UnionLoop(plain, j.kind, j.alias, acc, rows, kept);
            && PushedStep(cx, cs, j, pushed, bare) == Some(Keep(union, FetchedBy(j.alias, kept, fetched)))
            && PlainStep(cx, j, Keep(acc, genuine), bare) == Some(Keep(union, GenuineBy(plain, j.alias, rows, genuine)))
            && forall x: JoinRow :: x in union ==> x.Keys == done + {j.alias}
  {
    var rows, fast, plain := TableRows(cx, j.table).value, OnTest(cx, true, j, bare), OnTest(cx, false, j, bare);
    var kept := KeptOf(cx, j.table, SideOf(cs, j.alias), Probe(cx, j, pushed));
    OnAgrees(cx, j, bare);
    SideRowsAre(cx, j.table, SideOf(cs, j.alias), Probe(cx, j, pushed));
    LoopIsFetched(fast, plain, j.kind, j.alias, acc, rows, kept, fetched);
    LoopIsFetched(fast, plain, j.kind, j.alias, acc, rows, kept, genuine);
    UnionShaped(plain, j.kind, j.alias, acc, rows, kept, done);
  }

  lemma PrefixStep(x: JoinRow, done: set<string>, alias: string)
    requires alias !in done && alias in x
    ensures Prefix(x, done + {alias}) - {alias} == Prefix(x, done)
    ensures alias in Prefix(x, done + {alias}) && Prefix(x, done + {alias})[alias] == x[alias]
  {
  }

  lemma FetchedStep(cx: Context, cs: seq<Expr>, joins: seq<JoinClause>, pushed: seq<JoinRow>, bare: Bare, done: set<string>,
                    pass: JoinRow -> bool, rows: seq<JoinRow>)
    requires joins != [] && joins[0].alias !in done && PushedStep(cx, cs, joins[0], pushed, bare).Some?
    requires forall x: JoinRow :: x in rows ==> joins[0].alias in x
    ensures var j, next := joins[0], PushedStep(cx, cs, joins[0], pushed, bare).value;
            var kept := KeptOf(cx, j.table, SideOf(cs, j.alias), Probe(cx, j, pushed));
            Keep(rows, FetchedFrom(cx, cs, joins[1..], next, bare, done + {j.alias}, FetchedBy(j.alias, kept, pass)))
            == Keep(rows, FetchedFrom(cx, cs, joins, pushed, bare, done, pass))
  {
    var j, next := joins[0], PushedStep(cx, cs, joins[0], pushed, bare).value;
    var kept := KeptOf(cx, j.table, SideOf(cs, j.alias), Probe(cx, j, pushed));
    var f := FetchedBy(j.alias, kept, pass);
    var a := FetchedFrom(cx, cs, joins[1..], next, bare, done + {j.alias}, f);
    var b := FetchedFrom(cx, cs, joins, pushed, bare, done, pass);
    forall x: JoinRow | x in rows ensures a(x) <==> b(x) {
      PrefixStep(x, done, j.alias);
      assert f(Prefix(x, done + {j.alias})) <==> pass(Prefix(x, done)) && (x[j.alias].Some? ==> kept(x[j.alias].value));
      assert FetchedAlong(cx, cs, joins, pushed, bare, x) <==>
             (x[j.alias].Some? ==> kept(x[j.alias].value)) && FetchedAlong(cx, cs, joins[1..], next, bare, x);
    }
    KeepAlike(rows, a, b);
  }

  lemma GenuineStep(cx: Context, joins: seq<JoinClause>, bare: Bare, done: set<string>, pass: JoinRow -> bool, rows: seq<JoinRow>)
    requires joins != [] && joins[0].alias !in done && TableRows(cx, joins[0].table).Some?
    requires forall x: JoinRow :: x in rows ==> joins[0].alias in x
    ensures var j := joins[0];
            var g := GenuineBy(OnTest(cx, false, j, bare), j.alias, TableRows(cx, j.table).value, pass);
            Keep(rows, GenuineFrom(cx, joins[1..], bare, done + {j.alias}, g)) == Keep(rows, GenuineFrom(cx, joins, bare, done, pass))
  {
    var j := joins[0];
    var plain, right := OnTest(cx, false, j, bare), TableRows(cx, j.table).value;
    var g := GenuineBy(plain, j.alias, right, pass);
    var a := GenuineFrom(cx, joins[1..], bare, done + {j.alias}, g);
    var b := GenuineFrom(cx, joins, bare, done, pass);
    forall x: JoinRow | x in rows ensures a(x) <==> b(x) {
      PrefixStep(x, done, j.alias);
      assert g(Prefix(x, done + {j.alias})) <==>
             pass(Prefix(x, done)) && (x[j.alias].None? ==> Unmatched(plain, j.alias, Prefix(x, done), right));
      assert GenuineAlong(cx, joins, bare, done, x) <==>
             && (x[j.alias].None? ==> Unmatched(plain, j.alias, Prefix(x, done), right))
             && GenuineAlong(cx, joins[1..], bare, done + {j.alias}, x);
    }
    KeepAlike(rows, a, b);
  }

  lemma NothingJoined(cx: Context, cs: seq<Expr>, acc: seq<JoinRow>, pushed: seq<JoinRow>, bare: Bare, done: set<string>,
                      fetched: JoinRow -> bool, genuine: JoinRow -> bool)
    requires forall x: JoinRow :: x in acc ==> x.Keys == done
    ensures Keep(acc, FetchedFrom(cx, cs, [], pushed, bare, done, fetched)) == Keep(acc, fetched)
    ensures Keep(acc, GenuineFrom(cx, [], bare, done, genuine)) == Keep(acc, genuine)
  {
    forall x: JoinRow | x in acc ensures Prefix(x, done) == x {
    }
    KeepAlike(acc, FetchedFrom(cx, cs, [], pushed, bare, done, fetched), fetched);
    KeepAlike(acc, GenuineFrom(cx, [], bare, done, genuine), genuine);
  }

  lemma {:induction false} JoinsAreThinned(cx: Context, cs: seq<Expr>, joins: seq<JoinClause>, acc: seq<JoinRow>, pushed: seq<JoinRow>,
                                           bare: Bare, done: set<string>, fetched: JoinRow -> bool, genuine: JoinRow -> bool)
    requires EngineSound(cx) && WellTyped(cx) && (forall j :: j in joins ==> JoinFits(cx, cs, j)) && DistinctAliases(joins, done)
    requires (forall x: JoinRow :: x in acc ==> x.Keys == done) && pushed == Keep(acc, fetched)
    ensures var union := Union(cx, cs, joins, acc, pushed, bare);
            && PushedJoins(cx, cs, joins, pushed, bare) == Some(Keep(union, FetchedFrom(cx, cs, joins, pushed, bare, done, fetched)))
            && PlainJoins(cx, joins, Keep(acc, genuine), bare) == Some(Keep(union, GenuineFrom(cx, joins, bare, done, genuine)))
            && forall x: JoinRow :: x in union ==> x.Keys == done + AliasSet(joins)
    decreases |joins|
  {
    if joins == [] {
      NothingJoined(cx, cs, acc, pushed, bare, done, fetched, genuine);
      assert done + AliasSet(joins) == done;
    } else {
      var j, union := joins[0], Union(cx, cs, joins, acc, pushed, bare);
      assert j in joins && forall k :: k in joins[1..] ==> k in joins;
      var rows, plain := TableRows(cx, j.table).value, OnTest(cx, false, j, bare);
      var kept := KeptOf(cx, j.table, SideOf(cs, j.alias), Probe(cx, j, pushed));
      StepIsThinned(cx, cs, j, acc, pushed, bare, done, fetched, genuine);
      var next := PushedStep(cx, cs, j, pushed, bare).value;
      JoinsAreThinned(cx, cs, joins[1..], UnionLoop(plain, j.kind, j.alias, acc, rows, kept), next, bare, done + {j.alias},
                      FetchedBy(j.alias, kept, fetched), GenuineBy(plain, j.alias, rows, genuine));
      AliasesUnfold(joins);
      SetsUnfold(done, j.alias, AliasSet(joins[1..]));
      FetchedStep(cx, cs, joins, pushed, bare, done, fetched, union);
      GenuineStep(cx, joins, bare, done, genuine, union);
    }
  }

  // ── the whole query ──────────────────────────────────────────────────────

  /** What a query needs for its tests not to fail and its conditions to be right. */
  ghost predicate QueryFits(cx: Context, q: JoinQuery) {
    && TableRows(cx, q.table).Some?
    && DistinctAliases(q.joins, {q.alias})
    && (q.filter.Some? ==> Steady(cx, q.filter.value))
    && SideSafe(cx, q.table, SideOf(FilterConjuncts(q), q.alias))
    && forall j :: j in q.joins ==> JoinFits(cx, FilterConjuncts(q), j)
  }

  function Base(cx: Context, q: JoinQuery): seq<JoinRow>
    requires TableRows(cx, q.table).Some?
  {
    BaseRows(q.alias, TableRows(cx, q.table).value)
  }

  /** The base row passes the conjuncts of its side. */
  function BasePassing(cx: Context, q: JoinQuery): JoinRow -> bool {
    (x: JoinRow) => q.alias in x && x[q.alias].Some? && Passing(cx, SideOf(FilterConjuncts(q), q.alias))(x[q.alias].value)
  }

  function PushedBase(cx: Context, q: JoinQuery): seq<JoinRow>
    requires TableRows(cx, q.table).Some?
  {
    Keep(Base(cx, q), BasePassing(cx, q))
  }

  /** The joined rows that either form may return. */
  ghost function Candidates(cx: Context, q: JoinQuery, bare: Bare): seq<JoinRow>
    requires TableRows(cx, q.table).Some?
  {
    Union(cx, FilterConjuncts(q), q.joins, Base(cx, q), PushedBase(cx, q), bare)
  }

  predicate ResidualHolds(cx: Context, q: JoinQuery, bare: Bare, x: JoinRow) {
    forall c :: c in ResidualOf(FilterConjuncts(q)) ==> Holds(cx, c, Joined(x, bare))
  }

  predicate FilterHolds(cx: Context, q: JoinQuery, bare: Bare, x: JoinRow) {
    q.filter.Some? ==> Holds(cx, q.filter.value, Joined(x, bare))
  }

  /** The code returns the row: each of its parts is fetched, and the residual holds. */
  ghost function Returned(cx: Context, q: JoinQuery, bare: Bare): JoinRow -> bool
    requires TableRows(cx, q.table).Some?
  {
    (x: JoinRow) =>
      && BasePassing(cx, q)(x)
      && FetchedAlong(cx, FilterConjuncts(q), q.joins, PushedBase(cx, q), bare, x)
      && ResidualHolds(cx, q, bare, x)
  }

  /** The row is one of the plain answer: it is padded only where nothing matches, and passes
      the whole filter. */
  ghost function Wanted(cx: Context, q: JoinQuery, bare: Bare): JoinRow -> bool {
    (x: JoinRow) => GenuineAlong(cx, q.joins, bare, {q.alias}, x) && FilterHolds(cx, q, bare, x)
  }

  lemma BaseIsPushed(cx: Context, q: JoinQuery)
    requires EngineSound(cx) && WellTyped(cx) && QueryFits(cx, q)
    ensures var side := SideRows(cx, q.table, SideOf(FilterConjuncts(q), q.alias), []);
            side.Some? && BaseRows(q.alias, side.value) == PushedBase(cx, q)
  {
    var rows, cs := TableRows(cx, q.table).value, SideOf(FilterConjuncts(q), q.alias);
    SideRowsAre(cx, q.table, cs, []);
    KeepAlike(rows, KeptOf(cx, q.table, cs, []), Passing(cx, cs));
    BaseKeeps(q.alias, rows, Passing(cx, cs), BasePassing(cx, q));
  }

  lemma ResidualIsSteady(cx: Context, q: JoinQuery, bare: Bare)
    requires EngineSound(cx) && WellTyped(cx) && q.filter.Some? && Steady(cx, q.filter.value)
    ensures forall x: JoinRow :: ResidualTest(cx, ResidualOf(FilterConjuncts(q)), bare)(x) == Some(ResidualHolds(cx, q, bare, x))
    ensures forall x: JoinRow :: FilterTest(cx, q.filter.value, bare)(x) == Some(FilterHolds(cx, q, bare, x))
  {
    var residual := ResidualOf(FilterConjuncts(q));
    ConjunctsHold(cx, q.filter.value, Joined(map[], bare));
    forall c | c in residual ensures Steady(cx, c) {
      ResidualHas(FilterConjuncts(q), c);
    }
    forall x: JoinRow ensures ResidualTest(cx, residual, bare)(x) == Some(ResidualHolds(cx, q, bare, x)) {
      AllHoldIs(cx, residual, Joined(x, bare));
    }
    forall x: JoinRow ensures FilterTest(cx, q.filter.value, bare)(x) == Some(FilterHolds(cx, q, bare, x)) {
      SteadyAgrees(cx, q.filter.value, Joined(x, bare));
    }
  }

  /** What is filtered after the joins. */
  lemma FilteredAtEnd(cx: Context, q: JoinQuery, bare: Bare, union: seq<JoinRow>, f: JoinRow -> bool, g: JoinRow -> bool,
                      ff: JoinRow -> bool, gg: JoinRow -> bool)
    requires EngineSound(cx) && WellTyped(cx) && QueryFits(cx, q)
    requires forall x: JoinRow :: x in union ==> (ff(x) <==> f(x) && ResidualHolds(cx, q, bare, x))
    requires forall x: JoinRow :: x in union ==> (gg(x) <==> g(x) && FilterHolds(cx, q, bare, x))
    requires PushedJoins(cx, FilterConjuncts(q), q.joins, PushedBase(cx, q), bare) == Some(Keep(union, f))
    requires PlainJoins(cx, q.joins, Base(cx, q), bare) == Some(Keep(union, g))
    ensures RunJoin(cx, q, bare) == Some(Keep(union, ff)) && PlainJoin(cx, q, bare) == Some(Keep(union, gg))
  {
    var residual := ResidualOf(FilterConjuncts(q));
    var rest := (x: JoinRow) => ResidualHolds(cx, q, bare, x);
    var whole := (x: JoinRow) => FilterHolds(cx, q, bare, x);
    BaseIsPushed(cx, q);
    KeepKeep(union, f, rest, ff);
    KeepKeep(union, g, whole, gg);
    if q.filter.Some? {
      ResidualIsSteady(cx, q, bare);
      FilterJoinedKeeps(ResidualTest(cx, residual, bare), rest, Keep(union, f));
      FilterJoinedKeeps(FilterTest(cx, q.filter.value, bare), whole, Keep(union, g));
    } else {
      KeepEvery(Keep(union, g), whole);
    }
    if residual == [] {
      KeepEvery(Keep(union, f), rest);
    }
  }

  /** For joins of any number and kind, with any filter that cannot fail: the code returns, in
      order, the candidates whose parts are all fetched and which pass the residual, and the
      plain join those that are padded only where nothing matches and pass the filter. The
      two are the same exactly when they are the same for every candidate. */
  lemma PushedJoinExactly(cx: Context, q: JoinQuery, bare: Bare)
    requires EngineSound(cx) && WellTyped(cx) && QueryFits(cx, q)
    ensures RunJoin(cx, q, bare) == Some(Keep(Candidates(cx, q, bare), Returned(cx, q, bare)))
    ensures PlainJoin(cx, q, bare) == Some(Keep(Candidates(cx, q, bare), Wanted(cx, q, bare)))
    ensures RunJoin(cx, q, bare) == PlainJoin(cx, q, bare) <==>
            forall x: JoinRow :: x in Candidates(cx, q, bare) ==> (Returned(cx, q, bare)(x) <==> Wanted(cx, q, bare)(x))
    ensures forall x: JoinRow :: x in Candidates(cx, q, bare) ==> x.Keys == {q.alias} + AliasSet(q.joins)
  {
    var cs, union, all := FilterConjuncts(q), Candidates(cx, q, bare), (x: JoinRow) => true;
    KeepEvery(Base(cx, q), all);
    JoinsAreThinned(cx, cs, q.joins, Base(cx, q), PushedBase(cx, q), bare, {q.alias}, BasePassing(cx, q), all);
    var f := FetchedFrom(cx, cs, q.joins, PushedBase(cx, q), bare, {q.alias}, BasePassing(cx, q));
    var g := GenuineFrom(cx, q.joins, bare, {q.alias}, all);
    forall x: JoinRow | x in union ensures f(x) && ResidualHolds(cx, q, bare, x) <==> Returned(cx, q, bare)(x) {
      assert q.alias in x && q.alias in Prefix(x, {q.alias}) && Prefix(x, {q.alias})[q.alias] == x[q.alias];
    }
    FilteredAtEnd(cx, q, bare, union, f, g, Returned(cx, q, bare), Wanted(cx, q, bare));
    KeepSame(union, Returned(cx, q, bare), Wanted(cx, q, bare));
  }
}
