/** What a join query answers, said of the rows of its tables and their positions: which joined
    rows, how often, and in what order. */
module JoinMeaning {
  import opened Lists
  import opened Strings
  import opened Values
  import opened Schema
  import opened Query
  import opened Exec
  import opened Meaning
  import opened Join
  import opened JoinUnion

  // ── what is asked of a joined row ────────────────────────────────────────

  /** The rows of a table of the query. */
  function RowsOf(cx: Context, table: string): seq<Row> {
    match TableRows(cx, table) case None => [] case Some(rows) => rows
  }

  /** What a clause asks of a combined row: its `ON`, if it has one; a cross join asks nothing. */
  ghost predicate Asked(cx: Context, j: JoinClause, bare: Bare, x: JoinRow)
    requires j.on.Some? ==> Fine(cx, j.on.value)
  {
    j.kind == Cross || (j.on.Some? ==> Satisfies(cx, j.on.value, Joined(x, bare)))
  }

  /** The clauses and the filter cannot fail, and the tables exist. */
  ghost predicate FineQuery(cx: Context, q: JoinQuery) {
    && TableRows(cx, q.table).Some?
    && FineJoins(cx, q.joins)
    && (q.filter.Some? ==> Fine(cx, q.filter.value))
  }

  ghost predicate FineJoins(cx: Context, joins: seq<JoinClause>) {
    forall j :: j in joins ==> TableRows(cx, j.table).Some? && (j.on.Some? ==> Fine(cx, j.on.value))
  }

  /** One position for each table of the query, in order: of its rows, or -1. */
  predicate InRange(cx: Context, q: JoinQuery, joins: seq<JoinClause>, o: seq<int>)
    decreases |joins|
  {
    |o| == |joins| + 1 &&
    if joins == [] then 0 <= o[0] < |RowsOf(cx, q.table)|
    else
      var n := |joins| - 1;
      InRange(cx, q, joins[..n], o[..n + 1]) && -1 <= o[n + 1] < |RowsOf(cx, joins[n].table)|
  }

  /** A right row added to a joined row, or none at position -1. */
  function Extended(cx: Context, j: JoinClause, left: JoinRow, i: int): JoinRow
    requires -1 <= i < |RowsOf(cx, j.table)|
  {
    left[j.alias := if i == -1 then None else Some(RowsOf(cx, j.table)[i])]
  }

  /** The joined row put together from the rows at the positions. */
  function Assembled(cx: Context, q: JoinQuery, joins: seq<JoinClause>, o: seq<int>): JoinRow
    requires InRange(cx, q, joins, o)
    decreases |joins|
  {
    if joins == [] then map[q.alias := Some(RowsOf(cx, q.table)[o[0]])]
    else
      var n := |joins| - 1;
      Extended(cx, joins[n], Assembled(cx, q, joins[..n], o[..n + 1]), o[n + 1])
  }

  /** The right row at the position meets the clause; at position -1, the right side of a left
      join is missing because no right row does. */
  ghost predicate Allowed(cx: Context, j: JoinClause, bare: Bare, left: JoinRow, i: int)
    requires j.on.Some? ==> Fine(cx, j.on.value)
    requires -1 <= i < |RowsOf(cx, j.table)|
  {
    if i == -1 then
      j.kind == Left && forall k :: 0 <= k < |RowsOf(cx, j.table)| ==> !Asked(cx, j, bare, Extended(cx, j, left, k))
    else
      Asked(cx, j, bare, Extended(cx, j, left, i))
  }

  /** The positions of a joined row. */
  ghost predicate Formed(cx: Context, q: JoinQuery, joins: seq<JoinClause>, bare: Bare, o: seq<int>)
    requires FineJoins(cx, joins)
    decreases |joins|
  {
    InRange(cx, q, joins, o) &&
    (joins != [] ==>
       var n := |joins| - 1;
       && Formed(cx, q, joins[..n], bare, o[..n + 1])
       && Allowed(cx, joins[n], bare, Assembled(cx, q, joins[..n], o[..n + 1]), o[n + 1]))
  }

  /** Positions of one length, compared at the first that differs. */
  ghost predicate Before(a: seq<int>, b: seq<int>) {
    |a| == |b| && exists k :: 0 <= k < |a| && a[..k] == b[..k] && a[k] < b[k]
  }

  ghost predicate Increasing(origins: seq<seq<int>>) {
    forall p, q :: 0 <= p < q < |origins| ==> Before(origins[p], origins[q])
  }

  /** The rows are just those whose positions are formed, each once for its positions, in the
      order of the positions. */
  ghost predicate Enumerates(cx: Context, q: JoinQuery, joins: seq<JoinClause>, bare: Bare, origins: seq<seq<int>>, rows: seq<JoinRow>)
    requires FineJoins(cx, joins)
  {
    && |origins| == |rows| && Increasing(origins)
    && (forall p :: 0 <= p < |rows| ==>
          Formed(cx, q, joins, bare, origins[p]) && rows[p] == Assembled(cx, q, joins, origins[p]))
    && (forall o :: Formed(cx, q, joins, bare, o) ==> o in origins)
  }

  // ── one left row ─────────────────────────────────────────────────────────

  ghost predicate Rising(at: seq<int>) {
    forall p, q :: 0 <= p < q < |at| ==> at[p] < at[q]
  }

  /** The matches of a left row stand at the positions of the matching right rows, from `from`
      on. */
  ghost predicate MatchesAt(test: JoinRow -> Option<bool>, alias: string, left: JoinRow, rows: seq<Row>, ms: seq<JoinRow>, from: int, at: seq<int>) {
    && |at| == |ms| && Rising(at)
    && (forall p :: 0 <= p < |at| ==> MatchAt(test, alias, left, rows, ms[p], at[p] - from))
    && (forall i :: 0 <= i < |rows| && test(left[alias := Some(rows[i])]) == Some(true) ==> from + i in at)
  }

  ghost predicate MatchAt(test: JoinRow -> Option<bool>, alias: string, left: JoinRow, rows: seq<Row>, m: JoinRow, i: int) {
    0 <= i < |rows| && m == left[alias := Some(rows[i])] && test(m) == Some(true)
  }

  lemma {:induction false} MatchPositions(test: JoinRow -> Option<bool>, alias: string, left: JoinRow, rows: seq<Row>, from: int) returns (at: seq<int>)
    requires forall x :: test(x).Some?
    ensures Matches(test, alias, left, rows).Some?
    ensures MatchesAt(test, alias, left, rows, Matches(test, alias, left, rows).value, from, at)
    decreases |rows|
  {
    if rows == [] {
      at := [];
    } else {
      var rest := MatchPositions(test, alias, left, rows[1..], from + 1);
      var x, ms := left[alias := Some(rows[0])], Matches(test, alias, left, rows[1..]).value;
      MatchesUnfold(test, alias, left, rows);
      OneMatchMore(test, alias, left, rows, ms, from, rest);
      if test(x) == Some(true) {
        at := [from] + rest;
      } else {
        at := rest;
      }
    }
  }

  lemma MatchesUnfold(test: JoinRow -> Option<bool>, alias: string, left: JoinRow, rows: seq<Row>)
    requires rows != [] && test(left[alias := Some(rows[0])]).Some? && Matches(test, alias, left, rows[1..]).Some?
    ensures var x, ms := left[alias := Some(rows[0])], Matches(test, alias, left, rows[1..]).value;
            Matches(test, alias, left, rows) == Some(if test(x) == Some(true) then [x] + ms else ms)
  {
  }

  lemma OneMatchMore(test: JoinRow -> Option<bool>, alias: string, left: JoinRow, rows: seq<Row>, ms: seq<JoinRow>, from: int, rest: seq<int>)
    requires rows != [] && MatchesAt(test, alias, left, rows[1..], ms, from + 1, rest)
    ensures var x := left[alias := Some(rows[0])];
            if test(x) == Some(true) then MatchesAt(test, alias, left, rows, [x] + ms, from, [from] + rest)
            else MatchesAt(test, alias, left, rows, ms, from, rest)
  {
    forall p | 0 <= p < |rest|
      ensures rest[p] > from && MatchAt(test, alias, left, rows, ms[p], rest[p] - from)
    {
      assert MatchAt(test, alias, left, rows[1..], ms[p], rest[p] - (from + 1));
      assert rows[1..][rest[p] - (from + 1)] == rows[rest[p] - from];
    }
    forall i | 0 < i < |rows| && test(left[alias := Some(rows[i])]) == Some(true) ensures from + i in rest {
      assert rows[1..][i - 1] == rows[i];
      assert (from + 1) + (i - 1) in rest;
    }
  }

  // ── one clause ───────────────────────────────────────────────────────────

  /** The test of the loop is what the clause asks. */
  lemma TestIsAsked(cx: Context, j: JoinClause, bare: Bare)
    requires j.on.Some? ==> Fine(cx, j.on.value)
    ensures forall x :: OnTest(cx, false, j, bare)(x) == Some(Asked(cx, j, bare, x))
  {
    forall x ensures OnTest(cx, false, j, bare)(x) == Some(Asked(cx, j, bare, x)) {
      if j.on.Some? {
        EvalMeans(cx, j.on.value, Joined(x, bare));
      }
    }
  }

  /** What one left row contributes stands at the allowed positions. */
  ghost predicate ExtendsAt(cx: Context, j: JoinClause, bare: Bare, left: JoinRow, at: seq<int>, rows: seq<JoinRow>)
    requires j.on.Some? ==> Fine(cx, j.on.value)
  {
    && |at| == |rows| && Rising(at)
    && (forall p :: 0 <= p < |at| ==>
          -1 <= at[p] < |RowsOf(cx, j.table)| && Allowed(cx, j, bare, left, at[p]) && rows[p] == Extended(cx, j, left, at[p]))
    && (forall i :: -1 <= i < |RowsOf(cx, j.table)| && Allowed(cx, j, bare, left, i) ==> i in at)
  }

  /** The rows of one left row in the loop. */
  function OneLeft(cx: Context, j: JoinClause, bare: Bare, left: JoinRow): seq<JoinRow> {
    match Matches(OnTest(cx, false, j, bare), j.alias, left, RowsOf(cx, j.table))
    case None => []
    case Some(ms) => ms + Pad(j.kind, j.alias, left, ms)
  }

  lemma OneLeftAt(cx: Context, j: JoinClause, bare: Bare, left: JoinRow) returns (at: seq<int>)
    requires j.on.Some? ==> Fine(cx, j.on.value)
    ensures ExtendsAt(cx, j, bare, left, at, OneLeft(cx, j, bare, left))
  {
    var rows, test := RowsOf(cx, j.table), OnTest(cx, false, j, bare);
    TestIsAsked(cx, j, bare);
    at := MatchPositions(test, j.alias, left, rows, 0);
    var ms := Matches(test, j.alias, left, rows).value;
    UnmatchedExactly(test, j.alias, left, rows);
    if ms == [] && j.kind == Left {
      assert OneLeft(cx, j, bare, left) == [left[j.alias := None]];
      at := [-1];
      PaddedAt(cx, j, bare, left);
    } else {
      assert ms + [] == ms;
      MatchedAt(cx, j, bare, left, ms, at);
    }
  }

  lemma PaddedAt(cx: Context, j: JoinClause, bare: Bare, left: JoinRow)
    requires j.kind == Left && (j.on.Some? ==> Fine(cx, j.on.value))
    requires forall x :: OnTest(cx, false, j, bare)(x) == Some(Asked(cx, j, bare, x))
    requires Unmatched(OnTest(cx, false, j, bare), j.alias, left, RowsOf(cx, j.table))
    ensures ExtendsAt(cx, j, bare, left, [-1], [left[j.alias := None]])
  {
    var rows := RowsOf(cx, j.table);
    forall k | 0 <= k < |rows| ensures !Asked(cx, j, bare, Extended(cx, j, left, k)) {
      assert rows[k] in rows;
      assert OnTest(cx, false, j, bare)(left[j.alias := Some(rows[k])]) != Some(true);
    }
  }

  lemma MatchedAt(cx: Context, j: JoinClause, bare: Bare, left: JoinRow, ms: seq<JoinRow>, at: seq<int>)
    requires j.on.Some? ==> Fine(cx, j.on.value)
    requires forall x :: OnTest(cx, false, j, bare)(x) == Some(Asked(cx, j, bare, x))
    requires j.kind == Left ==> ms != []
    requires MatchesAt(OnTest(cx, false, j, bare), j.alias, left, RowsOf(cx, j.table), ms, 0, at)
    ensures ExtendsAt(cx, j, bare, left, at, ms)
  {
    var rows, test := RowsOf(cx, j.table), OnTest(cx, false, j, bare);
    forall p | 0 <= p < |at|
      ensures 0 <= at[p] < |rows| && ms[p] == Extended(cx, j, left, at[p]) && Asked(cx, j, bare, Extended(cx, j, left, at[p]))
    {
      assert MatchAt(test, j.alias, left, rows, ms[p], at[p] - 0);
    }
    assert ms != [] ==> Asked(cx, j, bare, Extended(cx, j, left, at[0]));
    forall i | 0 <= i < |rows| && Allowed(cx, j, bare, left, i) ensures i in at {
      assert test(left[j.alias := Some(rows[i])]) == Some(true);
      assert 0 + i in at;
    }
  }

  // ── the loop ─────────────────────────────────────────────────────────────

  lemma {:induction false} LoopIsParts(cx: Context, j: JoinClause, bare: Bare, acc: seq<JoinRow>)
    requires j.on.Some? ==> Fine(cx, j.on.value)
    ensures var loop := (rows: seq<JoinRow>) => NestedLoop(OnTest(cx, false, j, bare), j.kind, j.alias, rows, RowsOf(cx, j.table));
            && loop(acc).Some?
            && (acc != [] ==> loop(acc[1..]).Some? && loop(acc).value == OneLeft(cx, j, bare, acc[0]) + loop(acc[1..]).value)
    decreases |acc|
  {
    if acc != [] {
      var test, rows := OnTest(cx, false, j, bare), RowsOf(cx, j.table);
      TestIsAsked(cx, j, bare);
      UnmatchedExactly(test, j.alias, acc[0], rows);
      LoopIsParts(cx, j, bare, acc[1..]);
      LoopUnfolds(test, j.kind, j.alias, acc, rows);
    }
  }

  /** The row extends the `k`-th of the accumulated ones, and so do its positions. */
  ghost predicate ExtendsOne(cx: Context, j: JoinClause, bare: Bare, acc: seq<JoinRow>, origins: seq<seq<int>>, o: seq<int>, x: JoinRow, k: int)
    requires j.on.Some? ==> Fine(cx, j.on.value)
  {
    && 0 <= k < |acc| && k < |origins|
    && |o| == |origins[k]| + 1 && o[..|origins[k]|] == origins[k]
    && var i := o[|origins[k]|];
       -1 <= i < |RowsOf(cx, j.table)| && Allowed(cx, j, bare, acc[k], i) && x == Extended(cx, j, acc[k], i)
  }

  ghost predicate IsExtension(cx: Context, j: JoinClause, bare: Bare, acc: seq<JoinRow>, origins: seq<seq<int>>, o: seq<int>, x: JoinRow)
    requires j.on.Some? ==> Fine(cx, j.on.value)
  {
    exists k :: ExtendsOne(cx, j, bare, acc, origins, o, x, k)
  }

  /** The rows are extensions of the accumulated ones, at the positions given. */
  ghost predicate AreExtensions(cx: Context, j: JoinClause, bare: Bare, acc: seq<JoinRow>, origins: seq<seq<int>>, after: seq<seq<int>>, rows: seq<JoinRow>)
    requires j.on.Some? ==> Fine(cx, j.on.value)
  {
    |after| == |rows| && forall p :: 0 <= p < |rows| ==> IsExtension(cx, j, bare, acc, origins, after[p], rows[p])
  }

  /** The rows are the extensions of the accumulated ones, in order. */
  ghost predicate LoopAt(cx: Context, j: JoinClause, bare: Bare, acc: seq<JoinRow>, origins: seq<seq<int>>, after: seq<seq<int>>, rows: seq<JoinRow>)
    requires j.on.Some? ==> Fine(cx, j.on.value)
  {
    && AreExtensions(cx, j, bare, acc, origins, after, rows) && Increasing(after)
    && (forall k, i :: 0 <= k < |acc| && k < |origins| && -1 <= i < |RowsOf(cx, j.table)| && Allowed(cx, j, bare, acc[k], i) ==>
          origins[k] + [i] in after)
  }

  ghost predicate SameLength(origins: seq<seq<int>>, n: nat) {
    forall p :: 0 <= p < |origins| ==> |origins[p]| == n
  }

  lemma BeforeExtends(a: seq<int>, b: seq<int>, x: int, y: int)
    requires Before(a, b) || (a == b && x < y)
    ensures Before(a + [x], b + [y])
  {
    if Before(a, b) {
      var k :| 0 <= k < |a| && a[..k] == b[..k] && a[k] < b[k];
      assert (a + [x])[..k] == a[..k] && (b + [y])[..k] == b[..k];
      assert (a + [x])[k] < (b + [y])[k];
    } else {
      assert (a + [x])[..|a|] == a && (b + [y])[..|a|] == b;
      assert (a + [x])[|a|] < (b + [y])[|a|];
    }
  }

  lemma {:induction false} LoopPositions(cx: Context, j: JoinClause, bare: Bare, acc: seq<JoinRow>, origins: seq<seq<int>>, n: nat)
    returns (after: seq<seq<int>>)
    requires j.on.Some? ==> Fine(cx, j.on.value)
    requires |origins| == |acc| && Increasing(origins) && SameLength(origins, n)
    ensures var loop := NestedLoop(OnTest(cx, false, j, bare), j.kind, j.alias, acc, RowsOf(cx, j.table));
            loop.Some? && LoopAt(cx, j, bare, acc, origins, after, loop.value)
    decreases |acc|
  {
    LoopIsParts(cx, j, bare, acc);
    if acc == [] {
      after := [];
    } else {
      var at := OneLeftAt(cx, j, bare, acc[0]);
      var heads := seq(|at|, p requires 0 <= p < |at| => origins[0] + [at[p]]);
      var tails := LoopPositions(cx, j, bare, acc[1..], origins[1..], n);
      after := heads + tails;
      LoopGrows(cx, j, bare, acc, origins, n, at, heads, tails, OneLeft(cx, j, bare, acc[0]),
                NestedLoop(OnTest(cx, false, j, bare), j.kind, j.alias, acc[1..], RowsOf(cx, j.table)).value);
    }
  }

  /** The positions of the first row's extensions, before those of the others. */
  ghost predicate HeadsAt(cx: Context, j: JoinClause, bare: Bare, left: JoinRow, o: seq<int>, at: seq<int>, heads: seq<seq<int>>, rows: seq<JoinRow>)
    requires j.on.Some? ==> Fine(cx, j.on.value)
  {
    ExtendsAt(cx, j, bare, left, at, rows) && |heads| == |at| && forall p :: 0 <= p < |at| ==> heads[p] == o + [at[p]]
  }

  lemma LoopGrows(cx: Context, j: JoinClause, bare: Bare, acc: seq<JoinRow>, origins: seq<seq<int>>, n: nat, at: seq<int>,
                  heads: seq<seq<int>>, tails: seq<seq<int>>, rows: seq<JoinRow>, more: seq<JoinRow>)
    requires j.on.Some? ==> Fine(cx, j.on.value)
    requires acc != [] && |origins| == |acc| && Increasing(origins) && SameLength(origins, n)
    requires HeadsAt(cx, j, bare, acc[0], origins[0], at, heads, rows)
    requires LoopAt(cx, j, bare, acc[1..], origins[1..], tails, more)
    ensures LoopAt(cx, j, bare, acc, origins, heads + tails, rows + more)
  {
    HeadsIncrease(cx, j, bare, acc, origins, n, at, heads, tails, rows, more);
    HeadsExtend(cx, j, bare, acc, origins, at, heads, rows);
    TailsExtend(cx, j, bare, acc, origins, tails, more);
    ExtensionsJoin(cx, j, bare, acc, origins, heads, rows, tails, more);
    forall k, i | 0 <= k < |acc| && -1 <= i < |RowsOf(cx, j.table)| && Allowed(cx, j, bare, acc[k], i)
      ensures origins[k] + [i] in heads + tails
    {
      AllExtended(cx, j, bare, acc, origins, at, heads, tails, rows, more, k, i);
    }
  }

  lemma ExtensionsJoin(cx: Context, j: JoinClause, bare: Bare, acc: seq<JoinRow>, origins: seq<seq<int>>,
                       heads: seq<seq<int>>, rows: seq<JoinRow>, tails: seq<seq<int>>, more: seq<JoinRow>)
    requires j.on.Some? ==> Fine(cx, j.on.value)
    requires AreExtensions(cx, j, bare, acc, origins, heads, rows) && AreExtensions(cx, j, bare, acc, origins, tails, more)
    ensures AreExtensions(cx, j, bare, acc, origins, heads + tails, rows + more)
  {
  }

  lemma HeadsExtend(cx: Context, j: JoinClause, bare: Bare, acc: seq<JoinRow>, origins: seq<seq<int>>, at: seq<int>,
                    heads: seq<seq<int>>, rows: seq<JoinRow>)
    requires j.on.Some? ==> Fine(cx, j.on.value)
    requires acc != [] && |origins| == |acc| && HeadsAt(cx, j, bare, acc[0], origins[0], at, heads, rows)
    ensures AreExtensions(cx, j, bare, acc, origins, heads, rows)
  {
    forall p | 0 <= p < |rows| ensures IsExtension(cx, j, bare, acc, origins, heads[p], rows[p]) {
      HeadExtends(cx, j, bare, acc, origins, at[p], rows[p]);
    }
  }

  lemma TailsExtend(cx: Context, j: JoinClause, bare: Bare, acc: seq<JoinRow>, origins: seq<seq<int>>, tails: seq<seq<int>>, more: seq<JoinRow>)
    requires j.on.Some? ==> Fine(cx, j.on.value)
    requires acc != [] && |origins| == |acc| && AreExtensions(cx, j, bare, acc[1..], origins[1..], tails, more)
    ensures AreExtensions(cx, j, bare, acc, origins, tails, more)
  {
    forall p | 0 <= p < |more| ensures IsExtension(cx, j, bare, acc, origins, tails[p], more[p]) {
      TailExtends(cx, j, bare, acc, origins, tails[p], more[p]);
    }
  }

  lemma HeadExtends(cx: Context, j: JoinClause, bare: Bare, acc: seq<JoinRow>, origins: seq<seq<int>>, i: int, x: JoinRow)
    requires j.on.Some? ==> Fine(cx, j.on.value)
    requires acc != [] && |origins| == |acc| && -1 <= i < |RowsOf(cx, j.table)|
    requires Allowed(cx, j, bare, acc[0], i) && x == Extended(cx, j, acc[0], i)
    ensures IsExtension(cx, j, bare, acc, origins, origins[0] + [i], x)
  {
    assert (origins[0] + [i])[..|origins[0]|] == origins[0];
    assert ExtendsOne(cx, j, bare, acc, origins, origins[0] + [i], x, 0);
  }

  lemma TailExtends(cx: Context, j: JoinClause, bare: Bare, acc: seq<JoinRow>, origins: seq<seq<int>>, o: seq<int>, x: JoinRow)
    requires j.on.Some? ==> Fine(cx, j.on.value)
    requires acc != [] && |origins| == |acc| && IsExtension(cx, j, bare, acc[1..], origins[1..], o, x)
    ensures IsExtension(cx, j, bare, acc, origins, o, x)
  {
    var k :| ExtendsOne(cx, j, bare, acc[1..], origins[1..], o, x, k);
    assert acc[1..][k] == acc[k + 1] && origins[1..][k] == origins[k + 1];
    assert ExtendsOne(cx, j, bare, acc, origins, o, x, k + 1);
  }

  lemma AllExtended(cx: Context, j: JoinClause, bare: Bare, acc: seq<JoinRow>, origins: seq<seq<int>>, at: seq<int>,
                    heads: seq<seq<int>>, tails: seq<seq<int>>, rows: seq<JoinRow>, more: seq<JoinRow>, k: nat, i: int)
    requires j.on.Some? ==> Fine(cx, j.on.value)
    requires acc != [] && |origins| == |acc| && k < |acc|
    requires HeadsAt(cx, j, bare, acc[0], origins[0], at, heads, rows)
    requires LoopAt(cx, j, bare, acc[1..], origins[1..], tails, more)
    requires -1 <= i < |RowsOf(cx, j.table)| && Allowed(cx, j, bare, acc[k], i)
    ensures origins[k] + [i] in heads + tails
  {
    if k == 0 {
      var p :| 0 <= p < |at| && at[p] == i;
      assert heads[p] in heads;
    } else {
      assert acc[1..][k - 1] == acc[k] && origins[1..][k - 1] == origins[k];
      assert origins[1..][k - 1] + [i] in tails;
    }
  }

  lemma HeadsIncrease(cx: Context, j: JoinClause, bare: Bare, acc: seq<JoinRow>, origins: seq<seq<int>>, n: nat, at: seq<int>,
                      heads: seq<seq<int>>, tails: seq<seq<int>>, rows: seq<JoinRow>, more: seq<JoinRow>)
    requires j.on.Some? ==> Fine(cx, j.on.value)
    requires acc != [] && |origins| == |acc| && Increasing(origins) && SameLength(origins, n)
    requires HeadsAt(cx, j, bare, acc[0], origins[0], at, heads, rows)
    requires LoopAt(cx, j, bare, acc[1..], origins[1..], tails, more)
    ensures Increasing(heads + tails)
  {
    forall p, q | 0 <= p < q < |heads| ensures Before(heads[p], heads[q]) {
      BeforeExtends(origins[0], origins[0], at[p], at[q]);
    }
    forall p, q | 0 <= p < |heads| && 0 <= q < |tails| ensures Before(heads[p], tails[q]) {
      assert IsExtension(cx, j, bare, acc[1..], origins[1..], tails[q], more[q]);
      TailComesLater(cx, j, bare, acc, origins, n, tails[q], more[q], at[p]);
    }
    IncreasingJoin(heads, tails);
  }

  lemma TailComesLater(cx: Context, j: JoinClause, bare: Bare, acc: seq<JoinRow>, origins: seq<seq<int>>, n: nat, t: seq<int>, x: JoinRow, i: int)
    requires j.on.Some? ==> Fine(cx, j.on.value)
    requires acc != [] && |origins| == |acc| && Increasing(origins) && SameLength(origins, n)
    requires IsExtension(cx, j, bare, acc[1..], origins[1..], t, x)
    ensures Before(origins[0] + [i], t)
  {
    var k :| ExtendsOne(cx, j, bare, acc[1..], origins[1..], t, x, k);
    var b := origins[k + 1];
    assert origins[1..][k] == b && Before(origins[0], b);
    assert t == b + [t[|b|]];
    BeforeExtends(origins[0], b, i, t[|b|]);
  }

  lemma IncreasingJoin(a: seq<seq<int>>, b: seq<seq<int>>)
    requires Increasing(a) && Increasing(b)
    requires forall p, q :: 0 <= p < |a| && 0 <= q < |b| ==> Before(a[p], b[q])
    ensures Increasing(a + b)
  {
  }

  // ── all clauses ──────────────────────────────────────────────────────────

  lemma InRangeMore(cx: Context, q: JoinQuery, done: seq<JoinClause>, j: JoinClause, o: seq<int>)
    requires |o| == |done| + 2
    ensures InRange(cx, q, done + [j], o) <==>
            InRange(cx, q, done, o[..|done| + 1]) && -1 <= o[|done| + 1] < |RowsOf(cx, j.table)|
    ensures InRange(cx, q, done + [j], o) ==>
              Assembled(cx, q, done + [j], o) == Extended(cx, j, Assembled(cx, q, done, o[..|done| + 1]), o[|done| + 1])
  {
    assert (done + [j])[..|done|] == done && (done + [j])[|done|] == j;
  }

  /** One clause more: the positions grow by one. */
  lemma FormedMore(cx: Context, q: JoinQuery, done: seq<JoinClause>, j: JoinClause, bare: Bare, o: seq<int>)
    requires FineJoins(cx, done + [j]) && FineJoins(cx, done) && (j.on.Some? ==> Fine(cx, j.on.value)) && |o| == |done| + 2
    ensures var n := |done|;
            Formed(cx, q, done + [j], bare, o) <==>
            && Formed(cx, q, done, bare, o[..n + 1])
            && -1 <= o[n + 1] < |RowsOf(cx, j.table)|
            && Allowed(cx, j, bare, Assembled(cx, q, done, o[..n + 1]), o[n + 1])
    ensures Formed(cx, q, done + [j], bare, o) ==>
              Assembled(cx, q, done + [j], o) == Extended(cx, j, Assembled(cx, q, done, o[..|done| + 1]), o[|done| + 1])
  {
    InRangeMore(cx, q, done, j, o);
    assert (done + [j])[..|done|] == done && (done + [j])[|done|] == j;
  }

  lemma StepEnumerates(cx: Context, q: JoinQuery, done: seq<JoinClause>, j: JoinClause, bare: Bare, acc: seq<JoinRow>, origins: seq<seq<int>>)
    returns (after: seq<seq<int>>)
    requires FineJoins(cx, done + [j]) && FineJoins(cx, done)
    requires Enumerates(cx, q, done, bare, origins, acc)
    ensures PlainStep(cx, j, acc, bare).Some?
    ensures Enumerates(cx, q, done + [j], bare, after, PlainStep(cx, j, acc, bare).value)
  {
    assert j in done + [j];
    after := LoopPositions(cx, j, bare, acc, origins, |done| + 1);
    var rows := PlainStep(cx, j, acc, bare).value;
    forall p | 0 <= p < |rows|
      ensures Formed(cx, q, done + [j], bare, after[p]) && rows[p] == Assembled(cx, q, done + [j], after[p])
    {
      var k :| ExtendsOne(cx, j, bare, acc, origins, after[p], rows[p], k);
      ExtensionIsFormed(cx, q, done, j, bare, acc, origins, after[p], rows[p], k);
    }
    forall o | Formed(cx, q, done + [j], bare, o) ensures o in after {
      FormedMore(cx, q, done, j, bare, o);
      var k := OriginAt(cx, q, done, bare, acc, origins, o[..|done| + 1]);
      FormedIsExtension(cx, q, done, j, bare, acc, origins, after, rows, o, k);
    }
  }

  lemma ExtensionIsFormed(cx: Context, q: JoinQuery, done: seq<JoinClause>, j: JoinClause, bare: Bare, acc: seq<JoinRow>, origins: seq<seq<int>>,
                          o: seq<int>, x: JoinRow, k: nat)
    requires FineJoins(cx, done + [j]) && FineJoins(cx, done) && (j.on.Some? ==> Fine(cx, j.on.value))
    requires Enumerates(cx, q, done, bare, origins, acc) && ExtendsOne(cx, j, bare, acc, origins, o, x, k)
    ensures Formed(cx, q, done + [j], bare, o) && x == Assembled(cx, q, done + [j], o)
  {
    FormedMore(cx, q, done, j, bare, o);
  }

  lemma FormedIsExtension(cx: Context, q: JoinQuery, done: seq<JoinClause>, j: JoinClause, bare: Bare, acc: seq<JoinRow>, origins: seq<seq<int>>,
                          after: seq<seq<int>>, rows: seq<JoinRow>, o: seq<int>, k: nat)
    requires FineJoins(cx, done) && (j.on.Some? ==> Fine(cx, j.on.value))
    requires LoopAt(cx, j, bare, acc, origins, after, rows)
    requires |o| == |done| + 2 && k < |origins| && k < |acc| && origins[k] == o[..|done| + 1]
    requires -1 <= o[|done| + 1] < |RowsOf(cx, j.table)| && Allowed(cx, j, bare, acc[k], o[|done| + 1])
    ensures o in after
  {
    LoopHas(cx, j, bare, acc, origins, after, rows, k, o[|done| + 1]);
    assert o == origins[k] + [o[|done| + 1]];
  }

  lemma LoopHas(cx: Context, j: JoinClause, bare: Bare, acc: seq<JoinRow>, origins: seq<seq<int>>, after: seq<seq<int>>, rows: seq<JoinRow>, k: nat, i: int)
    requires j.on.Some? ==> Fine(cx, j.on.value)
    requires LoopAt(cx, j, bare, acc, origins, after, rows)
    requires k < |acc| && k < |origins| && -1 <= i < |RowsOf(cx, j.table)| && Allowed(cx, j, bare, acc[k], i)
    ensures origins[k] + [i] in after
  {
  }

  lemma OriginAt(cx: Context, q: JoinQuery, done: seq<JoinClause>, bare: Bare, acc: seq<JoinRow>, origins: seq<seq<int>>, o: seq<int>)
    returns (k: nat)
    requires FineJoins(cx, done) && Enumerates(cx, q, done, bare, origins, acc) && Formed(cx, q, done, bare, o)
    ensures k < |origins| && k < |acc| && origins[k] == o && acc[k] == Assembled(cx, q, done, o)
  {
    assert o in origins;
    k :| 0 <= k < |origins| && origins[k] == o;
  }

  lemma {:induction false} JoinsEnumerate(cx: Context, q: JoinQuery, done: seq<JoinClause>, joins: seq<JoinClause>, bare: Bare, acc: seq<JoinRow>,
                                          origins: seq<seq<int>>)
    returns (after: seq<seq<int>>)
    requires FineJoins(cx, done) && FineJoins(cx, joins) && FineJoins(cx, done + joins)
    requires Enumerates(cx, q, done, bare, origins, acc)
    ensures PlainJoins(cx, joins, acc, bare).Some?
    ensures Enumerates(cx, q, done + joins, bare, after, PlainJoins(cx, joins, acc, bare).value)
    decreases |joins|
  {
    if joins == [] {
      assert done + joins == done;
      after := origins;
    } else {
      var more := done + [joins[0]];
      assert forall j :: j in more ==> j in done || j == joins[0];
      assert done + joins == more + joins[1..];
      var next := StepEnumerates(cx, q, done, joins[0], bare, acc, origins);
      after := JoinsEnumerate(cx, q, more, joins[1..], bare, PlainStep(cx, joins[0], acc, bare).value, next);
    }
  }

  lemma BaseEnumerates(cx: Context, q: JoinQuery, bare: Bare) returns (origins: seq<seq<int>>)
    requires TableRows(cx, q.table).Some?
    ensures Enumerates(cx, q, [], bare, origins, BaseRows(q.alias, RowsOf(cx, q.table)))
  {
    var rows := RowsOf(cx, q.table);
    origins := seq(|rows|, k requires 0 <= k < |rows| => [k]);
    forall a, b | 0 <= a < b < |rows| ensures Before(origins[a], origins[b]) {
      assert origins[a][..0] == origins[b][..0];
    }
    forall o | Formed(cx, q, [], bare, o) ensures o in origins {
      assert o == [o[0]] && origins[o[0]] == o;
    }
  }

  // ── main results ─────────────────────────────────────────────────────────

  ghost predicate FilterSatisfied(cx: Context, q: JoinQuery, bare: Bare, x: JoinRow)
    requires q.filter.Some? ==> Fine(cx, q.filter.value)
  {
    q.filter.Some? ==> Satisfies(cx, q.filter.value, Joined(x, bare))
  }

  /** The plain join answers, in the order of their positions and once for each, the joined
      rows whose parts meet their clauses and which satisfy the filter. */
  lemma PlainJoinMeans(cx: Context, q: JoinQuery, bare: Bare) returns (origins: seq<seq<int>>, all: seq<JoinRow>)
    requires FineQuery(cx, q)
    ensures Enumerates(cx, q, q.joins, bare, origins, all)
    ensures PlainJoin(cx, q, bare) == Some(Keep(all, (x: JoinRow) => FilterSatisfied(cx, q, bare, x)))
  {
    var base := BaseEnumerates(cx, q, bare);
    assert [] + q.joins == q.joins;
    origins := JoinsEnumerate(cx, q, [], q.joins, bare, BaseRows(q.alias, RowsOf(cx, q.table)), base);
    all := PlainJoins(cx, q.joins, BaseRows(q.alias, RowsOf(cx, q.table)), bare).value;
    var passes := (x: JoinRow) => FilterSatisfied(cx, q, bare, x);
    if q.filter.Some? {
      forall x: JoinRow ensures FilterTest(cx, q.filter.value, bare)(x) == Some(passes(x)) {
        EvalMeans(cx, q.filter.value, Joined(x, bare));
      }
      FilterJoinedKeeps(FilterTest(cx, q.filter.value, bare), passes, all);
    } else {
      KeepEvery(all, passes);
    }
  }

  /** So does the code, with its filter split, its sides pushed and its right sides probed. */
  lemma RunJoinMeans(cx: Context, q: JoinQuery, bare: Bare) returns (origins: seq<seq<int>>, all: seq<JoinRow>)
    requires EngineSound(cx) && WellTyped(cx) && QueryOk(cx, q, bare) && FineQuery(cx, q)
    ensures Enumerates(cx, q, q.joins, bare, origins, all)
    ensures RunJoin(cx, q, bare) == Some(Keep(all, (x: JoinRow) => FilterSatisfied(cx, q, bare, x)))
  {
    JoinIsPlain(cx, q, bare);
    origins, all := PlainJoinMeans(cx, q, bare);
  }

  // ── which joined rows ────────────────────────────────────────────────────

  ghost predicate DistinctNames(q: JoinQuery, joins: seq<JoinClause>) {
    forall k :: 0 <= k < |joins| ==> joins[k].alias != q.alias && forall i :: 0 <= i < k ==> joins[i].alias != joins[k].alias
  }

  /** Each part is a row of its table that meets its clause; a part is missing only on the right
      of a left join, and only if no row of the table meets the clause. */
  ghost predicate PartsJoin(cx: Context, q: JoinQuery, joins: seq<JoinClause>, bare: Bare, x: JoinRow)
    requires FineJoins(cx, joins)
    decreases |joins|
  {
    if joins == [] then
      x.Keys == {q.alias} && x[q.alias].Some? && x[q.alias].value in RowsOf(cx, q.table)
    else
      var j := joins[|joins| - 1];
      && j.alias in x
      && PartsJoin(cx, q, joins[..|joins| - 1], bare, x - {j.alias})
      && match x[j.alias]
         case Some(r) => r in RowsOf(cx, j.table) && Asked(cx, j, bare, x)
         case None => j.kind == Left && forall r :: r in RowsOf(cx, j.table) ==> !Asked(cx, j, bare, (x - {j.alias})[j.alias := Some(r)])
  }

  lemma {:induction false} AssembledKeys(cx: Context, q: JoinQuery, joins: seq<JoinClause>, o: seq<int>, a: string)
    requires InRange(cx, q, joins, o)
    ensures a in Assembled(cx, q, joins, o) <==> a == q.alias || HasAlias(joins, a)
    decreases |joins|
  {
    if joins != [] {
      var n := |joins| - 1;
      AssembledKeys(cx, q, joins[..n], o[..n + 1], a);
      OneAliasMore(joins, a);
    }
  }

  predicate HasAlias(joins: seq<JoinClause>, a: string) {
    exists k :: 0 <= k < |joins| && joins[k].alias == a
  }

  lemma OneAliasMore(joins: seq<JoinClause>, a: string)
    requires joins != []
    ensures HasAlias(joins, a) <==> joins[|joins| - 1].alias == a || HasAlias(joins[..|joins| - 1], a)
  {
    var front := joins[..|joins| - 1];
    assert forall k :: 0 <= k < |front| ==> front[k] == joins[k];
  }

  lemma {:induction false} FormedParts(cx: Context, q: JoinQuery, joins: seq<JoinClause>, bare: Bare, o: seq<int>)
    requires FineJoins(cx, joins) && DistinctNames(q, joins) && Formed(cx, q, joins, bare, o)
    ensures PartsJoin(cx, q, joins, bare, Assembled(cx, q, joins, o))
    decreases |joins|
  {
    if joins != [] {
      var n := |joins| - 1;
      var j, front := joins[n], joins[..n];
      assert forall k :: k in front ==> k in joins;
      FormedParts(cx, q, front, bare, o[..n + 1]);
      var left, x := Assembled(cx, q, front, o[..n + 1]), Assembled(cx, q, joins, o);
      AssembledKeys(cx, q, front, o[..n + 1], j.alias);
      WithoutAlias(left, j.alias, x[j.alias]);
      AllowedPart(cx, j, bare, left, o[n + 1]);
    }
  }

  lemma AllowedPart(cx: Context, j: JoinClause, bare: Bare, left: JoinRow, i: int)
    requires (j.on.Some? ==> Fine(cx, j.on.value)) && -1 <= i < |RowsOf(cx, j.table)| && Allowed(cx, j, bare, left, i)
    ensures var x := Extended(cx, j, left, i);
            match x[j.alias]
            case Some(r) => r in RowsOf(cx, j.table) && Asked(cx, j, bare, x)
            case None => j.kind == Left && forall r :: r in RowsOf(cx, j.table) ==> !Asked(cx, j, bare, left[j.alias := Some(r)])
  {
    if i == -1 {
      forall r | r in RowsOf(cx, j.table) ensures !Asked(cx, j, bare, left[j.alias := Some(r)]) {
        var k :| 0 <= k < |RowsOf(cx, j.table)| && RowsOf(cx, j.table)[k] == r;
        assert !Asked(cx, j, bare, Extended(cx, j, left, k));
      }
    }
  }

  lemma {:induction false} PartsFormed(cx: Context, q: JoinQuery, joins: seq<JoinClause>, bare: Bare, x: JoinRow) returns (o: seq<int>)
    requires FineJoins(cx, joins) && PartsJoin(cx, q, joins, bare, x)
    ensures Formed(cx, q, joins, bare, o) && Assembled(cx, q, joins, o) == x
    decreases |joins|
  {
    if joins == [] {
      var k :| 0 <= k < |RowsOf(cx, q.table)| && RowsOf(cx, q.table)[k] == x[q.alias].value;
      o := [k];
      assert x == map[q.alias := Some(RowsOf(cx, q.table)[k])];
    } else {
      var n := |joins| - 1;
      var j, front, left := joins[n], joins[..n], x - {joins[n].alias};
      assert j in joins && forall k :: k in front ==> k in joins;
      var before := PartsFormed(cx, q, front, bare, left);
      var i := PartPosition(cx, j, bare, left, x);
      o := before + [i];
      assert o[..n + 1] == before;
    }
  }

  lemma PartPosition(cx: Context, j: JoinClause, bare: Bare, left: JoinRow, x: JoinRow) returns (i: int)
    requires (j.on.Some? ==> Fine(cx, j.on.value)) && j.alias in x && left == x - {j.alias}
    requires match x[j.alias]
             case Some(r) => r in RowsOf(cx, j.table) && Asked(cx, j, bare, x)
             case None => j.kind == Left && forall r :: r in RowsOf(cx, j.table) ==> !Asked(cx, j, bare, left[j.alias := Some(r)])
    ensures -1 <= i < |RowsOf(cx, j.table)| && Allowed(cx, j, bare, left, i) && x == Extended(cx, j, left, i)
  {
    assert x == left[j.alias := x[j.alias]];
    if x[j.alias].Some? {
      i :| 0 <= i < |RowsOf(cx, j.table)| && RowsOf(cx, j.table)[i] == x[j.alias].value;
    } else {
      i := -1;
    }
  }

  /** A joined row is answered exactly when its parts join and the filter is satisfied. */
  lemma JoinedExactly(cx: Context, q: JoinQuery, bare: Bare, x: JoinRow)
    requires FineQuery(cx, q) && DistinctNames(q, q.joins)
    ensures PlainJoin(cx, q, bare).Some?
    ensures x in PlainJoin(cx, q, bare).value <==> PartsJoin(cx, q, q.joins, bare, x) && FilterSatisfied(cx, q, bare, x)
  {
    var origins, all := PlainJoinMeans(cx, q, bare);
    KeepHas(all, (y: JoinRow) => FilterSatisfied(cx, q, bare, y), x);
    if x in all {
      var p :| 0 <= p < |all| && all[p] == x;
      FormedParts(cx, q, q.joins, bare, origins[p]);
    }
    if PartsJoin(cx, q, q.joins, bare, x) {
      var o := PartsFormed(cx, q, q.joins, bare, x);
      var p :| 0 <= p < |origins| && origins[p] == o;
      assert all[p] == x;
    }
  }

  /** And so of the code's own answer. */
  lemma RunJoinedExactly(cx: Context, q: JoinQuery, bare: Bare, x: JoinRow)
    requires EngineSound(cx) && WellTyped(cx) && QueryOk(cx, q, bare) && FineQuery(cx, q) && DistinctNames(q, q.joins)
    ensures RunJoin(cx, q, bare).Some?
    ensures x in RunJoin(cx, q, bare).value <==> PartsJoin(cx, q, q.joins, bare, x) && FilterSatisfied(cx, q, bare, x)
  {
    JoinIsPlain(cx, q, bare);
    JoinedExactly(cx, q, bare, x);
  }

  /** A cross join has a row for every pair. */
  lemma CrossCount(cx: Context, q: JoinQuery, bare: Bare)
    requires FineQuery(cx, q) && |q.joins| == 1 && q.joins[0].kind == Cross && q.filter.None?
    ensures PlainJoin(cx, q, bare).Some?
    ensures |PlainJoin(cx, q, bare).value| == |RowsOf(cx, q.table)| * |RowsOf(cx, q.joins[0].table)|
  {
    var base := BaseRows(q.alias, RowsOf(cx, q.table));
    assert q.joins[1..] == [] && q.joins[0] in q.joins;
    CrossLoop(cx, q.joins[0], bare, base);
    assert PlainJoins(cx, q.joins, base, bare) == PlainStep(cx, q.joins[0], base, bare);
  }

  lemma {:induction false} CrossLoop(cx: Context, j: JoinClause, bare: Bare, acc: seq<JoinRow>)
    requires j.kind == Cross && (j.on.Some? ==> Fine(cx, j.on.value)) && TableRows(cx, j.table).Some?
    ensures PlainStep(cx, j, acc, bare).Some? && |PlainStep(cx, j, acc, bare).value| == |acc| * |RowsOf(cx, j.table)|
    decreases |acc|
  {
    LoopIsParts(cx, j, bare, acc);
    if acc == [] {
      assert PlainStep(cx, j, acc, bare) == Some([]);
    } else {
      CrossLoop(cx, j, bare, acc[1..]);
      CrossOne(cx, j, bare, acc[0]);
      assert |PlainStep(cx, j, acc, bare).value| == |RowsOf(cx, j.table)| + |PlainStep(cx, j, acc[1..], bare).value|;
      OneMore(|acc|, |RowsOf(cx, j.table)|);
    }
  }

  lemma OneMore(m: nat, n: nat)
    requires m > 0
    ensures m * n == n + (m - 1) * n
  {
  }

  lemma CrossOne(cx: Context, j: JoinClause, bare: Bare, left: JoinRow)
    requires j.kind == Cross && (j.on.Some? ==> Fine(cx, j.on.value))
    ensures |OneLeft(cx, j, bare, left)| == |RowsOf(cx, j.table)|
  {
    var at := OneLeftAt(cx, j, bare, left);
    AllPositions(at, |RowsOf(cx, j.table)|);
  }

  /** Rising positions that are all there are. */
  lemma {:induction false} AllPositions(at: seq<int>, n: nat)
    requires Rising(at) && (forall p :: 0 <= p < |at| ==> 0 <= at[p] < n) && forall i :: 0 <= i < n ==> i in at
    ensures |at| == n
    decreases n
  {
    if at == [] {
      assert n > 0 ==> 0 in at;
    } else {
      assert 0 <= at[0] < n;
      var last, top: int := |at| - 1, n - 1;
      assert top in at;
      var p :| 0 <= p < |at| && at[p] == top;
      assert p == last;
      var front := at[..last];
      forall i | 0 <= i < top ensures i in front {
        assert i in at;
        var k :| 0 <= k < |at| && at[k] == i;
        assert front[k] == i;
      }
      AllPositions(front, n - 1);
    }
  }
}
