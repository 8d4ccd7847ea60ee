/** What a filter means, said without evaluating it: conjunctions and disjunctions by their
    parts, comparisons by the order of values, patterns by the pieces they stand for, and
    subqueries by the rows of their tables; and that the evaluator computes just that. */
module Meaning {
  import opened Lists
  import opened Strings
  import opened Values
  import opened Bytes
  import opened Schema
  import opened Query
  import opened Overlay
  import opened Exec

  // ── values ───────────────────────────────────────────────────────────────

  /** Numbers in their order, texts by first difference, false before true. Values of
      different kinds, and nulls, are not ordered. */
  ghost predicate Below(v: Value, w: Value) {
    match (v, w)
    case (Int(x), Int(y)) => x < y
    case (Text(x), Text(y)) => TextBefore(x, y)
    case (Bool(x), Bool(y)) => !x && y
    case _ => false
  }

  ghost predicate Relates(op: CmpOp, v: Value, w: Value) {
    match op
    case EqOp => v == w
    case NeOp => v != w
    case LtOp => Below(v, w)
    case LteOp => Below(v, w) || v == w
    case GtOp => Below(w, v)
    case GteOp => Below(w, v) || v == w
  }

  lemma ComparisonMeans(op: CmpOp, v: Value, w: Value)
    ensures CmpHolds(op, JsonCmp(v, w)) <==> Relates(op, v, w)
  {
    if v.Text? && w.Text? {
      CompareTextMeans(v.s, w.s);
    }
  }

  /** Of two values of one kind, other than nulls, exactly one of the three holds. */
  lemma Trichotomy(v: Value, w: Value)
    requires (v.Int? && w.Int?) || (v.Text? && w.Text?) || (v.Bool? && w.Bool?)
    ensures Below(v, w) || v == w || Below(w, v)
    ensures !(Below(v, w) && v == w) && !(Below(w, v) && v == w) && !(Below(v, w) && Below(w, v))
  {
    if v.Text? {
      CompareTextMeans(v.s, w.s);
    }
  }

  // ── patterns ─────────────────────────────────────────────────────────────

  /** What a character of a pattern stands for: `%` for any text and `_` for any character,
      but for line feeds, and any other for itself. */
  predicate Piece(p: char, s: string) {
    if p == '%' then '\n' !in s
    else if p == '_' then |s| == 1 && s[0] != '\n'
    else s == [p]
  }

  function Concat(pieces: seq<string>): string {
    if pieces == [] then "" else pieces[0] + Concat(pieces[1..])
  }

  ghost predicate Pieces(pattern: string, pieces: seq<string>) {
    |pieces| == |pattern| && forall k :: 0 <= k < |pieces| ==> Piece(pattern[k], pieces[k])
  }

  /** The text is made of one piece for each character of the pattern. */
  ghost predicate LikeMeans(text: string, pattern: string) {
    exists pieces :: Pieces(pattern, pieces) && Concat(pieces) == text
  }

  lemma ConcatOne(p: string, rest: seq<string>)
    ensures Concat([p] + rest) == p + Concat(rest)
  {
    assert ([p] + rest)[1..] == rest;
  }

  lemma {:induction false} MatchHasPieces(text: string, pattern: string) returns (pieces: seq<string>)
    requires LikeMatches(text, pattern)
    ensures Pieces(pattern, pieces) && Concat(pieces) == text
    decreases |pattern|, |text|
  {
    if pattern == "" {
      pieces := [];
    } else if pattern[0] == '%' && !LikeMatches(text, pattern[1..]) {
      var rest := MatchHasPieces(text[1..], pattern);
      pieces := [[text[0]] + rest[0]] + rest[1..];
      ConcatOne([text[0]] + rest[0], rest[1..]);
      AppendAssoc([text[0]], rest[0], Concat(rest[1..]));
      assert [text[0]] + text[1..] == text;
    } else {
      var p := if pattern[0] == '%' then "" else text[..1];
      var rest := MatchHasPieces(text[|p|..], pattern[1..]);
      pieces := [p] + rest;
      ConcatOne(p, rest);
      assert p + text[|p|..] == text;
    }
  }

  lemma {:induction false} PiecesMatch(text: string, pattern: string, pieces: seq<string>)
    requires Pieces(pattern, pieces) && Concat(pieces) == text
    ensures LikeMatches(text, pattern)
    decreases |pattern|, |text|
  {
    if pattern != "" {
      var p, rest := pieces[0], pieces[1..];
      if p == "" {
        assert text == Concat(rest);
        PiecesMatch(text, pattern[1..], rest);
      } else if pattern[0] == '%' {
        assert text[0] == p[0] && text[1..] == p[1..] + Concat(rest);
        ConcatOne(p[1..], rest);
        PiecesMatch(text[1..], pattern, [p[1..]] + rest);
      } else {
        assert text[0] == p[0] && text[1..] == Concat(rest);
        PiecesMatch(text[1..], pattern[1..], rest);
      }
    }
  }

  lemma LikeIsPieces(text: string, pattern: string)
    ensures LikeMatches(text, pattern) <==> LikeMeans(text, pattern)
  {
    if LikeMatches(text, pattern) {
      var pieces := MatchHasPieces(text, pattern);
    }
    if pieces :| Pieces(pattern, pieces) && Concat(pieces) == text {
      PiecesMatch(text, pattern, pieces);
    }
  }

  predicate NoWildcards(s: string) {
    '%' !in s && '_' !in s
  }

  /** A pattern without wildcards matches itself alone. */
  lemma {:induction false} PlainLike(text: string, pattern: string)
    requires NoWildcards(pattern)
    ensures LikeMatches(text, pattern) <==> text == pattern
  {
    if pattern != "" {
      assert pattern == [pattern[0]] + pattern[1..];
      if text != "" {
        assert text == [text[0]] + text[1..];
        PlainLike(text[1..], pattern[1..]);
      }
    }
  }

  /** Between two `%` a text without wildcards is found wherever it occurs. */
  lemma SubstringLike(text: string, s: string)
    requires NoWildcards(s) && '\n' !in text
    ensures LikeMatches(text, "%" + s + "%") <==> exists before, after :: text == before + s + after
  {
    var pattern := "%" + s + "%";
    assert pattern[1..] == s + "%" && pattern[0] == '%';
    if LikeMatches(text, pattern) {
      LikeContainsText(text, pattern, s);
    }
    if before, after :| text == before + s + after {
      AfterLike(s, after);
      AnyBefore(before, s + after, s + "%");
      assert before + (s + after) == text && "%" + (s + "%") == pattern;
    }
  }

  lemma {:induction false} AfterLike(s: string, after: string)
    requires NoWildcards(s) && '\n' !in after
    ensures LikeMatches(s + after, s + "%")
    decreases |s|
  {
    if s == "" {
      assert s + after == after && s + "%" == "%";
      AnyLike(after);
    } else {
      assert (s + after)[0] == s[0] && (s + after)[1..] == s[1..] + after;
      assert (s + "%")[0] == s[0] && (s + "%")[1..] == s[1..] + "%";
      AfterLike(s[1..], after);
    }
  }

  lemma {:induction false} AnyLike(text: string)
    requires '\n' !in text
    ensures LikeMatches(text, "%")
  {
    assert "%"[1..] == "";
    if text != "" {
      AnyLike(text[1..]);
    }
  }

  lemma {:induction false} AnyBefore(before: string, rest: string, pattern: string)
    requires '\n' !in before && LikeMatches(rest, pattern)
    ensures LikeMatches(before + rest, "%" + pattern)
    decreases |before|
  {
    var whole := before + rest;
    assert ("%" + pattern)[0] == '%' && ("%" + pattern)[1..] == pattern;
    if before == "" {
      assert whole == rest;
    } else {
      assert whole[0] == before[0] && whole[1..] == before[1..] + rest;
      AnyBefore(before[1..], rest, pattern);
    }
  }

  /** A text that matches a pattern holds the pattern's middle. */
  lemma LikeContainsText(text: string, pattern: string, s: string)
    requires NoWildcards(s) && pattern == "%" + s + "%" && LikeMatches(text, pattern)
    ensures exists before, after :: text == before + s + after
  {
    var pieces := MatchHasPieces(text, pattern);
    var n := |s| + 1;
    assert |pattern| == n + 1 && pattern[n] == '%';
    assert forall k :: 0 < k < n ==> pattern[k] == s[k - 1];
    var middle, last := pieces[1..n], pieces[n];
    forall k | 0 <= k < |s| ensures middle[k] == [s[k]] {
      assert Piece(pattern[k + 1], pieces[k + 1]);
    }
    SpelledOut(middle, s);
    assert pieces == [pieces[0]] + (middle + [last]);
    ConcatOne(pieces[0], middle + [last]);
    ConcatAppend(middle, [last]);
    ConcatOne(last, []);
    assert text == pieces[0] + s + last;
  }

  lemma {:induction false} SpelledOut(pieces: seq<string>, s: string)
    requires |pieces| == |s| && forall k :: 0 <= k < |s| ==> pieces[k] == [s[k]]
    ensures Concat(pieces) == s
  {
    if s != "" {
      SpelledOut(pieces[1..], s[1..]);
      assert s == [s[0]] + s[1..];
    }
  }

  lemma {:induction false} ConcatAppend(a: seq<string>, b: seq<string>)
    ensures Concat(a + b) == Concat(a) + Concat(b)
  {
    if a == [] {
      assert a + b == b;
    } else {
      assert (a + b)[0] == a[0] && (a + b)[1..] == a[1..] + b;
      ConcatAppend(a[1..], b);
      AppendAssoc(a[0], Concat(a[1..]), Concat(b));
    }
  }

  lemma ContainsMeans(needle: string, s: string)
    ensures Occurs(needle, s) <==> exists before, after :: s == before + needle + after
  {
    if i :| 0 <= i <= |s| - |needle| && OccursAt(needle, s, i) {
      assert s == s[..i] + needle + s[i + |needle|..];
    }
    if before, after :| s == before + needle + after {
      assert s[|before|..|before| + |needle|] == needle;
      assert OccursAt(needle, s, |before|);
    }
  }

  /** Bytes start with the bytes of a text exactly when the text does. */
  lemma {:induction false} PrefixMeans(prefix: string, s: string)
    ensures Utf8(prefix) <= Utf8(s) <==> prefix <= s
  {
    if prefix <= s {
      assert s == prefix + s[|prefix|..];
      Utf8Append(prefix, s[|prefix|..]);
    }
    assert prefix != "" ==> Utf8(prefix) != [];
    if prefix != "" && s != "" && Utf8(prefix) <= Utf8(s) {
      var rest := Utf8(s)[|Utf8(prefix)|..];
      assert Utf8(s) == Utf8(prefix) + rest;
      AppendAssoc(Utf8Char(prefix[0]), Utf8(prefix[1..]), rest);
      Utf8CharReads(s[0], prefix[0], Utf8(s[1..]), Utf8(prefix[1..]) + rest);
      PrefixMeans(prefix[1..], s[1..]);
      assert prefix == [prefix[0]] + prefix[1..] && s == [s[0]] + s[1..];
    }
  }

  // ── filters ──────────────────────────────────────────────────────────────

  /** Operands are scalars, and the subqueries read tables that exist, under such filters. */
  predicate Fine(cx: Context, e: Expr)
    decreases e, 0
  {
    match e
    case Column(_) => true
    case Lit(_) => true
    case And(parts) => forall p :: p in parts ==> Fine(cx, p)
    case Or(parts) => forall p :: p in parts ==> Fine(cx, p)
    case Not(x) => Fine(cx, x)
    case Cmp(_, a, b) => Scalar(a) && Scalar(b)
    case InSubquery(a, sub) => Scalar(a) && FineSelect(cx, sub)
    case Exists(sub) => FineSelect(cx, sub)
    case NotExists(sub) => FineSelect(cx, sub)
    case _ => Scalar(e.a)
  }

  predicate FineSelect(cx: Context, sel: Select)
    decreases sel, 0
  {
    TableRows(cx, sel.table).Some? && match sel.filter case None => true case Some(f) => Fine(cx, f)
  }

  predicate Scalar(e: Expr) {
    e.Column? || e.Lit?
  }

  /** The value of an operand. */
  function Operand(e: Expr, sc: Scope): Value
    requires Scalar(e)
  {
    if e.Column? then sc.Lookup(e.name) else LiteralValue(e.lit)
  }

  /** The filter is satisfied. */
  ghost predicate Satisfies(cx: Context, e: Expr, sc: Scope)
    requires Fine(cx, e)
    decreases e, 0
  {
    match e
    case Column(name) => Truthy(sc.Lookup(name))
    case Lit(lit) => Truthy(LiteralValue(lit))
    case And(parts) => forall p :: p in parts ==> Satisfies(cx, p, sc)
    case Or(parts) => exists p :: p in parts && Satisfies(cx, p, sc)
    case Not(x) => !Satisfies(cx, x, sc)
    case Cmp(op, a, b) => Relates(op, Operand(a, sc), Operand(b, sc))
    case In(a, list) => exists lit :: lit in list && Operand(a, sc) == LiteralValue(lit)
    case NotIn(a, list) => !exists lit :: lit in list && Operand(a, sc) == LiteralValue(lit)
    case IsNull(a) => Operand(a, sc) == Null
    case IsNotNull(a) => Operand(a, sc) != Null
    case Like(a, pattern) => Operand(a, sc).Text? && LikeMeans(Operand(a, sc).s, pattern)
    case Contains(a, needle) => Operand(a, sc).Text? && exists before, after :: Operand(a, sc).s == before + needle + after
    case BytesPrefix(a, prefix) => Operand(a, sc).Text? && prefix <= Operand(a, sc).s
    case InSubquery(a, sub) =>
      exists row :: Selected(cx, sub, row)
        && Operand(a, sc) == (match sub.column case Some(name) => Get(row, name) case None => cx.firstValue(row))
    case Exists(sub) => exists row :: Selected(cx, sub, row)
    case NotExists(sub) => !exists row :: Selected(cx, sub, row)
  }

  /** A row of the table that satisfies the filter, if there is one. */
  ghost predicate Selected(cx: Context, sel: Select, row: Row)
    requires FineSelect(cx, sel)
    decreases sel, 0
  {
    row in TableRows(cx, sel.table).value && match sel.filter case None => true case Some(f) => Satisfies(cx, f, Flat(row))
  }

  ghost function Selecting(cx: Context, sel: Select): Row -> bool
    requires FineSelect(cx, sel)
  {
    (row: Row) => Selected(cx, sel, row)
  }

  // ── the evaluator computes it ────────────────────────────────────────────

  lemma AtomMeans(cx: Context, e: Expr, sc: Scope)
    requires Fine(cx, e) && IsAtom(e)
    ensures EvalAtom(e, sc) == Some(Satisfies(cx, e, sc))
  {
    match e
    case Cmp(op, a, b) => ComparisonMeans(op, Operand(a, sc), Operand(b, sc));
    case Like(a, pattern) =>
      if Operand(a, sc).Text? {
        LikeIsPieces(Operand(a, sc).s, pattern);
      }
    case Contains(a, needle) =>
      if Operand(a, sc).Text? {
        ContainsMeans(needle, Operand(a, sc).s);
      }
    case BytesPrefix(a, prefix) =>
      if Operand(a, sc).Text? {
        PrefixMeans(prefix, Operand(a, sc).s);
      }
    case _ =>
  }

  /** The evaluator answers whether the filter is satisfied. */
  lemma {:induction false} EvalMeans(cx: Context, e: Expr, sc: Scope)
    requires Fine(cx, e)
    ensures Eval(cx, false, e, sc) == Some(Satisfies(cx, e, sc))
    decreases e, 1
  {
    if IsAtom(e) {
      AtomMeans(cx, e, sc);
    } else if e.And? {
      AndMeans(cx, e.parts, sc);
    } else if e.Or? {
      OrMeans(cx, e.parts, sc);
    } else if e.Not? {
      EvalMeans(cx, e.e, sc);
    } else {
      var rows := TableRows(cx, e.sub.table).value;
      RunMeans(cx, e.sub);
      forall r ensures r in Keep(rows, Selecting(cx, e.sub)) <==> Selected(cx, e.sub, r) {
        KeepHas(rows, Selecting(cx, e.sub), r);
      }
      var kept := Keep(rows, Selecting(cx, e.sub));
      assert kept != [] ==> kept[0] in kept;
    }
  }

  lemma {:induction false} AndMeans(cx: Context, parts: seq<Expr>, sc: Scope)
    requires forall p :: p in parts ==> Fine(cx, p)
    ensures EvalAnd(cx, false, parts, sc) == Some(forall p :: p in parts ==> Satisfies(cx, p, sc))
    decreases parts, 0
  {
    if parts != [] {
      EvalMeans(cx, parts[0], sc);
      AndMeans(cx, parts[1..], sc);
      assert forall p :: p in parts <==> p == parts[0] || p in parts[1..];
    }
  }

  lemma {:induction false} OrMeans(cx: Context, parts: seq<Expr>, sc: Scope)
    requires forall p :: p in parts ==> Fine(cx, p)
    ensures EvalOr(cx, false, parts, sc) == Some(exists p :: p in parts && Satisfies(cx, p, sc))
    decreases parts, 0
  {
    if parts != [] {
      EvalMeans(cx, parts[0], sc);
      OrMeans(cx, parts[1..], sc);
      assert forall p :: p in parts <==> p == parts[0] || p in parts[1..];
    }
  }

  lemma {:induction false} FilterMeans(cx: Context, f: Expr, rows: seq<Row>, p: Row -> bool)
    requires Fine(cx, f) && forall r :: r in rows ==> (p(r) <==> Satisfies(cx, f, Flat(r)))
    ensures FilterRows(cx, false, f, rows) == Some(Keep(rows, p))
    decreases f, 2, |rows|
  {
    if rows != [] {
      assert rows[0] in rows && forall r :: r in rows[1..] ==> r in rows;
      EvalMeans(cx, f, Flat(rows[0]));
      FilterMeans(cx, f, rows[1..], p);
    }
  }

  /** A plain select returns, in order, the rows of its table that satisfy its filter. */
  lemma {:induction false} RunMeans(cx: Context, sel: Select)
    requires FineSelect(cx, sel)
    ensures Run(cx, false, sel) == Some(Keep(TableRows(cx, sel.table).value, Selecting(cx, sel)))
    decreases sel, 1
  {
    var rows := TableRows(cx, sel.table).value;
    match sel.filter
    case None => KeepEvery(rows, Selecting(cx, sel));
    case Some(f) => FilterMeans(cx, f, rows, Selecting(cx, sel));
  }

  // ── main results ─────────────────────────────────────────────────────────

  /** The select with pushed conditions returns, in order, the rows that satisfy its filter. */
  lemma SelectMeans(cx: Context, sel: Select)
    requires EngineSound(cx) && WellTyped(cx) && SafeSelect(cx, sel) && FineSelect(cx, sel)
    ensures Run(cx, true, sel) == Some(Keep(TableRows(cx, sel.table).value, Selecting(cx, sel)))
  {
    RunMeans(cx, sel);
    RunAgrees(cx, sel);
  }

  /** Inside a transaction a row is selected exactly when the staged inserts, updates, deletes
      and truncates leave it in the table and it satisfies the filter. */
  lemma SelectedExactly(cx: Context, t: Table, f: Expr, r: Row)
    requires EngineSound(cx) && WellTyped(cx)
    requires FindTable(cx.tables, t.name) == Some(t) && t.name !in cx.ctes
    requires DistinctPks(KeyedBy(t), SnapshotOf(cx, t.name))
    requires var sel := Select(t.name, None, Some(f)); SafeSelect(cx, sel) && FineSelect(cx, sel)
    ensures Run(cx, true, Select(t.name, None, Some(f))).Some?
    ensures var k := KeyedBy(t);
            var table := ApplyAll(k, AsMap(k, SnapshotOf(cx, t.name)), cx.staged);
            r in Run(cx, true, Select(t.name, None, Some(f))).value <==>
            k.pk(r) in table && table[k.pk(r)] == r && Satisfies(cx, f, Flat(r))
  {
    RunMeans(cx, Select(t.name, None, Some(f)));
    SelectReadsOwnWrites(cx, t, f, r);
    EvalMeans(cx, f, Flat(r));
  }

  /** A row is returned for a disjunction exactly when it is returned for one of the parts, and
      for a conjunction exactly when it is for both. */
  lemma OrIsUnion(cx: Context, table: string, f: Expr, g: Expr, r: Row)
    requires EngineSound(cx) && WellTyped(cx) && TableRows(cx, table).Some? && Fine(cx, f) && Fine(cx, g)
    requires SafeSelect(cx, Select(table, None, Some(f))) && SafeSelect(cx, Select(table, None, Some(g)))
    requires SafeSelect(cx, Select(table, None, Some(And([f, g]))))
    ensures var a, b := Run(cx, true, Select(table, None, Some(f))), Run(cx, true, Select(table, None, Some(g)));
            var or, and := Run(cx, true, Select(table, None, Some(Or([f, g])))), Run(cx, true, Select(table, None, Some(And([f, g]))));
            && a.Some? && b.Some? && or.Some? && and.Some?
            && (r in or.value <==> r in a.value || r in b.value)
            && (r in and.value <==> r in a.value && r in b.value)
  {
    OrIsSafe(cx, table, f, g);
    BothMean(cx, f, g, Flat(r));
    ReturnedFor(cx, table, f, r);
    ReturnedFor(cx, table, g, r);
    ReturnedFor(cx, table, Or([f, g]), r);
    ReturnedFor(cx, table, And([f, g]), r);
  }

  lemma BothMean(cx: Context, f: Expr, g: Expr, sc: Scope)
    requires Fine(cx, f) && Fine(cx, g)
    ensures Fine(cx, Or([f, g])) && (Satisfies(cx, Or([f, g]), sc) <==> Satisfies(cx, f, sc) || Satisfies(cx, g, sc))
    ensures Fine(cx, And([f, g])) && (Satisfies(cx, And([f, g]), sc) <==> Satisfies(cx, f, sc) && Satisfies(cx, g, sc))
  {
    assert f in [f, g] && g in [f, g];
  }

  lemma ReturnedFor(cx: Context, table: string, f: Expr, r: Row)
    requires EngineSound(cx) && WellTyped(cx) && TableRows(cx, table).Some? && Fine(cx, f)
    requires SafeSelect(cx, Select(table, None, Some(f)))
    ensures var rows := Run(cx, true, Select(table, None, Some(f)));
            rows.Some? && (r in rows.value <==> r in TableRows(cx, table).value && Satisfies(cx, f, Flat(r)))
  {
    ReturnedExactly(cx, Select(table, None, Some(f)), r);
  }

  lemma ReturnedExactly(cx: Context, sel: Select, r: Row)
    requires EngineSound(cx) && WellTyped(cx) && SafeSelect(cx, sel) && FineSelect(cx, sel)
    ensures Run(cx, true, sel).Some? && (r in Run(cx, true, sel).value <==> Selected(cx, sel, r))
  {
    SelectMeans(cx, sel);
    KeepHas(TableRows(cx, sel.table).value, Selecting(cx, sel), r);
  }

  /** Nothing is pushed for a disjunction. */
  lemma OrIsSafe(cx: Context, table: string, f: Expr, g: Expr)
    requires SafeExpr(cx, f) && SafeExpr(cx, g)
    ensures SafeSelect(cx, Select(table, None, Some(Or([f, g]))))
  {
  }

  function NotAll(parts: seq<Expr>): seq<Expr> {
    seq(|parts|, k requires 0 <= k < |parts| => Not(parts[k]))
  }

  /** De Morgan's laws. */
  lemma DeMorgan(cx: Context, parts: seq<Expr>, sc: Scope)
    requires forall p :: p in parts ==> Fine(cx, p)
    ensures Eval(cx, false, Not(Or(parts)), sc) == Eval(cx, false, And(NotAll(parts)), sc)
    ensures Eval(cx, false, Not(And(parts)), sc) == Eval(cx, false, Or(NotAll(parts)), sc)
  {
    NotAllFine(cx, parts, sc);
    OrMeans(cx, parts, sc);
    AndMeans(cx, parts, sc);
    AndMeans(cx, NotAll(parts), sc);
    OrMeans(cx, NotAll(parts), sc);
  }

  lemma NotAllFine(cx: Context, parts: seq<Expr>, sc: Scope)
    requires forall p :: p in parts ==> Fine(cx, p)
    ensures forall p :: p in NotAll(parts) ==> Fine(cx, p)
    ensures (forall p :: p in NotAll(parts) ==> Satisfies(cx, p, sc)) <==> !exists p :: p in parts && Satisfies(cx, p, sc)
    ensures (exists p :: p in NotAll(parts) && Satisfies(cx, p, sc)) <==> !forall p :: p in parts ==> Satisfies(cx, p, sc)
  {
    forall p ensures p in NotAll(parts) <==> exists q :: q in parts && p == Not(q) {
      NotAllHas(parts, p);
    }
    forall q | q in parts ensures Not(q) in NotAll(parts) && (Satisfies(cx, Not(q), sc) <==> !Satisfies(cx, q, sc)) {
      NotAllHas(parts, Not(q));
    }
  }

  lemma NotAllHas(parts: seq<Expr>, p: Expr)
    ensures p in NotAll(parts) <==> exists q :: q in parts && p == Not(q)
  {
    if p in NotAll(parts) {
      var k :| 0 <= k < |parts| && NotAll(parts)[k] == p;
      assert parts[k] in parts;
    }
    if q :| q in parts && p == Not(q) {
      var k :| 0 <= k < |parts| && parts[k] == q;
      assert NotAll(parts)[k] == p;
    }
  }

  function Complement(answer: Option<bool>): Option<bool> {
    match answer
    case None => None
    case Some(b) => Some(!b)
  }

  /** The negated tests are the complements of the plain ones, also where they fail. */
  lemma Complements(cx: Context, pushed: bool, a: Expr, b: Expr, list: seq<Literal>, sub: Select, sc: Scope)
    ensures Eval(cx, pushed, Cmp(NeOp, a, b), sc) == Complement(Eval(cx, pushed, Cmp(EqOp, a, b), sc))
    ensures Eval(cx, pushed, NotIn(a, list), sc) == Complement(Eval(cx, pushed, In(a, list), sc))
    ensures Eval(cx, pushed, IsNotNull(a), sc) == Complement(Eval(cx, pushed, IsNull(a), sc))
    ensures Eval(cx, pushed, NotExists(sub), sc) == Complement(Eval(cx, pushed, Exists(sub), sc))
  {
  }
}
