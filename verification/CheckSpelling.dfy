/** The ways to write a check expression: spaces, the spellings of operators, keywords and
    quotes, and decimal fractions, all parsed to the same tree; and its printed form. */
module CheckSpelling {
  import opened Strings
  import opened Values
  import opened Check

  // ── decimal numbers ──────────────────────────────────────────────────────

  function Pow10(n: nat): (r: real)
    ensures r > 0.0
  {
    if n == 0 then 1.0 else 10.0 * Pow10(n - 1)
  }

  datatype Decimal = Decimal(negative: bool, whole: string, dotted: bool, fraction: string) {
    predicate Valid() {
      whole != "" && AllDigits(whole) && AllDigits(fraction) && (!dotted ==> fraction == "")
    }

    function Magnitude(): string {
      whole + if dotted then "." + fraction else ""
    }

    function Text(): string {
      if negative then "-" + Magnitude() else Magnitude()
    }

    /** All digits as one integer, over as many tens as there are digits after the point. */
    function Value(): real
      requires Valid()
    {
      NatValue(whole + fraction) as real / Pow10(|fraction|)
    }

    predicate Means(v: real)
      requires Valid()
    {
      v == if negative then -Value() else Value()
    }
  }

  /** The value of digits that more digits follow. */
  lemma {:induction false} NatValueAppend(a: string, b: string)
    requires AllDigits(a) && AllDigits(b)
    ensures AllDigits(a + b)
    ensures NatValue(a + b) as real == Shifted(NatValue(a) as real, |b|) + NatValue(b) as real
    decreases |b|
  {
    if b == "" {
      assert a + b == a;
    } else {
      var n := |b| - 1;
      NatValueAppend(a, b[..n]);
      assert (a + b)[..|a| + n] == a + b[..n] && (a + b)[|a| + n] == b[n];
      LastDigit(a + b);
      LastDigit(b);
    }
  }

  lemma LastDigit(s: string)
    requires s != "" && AllDigits(s)
    ensures NatValue(s) as real == 10.0 * NatValue(s[..|s| - 1]) as real + DigitValue(s[|s| - 1]) as real
  {
  }

  function Shifted(x: real, n: nat): real {
    if n == 0 then x else 10.0 * Shifted(x, n - 1)
  }

  lemma {:induction false} ShiftedIs(x: real, n: nat)
    ensures Shifted(x, n) == x * Pow10(n)
  {
    if n > 0 {
      ShiftedIs(x, n - 1);
      TimesTen(x, Pow10(n - 1));
    }
  }

  lemma TimesTen(x: real, p: real)
    ensures 10.0 * (x * p) == x * (10.0 * p)
  {
  }

  lemma Quotient(v: real, w: real, f: real, p: real)
    requires p > 0.0 && v == w * p + f
    ensures v / p == w + f / p
  {
    assert w * p / p == w;
  }

  lemma SplitQuotient(w: real, f: real, n: nat)
    ensures (Shifted(w, n) + f) / Pow10(n) == w + f / Pow10(n)
  {
    ShiftedIs(w, n);
    Quotient(Shifted(w, n) + f, w, f, Pow10(n));
  }

  /** The digits after the point are their number over a power of ten. */
  lemma {:induction false} FractionIs(s: string)
    requires AllDigits(s)
    ensures Fraction(s) == NatValue(s) as real / Pow10(|s|)
  {
    if s == "" {
      assert Pow10(0) == 1.0 && NatValue(s) == 0;
    } else {
      var n := |s| - 1;
      FractionIs(s[1..]);
      assert s == [s[0]] + s[1..];
      NatValueAppend([s[0]], s[1..]);
      OneDigitValue(s[0]);
      SplitQuotient(DigitValue(s[0]) as real, NatValue(s[1..]) as real, n);
      TenthOf(NatValue(s) as real, Pow10(n));
    }
  }

  lemma OneDigitValue(c: char)
    requires IsDigit(c)
    ensures NatValue([c]) == DigitValue(c)
  {
    assert [c][..0] == "";
  }

  lemma TenthOf(x: real, p: real)
    requires p > 0.0
    ensures x / (10.0 * p) == x / p / 10.0
  {
  }

  lemma {:induction false} DotAt(whole: string, rest: string)
    requires AllDigits(whole) && (rest == "" || rest[0] == '.')
    ensures IndexOfDot(whole + rest) == |whole|
  {
    if whole == "" {
      assert whole + rest == rest;
    } else {
      assert (whole + rest)[0] == whole[0] && (whole + rest)[1..] == whole[1..] + rest;
      DotAt(whole[1..], rest);
    }
  }

  lemma DecimalParts(d: Decimal)
    requires d.Valid()
    ensures var text, body := d.Text(), d.Magnitude();
            && body != "" && IsDigit(body[0])
            && (d.negative ==> text != "" && text[0] == '-' && text[1..] == body)
            && IndexOfDot(body) == |d.whole| && body[..|d.whole|] == d.whole
            && (if |d.whole| < |body| then d.dotted && body[|d.whole| + 1..] == d.fraction else d.fraction == "")
  {
    var body := d.Magnitude();
    assert body[0] == d.whole[0];
    DotAt(d.whole, if d.dotted then "." + d.fraction else "");
  }

  function Parts(d: Decimal): real
    requires d.Valid()
  {
    NatValue(d.whole) as real + Fraction(d.fraction)
  }

  lemma PartsAre(d: Decimal)
    requires d.Valid()
    ensures Parts(d) == d.Value()
  {
    NatValueAppend(d.whole, d.fraction);
    FractionIs(d.fraction);
    SplitQuotient(NatValue(d.whole) as real, NatValue(d.fraction) as real, |d.fraction|);
  }

  lemma PartsRead(d: Decimal, v: real)
    requires d.Valid() && v == if d.negative then -Parts(d) else Parts(d)
    ensures ParseNumber(d.Text()) == Some(v)
  {
    DecimalParts(d);
    var text := d.Text();
    assert (text != "" && text[0] == '-') == d.negative;
    assert d.whole + d.fraction != "";
  }

  /** A decimal is read as the number it means. */
  lemma DecimalReads(d: Decimal, v: real)
    requires d.Valid() && d.Means(v)
    ensures ParseNumber(d.Text()) == Some(v)
  {
    PartsAre(d);
    PartsRead(d, v);
  }

  // ── quoted texts ─────────────────────────────────────────────────────────

  /** Between quotes, any character may stand for itself after a backslash, and any but the quote
      and the backslash without one. */
  predicate Quotes(inner: string, quote: char, s: string)
    decreases |inner|
  {
    if inner == "" then s == ""
    else if inner[0] == '\\' then |inner| > 1 && s != "" && s[0] == inner[1] && Quotes(inner[2..], quote, s[1..])
    else inner[0] != quote && s != "" && s[0] == inner[0] && Quotes(inner[1..], quote, s[1..])
  }

  lemma {:induction false} QuotedReads(inner: string, quote: char, s: string, rest: string)
    requires quote != '\\' && Quotes(inner, quote, s)
    ensures ScanQuoted(inner + [quote] + rest, quote) == Some((s, |inner| + 1))
    decreases |inner|
  {
    var whole := inner + [quote] + rest;
    if inner == "" {
      assert whole[0] == quote;
    } else {
      assert s == [s[0]] + s[1..];
      if inner[0] == '\\' {
        assert whole[0] == inner[0] && whole[1] == inner[1] && whole[2..] == inner[2..] + [quote] + rest;
        QuotedReads(inner[2..], quote, s[1..], rest);
      } else {
        assert whole[0] == inner[0] && whole[1..] == inner[1..] + [quote] + rest;
        QuotedReads(inner[1..], quote, s[1..], rest);
      }
    }
  }

  lemma {:induction false} EscapedQuotes(s: string)
    ensures Quotes(EscapeQuoted(s), '\'', s)
  {
    if s != "" {
      EscapedQuotes(s[1..]);
      var inner := EscapeQuoted(s);
      if s[0] == '\'' || s[0] == '\\' {
        assert inner[0] == '\\' && inner[1] == s[0] && inner[2..] == EscapeQuoted(s[1..]);
      } else {
        assert inner[0] == s[0] && inner[1..] == EscapeQuoted(s[1..]);
      }
    }
  }

  // ── spellings of a token ─────────────────────────────────────────────────

  predicate IsWord(u: Unicode, text: string) {
    text != "" && StartsIdent(u, text[0]) && IdentSpan(u, text) == |text|
  }

  const Keywords: seq<string> := ["and", "or", "not", "true", "false", "null"]

  /** The text is one of the ways to write the token. */
  ghost predicate Spells(u: Unicode, text: string, t: Token) {
    match t
    case TIdent(name) => text == name && IsWord(u, name) && Lower(name) !in Keywords
    case TNumber(v) => exists d: Decimal :: d.Valid() && d.Text() == text && d.Means(v)
    case TStr(s) => |text| >= 2 && (text[0] == '\'' || text[0] == '"') && text[|text| - 1] == text[0] && Quotes(text[1..|text| - 1], text[0], s)
    case TBool(b) => Lower(text) == if b then "true" else "false"
    case TNull => Lower(text) == "null"
    case TAnd => text == "&&" || Lower(text) == "and"
    case TOr => text == "||" || Lower(text) == "or"
    case TNot => text == "!" || Lower(text) == "not"
    case TOp(op) => text == op && op in ["=", "==", "!=", "<>", "<", "<=", ">", ">="]
    case TLParen => text == "("
    case TRParen => text == ")"
  }

  /** What follows does not run on from the text: a word or number ends, and a one-character
      operator is not the beginning of another one. */
  predicate Ends(u: Unicode, text: string, rest: string)
    requires text != ""
  {
    rest == "" ||
    (&& (StartsIdent(u, text[0]) ==> !InIdent(u, rest[0]))
     && (StartsNumber(text) ==> !InNumber(rest[0]))
     && (|text| == 1 && StartsOperator(text[0]) ==> rest[0] != '=' && !(text[0] == '<' && rest[0] == '>')))
  }

  /** The text is read as the token, wherever it ends. */
  ghost predicate ReadsAs(u: Unicode, text: string, t: Token) {
    && text != "" && !IsSpace(u, text[0])
    && forall rest :: Ends(u, text, rest) ==> NextToken(u, text + rest) == Some((t, |text|))
  }

  // ── words ────────────────────────────────────────────────────────────────

  lemma {:induction false} SpanStops(u: Unicode, name: string, rest: string)
    requires IdentSpan(u, name) == |name| && (rest == "" || !InIdent(u, rest[0]))
    ensures IdentSpan(u, name + rest) == |name|
  {
    var whole := name + rest;
    if name == "" {
      assert whole == rest;
    } else {
      assert whole[0] == name[0] && whole[1..] == name[1..] + rest;
      SpanStops(u, name[1..], rest);
    }
  }

  lemma WordReads(u: Unicode, text: string)
    requires IsWord(u, text)
    ensures ReadsAs(u, text, Word(text))
  {
    forall rest | Ends(u, text, rest) ensures NextToken(u, text + rest) == Some((Word(text), |text|)) {
      var whole := text + rest;
      assert whole[0] == text[0] && whole[1..] == text[1..] + rest && whole[..|text|] == text;
      SpanStops(u, text[1..], rest);
      WordIsNoSymbol(u, whole);
      WordLiteral(u, whole);
    }
  }

  predicate Letters(text: string) {
    forall k :: 0 <= k < |text| ==> 'a' <= text[k] <= 'z' || 'A' <= text[k] <= 'Z'
  }

  lemma {:induction false} LettersSpan(u: Unicode, text: string)
    requires Letters(text)
    ensures IdentSpan(u, text) == |text|
  {
    if text != "" {
      LettersSpan(u, text[1..]);
    }
  }

  /** A text that is a keyword but for case. */
  lemma KeywordReads(u: Unicode, text: string, keyword: string)
    requires Lower(text) == keyword && keyword != "" && forall k :: 0 <= k < |keyword| ==> 'a' <= keyword[k] <= 'z'
    ensures ReadsAs(u, text, Word(text))
  {
    assert Letters(text) by {
      forall k | 0 <= k < |text| ensures 'a' <= text[k] <= 'z' || 'A' <= text[k] <= 'Z' {
        assert keyword[k] == Lower(text)[k];
      }
    }
    LettersSpan(u, text);
    WordReads(u, text);
  }

  // ── numbers ──────────────────────────────────────────────────────────────

  lemma {:induction false} NumberStops(run: string, rest: string)
    requires (forall c :: c in run ==> InNumber(c)) && (rest == "" || !InNumber(rest[0]))
    ensures NumberSpan(run + rest) == |run|
  {
    var whole := run + rest;
    if run == "" {
      assert whole == rest;
    } else {
      assert whole[0] == run[0] && whole[1..] == run[1..] + rest;
      NumberStops(run[1..], rest);
    }
  }

  lemma DecimalChars(d: Decimal)
    requires d.Valid()
    ensures d.Text() != "" && StartsNumber(d.Text()) && forall c :: c in d.Text()[1..] ==> InNumber(c)
  {
    var body := d.Magnitude();
    assert body[0] == d.whole[0];
    forall c | c in body ensures InNumber(c) {
      assert c in d.whole || c == '.' || c in d.fraction;
    }
    assert d.negative ==> d.Text()[1..] == body;
    assert forall c :: c in body[1..] ==> c in body;
  }

  lemma NumberReads(u: Unicode, text: string, v: real)
    requires text != "" && StartsNumber(text) && (forall c :: c in text[1..] ==> InNumber(c)) && ParseNumber(text) == Some(v)
    ensures ReadsAs(u, text, TNumber(v))
  {
    forall rest | Ends(u, text, rest) ensures NextToken(u, text + rest) == Some((TNumber(v), |text|)) {
      NumberEnds(u, text, rest);
    }
  }

  lemma NumberEnds(u: Unicode, text: string, rest: string)
    requires text != "" && StartsNumber(text) && (forall c :: c in text[1..] ==> InNumber(c)) && Ends(u, text, rest)
    ensures NextToken(u, text + rest) == Sized(SpanToken(text, true), |text|)
  {
    var whole := text + rest;
    assert whole[0] == text[0] && whole[1..] == text[1..] + rest && whole[..|text|] == text;
    assert |text| > 1 ==> whole[1] == text[1];
    NumberStops(text[1..], rest);
    NumberLiteral(u, whole);
  }

  // ── quotes and symbols ───────────────────────────────────────────────────

  lemma TextReads(u: Unicode, text: string, s: string)
    requires Spells(u, text, TStr(s))
    ensures ReadsAs(u, text, TStr(s))
  {
    var quote, inner := text[0], text[1..|text| - 1];
    forall rest | Ends(u, text, rest) ensures NextToken(u, text + rest) == Some((TStr(s), |text|)) {
      var whole := text + rest;
      assert whole[0] == quote && whole[1..] == inner + [quote] + rest;
      QuotedReads(inner, quote, s, rest);
    }
  }

  lemma SymbolReads(u: Unicode, text: string, t: Token)
    requires t.TLParen? || t.TRParen? || text == "!" || text == "&&" || text == "||"
    requires Spells(u, text, t)
    ensures ReadsAs(u, text, t)
  {
    SymbolText(u, text, t);
    forall rest | Ends(u, text, rest) ensures NextToken(u, text + rest) == Some((t, |text|)) {
      SymbolStops(u, text, rest);
    }
  }

  function SymbolToken(text: string): Option<Token> {
    if text == "(" then Some(TLParen)
    else if text == ")" then Some(TRParen)
    else if text == "!" then Some(TNot)
    else if text == "&&" then Some(TAnd)
    else if text == "||" then Some(TOr)
    else None
  }

  lemma SymbolText(u: Unicode, text: string, t: Token)
    requires t.TLParen? || t.TRParen? || text == "!" || text == "&&" || text == "||"
    requires Spells(u, text, t)
    ensures SymbolToken(text) == Some(t) && !IsSpace(u, text[0])
  {
    if text == "!" || text == "&&" || text == "||" {
      NoLetters(text);
    }
  }

  lemma NoLetters(text: string)
    requires text == "!" || text == "&&" || text == "||"
    ensures Lower(text) == text
  {
  }

  lemma SymbolStops(u: Unicode, text: string, rest: string)
    requires SymbolToken(text).Some? && Ends(u, text, rest)
    ensures Symbol(text + rest) == Some((SymbolToken(text).value, |text|))
  {
    var whole := text + rest;
    assert whole[0] == text[0] && (|text| > 1 ==> whole[1] == text[1]);
    assert |text| == 1 && |whole| > 1 ==> whole[1] == rest[0];
  }

  lemma OperatorReads(u: Unicode, op: string)
    requires Spells(u, op, TOp(op))
    ensures ReadsAs(u, op, TOp(op))
  {
    forall rest | Ends(u, op, rest) ensures NextToken(u, op + rest) == Some((TOp(op), |op|)) {
      var whole := op + rest;
      assert whole[0] == op[0] && (|op| > 1 ==> whole[1] == op[1]);
      assert |op| == 1 && |whole| > 1 ==> whole[1] == rest[0];
      assert whole[..|op|] == op;
    }
  }

  /** Every spelling of a token is read as the token. */
  lemma SpellingReads(u: Unicode, text: string, t: Token)
    requires Spells(u, text, t)
    ensures ReadsAs(u, text, t)
  {
    match t
    case TIdent(name) => WordReads(u, name);
    case TNumber(v) =>
      var d: Decimal :| d.Valid() && d.Text() == text && d.Means(v);
      DecimalChars(d);
      DecimalReads(d, v);
      NumberReads(u, text, v);
    case TStr(s) => TextReads(u, text, s);
    case TBool(b) => KeywordReads(u, text, if b then "true" else "false");
    case TNull => KeywordReads(u, text, "null");
    case TAnd =>
      if text == "&&" {
        SymbolReads(u, text, t);
      } else {
        KeywordReads(u, text, "and");
      }
    case TOr =>
      if text == "||" {
        SymbolReads(u, text, t);
      } else {
        KeywordReads(u, text, "or");
      }
    case TNot =>
      if text == "!" {
        SymbolReads(u, text, t);
      } else {
        KeywordReads(u, text, "not");
      }
    case TOp(op) => OperatorReads(u, op);
    case TLParen => SymbolReads(u, text, t);
    case TRParen => SymbolReads(u, text, t);
  }

  // ── a whole text ─────────────────────────────────────────────────────────

  /** A token with the spaces before it. */
  datatype Piece = Piece(gap: string, text: string)

  function Written(pieces: seq<Piece>, tail: string): string {
    if pieces == [] then tail else pieces[0].gap + (pieces[0].text + Written(pieces[1..], tail))
  }

  predicate Spaces(u: Unicode, s: string) {
    forall k :: 0 <= k < |s| ==> IsSpace(u, s[k])
  }

  /** The pieces spell the tokens, and no piece runs on into what follows it. */
  ghost predicate Spelled(u: Unicode, pieces: seq<Piece>, tail: string, ts: seq<Token>)
    decreases |pieces|
  {
    |pieces| == |ts| &&
    if pieces == [] then Spaces(u, tail)
    else
      && Spaces(u, pieces[0].gap) && Spells(u, pieces[0].text, ts[0])
      && pieces[0].text != "" && Ends(u, pieces[0].text, Written(pieces[1..], tail))
      && Spelled(u, pieces[1..], tail, ts[1..])
  }

  lemma {:induction false} LexSpaces(u: Unicode, gap: string, s: string)
    requires Spaces(u, gap)
    ensures Lex(u, gap + s) == Lex(u, s)
  {
    if gap == "" {
      assert gap + s == s;
    } else {
      assert (gap + s)[0] == gap[0] && (gap + s)[1..] == gap[1..] + s;
      LexSpaces(u, gap[1..], s);
    }
  }

  lemma {:induction false} LexSpelled(u: Unicode, pieces: seq<Piece>, tail: string, ts: seq<Token>)
    requires Spelled(u, pieces, tail, ts)
    ensures Lex(u, Written(pieces, tail)) == Some(ts)
    decreases |pieces|
  {
    if pieces == [] {
      LexSpaces(u, tail, "");
      assert tail + "" == tail;
    } else {
      var text, rest := pieces[0].text, Written(pieces[1..], tail);
      LexSpelled(u, pieces[1..], tail, ts[1..]);
      LexSpaces(u, pieces[0].gap, text + rest);
      SpellingReads(u, text, ts[0]);
      LexOne(u, text, rest, ts[0]);
      assert [ts[0]] + ts[1..] == ts;
    }
  }

  lemma LexOne(u: Unicode, text: string, rest: string, t: Token)
    requires ReadsAs(u, text, t) && Ends(u, text, rest)
    ensures Lex(u, text + rest) == Prepend(t, Lex(u, rest))
  {
    var whole := text + rest;
    assert whole[0] == text[0] && whole[|text|..] == rest;
    assert NextToken(u, whole) == Some((t, |text|));
  }

  // ── spellings of operators ───────────────────────────────────────────────

  /** The tokens are the same, or spell the same operator. */
  predicate SameToken(a: Token, b: Token) {
    a == b || (a.TOp? && b.TOp? && OperatorOf(a.op).Some? && OperatorOf(a.op) == OperatorOf(b.op))
  }

  predicate SameTokens(ts: seq<Token>, us: seq<Token>) {
    |ts| == |us| && forall k :: 0 <= k < |ts| ==> SameToken(ts[k], us[k])
  }

  ghost predicate SameParse(p: Parsed<Expr>, q: Parsed<Expr>) {
    match p
    case Fail => q.Fail?
    case Ok(e, rest) => q.Ok? && q.value == e && SameTokens(rest, q.rest)
  }

  lemma {:induction false} SameOr(ts: seq<Token>, us: seq<Token>)
    requires SameTokens(ts, us)
    ensures SameParse(ParseOr(ts), ParseOr(us))
    decreases |ts|, 4
  {
    SameAnd(ts, us);
    match ParseAnd(ts)
    case Fail =>
    case Ok(e, rest) => SameOrTail(e, rest, ParseAnd(us).rest);
  }

  lemma {:induction false} SameOrTail(acc: Expr, ts: seq<Token>, us: seq<Token>)
    requires SameTokens(ts, us)
    ensures SameParse(OrTail(acc, ts), OrTail(acc, us))
    decreases |ts|, 5
  {
    if ts != [] && ts[0] == TOr {
      SameAnd(ts[1..], us[1..]);
      match ParseAnd(ts[1..])
      case Fail =>
      case Ok(e, rest) => SameOrTail(Or(acc, e), rest, ParseAnd(us[1..]).rest);
    }
  }

  lemma {:induction false} SameAnd(ts: seq<Token>, us: seq<Token>)
    requires SameTokens(ts, us)
    ensures SameParse(ParseAnd(ts), ParseAnd(us))
    decreases |ts|, 2
  {
    SameNot(ts, us);
    match ParseNot(ts)
    case Fail =>
    case Ok(e, rest) => SameAndTail(e, rest, ParseNot(us).rest);
  }

  lemma {:induction false} SameAndTail(acc: Expr, ts: seq<Token>, us: seq<Token>)
    requires SameTokens(ts, us)
    ensures SameParse(AndTail(acc, ts), AndTail(acc, us))
    decreases |ts|, 3
  {
    if ts != [] && ts[0] == TAnd {
      SameNot(ts[1..], us[1..]);
      match ParseNot(ts[1..])
      case Fail =>
      case Ok(e, rest) => SameAndTail(And(acc, e), rest, ParseNot(us[1..]).rest);
    }
  }

  lemma {:induction false} SameNot(ts: seq<Token>, us: seq<Token>)
    requires SameTokens(ts, us)
    ensures SameParse(ParseNot(ts), ParseNot(us))
    decreases |ts|, 1
  {
    if ts != [] && ts[0] == TNot {
      SameNot(ts[1..], us[1..]);
    } else {
      SameAtom(ts, us);
    }
  }

  lemma {:induction false} SameAtom(ts: seq<Token>, us: seq<Token>)
    requires SameTokens(ts, us)
    ensures SameParse(ParseAtom(ts), ParseAtom(us))
    decreases |ts|, 0
  {
    if ts != [] && ts[0] == TLParen {
      SameOr(ts[1..], us[1..]);
    }
  }

  // ── main results ─────────────────────────────────────────────────────────

  /** However an expression's tokens are spelled and spaced, the text is parsed to it. */
  lemma SpellingsParse(u: Unicode, e: Expr, pieces: seq<Piece>, tail: string, ts: seq<Token>)
    requires SameTokens(ts, Show(e, 0)) && Spelled(u, pieces, tail, ts)
    ensures ParseCheck(u, Written(pieces, tail)) == Some(e)
  {
    LexSpelled(u, pieces, tail, ts);
    SameOr(ts, Show(e, 0));
    ParseShow(e);
  }

  /** The operators and what they are called. */
  lemma OperatorNames()
    ensures OperatorOf("=") == OperatorOf("==") == Some(Eq) && OperatorOf("!=") == OperatorOf("<>") == Some(Ne)
    ensures OperatorOf("<") == Some(Lt) && OperatorOf("<=") == Some(Le)
    ensures OperatorOf(">") == Some(Gt) && OperatorOf(">=") == Some(Ge)
    ensures forall op :: OperatorOf(op).Some? <==> op in ["=", "==", "!=", "<>", "<", "<=", ">", ">="]
  {
  }

  // ── the printed form ─────────────────────────────────────────────────────

  predicate PrintableToken(u: Unicode, t: Token) {
    match t
    case TIdent(name) => PrintableOperand(u, Column(name))
    case TNumber(v) => PrintableOperand(u, Number(v))
    case TOp(op) => OperatorOf(op).Some? && op == OperatorText(OperatorOf(op).value)
    case _ => true
  }

  lemma IntegerSpelled(i: int) returns (d: Decimal)
    ensures d.Valid() && d.Text() == FormatInt(i) && d.Means(i as real)
  {
    d := Decimal(i < 0, FormatNat(if i < 0 then -i else i), false, "");
    NatValueFormat(if i < 0 then -i else i);
    assert d.whole + d.fraction == d.whole;
  }

  lemma PrintedSpells(u: Unicode, t: Token)
    requires PrintableToken(u, t)
    ensures Spells(u, TokenText(t), t)
  {
    match t
    case TIdent(_) =>
    case TNumber(v) => var d := IntegerSpelled(v.Floor);
    case TStr(s) =>
      EscapedQuotes(s);
      var text := TokenText(t);
      assert text[1..|text| - 1] == EscapeQuoted(s);
    case TOp(_) =>
    case _ => KeywordsSpelled();
  }

  lemma KeywordsSpelled()
    ensures Lower("AND") == "and" && Lower("OR") == "or" && Lower("NOT") == "not"
    ensures Lower("true") == "true" && Lower("false") == "false" && Lower("null") == "null"
  {
  }

  /** The text of printable tokens is lexed back to them. */
  lemma {:induction false} LexText(u: Unicode, ts: seq<Token>)
    requires forall t :: t in ts ==> PrintableToken(u, t)
    ensures Lex(u, TokensText(ts)) == Some(ts)
    decreases |ts|
  {
    if ts != [] {
      var text, rest := TokenText(ts[0]), " " + TokensText(ts[1..]);
      assert TokensText(ts) == text + rest;
      PrintedReads(u, ts[0], TokensText(ts[1..]));
      LexText(u, ts[1..]);
      assert [ts[0]] + ts[1..] == ts;
    }
  }

  lemma PrintedReads(u: Unicode, t: Token, s: string)
    requires PrintableToken(u, t)
    ensures Lex(u, TokenText(t) + (" " + s)) == Prepend(t, Lex(u, s))
  {
    var text, rest := TokenText(t), " " + s;
    PrintedSpells(u, t);
    SpellingReads(u, text, t);
    assert Ends(u, text, rest);
    LexOne(u, text, rest, t);
    assert rest[1..] == s;
  }

  lemma {:induction false} ShowPrintable(u: Unicode, e: Expr, level: nat)
    requires Printable(u, e)
    ensures forall t :: t in Show(e, level) ==> PrintableToken(u, t)
    decreases e
  {
    match e
    case Or(l, r) => ShowPrintable(u, l, 0); ShowPrintable(u, r, 1);
    case And(l, r) => ShowPrintable(u, l, 1); ShowPrintable(u, r, 2);
    case Not(x) => ShowPrintable(u, x, 2);
    case Compare(l, op, r) =>
      assert PrintableToken(u, OperandToken(l)) && PrintableToken(u, OperandToken(r));
      assert OperatorOf(OperatorText(op)) == Some(op);
  }

  /** Every printable expression is read back from its text, all tokens consumed. */
  lemma ParsePrint(u: Unicode, e: Expr)
    requires Printable(u, e)
    ensures ParseCheck(u, Print(e)) == Some(e)
  {
    ShowPrintable(u, e, 0);
    LexText(u, Show(e, 0));
    ParseShow(e);
  }
}
