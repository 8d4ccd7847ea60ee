/** The check-expression language: tokens, a precedence parser, and evaluation in
    three-valued logic. A number is its exact decimal value. */
module Check {
  import opened Strings
  import opened Values

  datatype Operator = Eq | Ne | Lt | Le | Gt | Ge

  datatype Operand = Column(name: string) | Number(value: real) | Text(s: string) | Boolean(b: bool) | Null

  datatype Expr =
    | Compare(left: Operand, op: Operator, right: Operand)
    | And(l: Expr, r: Expr)
    | Or(l: Expr, r: Expr)
    | Not(e: Expr)

  datatype Token =
    | TIdent(name: string)
    | TNumber(value: real)
    | TStr(s: string)
    | TBool(b: bool)
    | TNull
    | TOp(op: string)
    | TAnd
    | TOr
    | TNot
    | TLParen
    | TRParen

  // ── characters ───────────────────────────────────────────────────────────

  datatype CharClass = Letter | Numeric | Space | Other

  /** How Unicode classifies the characters outside ASCII. */
  type Unicode = char -> CharClass

  predicate IsAscii(c: char) {
    c as int < 128
  }

  predicate IsSpace(u: Unicode, c: char) {
    if IsAscii(c) then c == ' ' || '\t' <= c <= '\r' else u(c).Space?
  }

  predicate IsLetter(u: Unicode, c: char) {
    if IsAscii(c) then 'a' <= c <= 'z' || 'A' <= c <= 'Z' else u(c).Letter?
  }

  predicate StartsIdent(u: Unicode, c: char) {
    IsLetter(u, c) || c == '_'
  }

  predicate InIdent(u: Unicode, c: char) {
    IsLetter(u, c) || (if IsAscii(c) then IsDigit(c) else u(c).Numeric?) || c == '_' || c == '.'
  }

  predicate InNumber(c: char) {
    IsDigit(c) || c == '.'
  }

  function Lower(s: string): string {
    seq(|s|, k requires 0 <= k < |s| => if 'A' <= s[k] <= 'Z' then 'a' + (s[k] - 'A') else s[k])
  }

  function Word(ident: string): Token {
    var w := Lower(ident);
    if w == "and" then TAnd
    else if w == "or" then TOr
    else if w == "not" then TNot
    else if w == "true" then TBool(true)
    else if w == "false" then TBool(false)
    else if w == "null" then TNull
    else TIdent(ident)
  }

  // ── numbers ──────────────────────────────────────────────────────────────

  /** The digits after a decimal point. */
  function Fraction(s: string): real
    requires AllDigits(s)
  {
    if s == "" then 0.0 else (DigitValue(s[0]) as real + Fraction(s[1..])) / 10.0
  }

  function IndexOfDot(s: string): (i: nat)
    ensures i <= |s| && (forall k :: 0 <= k < i ==> s[k] != '.') && (i < |s| ==> s[i] == '.')
  {
    if s == "" || s[0] == '.' then 0 else 1 + IndexOfDot(s[1..])
  }

  /** `parse::<f64>` on the digits and points the lexer collects: at most one point. */
  function ParseNumber(text: string): Option<real> {
    var negative := text != "" && text[0] == '-';
    var body := if negative then text[1..] else text;
    var dot := IndexOfDot(body);
    var whole := body[..dot];
    var fraction := if dot < |body| then body[dot + 1..] else "";
    if !AllDigits(whole) || !AllDigits(fraction) || whole + fraction == "" then None
    else
      var v := NatValue(whole) as real + Fraction(fraction);
      Some(if negative then -v else v)
  }

  // ── the lexer ────────────────────────────────────────────────────────────

  /** The text of a quoted literal and the characters it takes, its closing quote included. */
  function ScanQuoted(s: string, quote: char): (r: Option<(string, nat)>)
    ensures r.Some? ==> 0 < r.value.1 <= |s|
  {
    if s == "" then None
    else if s[0] == quote then Some(("", 1))
    else if s[0] == '\\' && |s| > 1 then
      match ScanQuoted(s[2..], quote)
      case None => None
      case Some((text, n)) => Some(([s[1]] + text, n + 2))
    else
      match ScanQuoted(s[1..], quote)
      case None => None
      case Some((text, n)) => Some(([s[0]] + text, n + 1))
  }

  function NumberSpan(s: string): (n: nat)
    ensures n <= |s|
  {
    if s == "" || !InNumber(s[0]) then 0 else 1 + NumberSpan(s[1..])
  }

  function IdentSpan(u: Unicode, s: string): (n: nat)
    ensures n <= |s|
  {
    if s == "" || !InIdent(u, s[0]) then 0 else 1 + IdentSpan(u, s[1..])
  }

  predicate StartsNumber(s: string)
    requires s != ""
  {
    IsDigit(s[0]) || (s[0] == '-' && |s| > 1 && IsDigit(s[1]))
  }

  predicate StartsOperator(c: char) {
    c == '=' || c == '!' || c == '<' || c == '>'
  }

  function OperatorSpan(s: string): (n: nat)
    requires s != ""
    ensures 1 <= n <= |s|
  {
    if |s| > 1 && (s[1] == '=' || (s[0] == '<' && s[1] == '>')) then 2 else 1
  }

  /** Punctuation, operators and their two-character forms. */
  function Symbol(s: string): (r: Option<(Token, nat)>)
    requires s != ""
    ensures r.Some? ==> 0 < r.value.1 <= |s|
  {
    var c := s[0];
    if c == '(' then Some((TLParen, 1))
    else if c == ')' then Some((TRParen, 1))
    else if c == '!' && !(|s| > 1 && s[1] == '=') then Some((TNot, 1))
    else if StartsOperator(c) then Some((TOp(s[..OperatorSpan(s)]), OperatorSpan(s)))
    else if c == '&' && |s| > 1 && s[1] == '&' then Some((TAnd, 2))
    else if c == '|' && |s| > 1 && s[1] == '|' then Some((TOr, 2))
    else None
  }

  /** The token of a run of number characters or of identifier characters. */
  function SpanToken(text: string, number: bool): Option<Token> {
    if !number then Some(Word(text))
    else
      match ParseNumber(text)
      case None => None
      case Some(v) => Some(TNumber(v))
  }

  function Sized(token: Option<Token>, n: int): Option<(Token, int)> {
    match token
    case None => None
    case Some(t) => Some((t, n))
  }

  /** Quoted literals, numbers, and words. */
  function Literal(u: Unicode, s: string): (r: Option<(Token, nat)>)
    requires s != ""
    ensures r.Some? ==> 0 < r.value.1 <= |s|
  {
    var c := s[0];
    if c == '\'' || c == '"' then
      match ScanQuoted(s[1..], c)
      case None => None
      case Some((text, n)) => Some((TStr(text), n + 1))
    else if StartsNumber(s) then
      var n := 1 + NumberSpan(s[1..]);
      Sized(SpanToken(s[..n], true), n)
    else if StartsIdent(u, c) then
      var n := 1 + IdentSpan(u, s[1..]);
      Sized(SpanToken(s[..n], false), n)
    else None
  }

  /** The token at the head of a text that does not start with a space, and its length. */
  function NextToken(u: Unicode, s: string): (r: Option<(Token, nat)>)
    requires s != ""
    ensures r.Some? ==> 0 < r.value.1 <= |s|
  {
    if Symbol(s).Some? then Symbol(s) else Literal(u, s)
  }

  function Lex(u: Unicode, s: string): Option<seq<Token>>
    decreases |s|
  {
    if s == "" then Some([])
    else if IsSpace(u, s[0]) then Lex(u, s[1..])
    else
      match NextToken(u, s)
      case None => None
      case Some((token, n)) => Prepend(token, Lex(u, s[n..]))
  }

  function Prepend(token: Token, rest: Option<seq<Token>>): Option<seq<Token>> {
    match rest
    case None => None
    case Some(tokens) => Some([token] + tokens)
  }

  function PrependAll(front: seq<Token>, rest: Option<seq<Token>>): Option<seq<Token>> {
    match rest
    case None => None
    case Some(tokens) => Some(front + tokens)
  }

  lemma PrependStep(front: seq<Token>, token: Token, rest: Option<seq<Token>>)
    ensures PrependAll(front, Prepend(token, rest)) == PrependAll(front + [token], rest)
  {
    if rest.Some? {
      assert front + ([token] + rest.value) == front + [token] + rest.value;
    }
  }

  /** The body of a quoted literal, from `i` to its closing quote. */
  method ReadQuoted(chars: string, start: nat, quote: char) returns (text: string, end: nat)
    requires start <= |chars|
    ensures start <= end <= |chars|
    ensures match ScanQuoted(chars[start..], quote)
            case None => end == |chars|
            case Some((t, n)) => end < |chars| && text == t && end + 1 == start + n
  {
    text := "";
    end := start;
    ghost var whole := ScanQuoted(chars[start..], quote);
    ContinuedNothing(whole);
    while end < |chars| && chars[end] != quote
      invariant start <= end <= |chars|
      invariant whole == Continued(text, end - start, ScanQuoted(chars[end..], quote))
    {
      QuotedAt(text, end - start, chars, end, quote);
      if chars[end] == '\\' && end + 1 < |chars| {
        text := text + [chars[end + 1]];
        end := end + 2;
      } else {
        text := text + [chars[end]];
        end := end + 1;
      }
    }
    QuotedEnds(text, end - start, chars, end, quote);
  }

  lemma ContinuedNothing(rest: Option<(string, nat)>)
    ensures Continued("", 0, rest) == rest
  {
    assert rest.Some? ==> "" + rest.value.0 == rest.value.0;
  }

  lemma QuotedEnds(text: string, n: nat, chars: string, end: nat, quote: char)
    requires end <= |chars| && (end < |chars| ==> chars[end] == quote)
    ensures Continued(text, n, ScanQuoted(chars[end..], quote)) == if end == |chars| then None else Some((text, n + 1))
  {
    assert end < |chars| ==> chars[end..][0] == quote;
    assert text + "" == text;
  }

  /** What is scanned after `text`, which took `n` characters. */
  function Continued(text: string, n: nat, rest: Option<(string, nat)>): Option<(string, nat)> {
    match rest
    case None => None
    case Some((t, k)) => Some((text + t, n + k))
  }

  lemma QuotedStep(text: string, n: nat, s: string, quote: char)
    requires s != "" && s[0] != quote
    ensures Continued(text, n, ScanQuoted(s, quote))
         == if s[0] == '\\' && |s| > 1 then Continued(text + [s[1]], n + 2, ScanQuoted(s[2..], quote))
            else Continued(text + [s[0]], n + 1, ScanQuoted(s[1..], quote))
  {
    if s[0] == '\\' && |s| > 1 {
      TextGrows(text, s[1], ScanQuoted(s[2..], quote));
    } else {
      TextGrows(text, s[0], ScanQuoted(s[1..], quote));
    }
  }

  lemma QuotedAt(text: string, n: nat, chars: string, i: nat, quote: char)
    requires i < |chars| && chars[i] != quote
    ensures Continued(text, n, ScanQuoted(chars[i..], quote))
         == if chars[i] == '\\' && i + 1 < |chars| then Continued(text + [chars[i + 1]], n + 2, ScanQuoted(chars[i + 2..], quote))
            else Continued(text + [chars[i]], n + 1, ScanQuoted(chars[i + 1..], quote))
  {
    QuotedStep(text, n, chars[i..], quote);
    assert chars[i..][1..] == chars[i + 1..];
    assert i + 1 < |chars| ==> chars[i..][1] == chars[i + 1] && chars[i..][2..] == chars[i + 2..];
  }

  lemma TextGrows(text: string, c: char, rest: Option<(string, nat)>)
    ensures rest.Some? ==> text + ([c] + rest.value.0) == text + [c] + rest.value.0
  {
  }

  method ReadNumber(chars: string, start: nat) returns (end: nat)
    requires start <= |chars|
    ensures end == start + NumberSpan(chars[start..])
  {
    end := start;
    while end < |chars| && InNumber(chars[end])
      invariant start <= end <= |chars|
      invariant start + NumberSpan(chars[start..]) == end + NumberSpan(chars[end..])
    {
      assert chars[end..][0] == chars[end] && chars[end..][1..] == chars[end + 1..];
      end := end + 1;
    }
    assert end < |chars| ==> chars[end..][0] == chars[end];
  }

  method ReadIdent(u: Unicode, chars: string, start: nat) returns (end: nat)
    requires start <= |chars|
    ensures end == start + IdentSpan(u, chars[start..])
  {
    end := start;
    while end < |chars| && InIdent(u, chars[end])
      invariant start <= end <= |chars|
      invariant start + IdentSpan(u, chars[start..]) == end + IdentSpan(u, chars[end..])
    {
      assert chars[end..][0] == chars[end] && chars[end..][1..] == chars[end + 1..];
      end := end + 1;
    }
    assert end < |chars| ==> chars[end..][0] == chars[end];
  }

  method ReadSymbol(chars: string, i: nat) returns (token: Option<Token>, next: nat)
    requires i < |chars|
    ensures match Symbol(chars[i..])
            case None => token == None
            case Some((t, n)) => token == Some(t) && next == i + n
  {
    ghost var s := chars[i..];
    var c, more := chars[i], i + 1 < |chars|;
    assert s[0] == c && (more ==> s[1] == chars[i + 1]);
    token, next := None, i + 1;
    if c == '(' {
      token := Some(TLParen);
    } else if c == ')' {
      token := Some(TRParen);
    } else if c == '!' && !(more && chars[i + 1] == '=') {
      token := Some(TNot);
    } else if StartsOperator(c) {
      if more && (chars[i + 1] == '=' || (c == '<' && chars[i + 1] == '>')) {
        next := i + 2;
      }
      assert s[..next - i] == chars[i..next];
      token := Some(TOp(chars[i..next]));
    } else if c == '&' && more && chars[i + 1] == '&' {
      token, next := Some(TAnd), i + 2;
    } else if c == '|' && more && chars[i + 1] == '|' {
      token, next := Some(TOr), i + 2;
    }
  }

  /** The run of number or identifier characters at `i`. */
  method ReadSpan(u: Unicode, chars: string, i: nat, number: bool) returns (token: Option<Token>, next: nat)
    requires i < |chars|
    ensures SpanReads(u, chars[i..], number, token, next - i)
  {
    if number {
      next := ReadNumber(chars, i + 1);
    } else {
      next := ReadIdent(u, chars, i + 1);
    }
    token := SpanToken(chars[i..next], number);
    Slices(chars, i, next);
  }

  predicate SpanReads(u: Unicode, s: string, number: bool, token: Option<Token>, n: int)
    requires s != ""
  {
    n == 1 + (if number then NumberSpan(s[1..]) else IdentSpan(u, s[1..])) && token == SpanToken(s[..n], number)
  }

  /** A quoted literal, or none if its quote is never closed. */
  method ReadText(u: Unicode, chars: string, i: nat) returns (token: Option<Token>, next: nat)
    requires i < |chars| && (chars[i] == '\'' || chars[i] == '"')
    ensures Literal(u, chars[i..]) == Sized(token, next - i)
    ensures next > i
  {
    assert chars[i..][0] == chars[i] && chars[i..][1..] == chars[i + 1..];
    var text, end := ReadQuoted(chars, i + 1, chars[i]);
    if end < |chars| {
      return Some(TStr(text)), end + 1;
    }
    return None, i + 1;
  }

  method ReadLiteral(u: Unicode, chars: string, i: nat) returns (token: Option<Token>, next: nat)
    requires i < |chars|
    ensures Literal(u, chars[i..]) == Sized(token, next - i)
    ensures token.Some? ==> next > i
  {
    if chars[i] == '\'' || chars[i] == '"' {
      token, next := ReadText(u, chars, i);
    } else {
      token, next := ReadUnquoted(u, chars, i);
      UnquotedReads(u, chars[i..], token, next - i);
    }
  }

  /** What is not quoted is a number or a word, or no literal. */
  predicate Unquoted(u: Unicode, s: string, token: Option<Token>, n: int)
    requires s != ""
  {
    if StartsNumber(s) || StartsIdent(u, s[0]) then SpanReads(u, s, StartsNumber(s), token, n) else token == None
  }

  method ReadUnquoted(u: Unicode, chars: string, i: nat) returns (token: Option<Token>, next: nat)
    requires i < |chars|
    ensures Unquoted(u, chars[i..], token, next - i)
  {
    var c := chars[i];
    var number := IsDigit(c) || (c == '-' && i + 1 < |chars| && IsDigit(chars[i + 1]));
    StartsNumberAt(chars, i);
    if !number && !StartsIdent(u, c) {
      return None, i + 1;
    }
    token, next := ReadSpan(u, chars, i, number);
  }

  lemma UnquotedReads(u: Unicode, s: string, token: Option<Token>, n: int)
    requires s != "" && s[0] != '\'' && s[0] != '"' && Unquoted(u, s, token, n)
    ensures Literal(u, s) == Sized(token, n) && (token.Some? ==> n > 0)
  {
    if StartsNumber(s) {
      NumberLiteral(u, s);
    } else if StartsIdent(u, s[0]) {
      WordLiteral(u, s);
    } else {
      NoLiteral(u, s);
    }
  }

  lemma StartsNumberAt(chars: string, i: nat)
    requires i < |chars|
    ensures StartsNumber(chars[i..]) <==> IsDigit(chars[i]) || (chars[i] == '-' && i + 1 < |chars| && IsDigit(chars[i + 1]))
  {
  }

  lemma NoLiteral(u: Unicode, s: string)
    requires s != "" && s[0] != '\'' && s[0] != '"' && !StartsNumber(s) && !StartsIdent(u, s[0])
    ensures Literal(u, s) == None
  {
  }

  lemma NumberLiteral(u: Unicode, s: string)
    requires s != "" && StartsNumber(s)
    ensures NextToken(u, s) == Literal(u, s) == Sized(SpanToken(s[..1 + NumberSpan(s[1..])], true), 1 + NumberSpan(s[1..]))
  {
  }

  lemma WordLiteral(u: Unicode, s: string)
    requires s != "" && StartsIdent(u, s[0])
    ensures NextToken(u, s) == Literal(u, s) == Sized(SpanToken(s[..1 + IdentSpan(u, s[1..])], false), 1 + IdentSpan(u, s[1..]))
  {
    WordIsNoSymbol(u, s);
  }

  lemma WordIsNoSymbol(u: Unicode, s: string)
    requires s != "" && StartsIdent(u, s[0])
    ensures Symbol(s) == None && !StartsNumber(s) && s[0] != '\'' && s[0] != '"' && !IsSpace(u, s[0])
  {
  }

  lemma Slices(chars: string, i: nat, next: nat)
    requires i < next <= |chars|
    ensures chars[i..] != "" && chars[i..][0] == chars[i] && chars[i..][1..] == chars[i + 1..]
    ensures chars[i..][..next - i] == chars[i..next]
  {
  }

  method ReadToken(u: Unicode, chars: string, i: nat) returns (token: Option<Token>, next: nat)
    requires i < |chars|
    ensures NextToken(u, chars[i..]) == Sized(token, next - i)
    ensures token.Some? ==> i < next <= |chars|
  {
    token, next := ReadSymbol(chars, i);
    if token.None? {
      token, next := ReadLiteral(u, chars, i);
    }
  }

  lemma LexAt(u: Unicode, chars: string, i: nat, token: Option<Token>, next: nat)
    requires i < |chars| && !IsSpace(u, chars[i]) && NextToken(u, chars[i..]) == Sized(token, next - i)
    requires token.Some? ==> i < next <= |chars|
    ensures Lex(u, chars[i..]) == if token.None? then None else Prepend(token.value, Lex(u, chars[next..]))
  {
    if token.Some? {
      assert chars[i..][next - i..] == chars[next..];
    }
  }

  method Tokenize(u: Unicode, chars: string) returns (r: Option<seq<Token>>)
    ensures r == Lex(u, chars)
  {
    var tokens: seq<Token> := [];
    var i := 0;
    assert chars[0..] == chars;
    assert Lex(u, chars).Some? ==> tokens + Lex(u, chars).value == Lex(u, chars).value;
    while i < |chars|
      invariant 0 <= i <= |chars|
      invariant Lex(u, chars) == PrependAll(tokens, Lex(u, chars[i..]))
    {
      if IsSpace(u, chars[i]) {
        assert chars[i..][1..] == chars[i + 1..];
        i := i + 1;
      } else {
        var token, next := ReadToken(u, chars, i);
        LexAt(u, chars, i, token, next);
        if token.None? {
          return None;
        }
        PrependStep(tokens, token.value, Lex(u, chars[next..]));
        tokens := tokens + [token.value];
        i := next;
      }
    }
    assert tokens + [] == tokens;
    return Some(tokens);
  }

  // ── the grammar, on the tokens still to be read ──────────────────────────

  datatype Parsed<T> = Fail | Ok(value: T, rest: seq<Token>)

  function OperatorOf(op: string): Option<Operator> {
    if op == "=" || op == "==" then Some(Eq)
    else if op == "!=" || op == "<>" then Some(Ne)
    else if op == "<" then Some(Lt)
    else if op == "<=" then Some(Le)
    else if op == ">" then Some(Gt)
    else if op == ">=" then Some(Ge)
    else None
  }

  function OperandOf(t: Token): Option<Operand> {
    match t
    case TNumber(v) => Some(Number(v))
    case TStr(s) => Some(Operand.Text(s))
    case TBool(b) => Some(Boolean(b))
    case TNull => Some(Operand.Null)
    case TIdent(name) => Some(Column(name))
    case _ => None
  }

  function ParseOr(ts: seq<Token>): (r: Parsed<Expr>)
    ensures r.Ok? ==> |r.rest| < |ts|
    decreases |ts|, 4
  {
    match ParseAnd(ts)
    case Fail => Fail
    case Ok(e, rest) => OrTail(e, rest)
  }

  function OrTail(acc: Expr, ts: seq<Token>): (r: Parsed<Expr>)
    ensures r.Ok? ==> |r.rest| <= |ts|
    decreases |ts|, 5
  {
    if ts != [] && ts[0] == TOr then
      match ParseAnd(ts[1..])
      case Fail => Fail
      case Ok(e, rest) => OrTail(Or(acc, e), rest)
    else Ok(acc, ts)
  }

  function ParseAnd(ts: seq<Token>): (r: Parsed<Expr>)
    ensures r.Ok? ==> |r.rest| < |ts|
    decreases |ts|, 2
  {
    match ParseNot(ts)
    case Fail => Fail
    case Ok(e, rest) => AndTail(e, rest)
  }

  function AndTail(acc: Expr, ts: seq<Token>): (r: Parsed<Expr>)
    ensures r.Ok? ==> |r.rest| <= |ts|
    decreases |ts|, 3
  {
    if ts != [] && ts[0] == TAnd then
      match ParseNot(ts[1..])
      case Fail => Fail
      case Ok(e, rest) => AndTail(And(acc, e), rest)
    else Ok(acc, ts)
  }

  function ParseNot(ts: seq<Token>): (r: Parsed<Expr>)
    ensures r.Ok? ==> |r.rest| < |ts|
    decreases |ts|, 1
  {
    if ts != [] && ts[0] == TNot then
      match ParseNot(ts[1..])
      case Fail => Fail
      case Ok(e, rest) => Ok(Not(e), rest)
    else ParseAtom(ts)
  }

  function ParseAtom(ts: seq<Token>): (r: Parsed<Expr>)
    ensures r.Ok? ==> |r.rest| < |ts|
    decreases |ts|, 0
  {
    if ts != [] && ts[0] == TLParen then
      match ParseOr(ts[1..])
      case Fail => Fail
      case Ok(e, rest) => if rest != [] && rest[0] == TRParen then Ok(e, rest[1..]) else Fail
    else ParseComparison(ts)
  }

  function ParseComparison(ts: seq<Token>): (r: Parsed<Expr>)
    ensures r.Ok? ==> |r.rest| < |ts|
  {
    if |ts| < 3 || !ts[1].TOp? then Fail
    else
      match (OperandOf(ts[0]), OperatorOf(ts[1].op), OperandOf(ts[2]))
      case (Some(left), Some(op), Some(right)) => Ok(Compare(left, op, right), ts[3..])
      case _ => Fail
  }

  function ParseTokens(ts: seq<Token>): Option<Expr> {
    match ParseOr(ts)
    case Fail => None
    case Ok(e, rest) => if rest == [] then Some(e) else None
  }

  function ParseCheck(u: Unicode, text: string): Option<Expr> {
    match Lex(u, text)
    case None => None
    case Some(ts) => ParseTokens(ts)
  }

  /** The recursive-descent parser over a cursor. */
  class Parser {
    const tokens: seq<Token>
    var pos: nat

    constructor (tokens: seq<Token>)
      ensures this.tokens == tokens && pos == 0
    {
      this.tokens := tokens;
      pos := 0;
    }

    ghost predicate Valid()
      reads this
    {
      pos <= |tokens|
    }

    ghost function Left(): seq<Token>
      reads this
      requires Valid()
    {
      tokens[pos..]
    }

    /** The method read what the grammar reads from the tokens that were left. */
    ghost predicate Reads(parsed: Parsed<Expr>, r: Option<Expr>)
      reads this
    {
      match parsed
      case Fail => r == None
      case Ok(e, rest) => Valid() && r == Some(e) && Left() == rest
    }

    function At(t: Token): (r: bool)
      requires Valid()
      reads this
      ensures r <==> Left() != [] && Left()[0] == t
    {
      pos < |tokens| && tokens[pos] == t
    }

    method Or() returns (r: Option<Expr>)
      requires Valid()
      modifies this
      ensures Reads(ParseOr(old(Left())), r)
      decreases |tokens| - pos, 4
    {
      ghost var whole := ParseOr(Left());
      r := And();
      while r.Some? && At(TOr)
        invariant r.None? ==> whole == Fail
        invariant r.Some? ==> Valid() && pos > old(pos) && whole == OrTail(r.value, Left())
        decreases |tokens| - pos
      {
        assert Left()[1..] == tokens[pos + 1..];
        pos := pos + 1;
        var rhs := And();
        if rhs.None? {
          return None;
        }
        r := Some(Expr.Or(r.value, rhs.value));
      }
    }

    method And() returns (r: Option<Expr>)
      requires Valid()
      modifies this
      ensures Reads(ParseAnd(old(Left())), r)
      ensures r.Some? ==> pos > old(pos)
      decreases |tokens| - pos, 2
    {
      ghost var whole := ParseAnd(Left());
      r := Not();
      while r.Some? && At(TAnd)
        invariant r.None? ==> whole == Fail
        invariant r.Some? ==> Valid() && pos > old(pos) && whole == AndTail(r.value, Left())
        decreases |tokens| - pos
      {
        assert Left()[1..] == tokens[pos + 1..];
        pos := pos + 1;
        var rhs := Not();
        if rhs.None? {
          return None;
        }
        r := Some(Expr.And(r.value, rhs.value));
      }
    }

    method Not() returns (r: Option<Expr>)
      requires Valid()
      modifies this
      ensures Reads(ParseNot(old(Left())), r)
      ensures r.Some? ==> pos > old(pos)
      decreases |tokens| - pos, 1
    {
      if At(TNot) {
        assert Left()[1..] == tokens[pos + 1..];
        pos := pos + 1;
        var e := Not();
        return if e.Some? then Some(Expr.Not(e.value)) else None;
      }
      r := Atom();
    }

    method Atom() returns (r: Option<Expr>)
      requires Valid()
      modifies this
      ensures Reads(ParseAtom(old(Left())), r)
      ensures r.Some? ==> pos > old(pos)
      decreases |tokens| - pos, 0
    {
      if At(TLParen) {
        assert Left()[1..] == tokens[pos + 1..];
        pos := pos + 1;
        r := Or();
        if r.Some? {
          if At(TRParen) {
            assert Left()[1..] == tokens[pos + 1..];
            pos := pos + 1;
          } else {
            r := None;
          }
        }
      } else {
        r := Comparison();
      }
    }

    method Comparison() returns (r: Option<Expr>)
      requires Valid()
      modifies this
      ensures Reads(ParseComparison(old(Left())), r)
      ensures r.Some? ==> pos > old(pos)
    {
      ghost var left := Left();
      assert forall k :: 0 <= k < |left| ==> left[k] == tokens[pos + k];
      var lhs := ReadOperand();
      if lhs.None? {
        return None;
      }
      if pos == |tokens| || !tokens[pos].TOp? {
        return None;
      }
      var op := tokens[pos].op;
      pos := pos + 1;
      var rhs := ReadOperand();
      if rhs.None? || OperatorOf(op).None? {
        return None;
      }
      assert Left() == left[3..];
      r := Some(Compare(lhs.value, OperatorOf(op).value, rhs.value));
    }

    method ReadOperand() returns (r: Option<Operand>)
      requires Valid()
      modifies this
      ensures Valid()
      ensures old(pos) == |tokens| ==> r == None
      ensures old(pos) < |tokens| ==> pos == old(pos) + 1 && r == OperandOf(tokens[old(pos)])
    {
      if pos == |tokens| {
        return None;
      }
      r := OperandOf(tokens[pos]);
      pos := pos + 1;
    }
  }

  /** `parse_check` */
  method Parse(u: Unicode, text: string) returns (r: Option<Expr>)
    ensures r == ParseCheck(u, text)
  {
    var tokens := Tokenize(u, text);
    if tokens.None? {
      return None;
    }
    var parser := new Parser(tokens.value);
    assert parser.tokens[0..] == parser.tokens;
    r := parser.Or();
    if r.Some? && parser.pos != |parser.tokens| {
      r := None;
    }
  }

  // ── printing ─────────────────────────────────────────────────────────────

  function OperandToken(o: Operand): Token {
    match o
    case Column(name) => TIdent(name)
    case Number(v) => TNumber(v)
    case Text(s) => TStr(s)
    case Boolean(b) => TBool(b)
    case Null => TNull
  }

  function OperatorText(op: Operator): string {
    match op
    case Eq => "="
    case Ne => "!="
    case Lt => "<"
    case Le => "<="
    case Gt => ">"
    case Ge => ">="
  }

  function Level(e: Expr): nat {
    match e
    case Or(_, _) => 0
    case And(_, _) => 1
    case _ => 2
  }

  /** The tokens of an expression where at least `level` is expected: parentheses only
      where precedence and left association need them. */
  function Show(e: Expr, level: nat): seq<Token>
    decreases e, 1
  {
    if Level(e) < level then [TLParen] + Body(e) + [TRParen] else Body(e)
  }

  function Body(e: Expr): seq<Token>
    decreases e, 0
  {
    match e
    case Or(l, r) => Show(l, 0) + [TOr] + Show(r, 1)
    case And(l, r) => Show(l, 1) + [TAnd] + Show(r, 2)
    case Not(x) => [TNot] + Show(x, 2)
    case Compare(l, op, r) => [OperandToken(l), TOp(OperatorText(op)), OperandToken(r)]
  }

  function EscapeQuoted(s: string): string {
    if s == "" then ""
    else (if s[0] == '\'' || s[0] == '\\' then ['\\', s[0]] else [s[0]]) + EscapeQuoted(s[1..])
  }

  function TokenText(t: Token): string {
    match t
    case TIdent(name) => name
    case TNumber(v) => FormatInt(v.Floor)
    case TStr(s) => "'" + EscapeQuoted(s) + "'"
    case TBool(b) => if b then "true" else "false"
    case TNull => "null"
    case TOp(op) => op
    case TAnd => "AND"
    case TOr => "OR"
    case TNot => "NOT"
    case TLParen => "("
    case TRParen => ")"
  }

  function TokensText(ts: seq<Token>): string {
    if ts == [] then "" else TokenText(ts[0]) + " " + TokensText(ts[1..])
  }

  function Print(e: Expr): string {
    TokensText(Show(e, 0))
  }

  /** A column is named by an identifier that is not a keyword; a number is an integer. */
  predicate PrintableOperand(u: Unicode, o: Operand) {
    match o
    case Column(name) =>
      name != "" && StartsIdent(u, name[0]) && IdentSpan(u, name) == |name| && Word(name) == TIdent(name)
    case Number(v) => v == v.Floor as real
    case _ => true
  }

  predicate Printable(u: Unicode, e: Expr) {
    match e
    case Compare(l, _, r) => PrintableOperand(u, l) && PrintableOperand(u, r)
    case And(l, r) => Printable(u, l) && Printable(u, r)
    case Or(l, r) => Printable(u, l) && Printable(u, r)
    case Not(x) => Printable(u, x)
  }

  // ── parsing undoes showing ───────────────────────────────────────────────

  predicate Starts(ts: seq<Token>, t: Token) {
    ts != [] && ts[0] == t
  }

  lemma ParenthesizedAtom(e: Expr, rest: seq<Token>)
    requires ParseOr(Body(e) + ([TRParen] + rest)) == OrTail(e, [TRParen] + rest)
    ensures ParseNot([TLParen] + Body(e) + [TRParen] + rest) == Ok(e, rest)
  {
    Bracketed(Body(e), rest);
    Parenthesized(e, Body(e) + ([TRParen] + rest), rest);
  }

  lemma Bracketed(body: seq<Token>, rest: seq<Token>)
    ensures [TLParen] + body + [TRParen] + rest == [TLParen] + (body + ([TRParen] + rest))
  {
  }

  lemma Parenthesized(e: Expr, inner: seq<Token>, rest: seq<Token>)
    requires ParseOr(inner) == OrTail(e, [TRParen] + rest)
    ensures ParseNot([TLParen] + inner) == Ok(e, rest)
  {
    var ts, close := [TLParen] + inner, [TRParen] + rest;
    assert ts[0] == TLParen && ts[1..] == inner && close[0] == TRParen && close[1..] == rest;
    assert OrTail(e, close) == Ok(e, close);
    assert ParseAtom(ts) == Ok(e, rest);
  }

  lemma {:induction false} ShowOr(e: Expr, rest: seq<Token>)
    requires !Starts(rest, TAnd)
    ensures ParseOr(Show(e, 0) + rest) == OrTail(e, rest)
    decreases e, if e.Or? then 0 else 2
  {
    match e
    case Or(l, r) =>
      var tail := [TOr] + (Show(r, 1) + rest);
      assert Show(e, 0) + rest == Show(l, 0) + tail;
      assert tail[1..] == Show(r, 1) + rest;
      ShowOr(l, tail);
      ShowAnd(r, rest);
    case _ =>
      assert Show(e, 0) == Show(e, 1);
      ShowAnd(e, rest);
  }

  lemma {:induction false} ShowAnd(e: Expr, rest: seq<Token>)
    ensures ParseAnd(Show(e, 1) + rest) == AndTail(e, rest)
    decreases e, if e.And? then 0 else 1
  {
    match e
    case Or(_, _) =>
      ShowOr(e, [TRParen] + rest);
      ParenthesizedAtom(e, rest);
    case And(l, r) =>
      var tail := [TAnd] + (Show(r, 2) + rest);
      assert Show(e, 1) + rest == Show(l, 1) + tail;
      assert tail[1..] == Show(r, 2) + rest;
      ShowAnd(l, tail);
      ShowNot(r, rest);
    case _ =>
      assert Show(e, 1) == Show(e, 2);
      ShowNot(e, rest);
  }

  lemma {:induction false} ShowNot(e: Expr, rest: seq<Token>)
    ensures ParseNot(Show(e, 2) + rest) == Ok(e, rest)
    decreases e, if e.Or? || e.And? then 3 else 0
  {
    match e
    case Not(x) =>
      var ts := Show(e, 2) + rest;
      assert Show(e, 2) == Body(e) == [TNot] + Show(x, 2);
      assert ts[0] == TNot && ts[1..] == Show(x, 2) + rest;
      ShowNot(x, rest);
    case Compare(l, op, r) =>
      var ts := Show(e, 2) + rest;
      assert Show(e, 2) == Body(e);
      assert ts[0] == OperandToken(l) && ts[1] == TOp(OperatorText(op)) && ts[2] == OperandToken(r);
      assert ts[3..] == rest;
    case _ =>
      ShowOr(e, [TRParen] + rest);
      ParenthesizedAtom(e, rest);
  }

  /** Precedence, association and parentheses: the shown tokens parse back to the tree. */
  lemma ParseShow(e: Expr)
    ensures ParseTokens(Show(e, 0)) == Some(e)
  {
    ShowOr(e, []);
    assert Show(e, 0) + [] == Show(e, 0);
  }

  // ── evaluation ───────────────────────────────────────────────────────────

  datatype Scalar = Unknown | Num(value: real) | Str(s: string) | Flag(b: bool)

  function ScalarOf(v: Value): Scalar {
    match v
    case Null => Unknown
    case Bool(b) => Flag(b)
    case Int(i) => Num(i as real)
    case Text(s) => Str(s)
  }

  function Resolve(o: Operand, row: Row): Scalar {
    match o
    case Column(name) => ScalarOf(Get(row, name))
    case Number(v) => Num(v)
    case Text(s) => Str(s)
    case Boolean(b) => Flag(b)
    case Null => Unknown
  }

  function ScalarOrder(a: Scalar, b: Scalar): Option<Ordering> {
    match (a, b)
    case (Num(x), Num(y)) => Some(if x < y then Less else if x == y then Equal else Greater)
    case (Str(x), Str(y)) => Some(CompareText(x, y))
    case (Flag(x), Flag(y)) => Some(CompareBool(x, y))
    case _ => None
  }

  /** Unknown as soon as an operand is null, or when mixed types are ordered. */
  function CompareScalars(a: Scalar, op: Operator, b: Scalar): Option<bool> {
    if a.Unknown? || b.Unknown? then None
    else
      match (op, ScalarOrder(a, b))
      case (Eq, _) => Some(a == b)
      case (Ne, _) => Some(a != b)
      case (_, None) => None
      case (Lt, Some(o)) => Some(o == Less)
      case (Le, Some(o)) => Some(o != Greater)
      case (Gt, Some(o)) => Some(o == Greater)
      case (Ge, Some(o)) => Some(o != Less)
  }

  function And3(a: Option<bool>, b: Option<bool>): Option<bool> {
    if a == Some(false) || b == Some(false) then Some(false)
    else if a == Some(true) && b == Some(true) then Some(true)
    else None
  }

  function Or3(a: Option<bool>, b: Option<bool>): Option<bool> {
    if a == Some(true) || b == Some(true) then Some(true)
    else if a == Some(false) && b == Some(false) then Some(false)
    else None
  }

  function Not3(a: Option<bool>): Option<bool> {
    match a
    case None => None
    case Some(b) => Some(!b)
  }

  function Eval(e: Expr, row: Row): Option<bool> {
    match e
    case Compare(l, op, r) => CompareScalars(Resolve(l, row), op, Resolve(r, row))
    case And(l, r) => And3(Eval(l, row), Eval(r, row))
    case Or(l, r) => Or3(Eval(l, row), Eval(r, row))
    case Not(x) => Not3(Eval(x, row))
  }

  /** A check rejects a row only on a definite `false`. */
  predicate Holds(e: Expr, row: Row) {
    Eval(e, row) != Some(false)
  }

  /** `full` keeps every value of `row` and may fill in columns that are null there. */
  ghost predicate Completes(row: Row, full: Row) {
    forall name :: Get(row, name) != Value.Null ==> Get(full, name) == Get(row, name)
  }

  /** A definite answer never depends on the null columns: whatever values they take, the
      answer stays. In particular a row that is rejected is rejected however it is completed. */
  lemma {:induction false} DefiniteAnswersStay(e: Expr, row: Row, full: Row)
    requires Completes(row, full)
    ensures Eval(e, row).Some? ==> Eval(e, full) == Eval(e, row)
    ensures !Holds(e, row) ==> !Holds(e, full)
  {
    match e
    case Compare(l, _, r) =>
      assert forall name :: Get(row, name) != Value.Null ==> Get(full, name) == Get(row, name);
    case And(l, r) => DefiniteAnswersStay(l, row, full); DefiniteAnswersStay(r, row, full);
    case Or(l, r) => DefiniteAnswersStay(l, row, full); DefiniteAnswersStay(r, row, full);
    case Not(x) => DefiniteAnswersStay(x, row, full);
  }
}
