/** The typed key codec: `i:`, `s:` and `n:` components joined with `:`. */
module Keys {
  import opened Strings

  datatype KeyComponent = Int(i: I64) | Text(s: string) | Null

  const KIT_KEY_VERSION: nat := 1

  // ── escaping ─────────────────────────────────────────────────────────────

  /** `s.replace(c, to)` for a single character. */
  function ReplaceChar(s: string, c: char, to: string): string {
    if s == "" then ""
    else (if s[0] == c then to else [s[0]]) + ReplaceChar(s[1..], c, to)
  }

  /** `s.replace("ab", to)` for a two-character pattern: leftmost, non-overlapping. */
  function ReplacePair(s: string, a: char, b: char, to: string): string {
    if |s| < 2 then s
    else if s[0] == a && s[1] == b then to + ReplacePair(s[2..], a, b, to)
    else [s[0]] + ReplacePair(s[1..], a, b, to)
  }

  function EscapeString(value: string): string {
    ReplaceChar(ReplaceChar(value, '\\', "\\\\"), ':', "\\:")
  }

  function UnescapeString(value: string): string {
    ReplacePair(ReplacePair(value, '\\', ':', ":"), '\\', '\\', "\\")
  }

  function EncodeComponent(c: KeyComponent): string {
    match c
    case Null => "n:null"
    case Int(i) => "i:" + FormatInt(i)
    case Text(s) => "s:" + EscapeString(s)
  }

  function DecodeComponent(token: string): KeyComponent {
    if "s:" <= token then Text(UnescapeString(token[2..]))
    else if "i:" <= token then
      match ParseI64(token[2..])
      case Some(i) => Int(i)
      case None => Text(UnescapeString(token))
    else if "n:" <= token then Null
    else Text(UnescapeString(token))
  }

  // ── splitting ────────────────────────────────────────────────────────────

  /** The loop state of the splitter. */
  datatype Split = Split(tokens: seq<string>, current: string, escaped: bool)

  predicate StartsTyped(current: string) {
    "s:" <= current || "i:" <= current || "n:" <= current
  }

  function SplitStep(st: Split, ch: char): Split {
    if st.escaped then st.(current := st.current + [ch], escaped := false)
    else if ch == '\\' then st.(current := st.current + [ch], escaped := true)
    else if ch == ':' && StartsTyped(st.current) then Split(st.tokens + [st.current], "", false)
    else st.(current := st.current + [ch])
  }

  function SplitRun(st: Split, s: string): Split
    decreases |s|
  {
    if s == "" then st else SplitRun(SplitStep(st, s[0]), s[1..])
  }

  function SplitFinish(st: Split): seq<string> {
    if ByteLen(st.current) >= 2 then st.tokens + [st.current] else st.tokens
  }

  const SPLIT_START := Split([], "", false)

  function TokensOf(encoded: string): seq<string> {
    SplitFinish(SplitRun(SPLIT_START, encoded))
  }

  method SplitComponents(encoded: string) returns (tokens: seq<string>)
    ensures tokens == TokensOf(encoded)
  {
    tokens := [];
    var current := "";
    var escaped := false;
    var i := 0;
    while i < |encoded|
      invariant 0 <= i <= |encoded|
      invariant SplitRun(SPLIT_START, encoded) == SplitRun(Split(tokens, current, escaped), encoded[i..])
    {
      var ch := encoded[i];
      assert encoded[i..][0] == ch && encoded[i..][1..] == encoded[i + 1..];
      i := i + 1;
      if escaped {
        current := current + [ch];
        escaped := false;
      } else if ch == '\\' {
        current := current + [ch];
        escaped := true;
      } else if ch == ':' && StartsTyped(current) {
        tokens := tokens + [current];
        current := "";
      } else {
        current := current + [ch];
      }
    }
    if ByteLen(current) >= 2 {
      tokens := tokens + [current];
    }
  }

  function DecodeTokens(tokens: seq<string>): seq<KeyComponent> {
    seq(|tokens|, k requires 0 <= k < |tokens| => DecodeComponent(tokens[k]))
  }

  function DecodePk(encoded: string): seq<KeyComponent> {
    DecodeTokens(TokensOf(encoded))
  }

  // ── encoding ─────────────────────────────────────────────────────────────

  function EncodeAll(cs: seq<KeyComponent>): (r: seq<string>)
    ensures |r| == |cs|
  {
    seq(|cs|, k requires 0 <= k < |cs| => EncodeComponent(cs[k]))
  }

  function EncodePk(cs: seq<KeyComponent>): string {
    Join(EncodeAll(cs), ":")
  }

  function Tagged(tag: string, body: string): string {
    tag + [':'] + body
  }

  function EncodeUniqueKey(version: nat, constraint: string, cs: seq<KeyComponent>): string {
    "uq:" + Tagged(FormatNat(version), Tagged(constraint, EncodePk(cs)))
  }

  function EncodeRowGuardKey(table: string, encodedPk: string): string {
    "rg:" + Tagged(table, encodedPk)
  }

  // ── unescape inverts escape ──────────────────────────────────────────────

  lemma {:induction false} UndoColon(t: string)
    ensures ReplacePair(ReplaceChar(t, ':', "\\:"), '\\', ':', ":") == t
  {
    if t != "" {
      var rest := ReplaceChar(t[1..], ':', "\\:");
      UndoColon(t[1..]);
      if t[0] == ':' {
        assert ReplaceChar(t, ':', "\\:") == ['\\', ':'] + rest;
        assert (['\\', ':'] + rest)[2..] == rest;
      } else {
        assert ReplaceChar(t, ':', "\\:") == [t[0]] + rest;
        assert ([t[0]] + rest)[1..] == rest;
        assert rest != "" ==> rest[0] != ':';
        assert [t[0]] + t[1..] == t;
      }
    }
  }

  lemma {:induction false} UndoBackslash(t: string)
    ensures ReplacePair(ReplaceChar(t, '\\', "\\\\"), '\\', '\\', "\\") == t
  {
    if t != "" {
      var rest := ReplaceChar(t[1..], '\\', "\\\\");
      UndoBackslash(t[1..]);
      if t[0] == '\\' {
        assert (['\\', '\\'] + rest)[2..] == rest;
      } else {
        assert ([t[0]] + rest)[1..] == rest;
      }
      assert [t[0]] + t[1..] == t;
    }
  }

  /** The two naive passes of `unescape_string` undo `escape_string` on every text. */
  lemma UnescapeEscape(s: string)
    ensures UnescapeString(EscapeString(s)) == s
  {
    UndoColon(ReplaceChar(s, '\\', "\\\\"));
    UndoBackslash(s);
  }

  lemma DecodeEncodeComponent(c: KeyComponent)
    ensures DecodeComponent(EncodeComponent(c)) == c
  {
    match c
    case Null =>
      assert "n:null"[0] == 'n';
    case Int(i) =>
      ParseFormat(i);
      assert EncodeComponent(c)[0] == 'i' && EncodeComponent(c)[2..] == FormatInt(i);
    case Text(s) =>
      UnescapeEscape(s);
      assert EncodeComponent(c)[2..] == EscapeString(s);
  }

  // ── the splitter finds exactly the encoded components ────────────────────

  lemma {:induction false} RunAppend(st: Split, a: string, b: string)
    ensures SplitRun(st, a + b) == SplitRun(SplitRun(st, a), b)
    decreases |a|
  {
    if a == "" {
      assert a + b == b;
    } else {
      assert (a + b)[0] == a[0] && (a + b)[1..] == a[1..] + b;
      RunAppend(SplitStep(st, a[0]), a[1..], b);
    }
  }

  /** A body without `:` or `\` is copied into the current token. */
  lemma {:induction false} RunPlain(st: Split, body: string)
    requires !st.escaped
    requires ':' !in body && '\\' !in body
    ensures SplitRun(st, body) == st.(current := st.current + body)
    decreases |body|
  {
    if body == "" {
      assert st.current + body == st.current;
    } else {
      var next := st.(current := st.current + [body[0]]);
      RunPlain(next, body[1..]);
      assert st.current + [body[0]] + body[1..] == st.current + body;
    }
  }

  function EscapedChar(c: char): string {
    if c == '\\' then "\\\\" else if c == ':' then "\\:" else [c]
  }

  lemma EscapeCons(s: string)
    requires s != ""
    ensures EscapeString(s) == EscapedChar(s[0]) + EscapeString(s[1..])
  {
    var rest := ReplaceChar(s[1..], '\\', "\\\\");
    if s[0] == '\\' {
      var whole := ['\\', '\\'] + rest;
      assert ReplaceChar(s, '\\', "\\\\") == whole;
      assert whole[1..] == ['\\'] + rest && whole[1..][1..] == rest;
      assert ReplaceChar(whole, ':', "\\:") == ['\\'] + ReplaceChar(whole[1..], ':', "\\:");
      assert ReplaceChar(whole[1..], ':', "\\:") == ['\\'] + ReplaceChar(rest, ':', "\\:");
      assert ['\\'] + (['\\'] + ReplaceChar(rest, ':', "\\:")) == "\\\\" + ReplaceChar(rest, ':', "\\:");
    } else {
      assert ([s[0]] + rest)[1..] == rest;
    }
  }

  lemma RunEscapedChar(st: Split, c: char)
    requires !st.escaped
    ensures SplitRun(st, EscapedChar(c)) == st.(current := st.current + EscapedChar(c))
  {
    var e := EscapedChar(c);
    assert e == [e[0]] + e[1..];
    if |e| == 2 {
      var one := st.(current := st.current + [e[0]], escaped := true);
      assert SplitStep(st, e[0]) == one;
      assert e[1..] == [e[1]] && e[1..][1..] == "";
      assert SplitStep(one, e[1]) == st.(current := st.current + [e[0]] + [e[1]]);
      assert SplitRun(one, e[1..]) == SplitStep(one, e[1]);
      assert st.current + [e[0]] + [e[1]] == st.current + e;
    } else {
      assert e == [c] && e[1..] == "";
      assert SplitStep(st, c) == st.(current := st.current + [c]);
    }
  }

  lemma Grow(current: string, head: string, rest: string)
    ensures current + head + rest == current + (head + rest)
  {
  }

  /** An escaped body never closes a token, whatever the text. */
  lemma {:induction false} RunEscaped(st: Split, s: string)
    requires !st.escaped
    ensures SplitRun(st, EscapeString(s)) == st.(current := st.current + EscapeString(s))
    decreases |s|
  {
    if s == "" {
      assert st.current + "" == st.current;
    } else {
      var head, rest := EscapedChar(s[0]), EscapeString(s[1..]);
      EscapeCons(s);
      RunAppend(st, head, rest);
      RunEscapedChar(st, s[0]);
      RunEscaped(st.(current := st.current + head), s[1..]);
      Grow(st.current, head, rest);
    }
  }

  /** The type tag of a component does not close a token. */
  lemma RunTag(tokens: seq<string>, t: char)
    requires t != '\\' && t != ':'
    ensures SplitRun(Split(tokens, "", false), [t, ':']) == Split(tokens, [t, ':'], false)
  {
    var tag, one := [t, ':'], Split(tokens, [t], false);
    assert "" + [t] == [t] && [t] + [':'] == tag;
    assert SplitStep(Split(tokens, "", false), t) == one;
    assert tag[1..] == [':'] && [':'][1..] == "";
    assert SplitStep(one, ':') == Split(tokens, tag, false);
  }

  /** From an empty token, one encoded component is read into the token whole. */
  lemma RunComponent(tokens: seq<string>, c: KeyComponent)
    ensures SplitRun(Split(tokens, "", false), EncodeComponent(c)) == Split(tokens, EncodeComponent(c), false)
    ensures StartsTyped(EncodeComponent(c)) && ByteLen(EncodeComponent(c)) >= 2
  {
    match c
    case Null =>
      assert EncodeComponent(c) == ['n', ':'] + "null";
      RunTag(tokens, 'n');
      RunPlain(Split(tokens, ['n', ':'], false), "null");
      RunTagged(tokens, 'n', "null");
    case Int(i) =>
      FormatIntChars(i);
      RunTag(tokens, 'i');
      RunPlain(Split(tokens, ['i', ':'], false), FormatInt(i));
      RunTagged(tokens, 'i', FormatInt(i));
    case Text(s) =>
      RunTag(tokens, 's');
      RunEscaped(Split(tokens, ['s', ':'], false), s);
      RunTagged(tokens, 's', EscapeString(s));
  }

  lemma RunTagged(tokens: seq<string>, t: char, body: string)
    requires SplitRun(Split(tokens, "", false), [t, ':']) == Split(tokens, [t, ':'], false)
    requires SplitRun(Split(tokens, [t, ':'], false), body) == Split(tokens, [t, ':'] + body, false)
    ensures SplitRun(Split(tokens, "", false), [t, ':'] + body) == Split(tokens, [t, ':'] + body, false)
    ensures ByteLen([t, ':'] + body) >= 2
  {
    RunAppend(Split(tokens, "", false), [t, ':'], body);
    assert ([t, ':'] + body)[1..] == [':'] + body;
  }

  lemma {:induction false} SplitEncoded(tokens: seq<string>, cs: seq<KeyComponent>)
    ensures SplitFinish(SplitRun(Split(tokens, "", false), EncodePk(cs))) == tokens + EncodeAll(cs)
    decreases |cs|
  {
    if |cs| == 0 {
      assert EncodeAll(cs) == [];
    } else if |cs| == 1 {
      EncodeOne(cs);
      RunComponent(tokens, cs[0]);
    } else {
      var e, rest := EncodeComponent(cs[0]), cs[1..];
      EncodeMore(cs);
      RunComponent(tokens, cs[0]);
      CloseToken(tokens, e, EncodePk(rest));
      SplitEncoded(tokens + [e], rest);
      Regroup(tokens, e, EncodeAll(rest));
    }
  }

  lemma Regroup(front: seq<string>, e: string, back: seq<string>)
    ensures front + [e] + back == front + ([e] + back)
  {
  }

  lemma EncodeOne(cs: seq<KeyComponent>)
    requires |cs| == 1
    ensures EncodePk(cs) == EncodeComponent(cs[0]) && EncodeAll(cs) == [EncodeComponent(cs[0])]
  {
  }

  lemma EncodeMore(cs: seq<KeyComponent>)
    requires |cs| > 1
    ensures EncodePk(cs) == EncodeComponent(cs[0]) + (":" + EncodePk(cs[1..]))
    ensures EncodeAll(cs) == [EncodeComponent(cs[0])] + EncodeAll(cs[1..])
  {
    EncodeAllMore(cs);
    JoinMore(EncodeComponent(cs[0]), EncodeAll(cs[1..]));
  }

  lemma EncodeAllMore(cs: seq<KeyComponent>)
    requires cs != []
    ensures EncodeAll(cs) == [EncodeComponent(cs[0])] + EncodeAll(cs[1..])
  {
  }

  lemma JoinMore(first: string, rest: seq<string>)
    requires rest != []
    ensures Join([first] + rest, ":") == first + (":" + Join(rest, ":"))
  {
    var all := [first] + rest;
    assert all[0] == first && all[1..] == rest;
    assert first + ":" + Join(rest, ":") == first + (":" + Join(rest, ":"));
  }

  /** A separator after a complete component closes its token. */
  lemma CloseToken(tokens: seq<string>, e: string, rest: string)
    requires StartsTyped(e)
    requires SplitRun(Split(tokens, "", false), e) == Split(tokens, e, false)
    ensures SplitRun(Split(tokens, "", false), e + (":" + rest)) == SplitRun(Split(tokens + [e], "", false), rest)
  {
    RunAppend(Split(tokens, "", false), e, ":" + rest);
    assert (":" + rest)[0] == ':' && (":" + rest)[1..] == rest;
  }

  // ── main results ─────────────────────────────────────────────────────────

  /** Decoding an encoded primary key gives back its components, for every list. */
  lemma DecodeEncodePk(cs: seq<KeyComponent>)
    ensures DecodePk(EncodePk(cs)) == cs
  {
    SplitEncoded([], cs);
    assert [] + EncodeAll(cs) == EncodeAll(cs);
    forall k | 0 <= k < |cs| ensures DecodePk(EncodePk(cs))[k] == cs[k] {
      DecodeEncodeComponent(cs[k]);
    }
  }

  lemma EncodePkInjective(a: seq<KeyComponent>, b: seq<KeyComponent>)
    requires EncodePk(a) == EncodePk(b)
    ensures a == b
  {
    DecodeEncodePk(a);
    DecodeEncodePk(b);
  }

  /** A unique key names its version, its constraint and its values. */
  lemma UniqueKeyInjective(v: nat, n: string, a: seq<KeyComponent>, w: nat, m: string, b: seq<KeyComponent>)
    requires ':' !in n && ':' !in m
    requires EncodeUniqueKey(v, n, a) == EncodeUniqueKey(w, m, b)
    ensures v == w && n == m && a == b
  {
    var tailA, tailB := Tagged(n, EncodePk(a)), Tagged(m, EncodePk(b));
    assert EncodeUniqueKey(v, n, a)[3..] == Tagged(FormatNat(v), tailA);
    assert EncodeUniqueKey(w, m, b)[3..] == Tagged(FormatNat(w), tailB);
    CutAtSeparator(FormatNat(v), tailA, FormatNat(w), tailB, ':');
    FormatNatInjective(v, w);
    CutAtSeparator(n, EncodePk(a), m, EncodePk(b), ':');
    EncodePkInjective(a, b);
  }

  lemma RowGuardKeyInjective(t: string, p: string, u: string, q: string)
    requires ':' !in t && ':' !in u
    requires EncodeRowGuardKey(t, p) == EncodeRowGuardKey(u, q)
    ensures t == u && p == q
  {
    assert EncodeRowGuardKey(t, p)[3..] == Tagged(t, p);
    assert EncodeRowGuardKey(u, q)[3..] == Tagged(u, q);
    CutAtSeparator(t, p, u, q, ':');
  }

  // ── when two unique keys are one text ────────────────────────────────────

  /** The colons that are not escaped. */
  function Colons(t: string, escaped: bool): nat {
    if t == "" then 0
    else if escaped then Colons(t[1..], false)
    else if t[0] == '\\' then Colons(t[1..], true)
    else (if t[0] == ':' then 1 else 0) + Colons(t[1..], false)
  }

  /** The text adds no colon to whatever follows it. */
  ghost predicate NoColons(body: string) {
    forall z: string :: Colons(body + z, false) == Colons(z, false)
  }

  lemma {:induction false} PlainHasNone(body: string, z: string)
    requires ':' !in body && '\\' !in body
    ensures Colons(body + z, false) == Colons(z, false)
  {
    if body == "" {
      assert body + z == z;
    } else {
      PlainHasNone(body[1..], z);
      assert (body + z)[0] == body[0] && (body + z)[1..] == body[1..] + z;
    }
  }

  lemma {:induction false} EscapedHasNone(s: string, z: string)
    ensures Colons(EscapeString(s) + z, false) == Colons(z, false)
  {
    if s == "" {
      assert EscapeString(s) + z == z;
    } else {
      var e, rest := EscapedChar(s[0]), EscapeString(s[1..]) + z;
      EscapeCons(s);
      EscapedHasNone(s[1..], z);
      assert EscapeString(s) + z == e + rest;
      assert (e + rest)[0] == e[0] && (e + rest)[1..] == e[1..] + rest;
      if |e| == 2 {
        assert (e[1..] + rest)[1..] == rest;
      } else {
        assert e[1..] + rest == rest;
      }
    }
  }

  /** An encoded component is a tag, a colon, and a body without unescaped colons. */
  lemma ComponentParts(c: KeyComponent) returns (tag: char, body: string)
    ensures tag != ':' && tag != '\\' && EncodeComponent(c) == [tag, ':'] + body && NoColons(body)
    ensures c.Text? ==> body == EscapeString(c.s)
    ensures !c.Text? ==> ':' !in body
  {
    match c
    case Null =>
      tag, body := 'n', "null";
      forall z: string ensures Colons(body + z, false) == Colons(z, false) {
        PlainHasNone(body, z);
      }
    case Int(i) =>
      tag, body := 'i', FormatInt(i);
      FormatIntChars(i);
      forall z: string ensures Colons(body + z, false) == Colons(z, false) {
        PlainHasNone(body, z);
      }
    case Text(s) =>
      tag, body := 's', EscapeString(s);
      forall z: string ensures Colons(body + z, false) == Colons(z, false) {
        EscapedHasNone(s, z);
      }
  }

  lemma ComponentColons(c: KeyComponent, z: string)
    ensures Colons(EncodeComponent(c) + z, false) == 1 + Colons(z, false)
  {
    var tag, body := ComponentParts(c);
    var t := EncodeComponent(c) + z;
    assert t == [tag] + ([':'] + (body + z));
    assert t[0] == tag && t[1..] == [':'] + (body + z) && t[1..][1..] == body + z;
  }

  /** A key of n components has an odd number of unescaped colons: one in each component, and
      one between each two. */
  lemma {:induction false} PkColons(cs: seq<KeyComponent>)
    requires cs != []
    ensures Colons(EncodePk(cs), false) == 2 * |cs| - 1
    decreases |cs|
  {
    if |cs| == 1 {
      EncodeOne(cs);
      ComponentColons(cs[0], "");
      assert EncodeComponent(cs[0]) + "" == EncodeComponent(cs[0]);
    } else {
      var rest := ":" + EncodePk(cs[1..]);
      EncodeMore(cs);
      ComponentColons(cs[0], rest);
      PkColons(cs[1..]);
      assert rest[0] == ':' && rest[1..] == EncodePk(cs[1..]);
    }
  }

  /** What follows a colon inside an escaped text is an escaped text. */
  lemma {:induction false} CutInEscaped(x: string, p: string, u: string) returns (y: string)
    requires EscapeString(x) == p + [':'] + u
    ensures u == EscapeString(y)
    decreases |x|
  {
    EscapeCons(x);
    var e, rest := EscapedChar(x[0]), EscapeString(x[1..]);
    var whole := p + [':'] + u;
    assert whole == e + rest && whole[|p|] == ':';
    if |p| < |e| {
      assert e[|p|] == ':';
      assert |p| == 1 && whole[2..] == rest;
      assert u == whole[2..];
      y := x[1..];
    } else {
      assert rest == whole[|e|..] == p[|e|..] + [':'] + u;
      y := CutInEscaped(x[1..], p[|e|..], u);
    }
  }

  /** What follows a colon inside an encoded component adds no unescaped colon. */
  lemma CutInComponent(c: KeyComponent, s: string, u: string)
    requires EncodeComponent(c) == s + [':'] + u
    ensures NoColons(u)
  {
    var tag, body := ComponentParts(c);
    var whole := s + [':'] + u;
    assert whole == [tag, ':'] + body && whole[|s|] == ':' && whole[0] == tag;
    if |s| == 1 {
      assert u == whole[2..] == body;
    } else {
      assert body == whole[2..] == s[2..] + [':'] + u;
      assert body[|s| - 2] == ':';
      var y := CutInEscaped(c.s, s[2..], u);
      forall z: string ensures Colons(u + z, false) == Colons(z, false) {
        EscapedHasNone(y, z);
      }
    }
  }

  /** A colon before the text of a nonempty key, inside the text of another, separates two
      components. */
  lemma {:induction false} CutInPk(a: seq<KeyComponent>, s: string, b: seq<KeyComponent>) returns (k: nat)
    requires b != [] && EncodePk(a) == s + [':'] + EncodePk(b)
    ensures 0 < k < |a| && s == EncodePk(a[..k]) && b == a[k..]
    decreases |a|
  {
    assert a != [];
    if |a| == 1 {
      CutInOne(a, s, b);
      assert false;
    } else {
      var e, rest := EncodeComponent(a[0]), EncodePk(a[1..]);
      EncodeMore(a);
      if |s| < |e| {
        CutInFirst(a, s, b);
        assert false;
      } else if |s| == |e| {
        CutAt(e, rest, s, EncodePk(b));
        EncodePkInjective(b, a[1..]);
        EncodeOne(a[..1]);
        k := 1;
      } else {
        var t := CutAfter(e, rest, s, EncodePk(b));
        var j := CutInPk(a[1..], t, b);
        FirstMore(a, j);
        k := j + 1;
      }
    }
  }

  lemma FirstMore(a: seq<KeyComponent>, j: nat)
    requires 0 < j < |a| - 1
    ensures EncodePk(a[..j + 1]) == EncodeComponent(a[0]) + (":" + EncodePk(a[1..][..j]))
    ensures a[j + 1..] == a[1..][j..]
  {
    assert a[..j + 1][1..] == a[1..][..j];
    EncodeMore(a[..j + 1]);
  }

  lemma CutAt(e: string, rest: string, s: string, tail: string)
    requires s + [':'] + tail == e + (":" + rest) && |s| == |e|
    ensures s == e && tail == rest
  {
    var whole := e + (":" + rest);
    assert s == whole[..|e|] && tail == whole[|e| + 1..];
  }

  lemma CutAfter(e: string, rest: string, s: string, tail: string) returns (t: string)
    requires s + [':'] + tail == e + (":" + rest) && |s| > |e|
    ensures s == e + (":" + t) && rest == t + [':'] + tail
  {
    t := s[|e| + 1..];
    var whole := s + [':'] + tail;
    assert e == whole[..|e|] && whole[|e|] == ':' && rest == whole[|e| + 1..];
    assert s[..|e|] == e && s[|e|] == ':';
  }

  /** A key of one component has no colon with a key behind it. */
  lemma CutInOne(a: seq<KeyComponent>, s: string, b: seq<KeyComponent>)
    requires |a| == 1 && b != []
    ensures EncodePk(a) != s + [':'] + EncodePk(b)
  {
    var tail := EncodePk(b);
    EncodeOne(a);
    PkColons(b);
    assert tail + "" == tail && Colons("", false) == 0;
    if EncodePk(a) == s + [':'] + tail {
      CutInComponent(a[0], s, tail);
    }
  }

  /** Nor has a key of several within its first component: the colons behind it are even. */
  lemma CutInFirst(a: seq<KeyComponent>, s: string, b: seq<KeyComponent>)
    requires |a| > 1 && b != [] && |s| < |EncodeComponent(a[0])|
    ensures EncodePk(a) != s + [':'] + EncodePk(b)
  {
    EncodeMore(a);
    PkColons(b);
    PkColons(a[1..]);
    if EncodePk(a) == s + [':'] + EncodePk(b) {
      CutsBefore(a[0], s, EncodePk(b), EncodePk(a[1..]));
    }
  }

  /** A cut inside the first of several components leaves an even number of colons. */
  lemma CutsBefore(c: KeyComponent, s: string, tail: string, rest: string)
    requires s + [':'] + tail == EncodeComponent(c) + (":" + rest) && |s| < |EncodeComponent(c)|
    ensures Colons(tail, false) == 1 + Colons(rest, false)
  {
    var u := CutApart(EncodeComponent(c), ":" + rest, s, tail);
    CutInComponent(c, s, u);
    assert (":" + rest)[0] == ':' && (":" + rest)[1..] == rest;
  }

  lemma CutApart(e: string, rest: string, s: string, tail: string) returns (u: string)
    requires s + [':'] + tail == e + rest && |s| < |e|
    ensures e == s + [':'] + u && tail == u + rest
  {
    u := e[|s| + 1..];
    var whole := e + rest;
    assert e == whole[..|e|] && whole[|s|] == ':' && whole[..|s|] == s;
    assert e[..|s|] == s && e[|s|] == ':';
    assert tail == whole[|s| + 1..];
  }

  /** The second key is the first with some of its leading components counted to the name. */
  ghost predicate Shifted(n: string, a: seq<KeyComponent>, m: string, b: seq<KeyComponent>) {
    (n == m && a == b) || exists k :: 0 < k < |a| && m == n + [':'] + EncodePk(a[..k]) && b == a[k..]
  }

  lemma {:induction false} PkAppend(a: seq<KeyComponent>, k: nat)
    requires 0 < k < |a|
    ensures EncodePk(a) == EncodePk(a[..k]) + [':'] + EncodePk(a[k..])
    decreases |a|
  {
    EncodeMore(a);
    if k == 1 {
      EncodeOne(a[..1]);
    } else {
      PkAppend(a[1..], k - 1);
      FirstMore(a, k - 1);
      Regrouped(EncodeComponent(a[0]), EncodePk(a[1..][..k - 1]), EncodePk(a[k..]));
    }
  }

  lemma Regrouped(e: string, x: string, y: string)
    ensures e + (":" + (x + [':'] + y)) == e + (":" + x) + [':'] + y
  {
  }

  lemma ShiftedCollides(n: string, a: seq<KeyComponent>, m: string, b: seq<KeyComponent>)
    requires Shifted(n, a, m, b)
    ensures Tagged(n, EncodePk(a)) == Tagged(m, EncodePk(b))
  {
    if !(n == m && a == b) {
      var k :| 0 < k < |a| && m == n + [':'] + EncodePk(a[..k]) && b == a[k..];
      PkAppend(a, k);
      assert n + [':'] + (EncodePk(a[..k]) + [':'] + EncodePk(b)) == n + [':'] + EncodePk(a[..k]) + [':'] + EncodePk(b);
    }
  }

  /** A shorter name before the same text. */
  lemma CollidesShifted(n: string, a: seq<KeyComponent>, m: string, b: seq<KeyComponent>)
    requires b != [] && |n| <= |m| && Tagged(n, EncodePk(a)) == Tagged(m, EncodePk(b))
    ensures Shifted(n, a, m, b)
  {
    var whole := Tagged(n, EncodePk(a));
    assert n == whole[..|n|] && EncodePk(a) == whole[|n| + 1..];
    assert m == whole[..|m|] && EncodePk(b) == whole[|m| + 1..];
    if |n| == |m| {
      EncodePkInjective(a, b);
    } else {
      var s := m[|n| + 1..];
      assert m == n + [':'] + s by {
        assert whole[|n|] == ':' && m[|n|] == whole[|n|];
      }
      assert EncodePk(a) == s + [':'] + EncodePk(b);
      var k := CutInPk(a, s, b);
    }
  }

  /** Whatever the names are, two unique keys of at least one component are the same text
      exactly when their versions are equal and one is the other with some of its leading
      components counted to the name: for names without colons, only when they are equal. */
  lemma UniqueKeysCollideExactly(v: nat, n: string, a: seq<KeyComponent>, w: nat, m: string, b: seq<KeyComponent>)
    requires a != [] && b != []
    ensures EncodeUniqueKey(v, n, a) == EncodeUniqueKey(w, m, b) <==> v == w && (Shifted(n, a, m, b) || Shifted(m, b, n, a))
  {
    var x, y := Tagged(n, EncodePk(a)), Tagged(m, EncodePk(b));
    assert EncodeUniqueKey(v, n, a)[3..] == Tagged(FormatNat(v), x);
    assert EncodeUniqueKey(w, m, b)[3..] == Tagged(FormatNat(w), y);
    if EncodeUniqueKey(v, n, a) == EncodeUniqueKey(w, m, b) {
      CutAtSeparator(FormatNat(v), x, FormatNat(w), y, ':');
      FormatNatInjective(v, w);
      if |n| <= |m| {
        CollidesShifted(n, a, m, b);
      } else {
        CollidesShifted(m, b, n, a);
      }
    }
    if Shifted(n, a, m, b) {
      ShiftedCollides(n, a, m, b);
    }
    if Shifted(m, b, n, a) {
      ShiftedCollides(m, b, n, a);
    }
  }

  // ── the format on disk ───────────────────────────────────────────────────

  predicate NeedsNoEscape(s: string) {
    forall k :: 0 <= k < |s| ==> s[k] != ':' && s[k] != '\\'
  }

  lemma {:induction false} NothingEscaped(s: string)
    requires NeedsNoEscape(s)
    ensures EscapeString(s) == s
  {
    if s != "" {
      NothingEscaped(s[1..]);
      EscapeCons(s);
      assert EscapedChar(s[0]) == [s[0]] && [s[0]] + s[1..] == s;
    }
  }

  lemma OneComponent(c: KeyComponent)
    ensures EncodePk([c]) == EncodeComponent(c)
  {
    assert EncodeAll([c]) == [EncodeComponent(c)];
  }

  lemma TwoComponents(a: KeyComponent, b: KeyComponent)
    ensures EncodePk([a, b]) == EncodeComponent(a) + ":" + EncodeComponent(b)
  {
    var parts := [EncodeComponent(a), EncodeComponent(b)];
    assert EncodeAll([a, b]) == parts && parts[1..] == [EncodeComponent(b)];
    assert Join(parts[1..], ":") == EncodeComponent(b);
    assert Join(parts, ":") == parts[0] + ":" + Join(parts[1..], ":");
  }

  /** Each component carries its kind in front, and only colons and backslashes are escaped. */
  lemma ComponentFormat(i: I64, s: string)
    ensures EncodePk([Null]) == "n:null"
    ensures 0 <= i < 10 ==> EncodePk([Int(i)]) == "i:" + ['0' + i as char]
    ensures NeedsNoEscape(s) ==> EncodePk([Text(s)]) == "s:" + s
    ensures EncodePk([Text([':'] + s)]) == "s:" + "\\:" + EscapeString(s)
    ensures EncodePk([Text(['\\'] + s)]) == "s:" + "\\\\" + EscapeString(s)
  {
    OneComponent(Null);
    OneComponent(Int(i));
    OneComponent(Text(s));
    OneComponent(Text([':'] + s));
    OneComponent(Text(['\\'] + s));
    EscapeCons([':'] + s);
    EscapeCons(['\\'] + s);
    assert ([':'] + s)[1..] == s && (['\\'] + s)[1..] == s;
    if NeedsNoEscape(s) {
      NothingEscaped(s);
    }
  }

  /** Guard keys as the documentation shows them. */
  lemma GuardKeyFormat(constraint: string, table: string, s: string)
    requires NeedsNoEscape(s)
    ensures EncodeUniqueKey(1, constraint, [Text(s)]) == "uq:1:" + constraint + ":s:" + s
    ensures EncodeRowGuardKey(table, EncodePk([Text(s)])) == "rg:" + table + ":s:" + s
    ensures EncodePk([Text(s), Text(s)]) == "s:" + s + ":s:" + s
  {
    OneComponent(Text(s));
    TwoComponents(Text(s), Text(s));
    NothingEscaped(s);
    assert FormatNat(1) == "1";
  }
}
