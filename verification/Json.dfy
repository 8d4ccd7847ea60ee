/** Compact JSON text, as `serde_json::to_string` writes it (section 7 of RFC 8259 for
    strings). Numbers are integers; an object is the list of its members in the order
    they are written. */
module Json {
  import opened Strings

  datatype Json =
    | Null
    | Bool(b: bool)
    | Num(i: int)
    | Str(s: string)
    | Arr(items: seq<Json>)
    | Obj(members: seq<Member>)

  datatype Member = Member(key: string, value: Json)

  function HexDigit(d: nat): char
    requires d < 16
  {
    if d < 10 then '0' + d as char else 'a' + (d - 10) as char
  }

  function EscapeChar(c: char): (r: string)
    ensures |r| > 0 && r[0] != '"'
  {
    if c == '"' then "\\\""
    else if c == '\\' then "\\\\"
    else if c == '\U{0008}' then "\\b"
    else if c == '\U{000C}' then "\\f"
    else if c == '\n' then "\\n"
    else if c == '\r' then "\\r"
    else if c == '\t' then "\\t"
    else if c < ' ' then ['\\', 'u', '0', '0', HexDigit(c as int / 16), HexDigit(c as int % 16)]
    else [c]
  }

  function EscapeText(s: string): string {
    if s == "" then "" else EscapeChar(s[0]) + EscapeText(s[1..])
  }

  /** `json_string` */
  function JsonString(s: string): string {
    ['"'] + EscapeText(s) + ['"']
  }

  function Print(v: Json): string {
    match v
    case Null => "null"
    case Bool(b) => if b then "true" else "false"
    case Num(i) => FormatInt(i)
    case Str(s) => JsonString(s)
    case Arr(items) => ['['] + PrintItems(items, true)
    case Obj(members) => ['{'] + PrintMembers(members, true)
  }

  /** The items still to be written and the closing bracket. */
  function PrintItems(items: seq<Json>, first: bool): string {
    if items == [] then [']']
    else (if first then [] else [',']) + Print(items[0]) + PrintItems(items[1..], false)
  }

  function PrintMembers(members: seq<Member>, first: bool): string {
    if members == [] then ['}']
    else (if first then [] else [',']) + JsonString(members[0].key) + [':'] + Print(members[0].value)
         + PrintMembers(members[1..], false)
  }

  // ── a printed value can be read back ─────────────────────────────────────

  lemma EscapeCharReads(c: char, d: char, s: string, t: string)
    requires EscapeChar(c) + s == EscapeChar(d) + t
    ensures c == d && s == t
  {
    var a, b := EscapeChar(c), EscapeChar(d);
    var whole := a + s;
    assert whole[0] == a[0] == b[0];
    if a[0] == '\\' {
      assert whole[1] == a[1] == b[1];
      if a[1] == 'u' {
        assert whole[4] == a[4] == b[4] && whole[5] == a[5] == b[5];
        assert c as int == d as int;
      }
    }
    assert c == d;
    assert s == whole[|a|..] && t == whole[|a|..];
  }

  /** The text of a literal from its first character on. */
  lemma TextUncons(a: string, s: string)
    ensures a == "" ==> EscapeText(a) + ['"'] + s == ['"'] + s
    ensures a != "" ==> EscapeText(a) + ['"'] + s == EscapeChar(a[0]) + (EscapeText(a[1..]) + ['"'] + s)
  {
  }

  lemma QuoteIsEscaped(c: char)
    ensures EscapeChar(c) != "" && EscapeChar(c)[0] != '"'
  {
  }

  /** A string literal is read up to its own closing quote. */
  lemma {:induction false} TextReads(a: string, b: string, s: string, t: string)
    requires EscapeText(a) + ['"'] + s == EscapeText(b) + ['"'] + t
    ensures a == b && s == t
    decreases |a|
  {
    var whole := EscapeText(a) + ['"'] + s;
    TextUncons(a, s);
    TextUncons(b, t);
    if a != "" {
      QuoteIsEscaped(a[0]);
      assert whole[0] == EscapeChar(a[0])[0];
    }
    if b != "" {
      QuoteIsEscaped(b[0]);
      assert whole[0] == EscapeChar(b[0])[0];
    }
    if a == "" {
      assert s == whole[1..] && t == whole[1..];
    } else {
      EscapeCharReads(a[0], b[0], EscapeText(a[1..]) + ['"'] + s, EscapeText(b[1..]) + ['"'] + t);
      TextReads(a[1..], b[1..], s, t);
      assert a == [a[0]] + a[1..] && b == [b[0]] + b[1..];
    }
  }

  lemma StringReads(a: string, b: string, s: string, t: string)
    requires JsonString(a) + s == JsonString(b) + t
    ensures a == b && s == t
  {
    var whole := JsonString(a) + s;
    assert whole[1..] == EscapeText(a) + ['"'] + s;
    assert whole[1..] == EscapeText(b) + ['"'] + t;
    TextReads(a, b, s, t);
  }

  /** What may follow a value: the end of the text or a structural character. */
  predicate Delimited(s: string) {
    s == "" || s[0] == ',' || s[0] == ']' || s[0] == '}'
  }

  predicate NumberChar(c: char) {
    IsDigit(c) || c == '-'
  }

  lemma NumberReads(i: int, j: int, s: string, t: string)
    requires FormatInt(i) + s == FormatInt(j) + t && Delimited(s) && Delimited(t)
    ensures i == j && s == t
  {
    var a, b := FormatInt(i), FormatInt(j);
    var whole := a + s;
    FormatIntChars(i);
    FormatIntChars(j);
    assert forall k :: 0 <= k < |a| ==> NumberChar(whole[k]) && a[k] in a;
    assert forall k :: 0 <= k < |b| ==> whole[k] == b[k] && b[k] in b;
    assert |a| < |whole| ==> !NumberChar(whole[|a|]);
    assert |b| < |whole| ==> whole[|b|] == t[0];
    assert |a| == |b|;
    assert a == whole[..|a|] && b == whole[..|a|];
    assert s == whole[|a|..] && t == whole[|a|..];
    FormatIntInjective(i, j);
  }

  lemma FormatIntInjective(i: int, j: int)
    requires FormatInt(i) == FormatInt(j)
    ensures i == j
  {
    SignChar(i);
    SignChar(j);
    if i < 0 {
      assert FormatInt(i)[1..] == FormatNat(-i) && FormatInt(j)[1..] == FormatNat(-j);
      FormatNatInjective(-i, -j);
    } else {
      FormatNatInjective(i, j);
    }
  }

  lemma SignChar(i: int)
    ensures FormatInt(i) != "" && (FormatInt(i)[0] == '-' <==> i < 0)
  {
    if i >= 0 {
      assert IsDigit(FormatNat(i)[0]);
    }
  }

  /** The first character of a printed value tells its kind. */
  function Kind(c: char): nat {
    if c == 'n' then 0 else if c == 't' then 1 else if c == 'f' then 2 else if NumberChar(c) then 3
    else if c == '"' then 4 else if c == '[' then 5 else 6
  }

  lemma PrintHead(v: Json)
    ensures Print(v) != ""
    ensures Kind(Print(v)[0]) == match v
                                 case Null => 0
                                 case Bool(b) => if b then 1 else 2
                                 case Num(_) => 3
                                 case Str(_) => 4
                                 case Arr(_) => 5
                                 case Obj(_) => 6
    ensures Print(v)[0] != ']' && Print(v)[0] != '}' && Print(v)[0] != ','
  {
    if v.Num? {
      FormatIntChars(v.i);
      assert Print(v)[0] in FormatInt(v.i);
    }
  }

  /** No printed value is a proper prefix of another in front of a structural character. */
  lemma {:induction false} PrintReads(v: Json, w: Json, s: string, t: string)
    requires Print(v) + s == Print(w) + t && Delimited(s) && Delimited(t)
    ensures v == w && s == t
    decreases v, 0
  {
    var whole := Print(v) + s;
    PrintHead(v);
    PrintHead(w);
    assert whole[0] == Print(v)[0] == Print(w)[0];
    assert s == whole[|Print(v)|..] && t == whole[|Print(w)|..];
    match v
    case Null =>
    case Bool(_) =>
    case Num(i) =>
      NumberReads(i, w.i, s, t);
    case Str(a) =>
      StringReads(a, w.s, s, t);
    case Arr(items) =>
      SameHead('[', PrintItems(items, true), PrintItems(w.items, true), s, t);
      ItemsRead(items, w.items, true, s, t);
    case Obj(members) =>
      SameHead('{', PrintMembers(members, true), PrintMembers(w.members, true), s, t);
      MembersRead(members, w.members, true, s, t);
  }

  lemma SameHead(c: char, a: string, b: string, s: string, t: string)
    requires [c] + a + s == [c] + b + t
    ensures a + s == b + t
  {
    assert a + s == ([c] + a + s)[1..];
    assert b + t == ([c] + b + t)[1..];
  }

  lemma ItemsDelimited(items: seq<Json>, s: string)
    ensures Delimited(PrintItems(items, false) + s)
  {
  }

  lemma MembersDelimited(members: seq<Member>, s: string)
    ensures Delimited(PrintMembers(members, false) + s)
  {
  }

  function Comma(first: bool): string {
    if first then [] else [',']
  }

  lemma ItemsUncons(items: seq<Json>, first: bool, s: string)
    ensures PrintItems(items, first) != ""
    ensures items == [] <==> PrintItems(items, first)[0] == ']'
    ensures items == [] ==> PrintItems(items, first) + s == [']'] + s
    ensures items != [] ==>
              PrintItems(items, first) + s == Comma(first) + (Print(items[0]) + (PrintItems(items[1..], false) + s))
  {
    if items != [] {
      PrintHead(items[0]);
      Assoc4(Comma(first), Print(items[0]), PrintItems(items[1..], false), s);
    }
  }

  lemma Assoc4(a: string, b: string, c: string, d: string)
    ensures a + b + c + d == a + (b + (c + d))
  {
  }

  lemma Assoc6(a: string, b: string, c: string, d: string, e: string, f: string)
    ensures a + b + c + d + e + f == a + (b + (c + (d + (e + f))))
  {
    Assoc4(a, b, c, d);
    Assoc4(a + b, c, d, e + f);
    Assoc4(a, b, c, d + (e + f));
    assert a + b + c + d + e + f == a + b + c + d + (e + f);
  }

  lemma MembersUncons(members: seq<Member>, first: bool, s: string)
    ensures PrintMembers(members, first) != ""
    ensures members == [] <==> PrintMembers(members, first)[0] == '}'
    ensures members == [] ==> PrintMembers(members, first) + s == ['}'] + s
    ensures members != [] ==>
              PrintMembers(members, first) + s ==
              Comma(first) + (JsonString(members[0].key) +
                              ([':'] + (Print(members[0].value) + (PrintMembers(members[1..], false) + s))))
  {
    if members != [] {
      var m := members[0];
      Assoc6(Comma(first), JsonString(m.key), [':'], Print(m.value), PrintMembers(members[1..], false), s);
    }
  }

  lemma Cancel(c: string, a: string, b: string)
    requires c + a == c + b
    ensures a == b
  {
    assert a == (c + a)[|c|..] && b == (c + b)[|c|..];
  }

  lemma {:induction false} ItemsRead(a: seq<Json>, b: seq<Json>, first: bool, s: string, t: string)
    requires PrintItems(a, first) + s == PrintItems(b, first) + t
    ensures a == b && s == t
    decreases a, 1
  {
    ItemsUncons(a, first, s);
    ItemsUncons(b, first, t);
    assert (PrintItems(a, first) + s)[0] == PrintItems(a, first)[0];
    assert (PrintItems(b, first) + t)[0] == PrintItems(b, first)[0];
    if a == [] {
      Cancel([']'], s, t);
    } else {
      var x, y := PrintItems(a[1..], false) + s, PrintItems(b[1..], false) + t;
      Cancel(Comma(first), Print(a[0]) + x, Print(b[0]) + y);
      ItemsDelimited(a[1..], s);
      ItemsDelimited(b[1..], t);
      PrintReads(a[0], b[0], x, y);
      ItemsRead(a[1..], b[1..], false, s, t);
      assert a == [a[0]] + a[1..] && b == [b[0]] + b[1..];
    }
  }

  lemma {:induction false} MembersRead(a: seq<Member>, b: seq<Member>, first: bool, s: string, t: string)
    requires PrintMembers(a, first) + s == PrintMembers(b, first) + t
    ensures a == b && s == t
    decreases a, 1
  {
    MembersUncons(a, first, s);
    MembersUncons(b, first, t);
    assert (PrintMembers(a, first) + s)[0] == PrintMembers(a, first)[0];
    assert (PrintMembers(b, first) + t)[0] == PrintMembers(b, first)[0];
    if a == [] {
      Cancel(['}'], s, t);
    } else {
      var x, y := PrintMembers(a[1..], false) + s, PrintMembers(b[1..], false) + t;
      var k, l := Print(a[0].value) + x, Print(b[0].value) + y;
      Cancel(Comma(first), JsonString(a[0].key) + ([':'] + k), JsonString(b[0].key) + ([':'] + l));
      StringReads(a[0].key, b[0].key, [':'] + k, [':'] + l);
      Cancel([':'], k, l);
      MembersDelimited(a[1..], s);
      MembersDelimited(b[1..], t);
      PrintReads(a[0].value, b[0].value, x, y);
      MembersRead(a[1..], b[1..], false, s, t);
      assert a == [a[0]] + a[1..] && b == [b[0]] + b[1..];
    }
  }

  /** Compact JSON text determines the value. */
  lemma PrintInjective(v: Json, w: Json)
    requires Print(v) == Print(w)
    ensures v == w
  {
    assert Print(v) + "" == Print(w) + "";
    PrintReads(v, w, "", "");
  }
}
