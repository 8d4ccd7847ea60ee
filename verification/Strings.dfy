/** Text primitives shared by the codecs: joining, decimal integers, and the signed
    64-bit range. A `string` is a sequence of Unicode scalar values, as a Rust `str` is. */
module Strings {
  datatype Option<+T> = None | Some(value: T)

  const I64_MIN: int := -0x8000_0000_0000_0000
  const I64_MAX: int := 0x7fff_ffff_ffff_ffff

  predicate IsI64(i: int) {
    I64_MIN <= i <= I64_MAX
  }

  /** A signed 64-bit integer. */
  type I64 = i: int | -0x8000_0000_0000_0000 <= i <= 0x7fff_ffff_ffff_ffff

  predicate IsDigit(c: char) {
    '0' <= c <= '9'
  }

  predicate AllDigits(s: string) {
    forall k :: 0 <= k < |s| ==> IsDigit(s[k])
  }

  /** `parts.join(sep)` */
  function Join(parts: seq<string>, sep: string): string {
    if |parts| == 0 then ""
    else if |parts| == 1 then parts[0]
    else parts[0] + sep + Join(parts[1..], sep)
  }

  /** The UTF-8 length of one scalar value. */
  function Utf8Width(c: char): (n: nat)
    ensures 1 <= n <= 4
  {
    if c as int < 0x80 then 1
    else if c as int < 0x800 then 2
    else if c as int < 0x10000 then 3
    else 4
  }

  /** `str::len`: the number of UTF-8 bytes. */
  function ByteLen(s: string): nat {
    if s == "" then 0 else Utf8Width(s[0]) + ByteLen(s[1..])
  }

  // ── decimal integers ─────────────────────────────────────────────────────

  function DigitChar(d: nat): char
    requires d < 10
  {
    '0' + d as char
  }

  function DigitValue(c: char): (d: nat)
    requires IsDigit(c)
    ensures d < 10
  {
    c as int - '0' as int
  }

  /** The decimal form of a natural number, without leading zeros. */
  function FormatNat(n: nat): (s: string)
    ensures |s| > 0 && AllDigits(s)
  {
    if n < 10 then [DigitChar(n)] else FormatNat(n / 10) + [DigitChar(n % 10)]
  }

  /** `format!("{i}")` */
  function FormatInt(i: int): (s: string) {
    if i < 0 then "-" + FormatNat(-i) else FormatNat(i)
  }

  function NatValue(s: string): nat
    requires AllDigits(s)
  {
    if s == "" then 0 else 10 * NatValue(s[..|s| - 1]) + DigitValue(s[|s| - 1])
  }

  /** `str::parse::<i64>`: an optional sign, at least one digit, and no overflow. */
  function ParseI64(s: string): Option<I64>
  {
    var negative := |s| > 0 && s[0] == '-';
    var body := if |s| > 0 && (s[0] == '-' || s[0] == '+') then s[1..] else s;
    if body == "" || !AllDigits(body) then None
    else
      var magnitude: int := NatValue(body);
      var v := if negative then -magnitude else magnitude;
      if IsI64(v) then Some(v) else None
  }

  lemma {:induction false} NatValueFormat(n: nat)
    ensures NatValue(FormatNat(n)) == n
  {
    if n >= 10 {
      NatValueFormat(n / 10);
      var s := FormatNat(n);
      assert s[..|s| - 1] == FormatNat(n / 10);
    }
  }

  /** Printing and parsing a 64-bit integer are inverse. */
  lemma ParseFormat(i: I64)
    ensures ParseI64(FormatInt(i)) == Some(i)
  {
    var n: int := i;
    if n < 0 {
      NatValueFormat(-n);
      assert FormatInt(n)[0] == '-' && FormatInt(n)[1..] == FormatNat(-n);
    } else {
      NatValueFormat(n);
      assert IsDigit(FormatInt(i)[0]);
    }
  }

  /** A printed integer is a nonempty run of digits and minus signs. */
  lemma FormatIntChars(i: int)
    ensures |FormatInt(i)| > 0
    ensures forall c :: c in FormatInt(i) ==> IsDigit(c) || c == '-'
  {
    if i < 0 {
      assert forall c :: c in FormatNat(-i) ==> IsDigit(c);
    } else {
      assert forall c :: c in FormatNat(i) ==> IsDigit(c);
    }
  }

  lemma {:induction false} FormatNatInjective(m: nat, n: nat)
    requires FormatNat(m) == FormatNat(n)
    ensures m == n
  {
    NatValueFormat(m);
    NatValueFormat(n);
  }

  /** Two strings cut at their first separator: equal wholes have equal parts. */
  lemma CutAtSeparator(a: string, b: string, c: string, d: string, sep: char)
    requires sep !in a && sep !in c
    requires a + [sep] + b == c + [sep] + d
    ensures a == c && b == d
  {
    var s := a + [sep] + b;
    assert s[|a|] == sep && s[|c|] == sep;
    assert forall k :: 0 <= k < |a| ==> s[k] == a[k];
    assert forall k :: 0 <= k < |c| ==> s[k] == c[k];
    assert a == s[..|a|] && c == s[..|c|];
    assert b == s[|a| + 1..] && d == s[|c| + 1..];
  }
}
