/** The byte forms index keys use: UTF-8 for text and eight big-endian bytes for integers. */
module Bytes {
  import opened Strings

  type Byte = b: int | 0 <= b < 256

  /** The UTF-8 bytes of one scalar value. */
  function Utf8Char(c: char): (r: seq<Byte>)
    ensures |r| == Utf8Width(c)
  {
    var n := c as int;
    if n < 0x80 then [n]
    else if n < 0x800 then [0xC0 + n / 64, 0x80 + n % 64]
    else if n < 0x10000 then [0xE0 + n / 4096, 0x80 + n / 64 % 64, 0x80 + n % 64]
    else [0xF0 + n / 262144, 0x80 + n / 4096 % 64, 0x80 + n / 64 % 64, 0x80 + n % 64]
  }

  function Utf8(s: string): seq<Byte> {
    if s == "" then [] else Utf8Char(s[0]) + Utf8(s[1..])
  }

  const TWO_64: int := 0x1_0000_0000_0000_0000

  /** The two's complement bit pattern of a signed 64-bit integer. */
  function Pattern(i: I64): (n: int)
    ensures 0 <= n < TWO_64
  {
    if i >= 0 then i else (i as int) + TWO_64
  }

  /** `u64::to_be_bytes` */
  function PatternBytes(n: int): (r: seq<Byte>)
    requires 0 <= n < TWO_64
    ensures |r| == 8
  {
    [n / 0x100_0000_0000_0000, n / 0x1_0000_0000_0000 % 256, n / 0x100_0000_0000 % 256, n / 0x1_0000_0000 % 256,
     n / 0x100_0000 % 256, n / 0x1_0000 % 256, n / 0x100 % 256, n % 256]
  }

  /** `i64::to_be_bytes` */
  function BigEndian(i: I64): (r: seq<Byte>)
    ensures |r| == 8
  {
    PatternBytes(Pattern(i))
  }

  lemma Utf8CharReads(c: char, d: char, s: seq<Byte>, t: seq<Byte>)
    requires Utf8Char(c) + s == Utf8Char(d) + t
    ensures c == d && s == t
  {
    var a, b := Utf8Char(c), Utf8Char(d);
    var whole := a + s;
    assert whole[0] == a[0] == b[0];
    assert |a| == |b|;
    assert forall k :: 0 <= k < |a| ==> a[k] == whole[k] == b[k];
    SameChar(c, d);
    assert s == whole[|a|..] && t == whole[|a|..];
  }

  lemma SameChar(c: char, d: char)
    requires Utf8Width(c) == Utf8Width(d)
    requires forall k :: 0 <= k < Utf8Width(c) ==> Utf8Char(c)[k] == Utf8Char(d)[k]
    ensures c == d
  {
    var a, b := Utf8Char(c), Utf8Char(d);
    var m, n := c as int, d as int;
    assert a[0] == b[0];
    SixBits(m);
    SixBits(n);
    if |a| > 1 {
      assert a[1] == b[1];
    }
    if |a| > 2 {
      assert a[2] == b[2];
    }
    if |a| > 3 {
      assert a[3] == b[3];
    }
  }

  lemma SixBits(n: int)
    ensures n == 64 * (n / 64) + n % 64
    ensures n / 64 == 64 * (n / 4096) + n / 64 % 64
    ensures n / 4096 == 64 * (n / 262144) + n / 4096 % 64
  {
    assert n / 64 / 64 == n / 4096;
    assert n / 4096 / 64 == n / 262144;
  }

  lemma {:induction false} Utf8Injective(s: string, t: string)
    requires Utf8(s) == Utf8(t)
    ensures s == t
  {
    if s != "" && t != "" {
      Utf8CharReads(s[0], t[0], Utf8(s[1..]), Utf8(t[1..]));
      Utf8Injective(s[1..], t[1..]);
      assert s == [s[0]] + s[1..] && t == [t[0]] + t[1..];
    } else {
      assert s != "" ==> Utf8(s) != [];
      assert t != "" ==> Utf8(t) != [];
    }
  }

  lemma {:induction false} Utf8Append(s: string, t: string)
    ensures Utf8(s + t) == Utf8(s) + Utf8(t)
  {
    if s == "" {
      assert s + t == t;
    } else {
      assert (s + t)[0] == s[0] && (s + t)[1..] == s[1..] + t;
      Utf8Append(s[1..], t);
    }
  }

  lemma BigEndianInjective(i: I64, j: I64)
    requires BigEndian(i) == BigEndian(j)
    ensures i == j
  {
    FromBytes(Pattern(i));
    FromBytes(Pattern(j));
  }

  lemma FromBytes(n: int)
    requires 0 <= n < TWO_64
    ensures var r := PatternBytes(n);
            n == (((((((r[0] as int) * 256 + r[1]) * 256 + r[2]) * 256 + r[3]) * 256 + r[4]) * 256 + r[5]) * 256 + r[6]) * 256 + r[7]
  {
    Byte8(n / 0x1_0000_0000_0000);
    Byte8(n / 0x100_0000_0000);
    Byte8(n / 0x1_0000_0000);
    Byte8(n / 0x100_0000);
    Byte8(n / 0x1_0000);
    Byte8(n / 0x100);
    Byte8(n);
    assert n / 0x100 / 256 == n / 0x1_0000;
    assert n / 0x1_0000 / 256 == n / 0x100_0000;
    assert n / 0x100_0000 / 256 == n / 0x1_0000_0000;
    assert n / 0x1_0000_0000 / 256 == n / 0x100_0000_0000;
    assert n / 0x100_0000_0000 / 256 == n / 0x1_0000_0000_0000;
    assert n / 0x1_0000_0000_0000 / 256 == n / 0x100_0000_0000_0000;
  }

  lemma Byte8(n: int)
    ensures n == n / 256 * 256 + n % 256
  {
  }

  /** `i64::from_be_bytes` */
  function FromBigEndian(r: seq<Byte>): (i: I64)
    requires |r| == 8
    ensures BigEndian(i) == r
  {
    var n := Horner(r);
    HornerBytes(r);
    if n < TWO_64 / 2 then n else n - TWO_64
  }

  function Horner(r: seq<Byte>): (n: int)
    requires |r| == 8
    ensures 0 <= n < TWO_64
  {
    (((((((r[0] as int) * 256 + r[1]) * 256 + r[2]) * 256 + r[3]) * 256 + r[4]) * 256 + r[5]) * 256 + r[6]) * 256 + r[7]
  }

  lemma HornerBytes(r: seq<Byte>)
    requires |r| == 8
    ensures PatternBytes(Horner(r)) == r
  {
    FromBytes(Horner(r));
    HornerInjective(r, PatternBytes(Horner(r)));
  }

  lemma HornerInjective(r: seq<Byte>, s: seq<Byte>)
    requires |r| == |s| == 8 && Horner(r) == Horner(s)
    ensures r == s
  {
    var a1, b1 := (r[0] as int) * 256 + r[1], (s[0] as int) * 256 + s[1];
    var a2, b2 := a1 * 256 + r[2], b1 * 256 + s[2];
    var a3, b3 := a2 * 256 + r[3], b2 * 256 + s[3];
    var a4, b4 := a3 * 256 + r[4], b3 * 256 + s[4];
    var a5, b5 := a4 * 256 + r[5], b4 * 256 + s[5];
    var a6, b6 := a5 * 256 + r[6], b5 * 256 + s[6];
    LastByte(a6, r[7], b6, s[7]);
    LastByte(a5, r[6], b5, s[6]);
    LastByte(a4, r[5], b4, s[5]);
    LastByte(a3, r[4], b3, s[4]);
    LastByte(a2, r[3], b2, s[3]);
    LastByte(a1, r[2], b1, s[2]);
    LastByte(r[0], r[1], s[0], s[1]);
  }

  lemma LastByte(m: int, a: Byte, n: int, b: Byte)
    requires m * 256 + a == n * 256 + b
    ensures m == n && a == b
  {
  }

  // ── decoding UTF-8 ───────────────────────────────────────────────────────

  predicate Continues(b: Byte) {
    0x80 <= b < 0xC0
  }

  /** The scalar value whose bytes come first, if any. */
  function HeadChar(b: seq<Byte>): Option<char> {
    if b == [] then None
    else if b[0] < 0x80 then Some(b[0] as char)
    else if 0xC2 <= b[0] < 0xE0 && |b| >= 2 && Continues(b[1]) then
      Some(((b[0] as int - 0xC0) * 64 + (b[1] as int - 0x80)) as char)
    else if 0xE0 <= b[0] < 0xF0 && |b| >= 3 && Continues(b[1]) && Continues(b[2]) then
      var n := (b[0] as int - 0xE0) * 4096 + (b[1] as int - 0x80) * 64 + (b[2] as int - 0x80);
      if 0x800 <= n < 0xD800 || 0xE000 <= n then Some(n as char) else None
    else if 0xF0 <= b[0] && |b| >= 4 && Continues(b[1]) && Continues(b[2]) && Continues(b[3]) then
      var n := (b[0] as int - 0xF0) * 262144 + (b[1] as int - 0x80) * 4096 + (b[2] as int - 0x80) * 64 + (b[3] as int - 0x80);
      if 0x1_0000 <= n < 0x11_0000 then Some(n as char) else None
    else None
  }

  lemma HeadCharEncodes(b: seq<Byte>)
    requires HeadChar(b).Some?
    ensures Utf8Char(HeadChar(b).value) <= b
  {
    var c := HeadChar(b).value as int;
    SixBits(c);
    if b[0] >= 0xF0 {
      Digits(b[0] - 0xF0, b[1] - 0x80, b[2] - 0x80, b[3] - 0x80);
      assert Utf8Char(c as char) == b[..4];
    } else if b[0] >= 0xE0 {
      Digits(0, b[0] - 0xE0, b[1] - 0x80, b[2] - 0x80);
      assert Utf8Char(c as char) == b[..3];
    } else if b[0] >= 0x80 {
      Digits(0, 0, b[0] - 0xC0, b[1] - 0x80);
      assert Utf8Char(c as char) == b[..2];
    } else {
      assert Utf8Char(c as char) == b[..1];
    }
  }

  /** Digits to the base 64. */
  lemma Digits(p: int, q: int, r: int, s: int)
    requires 0 <= q < 64 && 0 <= r < 64 && 0 <= s < 64
    ensures var n := p * 262144 + q * 4096 + r * 64 + s;
            n % 64 == s && n / 64 % 64 == r && n / 4096 % 64 == q && n / 262144 == p
  {
    var n := p * 262144 + q * 4096 + r * 64 + s;
    assert n / 64 == p * 4096 + q * 64 + r;
    assert n / 64 / 64 == p * 64 + q;
    assert n / 4096 / 64 == p;
  }

  lemma EncodedIsHead(c: char, rest: seq<Byte>)
    ensures HeadChar(Utf8Char(c) + rest) == Some(c)
  {
    var n := c as int;
    var b := Utf8Char(c) + rest;
    assert forall k :: 0 <= k < Utf8Width(c) ==> b[k] == Utf8Char(c)[k];
    SixBits(n);
  }

  function DecodeUtf8(b: seq<Byte>): Option<string>
    decreases |b|
  {
    if b == [] then Some("")
    else
      match HeadChar(b)
      case None => None
      case Some(c) =>
        HeadCharEncodes(b);
        match DecodeUtf8(b[Utf8Width(c)..])
        case None => None
        case Some(s) => Some([c] + s)
  }

  /** The decoder reads exactly the encodings. */
  lemma {:induction false} DecodeUtf8Exactly(b: seq<Byte>, s: string)
    ensures DecodeUtf8(b) == Some(s) <==> Utf8(s) == b
    decreases |b|
  {
    if HeadChar(b).Some? {
      var c := HeadChar(b).value;
      HeadCharEncodes(b);
      var rest := b[Utf8Width(c)..];
      assert b == Utf8Char(c) + rest;
      if s != "" {
        DecodeUtf8Exactly(rest, s[1..]);
        assert s == [s[0]] + s[1..];
        if Utf8(s) == b {
          Utf8CharReads(s[0], c, Utf8(s[1..]), rest);
        }
        if DecodeUtf8(b) == Some(s) {
          assert DecodeUtf8(rest) == Some(s[1..]);
        }
      }
    } else if s != "" {
      EncodedIsHead(s[0], Utf8(s[1..]));
    }
  }
}
