/** JSON scalars as rows hold them, and their order. */
module Values {
  import opened Strings

  datatype Value = Null | Bool(b: bool) | Int(i: I64) | Text(s: string)

  /** A row: its values by column name. */
  type Row = map<string, Value>

  /** `values.get(name).unwrap_or(Null)` */
  function Get(row: Row, name: string): Value {
    if name in row then row[name] else Null
  }

  datatype Ordering = Less | Equal | Greater

  function CompareInt(a: int, b: int): Ordering {
    if a < b then Less else if a == b then Equal else Greater
  }

  function CompareBool(a: bool, b: bool): Ordering {
    if a == b then Equal else if b then Less else Greater
  }

  /** Strings compare by code point, which is the order of their UTF-8 bytes. */
  function CompareText(a: string, b: string): (o: Ordering)
    ensures o == Equal <==> a == b
  {
    if a == "" && b == "" then Equal
    else if a == "" then Less
    else if b == "" then Greater
    else if a[0] != b[0] then (if a[0] < b[0] then Less else Greater)
    else
      assert a == [a[0]] + a[1..] && b == [b[0]] + b[1..];
      CompareText(a[1..], b[1..])
  }

  /** The first difference decides: a text comes before those it is a proper beginning of, and
      before those with a greater character at the first place where they differ. */
  ghost predicate TextBefore(a: string, b: string) {
    exists i :: 0 <= i <= |a| && i <= |b| && FirstDifference(a, b, i) && (i == |a| || (i < |b| && a[i] < b[i]))
  }

  /** The texts agree up to `i` and not there. */
  predicate FirstDifference(a: string, b: string, i: nat)
    requires i <= |a| && i <= |b|
  {
    a[..i] == b[..i] && if i < |a| && i < |b| then a[i] != b[i] else |a| != |b|
  }

  lemma {:induction false} DifferAt(a: string, b: string) returns (i: nat)
    requires a != b
    ensures i <= |a| && i <= |b| && FirstDifference(a, b, i)
    ensures forall j :: 0 <= j <= |a| && j <= |b| && FirstDifference(a, b, j) ==> j == i
    ensures CompareText(a, b) == if i == |a| || (i < |b| && a[i] < b[i]) then Less else Greater
  {
    if a == "" || b == "" || a[0] != b[0] {
      i := 0;
    } else {
      assert a == [a[0]] + a[1..] && b == [b[0]] + b[1..];
      var k := DifferAt(a[1..], b[1..]);
      i := k + 1;
      assert a[..i] == [a[0]] + a[1..][..k] && b[..i] == [b[0]] + b[1..][..k];
    }
    forall j | 0 <= j <= |a| && j <= |b| && FirstDifference(a, b, j) ensures j == i {
      OneDifference(a, b, i, j);
    }
  }

  lemma OneDifference(a: string, b: string, i: nat, j: nat)
    requires i <= |a| && i <= |b| && j <= |a| && j <= |b| && FirstDifference(a, b, i) && FirstDifference(a, b, j)
    ensures i == j
  {
    PrefixAgrees(a, b, i);
    PrefixAgrees(a, b, j);
  }

  lemma PrefixAgrees(a: string, b: string, n: nat)
    requires n <= |a| && n <= |b| && a[..n] == b[..n]
    ensures forall k :: 0 <= k < n ==> a[k] == b[k]
  {
    forall k | 0 <= k < n ensures a[k] == b[k] {
      assert a[..n][k] == b[..n][k];
    }
  }

  /** `CompareText` is the order by first difference. */
  lemma CompareTextMeans(a: string, b: string)
    ensures CompareText(a, b) == Less <==> TextBefore(a, b)
    ensures CompareText(a, b) == Greater <==> TextBefore(b, a)
    ensures CompareText(a, b) == Equal <==> a == b
  {
    if a != b {
      var i := DifferAt(a, b);
      assert FirstDifference(b, a, i);
      var k := DifferAt(b, a);
    }
  }
}
