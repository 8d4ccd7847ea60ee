/** Filtering sequences. */
module Lists {
  lemma AppendAssoc<T>(a: seq<T>, b: seq<T>, c: seq<T>)
    ensures a + (b + c) == a + b + c
  {
  }

  function Keep<T>(rows: seq<T>, p: T -> bool): seq<T> {
    if rows == [] then []
    else if p(rows[0]) then [rows[0]] + Keep(rows[1..], p)
    else Keep(rows[1..], p)
  }

  lemma {:induction false} KeepHas<T>(rows: seq<T>, p: T -> bool, r: T)
    ensures r in Keep(rows, p) <==> r in rows && p(r)
  {
    if rows != [] {
      KeepHas(rows[1..], p, r);
      assert r in rows <==> r == rows[0] || r in rows[1..];
    }
  }

  lemma {:induction false} KeepNone<T>(rows: seq<T>, p: T -> bool)
    requires forall r :: r in rows ==> !p(r)
    ensures Keep(rows, p) == []
  {
    if rows != [] {
      KeepNone(rows[1..], p);
    }
  }

  lemma {:induction false} KeepEvery<T>(rows: seq<T>, p: T -> bool)
    requires forall r :: r in rows ==> p(r)
    ensures Keep(rows, p) == rows
  {
    if rows != [] {
      KeepEvery(rows[1..], p);
    }
  }

  lemma {:induction false} KeepWhole<T>(rows: seq<T>, p: T -> bool)
    ensures |Keep(rows, p)| <= |rows|
    ensures |Keep(rows, p)| == |rows| ==> Keep(rows, p) == rows
    ensures Keep(rows, p) == rows <==> forall r :: r in rows ==> p(r)
  {
    if rows != [] {
      KeepWhole(rows[1..], p);
      assert rows == [rows[0]] + rows[1..];
      assert forall r :: r in rows <==> r == rows[0] || r in rows[1..];
    }
  }

  lemma {:induction false} KeepAppend<T>(a: seq<T>, b: seq<T>, p: T -> bool)
    ensures Keep(a + b, p) == Keep(a, p) + Keep(b, p)
    decreases |a|
  {
    if a == [] {
      assert a + b == b;
    } else {
      KeepAppend(a[1..], b, p);
      assert (a + b)[0] == a[0] && (a + b)[1..] == a[1..] + b;
    }
  }

  lemma {:induction false} KeepKeep<T>(rows: seq<T>, p: T -> bool, q: T -> bool, both: T -> bool)
    requires forall r :: r in rows ==> (both(r) <==> p(r) && q(r))
    ensures Keep(Keep(rows, p), q) == Keep(rows, both)
  {
    if rows != [] {
      assert rows[0] in rows && forall r :: r in rows[1..] ==> r in rows;
      KeepKeep(rows[1..], p, q, both);
      if p(rows[0]) {
        assert ([rows[0]] + Keep(rows[1..], p))[1..] == Keep(rows[1..], p);
      }
    }
  }

  /** Two tests keep the same rows exactly when they agree on all of them. */
  lemma KeepSame<T>(rows: seq<T>, p: T -> bool, q: T -> bool)
    ensures Keep(rows, p) == Keep(rows, q) <==> forall r :: r in rows ==> (p(r) <==> q(r))
  {
    if Keep(rows, p) == Keep(rows, q) {
      forall r | r in rows ensures p(r) <==> q(r) {
        KeepHas(rows, p, r);
        KeepHas(rows, q, r);
      }
    }
    if forall r :: r in rows ==> (p(r) <==> q(r)) {
      KeepAlike(rows, p, q);
    }
  }

  lemma {:induction false} KeepAlike<T>(rows: seq<T>, p: T -> bool, q: T -> bool)
    requires forall r :: r in rows ==> (p(r) <==> q(r))
    ensures Keep(rows, p) == Keep(rows, q)
  {
    if rows != [] {
      assert rows[0] in rows && forall r :: r in rows[1..] ==> r in rows;
      KeepAlike(rows[1..], p, q);
    }
  }
}
