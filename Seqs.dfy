/** Generic sequence helpers: a left-to-right concat-map (the shape of every
    "for each factor, append something" loop in the product canonicaliser),
    integer products and sums, and their behaviour under permutation. */
module Seqs {

  /** f applied to each element of s, results concatenated in order. */
  function ConcatMap<T, U>(s: seq<T>, f: T -> seq<U>): seq<U>
  {
    if |s| == 0 then [] else ConcatMap(s[..|s| - 1], f) + f(s[|s| - 1])
  }

  lemma {:induction false} ConcatMapAppend<T, U>(a: seq<T>, b: seq<T>, f: T -> seq<U>)
    ensures ConcatMap(a + b, f) == ConcatMap(a, f) + ConcatMap(b, f)
    decreases |b|
  {
    if |b| == 0 {
      assert a + b == a;
    } else {
      assert (a + b)[..|a + b| - 1] == a + b[..|b| - 1];
      assert (a + b)[|a + b| - 1] == b[|b| - 1];
      ConcatMapAppend(a, b[..|b| - 1], f);
    }
  }

  lemma ConcatMapSingle<T, U>(x: T, f: T -> seq<U>)
    ensures ConcatMap([x], f) == f(x)
  {
    assert [x][..0] == [];
  }

  lemma ConcatMapThree<T, U>(a: T, b: T, c: T, f: T -> seq<U>)
    ensures ConcatMap([a, b, c], f) == f(a) + f(b) + f(c)
  {
    assert [a, b, c] == [a, b] + [c];
    assert [a, b] == [a] + [b];
    ConcatMapAppend([a, b], [c], f);
    ConcatMapAppend([a], [b], f);
    ConcatMapSingle(a, f);
    ConcatMapSingle(b, f);
    ConcatMapSingle(c, f);
  }

  /** A concat-map split around the element at position k. */
  lemma ConcatMapSplit<T, U>(s: seq<T>, k: nat, f: T -> seq<U>)
    requires k < |s|
    ensures ConcatMap(s, f) == ConcatMap(s[..k], f) + f(s[k]) + ConcatMap(s[k + 1..], f)
  {
    var l, r := s[..k], s[k + 1..];
    assert s == l + [s[k]] + r;
    ConcatMapAppend(l + [s[k]], r, f);
    ConcatMapAppend(l, [s[k]], f);
    ConcatMapSingle(s[k], f);
  }

  lemma PrefixExtend<T>(s: seq<T>, j: nat)
    requires j < |s|
    ensures s[..j + 1] == s[..j] + [s[j]]
  {
  }

  lemma PairElements<T>(s: seq<T>)
    requires |s| == 2
    ensures s == [s[0], s[1]]
  {
  }

  lemma SwapLastTwo<T>(a: T, b: T, c: T)
    ensures multiset([a, b, c]) == multiset([a, c] + [b])
  {
    assert [a, c] + [b] == [a, c, b];
  }

  /** Moving the element at position k to the front keeps the multiset. */
  lemma MultisetMoveToFront<T>(s: seq<T>, k: nat)
    requires k < |s|
    ensures multiset([s[k]] + s[..k] + s[k + 1..]) == multiset(s)
  {
    assert s == s[..k] + [s[k]] + s[k + 1..];
  }

  /** Every element of a concat-map comes from the image of some element. */
  lemma {:induction false} ConcatMapMember<T, U>(s: seq<T>, f: T -> seq<U>, y: U)
    requires y in ConcatMap(s, f)
    ensures exists i :: 0 <= i < |s| && y in f(s[i])
    decreases |s|
  {
    var n := |s| - 1;
    if y in f(s[n]) {
    } else {
      ConcatMapMember(s[..n], f, y);
      var i :| 0 <= i < n && y in f(s[..n][i]);
      assert s[..n][i] == s[i];
    }
  }

  /** Every element of the image of an element appears in the concat-map. */
  lemma {:induction false} ConcatMapContains<T, U>(s: seq<T>, f: T -> seq<U>, i: nat, y: U)
    requires i < |s| && y in f(s[i])
    ensures y in ConcatMap(s, f)
    decreases |s|
  {
    var n := |s| - 1;
    if i < n {
      assert s[..n][i] == s[i];
      ConcatMapContains(s[..n], f, i, y);
    }
  }

  /** A concat-map whose pieces are all empty is empty. */
  lemma {:induction false} ConcatMapEmpty<T, U>(s: seq<T>, f: T -> seq<U>)
    requires forall i :: 0 <= i < |s| ==> f(s[i]) == []
    ensures ConcatMap(s, f) == []
    decreases |s|
  {
    if |s| > 0 {
      var n := |s| - 1;
      assert forall i :: 0 <= i < n ==> s[..n][i] == s[i];
      ConcatMapEmpty(s[..n], f);
    }
  }

  /** A concat-map whose pieces are the elements themselves is the identity. */
  lemma {:induction false} ConcatMapIdentity<T>(s: seq<T>, f: T -> seq<T>)
    requires forall i :: 0 <= i < |s| ==> f(s[i]) == [s[i]]
    ensures ConcatMap(s, f) == s
    decreases |s|
  {
    if |s| > 0 {
      var n := |s| - 1;
      assert forall i :: 0 <= i < n ==> s[..n][i] == s[i];
      ConcatMapIdentity(s[..n], f);
      assert s == s[..n] + [s[n]];
    }
  }

  /** When multiset(p) == multiset(q), the last element of p sits at some
      position j of q, and the rest of p is a permutation of q without j. */
  lemma PermLast<T>(p: seq<T>, q: seq<T>) returns (j: nat)
    requires multiset(p) == multiset(q) && |p| > 0
    ensures j < |q| && q[j] == p[|p| - 1]
    ensures multiset(p[..|p| - 1]) == multiset(q[..j] + q[j + 1..])
  {
    var n := |p| - 1;
    var x := p[n];
    assert p == p[..n] + [x];
    assert x in multiset(q);
    j :| 0 <= j < |q| && q[j] == x;
    assert q == q[..j] + [x] + q[j + 1..];
    assert multiset(q) == multiset(q[..j]) + multiset{x} + multiset(q[j + 1..]);
    assert multiset(p) == multiset(p[..n]) + multiset{x};
    assert multiset(q[..j] + q[j + 1..]) == multiset(q[..j]) + multiset(q[j + 1..]);
    assert multiset(p[..n]) == multiset(p) - multiset{x};
    assert multiset(q[..j] + q[j + 1..]) == multiset(q) - multiset{x};
  }

  lemma {:induction false} ConcatMapPerm<T, U>(p: seq<T>, q: seq<T>, f: T -> seq<U>)
    requires multiset(p) == multiset(q)
    ensures multiset(ConcatMap(p, f)) == multiset(ConcatMap(q, f))
    decreases |p|
  {
    if |p| == 0 {
      assert |q| == |multiset(q)| == 0;
    } else {
      var n := |p| - 1;
      var j := PermLast(p, q);
      var l, r := q[..j], q[j + 1..];
      ConcatMapPerm(p[..n], l + r, f);
      assert q == l + [q[j]] + r;
      ConcatMapAppend(l + [q[j]], r, f);
      ConcatMapAppend(l, [q[j]], f);
      ConcatMapAppend(l, r, f);
      ConcatMapSingle(q[j], f);
    }
  }

  /** Product of a sequence of integers, accumulated left to right. */
  function Prod(s: seq<int>): int
  {
    if |s| == 0 then 1 else Prod(s[..|s| - 1]) * s[|s| - 1]
  }

  /** Sum of a sequence of integers, accumulated left to right. */
  function Total(s: seq<int>): int
  {
    if |s| == 0 then 0 else Total(s[..|s| - 1]) + s[|s| - 1]
  }

  lemma ProdSingle(v: int)
    ensures Prod([v]) == v
  {
    assert [v][..0] == [];
  }

  lemma TotalSingle(v: int)
    ensures Total([v]) == v
  {
    assert [v][..0] == [];
  }

  lemma {:induction false} ProdAppend(a: seq<int>, b: seq<int>)
    ensures Prod(a + b) == Prod(a) * Prod(b)
    decreases |b|
  {
    if |b| > 0 {
      assert (a + b)[..|a + b| - 1] == a + b[..|b| - 1];
      ProdAppend(a, b[..|b| - 1]);
    } else {
      assert a + b == a;
    }
  }

  /** A zero factor makes the product zero. */
  lemma {:induction false} ProdZero(s: seq<int>)
    requires 0 in s
    ensures Prod(s) == 0
    decreases |s|
  {
    var n := |s| - 1;
    if s[n] != 0 {
      assert 0 in s[..n] by {
        var i :| 0 <= i < |s| && s[i] == 0;
        assert s[..n][i] == s[i];
      }
      ProdZero(s[..n]);
    }
  }

  lemma {:induction false} TotalAppend(a: seq<int>, b: seq<int>)
    ensures Total(a + b) == Total(a) + Total(b)
    decreases |b|
  {
    if |b| > 0 {
      assert (a + b)[..|a + b| - 1] == a + b[..|b| - 1];
      TotalAppend(a, b[..|b| - 1]);
    } else {
      assert a + b == a;
    }
  }

  lemma {:induction false} ProdPerm(p: seq<int>, q: seq<int>)
    requires multiset(p) == multiset(q)
    ensures Prod(p) == Prod(q)
    decreases |p|
  {
    if |p| == 0 {
      assert |q| == |multiset(q)| == 0;
    } else {
      var n := |p| - 1;
      var j := PermLast(p, q);
      var l, r := q[..j], q[j + 1..];
      ProdPerm(p[..n], l + r);
      assert q == l + [q[j]] + r;
      ProdAppend(l + [q[j]], r);
      ProdAppend(l, [q[j]]);
      ProdAppend(l, r);
      assert [q[j]][..0] == [];
    }
  }

  lemma {:induction false} TotalPerm(p: seq<int>, q: seq<int>)
    requires multiset(p) == multiset(q)
    ensures Total(p) == Total(q)
    decreases |p|
  {
    if |p| == 0 {
      assert |q| == |multiset(q)| == 0;
    } else {
      var n := |p| - 1;
      var j := PermLast(p, q);
      var l, r := q[..j], q[j + 1..];
      TotalPerm(p[..n], l + r);
      assert q == l + [q[j]] + r;
      TotalAppend(l + [q[j]], r);
      TotalAppend(l, [q[j]]);
      TotalAppend(l, r);
      assert [q[j]][..0] == [];
    }
  }
}
