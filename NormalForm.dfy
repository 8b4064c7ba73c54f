/** The canonical form that every smart constructor establishes: what a
    simplified factor list is (the check in Mult.isSimplified, with one
    addition, the canonical order), what a canonical sum is, and which raw
    power nodes may exist. */
module NormalForm {
  import opened Seqs
  import opened Expressions

  // ---------------------------------------------------------------------
  // Simplified factor lists
  // ---------------------------------------------------------------------

  predicate AtMostOneConstant(fs: seq<Expr>)
  {
    forall i, j :: 0 <= i < j < |fs| ==> !(fs[i].Const? && fs[j].Const?)
  }

  /** Neither 1 nor 0 appears unless it is the only factor. */
  predicate NoIdentityFactor(fs: seq<Expr>)
  {
    |fs| > 1 ==> forall i :: 0 <= i < |fs| ==> fs[i] != Const(1) && fs[i] != Const(0)
  }

  predicate NoProductFactor(fs: seq<Expr>)
  {
    forall i :: 0 <= i < |fs| ==> !fs[i].Mult?
  }

  predicate DistinctBases(fs: seq<Expr>)
  {
    forall i, j :: 0 <= i < j < |fs| ==> Base(fs[i]) != Base(fs[j])
  }

  /** Factors appear in the canonical order of their bases. */
  predicate OrderedByBase(fs: seq<Expr>)
  {
    forall i, j :: 0 <= i < j < |fs| ==> ExprLess(Base(fs[i]), Base(fs[j]))
  }

  /** The four conditions of Mult.isSimplified, plus the canonical order. */
  predicate Simplified(fs: seq<Expr>)
  {
    && AtMostOneConstant(fs)
    && NoIdentityFactor(fs)
    && NoProductFactor(fs)
    && DistinctBases(fs)
    && OrderedByBase(fs)
  }

  // ---------------------------------------------------------------------
  // Canonical sums (stand-in for the sum class)
  // ---------------------------------------------------------------------

  predicate NoSumTerm(ts: seq<Expr>)
  {
    forall i :: 0 <= i < |ts| ==> !ts[i].Add?
  }

  predicate Sorted(ts: seq<Expr>)
  {
    forall i, j :: 0 <= i < j < |ts| ==> ExprLe(ts[i], ts[j])
  }

  /** Flat, sorted, with at most one constant, which leads and, beside
      other terms, is not 0. */
  predicate SumTermsCanonical(ts: seq<Expr>)
  {
    && NoSumTerm(ts)
    && Sorted(ts)
    && (forall i :: 0 < i < |ts| ==> !ts[i].Const?)
    && (|ts| > 1 ==> ts[0] != Const(0))
  }

  // ---------------------------------------------------------------------
  // The invariant
  // ---------------------------------------------------------------------

  /** The raw power nodes that the power constructor may return. */
  predicate RawPowerAllowed(b: Expr, x: Expr)
  {
    && x != Const(1)
    && x != Const(0)
    && !b.Mult?
    && !b.Pow?
    && !(b.Const? && x.Const? && x.val >= 0)
  }

  /** Every tree built by the smart constructors satisfies Canon. */
  predicate Canon(e: Expr)
    decreases e
  {
    match e
    case Const(_) => true
    case Var(_) => true
    case Mult(fs) => |fs| >= 2 && (forall i :: 0 <= i < |fs| ==> Canon(fs[i])) && Simplified(fs)
    case Pow(b, x) => Canon(b) && Canon(x) && RawPowerAllowed(b, x)
    case Add(ts) => |ts| >= 2 && (forall i :: 0 <= i < |ts| ==> Canon(ts[i])) && SumTermsCanonical(ts)
    case Ln(a) => Canon(a)
  }

  predicate AllCanon(es: seq<Expr>)
  {
    forall i :: 0 <= i < |es| ==> Canon(es[i])
  }

  lemma AllCanonPair(a: Expr, b: Expr)
    requires Canon(a) && Canon(b)
    ensures AllCanon([a, b])
  {
  }

  lemma AllCanonTriple(a: Expr, b: Expr, c: Expr)
    requires Canon(a) && Canon(b) && Canon(c)
    ensures AllCanon([a, b, c])
  {
  }

  lemma AllCanonAppend(a: seq<Expr>, b: seq<Expr>)
    requires AllCanon(a) && AllCanon(b)
    ensures AllCanon(a + b)
  {
    assert forall i :: 0 <= i < |a + b| ==> (a + b)[i] == if i < |a| then a[i] else b[i - |a|];
  }

  /** The base/exponent view of a canonical non-product factor is canonical,
      and the base is neither a product nor a power. */
  lemma CanonicalFactorView(f: Expr)
    requires Canon(f) && !f.Mult?
    ensures Canon(Base(f)) && Canon(Exponent(f))
    ensures !Base(f).Mult? && !Base(f).Pow?
  {
  }

  /** When fs[k] is the only constant, the constant values are just its value
      and the non-constants are everything else, in order. */
  lemma OneConstant(es: seq<Expr>, k: nat)
    requires k < |es| && es[k].Const?
    requires forall i :: 0 <= i < |es| && i != k ==> !es[i].Const?
    ensures ConstValues(es) == [es[k].val]
    ensures NonConstants(es) == es[..k] + es[k + 1..]
  {
    NoConstantsAround(es, k);
    ConcatMapSplit(es, k, ConstPiece);
    ConcatMapSplit(es, k, NonConstPiece);
    assert ConstPiece(es[k]) == [es[k].val] && NonConstPiece(es[k]) == [];
  }

  lemma NoConstantsAround(es: seq<Expr>, k: nat)
    requires k < |es|
    requires forall i :: 0 <= i < |es| && i != k ==> !es[i].Const?
    ensures NonConstants(es[..k]) == es[..k] && ConstValues(es[..k]) == []
    ensures NonConstants(es[k + 1..]) == es[k + 1..] && ConstValues(es[k + 1..]) == []
  {
    var l, r := es[..k], es[k + 1..];
    forall i | 0 <= i < |l| ensures !l[i].Const? {
      assert l[i] == es[i];
    }
    NoConstants(l);
    forall i | 0 <= i < |r| ensures !r[i].Const? {
      assert r[i] == es[k + 1 + i];
    }
    NoConstants(r);
  }

  // ---------------------------------------------------------------------
  // Uniqueness of sorted arrangements
  // ---------------------------------------------------------------------

  predicate StrictlySorted(s: seq<Expr>)
  {
    forall i, j :: 0 <= i < j < |s| ==> ExprLess(s[i], s[j])
  }

  /** The first element of a sorted sequence is below every element. */
  lemma SortedHeadLeast(s: seq<Expr>, x: Expr)
    requires Sorted(s) && x in s
    ensures ExprLe(s[0], x)
  {
    var i :| 0 <= i < |s| && s[i] == x;
    if i > 0 { assert ExprLe(s[0], s[i]); }
  }

  /** Two sorted arrangements of the same multiset are the same sequence. */
  lemma {:induction false} SortedUnique(a: seq<Expr>, b: seq<Expr>)
    requires Sorted(a) && Sorted(b) && multiset(a) == multiset(b)
    ensures a == b
    decreases |a|
  {
    if |a| == 0 {
      assert |b| == |multiset(b)| == 0;
    } else {
      assert |b| == |multiset(b)| == |multiset(a)| == |a|;
      assert a[0] in multiset(b) && b[0] in multiset(a);
      SortedHeadLeast(b, a[0]);
      SortedHeadLeast(a, b[0]);
      ExprLeAntisymmetric(a[0], b[0]);
      SortedTail(a);
      SortedTail(b);
      MultisetTail(a);
      MultisetTail(b);
      SortedUnique(a[1..], b[1..]);
      assert a == [a[0]] + a[1..] && b == [b[0]] + b[1..];
    }
  }

  lemma SortedTail(s: seq<Expr>)
    requires Sorted(s) && |s| > 0
    ensures Sorted(s[1..])
  {
    forall i, j | 0 <= i < j < |s| - 1 ensures ExprLe(s[1..][i], s[1..][j]) {
      assert s[1..][i] == s[i + 1] && s[1..][j] == s[j + 1];
    }
  }

  lemma MultisetTail<T>(s: seq<T>)
    requires |s| > 0
    ensures multiset(s[1..]) == multiset(s) - multiset{s[0]}
  {
    assert s == [s[0]] + s[1..];
  }

  lemma HeadMember<T>(s: seq<T>)
    ensures |s| > 0 ==> s[0] in s
  {
  }

  /** Two strictly sorted sequences with the same elements are equal. */
  lemma {:induction false} StrictlySortedUnique(a: seq<Expr>, b: seq<Expr>)
    requires StrictlySorted(a) && StrictlySorted(b)
    requires forall x :: x in a <==> x in b
    ensures a == b
    decreases |a|
  {
    if |a| == 0 {
      HeadMember(b);
    } else {
      assert a[0] in b;
      assert |b| > 0 && b[0] in a;
      var i :| 0 <= i < |b| && b[i] == a[0];
      var j :| 0 <= j < |a| && a[j] == b[0];
      if a[0] != b[0] {
        assert i > 0 && j > 0;
        assert ExprLess(b[0], a[0]) && ExprLess(a[0], b[0]);
        ExprLessAsymmetric(a[0], b[0]);
      }
      forall x ensures x in a[1..] <==> x in b[1..] {
        if x in a[1..] {
          var k :| 1 <= k < |a| && a[k] == x;
          assert ExprLess(a[0], x);
          ExprLessIrreflexive(x);
          assert x in b;
        }
        if x in b[1..] {
          var k :| 1 <= k < |b| && b[k] == x;
          assert ExprLess(b[0], x);
          ExprLessIrreflexive(x);
          assert x in a;
        }
      }
      StrictlySortedUnique(a[1..], b[1..]);
      assert a == [a[0]] + a[1..] && b == [b[0]] + b[1..];
    }
  }
}
