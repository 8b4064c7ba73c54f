/** The product constructor (Mult.mult): repeat the three rewriting steps
    until the factor list is simplified, then return the lone factor or a
    product node. Also the loops of the helper methods, each proved to
    compute its step, and the accessors for the constant and symbolic part. */
module Products {
  import opened Seqs
  import opened Expressions
  import opened NormalForm
  import opened Sums
  import opened PowerAtoms
  import opened ProductSteps

  // ---------------------------------------------------------------------
  // simplify and mult
  // ---------------------------------------------------------------------

  /** Rounds until the list is simplified. A round removes every product
      factor, and afterwards either shortens the list or makes it
      simplified, which is the measure below. */
  function Simplify(fs: seq<Expr>): (r: seq<Expr>)
    requires |fs| > 0 && AllCanon(fs)
    ensures |r| > 0 && AllCanon(r) && Simplified(r)
    decreases if NoProductFactor(fs) then 0 else 1, 2 * |fs| + (if Simplified(fs) then 0 else 1)
  {
    if Simplified(fs) then fs
    else
      RoundShape(fs);
      RoundDecreases(fs);
      Simplify(Round(fs))
  }

  lemma RoundDecreases(fs: seq<Expr>)
    requires |fs| > 0 && AllCanon(fs)
    ensures NoProductFactor(fs) ==> |Round(fs)| <= |fs|
    ensures NoProductFactor(fs) && |Round(fs)| == |fs| ==> Simplified(Round(fs))
  {
    if NoProductFactor(fs) {
      RoundShrinks(fs);
    }
  }

  /** The product of a non-empty list of canonical factors. */
  function Product(fs: seq<Expr>): (r: Expr)
    requires |fs| > 0 && AllCanon(fs)
    ensures Canon(r)
  {
    var s := Simplify(fs);
    if |s| == 1 then s[0] else Mult(s)
  }

  /** Mult.mult with its error case: an empty factor list is refused. */
  function MultOf(fs: seq<Expr>): (r: Result<Expr>)
    requires AllCanon(fs)
    ensures r.Err? <==> |fs| == 0
    ensures r.Ok? ==> Canon(r.value)
  {
    if |fs| == 0 then Err("Don't instantiate a term with an empty list!") else Ok(Product(fs))
  }

  /** Simplify returns a list that is already simplified unchanged, so it is
      idempotent. */
  lemma SimplifyIdempotent(fs: seq<Expr>)
    requires |fs| > 0 && AllCanon(fs)
    ensures Simplify(Simplify(fs)) == Simplify(fs)
  {
  }

  /** Skipping a round, or adding one, does not change the outcome. */
  lemma SimplifyRound(fs: seq<Expr>)
    requires |fs| > 0 && AllCanon(fs)
    ensures AllCanon(Round(fs)) && |Round(fs)| > 0
    ensures Simplify(fs) == Simplify(Round(fs))
  {
    RoundShape(fs);
    if Simplified(fs) {
      RoundFix(fs);
    }
  }

  /** A product is the product of its first round. */
  lemma ProductRound(fs: seq<Expr>)
    requires |fs| > 0 && AllCanon(fs)
    ensures AllCanon(Round(fs)) && |Round(fs)| > 0
    ensures Product(fs) == Product(Round(fs))
  {
    SimplifyRound(fs);
  }

  /** Two lists with the same round have the same product. */
  lemma ProductByRound(p: seq<Expr>, q: seq<Expr>)
    requires |p| > 0 && AllCanon(p) && |q| > 0 && AllCanon(q)
    requires Round(p) == Round(q)
    ensures Product(p) == Product(q)
  {
    SimplifyRound(p);
    SimplifyRound(q);
  }

  /** A simplified list of canonical factors is its own product's factor list. */
  lemma ProductOfSimplified(s: seq<Expr>)
    requires |s| > 0 && AllCanon(s) && Simplified(s)
    ensures Product(s) == if |s| == 1 then s[0] else Mult(s)
  {
  }

  lemma ProductOfCanonical(fs: seq<Expr>)
    requires Canon(Mult(fs))
    ensures Product(fs) == Mult(fs)
  {
  }

  /** The product of one canonical factor is that factor. */
  lemma ProductSingleton(f: Expr)
    requires Canon(f)
    ensures Product([f]) == f
  {
    if f.Mult? {
      ProductOfNested(f.factors);
    } else {
      ProductOfLone(f);
    }
  }

  /** A canonical product as the only factor is returned unchanged. */
  lemma ProductOfNested(fs: seq<Expr>)
    requires Canon(Mult(fs))
    ensures Product([Mult(fs)]) == Mult(fs)
  {
    ConcatMapSingle(Mult(fs), ProductPiece);
    FlattenedFlat(fs);
    RoundOfSameFlattening([Mult(fs)], fs);
    ProductByRound([Mult(fs)], fs);
    ProductOfCanonical(fs);
  }

  lemma RoundOfSameFlattening(p: seq<Expr>, q: seq<Expr>)
    requires Flattened(p) == Flattened(q)
    ensures Round(p) == Round(q)
  {
  }

  /** Mult.mult on one factor returns that factor. */
  lemma MultOfSingleton(f: Expr)
    requires Canon(f)
    ensures MultOf([f]) == Ok(f)
  {
    ProductSingleton(f);
  }

  /** Factor order does not affect the product. */
  lemma ProductPermutation(p: seq<Expr>, q: seq<Expr>)
    requires |p| > 0 && AllCanon(p) && multiset(p) == multiset(q)
    ensures |q| > 0 && AllCanon(q)
    ensures Product(p) == Product(q)
  {
    assert |q| == |multiset(q)| == |multiset(p)| == |p|;
    forall i | 0 <= i < |q| ensures Canon(q[i]) {
      assert q[i] in multiset(p);
    }
    RoundPerm(p, q);
    ProductByRound(p, q);
  }

  /** A zero factor makes the whole product zero. */
  lemma ProductZero(fs: seq<Expr>)
    requires |fs| > 0 && AllCanon(fs) && Const(0) in fs
    ensures Product(fs) == Const(0)
  {
    RoundZero(fs);
    ProductRound(fs);
    ProductOfLone(Const(0));
  }

  lemma RoundZero(fs: seq<Expr>)
    requires Const(0) in fs
    ensures Round(fs) == [Const(0)]
  {
    var i :| 0 <= i < |fs| && fs[i] == Const(0);
    ConcatMapContains(fs, ProductPiece, i, Const(0));
    FoldZero(Flattened(fs));
    GroupedSingle(Const(0));
  }

  /** The product of a lone factor that is not a product is that factor. */
  lemma ProductOfLone(f: Expr)
    requires Canon(f) && !f.Mult?
    ensures Product([f]) == f
  {
    assert Simplified([f]);
  }

  /** A zero among the spliced factors folds the list to [0]. */
  lemma FoldZero(flat: seq<Expr>)
    requires Const(0) in flat
    ensures ConstantsFolded(flat) == [Const(0)]
  {
    var j :| 0 <= j < |flat| && flat[j] == Const(0);
    ConcatMapContains(flat, ConstPiece, j, 0);
    ProdZero(ConstValues(flat));
  }

  /** A lone canonical non-product factor is grouped into itself. */
  lemma GroupedSingle(f: Expr)
    requires Canon(f) && !f.Mult?
    ensures FactorsGrouped([f]) == [f]
  {
    assert BaseList([f]) == InsertBase(Base(f), BaseList([f][..0]));
    assert BaseList([f]) == [Base(f)];
    ConcatMapSingle(f, ExpPiece(Base(f)));
    CanonicalFactorView(f);
    SumSingleton(Exponent(f));
    AtomRebuild(f);
  }

  /** Folding ignores a factor 1 appended at the end. */
  lemma FoldIgnoresOne(flat: seq<Expr>)
    ensures ConstantsFolded(flat + [Const(1)]) == ConstantsFolded(flat)
  {
    ConcatMapAppend(flat, [Const(1)], ConstPiece);
    ConcatMapSingle(Const(1), ConstPiece);
    ConcatMapAppend(flat, [Const(1)], NonConstPiece);
    ConcatMapSingle(Const(1), NonConstPiece);
    ProdAppend(ConstValues(flat), [1]);
    ProdSingle(1);
    assert NonConstants(flat) + [] == NonConstants(flat);
  }

  /** 1 is the identity of the product. */
  lemma ProductOne(fs: seq<Expr>)
    requires |fs| > 0 && AllCanon(fs)
    ensures AllCanon(fs + [Const(1)])
    ensures Product(fs + [Const(1)]) == Product(fs)
  {
    AllCanonAppend(fs, [Const(1)]);
    RoundIgnoresOne(fs);
    ProductByRound(fs + [Const(1)], fs);
  }

  lemma RoundIgnoresOne(fs: seq<Expr>)
    ensures Round(fs + [Const(1)]) == Round(fs)
  {
    FlattenedAppendOne(fs);
    FoldIgnoresOne(Flattened(fs));
  }

  lemma FlattenedAppendOne(fs: seq<Expr>)
    ensures Flattened(fs + [Const(1)]) == Flattened(fs) + [Const(1)]
  {
    ConcatMapAppend(fs, [Const(1)], ProductPiece);
    ConcatMapSingle(Const(1), ProductPiece);
  }

  /** 1 times a canonical factor is that factor. */
  lemma OneTimes(y: Expr)
    requires Canon(y)
    ensures Product([Const(1), y]) == y
  {
    ProductOne([y]);
    assert [y] + [Const(1)] == [y, Const(1)];
    SwappedPair(y, Const(1));
    ProductSingleton(y);
  }

  lemma SwappedPair(a: Expr, b: Expr)
    requires Canon(a) && Canon(b)
    ensures Product([a, b]) == Product([b, a])
  {
    AllCanonPair(a, b);
    assert multiset([a, b]) == multiset([b, a]);
    ProductPermutation([a, b], [b, a]);
  }

  /** A product of ones is 1. */
  lemma {:induction false} ProductOfOnes(fs: seq<Expr>)
    requires |fs| > 0 && forall i :: 0 <= i < |fs| ==> fs[i] == Const(1)
    ensures AllCanon(fs) && Product(fs) == Const(1)
    decreases |fs|
  {
    var n := |fs| - 1;
    if n == 0 {
      assert fs == [Const(1)];
      ProductSingleton(Const(1));
    } else {
      ProductOfOnes(fs[..n]);
      assert fs == fs[..n] + [Const(1)];
      ProductOne(fs[..n]);
    }
  }

  /** A product of constants is the constant of their integer product. */
  lemma ProductOfConstants(fs: seq<Expr>)
    requires |fs| > 0 && forall i :: 0 <= i < |fs| ==> fs[i].Const?
    ensures AllCanon(fs)
    ensures Product(fs) == Const(Prod(ConstValues(fs)))
  {
    var c := Prod(ConstValues(fs));
    FlattenedFlat(fs);
    assert forall i :: 0 <= i < |fs| ==> NonConstPiece(fs[i]) == [];
    ConcatMapEmpty(fs, NonConstPiece);
    assert ConstantsFolded(fs) == [Const(c)];
    GroupedSingle(Const(c));
    assert Round(fs) == [Const(c)];
    ProductRound(fs);
    ProductOfLone(Const(c));
  }

  /** The product of two constants multiplies their values. */
  lemma ProductOfTwoConstants(a: int, b: int)
    ensures Product([Const(a), Const(b)]) == Const(a * b)
  {
    var fs := [Const(a), Const(b)];
    ProductOfConstants(fs);
    assert fs == [Const(a)] + [Const(b)];
    ConcatMapAppend([Const(a)], [Const(b)], ConstPiece);
    ConcatMapSingle(Const(a), ConstPiece);
    ConcatMapSingle(Const(b), ConstPiece);
    ProdAppend([a], [b]);
    ProdSingle(a);
    ProdSingle(b);
  }

  /** Two equal factors that are neither constants, products nor powers are
      grouped into a square: x * x becomes x ^ 2. */
  lemma ProductSquare(f: Expr)
    requires Canon(f) && !f.Const? && !f.Mult? && !f.Pow?
    ensures Product([f, f]) == Pow(f, Const(2))
  {
    SquareFolded(f);
    SquareGrouped(f);
    AllCanonPair(f, f);
    ProductRound([f, f]);
    ProductOfLone(Pow(f, Const(2)));
  }

  lemma SquareFolded(f: Expr)
    requires !f.Const? && !f.Mult?
    ensures ConstantsFolded(Flattened([f, f])) == [f, f]
  {
    FlattenedFlat([f, f]);
    NoConstants([f, f]);
  }

  lemma SquareGrouped(f: Expr)
    requires Canon(f) && !f.Const? && !f.Mult? && !f.Pow?
    ensures FactorsGrouped([f, f]) == [Pow(f, Const(2))]
  {
    PairBases(f);
    PairExponents(f);
    assert FactorsGrouped([f, f]) == [PowerAtom(f, Const(2))];
  }

  lemma PairBases(f: Expr)
    requires !f.Pow?
    ensures BaseList([f, f]) == [f]
  {
    assert [f, f][..1] == [f];
    assert BaseList([f]) == InsertBase(Base(f), BaseList([f][..0]));
  }

  lemma PairExponents(f: Expr)
    requires !f.Pow?
    ensures Sum(ExpsOf([f, f], f)) == Const(2)
  {
    var e := ExpsOf([f, f], f);
    assert [f, f] == [f] + [f];
    ConcatMapAppend([f], [f], ExpPiece(f));
    ConcatMapSingle(f, ExpPiece(f));
    assert e == [Const(1)] + [Const(1)];
    SumOfConstants(e);
    ConcatMapAppend([Const(1)], [Const(1)], ConstPiece);
    ConcatMapSingle(Const(1), ConstPiece);
    assert ConstValues(e) == [1] + [1];
    TotalAppend([1], [1]);
    TotalSingle(1);
  }

  // ---------------------------------------------------------------------
  // getConstantFactor and getSymbolicFactors
  // ---------------------------------------------------------------------

  /** The first constant factor, or 1 when there is none. */
  function ConstantFactor(fs: seq<Expr>): (r: Expr)
    ensures r.Const?
    ensures r == Const(1) || r in fs
  {
    if |fs| == 0 then Const(1)
    else if fs[0].Const? then fs[0]
    else ConstantFactor(fs[1..])
  }

  predicate FirstConstantAt(fs: seq<Expr>, i: int)
  {
    0 <= i < |fs| && fs[i].Const? && forall j :: 0 <= j < i ==> !fs[j].Const?
  }

  lemma {:induction false} ConstantFactorFirst(fs: seq<Expr>, i: int)
    requires FirstConstantAt(fs, i)
    ensures ConstantFactor(fs) == fs[i]
    decreases |fs|
  {
    if i > 0 {
      assert !fs[0].Const?;
      assert FirstConstantAt(fs[1..], i - 1) by {
        forall j | 0 <= j < i - 1 ensures !fs[1..][j].Const? {
          assert fs[1..][j] == fs[j + 1];
        }
      }
      ConstantFactorFirst(fs[1..], i - 1);
    }
  }

  lemma {:induction false} ConstantFactorNone(fs: seq<Expr>)
    requires forall i :: 0 <= i < |fs| ==> !fs[i].Const?
    ensures ConstantFactor(fs) == Const(1)
    decreases |fs|
  {
    if |fs| > 0 {
      assert forall j :: 0 <= j < |fs| - 1 ==> fs[1..][j] == fs[j + 1];
      ConstantFactorNone(fs[1..]);
    }
  }

  /** The product of the non-constant factors. Like the product constructor
      it needs at least one factor. */
  function SymbolicFactors(fs: seq<Expr>): (r: Expr)
    requires AllCanon(fs) && |NonConstants(fs)| > 0
    ensures Canon(r)
  {
    NonConstantsCanon(fs);
    Product(NonConstants(fs))
  }

  lemma NonConstantsCanon(fs: seq<Expr>)
    requires AllCanon(fs)
    ensures AllCanon(NonConstants(fs))
  {
    NonConstantsMembers(fs);
    assert forall i :: 0 <= i < |NonConstants(fs)| ==> NonConstants(fs)[i] in NonConstants(fs);
  }

  /** A canonical product has a non-constant factor. */
  lemma CanonicalHasSymbolic(fs: seq<Expr>)
    requires Canon(Mult(fs))
    ensures |NonConstants(fs)| > 0
  {
    var i := if fs[0].Const? then 1 else 0;
    assert !fs[i].Const? by {
      if i == 1 {
        assert !(fs[0].Const? && fs[1].Const?);
      }
    }
    ConcatMapContains(fs, NonConstPiece, i, fs[i]);
  }

  /** Removing one factor from a simplified list keeps it simplified. */
  lemma RemoveOne(fs: seq<Expr>, k: nat)
    requires k < |fs| && AllCanon(fs) && Simplified(fs)
    ensures AllCanon(fs[..k] + fs[k + 1..]) && Simplified(fs[..k] + fs[k + 1..])
  {
    var q := fs[..k] + fs[k + 1..];
    assert forall i :: 0 <= i < |q| ==> q[i] == fs[if i < k then i else i + 1];
  }

  /** The constant factor times the symbolic factors rebuilds the product. */
  lemma ProductRebuild(fs: seq<Expr>)
    requires Canon(Mult(fs))
    ensures |NonConstants(fs)| > 0
    ensures Product([ConstantFactor(fs), SymbolicFactors(fs)]) == Mult(fs)
  {
    CanonicalHasSymbolic(fs);
    if exists k :: 0 <= k < |fs| && fs[k].Const? {
      var k :| 0 <= k < |fs| && fs[k].Const?;
      RebuildWithConstant(fs, k);
    } else {
      RebuildWithoutConstant(fs);
    }
  }

  lemma PairFlattened(c: Expr, p: Expr)
    requires !c.Mult?
    ensures Flattened([c, p]) == [c] + ProductPiece(p)
  {
    assert [c, p] == [c] + [p];
    ConcatMapAppend([c], [p], ProductPiece);
    ConcatMapSingle(c, ProductPiece);
    ConcatMapSingle(p, ProductPiece);
  }

  lemma RebuildWithConstant(fs: seq<Expr>, k: nat)
    requires Canon(Mult(fs)) && k < |fs| && fs[k].Const?
    requires |NonConstants(fs)| > 0
    ensures Product([ConstantFactor(fs), SymbolicFactors(fs)]) == Mult(fs)
  {
    PairRound(fs, k);
    ProductByRound([ConstantFactor(fs), SymbolicFactors(fs)], fs);
    ProductOfCanonical(fs);
  }

  lemma PairRound(fs: seq<Expr>, k: nat)
    requires Canon(Mult(fs)) && k < |fs| && fs[k].Const?
    requires |NonConstants(fs)| > 0
    ensures AllCanon([ConstantFactor(fs), SymbolicFactors(fs)])
    ensures Round([ConstantFactor(fs), SymbolicFactors(fs)]) == Round(fs)
  {
    var p := SymbolicFactors(fs);
    SplitAtConstant(fs, k);
    RoundWithPiece(fs, k, p);
    AllCanonPair(fs[k], p);
  }

  lemma SplitAtConstant(fs: seq<Expr>, k: nat)
    requires Canon(Mult(fs)) && k < |fs| && fs[k].Const?
    requires |NonConstants(fs)| > 0
    ensures ConstantFactor(fs) == fs[k]
    ensures ProductPiece(SymbolicFactors(fs)) == fs[..k] + fs[k + 1..]
  {
    OnlyConstant(fs, k);
    OneConstant(fs, k);
    ConstantFactorFirst(fs, k);
    var rest := fs[..k] + fs[k + 1..];
    RemoveOne(fs, k);
    ProductOfSimplified(rest);
  }

  lemma RoundWithPiece(fs: seq<Expr>, k: nat, p: Expr)
    requires Canon(Mult(fs)) && k < |fs| && fs[k].Const?
    requires ProductPiece(p) == fs[..k] + fs[k + 1..]
    ensures Round([fs[k], p]) == Round(fs)
  {
    PairFlattened(fs[k], p);
    assert NoProductFactor(fs);
    FlattenedFlat(fs);
    MultisetMoveToFront(fs, k);
    RoundFlatPerm([fs[k], p], fs);
  }

  lemma RebuildWithoutConstant(fs: seq<Expr>)
    requires Canon(Mult(fs)) && forall k :: 0 <= k < |fs| ==> !fs[k].Const?
    requires |NonConstants(fs)| > 0
    ensures Product([ConstantFactor(fs), SymbolicFactors(fs)]) == Mult(fs)
  {
    ConstantFreeParts(fs);
    OneTimesProduct(fs);
  }

  lemma ConstantFreeParts(fs: seq<Expr>)
    requires Canon(Mult(fs)) && forall k :: 0 <= k < |fs| ==> !fs[k].Const?
    requires |NonConstants(fs)| > 0
    ensures ConstantFactor(fs) == Const(1) && SymbolicFactors(fs) == Mult(fs)
  {
    NoConstants(fs);
    ConstantFactorNone(fs);
    ProductOfCanonical(fs);
  }

  lemma OneTimesProduct(fs: seq<Expr>)
    requires Canon(Mult(fs))
    ensures Product([Const(1), Mult(fs)]) == Mult(fs)
  {
    RoundWithOne(fs);
    ProductOne(fs);
    AllCanonPair(Const(1), Mult(fs));
    ProductByRound([Const(1), Mult(fs)], fs + [Const(1)]);
    ProductOfCanonical(fs);
  }

  lemma RoundWithOne(fs: seq<Expr>)
    requires Canon(Mult(fs))
    ensures Round([Const(1), Mult(fs)]) == Round(fs + [Const(1)])
  {
    var c := Const(1);
    PairFlattened(c, Mult(fs));
    FlattenedFlat(fs);
    ConcatMapAppend(fs, [c], ProductPiece);
    ConcatMapSingle(c, ProductPiece);
    assert multiset(Flattened([c, Mult(fs)])) == multiset(Flattened(fs + [c]));
    RoundFlatPerm([c, Mult(fs)], fs + [c]);
  }

  // ---------------------------------------------------------------------
  // The helper loops
  // ---------------------------------------------------------------------

  /** Mult.withoutNesting. */
  method WithoutNesting(fs: seq<Expr>) returns (out: seq<Expr>)
    ensures out == Flattened(fs)
  {
    out := [];
    var i := 0;
    while i < |fs|
      invariant 0 <= i <= |fs|
      invariant out == Flattened(fs[..i])
    {
      assert fs[..i + 1][..i] == fs[..i];
      if fs[i].Mult? {
        out := out + fs[i].factors;
      } else {
        out := out + [fs[i]];
      }
      i := i + 1;
    }
    assert fs[..|fs|] == fs;
  }

  /** Mult.simplifyConstantFactors. */
  method SimplifyConstantFactors(fs: seq<Expr>) returns (out: seq<Expr>)
    ensures out == ConstantsFolded(fs)
  {
    var noConstants: seq<Expr> := [];
    var constants := 1;
    var i := 0;
    while i < |fs|
      invariant 0 <= i <= |fs|
      invariant noConstants == NonConstants(fs[..i])
      invariant constants == Prod(ConstValues(fs[..i]))
    {
      assert fs[..i + 1][..i] == fs[..i];
      ProdAppend(ConstValues(fs[..i]), ConstPiece(fs[i]));
      if fs[i].Const? {
        ProdSingle(fs[i].val);
        constants := constants * fs[i].val;
      } else {
        noConstants := noConstants + [fs[i]];
      }
      i := i + 1;
    }
    assert fs[..|fs|] == fs;
    if constants == 1 && |noConstants| == 0 {
      out := [Const(1)];
    } else if constants == 0 {
      out := [Const(0)];
    } else if constants != 1 {
      out := noConstants + [Const(constants)];
    } else {
      out := noConstants;
    }
  }

  /** How the bases and exponent lists of a prefix grow by one factor. */
  lemma PrefixStep(fs: seq<Expr>, i: nat)
    requires i < |fs|
    ensures BaseList(fs[..i + 1]) == InsertBase(Base(fs[i]), BaseList(fs[..i]))
    ensures forall x :: HasBase(fs[..i + 1], x) <==> HasBase(fs[..i], x) || x == Base(fs[i])
    ensures forall x ::
      ExpsOf(fs[..i + 1], x) == ExpsOf(fs[..i], x) + (if Base(fs[i]) == x then [Exponent(fs[i])] else [])
  {
    var p := fs[..i + 1];
    assert p[..i] == fs[..i] && p[i] == fs[i];
    HasBaseSnoc(p);
  }

  /** The exponent map of simplifyFactors after reading the factors fs: its
      keys are their bases, and each key maps to that base's exponents. */
  ghost predicate ExponentMap(m: map<Expr, seq<Expr>>, fs: seq<Expr>)
  {
    && (forall b :: b in m <==> HasBase(fs, b))
    && (forall b :: b in m ==> m[b] == ExpsOf(fs, b))
  }

  lemma ExponentMapEmpty(fs: seq<Expr>)
    ensures ExponentMap(map[], fs[..0])
  {
  }

  lemma PrefixBaseList(fs: seq<Expr>, i: nat)
    requires i < |fs|
    ensures BaseList(fs[..i + 1]) == InsertBase(Base(fs[i]), BaseList(fs[..i]))
  {
    PrefixStep(fs, i);
  }

  lemma ExponentMapStep(m: map<Expr, seq<Expr>>, fs: seq<Expr>, i: nat)
    requires i < |fs| && ExponentMap(m, fs[..i])
    ensures Base(fs[i]) in m ==>
      ExponentMap(m[Base(fs[i]) := m[Base(fs[i])] + [Exponent(fs[i])]], fs[..i + 1])
    ensures Base(fs[i]) !in m ==>
      ExponentMap(m[Base(fs[i]) := [Exponent(fs[i])]], fs[..i + 1])
  {
    if Base(fs[i]) in m {
      ExponentMapExtend(m, fs, i);
    } else {
      ExponentMapAdd(m, fs, i);
    }
  }

  lemma ExponentMapExtend(m: map<Expr, seq<Expr>>, fs: seq<Expr>, i: nat)
    requires i < |fs| && ExponentMap(m, fs[..i]) && Base(fs[i]) in m
    ensures ExponentMap(m[Base(fs[i]) := m[Base(fs[i])] + [Exponent(fs[i])]], fs[..i + 1])
  {
    var b, e := Base(fs[i]), Exponent(fs[i]);
    var m' := m[b := m[b] + [e]];
    forall x | x in m' ensures m'[x] == ExpsOf(fs[..i], x) + (if b == x then [e] else []) {
      if x == b {
        assert m'[x] == m[b] + [e];
      } else {
        assert m'[x] == m[x];
      }
    }
    ExponentMapUpdate(m, m', fs, i);
  }

  lemma ExponentMapAdd(m: map<Expr, seq<Expr>>, fs: seq<Expr>, i: nat)
    requires i < |fs| && ExponentMap(m, fs[..i]) && Base(fs[i]) !in m
    ensures ExponentMap(m[Base(fs[i]) := [Exponent(fs[i])]], fs[..i + 1])
  {
    var b, e := Base(fs[i]), Exponent(fs[i]);
    ExpsOfAbsent(fs[..i], b);
    var m' := m[b := [e]];
    forall x | x in m' ensures m'[x] == ExpsOf(fs[..i], x) + (if b == x then [e] else []) {
      if x == b {
        assert m'[x] == [] + [e];
      } else {
        assert m'[x] == m[x];
      }
    }
    ExponentMapUpdate(m, m', fs, i);
  }

  lemma ExponentMapUpdate(m: map<Expr, seq<Expr>>, m': map<Expr, seq<Expr>>, fs: seq<Expr>, i: nat)
    requires i < |fs| && ExponentMap(m, fs[..i])
    requires forall x :: x in m' <==> x in m || x == Base(fs[i])
    requires forall x :: x in m' ==> m'[x] == ExpsOf(fs[..i], x) + (if Base(fs[i]) == x then [Exponent(fs[i])] else [])
    ensures ExponentMap(m', fs[..i + 1])
  {
    PrefixStep(fs, i);
  }

  /** The j-th grouped factor is built from the j-th base in the order. */
  lemma GroupedAt(fs: seq<Expr>, j: nat)
    requires j < |BaseList(fs)|
    ensures |FactorsGrouped(fs)| == |BaseList(fs)|
    ensures FactorsGrouped(fs)[j] == PowerAtom(BaseList(fs)[j], Sum(ExpsOf(fs, BaseList(fs)[j])))
  {
  }

  lemma GroupedStep(fs: seq<Expr>, m: map<Expr, seq<Expr>>, keys: seq<Expr>, j: nat, out: seq<Expr>)
    requires ExponentMap(m, fs) && keys == BaseList(fs) && j < |keys|
    requires out == FactorsGrouped(fs)[..j]
    ensures keys[j] in m
    ensures out + [PowerAtom(keys[j], Sum(m[keys[j]]))] == FactorsGrouped(fs)[..j + 1]
  {
    BaseListSpec(fs);
    assert keys[j] in keys;
    GroupedAt(fs, j);
    PrefixExtend(FactorsGrouped(fs), j);
  }

  /** Mult.simplifyFactors: collect each base's exponents in a map, then
      raise each base, in canonical order, to the sum of its exponents. */
  method SimplifyFactors(fs: seq<Expr>) returns (out: seq<Expr>)
    ensures out == FactorsGrouped(fs)
  {
    var powerMap: map<Expr, seq<Expr>> := map[];
    var keys: seq<Expr> := [];
    var i := 0;
    ExponentMapEmpty(fs);
    while i < |fs|
      invariant 0 <= i <= |fs|
      invariant keys == BaseList(fs[..i])
      invariant ExponentMap(powerMap, fs[..i])
    {
      var fac := fs[i];
      var b := Base(fac);
      PrefixBaseList(fs, i);
      ExponentMapStep(powerMap, fs, i);
      if b in powerMap {
        powerMap := powerMap[b := powerMap[b] + [Exponent(fac)]];
      } else {
        powerMap := powerMap[b := [Exponent(fac)]];
      }
      assert ExponentMap(powerMap, fs[..i + 1]);
      keys := InsertBase(b, keys);
      i := i + 1;
    }
    assert fs[..|fs|] == fs;
    out := [];
    var j := 0;
    while j < |keys|
      invariant 0 <= j <= |keys|
      invariant out == FactorsGrouped(fs)[..j]
    {
      GroupedStep(fs, powerMap, keys, j, out);
      out := out + [PowerAtom(keys[j], Sum(powerMap[keys[j]]))];
      j := j + 1;
    }
    assert |keys| == |FactorsGrouped(fs)|;
  }

  lemma BasesStep(fs: seq<Expr>, i: nat, bases: set<Expr>)
    requires i < |fs| && bases == set k | 0 <= k < i :: Base(fs[k])
    ensures bases + {Base(fs[i])} == set k | 0 <= k < i + 1 :: Base(fs[k])
  {
  }

  lemma OrderedStep(fs: seq<Expr>, i: nat)
    requires i < |fs|
    requires forall k, l :: 0 <= k < l < i ==> ExprLess(Base(fs[k]), Base(fs[l]))
    requires i > 0 ==> ExprLess(Base(fs[i - 1]), Base(fs[i]))
    ensures forall k, l :: 0 <= k < l < i + 1 ==> ExprLess(Base(fs[k]), Base(fs[l]))
  {
    forall k | 0 <= k < i - 1 ensures ExprLess(Base(fs[k]), Base(fs[i])) {
      ExprLessTransitive(Base(fs[k]), Base(fs[i - 1]), Base(fs[i]));
    }
  }

  /** Mult.isSimplified, with the order check that makes simplified lists
      unique: one pass that counts constants and remembers the bases seen. */
  method IsSimplified(fs: seq<Expr>) returns (ok: bool)
    ensures ok == Simplified(fs)
  {
    var conCount := 0;
    var bases: set<Expr> := {};
    var i := 0;
    while i < |fs|
      invariant 0 <= i <= |fs|
      invariant conCount <= 1
      invariant conCount == 1 <==> exists k :: 0 <= k < i && fs[k].Const?
      invariant forall k, l :: 0 <= k < l < i ==> !(fs[k].Const? && fs[l].Const?)
      invariant |fs| > 1 ==> forall k :: 0 <= k < i ==> fs[k] != Const(1) && fs[k] != Const(0)
      invariant forall k :: 0 <= k < i ==> !fs[k].Mult?
      invariant bases == set k | 0 <= k < i :: Base(fs[k])
      invariant forall k, l :: 0 <= k < l < i ==> ExprLess(Base(fs[k]), Base(fs[l]))
    {
      var fac := fs[i];
      if fac.Const? {
        conCount := conCount + 1;
      }
      if conCount > 1 {
        var k :| 0 <= k < i && fs[k].Const?;
        assert !AtMostOneConstant(fs) by {
          assert fs[k].Const? && fs[i].Const?;
        }
        return false;
      }
      if (fac == Const(1) && |fs| > 1) || (fac == Const(0) && |fs| > 1) || fac.Mult? {
        return false;
      }
      if Base(fac) in bases {
        var k :| 0 <= k < i && Base(fs[k]) == Base(fac);
        assert !DistinctBases(fs) by {
          assert Base(fs[k]) == Base(fs[i]);
        }
        return false;
      }
      if i > 0 && !ExprLess(Base(fs[i - 1]), Base(fac)) {
        return false;
      }
      OrderedStep(fs, i);
      BasesStep(fs, i, bases);
      bases := bases + {Base(fac)};
      i := i + 1;
    }
    forall k, l | 0 <= k < l < |fs| ensures Base(fs[k]) != Base(fs[l]) {
      ExprLessIrreflexive(Base(fs[k]));
    }
    return true;
  }
}
