/** Which variables occur in an expression, and the fact that no smart
    constructor introduces one: whatever variable is absent from the
    arguments of mult, power, the sum and the logarithm is absent from what
    they build. Substitution relies on this to remove every occurrence. */
module Occurrence {
  import opened Seqs
  import opened Expressions
  import opened NormalForm
  import opened Sums
  import opened Logs
  import opened PowerAtoms
  import opened ProductSteps
  import opened Products
  import opened Powers

  /** Whether the variable named n occurs in e. */
  predicate Occurs(e: Expr, n: string)
    decreases e
  {
    match e
    case Const(_) => false
    case Var(m) => m == n
    case Mult(fs) => exists i :: 0 <= i < |fs| && Occurs(fs[i], n)
    case Pow(b, x) => Occurs(b, n) || Occurs(x, n)
    case Add(ts) => exists i :: 0 <= i < |ts| && Occurs(ts[i], n)
    case Ln(a) => Occurs(a, n)
  }

  /** The variable named n occurs in no element of es. */
  predicate NoneOccurs(es: seq<Expr>, n: string)
  {
    forall y :: y in es ==> !Occurs(y, n)
  }

  /** A list built from free elements and constants is free. */
  lemma ChildrenFree(es: seq<Expr>, n: string)
    requires NoneOccurs(es, n)
    ensures !Occurs(Mult(es), n) && !Occurs(Add(es), n)
  {
    assert forall i :: 0 <= i < |es| ==> es[i] in es;
  }

  lemma FactorFree(f: Expr, y: Expr, n: string)
    requires !Occurs(f, n) && (y in ProductPiece(f) || y in SumPiece(f))
    ensures !Occurs(y, n)
  {
    if f.Mult? && y in f.factors {
      var k :| 0 <= k < |f.factors| && f.factors[k] == y;
    } else if f.Add? && y in f.terms {
      var k :| 0 <= k < |f.terms| && f.terms[k] == y;
    }
  }

  /** Base and exponent of a free factor are free. */
  lemma ViewFree(f: Expr, n: string)
    requires !Occurs(f, n)
    ensures !Occurs(Base(f), n) && !Occurs(Exponent(f), n)
  {
  }

  // ---------------------------------------------------------------------
  // The passes of simplify
  // ---------------------------------------------------------------------

  lemma FlattenedFree(fs: seq<Expr>, n: string)
    requires NoneOccurs(fs, n)
    ensures NoneOccurs(Flattened(fs), n)
  {
    forall y | y in Flattened(fs) ensures !Occurs(y, n) {
      ConcatMapMember(fs, ProductPiece, y);
      var i :| 0 <= i < |fs| && y in ProductPiece(fs[i]);
      assert fs[i] in fs;
      FactorFree(fs[i], y, n);
    }
  }

  lemma FoldedFree(fs: seq<Expr>, n: string)
    requires NoneOccurs(fs, n)
    ensures NoneOccurs(ConstantsFolded(fs), n)
  {
    NonConstantsMembers(fs);
    FoldMembers(Prod(ConstValues(fs)), NonConstants(fs));
  }

  /** The exponents collected for a base come from free factors. */
  lemma ExpsOfFree(fs: seq<Expr>, b: Expr, n: string)
    requires NoneOccurs(fs, n)
    ensures NoneOccurs(ExpsOf(fs, b), n)
  {
    forall y | y in ExpsOf(fs, b) ensures !Occurs(y, n) {
      ConcatMapMember(fs, ExpPiece(b), y);
      var i :| 0 <= i < |fs| && y in ExpPiece(b)(fs[i]);
      assert fs[i] in fs;
      ExpPieceFree(fs[i], b, y, n);
    }
  }

  lemma ExpPieceFree(f: Expr, b: Expr, y: Expr, n: string)
    requires !Occurs(f, n) && y in ExpPiece(b)(f)
    ensures !Occurs(y, n)
  {
    ViewFree(f, n);
  }

  /** Every base in the base list is the base of a free factor. */
  lemma BaseListFree(fs: seq<Expr>, n: string)
    requires NoneOccurs(fs, n)
    ensures NoneOccurs(BaseList(fs), n)
  {
    BaseListSpec(fs);
    forall b | b in BaseList(fs) ensures !Occurs(b, n) {
      var i :| 0 <= i < |fs| && Base(fs[i]) == b;
      assert fs[i] in fs;
      ViewFree(fs[i], n);
    }
  }

  lemma PowerAtomFree(b: Expr, x: Expr, n: string)
    requires !Occurs(b, n) && !Occurs(x, n)
    ensures !Occurs(PowerAtom(b, x), n)
  {
  }

  lemma GroupedFree(fs: seq<Expr>, n: string)
    requires NoneOccurs(fs, n)
    ensures NoneOccurs(FactorsGrouped(fs), n)
  {
    var bs := BaseList(fs);
    BaseListFree(fs, n);
    forall j | 0 <= j < |bs| ensures !Occurs(FactorsGrouped(fs)[j], n) {
      assert bs[j] in bs;
      ExpsOfFree(fs, bs[j], n);
      SumFree(ExpsOf(fs, bs[j]), n);
      PowerAtomFree(bs[j], Sum(ExpsOf(fs, bs[j])), n);
    }
  }

  lemma RoundFree(fs: seq<Expr>, n: string)
    requires NoneOccurs(fs, n)
    ensures NoneOccurs(Round(fs), n)
  {
    FlattenedFree(fs, n);
    FoldedFree(Flattened(fs), n);
    GroupedFree(ConstantsFolded(Flattened(fs)), n);
  }

  /** simplify keeps a variable out of the factors, round after round. */
  lemma {:induction false} SimplifyFree(fs: seq<Expr>, n: string)
    requires |fs| > 0 && AllCanon(fs) && NoneOccurs(fs, n)
    ensures NoneOccurs(Simplify(fs), n)
    decreases if NoProductFactor(fs) then 0 else 1, 2 * |fs| + (if Simplified(fs) then 0 else 1)
  {
    if !Simplified(fs) {
      RoundShape(fs);
      RoundDecreases(fs);
      RoundFree(fs, n);
      SimplifyFree(Round(fs), n);
    }
  }

  // ---------------------------------------------------------------------
  // The constructors
  // ---------------------------------------------------------------------

  /** mult adds no variable. */
  lemma ProductFree(fs: seq<Expr>, n: string)
    requires |fs| > 0 && AllCanon(fs) && NoneOccurs(fs, n)
    ensures !Occurs(Product(fs), n)
  {
    var s := Simplify(fs);
    SimplifyFree(fs, n);
    assert s[0] in s;
    ChildrenFree(s, n);
  }

  /** The sum adds no variable. */
  lemma SumFree(ts: seq<Expr>, n: string)
    requires NoneOccurs(ts, n)
    ensures !Occurs(Sum(ts), n)
  {
    var flat := FlattenSum(ts);
    forall y | y in flat ensures !Occurs(y, n) {
      ConcatMapMember(ts, SumPiece, y);
      var i :| 0 <= i < |ts| && y in SumPiece(ts[i]);
      assert ts[i] in ts;
      FactorFree(ts[i], y, n);
    }
    NonConstantsMembers(flat);
    var sorted := Sort(NonConstants(flat));
    SortIsPerm(NonConstants(flat));
    forall y | y in sorted ensures !Occurs(y, n) {
      assert y in multiset(sorted);
    }
    var s := SumTerms(ts);
    assert NoneOccurs(s, n);
    if |s| == 1 {
      assert s[0] in s;
    } else {
      ChildrenFree(s, n);
    }
  }

  /** The logarithm adds no variable. */
  lemma NaturalLogFree(a: Expr, n: string)
    requires !Occurs(a, n)
    ensures !Occurs(NaturalLog(a), n)
  {
  }

  /** power adds no variable. */
  lemma {:induction false} PowerFree(b: Expr, x: Expr, n: string)
    requires Canon(b) && Canon(x) && !Occurs(b, n) && !Occurs(x, n)
    ensures !Occurs(Power(b, x), n)
    decreases b
  {
    if x == Const(1) || x == Const(0) || (b.Const? && x.Const?) {
    } else if b.Mult? {
      var raised := RaisedFactors(b.factors, x);
      forall i | 0 <= i < |b.factors| ensures !Occurs(raised[i], n) {
        PowerFree(b.factors[i], x, n);
      }
      assert forall y :: y in raised ==> exists i :: 0 <= i < |raised| && raised[i] == y;
      ProductFree(raised, n);
      PowerOfProduct(b, x);
    } else if b.Pow? {
      AllCanonPair(x, b.exponent);
      ProductFree([x, b.exponent], n);
      PowerFree(b.base, Product([x, b.exponent]), n);
      PowerOfPower(b, x);
    }
  }
}
