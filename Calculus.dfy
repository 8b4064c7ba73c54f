/** Differentiation and substitution over every variant. Each rule
    rebuilds its result through the smart constructors, so results are
    canonical again. The product rule (Mult.differentiate) and the general
    rule for f ^ g (Power.differentiate) follow the source; the sum and
    logarithm rules stand in for classes that are not part of this model. */
module Calculus {
  import opened Seqs
  import opened Expressions
  import opened NormalForm
  import opened Sums
  import opened Logs
  import opened PowerAtoms
  import opened ProductSteps
  import opened Products
  import opened Powers
  import opened Occurrence

  /** The factors after the first of a canonical product, multiplied again,
      are a smaller canonical expression: the lone factor or a product. */
  lemma {:induction false} RestProduct(fs: seq<Expr>)
    requires Canon(Mult(fs))
    ensures |fs[1..]| > 0 && AllCanon(fs[1..])
    ensures Product(fs[1..]) == if |fs| == 2 then fs[1] else Mult(fs[1..])
    ensures Size(Product(fs[1..])) < Size(Mult(fs))
  {
    var rest := fs[1..];
    assert forall i :: 0 <= i < |rest| ==> rest[i] == fs[i + 1];
    assert Simplified(rest);
    ProductOfSimplified(rest);
    assert Sizes(fs) == Size(fs[0]) + Sizes(rest);
    if |fs| == 2 {
      assert rest[1..] == [];
      assert Sizes(rest) == Size(rest[0]) + Sizes(rest[1..]);
    }
  }

  /** d e / d v. */
  function Differentiate(e: Expr, v: Variable): (r: Expr)
    requires Canon(e)
    ensures Canon(r)
    decreases Size(e), 2
  {
    match e
    case Const(_) => Const(0)
    case Var(_) => if e == v then Const(1) else Const(0)
    case Mult(fs) => DiffProduct(fs, v)
    case Pow(b, x) => DiffPower(b, x, v)
    case Add(ts) => Sum(DiffTerms(ts, v))
    case Ln(a) => Product([Differentiate(a, v), Power(a, Const(-1))])
  }

  /** Mult.differentiate: with f the first factor and rest the product of
      the others, f * d(rest) + d(f) * rest. */
  function DiffProduct(fs: seq<Expr>, v: Variable): (r: Expr)
    requires Canon(Mult(fs))
    ensures Canon(r)
    decreases Size(Mult(fs)), 1
  {
    RestProduct(fs);
    var first, rest := fs[0], Product(fs[1..]);
    Sum([Product([first, Differentiate(rest, v)]), Product([Differentiate(first, v), rest])])
  }

  /** Power.differentiate: d(f ^ g) = f ^ g * (g' * ln f + g * f' * f ^ -1). */
  function DiffPower(b: Expr, x: Expr, v: Variable): (r: Expr)
    requires Canon(Pow(b, x))
    ensures Canon(r)
    decreases Size(Pow(b, x)), 1
  {
    PowerChainRule(b, x, Differentiate(b, v), Differentiate(x, v))
  }

  /** The general rule's formula for f ^ g, given f' = db and g' = dx. */
  function PowerChainRule(b: Expr, x: Expr, db: Expr, dx: Expr): (r: Expr)
    requires Canon(b) && Canon(x) && Canon(db) && Canon(dx)
    ensures Canon(r)
  {
    var inverse := Power(b, Const(-1));
    AllCanonPair(dx, NaturalLog(b));
    AllCanonTriple(x, db, inverse);
    var viaExponent, viaBase := Product([dx, NaturalLog(b)]), Product([x, db, inverse]);
    AllCanonPair(viaExponent, viaBase);
    var inner := Sum([viaExponent, viaBase]);
    AllCanonPair(Power(b, x), inner);
    Product([Power(b, x), inner])
  }

  /** The derivatives of the terms of a sum, in order. */
  function DiffTerms(ts: seq<Expr>, v: Variable): (r: seq<Expr>)
    requires AllCanon(ts)
    ensures |r| == |ts| && AllCanon(r)
    decreases Sizes(ts), 3
  {
    if |ts| == 0 then [] else [Differentiate(ts[0], v)] + DiffTerms(ts[1..], v)
  }

  /** e with input substituted for v. */
  function Evaluate(e: Expr, v: Variable, input: Expr): (r: Expr)
    requires Canon(e) && Canon(input)
    ensures Canon(r)
    decreases e
  {
    match e
    case Const(_) => e
    case Var(_) => if e == v then input else e
    case Mult(fs) =>
      Product(seq(|fs|, i requires 0 <= i < |fs| => Evaluate(fs[i], v, input)))
    case Pow(b, x) => Power(Evaluate(b, v, input), Evaluate(x, v, input))
    case Add(ts) =>
      Sum(seq(|ts|, i requires 0 <= i < |ts| => Evaluate(ts[i], v, input)))
    case Ln(a) => NaturalLog(Evaluate(a, v, input))
  }

  // ---------------------------------------------------------------------
  // The leaf rules
  // ---------------------------------------------------------------------

  /** A constant's derivative is 0 and substitution leaves it unchanged. */
  lemma ConstantRules(c: int, v: Variable, input: Expr)
    requires Canon(input)
    ensures Differentiate(Const(c), v) == Const(0)
    ensures Evaluate(Const(c), v, input) == Const(c)
  {
  }

  /** A variable's derivative is 1 with respect to itself and 0 otherwise;
      substitution replaces exactly the variable being substituted for. */
  lemma VariableRules(w: Variable, v: Variable, input: Expr)
    requires Canon(input)
    ensures Differentiate(w, v) == if w.name == v.name then Const(1) else Const(0)
    ensures Evaluate(w, v, input) == if w.name == v.name then input else w
  {
  }

  // ---------------------------------------------------------------------
  // Expressions free of the variable
  // ---------------------------------------------------------------------

  /** Substituting for a variable that does not occur, or substituting a
      variable for itself, changes nothing. */
  lemma {:induction false} EvaluateUnchanged(e: Expr, v: Variable, input: Expr)
    requires Canon(e) && Canon(input) && (!Occurs(e, v.name) || input == v)
    ensures Evaluate(e, v, input) == e
    decreases e
  {
    match e
    case Const(_) =>
    case Var(_) =>
    case Mult(fs) =>
      var ev := seq(|fs|, i requires 0 <= i < |fs| => Evaluate(fs[i], v, input));
      forall i | 0 <= i < |fs| ensures ev[i] == fs[i] {
        EvaluateUnchanged(fs[i], v, input);
      }
      assert ev == fs;
      ProductOfCanonical(fs);
    case Pow(b, x) =>
      EvaluateUnchanged(b, v, input);
      EvaluateUnchanged(x, v, input);
      PowerRebuild(e);
    case Add(ts) =>
      var ev := seq(|ts|, i requires 0 <= i < |ts| => Evaluate(ts[i], v, input));
      forall i | 0 <= i < |ts| ensures ev[i] == ts[i] {
        EvaluateUnchanged(ts[i], v, input);
      }
      assert ev == ts;
      SumOfCanonical(ts);
    case Ln(a) =>
      EvaluateUnchanged(a, v, input);
  }

  /** Substitution replaces every occurrence: once an input free of v is
      substituted for v, v no longer occurs. */
  lemma {:induction false} EvaluateEliminates(e: Expr, v: Variable, input: Expr)
    requires Canon(e) && Canon(input) && !Occurs(input, v.name)
    ensures !Occurs(Evaluate(e, v, input), v.name)
    decreases e
  {
    match e
    case Const(_) =>
    case Var(_) =>
    case Mult(fs) =>
      var ev := seq(|fs|, i requires 0 <= i < |fs| => Evaluate(fs[i], v, input));
      forall y | y in ev ensures !Occurs(y, v.name) {
        var i :| 0 <= i < |ev| && ev[i] == y;
        EvaluateEliminates(fs[i], v, input);
      }
      ProductFree(ev, v.name);
    case Pow(b, x) =>
      EvaluateEliminates(b, v, input);
      EvaluateEliminates(x, v, input);
      PowerFree(Evaluate(b, v, input), Evaluate(x, v, input), v.name);
    case Add(ts) =>
      var ev := seq(|ts|, i requires 0 <= i < |ts| => Evaluate(ts[i], v, input));
      forall y | y in ev ensures !Occurs(y, v.name) {
        var i :| 0 <= i < |ev| && ev[i] == y;
        EvaluateEliminates(ts[i], v, input);
      }
      SumFree(ev, v.name);
    case Ln(a) =>
      EvaluateEliminates(a, v, input);
      NaturalLogFree(Evaluate(a, v, input), v.name);
  }

  /** 0 * f and f * 0 are 0. */
  lemma ZeroTimes(f: Expr)
    requires Canon(f)
    ensures Product([Const(0), f]) == Const(0) && Product([f, Const(0)]) == Const(0)
  {
    ZeroLeft(f);
    ZeroRight(f);
  }

  lemma ZeroLeft(f: Expr)
    requires Canon(f)
    ensures Product([Const(0), f]) == Const(0)
  {
    AllCanonPair(Const(0), f);
    ZeroAt([Const(0), f], 0);
  }

  lemma ZeroRight(f: Expr)
    requires Canon(f)
    ensures Product([f, Const(0)]) == Const(0)
  {
    AllCanonPair(f, Const(0));
    ZeroAt([f, Const(0)], 1);
  }

  lemma ZeroAt(fs: seq<Expr>, k: nat)
    requires AllCanon(fs) && k < |fs| && fs[k] == Const(0)
    ensures Product(fs) == Const(0)
  {
    ProductZero(fs);
  }

  /** 0 + 0 is 0. */
  lemma ZeroPlusZero()
    ensures Sum([Const(0), Const(0)]) == Const(0)
  {
    assert [Const(0), Const(0)] == [Const(0)] + [Const(0)];
    SumZeroTerm([Const(0)]);
    SumSingleton(Const(0));
  }

  /** A sum of zeros is 0. */
  lemma {:induction false} SumOfZeros(ts: seq<Expr>)
    requires forall i :: 0 <= i < |ts| ==> ts[i] == Const(0)
    ensures Sum(ts) == Const(0)
    decreases |ts|
  {
    if |ts| == 0 {
      assert Sum(ts) == Sum([] + [Const(0)]) by { SumZeroTerm([]); }
      SumSingleton(Const(0));
    } else {
      var n := |ts| - 1;
      assert forall i :: 0 <= i < n ==> ts[..n][i] == ts[i];
      SumOfZeros(ts[..n]);
      assert ts == ts[..n] + [Const(0)];
      SumZeroTerm(ts[..n]);
    }
  }

  /** An expression in which the variable does not occur has derivative 0. */
  lemma {:induction false} DerivativeAbsent(e: Expr, v: Variable)
    requires Canon(e) && !Occurs(e, v.name)
    ensures Differentiate(e, v) == Const(0)
    decreases Size(e), 1
  {
    match e
    case Const(_) =>
    case Var(_) =>
    case Mult(fs) => DerivativeAbsentProduct(fs, v);
    case Pow(b, x) =>
      DerivativeAbsent(b, v);
      DerivativeAbsent(x, v);
      DerivativeAbsentPower(b, x, v);
    case Add(ts) =>
      var d := DiffTerms(ts, v);
      forall i | 0 <= i < |ts| ensures d[i] == Const(0) {
        SizesBound(ts, i);
        DiffTermsAt(ts, v, i);
        DerivativeAbsent(ts[i], v);
      }
      SumOfZeros(d);
    case Ln(a) =>
      DerivativeAbsent(a, v);
      ZeroTimes(Power(a, Const(-1)));
  }

  lemma DerivativeAbsentProduct(fs: seq<Expr>, v: Variable)
    requires Canon(Mult(fs)) && !Occurs(Mult(fs), v.name)
    ensures DiffProduct(fs, v) == Const(0)
    decreases Size(Mult(fs)), 0
  {
    RestProduct(fs);
    var rest := Product(fs[1..]);
    assert !Occurs(fs[0], v.name);
    assert !Occurs(rest, v.name) by {
      if |fs| == 2 {
        assert !Occurs(fs[1], v.name);
      } else {
        forall i | 0 <= i < |fs[1..]| ensures !Occurs(fs[1..][i], v.name) {
          assert fs[1..][i] == fs[i + 1];
        }
      }
    }
    DerivativeAbsent(fs[0], v);
    DerivativeAbsent(rest, v);
    ZeroTimes(fs[0]);
    ZeroTimes(rest);
    ZeroPlusZero();
  }

  lemma DerivativeAbsentPower(b: Expr, x: Expr, v: Variable)
    requires Canon(Pow(b, x))
    requires Differentiate(b, v) == Const(0) && Differentiate(x, v) == Const(0)
    ensures DiffPower(b, x, v) == Const(0)
  {
    ZeroRateOfChange(b, x);
  }

  /** The general rule's formula with both inner derivatives 0 is 0. */
  lemma ZeroRateOfChange(b: Expr, x: Expr)
    requires Canon(b) && Canon(x)
    ensures PowerChainRule(b, x, Const(0), Const(0)) == Const(0)
  {
    ZeroLeft(NaturalLog(b));
    AllCanonTriple(x, Const(0), Power(b, Const(-1)));
    ZeroAt([x, Const(0), Power(b, Const(-1))], 1);
    ZeroPlusZero();
    ZeroRight(Power(b, x));
  }

  lemma {:induction false} DiffTermsAt(ts: seq<Expr>, v: Variable, i: nat)
    requires AllCanon(ts) && i < |ts|
    ensures DiffTerms(ts, v)[i] == Differentiate(ts[i], v)
    decreases i
  {
    if i > 0 {
      assert AllCanon(ts[1..]) by {
        assert forall k :: 0 <= k < |ts| - 1 ==> ts[1..][k] == ts[k + 1];
      }
      DiffTermsAt(ts[1..], v, i - 1);
    }
  }

  lemma {:induction false} SizesBound(es: seq<Expr>, i: nat)
    requires i < |es|
    ensures Size(es[i]) <= Sizes(es)
    decreases i
  {
    if i > 0 {
      SizesBound(es[1..], i - 1);
    }
  }

  // ---------------------------------------------------------------------
  // The power rule for a variable raised to a constant
  // ---------------------------------------------------------------------

  /** n * v ^ -1, the second term of the general rule for v ^ n. */
  lemma CoefficientTimesReciprocal(v: Variable, n: int)
    requires n != 0 && n != 1
    ensures Product([Const(n), Const(1), Pow(v, Const(-1))]) == Mult([Const(n), Pow(v, Const(-1))])
  {
    var c, q := Const(n), Pow(v, Const(-1));
    OneMovedLast(c, q);
    AllCanonPair(c, q);
    ProductOne([c, q]);
    CoefficientFirst(v, n, q);
  }

  lemma OneMovedLast(c: Expr, q: Expr)
    requires Canon(c) && Canon(q)
    ensures Product([c, Const(1), q]) == Product([c, q] + [Const(1)])
  {
    AllCanonTriple(c, Const(1), q);
    SwapLastTwo(c, Const(1), q);
    ProductPermutation([c, Const(1), q], [c, q] + [Const(1)]);
  }

  /** A coefficient followed by a power of v is already simplified. */
  lemma CoefficientFirst(v: Variable, n: int, q: Expr)
    requires n != 0 && n != 1
    requires Canon(q) && !q.Const? && !q.Mult? && Base(q) == v
    ensures AllCanon([Const(n), q]) && Simplified([Const(n), q])
    ensures Product([Const(n), q]) == Mult([Const(n), q])
  {
    ConstantsFirst(Const(n), v);
    assert Simplified([Const(n), q]);
    ProductOfSimplified([Const(n), q]);
  }

  /** The factors of v ^ n * (n * v ^ -1) once spliced and folded. */
  lemma GatherFolded(v: Variable, n: int)
    requires n != 0 && n != 1
    ensures ConstantsFolded(Flattened([Pow(v, Const(n)), Mult([Const(n), Pow(v, Const(-1))])]))
      == [Pow(v, Const(n)), Pow(v, Const(-1)), Const(n)]
  {
    var p, c, q := Pow(v, Const(n)), Const(n), Pow(v, Const(-1));
    PairFlattened(p, Mult([c, q]));
    var flat := [p, c, q];
    assert Flattened([p, Mult([c, q])]) == flat;
    OneConstant(flat, 1);
    assert flat[..1] + flat[2..] == [p, q];
    ProdSingle(n);
  }

  /** The bases of v ^ n, v ^ -1, n in canonical order. */
  lemma GatherBases(v: Variable, n: int)
    ensures BaseList([Pow(v, Const(n)), Pow(v, Const(-1)), Const(n)]) == [Const(n), v]
  {
    var g := [Pow(v, Const(n)), Pow(v, Const(-1)), Const(n)];
    assert g[..2] == [Pow(v, Const(n)), Pow(v, Const(-1))];
    assert g[..2][..1] == [Pow(v, Const(n))];
    assert g[..2][..1][..0] == [];
    assert BaseList(g[..2][..1]) == [v];
    assert BaseList(g[..2]) == [v];
    ConstantsFirst(Const(n), v);
    assert BaseList(g) == InsertBase(Const(n), [v]);
  }

  lemma CoefficientExponents(v: Variable, n: int)
    ensures ExpsOf([Pow(v, Const(n)), Pow(v, Const(-1)), Const(n)], Const(n)) == [Const(1)]
  {
    var p, q, c := Pow(v, Const(n)), Pow(v, Const(-1)), Const(n);
    ConcatMapThree(p, q, c, ExpPiece(c));
    assert ExpPiece(c)(p) == [] && ExpPiece(c)(q) == [] && ExpPiece(c)(c) == [Const(1)];
  }

  lemma VariableExponents(v: Variable, n: int)
    ensures ExpsOf([Pow(v, Const(n)), Pow(v, Const(-1)), Const(n)], v) == [Const(n), Const(-1)]
  {
    var p, q, c := Pow(v, Const(n)), Pow(v, Const(-1)), Const(n);
    ExpsOfThree(p, q, c, v);
    assert ExpPiece(v)(p) == [Const(n)];
    assert ExpPiece(v)(q) == [Const(-1)];
    assert ExpPiece(v)(c) == [];
  }

  lemma ExpsOfThree(p: Expr, q: Expr, c: Expr, b: Expr)
    ensures ExpsOf([p, q, c], b) == ExpPiece(b)(p) + ExpPiece(b)(q) + ExpPiece(b)(c)
  {
    ConcatMapThree(p, q, c, ExpPiece(b));
  }

  /** One round turns v ^ n, n * v ^ -1 into n, v ^ (n - 1). */
  lemma GatherRound(v: Variable, n: int)
    requires n != 0 && n != 1
    ensures Round([Pow(v, Const(n)), Mult([Const(n), Pow(v, Const(-1))])])
      == [Const(n), PowerAtom(v, Const(n - 1))]
  {
    GatherFolded(v, n);
    GatherGrouped(v, n);
  }

  lemma GatherGrouped(v: Variable, n: int)
    ensures FactorsGrouped([Pow(v, Const(n)), Pow(v, Const(-1)), Const(n)])
      == [Const(n), PowerAtom(v, Const(n - 1))]
  {
    GroupedCoefficient(v, n);
    GroupedVariable(v, n);
    PairElements(FactorsGrouped([Pow(v, Const(n)), Pow(v, Const(-1)), Const(n)]));
  }

  lemma GroupedCoefficient(v: Variable, n: int)
    ensures |FactorsGrouped([Pow(v, Const(n)), Pow(v, Const(-1)), Const(n)])| == 2
    ensures FactorsGrouped([Pow(v, Const(n)), Pow(v, Const(-1)), Const(n)])[0] == Const(n)
  {
    var g := [Pow(v, Const(n)), Pow(v, Const(-1)), Const(n)];
    GatherBases(v, n);
    GroupedAt(g, 0);
    CoefficientExponents(v, n);
    SumSingleton(Const(1));
  }

  lemma GroupedVariable(v: Variable, n: int)
    ensures |FactorsGrouped([Pow(v, Const(n)), Pow(v, Const(-1)), Const(n)])| == 2
    ensures FactorsGrouped([Pow(v, Const(n)), Pow(v, Const(-1)), Const(n)])[1] == PowerAtom(v, Const(n - 1))
  {
    var g := [Pow(v, Const(n)), Pow(v, Const(-1)), Const(n)];
    GatherBases(v, n);
    GroupedAt(g, 1);
    VariableExponents(v, n);
    SumOfTwoConstants(n, -1);
  }

  /** v ^ n * (n * v ^ -1) regroups into n * v ^ (n - 1). */
  lemma Gather(v: Variable, n: int)
    requires n != 0 && n != 1
    ensures Canon(Mult([Const(n), Pow(v, Const(-1))]))
    ensures Product([Pow(v, Const(n)), Mult([Const(n), Pow(v, Const(-1))])])
      == Mult([Const(n), PowerAtom(v, Const(n - 1))])
  {
    var p, m := Pow(v, Const(n)), Mult([Const(n), Pow(v, Const(-1))]);
    ReciprocalTerm(v, n);
    AllCanonPair(p, m);
    GatherRound(v, n);
    var r := PowerAtom(v, Const(n - 1));
    VarAtom(v, n - 1);
    RoundThenProduct([p, m], [Const(n), r]);
    CoefficientFirst(v, n, r);
  }

  /** v raised to a non-zero constant is a canonical power of v. */
  lemma VarAtom(v: Variable, m: int)
    requires m != 0
    ensures Canon(PowerAtom(v, Const(m)))
    ensures !PowerAtom(v, Const(m)).Const? && !PowerAtom(v, Const(m)).Mult?
    ensures Base(PowerAtom(v, Const(m))) == v
  {
  }

  lemma ReciprocalTerm(v: Variable, n: int)
    requires n != 0 && n != 1
    ensures Canon(Mult([Const(n), Pow(v, Const(-1))]))
  {
    CoefficientFirst(v, n, Pow(v, Const(-1)));
  }

  lemma RoundThenProduct(fs: seq<Expr>, r: seq<Expr>)
    requires |fs| > 0 && AllCanon(fs) && Round(fs) == r
    ensures |r| > 0 && AllCanon(r) && Product(fs) == Product(r)
  {
    ProductRound(fs);
  }

  /** The general rule applied to v ^ n: d(v) = 1 and d(n) = 0. */
  lemma PowerRuleParts(v: Variable, n: int)
    requires n != 0 && n != 1
    ensures Canon(Pow(v, Const(n)))
    ensures DiffPower(v, Const(n), v) == PowerChainRule(v, Const(n), Const(1), Const(0))
  {
  }

  /** d(v ^ n) / dv = n * v ^ (n - 1) for every constant exponent n other
      than 0 and 1 (those two never stand as exponents of a power node). */
  lemma PowerRule(v: Variable, n: int)
    requires n != 0 && n != 1
    ensures Canon(Pow(v, Const(n)))
    ensures Differentiate(Pow(v, Const(n)), v) == Product([Const(n), Power(v, Const(n - 1))])
  {
    PowerRuleParts(v, n);
    PowerRuleFormula(v, n);
  }

  /** The power rule over poly, for every integer exponent: the exponents 0
      and 1 go to the leaf rules, every other one to a power node. */
  lemma PolyRule(v: Variable, n: int)
    ensures Differentiate(Poly(v, n), v) == Product([Const(n), Poly(v, n - 1)])
  {
    PolyTrivial(v, n);
    PolyTrivial(v, n - 1);
    if n == 0 {
      ConstantRules(1, v, v);
      ZeroLeft(Poly(v, -1));
    } else if n == 1 {
      VariableRules(v, v, v);
      ProductOfTwoConstants(1, 1);
    } else {
      PowerRule(v, n);
    }
  }

  /** The formula for v ^ n, with d(v) = 1 and d(n) = 0, regroups into
      n * v ^ (n - 1). */
  lemma PowerRuleFormula(v: Variable, n: int)
    requires n != 0 && n != 1
    ensures PowerChainRule(v, Const(n), Const(1), Const(0)) == Product([Const(n), Power(v, Const(n - 1))])
  {
    ChainInner(v, n);
    ChainOuter(v, n);
  }

  /** 0 * ln v + n * 1 * v ^ -1 is n * v ^ -1. */
  lemma ChainInner(v: Variable, n: int)
    requires n != 0 && n != 1
    ensures Canon(Mult([Const(n), Pow(v, Const(-1))]))
    ensures Sum([Product([Const(0), NaturalLog(v)]), Product([Const(n), Const(1), Power(v, Const(-1))])])
      == Mult([Const(n), Pow(v, Const(-1))])
  {
    assert Power(v, Const(-1)) == Pow(v, Const(-1));
    ReciprocalTerm(v, n);
    ZeroLeft(NaturalLog(v));
    CoefficientTimesReciprocal(v, n);
    ZeroPlus(Mult([Const(n), Pow(v, Const(-1))]));
  }

  /** v ^ n * (n * v ^ -1) is n * v ^ (n - 1). */
  lemma ChainOuter(v: Variable, n: int)
    requires n != 0 && n != 1
    ensures Canon(Mult([Const(n), Pow(v, Const(-1))]))
    ensures Product([Power(v, Const(n)), Mult([Const(n), Pow(v, Const(-1))])])
      == Product([Const(n), Power(v, Const(n - 1))])
  {
    assert Power(v, Const(n)) == Pow(v, Const(n));
    Gather(v, n);
    PowerOfAtom(v, Const(n - 1));
    VarAtom(v, n - 1);
    CoefficientFirst(v, n, PowerAtom(v, Const(n - 1)));
  }

  /** d(x ^ 2) / dx = 2 * x, and 2 * x is the product of 2 and x in either
      order. */
  lemma SquareDerivative()
    ensures Differentiate(Poly(Var("x"), 2), Var("x")) == Product([Const(2), Var("x")])
    ensures Product([Const(2), Var("x")]) == Product([Var("x"), Const(2)])
  {
    SquareIsPower();
    SquareRule();
    TwoTimesX();
  }

  lemma SquareIsPower()
    ensures Poly(Var("x"), 2) == Pow(Var("x"), Const(2))
  {
  }

  lemma SquareRule()
    ensures Canon(Pow(Var("x"), Const(2)))
    ensures Differentiate(Pow(Var("x"), Const(2)), Var("x")) == Product([Const(2), Var("x")])
  {
    PowerRule(Var("x"), 2);
    PowerOne(Var("x"));
  }

  lemma TwoTimesX()
    ensures Product([Const(2), Var("x")]) == Product([Var("x"), Const(2)])
  {
    assert multiset([Const(2), Var("x")]) == multiset([Var("x"), Const(2)]);
    ProductPermutation([Const(2), Var("x")], [Var("x"), Const(2)]);
  }

  // ---------------------------------------------------------------------
  // More consequences of the rules
  // ---------------------------------------------------------------------

  /** Substituting the constant a into v ^ n gives the constant a ^ n. */
  lemma EvaluatePowerAtConstant(v: Variable, n: nat, a: int)
    requires n >= 2
    ensures Canon(Pow(v, Const(n)))
    ensures Evaluate(Pow(v, Const(n)), v, Const(a)) == Const(IntPow(a, n))
  {
    PowerOfConstants(a, n);
  }

  /** The product rule on c * f leaves the constant in front:
      d(c * f) = c * d(f). */
  lemma ConstantMultipleRule(c: int, f: Expr, v: Variable)
    requires Canon(f) && Canon(Mult([Const(c), f]))
    ensures Differentiate(Mult([Const(c), f]), v) == Product([Const(c), Differentiate(f, v)])
  {
    TwoFactorRule(Const(c), f, v);
    ConstantRules(c, v, f);
    DropZeroProduct(c, Differentiate(f, v), f);
  }

  /** c * d + 0 * f is c * d. */
  lemma DropZeroProduct(c: int, d: Expr, f: Expr)
    requires Canon(d) && Canon(f)
    ensures Sum([Product([Const(c), d]), Product([Const(0), f])]) == Product([Const(c), d])
  {
    ZeroLeft(f);
    AllCanonPair(Const(c), d);
    PlusZero(Product([Const(c), d]));
  }

  /** t + 0 is t. */
  lemma PlusZero(t: Expr)
    requires Canon(t)
    ensures Sum([t, Const(0)]) == t
  {
    assert [t, Const(0)] == [t] + [Const(0)];
    SumZeroTerm([t]);
    SumSingleton(t);
  }

  /** The product rule on a product of two factors. */
  lemma TwoFactorRule(f: Expr, g: Expr, v: Variable)
    requires Canon(f) && Canon(g) && Canon(Mult([f, g]))
    ensures Differentiate(Mult([f, g]), v) ==
      Sum([Product([f, Differentiate(g, v)]), Product([Differentiate(f, v), g])])
  {
    var fs := [f, g];
    RestProduct(fs);
    assert fs[1..] == [g];
    ProductSingleton(g);
  }
}
