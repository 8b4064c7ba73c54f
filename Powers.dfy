/** The power constructor (Power.power) and the two shorthands built on it.
    The rules are tried in the source's order: exponent 1, exponent 0,
    constant to a constant, a product base distributed over its factors, a
    power base collapsed into one power, and otherwise a raw power node. */
module Powers {
  import opened Expressions
  import opened NormalForm
  import opened PowerAtoms
  import opened Products

  function Power(b: Expr, x: Expr): (r: Expr)
    requires Canon(b) && Canon(x)
    ensures Canon(r)
    ensures r.Pow? ==> RawPowerAllowed(r.base, r.exponent)
    decreases b
  {
    if x == Const(1) then b
    else if x == Const(0) then Const(1)
    else if b.Const? && x.Const? then
      if x.val >= 0 then Const(IntPow(b.val, x.val)) else Pow(b, x)
    else if b.Mult? then
      Product(seq(|b.factors|, i requires 0 <= i < |b.factors| => Power(b.factors[i], x)))
    else if b.Pow? then
      Power(b.base, Product([x, b.exponent]))
    else
      Pow(b, x)
  }

  /** Power.poly: a base raised to a constant. */
  function Poly(b: Expr, n: int): (r: Expr)
    requires Canon(b)
    ensures Canon(r)
  {
    Power(b, Const(n))
  }

  /** Power.exponential: a raw power node over a constant base, built without
      any of the rules. It is canonical unless the exponent is a non-negative
      constant, which the rules would have folded. */
  function Exponential(b: int, x: Expr): (r: Expr)
    ensures r.Pow?
    ensures Canon(x) && !(x.Const? && x.val >= 0) ==> Canon(r)
  {
    Pow(Const(b), x)
  }

  // ---------------------------------------------------------------------
  // The rules, one by one
  // ---------------------------------------------------------------------

  lemma PowerOne(b: Expr)
    requires Canon(b)
    ensures Power(b, Const(1)) == b
  {
  }

  lemma PowerZero(b: Expr)
    requires Canon(b)
    ensures Power(b, Const(0)) == Const(1)
  {
  }

  /** A constant to a non-negative constant is the integer power. */
  lemma PowerOfConstants(a: int, n: nat)
    ensures Power(Const(a), Const(n)) == Const(IntPow(a, n))
  {
    if n == 1 {
      assert IntPow(a, 1) == a * IntPow(a, 0);
    }
  }

  /** The raised factors of a product, in order. */
  function RaisedFactors(fs: seq<Expr>, x: Expr): (r: seq<Expr>)
    requires AllCanon(fs) && Canon(x)
    ensures |r| == |fs| && AllCanon(r)
    ensures forall i :: 0 <= i < |fs| ==> r[i] == Power(fs[i], x)
  {
    seq(|fs|, i requires 0 <= i < |fs| => Power(fs[i], x))
  }

  /** A product base is distributed: (f1 * ... * fn) ^ x is the product of
      the fi ^ x. */
  lemma PowerOfProduct(b: Expr, x: Expr)
    requires Canon(b) && Canon(x) && b.Mult?
    ensures Power(b, x) == Product(RaisedFactors(b.factors, x))
  {
    var raised := RaisedFactors(b.factors, x);
    if x == Const(1) {
      forall i | 0 <= i < |b.factors| ensures raised[i] == b.factors[i] {
        PowerOne(b.factors[i]);
      }
      assert raised == b.factors;
      ProductOfCanonical(b.factors);
    } else if x == Const(0) {
      forall i | 0 <= i < |raised| ensures raised[i] == Const(1) {
        PowerZero(b.factors[i]);
      }
      ProductOfOnes(raised);
    } else {
      assert raised ==
        seq(|b.factors|, i requires 0 <= i < |b.factors| => Power(b.factors[i], x));
    }
  }

  /** A power base is collapsed: (c ^ y) ^ x is c raised to x * y. */
  lemma PowerOfPower(b: Expr, x: Expr)
    requires Canon(b) && Canon(x) && b.Pow?
    ensures AllCanon([x, b.exponent])
    ensures Power(b, x) == Power(b.base, Product([x, b.exponent]))
  {
    AllCanonPair(x, b.exponent);
    if x == Const(1) {
      OneTimes(b.exponent);
      PowerRebuild(b);
    } else if x == Const(0) {
      ProductZero([x, b.exponent]);
    }
  }

  /** With constant exponents the collapse multiplies them:
      (v ^ a) ^ n is v ^ (n * a). */
  lemma PowerOfPowerConstant(v: Expr, a: int, n: int)
    requires Canon(Pow(v, Const(a)))
    ensures Power(Pow(v, Const(a)), Const(n)) == Power(v, Const(n * a))
  {
    if n == 1 {
      assert n * a == a;
    } else if n != 0 {
      ProductOfTwoConstants(n, a);
    }
  }

  /** On a base that is neither a product nor a power, the constructor is
      the atom rule the product canonicaliser applies when it groups by
      base. */
  lemma PowerOfAtom(b: Expr, x: Expr)
    requires Canon(b) && Canon(x) && !b.Mult? && !b.Pow?
    ensures Power(b, x) == PowerAtom(b, x)
  {
  }

  /** Every canonical expression is the power of its base and exponent. */
  lemma PowerRebuild(f: Expr)
    requires Canon(f)
    ensures Canon(Base(f)) && Canon(Exponent(f))
    ensures Power(Base(f), Exponent(f)) == f
  {
    if f.Pow? {
      AtomRebuild(f);
      PowerOfAtom(f.base, f.exponent);
    }
  }

  /** Power.poly with the trivial exponents. */
  lemma PolyTrivial(b: Expr, n: int)
    requires Canon(b)
    ensures n == 1 ==> Poly(b, n) == b
    ensures n == 0 ==> Poly(b, n) == Const(1)
  {
  }

  /** The accessors take Power.exponential apart again. */
  lemma ExponentialParts(b: int, x: Expr)
    ensures Base(Exponential(b, x)) == Const(b)
    ensures Exponential(b, x).Pow? && Exponent(Exponential(b, x)) == x
  {
  }

  /** Unlike the constructor, Power.exponential keeps a trivial exponent. */
  lemma ExponentialIsRaw()
    ensures Exponential(2, Const(1)) != Power(Const(2), Const(1))
    ensures !Canon(Exponential(2, Const(1)))
  {
    PowerOne(Const(2));
  }
}
