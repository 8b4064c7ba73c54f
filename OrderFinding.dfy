/** Mult.isSimplified as the source writes it: the four checks, without any
    order on the bases. The product constructor returns a list that passes
    the check as it stands, so two orders of the same factors give two
    different products, and their list comparison tells them apart. */
module OrderFinding {
  import opened Expressions
  import opened NormalForm
  import opened ProductSteps
  import opened Products

  /** At most one constant, no 1 or 0 beside other factors, no product
      factor, distinct bases; nothing about order. */
  predicate SimplifiedAsWritten(fs: seq<Expr>)
  {
    && AtMostOneConstant(fs)
    && NoIdentityFactor(fs)
    && NoProductFactor(fs)
    && DistinctBases(fs)
  }

  /** Mult.simplify stopping on the check as written. */
  function SimplifyAsWritten(fs: seq<Expr>): (r: seq<Expr>)
    requires |fs| > 0 && AllCanon(fs)
    ensures |r| > 0 && AllCanon(r) && SimplifiedAsWritten(r)
    decreases if NoProductFactor(fs) then 0 else 1, 2 * |fs| + (if SimplifiedAsWritten(fs) then 0 else 1)
  {
    if SimplifiedAsWritten(fs) then fs
    else
      RoundShape(fs);
      RoundDecreases(fs);
      SimplifyAsWritten(Round(fs))
  }

  /** Mult.mult over the check as written. */
  function ProductAsWritten(fs: seq<Expr>): (r: Expr)
    requires |fs| > 0 && AllCanon(fs)
    ensures r.Mult? ==> |r.factors| >= 2 && SimplifiedAsWritten(r.factors)
  {
    var s := SimplifyAsWritten(fs);
    if |s| == 1 then s[0] else Mult(s)
  }

  /** A list of two or more factors that passes the check as written is
      returned in the order it was given. */
  lemma AsWrittenKeepsOrder(fs: seq<Expr>)
    requires |fs| >= 2 && AllCanon(fs) && SimplifiedAsWritten(fs)
    ensures ProductAsWritten(fs) == Mult(fs)
  {
  }

  /** x * 2 and 2 * x are different products as written. */
  lemma AsWrittenOrderMatters()
    ensures ProductAsWritten([Var("x"), Const(2)]) != ProductAsWritten([Const(2), Var("x")])
  {
    var p, q := [Var("x"), Const(2)], [Const(2), Var("x")];
    assert SimplifiedAsWritten(p) && SimplifiedAsWritten(q);
    AsWrittenKeepsOrder(p);
    AsWrittenKeepsOrder(q);
    assert Mult(p) != Mult(q) by {
      assert p[0] != q[0];
    }
  }

  /** With the base order added to the check, x * 2 and 2 * x are the same
      product, with the constant first. */
  lemma OrderedProductsAgree()
    ensures Product([Var("x"), Const(2)]) == Product([Const(2), Var("x")])
    ensures Product([Const(2), Var("x")]) == Mult([Const(2), Var("x")])
  {
    var p, q := [Var("x"), Const(2)], [Const(2), Var("x")];
    assert multiset(p) == multiset(q);
    ProductPermutation(p, q);
    ConstantFirstProduct(2, "x");
  }

  lemma ConstantFirstProduct(c: int, n: string)
    requires c != 0 && c != 1
    ensures Product([Const(c), Var(n)]) == Mult([Const(c), Var(n)])
  {
    var q := [Const(c), Var(n)];
    ConstantsFirst(Const(c), Var(n));
    assert Base(q[0]) == Const(c) && Base(q[1]) == Var(n);
    assert OrderedByBase(q);
    assert Simplified(q);
    ProductOfSimplified(q);
  }
}
