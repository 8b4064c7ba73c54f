/** The constant variant: integer constants, the two identities, and the
    named constants (such as e), which are variable nodes. */
module Constants {
  import opened Seqs
  import opened Expressions
  import opened NormalForm
  import opened Products

  /** Constant.constant(Integer). */
  function Constant(v: int): (r: Expr)
    ensures r.Const? && r.val == v && Canon(r)
  {
    Const(v)
  }

  /** Constant.getVal. */
  function GetVal(c: Expr): (r: int)
    requires c.Const?
    ensures Constant(r) == c
  {
    c.val
  }

  /** Constant.constant(String): an arbitrary named constant, built as a
      variable node without the reserved-name check. */
  function NamedConstant(name: string): (r: Variable)
    ensures r.name == name && Canon(r)
  {
    Var(name)
  }

  /** Multiplicative identity. */
  function MultId(): (r: Expr)
    ensures r.Const? && r.val == 1
  {
    Constant(1)
  }

  /** Additive identity. */
  function AddId(): (r: Expr)
    ensures r.Const? && r.val == 0
  {
    Constant(0)
  }

  /** The number e, a named constant. */
  function E(): (r: Variable)
    ensures r.name == "e" && Canon(r)
  {
    NamedConstant("e")
  }

  /** A constant's constant factor is the constant itself. */
  function ConstantFactorOf(c: Expr): (r: Expr)
    requires c.Const?
    ensures r.Const? && r.val == c.val
  {
    c
  }

  /** A constant has no symbolic factors: the identity 1 stands for them. */
  function SymbolicFactorsOf(c: Expr): (r: Expr)
    requires c.Const?
    ensures Canon(r) && r == MultId()
  {
    MultId()
  }

  function IsNegative(c: Expr): (r: bool)
    requires c.Const?
    ensures r <==> c.val < 0
  {
    GetVal(c) < 0
  }

  // ---------------------------------------------------------------------
  // Properties
  // ---------------------------------------------------------------------

  /** getVal reads back the value given to constant, and constant rebuilds
      a constant from its value. */
  lemma ValueRoundTrip(v: int, c: Expr)
    requires c.Const?
    ensures GetVal(Constant(v)) == v
    ensures Constant(GetVal(c)) == c
  {
  }

  /** Two constants are equal exactly when their values are; a constant is
      never equal to another variant. */
  lemma ConstantEquality(a: int, b: int, e: Expr)
    ensures Constant(a) == Constant(b) <==> a == b
    ensures !e.Const? ==> Constant(a) != e
  {
  }

  lemma IsNegativeValue(v: int)
    ensures IsNegative(Constant(v)) <==> v < 0
  {
  }

  /** Multiplying the constant and the symbolic factor of a constant gives
      the constant back. */
  lemma ConstantRebuild(c: Expr)
    requires c.Const?
    ensures Product([ConstantFactorOf(c), SymbolicFactorsOf(c)]) == c
  {
    ProductOfTwoConstants(c.val, 1);
  }

  /** The identities are the neutral and absorbing factors of a product. */
  lemma IdentitiesInProducts(fs: seq<Expr>)
    requires |fs| > 0 && AllCanon(fs)
    ensures AllCanon(fs + [MultId()]) && Product(fs + [MultId()]) == Product(fs)
    ensures AllCanon(fs + [AddId()]) && Product(fs + [AddId()]) == AddId()
  {
    ProductOne(fs);
    var z := fs + [AddId()];
    assert z[|fs|] == Const(0);
    assert forall i :: 0 <= i < |z| ==> z[i] == (if i < |fs| then fs[i] else Const(0));
    ProductZero(z);
  }

  /** e is a variable node named "e", the same as the named constant. */
  lemma ENamed()
    ensures E() == NamedConstant("e") && E().name == "e"
    ensures !E().Const?
  {
  }
}
