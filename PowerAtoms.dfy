/** The part of the power constructor that applies when the base is neither
    a product nor a power: the exponent-1, exponent-0 and constant^constant
    rules, falling through to a raw power node. The product canonicaliser
    only ever raises such bases, so it calls this directly. */
module PowerAtoms {
  import opened Expressions
  import opened NormalForm

  function PowerAtom(b: Expr, x: Expr): (r: Expr)
    ensures Canon(b) && Canon(x) && !b.Mult? && !b.Pow? ==> Canon(r) && !r.Mult?
    ensures x == Const(1) ==> r == b
    ensures x != Const(1) && x == Const(0) ==> r == Const(1)
  {
    if x == Const(1) then b
    else if x == Const(0) then Const(1)
    else if b.Const? && x.Const? && x.val >= 0 then Const(IntPow(b.val, x.val))
    else Pow(b, x)
  }

  /** A canonical non-product factor is the atom of its base and exponent. */
  lemma AtomRebuild(f: Expr)
    requires Canon(f) && !f.Mult?
    ensures PowerAtom(Base(f), Exponent(f)) == f
  {
  }
}
