/** Stand-in for the natural-logarithm constructor, whose class is not part
    of this model: it builds the raw node and simplifies nothing. */
module Logs {
  import opened Expressions
  import opened NormalForm

  function NaturalLog(a: Expr): (r: Expr)
    ensures Canon(a) ==> Canon(r)
  {
    Ln(a)
  }
}
