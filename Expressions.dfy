/** The shared data model: one closed set of expression variants, the
    canonical key that orders them, and the base/exponent view every
    variant offers to the product canonicaliser. */
module Expressions {
  import opened Seqs

  /** An expression tree. `Add` and `Ln` stand in for the sum and logarithm
      classes that the product and power rules call. */
  datatype Expr =
    | Const(val: int)
    | Var(name: string)
    | Mult(factors: seq<Expr>)
    | Pow(base: Expr, exponent: Expr)
    | Add(terms: seq<Expr>)
    | Ln(arg: Expr)

  /** The outcome of a constructor that rejects some inputs, where the
      source throws an exception. */
  datatype Result<+T> = Ok(value: T) | Err(message: string)

  /** The type of the "with respect to" / "substitute for" argument. */
  type Variable = e: Expr | e.Var? witness Var("x")

  /** Number of nodes; the variant for differentiation, which re-canonicalises
      the tail of a product before recursing into it. */
  function Size(e: Expr): (n: nat)
    ensures n >= 1
    decreases e
  {
    match e
    case Const(_) => 1
    case Var(_) => 1
    case Mult(fs) => 1 + Sizes(fs)
    case Pow(b, x) => 1 + Size(b) + Size(x)
    case Add(ts) => 1 + Sizes(ts)
    case Ln(a) => 1 + Size(a)
  }

  function Sizes(es: seq<Expr>): nat
    decreases es
  {
    if |es| == 0 then 0 else Size(es[0]) + Sizes(es[1..])
  }

  // ---------------------------------------------------------------------
  // Canonical key and order
  // ---------------------------------------------------------------------

  function Chars(s: string): seq<int>
  {
    seq(|s|, i requires 0 <= i < |s| => s[i] as int)
  }

  /** A prefix-free serialisation of an expression: a variant tag, the
      child count where there are several, then the children's keys. It
      plays the part of the canonical string that orders and groups terms. */
  function Key(e: Expr): seq<int>
    decreases e
  {
    match e
    case Const(v) => [0, v]
    case Var(n) => [1, |n|] + Chars(n)
    case Mult(fs) => [2, |fs|] + Keys(fs)
    case Pow(b, x) => [3] + Key(b) + Key(x)
    case Add(ts) => [4, |ts|] + Keys(ts)
    case Ln(a) => [5] + Key(a)
  }

  function Keys(es: seq<Expr>): seq<int>
    decreases es
  {
    if |es| == 0 then [] else Key(es[0]) + Keys(es[1..])
  }

  lemma CharsInjective(n: string, m: string)
    requires |n| == |m| && Chars(n) == Chars(m)
    ensures n == m
  {
    assert forall i :: 0 <= i < |n| ==> Chars(n)[i] == n[i] as int && Chars(m)[i] == m[i] as int;
  }

  /** The variant tag that opens every key. */
  function Tag(e: Expr): int
  {
    match e
    case Const(_) => 0
    case Var(_) => 1
    case Mult(_) => 2
    case Pow(_, _) => 3
    case Add(_) => 4
    case Ln(_) => 5
  }

  lemma KeyStartsWithTag(e: Expr)
    ensures |Key(e)| > 0 && Key(e)[0] == Tag(e)
  {
  }

  /** Keys are prefix-free: equal key streams start with equal expressions. */
  lemma {:induction false} KeyPrefixFree(a: Expr, b: Expr, r: seq<int>, s: seq<int>)
    requires Key(a) + r == Key(b) + s
    ensures a == b && r == s
    decreases a
  {
    KeyStartsWithTag(a);
    KeyStartsWithTag(b);
    assert (Key(a) + r)[0] == (Key(b) + s)[0];
    match a
    case Const(v) =>
      ConstPrefixFree(v, b.val, r, s);
    case Var(n) =>
      VarPrefixFree(n, b.name, r, s);
    case Mult(fs) =>
      assert Tag(b) == 2;
      var gs := b.factors;
      assert Key(a) + r == [2, |fs|] + (Keys(fs) + r) && Key(b) + s == [2, |gs|] + (Keys(gs) + s);
      HeaderPrefixFree(2, |fs|, |gs|, Keys(fs) + r, Keys(gs) + s);
      KeysPrefixFree(fs, b.factors, r, s);
    case Add(ts) =>
      assert Tag(b) == 4;
      var us := b.terms;
      assert Key(a) + r == [4, |ts|] + (Keys(ts) + r) && Key(b) + s == [4, |us|] + (Keys(us) + s);
      HeaderPrefixFree(4, |ts|, |us|, Keys(ts) + r, Keys(us) + s);
      KeysPrefixFree(ts, b.terms, r, s);
    case Pow(base, x) =>
      PowPrefixFree(a, b, r, s);
      KeyPrefixFree(base, b.base, Key(x) + r, Key(b.exponent) + s);
      KeyPrefixFree(x, b.exponent, r, s);
    case Ln(x) =>
      LnPrefixFree(a, b, r, s);
      KeyPrefixFree(x, b.arg, r, s);
  }

  lemma ConstPrefixFree(v: int, w: int, r: seq<int>, s: seq<int>)
    requires Key(Const(v)) + r == Key(Const(w)) + s
    ensures v == w && r == s
  {
    var ka, kb := [0, v] + r, [0, w] + s;
    assert ka[1] == v && kb[1] == w;
    assert ka[2..] == r && kb[2..] == s;
  }

  lemma HeaderPrefixFree(t: int, n: int, m: int, x: seq<int>, y: seq<int>)
    requires [t, n] + x == [t, m] + y
    ensures n == m && x == y
  {
    assert ([t, n] + x)[1] == n && ([t, m] + y)[1] == m;
    assert ([t, n] + x)[2..] == x && ([t, m] + y)[2..] == y;
  }

  lemma PowPrefixFree(a: Expr, b: Expr, r: seq<int>, s: seq<int>)
    requires a.Pow? && b.Pow? && Key(a) + r == Key(b) + s
    ensures Key(a.base) + (Key(a.exponent) + r) == Key(b.base) + (Key(b.exponent) + s)
  {
    PowKeySplit(a, r);
    PowKeySplit(b, s);
    DropTag(3, Key(a.base) + (Key(a.exponent) + r), Key(b.base) + (Key(b.exponent) + s));
  }

  lemma PowKeySplit(a: Expr, r: seq<int>)
    requires a.Pow?
    ensures Key(a) + r == [3] + (Key(a.base) + (Key(a.exponent) + r))
  {
    assert Key(a) == [3] + Key(a.base) + Key(a.exponent);
  }

  lemma DropTag(t: int, x: seq<int>, y: seq<int>)
    requires [t] + x == [t] + y
    ensures x == y
  {
    assert ([t] + x)[1..] == x && ([t] + y)[1..] == y;
  }

  lemma LnPrefixFree(a: Expr, b: Expr, r: seq<int>, s: seq<int>)
    requires a.Ln? && b.Ln? && Key(a) + r == Key(b) + s
    ensures Key(a.arg) + r == Key(b.arg) + s
  {
    var ka, kb := Key(a) + r, Key(b) + s;
    assert ka == [5] + Key(a.arg) + r && kb == [5] + Key(b.arg) + s;
    assert ka[1..] == Key(a.arg) + r && kb[1..] == Key(b.arg) + s;
  }

  lemma VarPrefixFree(n: string, m: string, r: seq<int>, s: seq<int>)
    requires Key(Var(n)) + r == Key(Var(m)) + s
    ensures n == m && r == s
  {
    var ka, kb := [1, |n|] + Chars(n) + r, [1, |m|] + Chars(m) + s;
    assert ka == kb;
    assert ka[1] == |n| && kb[1] == |m|;
    var l := 2 + |n|;
    assert ka[2..l] == Chars(n) && kb[2..l] == Chars(m);
    CharsInjective(n, m);
    assert ka[l..] == r && kb[l..] == s;
  }

  lemma {:induction false} KeysPrefixFree(xs: seq<Expr>, ys: seq<Expr>, r: seq<int>, s: seq<int>)
    requires |xs| == |ys| && Keys(xs) + r == Keys(ys) + s
    ensures xs == ys && r == s
    decreases xs
  {
    if |xs| > 0 {
      assert Keys(xs) + r == Key(xs[0]) + (Keys(xs[1..]) + r);
      assert Keys(ys) + s == Key(ys[0]) + (Keys(ys[1..]) + s);
      KeyPrefixFree(xs[0], ys[0], Keys(xs[1..]) + r, Keys(ys[1..]) + s);
      KeysPrefixFree(xs[1..], ys[1..], r, s);
      assert xs == [xs[0]] + xs[1..] && ys == [ys[0]] + ys[1..];
    } else {
      assert Keys(xs) == [] && Keys(ys) == [];
      assert Keys(xs) + r == r && Keys(ys) + s == s;
    }
  }

  lemma KeyInjective(a: Expr, b: Expr)
    requires Key(a) == Key(b)
    ensures a == b
  {
    KeyPrefixFree(a, b, [], []);
  }

  /** Lexicographic order on integer streams (a proper prefix is smaller). */
  predicate KeyLess(a: seq<int>, b: seq<int>)
    decreases |a|
  {
    if |a| == 0 then |b| > 0
    else |b| > 0 && (a[0] < b[0] || (a[0] == b[0] && KeyLess(a[1..], b[1..])))
  }

  lemma {:induction false} KeyLessIrreflexive(a: seq<int>)
    ensures !KeyLess(a, a)
    decreases |a|
  {
    if |a| > 0 { KeyLessIrreflexive(a[1..]); }
  }

  lemma {:induction false} KeyLessTransitive(a: seq<int>, b: seq<int>, c: seq<int>)
    requires KeyLess(a, b) && KeyLess(b, c)
    ensures KeyLess(a, c)
    decreases |a|
  {
    if |a| > 0 && a[0] == b[0] && b[0] == c[0] {
      KeyLessTransitive(a[1..], b[1..], c[1..]);
    }
  }

  lemma {:induction false} KeyLessTotal(a: seq<int>, b: seq<int>)
    requires a != b
    ensures KeyLess(a, b) || KeyLess(b, a)
    decreases |a|
  {
    if |a| > 0 && |b| > 0 && a[0] == b[0] {
      assert a == [a[0]] + a[1..] && b == [b[0]] + b[1..];
      KeyLessTotal(a[1..], b[1..]);
    }
  }

  /** The canonical order on expressions. */
  predicate ExprLess(a: Expr, b: Expr)
  {
    KeyLess(Key(a), Key(b))
  }

  predicate ExprLe(a: Expr, b: Expr)
  {
    a == b || ExprLess(a, b)
  }

  lemma ExprLessIrreflexive(a: Expr)
    ensures !ExprLess(a, a)
  {
    KeyLessIrreflexive(Key(a));
  }

  lemma ExprLessTransitive(a: Expr, b: Expr, c: Expr)
    requires ExprLess(a, b) && ExprLess(b, c)
    ensures ExprLess(a, c)
  {
    KeyLessTransitive(Key(a), Key(b), Key(c));
  }

  lemma ExprLessAsymmetric(a: Expr, b: Expr)
    requires ExprLess(a, b)
    ensures !ExprLess(b, a)
  {
    if ExprLess(b, a) {
      ExprLessTransitive(a, b, a);
      ExprLessIrreflexive(a);
    }
  }

  /** The canonical order is total: this is what makes construction order
      irrelevant once terms are sorted by it. */
  lemma ExprLessTotal(a: Expr, b: Expr)
    requires a != b
    ensures ExprLess(a, b) || ExprLess(b, a)
  {
    if Key(a) == Key(b) { KeyInjective(a, b); }
    KeyLessTotal(Key(a), Key(b));
  }

  lemma ExprLeTransitive(a: Expr, b: Expr, c: Expr)
    requires ExprLe(a, b) && ExprLe(b, c)
    ensures ExprLe(a, c)
  {
    if a != b && b != c { ExprLessTransitive(a, b, c); }
  }

  lemma ExprLeAntisymmetric(a: Expr, b: Expr)
    requires ExprLe(a, b) && ExprLe(b, a)
    ensures a == b
  {
    if a != b { ExprLessAsymmetric(a, b); }
  }

  /** Every constant precedes every non-constant in the canonical order. */
  lemma ConstantsFirst(c: Expr, e: Expr)
    requires c.Const? && !e.Const?
    ensures ExprLess(c, e)
  {
  }

  // ---------------------------------------------------------------------
  // The base/exponent view and constant parts
  // ---------------------------------------------------------------------

  /** A power reports its own base; every other node is its own base. */
  function Base(e: Expr): (r: Expr)
    ensures !e.Pow? ==> r == e
  {
    if e.Pow? then e.base else e
  }

  /** A power reports its own exponent; every other node has exponent 1. */
  function Exponent(e: Expr): (r: Expr)
    ensures !e.Pow? ==> r == Const(1)
  {
    if e.Pow? then e.exponent else Const(1)
  }

  /** The value of a constant, as a one-element piece, or nothing. */
  function ConstPiece(e: Expr): seq<int>
  {
    if e.Const? then [e.val] else []
  }

  function NonConstPiece(e: Expr): seq<Expr>
  {
    if e.Const? then [] else [e]
  }

  /** The values of the constant factors or terms, in order. */
  function ConstValues(es: seq<Expr>): seq<int>
  {
    ConcatMap(es, ConstPiece)
  }

  /** The non-constant factors or terms, in order. */
  function NonConstants(es: seq<Expr>): seq<Expr>
  {
    ConcatMap(es, NonConstPiece)
  }

  /** Every element of es is either constant or kept by NonConstants. */
  lemma {:induction false} SplitLengths(es: seq<Expr>)
    ensures |ConstValues(es)| + |NonConstants(es)| == |es|
    decreases |es|
  {
    if |es| > 0 { SplitLengths(es[..|es| - 1]); }
  }

  lemma NonConstantsMembers(es: seq<Expr>)
    ensures forall x :: x in NonConstants(es) ==> x in es && !x.Const?
  {
    forall x | x in NonConstants(es) ensures x in es && !x.Const? {
      ConcatMapMember(es, NonConstPiece, x);
    }
  }

  lemma {:induction false} NoConstants(es: seq<Expr>)
    requires forall i :: 0 <= i < |es| ==> !es[i].Const?
    ensures NonConstants(es) == es && ConstValues(es) == []
    decreases |es|
  {
    if |es| > 0 {
      var n := |es| - 1;
      NoConstants(es[..n]);
      assert es == es[..n] + [es[n]];
    }
  }

  /** Integer power for a non-negative exponent. */
  function IntPow(b: int, n: nat): int
  {
    if n == 0 then 1 else b * IntPow(b, n - 1)
  }
}
