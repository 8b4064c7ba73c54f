/** The three rewriting steps the product constructor applies in each round:
    splice nested products (Mult.withoutNesting), fold the constants
    (Mult.simplifyConstantFactors) and group factors by base, adding their
    exponents (Mult.simplifyFactors). Each step is a function on factor
    lists; the loops that compute them are in module Products. */
module ProductSteps {
  import opened Seqs
  import opened Expressions
  import opened NormalForm
  import opened Sums
  import opened PowerAtoms

  // ---------------------------------------------------------------------
  // Splicing nested products
  // ---------------------------------------------------------------------

  function ProductPiece(f: Expr): seq<Expr>
  {
    if f.Mult? then f.factors else [f]
  }

  /** Every product factor replaced, in place, by its own factors. */
  function Flattened(fs: seq<Expr>): seq<Expr>
  {
    ConcatMap(fs, ProductPiece)
  }

  lemma FlattenedMembers(fs: seq<Expr>)
    requires AllCanon(fs)
    ensures forall y :: y in Flattened(fs) ==> Canon(y) && !y.Mult?
  {
    forall y | y in Flattened(fs) ensures Canon(y) && !y.Mult? {
      ConcatMapMember(fs, ProductPiece, y);
    }
  }

  /** A list without product factors is left as it is. */
  lemma FlattenedFlat(fs: seq<Expr>)
    requires NoProductFactor(fs)
    ensures Flattened(fs) == fs
  {
    assert forall i :: 0 <= i < |fs| ==> ProductPiece(fs[i]) == [fs[i]];
    ConcatMapIdentity(fs, ProductPiece);
  }

  // ---------------------------------------------------------------------
  // Folding the constants
  // ---------------------------------------------------------------------

  /** The branches after the loop of simplifyConstantFactors: c is the
      product of the constants, rest the other factors in order. */
  function FoldConstants(c: int, rest: seq<Expr>): seq<Expr>
  {
    if c == 1 && |rest| == 0 then [Const(1)]
    else if c == 0 then [Const(0)]
    else if c != 1 then rest + [Const(c)]
    else rest
  }

  function ConstantsFolded(fs: seq<Expr>): seq<Expr>
  {
    FoldConstants(Prod(ConstValues(fs)), NonConstants(fs))
  }

  lemma FoldMembers(c: int, rest: seq<Expr>)
    ensures |FoldConstants(c, rest)| > 0
    ensures forall y :: y in FoldConstants(c, rest) ==> y in rest || y.Const?
  {
  }

  /** Folding never lengthens a non-empty list. */
  lemma FoldLength(fs: seq<Expr>)
    requires |fs| > 0
    ensures |ConstantsFolded(fs)| <= |fs|
  {
    SplitLengths(fs);
    if |ConstValues(fs)| == 0 {
      assert Prod(ConstValues(fs)) == 1;
    }
  }

  /** After folding, at most one constant remains, and neither 0 nor 1
      stands beside other factors. */
  lemma FoldShape(c: int, rest: seq<Expr>)
    requires forall i :: 0 <= i < |rest| ==> !rest[i].Const?
    ensures AtMostOneConstant(FoldConstants(c, rest))
    ensures NoIdentityFactor(FoldConstants(c, rest))
  {
    var r := FoldConstants(c, rest);
    if c != 0 && c != 1 {
      assert forall i :: 0 <= i < |rest| ==> r[i] == rest[i];
    }
  }

  lemma FoldPerm(p: seq<Expr>, q: seq<Expr>)
    requires multiset(p) == multiset(q)
    ensures multiset(ConstantsFolded(p)) == multiset(ConstantsFolded(q))
  {
    ConcatMapPerm(p, q, ConstPiece);
    ConcatMapPerm(p, q, NonConstPiece);
    ProdPerm(ConstValues(p), ConstValues(q));
    assert |NonConstants(p)| == |multiset(NonConstants(p))| == |multiset(NonConstants(q))| == |NonConstants(q)|;
  }

  // ---------------------------------------------------------------------
  // The bases, in canonical order
  // ---------------------------------------------------------------------

  predicate HasBase(fs: seq<Expr>, b: Expr)
  {
    exists i :: 0 <= i < |fs| && Base(fs[i]) == b
  }

  /** b added to a strictly sorted list of bases unless already there. */
  function InsertBase(b: Expr, s: seq<Expr>): seq<Expr>
  {
    if |s| == 0 then [b]
    else if b == s[0] then s
    else if ExprLess(b, s[0]) then [b] + s
    else [s[0]] + InsertBase(b, s[1..])
  }

  /** The distinct bases of the factors, in canonical order (the key set of
      the exponent map in simplifyFactors). */
  function BaseList(fs: seq<Expr>): seq<Expr>
  {
    if |fs| == 0 then [] else InsertBase(Base(fs[|fs| - 1]), BaseList(fs[..|fs| - 1]))
  }

  lemma BelowHead(b: Expr, s: seq<Expr>)
    requires StrictlySorted(s) && |s| > 0 && ExprLess(b, s[0])
    ensures forall k :: 0 <= k < |s| ==> ExprLess(b, s[k])
    ensures b !in s
  {
    forall k | 0 < k < |s| ensures ExprLess(b, s[k]) {
      ExprLessTransitive(b, s[0], s[k]);
    }
    ExprLessIrreflexive(b);
  }

  lemma StrictTail(s: seq<Expr>)
    requires StrictlySorted(s) && |s| > 0
    ensures StrictlySorted(s[1..])
  {
    forall i, j | 0 <= i < j < |s| - 1 ensures ExprLess(s[1..][i], s[1..][j]) {
      assert s[1..][i] == s[i + 1] && s[1..][j] == s[j + 1];
    }
  }

  lemma {:induction false} InsertBaseSpec(b: Expr, s: seq<Expr>)
    requires StrictlySorted(s)
    ensures StrictlySorted(InsertBase(b, s))
    ensures forall x :: x in InsertBase(b, s) <==> x == b || x in s
    ensures |InsertBase(b, s)| == if b in s then |s| else |s| + 1
    decreases |s|
  {
    if |s| == 0 {
    } else if b == s[0] {
    } else if ExprLess(b, s[0]) {
      BelowHead(b, s);
      StrictCons(b, s);
    } else {
      ExprLessTotal(b, s[0]);
      StrictTail(s);
      InsertBaseSpec(b, s[1..]);
      assert s == [s[0]] + s[1..];
      HeadBelowTail(s);
      StrictBehind(s[0], InsertBase(b, s[1..]));
      assert b in s <==> b in s[1..];
    }
  }

  lemma StrictCons(b: Expr, s: seq<Expr>)
    requires StrictlySorted(s) && forall k :: 0 <= k < |s| ==> ExprLess(b, s[k])
    ensures StrictlySorted([b] + s)
  {
    var r := [b] + s;
    forall i, j | 0 <= i < j < |r| ensures ExprLess(r[i], r[j]) {
      if i > 0 {
        assert r[i] == s[i - 1] && r[j] == s[j - 1];
      }
    }
  }

  lemma HeadBelowTail(s: seq<Expr>)
    requires StrictlySorted(s) && |s| > 0
    ensures forall x :: x in s[1..] ==> ExprLess(s[0], x)
  {
    forall x | x in s[1..] ensures ExprLess(s[0], x) {
      var k :| 0 <= k < |s[1..]| && s[1..][k] == x;
      assert s[k + 1] == x;
    }
  }

  lemma StrictBehind(h: Expr, t: seq<Expr>)
    requires StrictlySorted(t) && forall x :: x in t ==> ExprLess(h, x)
    ensures StrictlySorted([h] + t)
  {
    var r := [h] + t;
    forall i, j | 0 <= i < j < |r| ensures ExprLess(r[i], r[j]) {
      if i == 0 {
        assert r[j] == t[j - 1] && r[j] in t;
      } else {
        assert r[i] == t[i - 1] && r[j] == t[j - 1];
      }
    }
  }

  /** BaseList is strictly sorted, holds exactly the bases of the factors,
      and is no longer than the list. */
  lemma {:induction false} BaseListSpec(fs: seq<Expr>)
    ensures StrictlySorted(BaseList(fs))
    ensures forall x :: x in BaseList(fs) <==> HasBase(fs, x)
    ensures |BaseList(fs)| <= |fs|
    ensures |fs| > 0 ==> |BaseList(fs)| > 0
    decreases |fs|
  {
    if |fs| > 0 {
      var n := |fs| - 1;
      BaseListSpec(fs[..n]);
      InsertBaseSpec(Base(fs[n]), BaseList(fs[..n]));
      HasBaseSnoc(fs);
    }
  }

  lemma HasBaseSnoc(fs: seq<Expr>)
    requires |fs| > 0
    ensures forall x :: HasBase(fs, x) <==> HasBase(fs[..|fs| - 1], x) || x == Base(fs[|fs| - 1])
  {
    var n := |fs| - 1;
    forall x ensures HasBase(fs, x) <==> HasBase(fs[..n], x) || x == Base(fs[n]) {
      if HasBase(fs, x) {
        var i :| 0 <= i < |fs| && Base(fs[i]) == x;
        if i < n {
          assert fs[..n][i] == fs[i];
        }
      }
      if HasBase(fs[..n], x) {
        var i :| 0 <= i < n && Base(fs[..n][i]) == x;
        assert fs[i] == fs[..n][i];
      }
    }
  }

  /** The bases are pairwise distinct exactly when none is merged away. */
  lemma {:induction false} BaseListDistinct(fs: seq<Expr>)
    ensures |BaseList(fs)| == |fs| <==> DistinctBases(fs)
    decreases |fs|
  {
    if |fs| > 0 {
      var n := |fs| - 1;
      var p := fs[..n];
      BaseListSpec(p);
      BaseListDistinct(p);
      InsertBaseSpec(Base(fs[n]), BaseList(p));
      DistinctBasesSnoc(fs);
    }
  }

  /** The bases of fs are distinct exactly when those of all but the last
      factor are and the last factor's base is new. */
  lemma DistinctBasesSnoc(fs: seq<Expr>)
    requires |fs| > 0
    ensures DistinctBases(fs) <==>
      DistinctBases(fs[..|fs| - 1]) && !HasBase(fs[..|fs| - 1], Base(fs[|fs| - 1]))
  {
    var n := |fs| - 1;
    var p := fs[..n];
    assert forall i :: 0 <= i < n ==> p[i] == fs[i];
    if DistinctBases(fs) {
      assert DistinctBases(p);
      assert !HasBase(p, Base(fs[n]));
    }
    if DistinctBases(p) && !HasBase(p, Base(fs[n])) {
      assert forall i :: 0 <= i < n ==> Base(p[i]) != Base(fs[n]);
    }
  }

  /** BaseList depends only on which factors occur. */
  lemma BaseListSameMembers(p: seq<Expr>, q: seq<Expr>)
    requires forall y :: y in p <==> y in q
    ensures BaseList(p) == BaseList(q)
  {
    BaseListSpec(p);
    BaseListSpec(q);
    forall x ensures HasBase(p, x) <==> HasBase(q, x) {
      if HasBase(p, x) {
        var i :| 0 <= i < |p| && Base(p[i]) == x;
        assert p[i] in q;
        var j :| 0 <= j < |q| && q[j] == p[i];
      }
      if HasBase(q, x) {
        var i :| 0 <= i < |q| && Base(q[i]) == x;
        assert q[i] in p;
        var j :| 0 <= j < |p| && p[j] == q[i];
      }
    }
    StrictlySortedUnique(BaseList(p), BaseList(q));
  }

  // ---------------------------------------------------------------------
  // The exponents collected for one base
  // ---------------------------------------------------------------------

  function ExpPiece(b: Expr): Expr -> seq<Expr>
  {
    f => if Base(f) == b then [Exponent(f)] else []
  }

  /** The exponents of the factors whose base is b, in order (the list the
      exponent map of simplifyFactors holds for b). */
  function ExpsOf(fs: seq<Expr>, b: Expr): seq<Expr>
  {
    ConcatMap(fs, ExpPiece(b))
  }

  lemma ExpsOfAbsent(fs: seq<Expr>, b: Expr)
    requires !HasBase(fs, b)
    ensures ExpsOf(fs, b) == []
  {
    assert forall i :: 0 <= i < |fs| ==> ExpPiece(b)(fs[i]) == [];
    ConcatMapEmpty(fs, ExpPiece(b));
  }

  /** With distinct bases, a base collects exactly one exponent. */
  lemma {:induction false} ExpsOfUnique(fs: seq<Expr>, k: nat)
    requires DistinctBases(fs) && k < |fs|
    ensures ExpsOf(fs, Base(fs[k])) == [Exponent(fs[k])]
    decreases |fs|
  {
    var n := |fs| - 1;
    var b := Base(fs[k]);
    var p := fs[..n];
    assert forall i :: 0 <= i < n ==> p[i] == fs[i];
    if k == n {
      assert !HasBase(p, b);
      ExpsOfAbsent(p, b);
    } else {
      assert DistinctBases(p);
      ExpsOfUnique(p, k);
      assert Base(fs[n]) != b;
    }
  }

  lemma ExpsOfMembers(fs: seq<Expr>, b: Expr)
    requires forall i :: 0 <= i < |fs| ==> Canon(fs[i]) && !fs[i].Mult?
    ensures AllCanon(ExpsOf(fs, b))
  {
    forall y | y in ExpsOf(fs, b) ensures Canon(y) {
      ConcatMapMember(fs, ExpPiece(b), y);
      var i :| 0 <= i < |fs| && y in ExpPiece(b)(fs[i]);
      CanonicalFactorView(fs[i]);
    }
  }

  // ---------------------------------------------------------------------
  // Grouping by base
  // ---------------------------------------------------------------------

  /** One factor per base: the base raised to the sum of its exponents. */
  function Grouped(bs: seq<Expr>, fs: seq<Expr>): seq<Expr>
  {
    seq(|bs|, i requires 0 <= i < |bs| => PowerAtom(bs[i], Sum(ExpsOf(fs, bs[i]))))
  }

  function FactorsGrouped(fs: seq<Expr>): seq<Expr>
  {
    Grouped(BaseList(fs), fs)
  }

  lemma GroupedShape(fs: seq<Expr>)
    requires forall i :: 0 <= i < |fs| ==> Canon(fs[i]) && !fs[i].Mult?
    ensures |fs| > 0 ==> |FactorsGrouped(fs)| > 0
    ensures AllCanon(FactorsGrouped(fs)) && NoProductFactor(FactorsGrouped(fs))
  {
    var bs := BaseList(fs);
    BaseListSpec(fs);
    forall i | 0 <= i < |bs| ensures Canon(FactorsGrouped(fs)[i]) && !FactorsGrouped(fs)[i].Mult? {
      assert bs[i] in bs;
      var k :| 0 <= k < |fs| && Base(fs[k]) == bs[i];
      CanonicalFactorView(fs[k]);
      ExpsOfMembers(fs, bs[i]);
    }
  }

  /** With distinct bases, grouping only reorders: every result is an input
      factor, every input factor is a result, and the result is ordered by
      base. */
  lemma GroupedDistinct(fs: seq<Expr>)
    requires forall i :: 0 <= i < |fs| ==> Canon(fs[i]) && !fs[i].Mult?
    requires DistinctBases(fs)
    ensures |FactorsGrouped(fs)| == |fs|
    ensures forall y :: y in FactorsGrouped(fs) <==> y in fs
    ensures OrderedByBase(FactorsGrouped(fs))
  {
    var bs := BaseList(fs);
    var r := FactorsGrouped(fs);
    BaseListSpec(fs);
    BaseListDistinct(fs);
    forall i | 0 <= i < |bs| ensures r[i] in fs && Base(r[i]) == bs[i] {
      var k := GroupAt(fs, i);
    }
    forall y | y in fs ensures y in r {
      var k :| 0 <= k < |fs| && fs[k] == y;
      assert HasBase(fs, Base(y));
      var i :| 0 <= i < |bs| && bs[i] == Base(y);
      var k' := GroupAt(fs, i);
    }
  }

  lemma GroupAt(fs: seq<Expr>, i: nat) returns (k: nat)
    requires forall i :: 0 <= i < |fs| ==> Canon(fs[i]) && !fs[i].Mult?
    requires DistinctBases(fs)
    requires i < |BaseList(fs)|
    ensures k < |fs| && FactorsGrouped(fs)[i] == fs[k] && Base(fs[k]) == BaseList(fs)[i]
    ensures forall j :: 0 <= j < |fs| && Base(fs[j]) == BaseList(fs)[i] ==> j == k
  {
    var bs := BaseList(fs);
    BaseListSpec(fs);
    assert bs[i] in bs;
    k :| 0 <= k < |fs| && Base(fs[k]) == bs[i];
    ExpsOfUnique(fs, k);
    CanonicalFactorView(fs[k]);
    SumSingleton(Exponent(fs[k]));
    AtomRebuild(fs[k]);
  }

  /** Grouping depends only on the multiset of the factors. */
  lemma GroupedPerm(p: seq<Expr>, q: seq<Expr>)
    requires multiset(p) == multiset(q)
    ensures FactorsGrouped(p) == FactorsGrouped(q)
  {
    assert forall y :: y in p <==> y in multiset(q);
    BaseListSameMembers(p, q);
    var bs := BaseList(p);
    forall i | 0 <= i < |bs| ensures Sum(ExpsOf(p, bs[i])) == Sum(ExpsOf(q, bs[i])) {
      ConcatMapPerm(p, q, ExpPiece(bs[i]));
      SumPerm(ExpsOf(p, bs[i]), ExpsOf(q, bs[i]));
    }
  }

  // ---------------------------------------------------------------------
  // One round of simplification
  // ---------------------------------------------------------------------

  /** One pass of the three steps, in the order simplify applies them. */
  function Round(fs: seq<Expr>): seq<Expr>
  {
    FactorsGrouped(ConstantsFolded(Flattened(fs)))
  }

  lemma FoldedMembers(fs: seq<Expr>)
    requires forall i :: 0 <= i < |fs| ==> Canon(fs[i]) && !fs[i].Mult?
    ensures forall i :: 0 <= i < |ConstantsFolded(fs)| ==>
      Canon(ConstantsFolded(fs)[i]) && !ConstantsFolded(fs)[i].Mult?
  {
    NonConstantsMembers(fs);
    FoldMembers(Prod(ConstValues(fs)), NonConstants(fs));
    var g := ConstantsFolded(fs);
    assert forall i :: 0 <= i < |g| ==> g[i] in g;
  }

  /** A round yields a non-empty list of canonical non-product factors. */
  lemma RoundShape(fs: seq<Expr>)
    requires AllCanon(fs)
    ensures |Round(fs)| > 0 && AllCanon(Round(fs)) && NoProductFactor(Round(fs))
  {
    var flat := Flattened(fs);
    FlattenedMembers(fs);
    assert forall i :: 0 <= i < |flat| ==> flat[i] in flat;
    FoldedMembers(flat);
    FoldMembers(Prod(ConstValues(flat)), NonConstants(flat));
    GroupedShape(ConstantsFolded(flat));
  }

  /** A list that is not simplified changes shape: on a list without product
      factors a round never lengthens it, and a round that keeps the length
      ends in a simplified list. */
  lemma RoundShrinks(fs: seq<Expr>)
    requires |fs| > 0 && AllCanon(fs) && NoProductFactor(fs)
    ensures |Round(fs)| <= |fs|
    ensures |Round(fs)| == |fs| ==> Simplified(Round(fs))
  {
    FlattenedFlat(fs);
    var g := ConstantsFolded(fs);
    assert forall i :: 0 <= i < |fs| ==> Canon(fs[i]) && !fs[i].Mult?;
    FoldedMembers(fs);
    FoldLength(fs);
    BaseListSpec(g);
    BaseListDistinct(g);
    if |Round(fs)| == |fs| {
      NonConstantsMembers(fs);
      assert forall i :: 0 <= i < |NonConstants(fs)| ==> NonConstants(fs)[i] in NonConstants(fs);
      FoldShape(Prod(ConstValues(fs)), NonConstants(fs));
      GroupedDistinct(g);
      Rearranged(g, Round(fs));
    }
  }

  lemma OtherNotConstant(g: seq<Expr>, x: Expr, y: Expr)
    requires AtMostOneConstant(g) && x in g && y in g && x != y
    ensures !(x.Const? && y.Const?)
  {
    var p :| 0 <= p < |g| && g[p] == x;
    var q :| 0 <= q < |g| && g[q] == y;
    if p < q {
      assert !(g[p].Const? && g[q].Const?);
    } else {
      assert !(g[q].Const? && g[p].Const?);
    }
  }

  /** An arrangement, ordered by base, of the elements of a folded list is
      simplified. */
  lemma Rearranged(g: seq<Expr>, r: seq<Expr>)
    requires AtMostOneConstant(g) && NoIdentityFactor(g) && NoProductFactor(g)
    requires |r| == |g| && (forall y :: y in r ==> y in g) && OrderedByBase(r)
    ensures Simplified(r)
  {
    forall i, j | 0 <= i < j < |r| ensures !(r[i].Const? && r[j].Const?) {
      ExprLessIrreflexive(Base(r[i]));
      OtherNotConstant(g, r[i], r[j]);
    }
    forall i | 0 <= i < |r| ensures !r[i].Mult? && (|r| > 1 ==> r[i] != Const(1) && r[i] != Const(0)) {
      assert r[i] in g;
    }
    forall i, j | 0 <= i < j < |r| ensures Base(r[i]) != Base(r[j]) {
      ExprLessIrreflexive(Base(r[i]));
    }
  }

  /** The bases of a list, position by position. */
  function Bases(fs: seq<Expr>): seq<Expr>
  {
    seq(|fs|, i requires 0 <= i < |fs| => Base(fs[i]))
  }

  /** Two lists ordered by base with the same elements are equal. */
  lemma OrderedUnique(a: seq<Expr>, b: seq<Expr>)
    requires OrderedByBase(a) && OrderedByBase(b)
    requires forall y :: y in a <==> y in b
    ensures a == b
  {
    var ka, kb := Bases(a), Bases(b);
    forall x ensures x in ka <==> x in kb {
      if x in ka {
        var i :| 0 <= i < |a| && ka[i] == x;
        assert a[i] in b;
        var j :| 0 <= j < |b| && b[j] == a[i];
        assert kb[j] == x;
      }
      if x in kb {
        var i :| 0 <= i < |b| && kb[i] == x;
        assert b[i] in a;
        var j :| 0 <= j < |a| && a[j] == b[i];
        assert ka[j] == x;
      }
    }
    StrictlySortedUnique(ka, kb);
    forall i | 0 <= i < |a| ensures a[i] == b[i] {
      assert ka[i] == kb[i];
      assert b[i] in a;
      var j :| 0 <= j < |a| && a[j] == b[i];
      if j != i {
        DistinctIndices(a, i, j);
      }
    }
  }

  lemma DistinctIndices(a: seq<Expr>, i: nat, j: nat)
    requires OrderedByBase(a) && i < |a| && j < |a| && i != j
    ensures Base(a[i]) != Base(a[j])
  {
    if i < j {
      ExprLessIrreflexive(Base(a[i]));
    } else {
      ExprLessIrreflexive(Base(a[j]));
    }
  }

  lemma OnlyConstant(s: seq<Expr>, k: nat)
    requires AtMostOneConstant(s) && k < |s| && s[k].Const?
    ensures forall i :: 0 <= i < |s| && i != k ==> !s[i].Const?
  {
    forall i | 0 <= i < |s| && i != k ensures !s[i].Const? {
      var lo, hi := if i < k then i else k, if i < k then k else i;
      assert !(s[lo].Const? && s[hi].Const?);
    }
  }

  /** Folding the constants of a simplified list only moves its constant. */
  lemma FoldedSameElements(s: seq<Expr>)
    requires |s| > 0 && Simplified(s)
    ensures |ConstantsFolded(s)| == |s|
    ensures forall y :: y in ConstantsFolded(s) <==> y in s
  {
    if exists k :: 0 <= k < |s| && s[k].Const? {
      var k :| 0 <= k < |s| && s[k].Const?;
      OnlyConstant(s, k);
      OneConstant(s, k);
      ProdSingle(s[k].val);
      assert s == s[..k] + [s[k]] + s[k + 1..];
    } else {
      NoConstants(s);
    }
  }

  /** A simplified list of canonical factors is a fixpoint of a round. */
  lemma RoundFix(s: seq<Expr>)
    requires |s| > 0 && AllCanon(s) && Simplified(s)
    ensures Round(s) == s
  {
    FlattenedFlat(s);
    var g := ConstantsFolded(s);
    FoldedSameElements(s);
    BaseListDistinct(s);
    BaseListSameMembers(g, s);
    BaseListDistinct(g);
    assert forall i :: 0 <= i < |s| ==> Canon(s[i]) && !s[i].Mult?;
    FoldedMembers(s);
    GroupedDistinct(g);
    OrderedUnique(Round(s), s);
  }

  /** A round depends only on the multiset of spliced factors. */
  lemma RoundFlatPerm(p: seq<Expr>, q: seq<Expr>)
    requires multiset(Flattened(p)) == multiset(Flattened(q))
    ensures Round(p) == Round(q)
  {
    FoldPerm(Flattened(p), Flattened(q));
    GroupedPerm(ConstantsFolded(Flattened(p)), ConstantsFolded(Flattened(q)));
  }

  /** The order of the factors does not affect a round. */
  lemma RoundPerm(p: seq<Expr>, q: seq<Expr>)
    requires multiset(p) == multiset(q)
    ensures Round(p) == Round(q)
  {
    ConcatMapPerm(p, q, ProductPiece);
    RoundFlatPerm(p, q);
  }
}
