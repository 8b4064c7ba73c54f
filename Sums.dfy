/** Stand-in for the sum constructor, which the product and power code call
    but whose class is not part of this model: flatten nested sums, fold the
    constant terms into one, drop a zero constant beside other terms, sort
    the rest, and return a lone term unwrapped. */
module Sums {
  import opened Seqs
  import opened Expressions
  import opened NormalForm

  /** The terms a term contributes to an enclosing sum. */
  function SumPiece(t: Expr): seq<Expr>
  {
    if t.Add? then t.terms else [t]
  }

  function FlattenSum(ts: seq<Expr>): seq<Expr>
  {
    ConcatMap(ts, SumPiece)
  }

  // ---------------------------------------------------------------------
  // Insertion sort in the canonical order
  // ---------------------------------------------------------------------

  function Insert(x: Expr, s: seq<Expr>): seq<Expr>
  {
    if |s| == 0 then [x]
    else if ExprLe(x, s[0]) then [x] + s
    else [s[0]] + Insert(x, s[1..])
  }

  function Sort(s: seq<Expr>): seq<Expr>
  {
    if |s| == 0 then [] else Insert(s[0], Sort(s[1..]))
  }

  lemma {:induction false} InsertPerm(x: Expr, s: seq<Expr>)
    ensures multiset(Insert(x, s)) == multiset(s) + multiset{x}
    decreases |s|
  {
    if |s| > 0 && !ExprLe(x, s[0]) {
      InsertPerm(x, s[1..]);
      assert s == [s[0]] + s[1..];
    }
  }

  lemma {:induction false} InsertSorted(x: Expr, s: seq<Expr>)
    requires Sorted(s)
    ensures Sorted(Insert(x, s))
    decreases |s|
  {
    if |s| == 0 {
    } else if ExprLe(x, s[0]) {
      SortedCons(x, s);
    } else {
      SortedTail(s);
      InsertSorted(x, s[1..]);
      InsertPerm(x, s[1..]);
      ExprLessTotal(x, s[0]);
      SortedInsertBehind(x, s, Insert(x, s[1..]));
    }
  }

  /** x in front of a sorted list whose head is at least x. */
  lemma SortedCons(x: Expr, s: seq<Expr>)
    requires Sorted(s) && |s| > 0 && ExprLe(x, s[0])
    ensures Sorted([x] + s)
  {
    var r := [x] + s;
    forall i, j | 0 <= i < j < |r| ensures ExprLe(r[i], r[j]) {
      if i == 0 {
        if j > 1 {
          assert ExprLe(s[0], s[j - 1]);
          ExprLeTransitive(x, s[0], s[j - 1]);
        }
      } else {
        assert r[i] == s[i - 1] && r[j] == s[j - 1];
      }
    }
  }

  /** The head of s in front of t, a sorted arrangement of the rest of s and
      an x above that head. */
  lemma SortedInsertBehind(x: Expr, s: seq<Expr>, t: seq<Expr>)
    requires Sorted(s) && |s| > 0 && ExprLe(s[0], x)
    requires Sorted(t) && multiset(t) == multiset(s[1..]) + multiset{x}
    ensures Sorted([s[0]] + t)
  {
    var r := [s[0]] + t;
    forall i, j | 0 <= i < j < |r| ensures ExprLe(r[i], r[j]) {
      if i == 0 {
        assert r[j] == t[j - 1];
        assert t[j - 1] in multiset(s[1..]) + multiset{x};
        if t[j - 1] != x {
          assert t[j - 1] in s[1..];
          var k :| 0 <= k < |s[1..]| && s[1..][k] == t[j - 1];
          assert ExprLe(s[0], s[k + 1]);
        }
      } else {
        assert r[i] == t[i - 1] && r[j] == t[j - 1];
      }
    }
  }

  /** Sort returns a sorted permutation of its input. */
  lemma SortCorrect(s: seq<Expr>)
    ensures multiset(Sort(s)) == multiset(s)
    ensures Sorted(Sort(s))
  {
    SortIsPerm(s);
    SortIsSorted(s);
  }

  lemma {:induction false} SortIsPerm(s: seq<Expr>)
    ensures multiset(Sort(s)) == multiset(s)
    decreases |s|
  {
    if |s| > 0 {
      var t := Sort(s[1..]);
      SortIsPerm(s[1..]);
      InsertPerm(s[0], t);
      assert s == [s[0]] + s[1..];
      assert multiset(s) == multiset(s[1..]) + multiset{s[0]};
    }
  }

  lemma {:induction false} SortIsSorted(s: seq<Expr>)
    ensures Sorted(Sort(s))
    decreases |s|
  {
    if |s| > 0 {
      SortIsSorted(s[1..]);
      InsertSorted(s[0], Sort(s[1..]));
    }
  }

  /** Sorting depends only on the multiset of the input. */
  lemma SortPermEqual(p: seq<Expr>, q: seq<Expr>)
    requires multiset(p) == multiset(q)
    ensures Sort(p) == Sort(q)
  {
    SortCorrect(p);
    SortCorrect(q);
    SortedUnique(Sort(p), Sort(q));
  }

  lemma SortOfSorted(s: seq<Expr>)
    requires Sorted(s)
    ensures Sort(s) == s
  {
    SortCorrect(s);
    SortedUnique(Sort(s), s);
  }

  // ---------------------------------------------------------------------
  // The sum constructor
  // ---------------------------------------------------------------------

  /** The term list of a sum: the folded constant (omitted when it is 0 and
      other terms exist) followed by the sorted non-constant terms. */
  function SumTerms(ts: seq<Expr>): seq<Expr>
  {
    var flat := FlattenSum(ts);
    Assemble(Total(ConstValues(flat)), Sort(NonConstants(flat)))
  }

  function Assemble(c: int, rest: seq<Expr>): seq<Expr>
  {
    if c == 0 && |rest| > 0 then rest else [Const(c)] + rest
  }

  function Sum(ts: seq<Expr>): (r: Expr)
    ensures AllCanon(ts) ==> Canon(r)
  {
    SumTermsShape(ts);
    var s := SumTerms(ts);
    if |s| == 1 then s[0] else Add(s)
  }

  /** The terms of a flattened canonical sum are canonical and not sums. */
  lemma FlattenSumMembers(ts: seq<Expr>)
    requires AllCanon(ts)
    ensures forall y :: y in FlattenSum(ts) ==> Canon(y) && !y.Add?
  {
    forall y | y in FlattenSum(ts) ensures Canon(y) && !y.Add? {
      ConcatMapMember(ts, SumPiece, y);
    }
  }

  /** Terms that may follow the constant of a canonical sum. */
  predicate TailTerms(rest: seq<Expr>)
  {
    Sorted(rest) && forall i :: 0 <= i < |rest| ==> Canon(rest[i]) && !rest[i].Add? && !rest[i].Const?
  }

  lemma SortedNonConstants(ts: seq<Expr>)
    requires AllCanon(ts)
    ensures TailTerms(Sort(NonConstants(FlattenSum(ts))))
  {
    var flat := FlattenSum(ts);
    var rest := Sort(NonConstants(flat));
    SortCorrect(NonConstants(flat));
    NonConstantsMembers(flat);
    FlattenSumMembers(ts);
    assert forall i :: 0 <= i < |rest| ==> rest[i] in multiset(NonConstants(flat));
  }

  lemma SortedAfterConstant(c: int, rest: seq<Expr>)
    requires Sorted(rest) && forall i :: 0 <= i < |rest| ==> !rest[i].Const?
    ensures Sorted([Const(c)] + rest)
  {
    var r := [Const(c)] + rest;
    forall i, j | 0 <= i < j < |r| ensures ExprLe(r[i], r[j]) {
      if i == 0 {
        ConstantsFirst(r[0], r[j]);
      } else {
        assert r[i] == rest[i - 1] && r[j] == rest[j - 1];
      }
    }
  }

  lemma AssembleShape(c: int, rest: seq<Expr>)
    requires TailTerms(rest)
    ensures AllCanon(Assemble(c, rest)) && SumTermsCanonical(Assemble(c, rest))
  {
    if !(c == 0 && |rest| > 0) {
      SortedAfterConstant(c, rest);
      var r := [Const(c)] + rest;
      assert forall i :: 0 < i < |r| ==> r[i] == rest[i - 1];
    }
  }

  lemma SumTermsShape(ts: seq<Expr>)
    ensures |SumTerms(ts)| > 0
    ensures AllCanon(ts) ==> AllCanon(SumTerms(ts)) && SumTermsCanonical(SumTerms(ts))
  {
    if AllCanon(ts) {
      SortedNonConstants(ts);
      var flat := FlattenSum(ts);
      AssembleShape(Total(ConstValues(flat)), Sort(NonConstants(flat)));
    }
  }

  // ---------------------------------------------------------------------
  // Properties the product code relies on
  // ---------------------------------------------------------------------

  /** Splitting a canonical term list and assembling it again is the identity. */
  lemma AssembleCanonical(ts: seq<Expr>)
    requires |ts| >= 2 && SumTermsCanonical(ts)
    ensures Assemble(Total(ConstValues(ts)), Sort(NonConstants(ts))) == ts
  {
    if ts[0].Const? {
      AssembleLeadingConstant(ts);
    } else {
      NoConstants(ts);
      SortOfSorted(ts);
    }
  }

  lemma AssembleLeadingConstant(ts: seq<Expr>)
    requires |ts| >= 2 && SumTermsCanonical(ts) && ts[0].Const?
    ensures Assemble(Total(ConstValues(ts)), Sort(NonConstants(ts))) == ts
  {
    LeadingConstantSplit(ts);
    SortedTail(ts);
    SortOfSorted(ts[1..]);
    assert ts == [Const(ts[0].val)] + ts[1..];
  }

  lemma LeadingConstantSplit(ts: seq<Expr>)
    requires |ts| >= 2 && SumTermsCanonical(ts) && ts[0].Const?
    ensures Total(ConstValues(ts)) == ts[0].val && NonConstants(ts) == ts[1..]
  {
    OneConstant(ts, 0);
    TotalSingle(ts[0].val);
    assert ts[..0] + ts[1..] == ts[1..];
  }

  lemma FlattenFlat(ts: seq<Expr>)
    requires NoSumTerm(ts)
    ensures FlattenSum(ts) == ts
  {
    assert forall i :: 0 <= i < |ts| ==> SumPiece(ts[i]) == [ts[i]];
    ConcatMapIdentity(ts, SumPiece);
  }

  /** The terms of a canonical sum are already in sum-term form. */
  lemma SumTermsOfCanonical(ts: seq<Expr>)
    requires |ts| >= 2 && SumTermsCanonical(ts)
    ensures SumTerms(ts) == ts && SumTerms([Add(ts)]) == ts
  {
    FlattenFlat(ts);
    ConcatMapSingle(Add(ts), SumPiece);
    AssembleCanonical(ts);
  }

  /** A sum of one canonical term is that term. */
  lemma SumSingleton(e: Expr)
    requires Canon(e)
    ensures Sum([e]) == e
  {
    ConcatMapSingle(e, SumPiece);
    if e.Add? {
      SumTermsOfCanonical(e.terms);
    } else {
      ConcatMapSingle(e, ConstPiece);
      ConcatMapSingle(e, NonConstPiece);
      assert FlattenSum([e]) == [e];
      if e.Const? {
        TotalSingle(e.val);
        assert SumTerms([e]) == Assemble(e.val, Sort([]));
      } else {
        assert Sort([e]) == Insert(e, Sort([]));
        assert SumTerms([e]) == Assemble(0, [e]);
      }
    }
  }

  /** Rebuilding a canonical sum from its terms gives it back. */
  lemma SumOfCanonical(ts: seq<Expr>)
    requires Canon(Add(ts))
    ensures Sum(ts) == Add(ts)
  {
    SumTermsOfCanonical(ts);
  }

  /** The order of the terms does not matter. */
  lemma SumPerm(p: seq<Expr>, q: seq<Expr>)
    requires multiset(p) == multiset(q)
    ensures Sum(p) == Sum(q)
  {
    ConcatMapPerm(p, q, SumPiece);
    ConcatMapPerm(FlattenSum(p), FlattenSum(q), ConstPiece);
    ConcatMapPerm(FlattenSum(p), FlattenSum(q), NonConstPiece);
    TotalPerm(ConstValues(FlattenSum(p)), ConstValues(FlattenSum(q)));
    SortPermEqual(NonConstants(FlattenSum(p)), NonConstants(FlattenSum(q)));
  }

  /** A sum of constants is the constant of their total. */
  lemma SumOfConstants(ts: seq<Expr>)
    requires forall i :: 0 <= i < |ts| ==> ts[i].Const?
    ensures Sum(ts) == Const(Total(ConstValues(ts)))
  {
    ConcatMapIdentity(ts, SumPiece);
    ConcatMapEmpty(ts, NonConstPiece);
  }

  /** Adding the term 0 changes nothing. */
  lemma SumZeroTerm(ts: seq<Expr>)
    ensures Sum(ts + [Const(0)]) == Sum(ts)
  {
    var flat := FlattenSum(ts);
    ConcatMapAppend(ts, [Const(0)], SumPiece);
    ConcatMapSingle(Const(0), SumPiece);
    ConcatMapAppend(flat, [Const(0)], ConstPiece);
    ConcatMapSingle(Const(0), ConstPiece);
    ConcatMapAppend(flat, [Const(0)], NonConstPiece);
    ConcatMapSingle(Const(0), NonConstPiece);
    TotalAppend(ConstValues(flat), [0]);
    assert [0][..0] == [];
    assert NonConstants(flat) + [] == NonConstants(flat);
  }

  /** The sum of two constants adds their values. */
  lemma SumOfTwoConstants(a: int, b: int)
    ensures Sum([Const(a), Const(b)]) == Const(a + b)
  {
    SumOfConstants([Const(a), Const(b)]);
    PairValues(a, b);
    TotalPair(a, b);
  }

  lemma PairValues(a: int, b: int)
    ensures ConstValues([Const(a), Const(b)]) == [a, b]
  {
    assert [Const(a), Const(b)] == [Const(a)] + [Const(b)];
    ConcatMapAppend([Const(a)], [Const(b)], ConstPiece);
    ConcatMapSingle(Const(a), ConstPiece);
    ConcatMapSingle(Const(b), ConstPiece);
  }

  lemma TotalPair(a: int, b: int)
    ensures Total([a, b]) == a + b
  {
    assert [a, b][..1] == [a];
    TotalSingle(a);
  }

  /** 0 + t is t. */
  lemma ZeroPlus(t: Expr)
    requires Canon(t)
    ensures Sum([Const(0), t]) == t
  {
    assert multiset([Const(0), t]) == multiset([t] + [Const(0)]);
    SumPerm([Const(0), t], [t] + [Const(0)]);
    SumZeroTerm([t]);
    SumSingleton(t);
  }
}
