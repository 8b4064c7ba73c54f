# Expression algebra of deriv, modelled in Dafny

This project models the core of the `deriv` symbolic-differentiation engine: one
closed expression datatype and the smart constructors that keep every tree in
canonical form. The constructors are the product canonicaliser `Mult.mult` with
its helper passes, and the power constructor `Power.power`. On top of them sit
the constant and variable leaves and the per-variant derivative and
substitution rules. Each rule rebuilds its result through the smart
constructors.

The canonical form is the predicate `NormalForm.Canon`. Every constructor
requires canonical arguments and gives back a canonical result. This is also
what makes the mutual recursion terminate:

- `Products.Simplify` repeats one round of the three passes until the list is
  simplified;
- `Powers.Power` recurses into `Products.Product`;
- `Calculus.Differentiate` recurses into the product of the remaining factors.

Each of the four loops of `Mult.java` is a method with a `while` loop, proved
equal to the specification function that the functional pipeline uses:
`Products.WithoutNesting`, `Products.SimplifyConstantFactors`,
`Products.SimplifyFactors` and `Products.IsSimplified`.

Modules, in dependency order:

- `Seqs`: concat-map, integer product and sum, and their behaviour under
  permutation;
- `Expressions`: the datatype, a prefix-free key and the total order it
  induces, and the base/exponent view;
- `NormalForm`: the simplified-list predicate and `Canon`;
- `Sums` and `Logs`: stand-ins for the sum and logarithm constructors;
- `PowerAtoms`: the power rules for a base that is neither a product nor a
  power;
- `ProductSteps`: the three passes as functions;
- `Products`: simplify, mult, the loops, and the constant and symbolic parts;
- `OrderFinding`: the simplified check exactly as written;
- `Powers`: power, poly and exponential;
- `Occurrence`: which variables occur in an expression, and the proof that no constructor adds one;
- `Constants` and `Variables`: the leaves;
- `Calculus`: differentiation and substitution.

The source mixes two drafts. One uses `String` variable names and `Double`
constants; the other uses `Variable` objects, `Integer` constants and
`Optional` results. The model unifies them:

- constants are exact integers;
- the variable argument of differentiation and substitution has type
  `Variable`, a subset of `Expr`;
- substitution and differentiation return plain expressions, because every
  shown variant always produces one.

The source's own test of products (`ExpressionTest.java:31-38`) says that the
order of the factors must not affect equality. Yet `Mult.equals`
(`Mult.java:59-68`) compares the factor lists in order, `Mult.java` has no
sort, and `isSimplified` has no order check. The model records the source as
written in `OrderFinding`. Its `Simplified` adds the order check, so that every
permutation of the factors gives the same product. See the Findings section.

## Model

| member | source | states |
|---|---|---|
| Products.MultOf | src/main/java/horeilly1101/Expression/Mult.java:26-34 | building a product fails exactly on an empty factor list; otherwise the result is canonical |
| Products.Product | src/main/java/horeilly1101/Expression/Mult.java:26-34 | the product of a non-empty list of canonical factors is canonical |
| Products.MultOfSingleton | src/main/java/horeilly1101/Expression/Mult.java:33 | mult of one canonical factor returns that factor |
| Products.ProductSingleton | src/main/java/horeilly1101/Expression/Mult.java:32-33 | the product of one canonical factor, product or not, is that factor |
| Products.Simplify | src/main/java/horeilly1101/Expression/Mult.java:113-120 | the result is non-empty, canonical and satisfies every simplified condition (at most one constant, no 1 or 0 beside others, no product factor, distinct bases, base order) |
| Products.SimplifyIdempotent | src/main/java/horeilly1101/Expression/Mult.java:113-120 | simplifying a simplified list changes nothing |
| Products.SimplifyRound | src/main/java/horeilly1101/Expression/Mult.java:113-120 | adding or skipping one round of the three passes does not change the outcome |
| Products.ProductOfCanonical | src/main/java/horeilly1101/Expression/Mult.java:26-34 | rebuilding a canonical product from its own factors gives it back |
| Products.ProductPermutation | src/test/java/horeilly1101/ExpressionTest.java:31-38 | two factor lists that are permutations of each other have the same product |
| Products.ProductZero | src/main/java/horeilly1101/Expression/Mult.java:181-184 | a factor 0 anywhere makes the product 0 |
| Products.ProductOne | src/main/java/horeilly1101/Expression/Mult.java:177-187 | a factor 1 does not change the product |
| Products.ProductOfConstants | src/main/java/horeilly1101/Expression/Mult.java:168-187 | a product of constants is the constant of their integer product |
| Products.ProductOfTwoConstants | src/main/java/horeilly1101/Expression/Mult.java:168-187 | a product of two constants multiplies their values |
| Products.ProductSquare | src/main/java/horeilly1101/Expression/Mult.java:122-150 | x * x is x ^ 2 for every factor that is not a constant, product or power |
| Products.WithoutNesting | src/main/java/horeilly1101/Expression/Mult.java:201-214 | the loop output is the factor list with every product factor's factors spliced in place, all other factors kept in order |
| ProductSteps.FlattenedMembers | src/main/java/horeilly1101/Expression/Mult.java:201-214 | after splicing, no factor of canonical input is a product |
| Products.SimplifyConstantFactors | src/main/java/horeilly1101/Expression/Mult.java:163-190 | the loop output is the folded list: the non-constants in order, then the constant product unless it is 1; just [0] if the product is 0; [1] if only constants multiplying to 1 were given |
| ProductSteps.FoldShape | src/main/java/horeilly1101/Expression/Mult.java:177-187 | after folding there is at most one constant, and no 1 or 0 beside other factors |
| ProductSteps.FoldPerm | src/main/java/horeilly1101/Expression/Mult.java:163-190 | folding permuted lists gives permuted results |
| Products.SimplifyFactors | src/main/java/horeilly1101/Expression/Mult.java:129-150 | the exponent-map loop and the second loop give, for each base in canonical order, the base raised to the sum of that base's exponents |
| Products.ExponentMapStep | src/main/java/horeilly1101/Expression/Mult.java:132-142 | one step of the first loop keeps the map's keys equal to the bases seen so far, each mapped to that base's exponents in order |
| ProductSteps.BaseListSpec | src/main/java/horeilly1101/Expression/Mult.java:129-150 | the keys are strictly ordered, are exactly the bases of the input, and are never more than the factors |
| ProductSteps.BaseListDistinct | src/main/java/horeilly1101/Expression/Mult.java:129-150 | there are as many keys as factors exactly when the bases are pairwise distinct |
| ProductSteps.ExpsOfUnique | src/main/java/horeilly1101/Expression/Mult.java:132-142 | with distinct bases each base collects exactly its own factor's exponent |
| ProductSteps.GroupedDistinct | src/main/java/horeilly1101/Expression/Mult.java:129-150 | grouping factors with distinct bases keeps the same factors, ordered by base |
| ProductSteps.GroupedPerm | src/main/java/horeilly1101/Expression/Mult.java:129-150 | grouping does not depend on the order of the input |
| ProductSteps.RoundShrinks | src/main/java/horeilly1101/Expression/Mult.java:113-120 | a round on a flat list never lengthens it, and one that keeps the length yields a simplified list |
| ProductSteps.RoundFix | src/main/java/horeilly1101/Expression/Mult.java:113-120 | a round leaves a simplified list unchanged |
| ProductSteps.RoundPerm | src/main/java/horeilly1101/Expression/Mult.java:113-120 | a round does not depend on the order of the input |
| Products.IsSimplified | src/main/java/horeilly1101/Expression/Mult.java:220-243 | the counting loop returns true exactly when the list is simplified (with the base-order check added) |
| Products.ConstantFactor | src/main/java/horeilly1101/Expression/Mult.java:47-51 | the constant factor is a constant, and it is either one of the factors or 1 |
| Products.ConstantFactorFirst | src/main/java/horeilly1101/Expression/Mult.java:47-51 | the constant factor is the first constant among the factors |
| Products.ConstantFactorNone | src/main/java/horeilly1101/Expression/Mult.java:47-51 | with no constant factor the constant factor is 1 |
| Products.SymbolicFactors | src/main/java/horeilly1101/Expression/Mult.java:53-56 | the product of the non-constant factors is canonical |
| Products.CanonicalHasSymbolic | src/main/java/horeilly1101/Expression/Mult.java:53-56 | a canonical product always has a non-constant factor, so the symbolic part is never the product of an empty list |
| Products.ProductRebuild | src/main/java/horeilly1101/Expression/Mult.java:47-56 | the constant factor times the symbolic factors is the product again |
| OrderFinding.SimplifyAsWritten | src/main/java/horeilly1101/Expression/Mult.java:113-120 | simplify over the check exactly as written ends in a list passing that check |
| OrderFinding.ProductAsWritten | src/main/java/horeilly1101/Expression/Mult.java:26-34 | mult over the check as written builds a product only from a list passing that check |
| OrderFinding.AsWrittenKeepsOrder | src/main/java/horeilly1101/Expression/Mult.java:220-243 | a list the check as written accepts is returned in the order given |
| OrderFinding.AsWrittenOrderMatters | src/test/java/horeilly1101/ExpressionTest.java:31-38 | as written, x * 2 and 2 * x are different products |
| OrderFinding.OrderedProductsAgree | src/test/java/horeilly1101/ExpressionTest.java:31-38 | with the order check, x * 2 and 2 * x are the same product, 2 first |
| Powers.Power | src/main/java/horeilly1101/Expression/Power.java:26-58 | the result is canonical; a raw power node it returns never has exponent 0 or 1, a product or power base, or a constant base with a non-negative constant exponent |
| Powers.PowerOne | src/main/java/horeilly1101/Expression/Power.java:27-30 | power(b, 1) is b |
| Powers.PowerZero | src/main/java/horeilly1101/Expression/Power.java:32-35 | power(b, 0) is 1, including power(1, 0) and power(0, 0) |
| Powers.PowerOfConstants | src/main/java/horeilly1101/Expression/Power.java:37-44 | a constant to a non-negative constant is the constant of the integer power |
| Powers.PowerOfProduct | src/main/java/horeilly1101/Expression/Power.java:46-50 | a product base is distributed for every canonical exponent: power is the product of each factor raised to the exponent (for exponents 1 and 0 the earlier rules give the same value) |
| Powers.PowerOfPower | src/main/java/horeilly1101/Expression/Power.java:52-55 | a power base is collapsed for every canonical exponent: its base raised to the product of the new and old exponents |
| Powers.PowerOfPowerConstant | src/main/java/horeilly1101/Expression/Power.java:52-55 | (v ^ a) ^ n is v ^ (n * a) |
| PowerAtoms.PowerAtom | src/main/java/horeilly1101/Expression/Power.java:26-58 | on a canonical base that is neither product nor power, the rule chain gives a canonical result that is not a product; exponent 1 gives the base and exponent 0 gives 1 |
| Powers.PowerOfAtom | src/main/java/horeilly1101/Expression/Power.java:26-58 | on a base that is neither product nor power, power agrees with the rules that the product grouping applies |
| Powers.PowerRebuild | src/main/java/horeilly1101/Expression/Power.java:68-76 | every canonical expression is power of its own base and exponent |
| Powers.Poly | src/main/java/horeilly1101/Expression/Power.java:60-62 | poly of a canonical base is canonical |
| Powers.PolyTrivial | src/main/java/horeilly1101/Expression/Power.java:60-62 | poly(b, 1) is b and poly(b, 0) is 1 |
| Powers.Exponential | src/main/java/horeilly1101/Expression/Power.java:64-66 | exponential builds a power node; it is canonical whenever the exponent is canonical and not a non-negative constant |
| Powers.ExponentialParts | src/main/java/horeilly1101/Expression/Power.java:64-76 | the accessors return the constant base and the exponent given to exponential |
| Powers.ExponentialIsRaw | src/main/java/horeilly1101/Expression/Power.java:64-66 | exponential skips the rules: exponential(2, 1) is not power(2, 1) and is not canonical |
| Constants.Constant | src/main/java/com/deriv/expression/Constant.java:28-30 | constant(v) is a canonical constant with value v |
| Constants.GetVal | src/main/java/com/deriv/expression/Constant.java:45-47 | the constant built from getVal's result is the constant read |
| Constants.ValueRoundTrip | src/main/java/com/deriv/expression/Constant.java:28-47 | getVal reads back the value given to constant, and constant rebuilds a constant from its value |
| Constants.NamedConstant | src/main/java/com/deriv/expression/Constant.java:36-39 | a named constant is a canonical variable node carrying exactly the given name |
| Constants.ConstantEquality | src/main/java/com/deriv/expression/Constant.java:88-98 | two constants are equal exactly when their values are; a constant equals no other variant |
| Constants.IsNegativeValue | src/main/java/com/deriv/expression/Constant.java:59-62 | a constant is negative exactly when its value is below 0 |
| Constants.MultId | src/main/java/com/deriv/expression/Constant.java:68-70 | the multiplicative identity is the constant 1 |
| Constants.AddId | src/main/java/com/deriv/expression/Constant.java:76-78 | the additive identity is the constant 0 |
| Constants.IdentitiesInProducts | src/main/java/com/deriv/expression/Constant.java:64-78 | the multiplicative identity does not change a product; the additive identity makes it 0 |
| Constants.ConstantRebuild | src/main/java/com/deriv/expression/Constant.java:49-57 | a constant's constant factor times its symbolic factor is the constant again |
| Constants.E | src/main/java/com/deriv/expression/Constant.java:84-86 | e is a canonical variable node named "e" |
| Constants.ConstantFactorOf | src/main/java/com/deriv/expression/Constant.java:49-52 | a constant's constant factor is a constant of the same value |
| Constants.SymbolicFactorsOf | src/main/java/com/deriv/expression/Constant.java:54-57 | a constant's symbolic factor is the canonical multiplicative identity |
| Constants.IsNegative | src/main/java/com/deriv/expression/Constant.java:59-62 | isNegative holds exactly when the value is below 0 |
| Constants.ENamed | src/main/java/com/deriv/expression/Constant.java:84-86 | e is the variable node named "e", not a constant |
| Variables.NewVar | src/main/java/com/deriv/expression/Variable.java:26-32 | building a variable fails exactly on the name "e"; otherwise the result is canonical |
| Variables.NewVarName | src/main/java/com/deriv/expression/Variable.java:26-32 | every other name gives a variable reporting that name |
| Variables.X | src/main/java/com/deriv/expression/Variable.java:34-36 | x is a canonical variable node named "x" |
| Variables.XIsNamedX | src/main/java/com/deriv/expression/Variable.java:34-36 | x is the variable built from the name "x" |
| Variables.VariableEquality | src/main/java/com/deriv/expression/Variable.java:38-48 | variables are equal exactly when their names are |
| Variables.ReservedNameBypassed | src/main/java/com/deriv/expression/Constant.java:36-39 | the named-constant constructor builds the variable named "e" that var refuses |
| Expressions.Base | src/main/java/horeilly1101/Expression/Mult.java:132-142 | a factor that is not a power is its own base |
| Expressions.Exponent | src/main/java/horeilly1101/Expression/Mult.java:132-142 | a factor that is not a power has exponent 1 |
| Sums.Sum | src/main/java/horeilly1101/Expression/Mult.java:90-100 | stand-in for add: a sum of canonical terms is canonical |
| Logs.NaturalLog | src/main/java/horeilly1101/Expression/Power.java:113-115 | stand-in for ln: the logarithm of a canonical expression is canonical |
| Calculus.Differentiate | src/main/java/horeilly1101/Expression/Mult.java:90-100 | the derivative of a canonical expression is canonical |
| Calculus.DiffProduct | src/main/java/horeilly1101/Expression/Mult.java:90-100 | the product rule's result is canonical |
| Calculus.DiffPower | src/main/java/horeilly1101/Expression/Power.java:106-119 | the general f ^ g rule's result is canonical |
| Calculus.PowerChainRule | src/main/java/horeilly1101/Expression/Power.java:111-118 | f ^ g * (g' * ln f + g * f' * f ^ -1), built by the smart constructors from canonical f, g, f' and g', is canonical |
| Calculus.Evaluate | src/main/java/horeilly1101/Expression/Mult.java:83-88 | substitution into a canonical expression gives a canonical expression |
| Calculus.EvaluateEliminates | src/main/java/horeilly1101/Expression/Mult.java:83-88 | substitution replaces every occurrence: after substituting an input free of v, v occurs nowhere in the result, products, powers, sums and logarithms included |
| Occurrence.ProductFree | src/main/java/horeilly1101/Expression/Mult.java:26-34 | mult introduces no variable: one absent from every factor is absent from the product |
| Occurrence.PowerFree | src/main/java/horeilly1101/Expression/Power.java:26-58 | power introduces no variable: one absent from base and exponent is absent from the result |
| Occurrence.SimplifyFree | src/main/java/horeilly1101/Expression/Mult.java:113-120 | no round of simplify brings in a variable absent from the factors |
| Calculus.ConstantRules | src/main/java/com/deriv/expression/Constant.java:115-123 | a constant's derivative is 0, and substitution leaves it unchanged |
| Calculus.VariableRules | src/main/java/com/deriv/expression/Variable.java:60-72 | a variable's derivative is 1 with respect to itself and 0 otherwise; substitution replaces exactly the variable substituted for |
| Calculus.EvaluateUnchanged | src/main/java/horeilly1101/Expression/Power.java:100-104 | substituting for a variable that does not occur, or a variable for itself, gives back the same expression |
| Calculus.DerivativeAbsent | src/main/java/horeilly1101/Expression/Power.java:106-119 | an expression in which the variable does not occur has derivative 0 |
| Calculus.TwoFactorRule | src/main/java/horeilly1101/Expression/Mult.java:90-100 | d(f * g) = f * d(g) + d(f) * g |
| Calculus.ConstantMultipleRule | src/main/java/horeilly1101/Expression/Mult.java:90-100 | d(c * f) = c * d(f) whenever c * f is a canonical two-factor product, that is, for c not 0 or 1 and a single factor f that is not a constant or a product |
| Calculus.PowerRule | src/main/java/horeilly1101/Expression/Power.java:106-119 | d(v ^ n)/dv = n * v ^ (n - 1) for every exponent a power node can carry (n not 0 or 1) |
| Calculus.PolyRule | src/main/java/horeilly1101/Expression/Power.java:60-62 | d(poly(v, n))/dv = n * poly(v, n - 1) for every integer n, the exponents 0 and 1 included |
| Calculus.SquareDerivative | src/test/java/horeilly1101/ExpressionTest.java:16-21 | d(x ^ 2)/dx = 2 * x, which is the same product as x * 2 |
| Calculus.EvaluatePowerAtConstant | src/main/java/horeilly1101/Expression/Power.java:100-104 | substituting the constant a into v ^ n gives the constant a to the n, for n >= 2 |

## Left out

- Floating point. The source folds constants in `Double` and rounds `Math.pow`. The model uses exact unbounded integers. It folds a constant to a constant only for non-negative exponents and keeps a raw power node for a negative exponent of a constant base. Without this, 2 ^ -1 would round to 1.
- 32-bit integers. `Integer` constants and the `(int)` cast of the rounded power can wrap around; the model's integers never do.
- Division by zero. The general power rule multiplies by power(base, -1); for a zero base this is undefined. The model keeps the raw node 0 ^ -1 and gives it no value.
- Hash order. `simplifyFactors` emits bases in `HashMap` key order. The model emits them in the canonical key order, `Expressions.ExprLess`.
- Products.IsSimplified: it checks the base order as well, so it is stronger than the source's check. The check as written is `OrderFinding.SimplifiedAsWritten`.
- Sums.Sum and Logs.NaturalLog: stand-ins for the sum and logarithm classes, which are not part of this model. The logarithm builds the raw node; nothing is claimed about it beyond canonicity. The sum stands for an `add` that flattens nested sums, folds its constants, drops a 0 beside other terms, ignores the order of its terms (it sorts them), and returns a single remaining term unwrapped. The lemmas Sums.SumPerm, Sums.SumOfConstants, Sums.SumOfTwoConstants, Sums.SumZeroTerm and Sums.ZeroPlus prove these properties of the stand-in. The following results rest on them, so they hold for the source only if its `add` has the same properties:
  - Products.ProductPermutation, through ProductSteps.GroupedPerm, which sums each base's exponents in whatever order the factors come (x ^ y * x ^ z groups to x ^ (y + z) or x ^ (z + y));
  - Products.ProductSquare, which needs 1 + 1 = 2;
  - Calculus.PowerRule and Calculus.PolyRule, which need n + -1 = n - 1;
  - Calculus.ConstantMultipleRule and Calculus.DerivativeAbsent, which need 0 + t = t and 0 + 0 = 0.
- Calculus.Differentiate: the sum and logarithm rules (term by term; d(ln a) = d(a) * a ^ -1) are stand-ins for the same unseen classes.
- Calculus.ConstantMultipleRule: stated only for a canonical two-factor node c * f. When c is 0 or 1, or f is a constant or a product, mult does not build that node, and the identity is not proved for those inputs.
- Calculus.Evaluate: it also rebuilds sum and logarithm nodes, through the stand-ins Sums.Sum and Logs.NaturalLog. For those nodes, what is proved about substitution holds for the stand-ins only: the result is canonical, and the variable is removed (Occurrence.SumFree, Occurrence.NaturalLogFree).
- Powers.Exponential: builds a raw node without the rules, as the source does. It is canonical, and so an argument of the other constructors, whenever its exponent is canonical and not a non-negative constant. The one case outside the model is exponential(b, n) with n >= 0 a constant: it is not canonical, so no constructor of the model accepts it. The source's mult does accept it and folds it while grouping: mult(exponential(2, 1), 2) is power(2, 2) = 4.
- Products.SymbolicFactors: defined for canonical factor lists that have a non-constant factor. For a list of constants only, the source's mult of an empty list throws; a canonical product never has such a list.
- Tensor. Its class has no behaviour (its validity check always holds and it has no derivative or substitution), so it is not a variant here.
- `toString`, `toLaTex` and `hashCode`: presentation only.
- The debug `println` in `Variable.differentiate` and the `addStep` step tracking, whose class is not part of this model.
- `Optional` results: every shown variant always returns a value, so results are plain expressions.
- The `Add`, `Log`, `Trig`, `Expression` and `AExpression` classes are not part of this model. The base = self, exponent = 1 default of the interface is `Expressions.Base` / `Expressions.Exponent`.

## Findings

| source | as written | input that shows it | evidently intended | confidence | as-written member | corrected member |
|---|---|---|---|---|---|---|
| src/main/java/horeilly1101/Expression/Mult.java:220-243 | `isSimplified` accepts any order of factors, so `mult` returns an already simplified list as given, and `equals` compares factor lists in order | mult(x, 2) and mult(2, x): both lists pass the check, giving the products [x, 2] and [2, x], which differ, while ExpressionTest.java:31-38 expects them equal | simplified lists are also ordered by base, so every permutation of the factors gives the same product | not executed | OrderFinding.AsWrittenOrderMatters | OrderFinding.OrderedProductsAgree |
