/** Lagrange coefficients at zero over a signing set, and why they reconstruct. */
module Lagrange {
  import opened Wrappers
  import opened Lists
  import opened Field
  import opened Polynomials

  // ---------------------------------------------------------------- the coefficient

  /** Product of -k over the entries k of the set other than i. */
  function LambdaNum(s: seq<u16>, i: u16): Scalar {
    if s == [] then 1 else
      var p := LambdaNum(s[..|s| - 1], i);
      var k := s[|s| - 1];
      if k == i then p else Mul(p, Neg(k))
  }

  /** Product of i - k over the same entries. */
  function LambdaDen(s: seq<u16>, i: u16): Scalar {
    if s == [] then 1 else
      var p := LambdaDen(s[..|s| - 1], i);
      var k := s[|s| - 1];
      if k == i then p else Mul(p, Sub(i, k))
  }

  function Lambda(s: seq<u16>, i: u16): Scalar {
    Mul(LambdaNum(s, i), Invert(LambdaDen(s, i)))
  }

  function LagrangeResult(s: seq<u16>, i: u16): Result<Scalar> {
    if i !in s then Err(UnknownParticipant)
    else if 0 in s then Err(InvalidSigningSet)
    else Ok(Lambda(s, i))
  }

  /** The source's loop. The zero-denominator exit is kept and shown unreachable: distinct u16
      indices stay distinct modulo Q, and equal entries are skipped. */
  method LagrangeCoefficientAtZero(signingSet: seq<u16>, i: u16) returns (r: Result<Scalar>)
    ensures r == LagrangeResult(signingSet, i)
    ensures i !in signingSet <==> r == Err(UnknownParticipant)
    ensures i in signingSet && 0 in signingSet <==> r == Err(InvalidSigningSet)
    ensures i in signingSet && 0 !in signingSet <==> r.Ok?
  {
    if i !in signingSet {
      return Err(UnknownParticipant);
    }
    if 0 in signingSet {
      return Err(InvalidSigningSet);
    }
    var num: Scalar, den: Scalar := 1, 1;
    for j := 0 to |signingSet|
      invariant num == LambdaNum(signingSet[..j], i)
      invariant den == LambdaDen(signingSet[..j], i)
    {
      assert signingSet[..j + 1][..j] == signingSet[..j];
      var k := signingSet[j];
      if k == i {
        continue;
      }
      num := Mul(num, Neg(k));
      var diff := Sub(i, k);
      SmallNonzero(i - k);
      if diff == 0 {
        return Err(InvalidSigningSet);
      }
      den := Mul(den, diff);
    }
    assert signingSet[..|signingSet|] == signingSet;
    r := Ok(Mul(num, Invert(den)));
  }

  // ---------------------------------------------------------------- integer counterparts

  /** The factor that entry k contributes to each product. */
  ghost function NumFactor(k: int, i: int): int { if k == i then 1 else -k }
  ghost function DenFactor(k: int, i: int): int { if k == i then 1 else i - k }

  ghost function NumZ(s: seq<u16>, i: int): int {
    if s == [] then 1 else NumZ(s[..|s| - 1], i) * NumFactor(s[|s| - 1], i)
  }

  ghost function DenZ(s: seq<u16>, i: int): int {
    if s == [] then 1 else DenZ(s[..|s| - 1], i) * DenFactor(s[|s| - 1], i)
  }

  lemma {:induction false} NumReduces(s: seq<u16>, i: u16)
    ensures LambdaNum(s, i) == Red(NumZ(s, i))
  {
    hide Red;
    RedScalar(1);
    if s != [] {
      NumReduces(s[..|s| - 1], i);
      RedOuter(NumZ(s[..|s| - 1], i), NumFactor(s[|s| - 1], i));
    }
  }

  lemma {:induction false} DenReduces(s: seq<u16>, i: u16)
    ensures LambdaDen(s, i) == Red(DenZ(s, i))
  {
    hide Red;
    RedScalar(1);
    if s != [] {
      DenReduces(s[..|s| - 1], i);
      RedOuter(DenZ(s[..|s| - 1], i), DenFactor(s[|s| - 1], i));
    }
  }

  lemma {:induction false} DenNonzero(s: seq<u16>, i: u16)
    ensures Red(DenZ(s, i)) != 0
  {
    hide Red;
    RedScalar(1);
    if s != [] {
      DenNonzero(s[..|s| - 1], i);
      SmallNonzero(DenFactor(s[|s| - 1], i));
      NonzeroProduct(DenZ(s[..|s| - 1], i), DenFactor(s[|s| - 1], i));
    }
  }

  /** The coefficient is the fraction of the two products. */
  lemma {:induction false} LambdaFraction(s: seq<u16>, i: u16)
    ensures Red(Lambda(s, i) * DenZ(s, i)) == Red(NumZ(s, i))
  {
    hide Red, Invert, DenZ, NumZ, LambdaNum, LambdaDen, Mul;
    NumReduces(s, i);
    DenReduces(s, i);
    DenNonzero(s, i);
    FractionTimesDenominator(LambdaNum(s, i), LambdaDen(s, i), DenZ(s, i));
  }

  lemma {:induction false} NumNonzero(s: seq<u16>, i: u16)
    requires 0 !in s
    ensures Red(NumZ(s, i)) != 0
  {
    hide Red;
    RedScalar(1);
    if s != [] {
      assert s[|s| - 1] in s;
      NumNonzero(s[..|s| - 1], i);
      SmallNonzero(NumFactor(s[|s| - 1], i));
      NonzeroProduct(NumZ(s[..|s| - 1], i), NumFactor(s[|s| - 1], i));
    }
  }

  /** No member of a set without index zero has weight zero. */
  lemma LambdaNonzero(s: seq<u16>, i: u16)
    requires 0 !in s
    ensures Lambda(s, i) != 0
  {
    hide Red, NumZ, DenZ, Lambda;
    LambdaFraction(s, i);
    NumNonzero(s, i);
    RedScalar(0);
  }

  /** Naming a member twice is not refused and gives every other member a wrong weight. */
  lemma RepeatedIndexShiftsWeights(s: seq<u16>, i: u16, k: u16)
    requires Distinct(s) && 0 !in s && i in s && k in s && k != i
    ensures LagrangeResult(s, i) == Ok(Lambda(s, i)) && LagrangeResult(s + [k], i) == Ok(Lambda(s + [k], i))
    ensures Lambda(s + [k], i) != Lambda(s, i)
  {
    hide Red, NumZ, DenZ, Lambda, Distinct;
    var l, n, d := Lambda(s, i), NumZ(s, i), DenZ(s, i);
    LambdaFraction(s, i);
    LambdaFraction(s + [k], i);
    ProductsLast(s, k, i);
    LambdaNonzero(s, i);
    DenNonzero(s, i);
    RedScalar(l);
    SmallNonzero(i);
    WeightsDiffer(l, n, d, i, k);
  }

  lemma WeightsDiffer(l: Scalar, n: int, d: int, i: int, k: int)
    requires Red(l * d) == Red(n) && l != 0 && Red(d) != 0 && Red(i) != 0
    ensures Red(l * (d * (i - k))) != Red(n * -k)
  {
    hide Red;
    RedScalar(l);
    RedScalar(0);
    NonzeroProduct(l, d);
    NonzeroProduct(l * d, i);
    RedProduct(l * d, n, -k, -k);
    assert l * (d * (i - k)) - l * d * -k == l * d * i;
    if Red(l * (d * (i - k))) == Red(n * -k) {
      RedSum(l * (d * (i - k)), n * -k, l * d * -k, n * -k);
    }
  }

  // ---------------------------------------------------------------- removing one index

  ghost function Without(s: seq<u16>, a: int): seq<u16> {
    if s == [] then [] else
      Without(s[..|s| - 1], a) + (if s[|s| - 1] == a then [] else [s[|s| - 1]])
  }

  lemma WithoutLast(part: seq<u16>, a: int)
    requires part != []
    ensures var rest := Without(part[..|part| - 1], a);
            Without(part, a) == if part[|part| - 1] == a then rest else rest + [part[|part| - 1]]
  {
  }

  lemma {:induction false} WithoutAbsent(s: seq<u16>, a: int)
    requires a !in s
    ensures Without(s, a) == s
  {
    if s != [] {
      WithoutAbsent(s[..|s| - 1], a);
    }
  }

  lemma {:induction false} WithoutElements(s: seq<u16>, a: int)
    ensures forall k: u16 :: k in Without(s, a) <==> k in s && k != a
  {
    if s != [] {
      WithoutElements(s[..|s| - 1], a);
      assert s == s[..|s| - 1] + [s[|s| - 1]];
    }
  }

  lemma {:induction false} WithoutDistinct(s: seq<u16>, a: int)
    requires Distinct(s)
    ensures Distinct(Without(s, a))
    ensures |Without(s, a)| == if a in s then |s| - 1 else |s|
  {
    if s != [] {
      var s', k := s[..|s| - 1], s[|s| - 1];
      assert s == s' + [k];
      WithoutDistinct(s', a);
      WithoutElements(s', a);
      DistinctLast(s', k);
      WithoutLast(s, a);
      DistinctLast(Without(s', a), k);
    }
  }

  lemma ProductsLast(s: seq<u16>, k: u16, i: int)
    ensures NumZ(s + [k], i) == NumZ(s, i) * NumFactor(k, i)
    ensures DenZ(s + [k], i) == DenZ(s, i) * DenFactor(k, i)
  {
    assert (s + [k])[..|s|] == s;
  }

  /** One more factor on both sides of n = x * m. */
  lemma ExtendProduct(n: int, n': int, m: int, m': int, x: int, factor: int)
    requires n == x * m && n' == n * factor && m' == m * factor
    ensures n' == x * m'
  {
    MulAssoc(x, m, factor);
  }

  lemma Swap(n: int, n': int, x: int)
    requires n' == n * x
    ensures n' == x * n
  {
  }

  lemma {:induction false} ProductsWithout(s: seq<u16>, a: int, i: u16)
    requires Distinct(s) && a in s && i != a
    ensures NumZ(s, i) == -a * NumZ(Without(s, a), i)
    ensures DenZ(s, i) == (i - a) * DenZ(Without(s, a), i)
  {
    var s', k := s[..|s| - 1], s[|s| - 1];
    assert s == s' + [k];
    assert NumFactor(a, i) == -a && DenFactor(a, i) == i - a;
    hide *;
    DistinctLast(s', k);
    WithoutLast(s, a);
    ProductsLast(s', k, i);
    if k == a {
      WithoutAbsent(s', a);
      Swap(NumZ(s', i), NumZ(s, i), -a);
      Swap(DenZ(s', i), DenZ(s, i), i - a);
    } else {
      ProductsWithout(s', a, i);
      var r := Without(s', a);
      ProductsLast(r, k, i);
      ExtendProduct(NumZ(s', i), NumZ(s, i), NumZ(r, i), NumZ(Without(s, a), i), -a, NumFactor(k, i));
      ExtendProduct(DenZ(s', i), DenZ(s, i), DenZ(r, i), DenZ(Without(s, a), i), i - a, DenFactor(k, i));
    }
  }

  lemma ShiftFraction(l: int, l': int, d: int, n: int, a: int, b: int)
    requires Red(d) != 0
    requires Red(l * (b * d)) == Red(-a * n) && Red(l' * d) == Red(n)
    ensures Red(l * b) == Red(-a * l')
  {
    hide Red;
    MulAssoc(l, b, d);
    RedProduct(-a, -a, l' * d, n);
    MulAssoc(-a, l', d);
    Cancel(l * b, -a * l', d);
  }

  /** Multiplying by i - a trades the coefficient over s for the one over s without a. */
  lemma LambdaShift(s: seq<u16>, a: int, i: u16)
    requires Distinct(s) && a in s && i != a
    ensures Red(Lambda(s, i) * (i - a)) == Red(-a * Lambda(Without(s, a), i))
  {
    hide Red, Lambda, DenZ, NumZ, Without;
    var r := Without(s, a);
    ProductsWithout(s, a, i);
    LambdaFraction(s, i);
    LambdaFraction(r, i);
    DenNonzero(r, i);
    ShiftFraction(Lambda(s, i), Lambda(r, i), DenZ(r, i), NumZ(r, i), a, i - a);
  }

  // ---------------------------------------------------------------- weighted sums

  /** Sum over the entries of `part` of the coefficient over `s` times a weight. */
  ghost function WeightedSum(s: seq<u16>, part: seq<u16>, w: int -> int): int {
    if part == [] then 0 else
      WeightedSum(s, part[..|part| - 1], w) + Lambda(s, part[|part| - 1]) * w(part[|part| - 1])
  }

  /** One more term on both sides; the primed values are the sums after it. */
  lemma ShiftTerm(total: int, total': int, low: int, low': int,
                  l: int, mu: int, a: int, b: int, w: int, term: int)
    requires Red(total) == Red(-a * low) && Red(l * b) == Red(-a * mu)
    requires term == b * w && total' == total + l * term && low' == low + mu * w
    ensures Red(total') == Red(-a * low')
  {
    hide Red;
    RedProduct(l * b, -a * mu, w, w);
    MulAssoc(l, b, w);
    MulAssoc(-a, mu, w);
    RedSum(total, -a * low, l * b * w, -a * mu * w);
    assert -a * low + -a * (mu * w) == -a * (low + mu * w);
  }

  lemma WeightedSumLast(s: seq<u16>, part: seq<u16>, i: u16, w: int -> int)
    ensures WeightedSum(s, part + [i], w) == WeightedSum(s, part, w) + Lambda(s, i) * w(i)
  {
    assert (part + [i])[..|part|] == part;
  }

  lemma ZeroTerm(l: int, b: int, w: int, term: int)
    requires b == 0 && term == b * w
    ensures l * term == 0
  {
  }

  lemma WithoutNext(part: seq<u16>, i: u16, a: int)
    ensures Without(part + [i], a) == if i == a then Without(part, a) else Without(part, a) + [i]
  {
    assert (part + [i])[..|part|] == part;
  }

  lemma WeightedSumShiftStep(
      s: seq<u16>, part: seq<u16>, i: u16, a: int, w: int -> int, shifted: int -> int)
    requires Distinct(s) && a in s
    requires shifted(i) == (i - a) * w(i)
    requires Red(WeightedSum(s, part, shifted)) ==
             Red(-a * WeightedSum(Without(s, a), Without(part, a), w))
    ensures Red(WeightedSum(s, part + [i], shifted)) ==
            Red(-a * WeightedSum(Without(s, a), Without(part + [i], a), w))
  {
    hide *;
    WithoutNext(part, i, a);
    WeightedSumLast(s, part, i, shifted);
    var total, low := WeightedSum(s, part, shifted), WeightedSum(Without(s, a), Without(part, a), w);
    if i == a {
      ZeroTerm(Lambda(s, i), i - a, w(i), shifted(i));
    } else {
      LambdaShift(s, a, i);
      WeightedSumLast(Without(s, a), Without(part, a), i, w);
      ShiftTerm(total, WeightedSum(s, part + [i], shifted),
                low, WeightedSum(Without(s, a), Without(part + [i], a), w),
                Lambda(s, i), Lambda(Without(s, a), i), a, i - a, w(i), shifted(i));
    }
  }

  lemma {:induction false} WeightedSumShift(
      s: seq<u16>, part: seq<u16>, a: int, w: int -> int, shifted: int -> int)
    requires Distinct(s) && a in s
    requires forall x: u16 {:trigger shifted(x)} :: x in part ==> shifted(x) == (x - a) * w(x)
    ensures Red(WeightedSum(s, part, shifted)) ==
            Red(-a * WeightedSum(Without(s, a), Without(part, a), w))
  {
    hide Red, Lambda, Distinct;
    if part != [] {
      var part', i := part[..|part| - 1], part[|part| - 1];
      assert part == part' + [i];
      WeightedSumShift(s, part', a, w, shifted);
      hide WeightedSum, Without;
      WeightedSumShiftStep(s, part', i, a, w, shifted);
    }
  }

  lemma {:induction false} WeightedSumLinear(
      s: seq<u16>, part: seq<u16>, u: int -> int, v: int -> int, w: int -> int, b: int, c: int)
    requires forall x: u16 {:trigger w(x)} :: x in part ==> w(x) == b * u(x) + c * v(x)
    ensures WeightedSum(s, part, w) == b * WeightedSum(s, part, u) + c * WeightedSum(s, part, v)
  {
    hide Lambda;
    if part != [] {
      var part', i := part[..|part| - 1], part[|part| - 1];
      assert part == part' + [i];
      WeightedSumLinear(s, part', u, v, w, b, c);
      var l := Lambda(s, i);
      assert l * (b * u(i) + c * v(i)) == b * (l * u(i)) + c * (l * v(i));
      assert b * (WeightedSum(s, part', u) + l * u(i)) == b * WeightedSum(s, part', u) + b * (l * u(i));
      assert c * (WeightedSum(s, part', v) + l * v(i)) == c * WeightedSum(s, part', v) + c * (l * v(i));
    }
  }

  // ---------------------------------------------------------------- reconstruction

  lemma LambdasSumToOneStep(one: int, ua: int, ub: int, a: int, b: int)
    requires Red(b - a) != 0
    requires Red(ua) == Red(-a) && Red(ub) == Red(-b)
    requires (b - a) * one == ua - ub
    ensures Red(one) == Red(1)
  {
    hide Red;
    RedSum(ua, -a, ub, -b);
    assert one * (b - a) == (b - a) * one;
    Cancel(one, 1, b - a);
  }

  /** The coefficients sum to one: 1 = ((x - a) - (x - b)) / (b - a) for two indices a and b. */
  lemma {:induction false} LambdasSumToOne(s: seq<u16>)
    requires Distinct(s) && s != []
    ensures Red(WeightedSum(s, s, x => 1)) == Red(1)
    decreases |s|, 1
  {
    hide Red, Lambda;
    var one := x => 1;
    if |s| == 1 {
      LambdaFraction(s, s[0]);
      assert s[..0] == [];
      assert NumZ(s, s[0]) == 1 && DenZ(s, s[0]) == 1;
      assert WeightedSum(s, s, one) == WeightedSum(s, s[..0], one) + Lambda(s, s[0]) * 1;
    } else {
      var a: int, b: int := s[0], s[1];
      DistinctIndices(s);
      var ua, ub := x => x - a, x => x - b;
      LambdasShiftedSum(s, a);
      LambdasShiftedSum(s, b);
      WeightedSumLinear(s, s, ua, ub, x => b - a, 1, -1);
      WeightedSumLinear(s, s, one, one, x => b - a, b - a, 0);
      SmallNonzero(b - a);
      LambdasSumToOneStep(WeightedSum(s, s, one), WeightedSum(s, s, ua), WeightedSum(s, s, ub), a, b);
    }
  }

  lemma {:induction false} LambdasShiftedSum(s: seq<u16>, a: int)
    requires Distinct(s) && a in s && |s| >= 2
    ensures Red(WeightedSum(s, s, x => x - a)) == Red(-a)
    decreases |s|, 0
  {
    hide Red, Lambda, WeightedSum;
    var one := y => 1;
    var r := Without(s, a);
    WithoutDistinct(s, a);
    LambdasSumToOne(r);
    WeightedSumShift(s, s, a, one, x => x - a);
    RedProduct(-a, -a, WeightedSum(r, r, one), 1);
  }

  /** Interpolation at zero: the weighted values of a polynomial with no more coefficients than
      there are indices sum to its constant coefficient. */
  lemma {:induction false} Reconstruction(s: seq<u16>, f: seq<int>)
    requires Distinct(s) && |f| <= |s|
    ensures Red(WeightedSum(s, s, x => PolyAt(f, x))) == Red(PolyAt(f, 0))
    decreases |s|, |f|, 0
  {
    hide Red, Lambda, Distinct;
    var zero, one, whole := x => 0, x => 1, x => PolyAt(f, x);
    if f == [] {
      WeightedSumLinear(s, s, zero, zero, whole, 0, 0);
    } else {
      var g := f[1..];
      var tail := x => x * PolyAt(g, x);
      LambdasSumToOne(s);
      TailVanishes(s, g);
      WeightedSumLinear(s, s, one, tail, whole, f[0], 1);
      RedProduct(f[0], f[0], WeightedSum(s, s, one), 1);
      RedSum(f[0] * WeightedSum(s, s, one), f[0] * 1, WeightedSum(s, s, tail), 0);
    }
  }

  lemma TailVanishesStep(a: int, c: int, low: int, high: int, shifted: int)
    requires Red(low) == Red(c) && Red(high) == Red(c) && Red(shifted) == Red(-a * low)
    ensures Red(shifted + a * high) == Red(0)
  {
    hide Red;
    RedProduct(-a, -a, low, c);
    RedProduct(a, a, high, c);
    RedSum(shifted, -a * c, a * high, a * c);
    assert -a * c + a * c == 0;
  }

  lemma EmptyTailVanishes(s: seq<u16>, g: seq<int>)
    requires g == []
    ensures Red(WeightedSum(s, s, x => x * PolyAt(g, x))) == Red(0)
  {
    hide Red, Lambda;
    var zero, tail := x => 0, x => x * PolyAt(g, x);
    WeightedSumLinear(s, s, zero, zero, tail, 0, 0);
  }

  lemma TailShifted(s: seq<u16>, g: seq<int>, a: int)
    ensures WeightedSum(s, s, x => x * PolyAt(g, x)) ==
            WeightedSum(s, s, x => (x - a) * PolyAt(g, x)) + a * WeightedSum(s, s, x => PolyAt(g, x))
  {
    hide Lambda, PolyAt;
    var value, tail := x => PolyAt(g, x), x => x * PolyAt(g, x);
    WeightedSumLinear(s, s, x => (x - a) * PolyAt(g, x), value, tail, 1, a);
  }

  /** The part of a polynomial without its constant coefficient contributes nothing. */
  lemma {:induction false} TailVanishes(s: seq<u16>, g: seq<int>)
    requires Distinct(s) && |g| < |s|
    ensures Red(WeightedSum(s, s, x => x * PolyAt(g, x))) == Red(0)
    decreases |s|, |g|, 1
  {
    hide Red, Lambda, Distinct, PolyAt, WeightedSum, Without;
    if g == [] {
      EmptyTailVanishes(s, g);
    } else {
      var a: int := s[0];
      var r := Without(s, a);
      var value := x => PolyAt(g, x);
      var shifted := x => (x - a) * PolyAt(g, x);
      WithoutDistinct(s, a);
      Reconstruction(r, g);
      Reconstruction(s, g);
      WeightedSumShift(s, s, a, value, shifted);
      TailShifted(s, g, a);
      TailVanishesStep(a, PolyAt(g, 0), WeightedSum(r, r, value), WeightedSum(s, s, value),
                       WeightedSum(s, s, shifted));
    }
  }

  // ---------------------------------------------------------------- enough values determine a polynomial

  /** Coefficients that are the same scalars. */
  ghost predicate SameCoefficients(f: seq<int>, g: seq<int>) {
    |f| == |g| && forall k :: 0 <= k < |f| ==> Red(f[k]) == Red(g[k])
  }

  lemma {:induction false} SameValues(f: seq<int>, g: seq<int>, x: int)
    requires SameCoefficients(f, g)
    ensures Red(PolyAt(f, x)) == Red(PolyAt(g, x))
  {
    hide Red;
    if f != [] {
      SameValues(f[1..], g[1..], x);
      RedProduct(x, x, PolyAt(f[1..], x), PolyAt(g[1..], x));
      RedSum(f[0], g[0], x * PolyAt(f[1..], x), x * PolyAt(g[1..], x));
    }
  }

  lemma {:induction false} WeightedSumCongruent(s: seq<u16>, part: seq<u16>, u: int -> int, v: int -> int)
    requires forall x: u16 {:trigger u(x)} {:trigger v(x)} :: x in part ==> Red(u(x)) == Red(v(x))
    ensures Red(WeightedSum(s, part, u)) == Red(WeightedSum(s, part, v))
  {
    hide Red, Lambda;
    if part != [] {
      var part', i := part[..|part| - 1], part[|part| - 1];
      assert part == part' + [i];
      WeightedSumCongruent(s, part', u, v);
      RedProduct(Lambda(s, i), Lambda(s, i), u(i), v(i));
      RedSum(WeightedSum(s, part', u), WeightedSum(s, part', v), Lambda(s, i) * u(i), Lambda(s, i) * v(i));
    }
  }

  lemma {:induction false} SameConstant(s: seq<u16>, f: seq<int>, g: seq<int>)
    requires Distinct(s) && 0 < |f| == |g| <= |s|
    requires forall i :: i in s ==> Red(PolyAt(f, i)) == Red(PolyAt(g, i))
    ensures Red(f[0]) == Red(g[0])
  {
    PolyAtZero(f);
    PolyAtZero(g);
    hide Red, Distinct, PolyAt, WeightedSum;
    Reconstruction(s, f);
    Reconstruction(s, g);
    WeightedSumCongruent(s, s, x => PolyAt(f, x), x => PolyAt(g, x));
  }

  lemma SameTail(f0: int, g0: int, f': int, g': int, x: int)
    requires Red(f0) == Red(g0) && Red(f0 + x * f') == Red(g0 + x * g') && Red(x) != 0
    ensures Red(f') == Red(g')
  {
    hide Red;
    RedSum(f0 + x * f', g0 + x * g', f0, g0);
    Cancel(f', g', x);
  }

  /** Interpolation is unique: polynomials with no more coefficients than there are indices take the
      same values on a duplicate-free set without zero iff their coefficients are the same scalars. */
  lemma ValuesDetermine(s: seq<u16>, f: seq<int>, g: seq<int>)
    requires Distinct(s) && 0 !in s && |f| == |g| <= |s|
    ensures (forall i :: i in s ==> Red(PolyAt(f, i)) == Red(PolyAt(g, i))) <==> SameCoefficients(f, g)
  {
    hide Red, Distinct, SameCoefficients;
    if SameCoefficients(f, g) {
      forall i | i in s
        ensures Red(PolyAt(f, i)) == Red(PolyAt(g, i))
      {
        SameValues(f, g, i);
      }
    }
    if forall i :: i in s ==> Red(PolyAt(f, i)) == Red(PolyAt(g, i)) {
      ValuesForce(s, f, g);
    }
  }

  lemma {:induction false} ValuesForce(s: seq<u16>, f: seq<int>, g: seq<int>)
    requires Distinct(s) && 0 !in s && |f| == |g| <= |s|
    requires forall i :: i in s ==> Red(PolyAt(f, i)) == Red(PolyAt(g, i))
    ensures SameCoefficients(f, g)
    decreases |f|
  {
    hide Red, Distinct;
    if f != [] {
      SameConstant(s, f, g);
      forall i | i in s
        ensures Red(PolyAt(f[1..], i)) == Red(PolyAt(g[1..], i))
      {
        SmallNonzero(i);
        SameTail(f[0], g[0], PolyAt(f[1..], i), PolyAt(g[1..], i), i);
      }
      ValuesForce(s, f[1..], g[1..]);
      assert forall k :: 0 < k < |f| ==> f[k] == f[1..][k - 1] && g[k] == g[1..][k - 1];
    }
  }

  lemma ScalarsSame(f: seq<Scalar>, g: seq<Scalar>)
    ensures SameCoefficients(f, g) <==> f == g
  {
    hide Red;
    forall k | 0 <= k < |f|
      ensures Red(f[k]) == f[k]
    {
      RedScalar(f[k]);
    }
    forall k | 0 <= k < |g|
      ensures Red(g[k]) == g[k]
    {
      RedScalar(g[k]);
    }
  }
}
