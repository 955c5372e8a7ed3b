/** Polynomials over the scalar field, lowest coefficient first. */
module Polynomials {
  import opened Wrappers
  import opened Lists
  import opened Field

  /** Value at `x` as an unreduced integer. */
  ghost function PolyAt(f: seq<int>, x: int): int {
    if f == [] then 0 else f[0] + x * PolyAt(f[1..], x)
  }

  lemma PolyAtZero(f: seq<int>)
    requires f != []
    ensures PolyAt(f, 0) == f[0]
  {
  }

  /** Horner evaluation, reducing at every step as the scalar type does. */
  function Horner(coeffs: seq<Scalar>, x: Scalar): Scalar {
    if coeffs == [] then 0 else Add(Mul(Horner(coeffs[1..], x), x), coeffs[0])
  }

  lemma {:induction false} HornerIsPolyAt(f: seq<Scalar>, x: Scalar)
    ensures Horner(f, x) == Red(PolyAt(f, x))
  {
    hide Red;
    if f == [] {
      RedScalar(0);
    } else {
      HornerIsPolyAt(f[1..], x);
      RedInner(PolyAt(f[1..], x), x);
      RedInner(PolyAt(f[1..], x) * x, f[0]);
    }
  }

  /** The source's loop: multiply by `x` and add the next coefficient, from the highest down. */
  method HornerEvalScalar(coeffs: seq<Scalar>, x: Scalar) returns (acc: Scalar)
    ensures acc == Horner(coeffs, x)
  {
    acc := 0;
    var k := |coeffs|;
    while k > 0
      invariant 0 <= k <= |coeffs|
      invariant acc == Horner(coeffs[k..], x)
    {
      k := k - 1;
      assert coeffs[k..][1..] == coeffs[k + 1..];
      acc := Add(Mul(acc, x), coeffs[k]);
    }
    assert coeffs[0..] == coeffs;
  }

  // ---------------------------------------------------------------- sums of polynomials

  /** Coefficientwise sum; the shorter polynomial is padded with zeros. */
  ghost function PolyAdd(f: seq<int>, g: seq<int>): (h: seq<int>)
    ensures |h| == if |f| >= |g| then |f| else |g|
  {
    if f == [] then g else if g == [] then f else [f[0] + g[0]] + PolyAdd(f[1..], g[1..])
  }

  lemma {:induction false} PolyAddAt(f: seq<int>, g: seq<int>, x: int)
    ensures PolyAt(PolyAdd(f, g), x) == PolyAt(f, x) + PolyAt(g, x)
  {
    if f != [] && g != [] {
      PolyAddAt(f[1..], g[1..], x);
      assert PolyAdd(f, g)[1..] == PolyAdd(f[1..], g[1..]);
      assert x * (PolyAt(f[1..], x) + PolyAt(g[1..], x)) ==
             x * PolyAt(f[1..], x) + x * PolyAt(g[1..], x);
    }
  }

  ghost function ZeroPoly(t: nat): (f: seq<int>)
    ensures |f| == t
  {
    seq(t, k => 0)
  }

  lemma {:induction false} ZeroPolyAt(t: nat, x: int)
    ensures PolyAt(ZeroPoly(t), x) == 0
  {
    if t > 0 {
      assert ZeroPoly(t)[1..] == ZeroPoly(t - 1);
      ZeroPolyAt(t - 1, x);
    }
  }

  /** Every listed index has a polynomial with t coefficients. */
  ghost predicate HavePolys(order: seq<u16>, polys: map<u16, seq<int>>, t: nat) {
    forall k :: k in order ==> k in polys && |polys[k]| == t
  }

  /** The sum of the polynomials of the listed indices. */
  ghost function PolySum(order: seq<u16>, polys: map<u16, seq<int>>, t: nat): (f: seq<int>)
    requires HavePolys(order, polys, t)
    ensures |f| == t
  {
    if order == [] then ZeroPoly(t) else
      assert forall k :: k in order[..|order| - 1] ==> k in order;
      PolyAdd(PolySum(order[..|order| - 1], polys, t), polys[order[|order| - 1]])
  }

  ghost function ValuesAt(polys: map<u16, seq<int>>, x: int): map<u16, int> {
    map k | k in polys :: PolyAt(polys[k], x)
  }

  /** The sum of polynomials takes the sum of their values. */
  lemma {:induction false} PolySumAt(order: seq<u16>, polys: map<u16, seq<int>>, t: nat, x: int)
    requires HavePolys(order, polys, t)
    ensures PolyAt(PolySum(order, polys, t), x) == SumOver(order, ValuesAt(polys, x))
  {
    if order == [] {
      ZeroPolyAt(t, x);
    } else {
      var rest, k := order[..|order| - 1], order[|order| - 1];
      assert order == rest + [k];
      PolySumAt(rest, polys, t, x);
      PolyAddAt(PolySum(rest, polys, t), polys[k], x);
    }
  }
}
