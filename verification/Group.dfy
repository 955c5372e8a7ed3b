/** The curve group. The points of edwards25519 form a cyclic group of order 8 times the prime
    order of the base point, so a point is its discrete logarithm modulo 8 * Q to a generator of
    the whole group; the base point is 8 and a point is torsion-free iff it is a multiple of 8. */
module Group {
  import opened Arithmetic
  import opened Field

  const COFACTOR := 8
  const ORDER := COFACTOR * Q

  type Point = p: int | 0 <= p < ORDER

  const IDENTITY: Point := 0
  const BASEPOINT: Point := COFACTOR

  function PointAdd(a: Point, b: Point): Point { (a + b) % ORDER }

  function PointMul(k: int, p: Point): Point { (k * p) % ORDER }

  predicate TorsionFree(p: Point) { p % COFACTOR == 0 }

  /** `k * G`. */
  function Base(k: int): Point { PointMul(k, BASEPOINT) }

  type PedersenGenerator = p: Point | TorsionFree(p) && p != IDENTITY
    witness COFACTOR

  /** The second Pedersen generator: a torsion-free point other than the identity. */
  const H: PedersenGenerator

  lemma BaseRed(k: int)
    ensures Base(k) == COFACTOR * Red(k)
  {
    DivModUnique(k * COFACTOR, ORDER, k / Q, COFACTOR * Red(k));
  }

  /** Scalar multiples of G coincide exactly for equal scalars. */
  lemma BaseInjective(a: int, b: int)
    ensures Base(a) == Base(b) <==> Red(a) == Red(b)
  {
    BaseRed(a);
    BaseRed(b);
  }

  lemma BaseSum(a: int, b: int)
    ensures PointAdd(Base(a), Base(b)) == Base(a + b)
  {
    CongMod(ORDER, a * BASEPOINT);
    CongMod(ORDER, b * BASEPOINT);
    CongAdd(ORDER, Base(a), a * BASEPOINT, Base(b), b * BASEPOINT);
    CongSameMod(ORDER, Base(a) + Base(b), (a + b) * BASEPOINT);
  }

  lemma BaseProduct(c: int, a: int)
    ensures PointMul(c, Base(a)) == Base(c * a)
  {
    CongMod(ORDER, a * BASEPOINT);
    CongIntro(ORDER, c, c, 0);
    CongMul(ORDER, c, c, Base(a), a * BASEPOINT);
    assert c * (a * BASEPOINT) == (c * a) * BASEPOINT;
    CongSameMod(ORDER, c * Base(a), (c * a) * BASEPOINT);
  }

  lemma BaseZero()
    ensures Base(0) == IDENTITY
  {
    BaseRed(0);
    RedScalar(0);
  }

  lemma BaseTorsionFree(k: int)
    ensures TorsionFree(Base(k))
  {
    BaseRed(k);
    DivModUnique(Base(k), COFACTOR, Red(k), 0);
  }

  /** Every torsion-free point is a multiple of G. */
  function Log(p: Point): (k: Scalar)
    requires TorsionFree(p)
    ensures Base(k) == p
  {
    BaseRed(p / COFACTOR);
    RedScalar(p / COFACTOR);
    p / COFACTOR
  }

  /** Adding a point to a reduced sum. */
  lemma SumNext(p: Point, total: int, q: Point)
    requires p == total % ORDER
    ensures PointAdd(p, q) == (total + q) % ORDER
  {
    CongMod(ORDER, total);
    CongIntro(ORDER, q, q, 0);
    CongAdd(ORDER, p, total, q, q);
    CongSameMod(ORDER, p + q, total + q);
  }

  lemma EmptySum()
    ensures IDENTITY == 0 % ORDER
  {
    DivModUnique(0, ORDER, 0, 0);
  }

  /** The verification equation between points is one between their logarithms. */
  lemma EquationInGroup(s: int, r: Point, c: int, p: Point)
    ensures Base(s) == PointAdd(r, PointMul(c, p)) <==> (8 * s - r - c * p) % (8 * Q) == 0
  {
    CongMod(ORDER, c * p);
    CongIntro(ORDER, r, r, 0);
    CongAdd(ORDER, r, r, PointMul(c, p), c * p);
    CongSameMod(ORDER, r + PointMul(c, p), r + c * p);
    CongSameMod(ORDER, s * BASEPOINT, r + c * p);
  }
}
