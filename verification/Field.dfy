/** The scalar field of the signature scheme: integers modulo an arbitrary prime Q. */
module Field {
  import opened Arithmetic

  /** The order of the prime-order subgroup: any prime that exceeds every u16 index and that,
      with the cofactor, fits a 32-byte encoding. */
  type PrimeOrder = q: int |
    0xffff < q < 0x2000000000000000_0000000000000000_0000000000000000_0000000000000000 && IsPrime(q)
    witness (FermatPrime(); 65537)

  /** Declared without a value: every statement below holds for all such primes. */
  const Q: PrimeOrder

  type Scalar = x: int | 0 <= x < Q

  /** `x mod Q`; two integers denote the same scalar iff their reductions are equal. */
  function Red(x: int): Scalar {
    x % Q
  }

  function Add(a: Scalar, b: Scalar): Scalar { Red(a + b) }
  function Sub(a: Scalar, b: Scalar): Scalar { Red(a - b) }
  function Mul(a: Scalar, b: Scalar): Scalar { Red(a * b) }
  function Neg(a: Scalar): Scalar { Red(0 - a) }
  function Invert(a: Scalar): Scalar { ModInverse(a, Q) }

  // ---------------------------------------------------------------- Red respects + - *

  lemma RedScalar(x: Scalar)
    ensures Red(x) == x
  {
    DivModUnique(x, Q, 0, x);
  }

  lemma RedRed(x: int)
    ensures Red(Red(x)) == Red(x)
  {
    RedScalar(Red(x));
  }

  lemma RedSum(a: int, b: int, c: int, d: int)
    requires Red(a) == Red(b) && Red(c) == Red(d)
    ensures Red(a + c) == Red(b + d)
    ensures Red(a - c) == Red(b - d)
  {
    CongSameMod(Q, a, b);
    CongSameMod(Q, c, d);
    CongAdd(Q, a, b, c, d);
    CongSameMod(Q, a + c, b + d);
    CongSameMod(Q, a - c, b - d);
  }

  lemma RedProduct(a: int, b: int, c: int, d: int)
    requires Red(a) == Red(b) && Red(c) == Red(d)
    ensures Red(a * c) == Red(b * d)
  {
    CongSameMod(Q, a, b);
    CongSameMod(Q, c, d);
    CongMul(Q, a, b, c, d);
    CongSameMod(Q, a * c, b * d);
  }

  /** A reduced operand may be replaced by the integer it reduces. */
  lemma RedInner(a: int, b: int)
    ensures Red(Red(a) + b) == Red(a + b)
    ensures Red(Red(a) - b) == Red(a - b)
    ensures Red(Red(a) * b) == Red(a * b)
  {
    RedRed(a);
    RedSum(Red(a), a, b, b);
    RedProduct(Red(a), a, b, b);
  }

  lemma RedOuter(x: int, y: int)
    ensures Add(Red(x), Red(y)) == Red(x + y)
    ensures Sub(Red(x), Red(y)) == Red(x - y)
    ensures Mul(Red(x), Red(y)) == Red(x * y)
  {
    hide Red;
    RedRed(x);
    RedRed(y);
    RedSum(Red(x), x, Red(y), y);
    RedProduct(Red(x), x, Red(y), y);
  }

  lemma MulAssoc(a: int, b: int, c: int)
    ensures a * b * c == a * (b * c)
  {
  }

  // ---------------------------------------------------------------- inverses

  lemma InvertCorrect(d: Scalar)
    requires d != 0
    ensures Red(d * Invert(d)) == 1
  {
    RedScalar(d);
    ModInverseCorrect(d, Q);
    CongSameMod(Q, d * ModInverse(d, Q), 1);
    RedScalar(1);
  }

  /** A factor that is not a multiple of Q can be cancelled. */
  lemma Cancel(x: int, y: int, d: int)
    requires Red(d) != 0 && Red(x * d) == Red(y * d)
    ensures Red(x) == Red(y)
  {
    hide Red, Invert;
    var e := Invert(Red(d));
    InvertCorrect(Red(d));
    RedInner(d, e);
    CancelWith(x, d, e);
    CancelWith(y, d, e);
    RedProduct(x * d, y * d, e, e);
  }

  lemma CancelWith(x: int, d: int, e: int)
    requires Red(d * e) == 1
    ensures Red(x * d * e) == Red(x)
  {
    hide Red;
    RedScalar(1);
    RedProduct(x, x, d * e, 1);
    assert x * (d * e) == x * d * e;
  }

  /** Dividing by d and multiplying by an integer that reduces to d gives back the numerator. */
  lemma FractionTimesDenominator(n: Scalar, d: Scalar, dz: int)
    requires d == Red(dz) && d != 0
    ensures Red(Mul(n, Invert(d)) * dz) == n
  {
    hide Red, Invert;
    var e := Invert(d);
    InvertCorrect(d);
    RedInner(dz, e);
    assert dz * e == e * dz;
    RedInner(n * e, dz);
    MulAssoc(n, e, dz);
    RedScalar(1);
    RedProduct(n, n, e * dz, 1);
    RedScalar(n);
  }

  lemma NonzeroProduct(a: int, b: int)
    requires Red(a) != 0 && Red(b) != 0
    ensures Red(a * b) != 0
  {
    hide Red;
    RedScalar(0);
    if Red(a * b) == 0 {
      Cancel(a, 0, b);
    }
  }

  /** Distinct u16 indices are distinct scalars. */
  lemma SmallNonzero(x: int)
    requires -0xffff <= x <= 0xffff && x != 0
    ensures Red(x) != 0
  {
    if x > 0 {
      DivModUnique(x, Q, 0, x);
    } else {
      DivModUnique(x, Q, -1, x + Q);
    }
  }
}
