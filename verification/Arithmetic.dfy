/** Congruences, primes and the extended Euclidean recursion, for any modulus. */
module Arithmetic {

  ghost predicate IsPrime(p: int) {
    2 <= p && forall d {:trigger p % d} :: 2 <= d < p ==> p % d != 0
  }

  lemma MulAtLeast(t: int, m: int)
    requires m > 0
    ensures t >= 1 ==> t * m >= m
    ensures t <= -1 ==> t * m <= -m
  {
    if t >= 1 {
      assert (t - 1) * m >= 0;
    } else if t <= -1 {
      assert (-t - 1) * m >= 0;
    }
  }

  /** Quotient and remainder are unique. */
  lemma DivModUnique(a: int, m: int, k: int, r: int)
    requires m > 0 && 0 <= r < m && a == k * m + r
    ensures a % m == r && a / m == k
  {
    var t := k - a / m;
    assert t * m == k * m - (a / m) * m;
    MulAtLeast(t, m);
  }

  lemma Regroup(p: int, b: int, t: int, a: int)
    ensures (p * b + t) * a == p * (a * b) + t * a
  {
    assert p * b * a == p * (a * b);
  }

  lemma MixedBound(t: int, a: int, b: int, r: int)
    requires 0 <= t < b && 0 <= r < a
    ensures 0 <= t * a + r < a * b
  {
    var d := b - 1 - t;
    assert d * a >= 0 && t * a >= 0;
    assert (t + d + 1) * a == t * a + d * a + a;
  }

  /** Dividing in two steps. */
  lemma DivDiv(n: nat, a: int, b: int, m: int)
    requires a > 0 && b > 0 && m == a * b && m > 0
    ensures n / m == n / a / b
  {
    var q := n / a;
    Regroup(q / b, b, q % b, a);
    MixedBound(q % b, a, b, n % a);
    DivModUnique(n, m, q / b, q % b * a + n % a);
  }

  // ---------------------------------------------------------------- congruence

  ghost predicate Cong(m: int, a: int, b: int)
    requires m > 0
  {
    (a - b) % m == 0
  }

  lemma CongQuotient(m: int, a: int, b: int) returns (k: int)
    requires m > 0 && Cong(m, a, b)
    ensures a == b + k * m
  {
    k := (a - b) / m;
  }

  lemma CongIntro(m: int, a: int, b: int, k: int)
    requires m > 0 && a == b + k * m
    ensures Cong(m, a, b)
  {
    DivModUnique(a - b, m, k, 0);
  }

  lemma CongSym(m: int, a: int, b: int)
    requires m > 0 && Cong(m, a, b)
    ensures Cong(m, b, a)
  {
    var k := CongQuotient(m, a, b);
    CongIntro(m, b, a, -k);
  }

  lemma CongTrans(m: int, a: int, b: int, c: int)
    requires m > 0 && Cong(m, a, b) && Cong(m, b, c)
    ensures Cong(m, a, c)
  {
    var j := CongQuotient(m, a, b);
    var k := CongQuotient(m, b, c);
    CongIntro(m, a, c, j + k);
  }

  lemma CongAdd(m: int, a: int, b: int, c: int, d: int)
    requires m > 0 && Cong(m, a, b) && Cong(m, c, d)
    ensures Cong(m, a + c, b + d)
    ensures Cong(m, a - c, b - d)
  {
    var j := CongQuotient(m, a, b);
    var k := CongQuotient(m, c, d);
    CongIntro(m, a + c, b + d, j + k);
    CongIntro(m, a - c, b - d, j - k);
  }

  lemma CongMul(m: int, a: int, b: int, c: int, d: int)
    requires m > 0 && Cong(m, a, b) && Cong(m, c, d)
    ensures Cong(m, a * c, b * d)
  {
    var j := CongQuotient(m, a, b);
    var k := CongQuotient(m, c, d);
    assert a * c == b * d + (j * d + b * k + j * k * m) * m;
    CongIntro(m, a * c, b * d, j * d + b * k + j * k * m);
  }

  lemma CongMod(m: int, a: int)
    requires m > 0
    ensures Cong(m, a % m, a)
  {
    CongIntro(m, a % m, a, -(a / m));
  }

  /** Congruent numbers have the same remainder. */
  lemma CongSameMod(m: int, a: int, b: int)
    requires m > 0
    ensures Cong(m, a, b) <==> a % m == b % m
  {
    if Cong(m, a, b) {
      var k := CongQuotient(m, a, b);
      DivModUnique(a, m, k + b / m, b % m);
    } else if a % m == b % m {
      CongIntro(m, a, b, a / m - b / m);
    }
  }

  // ---------------------------------------------------------------- divisibility

  ghost predicate Divides(d: int, n: int) {
    exists k :: n == k * d
  }

  lemma DividesIntro(d: int, n: int, k: int)
    requires n == k * d
    ensures Divides(d, n)
  {
  }

  lemma DividesCombine(d: int, a: int, b: int, x: int)
    requires Divides(d, a) && Divides(d, b)
    ensures Divides(d, a + x * b)
  {
    var j :| a == j * d;
    var k :| b == k * d;
    DividesIntro(d, a + x * b, j + x * k);
  }

  lemma PrimeDivisor(p: int, d: int)
    requires IsPrime(p) && d >= 1 && Divides(d, p)
    ensures d == 1 || d == p
  {
    var k :| p == k * d;
    DivModUnique(p, d, k, 0);
    MulAtLeast(k, d);
  }

  lemma DividesCong(p: int, a: int)
    requires p > 0 && Divides(p, a)
    ensures a % p == 0
  {
    var k :| a == k * p;
    DivModUnique(a, p, k, 0);
  }

  // ---------------------------------------------------------------- extended Euclid

  /** The coefficient left in `oldS` when the Euclidean remainders run out. */
  function EuclidCoefficient(oldR: nat, r: nat, oldS: int, s: int): int
    decreases r
  {
    if r == 0 then oldS else EuclidCoefficient(r, oldR % r, s, oldS - oldR / r * s)
  }

  /** The gcd reached by the same recursion. */
  function EuclidGcd(oldR: nat, r: nat): nat
    decreases r
  {
    if r == 0 then oldR else EuclidGcd(r, oldR % r)
  }

  lemma {:induction false} EuclidGcdDivides(oldR: nat, r: nat)
    ensures Divides(EuclidGcd(oldR, r), oldR) && Divides(EuclidGcd(oldR, r), r)
    decreases r
  {
    var g := EuclidGcd(oldR, r);
    if r == 0 {
      DividesIntro(g, oldR, 1);
      DividesIntro(g, r, 0);
    } else {
      EuclidGcdDivides(r, oldR % r);
      DividesCombine(g, oldR % r, r, oldR / r);
    }
  }

  /** One division step keeps the two Bezout congruences. */
  lemma EuclidStep(a: int, p: int, oldR: int, r: int, oldS: int, s: int, q: int)
    requires p > 0 && Cong(p, oldR, oldS * a) && Cong(p, r, s * a)
    ensures Cong(p, oldR - q * r, (oldS - q * s) * a)
  {
    CongIntro(p, q, q, 0);
    CongMul(p, q, q, r, s * a);
    CongAdd(p, oldR, oldS * a, q * r, q * (s * a));
    assert oldS * a - q * (s * a) == (oldS - q * s) * a;
  }

  lemma EuclidRemainderStep(
      a: int, p: int, oldR: nat, r: nat, oldS: int, s: int, q: int, rest: int, s': int)
    requires p > 0 && Cong(p, oldR, oldS * a) && Cong(p, r, s * a)
    requires rest == oldR - q * r && s' == oldS - q * s
    ensures Cong(p, rest, s' * a)
  {
    hide Cong;
    EuclidStep(a, p, oldR, r, oldS, s, q);
  }

  lemma {:induction false} EuclidBezout(a: int, p: int, oldR: nat, r: nat, oldS: int, s: int)
    requires p > 0 && Cong(p, oldR, oldS * a) && Cong(p, r, s * a)
    ensures Cong(p, EuclidGcd(oldR, r), EuclidCoefficient(oldR, r, oldS, s) * a)
    decreases r
  {
    if r != 0 {
      EuclidRemainderStep(a, p, oldR, r, oldS, s, oldR / r, oldR % r, oldS - oldR / r * s);
      EuclidBezout(a, p, r, oldR % r, s, oldS - oldR / r * s);
    }
  }

  /** The inverse that the recursion computes, reduced into [0, p). */
  function ModInverse(a: nat, p: int): (inv: int)
    requires p > 0
  {
    EuclidCoefficient(a, p, 1, 0) % p
  }

  lemma EuclidGcdPrime(a: nat, p: int)
    requires IsPrime(p) && a % p != 0
    ensures EuclidGcd(a, p) == 1
  {
    var g := EuclidGcd(a, p);
    EuclidGcdDivides(a, p);
    var k :| p == k * g;
    assert g != 0;
    PrimeDivisor(p, g);
    if g == p {
      DividesCong(p, a);
    }
  }

  /** Every nonzero residue modulo a prime has an inverse, and the recursion finds it. */
  lemma ModInverseCorrect(a: nat, p: int)
    requires IsPrime(p) && a % p != 0
    ensures Cong(p, a * ModInverse(a, p), 1)
  {
    var c := EuclidCoefficient(a, p, 1, 0);
    EuclidGcdPrime(a, p);
    CongIntro(p, a, 1 * a, 0);
    CongIntro(p, p, 0 * a, 1);
    EuclidBezout(a, p, a, p, 1, 0);
    CongMod(p, c);
    ReducedFactor(p, c, ModInverse(a, p), a, 1);
  }

  lemma ReducedFactor(p: int, c: int, v: int, a: int, x: int)
    requires p > 0 && Cong(p, v, c) && Cong(p, x, c * a)
    ensures Cong(p, a * v, x)
  {
    hide Cong;
    CongIntro(p, a, a, 0);
    CongMul(p, a, a, v, c);
    CongSym(p, x, c * a);
    CongTrans(p, a * v, a * c, x);
  }

  // ---------------------------------------------------------------- a prime above 65535

  lemma FermatPrimeDivisors(d: int)
    requires 2 <= d < 65537
    ensures 65537 % d != 0
  {
  }

  /** 65537 is prime, so moduli as the protocol needs them exist. */
  lemma FermatPrime()
    ensures IsPrime(65537)
  {
    forall d {:trigger 65537 % d} | 2 <= d < 65537
      ensures 65537 % d != 0
    {
      FermatPrimeDivisors(d);
    }
  }
}
