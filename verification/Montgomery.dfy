/** The unclamped Montgomery ladder on Curve25519's u-coordinates, with its byte conversions and its
    modular inverse. Coordinates are integers modulo the field prime. */
module Montgomery {
  import opened Arithmetic
  import opened Wrappers
  import opened Octets

  /** 2^255 - 19. */
  const P: int := 0x8000000000000000_0000000000000000_0000000000000000_0000000000000000 - 19
  const A24: int := 121665

  /** Division and remainder of big integers truncate towards zero. */
  function TruncDiv(x: int, y: int): int
    requires y != 0
  {
    if x >= 0 then x / y else -((-x) / y)
  }

  function TruncRem(x: int, y: int): int
    requires y != 0
  {
    x - TruncDiv(x, y) * y
  }

  lemma TruncRemBounds(x: int, y: int)
    requires y != 0
    ensures -(if y > 0 then y else -y) < TruncRem(x, y) < (if y > 0 then y else -y)
    ensures x >= 0 ==> TruncRem(x, y) == x % y && TruncDiv(x, y) == x / y
    ensures x < 0 ==> TruncRem(x, y) == -((-x) % y)
  {
    if x < 0 {
      assert -((-x) / y) * y == -((-x) / y * y);
    }
  }

  /** The source's reduction into [0, P). */
  method ModP(a: int) returns (r: int)
    ensures r == a % P
  {
    TruncRemBounds(a, P);
    r := TruncRem(a, P);
    if a < 0 {
      DivModUnique(a, P, if r == 0 then TruncDiv(a, P) else TruncDiv(a, P) - 1, if r == 0 then 0 else r + P);
    }
    if r < 0 {
      r := r + P;
    }
  }

  // ---------------------------------------------------------------- modular inverse

  /** The coefficient of the argument when the truncating remainders run out. */
  function TruncCoefficient(oldR: int, r: int, oldS: int, s: int): int
    decreases if r > 0 then r else -r
  {
    if r == 0 then oldS else
      TruncRemBounds(oldR, r);
      TruncCoefficient(r, TruncRem(oldR, r), s, oldS - TruncDiv(oldR, r) * s)
  }

  /** The source's loop ends for every argument. */
  method ModInvP(a: int) returns (inv: int)
    ensures inv == TruncCoefficient(a, P, 1, 0) % P
  {
    var oldR, r, oldS, s := a, P, 1, 0;
    while r != 0
      invariant TruncCoefficient(oldR, r, oldS, s) == TruncCoefficient(a, P, 1, 0)
      decreases if r > 0 then r else -r
    {
      var q := TruncDiv(oldR, r);
      TruncRemBounds(oldR, r);
      oldR, r := r, oldR - q * r;
      oldS, s := s, oldS - q * s;
    }
    inv := ModP(oldS);
  }

  lemma {:induction false} TruncIsEuclid(oldR: nat, r: nat, oldS: int, s: int)
    ensures TruncCoefficient(oldR, r, oldS, s) == EuclidCoefficient(oldR, r, oldS, s)
    decreases r
  {
    if r != 0 {
      TruncRemBounds(oldR, r);
      TruncIsEuclid(r, oldR % r, s, oldS - oldR / r * s);
    }
  }

  lemma InverseOfNatural(a: nat, p: int)
    requires IsPrime(p)
    ensures a * (TruncCoefficient(a, p, 1, 0) % p) % p == if a % p != 0 then 1 else 0
  {
    var inv := ModInverse(a, p);
    TruncIsEuclid(a, p, 1, 0);
    if a % p != 0 {
      ModInverseCorrect(a, p);
      CongSameMod(p, a * inv, 1);
      DivModUnique(1, p, 0, 1);
    } else {
      MultipleOf(a, p, inv);
    }
  }

  /** The number of divisions the loop makes. */
  function TruncSteps(oldR: int, r: int): nat
    decreases if r > 0 then r else -r
  {
    if r == 0 then 0 else
      TruncRemBounds(oldR, r);
      1 + TruncSteps(r, TruncRem(oldR, r))
  }

  /** What is left in `oldR` when the loop ends. */
  function TruncGcd(oldR: int, r: int): int
    decreases if r > 0 then r else -r
  {
    if r == 0 then oldR else
      TruncRemBounds(oldR, r);
      TruncGcd(r, TruncRem(oldR, r))
  }

  function Signed(x: int, negative: bool): int {
    if negative then -x else x
  }

  lemma SignedRem(x: int, y: int, negative: bool)
    requires x >= 0 && y > 0
    ensures TruncRem(Signed(x, negative), Signed(y, !negative)) == Signed(x % y, negative)
  {
    hide TruncRem;
    if negative {
      TruncRemBounds(-x, y);
    } else {
      TruncRemBounds(x, -y);
      NegatedDivisor(x, y);
    }
  }

  lemma NegatedDivisor(x: int, y: int)
    requires x >= 0 && y > 0
    ensures x % -y == x % y
  {
  }

  /** From opposite signs the loop runs through Euclid's remainders with alternating signs. */
  lemma {:induction false} AlternatingGcd(x: nat, y: nat, negative: bool)
    ensures TruncGcd(Signed(x, negative), Signed(y, !negative)) ==
            Signed(EuclidGcd(x, y), negative == (TruncSteps(Signed(x, negative), Signed(y, !negative)) % 2 == 0))
    decreases y
  {
    hide TruncRem;
    if y > 0 {
      SignedRem(x, y, negative);
      AlternatingGcd(y, x % y, !negative);
      hide TruncDiv, EuclidGcd;
      assert TruncSteps(Signed(x, negative), Signed(y, !negative)) ==
             1 + TruncSteps(Signed(y, !negative), Signed(x % y, negative));
    }
  }

  lemma TruncStep(a: int, p: int, oldR: int, r: int, oldS: int, s: int)
    requires p > 0 && r != 0 && Cong(p, oldR, oldS * a) && Cong(p, r, s * a)
    ensures Cong(p, TruncRem(oldR, r), (oldS - TruncDiv(oldR, r) * s) * a)
  {
    hide Cong, TruncDiv;
    EuclidStep(a, p, oldR, r, oldS, s, TruncDiv(oldR, r));
  }

  lemma {:induction false} TruncBezout(a: int, p: int, oldR: int, r: int, oldS: int, s: int)
    requires p > 0 && Cong(p, oldR, oldS * a) && Cong(p, r, s * a)
    ensures Cong(p, TruncGcd(oldR, r), TruncCoefficient(oldR, r, oldS, s) * a)
    decreases if r > 0 then r else -r
  {
    hide Cong, TruncDiv, TruncRem;
    if r != 0 {
      TruncRemBounds(oldR, r);
      TruncStep(a, p, oldR, r, oldS, s);
      TruncBezout(a, p, r, TruncRem(oldR, r), s, oldS - TruncDiv(oldR, r) * s);
    }
  }

  lemma NegativeResidue(x: int, p: int)
    requires p > 0
    ensures x % p == 0 <==> -x % p == 0
  {
    CongSameMod(p, x, 0);
    CongSameMod(p, -x, 0);
    CongSameMod(p, 0, 0);
    if x % p == 0 {
      DivModUnique(-x, p, -(x / p), 0);
    }
    if -x % p == 0 {
      DivModUnique(x, p, -(-x / p), 0);
    }
  }

  lemma InverseOfNegative(a: int, p: int)
    requires IsPrime(p) && a < 0 && a % p != 0
    ensures a * (TruncCoefficient(a, p, 1, 0) % p) % p == if TruncSteps(a, p) % 2 == 0 then p - 1 else 1
  {
    var c, x := TruncCoefficient(a, p, 1, 0), -a;
    var g := TruncGcd(a, p);
    hide TruncCoefficient, TruncGcd, TruncSteps, Cong, EuclidGcd;
    NegativeResidue(x, p);
    EuclidGcdPrime(x, p);
    AlternatingGcd(x, p, true);
    CongIntro(p, a, 1 * a, 0);
    CongIntro(p, p, 0 * a, 1);
    TruncBezout(a, p, a, p, 1, 0);
    CongMod(p, c);
    ReducedFactor(p, c, c % p, a, g);
    CongSameMod(p, a * (c % p), g);
    DivModUnique(1, p, 0, 1);
    DivModUnique(-1, p, -1, p - 1);
  }

  /** For every integer and any prime modulus: the argument times the result is one or minus one unless the
      argument is a multiple of the modulus; it is one, so that the result is an inverse, exactly when the
      argument is not negative or the loop makes an odd number of divisions. */
  lemma ModInvPCorrectIff(a: int, p: int)
    requires IsPrime(p) && p > 2
    ensures var product := a * (TruncCoefficient(a, p, 1, 0) % p) % p;
            && product in {0, 1, p - 1}
            && (product == 0 <==> a % p == 0)
            && (product == 1 <==> a % p != 0 && (a >= 0 || TruncSteps(a, p) % 2 == 1))
  {
    hide TruncCoefficient, TruncSteps;
    if a >= 0 {
      InverseOfNatural(a, p);
    } else if a % p != 0 {
      InverseOfNegative(a, p);
    } else {
      MultipleOf(a, p, TruncCoefficient(a, p, 1, 0) % p);
    }
  }

  lemma MultipleOf(a: int, p: int, v: int)
    requires p > 0 && a % p == 0
    ensures a * v % p == 0
  {
    MulAssociate(a / p, p, v);
    DivModUnique(a * v, p, a / p * v, 0);
  }

  lemma MulAssociate(q: int, p: int, v: int)
    ensures q * p * v == q * v * p
  {
  }

  lemma MinusOneSteps(p: int)
    requires p >= 2
    ensures TruncDiv(-1, p) == 0 && TruncRem(-1, p) == -1
    ensures TruncDiv(p, -1) == -p && TruncRem(p, -1) == 0
  {
    DivModUnique(1, p, 0, 1);
  }

  /** The source's comment claims every non-zero argument. For minus one the loop runs through
      (-1, p), (p, -1) and (-1, 0) and returns one, which is not an inverse. */
  lemma MinusOneIsNotInverted(p: int)
    requires p > 2
    ensures TruncCoefficient(-1, p, 1, 0) % p == 1
    ensures (-1 * 1) % p != 1
  {
    MinusOneSteps(p);
    hide TruncDiv, TruncRem;
    assert TruncCoefficient(p, -1, 0, 1) == TruncCoefficient(-1, 0, 1, 0 - TruncDiv(p, -1) * 1);
    assert TruncCoefficient(-1, p, 1, 0) == 1;
    DivModUnique(1, p, 0, 1);
    DivModUnique(-1, p, -1, p - 1);
  }

  // ---------------------------------------------------------------- bytes

  method BytesToLeBigInt(bytes: seq<u8>) returns (acc: nat)
    ensures acc == FromLe(bytes)
  {
    acc := 0;
    var i := |bytes|;
    while i > 0
      invariant 0 <= i <= |bytes|
      invariant acc == FromLe(bytes[i..])
    {
      i := i - 1;
      assert bytes[i..][1..] == bytes[i + 1..];
      acc := acc * 256 + bytes[i];
    }
    assert bytes[0..] == bytes;
  }

  method LeBigIntToBytes32(n: nat) returns (out: array<u8>)
    ensures fresh(out) && out[..] == Le(32, n)
  {
    out := new u8[32];
    var acc := n;
    for i := 0 to 32
      invariant out[..i] + Le(32 - i, acc) == Le(32, n)
    {
      ghost var before := out[..i];
      out[i] := acc % 256;
      assert out[..i + 1] == before + [acc % 256];
      assert Le(32 - i, acc) == [acc % 256] + Le(31 - i, acc / 256);
      acc := acc / 256;
    }
    assert out[..32] == out[..] && Le(0, acc) == [];
  }

  // ---------------------------------------------------------------- one step of the ladder

  /** A projective u-coordinate x : z. */
  datatype Coord = Coord(x: int, z: int)

  /** The source's doubling over any modulus. */
  function DoubleBy(m: int, p: Coord): Coord
    requires m > 0
  {
    var a, b := (p.x + p.z) % m, (p.x - p.z) % m;
    var aa, bb := a * a % m, b * b % m;
    var e := (aa - bb) % m;
    Coord(aa * bb % m, e * (aa + A24 * e) % m)
  }

  function Double(p: Coord): Coord { DoubleBy(P, p) }

  /** Sum of two points whose difference has the affine coordinate `u`, over any modulus. */
  function DiffAddBy(m: int, u: int, p: Coord, q: Coord): Coord
    requires m > 0
  {
    var da := (q.x - q.z) % m * ((p.x + p.z) % m) % m;
    var cb := (q.x + q.z) % m * ((p.x - p.z) % m) % m;
    var sum, diff := (da + cb) % m, (da - cb) % m;
    Coord(sum * sum % m, u * (diff * diff) % m)
  }

  function DiffAdd(u: int, p: Coord, q: Coord): Coord { DiffAddBy(P, u, p, q) }

  lemma NegSquare(p: int, x: int, y: int)
    requires p > 0
    ensures ((x - y) % p) * ((x - y) % p) % p == ((y - x) % p) * ((y - x) % p) % p
  {
    CongMod(p, x - y);
    CongMod(p, y - x);
    CongMul(p, (x - y) % p, x - y, (x - y) % p, x - y);
    CongMul(p, (y - x) % p, y - x, (y - x) % p, y - x);
    assert (x - y) * (x - y) == (y - x) * (y - x);
    CongSameMod(p, ((x - y) % p) * ((x - y) % p), (x - y) * (x - y));
    CongSameMod(p, ((y - x) % p) * ((y - x) % p), (y - x) * (y - x));
  }

  lemma ScaledSame(p: int, u: int, v: int, w: int)
    requires p > 0 && v % p == w % p
    ensures u * v % p == u * w % p
  {
    CongSameMod(p, v, w);
    CongIntro(p, u, u, 0);
    CongMul(p, u, u, v, w);
    CongSameMod(p, u * v, u * w);
  }

  /** Exchanging the operands exchanges the two products, which only flips the sign of a squared
      difference. */
  lemma DiffAddSymmetric(m: int, u: int, p: Coord, q: Coord)
    requires m > 0
    ensures DiffAddBy(m, u, p, q) == DiffAddBy(m, u, q, p)
  {
    var pPlus, pMinus, qPlus, qMinus := (p.x + p.z) % m, (p.x - p.z) % m, (q.x + q.z) % m, (q.x - q.z) % m;
    var da, cb := qMinus * pPlus % m, qPlus * pMinus % m;
    Commutes(qMinus, pPlus);
    Commutes(qPlus, pMinus);
    Commutes(da, cb);
    NegSquare(m, da, cb);
    ScaledSame(m, u, (da - cb) % m * ((da - cb) % m), (cb - da) % m * ((cb - da) % m));
  }

  lemma Commutes(x: int, y: int)
    ensures x * y == y * x && x + y == y + x
  {
  }

  // ---------------------------------------------------------------- the ladder

  function Pow2(n: nat): (p: nat)
    ensures p >= 1
  {
    if n == 0 then 1 else 2 * Pow2(n - 1)
  }

  function Bit(k: nat, t: nat): (b: nat)
    ensures b <= 1
  {
    k / Pow2(t) % 2
  }

  /** The number formed by the bits 254 to t. */
  function Prefix(k: nat, t: nat): nat
    requires t <= 255
    decreases 255 - t
  {
    if t == 255 then 0 else 2 * Prefix(k, t + 1) + Bit(k, t)
  }

  /** The pair of coordinates after the bits 254 to t, without any swapping. */
  function LadderPair(k: nat, u: int, t: nat): (Coord, Coord)
    requires t <= 255
    decreases 255 - t
  {
    if t == 255 then (Coord(1, 0), Coord(u, 1)) else
      var (p, q) := LadderPair(k, u, t + 1);
      if Bit(k, t) == 1 then (DiffAdd(u, p, q), Double(q)) else (Double(p), DiffAdd(u, p, q))
  }

  /** The bytes returned for the final coordinate. */
  function AffineBytes(p: Coord): (b: seq<u8>)
    ensures |b| == 32
  {
    if p.z == 0 then seq(32, i => 0)
    else Le(32, p.x * (TruncCoefficient(p.z, P, 1, 0) % P) % P)
  }

  /** The masked u-coordinate modulo P. */
  function DecodeU(uBytes: seq<u8>): int
    requires |uBytes| == 32
  {
    FromLe(uBytes[31 := uBytes[31] % 128]) % P
  }

  ghost predicate Swapped(swap: int, x2: int, z2: int, x3: int, z3: int, pair: (Coord, Coord)) {
    if swap == 1 then pair == (Coord(x3, z3), Coord(x2, z2)) else pair == (Coord(x2, z2), Coord(x3, z3))
  }

  /** The source's loop, with its deferred conditional swaps. */
  method MontgomeryLadderRaw(scalarBytes: seq<u8>, uBytes: seq<u8>) returns (r: Result<seq<u8>>)
    ensures r == if |scalarBytes| != 32 || |uBytes| != 32 then Err(Malformed)
                 else Ok(AffineBytes(LadderPair(FromLe(scalarBytes), DecodeU(uBytes), 0).0))
  {
    hide DoubleBy, DiffAddBy, Le, FromLe, TruncCoefficient;
    if |scalarBytes| != 32 {
      return Err(Malformed);
    }
    if |uBytes| != 32 {
      return Err(Malformed);
    }
    var uMasked := uBytes[31 := uBytes[31] % 128];
    var k := BytesToLeBigInt(scalarBytes);
    var uValue := BytesToLeBigInt(uMasked);
    var x1 := ModP(uValue);
    var x2, z2, x3, z3 := 1, 0, x1, 1;
    var swap := 0;
    var t := 255;
    while t > 0
      invariant 0 <= t <= 255 && 0 <= swap <= 1
      invariant Swapped(swap, x2, z2, x3, z3, LadderPair(k, x1, t))
    {
      t := t - 1;
      var kt := Bit(k, t);
      swap := if swap == kt then 0 else 1;
      if swap == 1 {
        x2, x3 := x3, x2;
        z2, z3 := z3, z2;
      }
      swap := kt;
      ghost var p, q := Coord(x2, z2), Coord(x3, z3);
      DiffAddSymmetric(P, x1, p, q);
      x2, z2, x3, z3 := LadderStep(x1, x2, z2, x3, z3);
    }
    if swap == 1 {
      x2, x3 := x3, x2;
      z2, z3 := z3, z2;
    }
    if z2 == 0 {
      return Ok(seq(32, i => 0));
    }
    var inverse := ModInvP(z2);
    var result := ModP(x2 * inverse);
    var out := LeBigIntToBytes32(result);
    r := Ok(out[..]);
  }

  /** The arithmetic of the loop body. */
  method LadderStep(x1: int, x2: int, z2: int, x3: int, z3: int) returns (x2': int, z2': int, x3': int, z3': int)
    ensures Coord(x2', z2') == Double(Coord(x2, z2))
    ensures Coord(x3', z3') == DiffAdd(x1, Coord(x2, z2), Coord(x3, z3))
  {
    var a := ModP(x2 + z2);
    var aa := ModP(a * a);
    var b := ModP(x2 - z2);
    var bb := ModP(b * b);
    var e := ModP(aa - bb);
    var c := ModP(x3 + z3);
    var d := ModP(x3 - z3);
    var da := ModP(d * a);
    var cb := ModP(c * b);
    var sum := ModP(da + cb);
    var diff := ModP(da - cb);
    x3' := ModP(sum * sum);
    z3' := ModP(x1 * (diff * diff));
    x2' := ModP(aa * bb);
    z2' := ModP(e * (aa + A24 * e));
  }

  // ---------------------------------------------------------------- what the ladder computes

  /** The curve is v^2 = u^3 + 486662 u^2 + u. */
  const CURVE_A: int := 486662

  /** r is, modulo m, the doubling of p by the curve's formula. */
  ghost predicate IsDouble(m: int, p: Coord, r: Coord)
    requires m > 0
  {
    && Cong(m, r.x, (p.x * p.x - p.z * p.z) * (p.x * p.x - p.z * p.z))
    && Cong(m, r.z, 4 * (p.x * p.z) * (p.x * p.x + CURVE_A * (p.x * p.z) + p.z * p.z))
  }

  /** r is, modulo m, the sum of p and q whose difference has the affine coordinate u. */
  ghost predicate IsDiffSum(m: int, u: int, p: Coord, q: Coord, r: Coord)
    requires m > 0
  {
    && Cong(m, r.x, 4 * ((p.x * q.x - p.z * q.z) * (p.x * q.x - p.z * q.z)))
    && Cong(m, r.z, u * (4 * ((p.x * q.z - p.z * q.x) * (p.x * q.z - p.z * q.x))))
  }

  lemma ModSquare(m: int, x: int)
    requires m > 0
    ensures Cong(m, (x % m) * (x % m) % m, x * x)
  {
    CongMod(m, x);
    CongMul(m, x % m, x, x % m, x);
    CongMod(m, (x % m) * (x % m));
    CongTrans(m, (x % m) * (x % m) % m, (x % m) * (x % m), x * x);
  }

  lemma ModProduct(m: int, x: int, y: int, x': int, y': int)
    requires m > 0 && Cong(m, x', x) && Cong(m, y', y)
    ensures Cong(m, x' * y' % m, x * y)
  {
    CongMul(m, x', x, y', y);
    CongMod(m, x' * y');
    CongTrans(m, x' * y' % m, x' * y', x * y);
  }

  lemma ModDifference(m: int, x: int, y: int, x': int, y': int)
    requires m > 0 && Cong(m, x', x) && Cong(m, y', y)
    ensures Cong(m, (x' - y') % m, x - y) && Cong(m, (x' + y') % m, x + y)
  {
    CongAdd(m, x', x, y', y);
    CongMod(m, x' - y');
    CongTrans(m, (x' - y') % m, x' - y', x - y);
    CongMod(m, x' + y');
    CongTrans(m, (x' + y') % m, x' + y', x + y);
  }

  lemma Squares(x: int, z: int)
    ensures (x + z) * (x + z) * ((x - z) * (x - z)) == (x * x - z * z) * (x * x - z * z)
    ensures (x + z) * (x + z) - (x - z) * (x - z) == 4 * (x * z)
    ensures (x + z) * (x + z) == x * x + 2 * (x * z) + z * z
  {
    assert (x + z) * (x - z) == x * x - z * z;
    var s, d := x + z, x - z;
    assert s * s * (d * d) == s * d * (s * d);
  }

  /** The step's arithmetic with a24 = 121665 is the doubling formula with 486662 = 4 * a24 + 2. */
  lemma DoubleStep(m: int, x: int, z: int, a: int, b: int, aa: int, bb: int, e: int, w: int, x': int, z': int)
    requires m > 0 && a == (x + z) % m && b == (x - z) % m && aa == a * a % m && bb == b * b % m
    requires e == (aa - bb) % m && w == aa + 121665 * e && x' == aa * bb % m && z' == e * w % m
    ensures IsDouble(m, Coord(x, z), Coord(x', z'))
  {
    hide Cong;
    Squares(x, z);
    ModSquare(m, x + z);
    ModSquare(m, x - z);
    var ss, dd := (x + z) * (x + z), (x - z) * (x - z);
    ModProduct(m, ss, dd, aa, bb);
    ModDifference(m, ss, dd, aa, bb);
    CongIntro(m, 121665, 121665, 0);
    CongMul(m, 121665, 121665, e, 4 * (x * z));
    CongAdd(m, aa, ss, 121665 * e, 121665 * (4 * (x * z)));
    assert ss + 121665 * (4 * (x * z)) == x * x + CURVE_A * (x * z) + z * z;
    ModProduct(m, 4 * (x * z), x * x + CURVE_A * (x * z) + z * z, e, w);
  }

  lemma CrossProducts(px: int, pz: int, qx: int, qz: int)
    ensures (qx - qz) * (px + pz) + (qx + qz) * (px - pz) == 2 * (px * qx - pz * qz)
    ensures (qx - qz) * (px + pz) - (qx + qz) * (px - pz) == -2 * (px * qz - pz * qx)
  {
    assert (qx - qz) * (px + pz) == qx * px + qx * pz - qz * px - qz * pz;
    assert (qx + qz) * (px - pz) == qx * px - qx * pz + qz * px - qz * pz;
  }

  lemma TwiceSquared(s: int, h: int)
    requires s == 2 * h || s == -2 * h
    ensures s * s == 4 * (h * h)
  {
  }

  lemma DiffAddStep(
      m: int, u: int, p: Coord, q: Coord, qm: int, pp: int, qp: int, pm: int, da: int, cb: int, sum: int, diff: int)
    requires m > 0 && qm == (q.x - q.z) % m && pp == (p.x + p.z) % m && qp == (q.x + q.z) % m && pm == (p.x - p.z) % m
    requires da == qm * pp % m && cb == qp * pm % m && sum == (da + cb) % m && diff == (da - cb) % m
    ensures IsDiffSum(m, u, p, q, Coord(sum * sum % m, u * (diff * diff) % m))
  {
    hide Cong;
    CongMod(m, q.x - q.z);
    CongMod(m, p.x + p.z);
    CongMod(m, q.x + q.z);
    CongMod(m, p.x - p.z);
    var d, c := (q.x - q.z) * (p.x + p.z), (q.x + q.z) * (p.x - p.z);
    ModProduct(m, q.x - q.z, p.x + p.z, qm, pp);
    ModProduct(m, q.x + q.z, p.x - p.z, qp, pm);
    ModDifference(m, d, c, da, cb);
    CrossProducts(p.x, p.z, q.x, q.z);
    ModProduct(m, d + c, d + c, sum, sum);
    TwiceSquared(d + c, p.x * q.x - p.z * q.z);
    CongMul(m, diff, d - c, diff, d - c);
    TwiceSquared(d - c, p.x * q.z - p.z * q.x);
    CongIntro(m, u, u, 0);
    ModProduct(m, u, (d - c) * (d - c), u, diff * diff);
  }

  /** The ladder's doubling is the curve's, for all coordinates and whatever the modulus. */
  lemma DoubleFormula(m: int, p: Coord)
    requires m > 0
    ensures IsDouble(m, p, DoubleBy(m, p))
  {
    var a, b := (p.x + p.z) % m, (p.x - p.z) % m;
    var aa, bb := a * a % m, b * b % m;
    var e := (aa - bb) % m;
    DoubleStep(m, p.x, p.z, a, b, aa, bb, e, aa + A24 * e, aa * bb % m, e * (aa + A24 * e) % m);
  }

  /** The ladder's differential addition is the curve's. */
  lemma DiffAddFormula(m: int, u: int, p: Coord, q: Coord)
    requires m > 0
    ensures IsDiffSum(m, u, p, q, DiffAddBy(m, u, p, q))
  {
    var qm, pp, qp, pm := (q.x - q.z) % m, (p.x + p.z) % m, (q.x + q.z) % m, (p.x - p.z) % m;
    var da, cb := qm * pp % m, qp * pm % m;
    DiffAddStep(m, u, p, q, qm, pp, qp, pm, da, cb, (da + cb) % m, (da - cb) % m);
  }

  /** `rep` relates a multiple m to the projective coordinates, modulo P, of m times the point with coordinate u.
      That the doubling and differential addition formulas of the curve respect it is the curve's group law. */
  ghost predicate Lawful(rep: iset<(nat, Coord)>, u: int) {
    && (0, Coord(1, 0)) in rep && (1, Coord(u, 1)) in rep
    && (forall m: nat, p: Coord, r: Coord :: (m, p) in rep && IsDouble(P, p, r) ==> (2 * m, r) in rep)
    && (forall m: nat, p: Coord, q: Coord, r: Coord ::
          (m, p) in rep && (m + 1, q) in rep && IsDiffSum(P, u, p, q, r) ==> (2 * m + 1, r) in rep)
  }

  lemma LawfulStart(rep: iset<(nat, Coord)>, u: int)
    requires Lawful(rep, u)
    ensures (0, Coord(1, 0)) in rep && (1, Coord(u, 1)) in rep
  {
  }

  lemma LawfulDouble(rep: iset<(nat, Coord)>, u: int, m: nat, p: Coord)
    requires Lawful(rep, u) && (m, p) in rep
    ensures (2 * m, Double(p)) in rep
  {
    hide DoubleBy, Cong, IsDouble, IsDiffSum;
    DoubleFormula(P, p);
  }

  lemma LawfulSum(rep: iset<(nat, Coord)>, u: int, m: nat, p: Coord, q: Coord)
    requires Lawful(rep, u) && (m, p) in rep && (m + 1, q) in rep
    ensures (2 * m + 1, DiffAdd(u, p, q)) in rep
  {
    hide DiffAddBy, Cong, IsDouble, IsDiffSum;
    DiffAddFormula(P, u, p, q);
  }

  lemma NextPair(k: nat, u: int, t: nat)
    requires t < 255
    ensures var (p, q) := LadderPair(k, u, t + 1);
            LadderPair(k, u, t) ==
            if Bit(k, t) == 1 then (DiffAdd(u, p, q), Double(q)) else (Double(p), DiffAdd(u, p, q))
    ensures Prefix(k, t) == 2 * Prefix(k, t + 1) + Bit(k, t)
  {
    hide Double, DiffAdd, Bit;
  }

  lemma FirstPair(k: nat, u: int)
    ensures LadderPair(k, u, 255) == (Coord(1, 0), Coord(u, 1)) && Prefix(k, 255) == 0
  {
  }

  /** After the bits 254 to t the pair is (m * P, (m + 1) * P) for the number m they form. */
  lemma {:induction false} LadderInvariant(k: nat, u: int, t: nat, rep: iset<(nat, Coord)>)
    requires Lawful(rep, u) && t <= 255
    ensures (Prefix(k, t), LadderPair(k, u, t).0) in rep
    ensures (Prefix(k, t) + 1, LadderPair(k, u, t).1) in rep
    decreases 255 - t
  {
    hide *;
    if t == 255 {
      FirstPair(k, u);
      LawfulStart(rep, u);
    } else {
      LadderInvariant(k, u, t + 1, rep);
      var m := Prefix(k, t + 1);
      var (p, q) := LadderPair(k, u, t + 1);
      NextPair(k, u, t);
      LawfulSum(rep, u, m, p, q);
      if Bit(k, t) == 1 {
        LawfulDouble(rep, u, m + 1, q);
      } else {
        LawfulDouble(rep, u, m, p);
      }
    }
  }

  lemma Pow2Next(n: nat)
    ensures Pow2(n + 1) == 2 * Pow2(n)
  {
  }

  lemma Pow2Zero()
    ensures Pow2(0) == 1
  {
  }

  lemma {:induction false} PairReduced(k: nat, u: int, t: nat)
    requires t <= 255
    ensures 0 <= LadderPair(k, u, t).0.z < P && 0 <= LadderPair(k, u, t).1.z < P
    decreases 255 - t
  {
    hide Bit;
    if t < 255 {
      PairReduced(k, u, t + 1);
    }
  }

  /** Halving a quotient: k / 2^(t+1) == (k / 2^t) / 2. */
  lemma NextQuotient(k: nat, d: nat)
    requires d >= 1
    ensures k / (2 * d) == k / d / 2
  {
    var q := k / d;
    assert k == q * d + k % d;
    assert q == q / 2 * 2 + q % 2;
    assert q * d == q / 2 * (2 * d) + q % 2 * d;
    assert q % 2 * d <= d;
    DivModUnique(k, 2 * d, q / 2, q % 2 * d + k % d);
  }

  /** The bits 254 to t are those of k without the multiples of 2^255. */
  lemma {:induction false} PrefixValue(k: nat, t: nat, h: nat)
    requires t <= 255 && h == k / Pow2(255)
    ensures Prefix(k, t) + h * Pow2(255 - t) == k / Pow2(t)
    decreases 255 - t
  {
    hide Pow2;
    if t == 255 {
      Pow2Zero();
    } else {
      PrefixValue(k, t + 1, h);
      NextQuotient(k, Pow2(t));
      Pow2Next(t);
      Pow2Next(254 - t);
      DoubleFactor(h, Pow2(254 - t), Pow2(255 - t));
    }
  }

  lemma DoubleFactor(h: nat, x: nat, y: nat)
    requires y == 2 * x
    ensures h * y == 2 * (h * x)
  {
  }

  /** Every bit of the scalar but the top one is used as it stands: the ladder ends at
      (k mod 2^255) times the point, without clamping. */
  lemma UnclampedScalar(k: nat)
    ensures Prefix(k, 0) == k % Pow2(255)
  {
    hide *;
    var m := Pow2(255);
    PrefixValue(k, 0, k / m);
    Pow2Zero();
    RestIsRemainder(k, m, Prefix(k, 0));
  }

  lemma RestIsRemainder(k: nat, m: nat, rest: nat)
    requires m >= 1 && rest + k / m * m == k
    ensures rest == k % m
  {
  }

  /** The returned bytes are the affine coordinate of (k mod 2^255) times the point: zero at infinity,
      and otherwise the v with v * z == x. */
  lemma LadderComputes(k: nat, u: int, rep: iset<(nat, Coord)>)
    requires Lawful(rep, u) && IsPrime(P)
    ensures var p := LadderPair(k, u, 0).0;
            && (k % Pow2(255), p) in rep
            && (p.z == 0 ==> FromLe(AffineBytes(p)) == 0)
            && (p.z != 0 ==> FromLe(AffineBytes(p)) * p.z % P == p.x % P)
  {
    hide Double, DiffAdd, Pow2, LadderPair, Prefix, Le, FromLe, AffineBytes, TruncCoefficient;
    LadderInvariant(k, u, 0, rep);
    UnclampedScalar(k);
    var p := LadderPair(k, u, 0).0;
    if p.z == 0 {
      ZeroBytes(p);
    } else {
      PairReduced(k, u, 0);
      var inv := TruncCoefficient(p.z, P, 1, 0) % P;
      DivModUnique(p.z, P, 0, p.z);
      InverseOfNatural(p.z, P);
      AffineValue(p.x, p.z, inv, P);
      AffineDecodes(p, p.x * inv % P);
    }
  }

  lemma {:induction false} FromLeLast(b: seq<u8>)
    requires b != []
    ensures FromLe(b) == FromLe(b[..|b| - 1]) + Pow256(|b| - 1) * b[|b| - 1]
  {
    if |b| > 1 {
      FromLeLast(b[1..]);
      assert b[1..][..|b| - 2] == b[..|b| - 1][1..];
      MulAssociate(256, Pow256(|b| - 2), b[|b| - 1]);
    }
  }

  lemma {:induction false} Pow2Add(n: nat, k: nat)
    ensures Pow2(n + k) == Pow2(k) * Pow2(n)
  {
    if k > 0 {
      Pow2Add(n, k - 1);
      MulAssociate(2, Pow2(k - 1), Pow2(n));
    }
  }

  lemma {:induction false} OctetsAsBits(n: nat)
    ensures Pow2(8 * n) == Pow256(n)
  {
    if n > 0 {
      OctetsAsBits(n - 1);
      Pow2Add(8 * n - 8, 8);
    }
  }

  lemma AtMost(d: int, r: int)
    requires d >= 0 && 0 <= r <= 127
    ensures 0 <= d * r <= 127 * d
  {
  }

  lemma SplitFactor(d: int, q: int, r: int, top: int)
    requires top == 128 * q + r
    ensures d * top == q * (128 * d) + d * r
  {
  }

  lemma TopBitDropped(low: nat, d: int, top: u8)
    requires low < d
    ensures (low + d * top) % (128 * d) == low + d * (top % 128)
  {
    var q, r := top / 128, top % 128;
    AtMost(d, r);
    SplitFactor(d, q, r, top);
    DivModUnique(low + d * top, 128 * d, q, low + d * r);
  }

  lemma FieldPrime()
    ensures P == Pow2(255) - 19
  {
    hide Pow2, Pow256;
    TopPower();
    OctetsAsBits(31);
    Widths();
    NextWidth();
  }

  lemma NextWidth()
    ensures Pow256(32) == 256 * Pow256(31)
  {
  }

  /** The top bit of the given coordinate is ignored and the rest is taken modulo P. */
  lemma DecodedCoordinate(uBytes: seq<u8>)
    requires |uBytes| == 32
    ensures DecodeU(uBytes) == FromLe(uBytes) % Pow2(255) % P
  {
    hide FromLe, Pow2, Pow256;
    var masked, d := uBytes[31 := uBytes[31] % 128], Pow256(31);
    FromLeLast(uBytes);
    FromLeLast(masked);
    assert masked[..31] == uBytes[..31];
    FromLeBound(uBytes[..31]);
    OctetsAsBits(31);
    TopPower();
    TopBitDropped(FromLe(uBytes[..31]), d, uBytes[31]);
  }

  lemma TopPower()
    ensures Pow2(255) == 128 * Pow2(248)
  {
    Pow2Add(248, 7);
  }

  lemma AffineDecodes(p: Coord, v: int)
    requires p.z != 0 && v == p.x * (TruncCoefficient(p.z, P, 1, 0) % P) % P
    ensures FromLe(AffineBytes(p)) == v
  {
    hide Le, FromLe, Pow256, TruncCoefficient;
    Widths();
    FromLeOfLe(32, v);
  }

  lemma ZeroBytes(p: Coord)
    requires p.z == 0
    ensures FromLe(AffineBytes(p)) == 0
  {
    hide Le, FromLe;
    ZerosValue(32);
  }

  lemma {:induction false} ZerosValue(n: nat)
    ensures FromLe(seq(n, i => 0)) == 0
  {
    if n > 0 {
      assert seq<u8>(n, i => 0)[1..] == seq<u8>(n - 1, i => 0);
      ZerosValue(n - 1);
    }
  }

  /** A quotient times its divisor is the dividend. */
  lemma AffineValue(x: int, z: int, inv: int, p: int)
    requires p > 1 && z * inv % p == 1
    ensures x * inv % p * z % p == x % p
  {
    hide Cong;
    var v := x * inv % p;
    CongMod(p, x * inv);
    CongIntro(p, z, z, 0);
    CongMul(p, v, x * inv, z, z);
    DivModUnique(1, p, 0, 1);
    CongSameMod(p, z * inv, 1);
    CongIntro(p, x, x, 0);
    CongMul(p, x, x, z * inv, 1);
    assert x * (z * inv) == x * inv * z;
    CongTrans(p, v * z, x * inv * z, x);
    CongSameMod(p, v * z, x);
  }
}
