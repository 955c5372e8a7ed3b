/** Pedersen and Feldman verifiable secret sharing. */
module Vss {
  import opened Arithmetic
  import opened Wrappers
  import opened Lists
  import opened Field
  import opened Group
  import opened Polynomials

  datatype VssParameters = VssParameters(n: u16, t: u16) {
    ghost predicate Valid() { 1 <= t <= n }
  }

  datatype VssShare = VssShare(index: u16, fShare: Scalar, gShare: Scalar)
  datatype VssCommitments = VssCommitments(coeffs: seq<Point>)
  datatype FeldmanCommitments = FeldmanCommitments(coeffs: seq<Point>)

  /** Accepts exactly the parameters with 1 <= t <= n. */
  function NewParameters(n: u16, t: u16): (r: Result<VssParameters>)
    ensures r.Ok? <==> 1 <= t <= n
    ensures r.Ok? ==> r.value.Valid() && r.value.n == n && r.value.t == t
    ensures r.Err? ==> r.error == InvalidSigningSet
  {
    if t == 0 || t > n then Err(InvalidSigningSet) else Ok(VssParameters(n, t))
  }

  // ---------------------------------------------------------------- dealing

  function FeldmanOf(f: seq<Scalar>): (cs: seq<Point>)
    ensures |cs| == |f|
  {
    seq(|f|, k requires 0 <= k < |f| => Base(f[k]))
  }

  function PedersenCoefficient(a: Scalar, b: Scalar): Point {
    PointAdd(Base(a), PointMul(b, H))
  }

  function PedersenOf(f: seq<Scalar>, g: seq<Scalar>): (cs: seq<Point>)
    requires |f| == |g|
    ensures |cs| == |f|
  {
    seq(|f|, k requires 0 <= k < |f| => PedersenCoefficient(f[k], g[k]))
  }

  function ShareOf(f: seq<Scalar>, g: seq<Scalar>, j: u16): VssShare {
    VssShare(j, Horner(f, j), Horner(g, j))
  }

  function SharesOf(f: seq<Scalar>, g: seq<Scalar>, n: u16): (shares: seq<VssShare>)
    ensures |shares| == n
  {
    seq(n, j requires 0 <= j < n => ShareOf(f, g, j + 1))
  }

  /** The dealer. `fTail` and `gTape` are the scalars drawn from the random source, in order. */
  method Deal(secret: Scalar, params: VssParameters, fTail: seq<Scalar>, gTape: seq<Scalar>)
    returns (pedersen: VssCommitments, feldman: FeldmanCommitments, shares: seq<VssShare>)
    requires params.Valid() && |fTail| == params.t - 1 && |gTape| == params.t
    ensures pedersen.coeffs == PedersenOf([secret] + fTail, gTape)
    ensures feldman.coeffs == FeldmanOf([secret] + fTail)
    ensures shares == SharesOf([secret] + fTail, gTape, params.n)
  {
    var fCoeffs: seq<Scalar> := [secret];
    for k := 1 to params.t
      invariant fCoeffs == [secret] + fTail[..k - 1]
    {
      fCoeffs := fCoeffs + [fTail[k - 1]];
    }
    var gCoeffs: seq<Scalar> := [];
    for k := 0 to params.t
      invariant gCoeffs == gTape[..k]
    {
      gCoeffs := gCoeffs + [gTape[k]];
    }
    assert fCoeffs == [secret] + fTail && gCoeffs == gTape;

    var pedersenCoeffs: seq<Point>, feldmanCoeffs: seq<Point> := [], [];
    for k := 0 to params.t
      invariant pedersenCoeffs == PedersenOf(fCoeffs, gCoeffs)[..k]
      invariant feldmanCoeffs == FeldmanOf(fCoeffs)[..k]
    {
      var a := Base(fCoeffs[k]);
      var c := PointAdd(a, PointMul(gCoeffs[k], H));
      feldmanCoeffs := feldmanCoeffs + [a];
      pedersenCoeffs := pedersenCoeffs + [c];
    }

    shares := [];
    for j := 1 to params.n + 1
      invariant shares == SharesOf(fCoeffs, gCoeffs, params.n)[..j - 1]
    {
      var fj := HornerEvalScalar(fCoeffs, j);
      var gj := HornerEvalScalar(gCoeffs, j);
      shares := shares + [VssShare(j, fj, gj)];
    }
    pedersen, feldman := VssCommitments(pedersenCoeffs), FeldmanCommitments(feldmanCoeffs);
  }

  // ---------------------------------------------------------------- verifying

  /** Horner's rule on commitments. */
  function HornerPoint(coeffs: seq<Point>, x: Scalar): Point {
    if coeffs == [] then IDENTITY else PointAdd(PointMul(x, HornerPoint(coeffs[1..], x)), coeffs[0])
  }

  function ShareCommitment(share: VssShare): Point {
    PointAdd(Base(share.fShare), PointMul(share.gShare, H))
  }

  function VerifyShareResult(share: VssShare, commitments: VssCommitments): Result<()> {
    if share.index == 0 then Err(InvalidSigningSet)
    else if ShareCommitment(share) == HornerPoint(commitments.coeffs, share.index) then Ok(())
    else Err(VssShareInvalid)
  }

  method VerifyShare(share: VssShare, commitments: VssCommitments) returns (r: Result<()>)
    ensures r == VerifyShareResult(share, commitments)
    ensures share.index == 0 <==> r == Err(InvalidSigningSet)
  {
    if share.index == 0 {
      return Err(InvalidSigningSet);
    }
    var lhs := PointAdd(Base(share.fShare), PointMul(share.gShare, H));
    var rhs: Point := IDENTITY;
    var coeffs := commitments.coeffs;
    var k := |coeffs|;
    while k > 0
      invariant 0 <= k <= |coeffs|
      invariant rhs == HornerPoint(coeffs[k..], share.index)
    {
      k := k - 1;
      assert coeffs[k..][1..] == coeffs[k + 1..];
      rhs := PointAdd(PointMul(share.index, rhs), coeffs[k]);
    }
    assert coeffs[0..] == coeffs;
    r := if lhs == rhs then Ok(()) else Err(VssShareInvalid);
  }

  /** On any commitments, also those of no polynomial, Horner's rule adds the powers of the index times the
      commitments in the curve's group. */
  lemma {:induction false} HornerPointIsSum(coeffs: seq<Point>, x: Scalar)
    ensures HornerPoint(coeffs, x) == PolyAt(coeffs, x) % (8 * Q)
  {
    hide PointAdd, PointMul;
    if coeffs == [] {
      DivModUnique(0, ORDER, 0, 0);
    } else {
      HornerPointIsSum(coeffs[1..], x);
      var rest: seq<int> := coeffs[1..];
      var all: seq<int> := coeffs;
      assert all[1..] == rest;
      PointStep(x, HornerPoint(coeffs[1..], x), PolyAt(rest, x), coeffs[0]);
    }
  }

  lemma PointStep(x: int, p: Point, y: int, a: Point)
    requires p == y % ORDER
    ensures PointAdd(PointMul(x, p), a) == (a + x * y) % ORDER
  {
    CongMod(ORDER, y);
    CongIntro(ORDER, x, x, 0);
    CongMul(ORDER, x, x, p, y);
    CongMod(ORDER, x * p);
    CongTrans(ORDER, PointMul(x, p), x * p, x * y);
    CongIntro(ORDER, a, a, 0);
    CongAdd(ORDER, PointMul(x, p), x * y, a, a);
    CongSameMod(ORDER, PointMul(x, p) + a, x * y + a);
  }

  /** Share j of a dealing holds the values of both polynomials at j. */
  lemma DealtShare(f: seq<Scalar>, g: seq<Scalar>, n: u16, j: u16)
    requires 1 <= j <= n
    ensures SharesOf(f, g, n)[j - 1] == VssShare(j, Red(PolyAt(f, j)), Red(PolyAt(g, j)))
  {
    hide Horner, PolyAt, Red;
    HornerIsPolyAt(f, j);
    HornerIsPolyAt(g, j);
  }

  // ---------------------------------------------------------------- completeness and binding

  lemma CommitmentLog(a: int, b: int)
    ensures PointAdd(Base(a), PointMul(b, H)) == Base(a + b * Log(H))
  {
    hide Base, PointAdd, PointMul;
    BaseProduct(b, Log(H));
    BaseSum(a, b * Log(H));
  }

  lemma HornerStep(x: int, f': int, g': int, a: int, b: int, e: int)
    requires e == Log(H)
    ensures PointAdd(PointMul(x, Base(f' + g' * e)), PointAdd(Base(a), PointMul(b, H))) ==
            Base((a + x * f') + (b + x * g') * e)
  {
    hide Base, PointAdd, PointMul;
    BaseProduct(x, f' + g' * e);
    CommitmentLog(a, b);
    BaseSum(x * (f' + g' * e), a + b * e);
    assert x * (f' + g' * e) == x * f' + x * g' * e;
    assert (b + x * g') * e == b * e + x * g' * e;
  }

  lemma PolyAtFirst(f: seq<int>, x: int)
    requires f != []
    ensures PolyAt(f, x) == f[0] + x * PolyAt(f[1..], x)
  {
  }

  lemma HornerFirst(f: seq<Scalar>, g: seq<Scalar>, x: Scalar)
    requires |f| == |g| > 0
    ensures HornerPoint(PedersenOf(f, g), x) ==
            PointAdd(PointMul(x, HornerPoint(PedersenOf(f[1..], g[1..]), x)), PedersenCoefficient(f[0], g[0]))
  {
    hide PointAdd, PointMul, PedersenCoefficient;
    assert PedersenOf(f, g)[1..] == PedersenOf(f[1..], g[1..]);
  }

  lemma NoCoefficients(x: Scalar, e: int)
    ensures HornerPoint(PedersenOf([], []), x) == Base(PolyAt([], x) + PolyAt([], x) * e)
  {
    BaseZero();
  }

  /** Horner's rule on the commitments of f and g commits to the values of f and g. */
  lemma {:induction false} HornerInTheExponent(f: seq<Scalar>, g: seq<Scalar>, x: Scalar, e: int)
    requires |f| == |g| && e == Log(H)
    ensures HornerPoint(PedersenOf(f, g), x) == Base(PolyAt(f, x) + PolyAt(g, x) * e)
  {
    hide Base, PointAdd, PointMul, Log, HornerPoint, PolyAt, PedersenOf;
    if f == [] {
      NoCoefficients(x, e);
    } else {
      HornerInTheExponent(f[1..], g[1..], x, e);
      HornerFirst(f, g, x);
      PolyAtFirst(f, x);
      PolyAtFirst(g, x);
      var f', g': seq<int> := f[1..], g[1..];
      HornerStep(x, PolyAt(f', x), PolyAt(g', x), f[0], g[0], e);
    }
  }

  /** Horner's rule on Feldman commitments commits to the polynomial's values. */
  lemma {:induction false} FeldmanInTheExponent(f: seq<Scalar>, x: Scalar)
    ensures HornerPoint(FeldmanOf(f), x) == Base(PolyAt(f, x))
  {
    hide Base, PointAdd, PointMul;
    if f == [] {
      BaseZero();
    } else {
      var f', cs := PolyAt(f[1..], x), FeldmanOf(f);
      FeldmanInTheExponent(f[1..], x);
      assert cs[1..] == FeldmanOf(f[1..]);
      assert PolyAt(f, x) == f[0] + x * f';
      hide HornerPoint, PolyAt, FeldmanOf;
      BaseProduct(x, f');
      BaseSum(x * f', f[0]);
    }
  }

  lemma CommitmentReduces(a: Scalar, b: Scalar, x: int, y: int, e: int)
    requires a == Red(x) && b == Red(y)
    ensures Base(a + b * e) == Base(x + y * e)
  {
    hide Red, Base;
    RedInner(y, e);
    RedRed(x);
    RedSum(a, x, b * e, y * e);
    BaseInjective(a + b * e, x + y * e);
  }

  /** Against honest commitments a share is accepted iff it commits to the same point as the
      dealt share of its index. */
  lemma ShareAcceptance(f: seq<Scalar>, g: seq<Scalar>, share: VssShare)
    requires |f| == |g| && share.index != 0
    ensures VerifyShareResult(share, VssCommitments(PedersenOf(f, g))).Ok? <==>
            ShareCommitment(share) == ShareCommitment(ShareOf(f, g, share.index))
  {
    hide Base, PointAdd, PointMul, Log, Red, HornerPoint, PedersenOf, Horner, PolyAt;
    var j, e: int := share.index, Log(H);
    HornerInTheExponent(f, g, j, e);
    HornerIsPolyAt(f, j);
    HornerIsPolyAt(g, j);
    CommitmentLog(Horner(f, j), Horner(g, j));
    CommitmentReduces(Horner(f, j), Horner(g, j), PolyAt(f, j), PolyAt(g, j), e);
  }

  /** Every share the dealer hands out verifies against the commitments it publishes. */
  lemma DealtShareVerifies(f: seq<Scalar>, g: seq<Scalar>, j: u16)
    requires |f| == |g| && j != 0
    ensures VerifyShareResult(ShareOf(f, g, j), VssCommitments(PedersenOf(f, g))) == Ok(())
  {
    hide ShareCommitment, HornerPoint, PedersenOf, Horner;
    ShareAcceptance(f, g, ShareOf(f, g, j));
  }

  lemma SameCommitment(a: VssShare, b: VssShare, commitments: VssCommitments)
    requires a.index == b.index
    requires VerifyShareResult(a, commitments).Ok? && VerifyShareResult(b, commitments).Ok?
    ensures ShareCommitment(a) == ShareCommitment(b)
  {
    hide ShareCommitment, HornerPoint;
  }

  /** Binding: two accepted shares for one index and one commitment vector, whatever points it
      holds, either agree in their f-part or give away the discrete logarithm of H. */
  lemma ShareBinding(a: VssShare, b: VssShare, commitments: VssCommitments)
    requires a.index == b.index
    requires VerifyShareResult(a, commitments).Ok? && VerifyShareResult(b, commitments).Ok?
    requires a.fShare != b.fShare
    ensures a.gShare != b.gShare
    ensures H == Base(Mul(Sub(a.fShare, b.fShare), Invert(Sub(b.gShare, a.gShare))))
  {
    hide Base, PointAdd, PointMul, Log, Red, VerifyShareResult, HornerPoint, Invert, Mul, Sub;
    var e: int := Log(H);
    SameCommitment(a, b, commitments);
    CommitmentLog(a.fShare, a.gShare);
    CommitmentLog(b.fShare, b.gShare);
    BaseInjective(a.fShare + a.gShare * e, b.fShare + b.gShare * e);
    LogFromCollision(a.fShare, a.gShare, b.fShare, b.gShare, e);
    BaseInjective(Mul(Sub(a.fShare, b.fShare), Invert(Sub(b.gShare, a.gShare))), e);
  }

  lemma DifferenceNonzero(x: Scalar, y: Scalar)
    ensures Sub(x, y) == 0 <==> x == y
  {
    hide Red;
    RedScalar(x);
    RedScalar(y);
    RedScalar(0);
    if Red(x - y) == 0 {
      RedSum(x - y, 0, y, y);
    }
  }

  lemma LogFromCollision(fa: Scalar, ga: Scalar, fb: Scalar, gb: Scalar, e: int)
    requires Red(fa + ga * e) == Red(fb + gb * e) && fa != fb
    ensures ga != gb
    ensures Red(Mul(Sub(fa, fb), Invert(Sub(gb, ga)))) == Red(e)
  {
    hide Red, Invert;
    RedSum(fa + ga * e, fb + gb * e, fb + ga * e, fb + ga * e);
    assert fb + gb * e - (fb + ga * e) == (gb - ga) * e;
    assert Red(fa - fb) == Red((gb - ga) * e);
    DifferenceNonzero(fa, fb);
    RedScalar(0);
    DifferenceNonzero(gb, ga);
    var n, d := Sub(fa, fb), Sub(gb, ga);
    FractionTimesDenominator(n, d, gb - ga);
    assert e * (gb - ga) == (gb - ga) * e;
    Cancel(Mul(n, Invert(d)), e, gb - ga);
  }

  // ---------------------------------------------------------------- accumulating contributions

  /** The listed indices belong to the committee. */
  ghost predicate Members(order: seq<u16>, params: VssParameters) {
    forall j :: 0 <= j < |order| ==> 1 <= order[j] <= params.n
  }

  lemma EveryoneElse(i: u16, params: VssParameters, order: seq<u16>)
    requires Members(order, params) && Distinct(order) && i !in order
    requires 1 <= i <= params.n && |order| == params.n - 1
    ensures Permutation([i] + order, UpTo(params.n)) && Distinct([i] + order)
  {
    AllOthers(i, params.n, order);
  }

  /** `first` plus all of `ps`, added from the left. */
  function SumPoints(first: Point, ps: seq<Point>): Point {
    if ps == [] then first else PointAdd(SumPoints(first, ps[..|ps| - 1]), ps[|ps| - 1])
  }

  function SumScalars(first: Scalar, fs: seq<Scalar>): Scalar {
    if fs == [] then first else Add(SumScalars(first, fs[..|fs| - 1]), fs[|fs| - 1])
  }

  lemma SumPointsStep(first: Point, ps: seq<Point>, x: int, y: int)
    requires ps != [] && SumPoints(first, ps[..|ps| - 1]) == Base(x) && ps[|ps| - 1] == Base(y)
    ensures SumPoints(first, ps) == Base(x + y)
  {
    hide Base, PointAdd;
    BaseSum(x, y);
  }

  lemma SumScalarsStep(first: Scalar, fs: seq<Scalar>, x: int, y: int)
    requires fs != [] && SumScalars(first, fs[..|fs| - 1]) == Red(x) && fs[|fs| - 1] == Red(y)
    ensures SumScalars(first, fs) == Red(x + y)
  {
    hide Red;
    RedOuter(x, y);
  }

  lemma SumPointsEmpty(first: Point)
    ensures SumPoints(first, []) == first
  {
  }

  lemma SumScalarsEmpty(first: Scalar)
    ensures SumScalars(first, []) == first
  {
  }

  /** Points that are the listed multiples of G add up to the multiple by the sum. */
  lemma {:induction false} SumPointsBase(
      first: Point, x: int, ps: seq<Point>, order: seq<u16>, v: map<u16, int>)
    requires first == Base(x) && |ps| == |order|
    requires forall j :: 0 <= j < |ps| ==> ps[j] == Base(At(v, order[j]))
    ensures SumPoints(first, ps) == Base(x + SumOver(order, v))
    decreases |ps|
  {
    hide *;
    if order == [] {
      SumEmpty(v);
      SumPointsEmpty(first);
    } else {
      var order', k := order[..|order| - 1], order[|order| - 1];
      assert order == order' + [k];
      SumPointsBase(first, x, ps[..|ps| - 1], order', v);
      SumLast(order', k, v);
      SumPointsStep(first, ps, x + SumOver(order', v), At(v, k));
    }
  }

  lemma {:induction false} SumScalarsRed(
      first: Scalar, x: int, fs: seq<Scalar>, order: seq<u16>, v: map<u16, int>)
    requires first == Red(x) && |fs| == |order|
    requires forall j :: 0 <= j < |fs| ==> fs[j] == Red(At(v, order[j]))
    ensures SumScalars(first, fs) == Red(x + SumOver(order, v))
    decreases |fs|
  {
    hide *;
    if order == [] {
      SumEmpty(v);
      SumScalarsEmpty(first);
    } else {
      var order', k := order[..|order| - 1], order[|order| - 1];
      assert order == order' + [k];
      SumScalarsRed(first, x, fs[..|fs| - 1], order', v);
      SumLast(order', k, v);
      SumScalarsStep(first, fs, x + SumOver(order', v), At(v, k));
    }
  }

  /** Whatever the points are, they are added in the group. */
  lemma {:induction false} SumPointsTotal(first: Point, ps: seq<Point>)
    ensures SumPoints(first, ps) == (first + Total(ps)) % (8 * Q)
  {
    if ps == [] {
      DivModUnique(first, ORDER, 0, first);
    } else {
      var rest, last := ps[..|ps| - 1], ps[|ps| - 1];
      SumPointsTotal(first, rest);
      var all: seq<int>, before: seq<int> := ps, rest;
      assert all[..|all| - 1] == before;
      SumNext(SumPoints(first, rest), first + Total(before), last);
    }
  }

  lemma {:induction false} SumScalarsTotal(first: Scalar, fs: seq<Scalar>)
    ensures SumScalars(first, fs) == Red(first + Total(fs))
  {
    hide Red, Add, Total;
    if fs == [] {
      TotalNext([], 0);
      RedScalar(first);
    } else {
      var rest, last := fs[..|fs| - 1], fs[|fs| - 1];
      SumScalarsTotal(first, rest);
      assert fs == rest + [last];
      TotalNext(rest, last);
      AddReducedTo(first + Total(rest), last);
    }
  }

  lemma AddReducedTo(x: int, y: Scalar)
    ensures Add(Red(x), y) == Red(x + y)
  {
    RedInner(x, y);
  }
}
