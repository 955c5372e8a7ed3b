/** Schnorr signatures and their blind issuance. Curve encodings and hash functions are constants
    without a value: the results hold for every choice that meets their type. */
module Schnorr {
  import opened Wrappers
  import opened Field
  import opened Group

  // ---------------------------------------------------------------- encodings and hashes

  datatype PointCodec = PointCodec(
    compress: Point -> Bytes32,
    decompress: Bytes32 -> Option<Point>)

  ghost predicate LawfulCodec(codec: PointCodec) {
    forall p: Point :: codec.decompress(codec.compress(p)) == Some(p)
  }

  /** Decompression undoes compression; it may also accept further byte strings. */
  type LawfulPointCodec = codec: PointCodec | LawfulCodec(codec)
    witness PointCodec(p => p, b => if b < ORDER then Some(b) else None)

  const POINTS: LawfulPointCodec

  function Compress(p: Point): Bytes32 { POINTS.compress(p) }

  function Decompress(b: Bytes32): Result<Point> {
    match POINTS.decompress(b)
    case Some(p) => Ok(p)
    case None => Err(InvalidPoint)
  }

  /** Scalars are encoded as their canonical little-endian bytes. */
  function FromCanonicalBytes(b: Bytes32): Result<Scalar> {
    if b < Q then Ok(b) else Err(InvalidScalar)
  }

  /** The challenge hash of the commitment, the public key and the message. */
  const CHALLENGE: (Bytes32, Bytes32, seq<u8>) -> Scalar

  // ---------------------------------------------------------------- keys

  /** A public key is the encoding of a torsion-free point. */
  function PublicKeyFromBytes(b: Bytes32): Result<Bytes32> {
    var p :- Decompress(b);
    if TorsionFree(p) then Ok(b) else Err(InvalidPoint)
  }

  function PublicKeyFromSecret(sk: Scalar): Bytes32 { Compress(Base(sk)) }

  // ---------------------------------------------------------------- signatures

  datatype Signature = Signature(r: Bytes32, s: Bytes32)

  function SchnorrSign(sk: Scalar, pk: Bytes32, msg: seq<u8>, k: Scalar): Signature {
    var r := Compress(Base(k));
    var c := CHALLENGE(r, pk, msg);
    Signature(r, Add(k, Mul(c, sk)))
  }

  function SchnorrVerify(pk: Bytes32, msg: seq<u8>, sig: Signature): Result<bool> {
    var pkPoint :- Decompress(pk);
    var rPoint :- Decompress(sig.r);
    var s :- FromCanonicalBytes(sig.s);
    var c := CHALLENGE(sig.r, pk, msg);
    Ok(Base(s) == PointAdd(rPoint, PointMul(c, pkPoint)))
  }

  lemma DecompressCompress(p: Point)
    ensures Decompress(Compress(p)) == Ok(p)
  {
    assert LawfulCodec(POINTS);
  }

  lemma HonestPublicKey(x: int)
    ensures PublicKeyFromBytes(Compress(Base(x))) == Ok(Compress(Base(x)))
  {
    DecompressCompress(Base(x));
    BaseTorsionFree(x);
  }

  /** Under the key x * G and with commitment rho * G, exactly the scalar rho + c * x verifies. */
  lemma VerifyEquation(x: int, rho: int, msg: seq<u8>, s: Scalar)
    ensures var pk, r := Compress(Base(x)), Compress(Base(rho));
            SchnorrVerify(pk, msg, Signature(r, s)) == Ok(s == Red(rho + CHALLENGE(r, pk, msg) * x))
  {
    hide Base, PointMul, PointAdd, Red;
    var pk, r := Compress(Base(x)), Compress(Base(rho));
    var c := CHALLENGE(r, pk, msg);
    DecompressCompress(Base(x));
    DecompressCompress(Base(rho));
    BaseProduct(c, x);
    BaseSum(rho, c * x);
    BaseInjective(s, rho + c * x);
    RedScalar(s);
  }

  lemma SumOfProduct(k: Scalar, c: Scalar, x: Scalar)
    ensures Add(k, Mul(c, x)) == Red(k + c * x)
  {
    RedInner(c * x, k);
  }

  /** Every signature made with the secret key of a public key verifies under it. */
  lemma SignThenVerify(sk: Scalar, msg: seq<u8>, k: Scalar)
    ensures var pk := PublicKeyFromSecret(sk);
            SchnorrVerify(pk, msg, SchnorrSign(sk, pk, msg, k)) == Ok(true)
  {
    hide Base, Red, Add, Mul, SchnorrVerify;
    var pk, r := PublicKeyFromSecret(sk), Compress(Base(k));
    var c := CHALLENGE(r, pk, msg);
    SumOfProduct(k, c, sk);
    VerifyEquation(sk, k, msg, Add(k, Mul(c, sk)));
  }

  /** A signature is accepted iff both points decode, the scalar is canonical and s * G == R + c * P in the
      curve's group; that group has 8 * Q elements, of which G is the eighth multiple of a generator. */
  lemma VerifiesIff(pk: Bytes32, msg: seq<u8>, sig: Signature)
    ensures SchnorrVerify(pk, msg, sig) == Ok(true) <==>
            && Decompress(pk).Ok? && Decompress(sig.r).Ok? && sig.s < Q
            && var p: int, r: int := Decompress(pk).value, Decompress(sig.r).value;
               (8 * sig.s - r - CHALLENGE(sig.r, pk, msg) * p) % (8 * Q) == 0
    ensures SchnorrVerify(pk, msg, sig) == Err(InvalidPoint) <==> Decompress(pk).Err? || Decompress(sig.r).Err?
    ensures SchnorrVerify(pk, msg, sig) == Err(InvalidScalar) <==>
            Decompress(pk).Ok? && Decompress(sig.r).Ok? && sig.s >= Q
  {
    hide Base, PointAdd, PointMul;
    if Decompress(pk).Ok? && Decompress(sig.r).Ok? && sig.s < Q {
      EquationInGroup(sig.s, Decompress(sig.r).value, CHALLENGE(sig.r, pk, msg), Decompress(pk).value);
    }
  }

  // ---------------------------------------------------------------- blind issuance

  datatype BlindCommit = BlindCommit(r: Bytes32)
  datatype SignerState = SignerState(k: Scalar)
  datatype BlindChallenge = BlindChallenge(c: Bytes32)
  datatype UserState = UserState(alpha: Scalar, beta: Scalar, rPrime: Bytes32)
  datatype BlindResponse = BlindResponse(s: Bytes32)

  function IssueRound1(k: Scalar): (BlindCommit, SignerState) {
    (BlindCommit(Compress(Base(k))), SignerState(k))
  }

  /** The user's blinding of one commitment; `alpha` and `beta` are the sampled factors. */
  function BlindRequest(commit: BlindCommit, pk: Bytes32, msg: seq<u8>, alpha: Scalar, beta: Scalar)
    : Result<(BlindChallenge, UserState)>
  {
    var rPoint :- Decompress(commit.r);
    var pkPoint :- Decompress(pk);
    var rPrime := Compress(PointAdd(PointAdd(rPoint, Base(alpha)), PointMul(beta, pkPoint)));
    var c := Add(CHALLENGE(rPrime, pk, msg), beta);
    Ok((BlindChallenge(c), UserState(alpha, beta, rPrime)))
  }

  function IssueRound2(state: SignerState, challenge: BlindChallenge, sk: Scalar)
    : Result<BlindResponse>
  {
    var c :- FromCanonicalBytes(challenge.c);
    Ok(BlindResponse(Add(state.k, Mul(c, sk))))
  }

  function Unblind(state: UserState, response: BlindResponse): Result<Signature> {
    var s :- FromCanonicalBytes(response.s);
    Ok(Signature(state.rPrime, Add(s, state.alpha)))
  }

  /** What the rounds refuse: points that do not decode and scalars that are not canonical. */
  lemma RefusedIff(
      commit: BlindCommit, pk: Bytes32, msg: seq<u8>, alpha: Scalar, beta: Scalar, signer: SignerState,
      challenge: BlindChallenge, sk: Scalar, user: UserState, response: BlindResponse)
    ensures BlindRequest(commit, pk, msg, alpha, beta) == Err(InvalidPoint) <==>
            Decompress(commit.r).Err? || Decompress(pk).Err?
    ensures BlindRequest(commit, pk, msg, alpha, beta).Err? <==>
            BlindRequest(commit, pk, msg, alpha, beta) == Err(InvalidPoint)
    ensures IssueRound2(signer, challenge, sk).Err? <==> challenge.c >= Q
    ensures IssueRound2(signer, challenge, sk).Err? ==> IssueRound2(signer, challenge, sk) == Err(InvalidScalar)
    ensures Unblind(user, response).Err? <==> response.s >= Q
    ensures Unblind(user, response).Err? ==> Unblind(user, response) == Err(InvalidScalar)
  {
    hide Base, PointAdd, PointMul, Red;
  }

  /** The blinded commitment is (k + alpha + beta * x) * G. */
  lemma BlindedCommitment(k: int, x: int, alpha: Scalar, beta: Scalar)
    ensures PointAdd(PointAdd(Base(k), Base(alpha)), PointMul(beta, Base(x))) ==
            Base(k + alpha + beta * x)
  {
    hide Base, PointAdd, PointMul;
    BaseSum(k, alpha);
    BaseProduct(beta, x);
    BaseSum(k + alpha, beta * x);
  }

  /** The scalar identity behind unblinding: s + alpha answers c' iff s answers c' + beta. */
  lemma UnblindIdentity(s: Scalar, k: int, x: int, alpha: Scalar, beta: Scalar, c': Scalar)
    ensures Add(s, alpha) == Red(k + alpha + beta * x + c' * x) <==>
            s == Red(k + Add(c', beta) * x)
  {
    hide Red;
    var rhs := k + (c' + beta) * x;
    assert k + alpha + beta * x + c' * x == rhs + alpha;
    RedInner(c' + beta, x);
    RedSum(k, k, Add(c', beta) * x, (c' + beta) * x);
    RedScalar(s);
    if Red(s + alpha) == Red(rhs + alpha) {
      RedSum(s + alpha, rhs + alpha, alpha, alpha);
    }
    if Red(s) == Red(rhs) {
      RedSum(s, rhs, alpha, alpha);
    }
  }

  /** Blind issuance is complete and rejects every other response: against commitment k * G and
      key x * G the request succeeds, and the unblinded signature verifies iff the response is
      k + c * x for the blinded challenge c. */
  lemma BlindIssuance(k: int, x: int, msg: seq<u8>, alpha: Scalar, beta: Scalar, s: Scalar)
    ensures var pk := Compress(Base(x));
            var request := BlindRequest(BlindCommit(Compress(Base(k))), pk, msg, alpha, beta);
            && request.Ok?
            && request.value.0.c < Q
            && var sig := Unblind(request.value.1, BlindResponse(s));
            && sig.Ok?
            && SchnorrVerify(pk, msg, sig.value) == Ok(s == Red(k + request.value.0.c * x))
  {
    hide Base, PointAdd, PointMul, Red, Add, SchnorrVerify;
    var pk := Compress(Base(x));
    DecompressCompress(Base(k));
    DecompressCompress(Base(x));
    BlindedCommitment(k, x, alpha, beta);
    var rho := k + alpha + beta * x;
    var c' := CHALLENGE(Compress(Base(rho)), pk, msg);
    VerifyEquation(x, rho, msg, Add(s, alpha));
    UnblindIdentity(s, k, x, alpha, beta, c');
  }

  /** The four rounds with an honest signer produce a valid signature. */
  lemma SingleSignerIssuance(k: Scalar, x: Scalar, msg: seq<u8>, alpha: Scalar, beta: Scalar)
    ensures var pk := PublicKeyFromSecret(x);
            var (commit, signer) := IssueRound1(k);
            var request := BlindRequest(commit, pk, msg, alpha, beta);
            && request.Ok?
            && var response := IssueRound2(signer, request.value.0, x);
            && response.Ok?
            && var sig := Unblind(request.value.1, response.value);
            && sig.Ok?
            && SchnorrVerify(pk, msg, sig.value) == Ok(true)
  {
    hide Base, Red, Add, Mul, SchnorrVerify, BlindRequest, Unblind;
    var request := BlindRequest(BlindCommit(Compress(Base(k))), Compress(Base(x)), msg, alpha, beta);
    BlindIssuance(k, x, msg, alpha, beta, 0);
    var c: Scalar := request.value.0.c;
    var s := Add(k, Mul(c, x));
    SumOfProduct(k, c, x);
    BlindIssuance(k, x, msg, alpha, beta, s);
  }
}
