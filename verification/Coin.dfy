/** Bearer coins: a spending key, its public commitment and the mint's signature on it. */
module Coin {
  import opened Wrappers
  import opened Octets
  import opened Field
  import opened Schnorr

  /** Key derivation from a one-shot seed. */
  const DERIVE_COIN_SECRET: Bytes32 -> Scalar

  datatype Coin = Coin(secret: Scalar, pubkeyBytes: Bytes32, signature: Signature) {

    /** The invariant that construction enforces. */
    ghost predicate Valid() { pubkeyBytes == PublicKeyFromSecret(secret) }

    function Verify(jointPk: Bytes32): Result<bool> {
      SchnorrVerify(jointPk, Le(32, pubkeyBytes), signature)
    }
  }

  /** Construction succeeds iff the public commitment belongs to the secret. */
  function NewCoin(secret: Scalar, pubkeyBytes: Bytes32, signature: Signature): (r: Result<Coin>)
    ensures r.Ok? <==> Coin(secret, pubkeyBytes, signature).Valid()
    ensures r.Ok? ==> r.value == Coin(secret, pubkeyBytes, signature)
    ensures r.Err? ==> r.error == CoinPubkeyMismatch
  {
    if PublicKeyFromSecret(secret) != pubkeyBytes then Err(CoinPubkeyMismatch)
    else Ok(Coin(secret, pubkeyBytes, signature))
  }

  // ---------------------------------------------------------------- user side of issuance

  datatype IssueSession = IssueSession(seed: Bytes32, userState: UserState, cpBytes: Bytes32)

  /** Derive a coin secret from a fresh seed and blind its public commitment. */
  function IssueRequest(
    jointPk: Bytes32, commit: BlindCommit, seed: Bytes32, alpha: Scalar, beta: Scalar)
    : Result<(BlindChallenge, IssueSession)>
  {
    var cpBytes := PublicKeyFromSecret(DERIVE_COIN_SECRET(seed));
    var request :- BlindRequest(commit, jointPk, Le(32, cpBytes), alpha, beta);
    Ok((request.0, IssueSession(seed, request.1, cpBytes)))
  }

  function IssueFinalize(session: IssueSession, response: BlindResponse): Result<Coin> {
    var sig :- Unblind(session.userState, response);
    NewCoin(DERIVE_COIN_SECRET(session.seed), session.cpBytes, sig)
  }
}
