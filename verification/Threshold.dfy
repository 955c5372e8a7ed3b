/** Why the partial signatures of any large enough signing set add up to a signature under the
    joint key, in whatever order the messages arrive. */
module Threshold {
  import opened Wrappers
  import opened Lists
  import opened Field
  import opened Group
  import opened Schnorr
  import opened Polynomials
  import opened Lagrange
  import opened Sign

  /** The scalar a validator contributes in the signing round. */
  function PartialScalar(k: Scalar, c: Scalar, lambda: Scalar, share: Scalar): Scalar {
    Add(k, Mul(Mul(c, lambda), share))
  }

  /** The holders of `signingSet` have shares of the polynomial `f`. */
  ghost predicate SharesOn(f: seq<int>, share: map<u16, Scalar>, signingSet: seq<u16>) {
    forall i :: i in signingSet ==> i in share && share[i] == Red(PolyAt(f, i))
  }

  /** Every member of the set has a value. */
  ghost predicate Assigned(m: map<u16, Scalar>, signingSet: seq<u16>) {
    forall i :: i in signingSet ==> i in m
  }

  ghost predicate UsableSet(signingSet: seq<u16>) {
    Distinct(signingSet) && 0 !in signingSet
  }

  /** What each share contributes to the interpolation over `s`. */
  ghost function Weighted(s: seq<u16>, share: map<u16, Scalar>): map<u16, int> {
    map i | i in share :: Lambda(s, i) * share[i]
  }

  /** The value at zero that the shares of `s` interpolate, as an unreduced integer. */
  ghost function Interpolated(s: seq<u16>, share: map<u16, Scalar>): int {
    SumOver(s, Weighted(s, share))
  }

  lemma PartialScalarReduces(k: Scalar, c: Scalar, l: Scalar, share: Scalar)
    ensures PartialScalar(k, c, l, share) == Red(k + c * (l * share))
  {
    hide Red;
    MulAssoc(c, l, share);
    RedInner(c * l, share);
    RedInner(c * l * share, k);
  }

  lemma SumStep(total: int, total': int, nonces: int, nonces': int, weighted: int, weighted': int,
                c: int, k: int, lv: int, p: int)
    requires Red(total) == Red(nonces + c * weighted) && Red(p) == Red(k + c * lv)
    requires total' == total + p && nonces' == nonces + k && weighted' == weighted + lv
    ensures Red(total') == Red(nonces' + c * weighted')
  {
    hide Red;
    RedSum(total, nonces + c * weighted, p, k + c * lv);
    assert nonces + c * weighted + (k + c * lv) == nonces' + c * weighted';
  }

  lemma {:induction false} PartialScalarsSum(
      s: seq<u16>, part: seq<u16>, k: map<u16, Scalar>, share: map<u16, Scalar>, c: Scalar,
      partial: map<u16, Scalar>)
    requires Assigned(k, part) && Assigned(share, part)
    requires forall i :: i in part ==>
               i in partial && partial[i] == PartialScalar(k[i], c, Lambda(s, i), share[i])
    ensures Red(SumOver(part, partial)) ==
            Red(SumOver(part, k) + c * SumOver(part, Weighted(s, share)))
  {
    if part != [] {
      var part', i := part[..|part| - 1], part[|part| - 1];
      assert part == part' + [i];
      assert i in part;
      PartialScalarsSum(s, part', k, share, c, partial);
      hide Red, Lambda, PartialScalar, SumOver;
      PartialScalarReduces(k[i], c, Lambda(s, i), share[i]);
      RedRed(k[i] + c * (Lambda(s, i) * share[i]));
      SumLast(part', i, partial);
      SumLast(part', i, k);
      SumLast(part', i, Weighted(s, share));
      SumStep(SumOver(part', partial), SumOver(part, partial), SumOver(part', k), SumOver(part, k),
              SumOver(part', Weighted(s, share)), SumOver(part, Weighted(s, share)),
              c, k[i], Lambda(s, i) * share[i], partial[i]);
    }
  }

  /** Summed in any order, the partial scalars of a signing set give the sum of the nonces plus c
      times whatever its shares interpolate. */
  lemma PartialsSum(
      s: seq<u16>, order: seq<u16>, k: map<u16, Scalar>, share: map<u16, Scalar>, c: Scalar,
      partial: map<u16, Scalar>)
    requires Assigned(k, s) && Assigned(share, s) && Permutation(order, s)
    requires forall i :: i in s ==>
               i in partial && partial[i] == PartialScalar(k[i], c, Lambda(s, i), share[i])
    ensures Red(SumOver(order, partial)) == Red(SumOver(s, k) + c * Interpolated(s, share))
  {
    hide Red, Lambda, PartialScalar, SumOver, Weighted;
    PermutationDistinct(order, s);
    PartialScalarsSum(s, order, k, share, c, partial);
    SumPermutation(order, s, k);
    SumPermutation(order, s, Weighted(s, share));
  }

  lemma {:induction false} WeightedReduces(s: seq<u16>, part: seq<u16>, f: seq<int>, share: map<u16, Scalar>)
    requires SharesOn(f, share, part)
    ensures Red(SumOver(part, Weighted(s, share))) == Red(WeightedSum(s, part, x => PolyAt(f, x)))
  {
    if part != [] {
      var part', i := part[..|part| - 1], part[|part| - 1];
      assert part == part' + [i];
      assert i in part;
      WeightedReduces(s, part', f, share);
      hide Red, Lambda, PolyAt, SumOver, WeightedSum;
      var w := x => PolyAt(f, x);
      SumLast(part', i, Weighted(s, share));
      WeightedSumLast(s, part', i, w);
      RedRed(PolyAt(f, i));
      RedProduct(Lambda(s, i), Lambda(s, i), share[i], PolyAt(f, i));
      RedSum(SumOver(part', Weighted(s, share)), WeightedSum(s, part', w),
             Lambda(s, i) * share[i], Lambda(s, i) * PolyAt(f, i));
    }
  }

  /** Shares of a polynomial with no more coefficients than there are members interpolate its value
      at zero. */
  lemma SharesInterpolate(s: seq<u16>, f: seq<int>, share: map<u16, Scalar>)
    requires UsableSet(s) && |f| <= |s| && SharesOn(f, share, s)
    ensures Red(Interpolated(s, share)) == Red(PolyAt(f, 0))
  {
    hide Red, Lambda, PolyAt, SumOver, WeightedSum, Weighted;
    WeightedReduces(s, s, f, share);
    Reconstruction(s, f);
  }

  /** Summed in any order, the partial scalars of a signing set at least as large as the number of
      coefficients of f give the sum of the nonces plus c times f(0). */
  lemma ThresholdSum(
      s: seq<u16>, order: seq<u16>, f: seq<int>, k: map<u16, Scalar>, share: map<u16, Scalar>, c: Scalar,
      partial: map<u16, Scalar>)
    requires Assigned(k, s) && SharesOn(f, share, s)
    requires UsableSet(s) && |f| <= |s| && Permutation(order, s)
    requires forall i :: i in s ==>
               i in partial && partial[i] == PartialScalar(k[i], c, Lambda(s, i), share[i])
    ensures Red(SumOver(order, partial)) == Red(SumOver(s, k) + c * PolyAt(f, 0))
  {
    hide Red, Lambda, PartialScalar, PolyAt, SumOver, Interpolated;
    PartialsSum(s, order, k, share, c, partial);
    SharesInterpolate(s, f, share);
    RedProduct(c, c, Interpolated(s, share), PolyAt(f, 0));
    RedSum(SumOver(s, k), SumOver(s, k), c * Interpolated(s, share), c * PolyAt(f, 0));
  }

  // ---------------------------------------------------------------- honest messages

  /** Every member of the signing set sent its commitment, in any order. */
  ghost predicate HonestCommitments(
    sessionId: Bytes16, signingSet: seq<u16>, k: map<u16, Scalar>, outputs: seq<ValidatorR1Output>)
  {
    && Permutation(Senders1(outputs), signingSet)
    && forall out :: out in outputs ==>
         out.fromIndex in k && out == ValidatorRound1(sessionId, out.fromIndex, k[out.fromIndex]).0
  }

  /** Every member of the signing set sent its partial signature, in any order. */
  ghost predicate HonestResponses(
    sessionId: Bytes16, signingSet: seq<u16>, k: map<u16, Scalar>, share: map<u16, Scalar>,
    challenge: BlindChallenge, outputs: seq<ValidatorR3Output>)
  {
    && Permutation(Senders3(outputs), signingSet)
    && forall out :: out in outputs ==>
         && out.fromIndex in k && out.fromIndex in share
         && var state := ValidatorRound1(sessionId, out.fromIndex, k[out.fromIndex]).1;
            PartialSignResult(state, challenge, share[out.fromIndex], signingSet) == Ok(out)
  }

  lemma {:induction false} SumOfCommitments(
      sessionId: Bytes16, signingSet: seq<u16>, k: map<u16, Scalar>, outputs: seq<ValidatorR1Output>)
    requires SumCommitments(sessionId, signingSet, outputs).Ok?
    requires forall out :: out in outputs ==>
               out.fromIndex in k && out == ValidatorRound1(sessionId, out.fromIndex, k[out.fromIndex]).0
    ensures SumCommitments(sessionId, signingSet, outputs) == Ok(Base(SumOver(Senders1(outputs), k)))
  {
    hide Base, PointAdd, Decompress, Compress, SumCommitments, SumOver, Senders1, Admit;
    if outputs == [] {
      NoCommitments(sessionId, signingSet, k);
    } else {
      var rest, out := outputs[..|outputs| - 1], outputs[|outputs| - 1];
      assert outputs == rest + [out];
      CommitmentNext(sessionId, signingSet, rest, out);
      SumOfCommitments(sessionId, signingSet, k, rest);
      HonestPoint(sessionId, out, k);
      SumLast(Senders1(rest), out.fromIndex, k);
      BaseSum(SumOver(Senders1(rest), k), k[out.fromIndex]);
    }
  }

  lemma NoCommitments(sessionId: Bytes16, signingSet: seq<u16>, k: map<u16, Scalar>)
    ensures SumCommitments(sessionId, signingSet, []) == Ok(Base(SumOver(Senders1([]), k)))
  {
    BaseZero();
  }

  lemma HonestPoint(sessionId: Bytes16, out: ValidatorR1Output, k: map<u16, Scalar>)
    requires out.fromIndex in k && out == ValidatorRound1(sessionId, out.fromIndex, k[out.fromIndex]).0
    ensures Decompress(out.r) == Ok(Base(k[out.fromIndex]))
  {
    DecompressCompress(Base(k[out.fromIndex]));
  }

  lemma CommitmentNext(sessionId: Bytes16, signingSet: seq<u16>, rest: seq<ValidatorR1Output>, out: ValidatorR1Output)
    ensures Senders1(rest + [out]) == Senders1(rest) + [out.fromIndex]
    ensures SumCommitments(sessionId, signingSet, rest + [out]).Ok? ==>
              && SumCommitments(sessionId, signingSet, rest).Ok? && Decompress(out.r).Ok?
              && SumCommitments(sessionId, signingSet, rest + [out]) ==
                 Ok(PointAdd(SumCommitments(sessionId, signingSet, rest).value, Decompress(out.r).value))
  {
    hide Decompress, PointAdd;
    assert (rest + [out])[..|rest|] == rest;
  }

  lemma ResponseNext(sessionId: Bytes16, signingSet: seq<u16>, rest: seq<ValidatorR3Output>, out: ValidatorR3Output)
    ensures Senders3(rest + [out]) == Senders3(rest) + [out.fromIndex]
    ensures SumResponses(sessionId, signingSet, rest + [out]).Ok? ==>
              && SumResponses(sessionId, signingSet, rest).Ok? && out.s < Q
              && SumResponses(sessionId, signingSet, rest + [out]) ==
                 Ok(Add(SumResponses(sessionId, signingSet, rest).value, out.s))
  {
    hide Add;
    assert (rest + [out])[..|rest|] == rest;
  }

  lemma NoResponses(sessionId: Bytes16, signingSet: seq<u16>, s: map<u16, Scalar>)
    ensures SumResponses(sessionId, signingSet, []) == Ok(Red(SumOver(Senders3([]), s)))
  {
    RedScalar(0);
  }

  lemma AddToReduced(x: int, y: Scalar)
    ensures Add(Red(x), y) == Red(x + y)
  {
    RedInner(x, y);
  }

  lemma {:induction false} SumOfResponses(
      sessionId: Bytes16, signingSet: seq<u16>, s: map<u16, Scalar>, outputs: seq<ValidatorR3Output>)
    requires SumResponses(sessionId, signingSet, outputs).Ok?
    requires forall out :: out in outputs ==> out.fromIndex in s && out.s == s[out.fromIndex]
    ensures SumResponses(sessionId, signingSet, outputs) == Ok(Red(SumOver(Senders3(outputs), s)))
  {
    hide SumResponses, SumOver, Senders3, Red, Add, Admit;
    if outputs == [] {
      NoResponses(sessionId, signingSet, s);
    } else {
      var rest, out := outputs[..|outputs| - 1], outputs[|outputs| - 1];
      assert outputs == rest + [out];
      ResponseNext(sessionId, signingSet, rest, out);
      SumOfResponses(sessionId, signingSet, s, rest);
      SumLast(Senders3(rest), out.fromIndex, s);
      AddToReduced(SumOver(Senders3(rest), s), s[out.fromIndex]);
    }
  }

  // ---------------------------------------------------------------- the session

  lemma CommitmentsAggregate(
      sessionId: Bytes16, signingSet: seq<u16>, k: map<u16, Scalar>, outputs: seq<ValidatorR1Output>)
    requires UsableSet(signingSet) && HonestCommitments(sessionId, signingSet, k, outputs)
    ensures AggregateCommitmentsResult(sessionId, signingSet, outputs) ==
            Ok(BlindCommit(Compress(Base(SumOver(signingSet, k)))))
  {
    hide Base, SumOver;
    forall out | out in outputs
      ensures out.sessionId == sessionId && Decompress(out.r).Ok?
    {
      DecompressCompress(Base(k[out.fromIndex]));
    }
    hide Decompress, Compress;
    CommitmentsAcceptedIff(sessionId, signingSet, outputs);
    SumOfCommitments(sessionId, signingSet, k, outputs);
    SumPermutation(Senders1(outputs), signingSet, k);
  }

  lemma HonestResponse(
      sessionId: Bytes16, s: seq<u16>, k: map<u16, Scalar>, share: map<u16, Scalar>,
      challenge: BlindChallenge, outputs: seq<ValidatorR3Output>, out: ValidatorR3Output)
    requires UsableSet(s) && challenge.c < Q && out in outputs
    requires HonestResponses(sessionId, s, k, share, challenge, outputs)
    ensures out.sessionId == sessionId
    ensures out.fromIndex in s && out.fromIndex in k && out.fromIndex in share
    ensures out.s == PartialScalar(k[out.fromIndex], challenge.c, Lambda(s, out.fromIndex), share[out.fromIndex])
  {
    hide Lambda, Red;
    var j :| 0 <= j < |outputs| && outputs[j] == out;
    assert Senders3(outputs)[j] == out.fromIndex;
    PermutationDistinct(Senders3(outputs), s);
  }

  /** What each member contributes to the response. */
  ghost function PartialsOf(
    s: seq<u16>, k: map<u16, Scalar>, share: map<u16, Scalar>, c: Scalar): map<u16, Scalar>
    requires Assigned(k, s) && Assigned(share, s)
  {
    map i | i in s :: PartialScalar(k[i], c, Lambda(s, i), share[i])
  }

  lemma PartialAt(s: seq<u16>, k: map<u16, Scalar>, share: map<u16, Scalar>, c: Scalar)
    requires Assigned(k, s) && Assigned(share, s)
    ensures forall i :: i in s ==>
              && i in k && i in share && i in PartialsOf(s, k, share, c)
              && PartialsOf(s, k, share, c)[i] == PartialScalar(k[i], c, Lambda(s, i), share[i])
  {
    hide PartialScalar, Lambda;
  }

  lemma ResponsesAggregate(
      sessionId: Bytes16, s: seq<u16>, k: map<u16, Scalar>, share: map<u16, Scalar>,
      challenge: BlindChallenge, outputs: seq<ValidatorR3Output>)
    requires Assigned(k, s) && Assigned(share, s) && UsableSet(s) && challenge.c < Q
    requires HonestResponses(sessionId, s, k, share, challenge, outputs)
    ensures AggregateResponsesResult(sessionId, s, outputs) ==
            Ok(BlindResponse(Red(SumOver(s, k) + challenge.c * Interpolated(s, share))))
  {
    hide *;
    var partial, senders := PartialsOf(s, k, share, challenge.c), Senders3(outputs);
    PartialAt(s, k, share, challenge.c);
    HonestResponsesAdmitted(sessionId, s, k, share, challenge, outputs, partial);
    SumOfResponses(sessionId, s, partial, outputs);
    PartialsSum(s, senders, k, share, challenge.c, partial);
    ResponsesResult(sessionId, s, outputs, Red(SumOver(senders, partial)));
  }

  lemma ResponsesResult(
      sessionId: Bytes16, s: seq<u16>, outputs: seq<ValidatorR3Output>, sum: Scalar)
    requires |outputs| == |s| && SumResponses(sessionId, s, outputs) == Ok(sum)
    ensures AggregateResponsesResult(sessionId, s, outputs) == Ok(BlindResponse(sum))
  {
  }

  /** Honest responses pass the aggregator's checks and carry the partial scalars. */
  lemma HonestResponsesAdmitted(
      sessionId: Bytes16, s: seq<u16>, k: map<u16, Scalar>, share: map<u16, Scalar>,
      challenge: BlindChallenge, outputs: seq<ValidatorR3Output>, partial: map<u16, Scalar>)
    requires Assigned(k, s) && Assigned(share, s) && UsableSet(s) && challenge.c < Q
    requires HonestResponses(sessionId, s, k, share, challenge, outputs)
    requires partial == PartialsOf(s, k, share, challenge.c)
    ensures Permutation(Senders3(outputs), s) && |outputs| == |s|
    ensures SumResponses(sessionId, s, outputs).Ok?
    ensures forall out :: out in outputs ==> out.fromIndex in partial && out.s == partial[out.fromIndex]
  {
    hide Lambda, PartialScalar, PartialSignResult;
    PermutationDistinct(Senders3(outputs), s);
    forall out | out in outputs
      ensures out.sessionId == sessionId && out.s < Q
      ensures out.fromIndex in partial && out.s == partial[out.fromIndex]
    {
      HonestResponse(sessionId, s, k, share, challenge, outputs, out);
    }
    ResponsesAcceptedIff(sessionId, s, outputs);
  }

  /** The user's blinded challenge, once the commitments are aggregated. */
  function Request(
    pk: Bytes32, sessionId: Bytes16, signingSet: seq<u16>, commitments: seq<ValidatorR1Output>,
    msg: seq<u8>, alpha: Scalar, beta: Scalar): Result<(BlindChallenge, UserState)>
  {
    var commit :- AggregateCommitmentsResult(sessionId, signingSet, commitments);
    BlindRequest(commit, pk, msg, alpha, beta)
  }

  /** Whether the responses give a signature on `msg` that verifies under `pk`. */
  function Verdict(
    pk: Bytes32, sessionId: Bytes16, signingSet: seq<u16>, user: UserState,
    responses: seq<ValidatorR3Output>, msg: seq<u8>): Result<bool>
  {
    var response :- AggregateResponsesResult(sessionId, signingSet, responses);
    var sig :- Unblind(user, response);
    SchnorrVerify(pk, msg, sig)
  }

  /** No member of the set is refused when it signs the challenge. */
  ghost predicate AllSign(
    sessionId: Bytes16, signingSet: seq<u16>, k: map<u16, Scalar>, share: map<u16, Scalar>,
    challenge: BlindChallenge)
  {
    forall i :: i in signingSet ==>
      && i in k && i in share
      && PartialSignResult(ValidatorRound1(sessionId, i, k[i]).1, challenge, share[i], signingSet).Ok?
  }

  /** The session yields a signature on `msg` that verifies under `pk`: the commitments aggregate, the
      user's request succeeds, every member signs its challenge, and these responses, whatever their
      order, aggregate, unblind and verify. */
  ghost predicate Issues(
    pk: Bytes32, sessionId: Bytes16, signingSet: seq<u16>, k: map<u16, Scalar>, share: map<u16, Scalar>,
    commitments: seq<ValidatorR1Output>, responses: seq<ValidatorR3Output>,
    msg: seq<u8>, alpha: Scalar, beta: Scalar)
  {
    var request := Request(pk, sessionId, signingSet, commitments, msg, alpha, beta);
    && request.Ok?
    && AllSign(sessionId, signingSet, k, share, request.value.0)
    && (HonestResponses(sessionId, signingSet, k, share, request.value.0, responses) ==>
          Verdict(pk, sessionId, signingSet, request.value.1, responses, msg) == Ok(true))
  }

  lemma MembersSign(
      sessionId: Bytes16, s: seq<u16>, k: map<u16, Scalar>, share: map<u16, Scalar>, challenge: BlindChallenge)
    requires UsableSet(s) && Assigned(k, s) && Assigned(share, s) && challenge.c < Q
    ensures AllSign(sessionId, s, k, share, challenge)
  {
    hide Lambda, Red, Base, Compress;
  }

  /** What a session ends with, whatever shares its members hold: everyone signs, and the signature
      verifies under x * G iff the challenge cannot tell x from what the shares interpolate. */
  lemma SessionVerdict(
      sessionId: Bytes16, signingSet: seq<u16>, x: int, k: map<u16, Scalar>, share: map<u16, Scalar>,
      commitments: seq<ValidatorR1Output>, responses: seq<ValidatorR3Output>,
      msg: seq<u8>, alpha: Scalar, beta: Scalar)
    requires UsableSet(signingSet) && Assigned(k, signingSet) && Assigned(share, signingSet)
    requires HonestCommitments(sessionId, signingSet, k, commitments)
    ensures var request := Request(Compress(Base(x)), sessionId, signingSet, commitments, msg, alpha, beta);
            && request.Ok? && request.value.0.c < Q
            && AllSign(sessionId, signingSet, k, share, request.value.0)
            && (HonestResponses(sessionId, signingSet, k, share, request.value.0, responses) ==>
                  Verdict(Compress(Base(x)), sessionId, signingSet, request.value.1, responses, msg) ==
                  Ok(Red(request.value.0.c * Interpolated(signingSet, share)) == Red(request.value.0.c * x)))
  {
    hide Red, Base, SumOver, SchnorrVerify, BlindRequest, Unblind, Interpolated, PartialSignResult,
      AggregateResponsesResult, AggregateCommitmentsResult, AllSign;
    CommitmentsAggregate(sessionId, signingSet, k, commitments);
    var kSum, w := SumOver(signingSet, k), Interpolated(signingSet, share);
    var pk := Compress(Base(x));
    BlindIssuance(kSum, x, msg, alpha, beta, 0);
    var request := BlindRequest(BlindCommit(Compress(Base(kSum))), pk, msg, alpha, beta);
    MembersSign(sessionId, signingSet, k, share, request.value.0);
    if HonestResponses(sessionId, signingSet, k, share, request.value.0, responses) {
      ResponsesAggregate(sessionId, signingSet, k, share, request.value.0, responses);
      var c := request.value.0.c;
      BlindIssuance(kSum, x, msg, alpha, beta, Red(kSum + c * w));
      RedShift(kSum, c * w, c * x);
    }
  }

  lemma RedShift(k: int, x: int, y: int)
    ensures Red(k + x) == Red(k + y) <==> Red(x) == Red(y)
  {
    hide Red;
    if Red(x) == Red(y) {
      RedSum(k, k, x, y);
    }
    if Red(k + x) == Red(k + y) {
      RedSum(k + x, k + y, k, k);
    }
  }

  /** Threshold issuance: when the shares of a duplicate-free, zero-free signing set lie on a
      polynomial f with no more coefficients than the set has members, the aggregated commitment,
      the user's blinding, the members' partial signatures, their sum and the unblinding give a
      signature that verifies under f(0) * G, for all nonces, blinding factors and messages and for
      every order in which the two rounds of messages arrive. */
  lemma ThresholdIssuance(
      sessionId: Bytes16, signingSet: seq<u16>, f: seq<int>, k: map<u16, Scalar>, share: map<u16, Scalar>,
      commitments: seq<ValidatorR1Output>, responses: seq<ValidatorR3Output>,
      msg: seq<u8>, alpha: Scalar, beta: Scalar)
    requires UsableSet(signingSet) && |f| <= |signingSet| && SharesOn(f, share, signingSet)
    requires Assigned(k, signingSet)
    requires HonestCommitments(sessionId, signingSet, k, commitments)
    ensures Issues(Compress(Base(PolyAt(f, 0))), sessionId, signingSet, k, share, commitments, responses,
                   msg, alpha, beta)
  {
    hide Red, Base, PolyAt, Request, Verdict, AllSign, HonestResponses, HonestCommitments, Interpolated, Distinct;
    var x := PolyAt(f, 0);
    SessionVerdict(sessionId, signingSet, x, k, share, commitments, responses, msg, alpha, beta);
    SharesInterpolate(signingSet, f, share);
    var c := Request(Compress(Base(x)), sessionId, signingSet, commitments, msg, alpha, beta).value.0.c;
    RedProduct(c, c, Interpolated(signingSet, share), x);
  }

  lemma {:induction false} ShareError(s: seq<u16>, f: seq<int>, share: map<u16, Scalar>, j: u16, e: int)
    requires UsableSet(s) && |f| <= |s| && j in s && Assigned(share, s)
    requires forall i :: i in s && i != j ==> share[i] == Red(PolyAt(f, i))
    requires share[j] == Red(PolyAt(f, j) + e)
    ensures Red(Interpolated(s, share)) == Red(PolyAt(f, 0) + Lambda(s, j) * e)
  {
    hide Red, Lambda, PolyAt, SumOver, Distinct;
    var exact := share[j := Red(PolyAt(f, j))];
    SharesInterpolate(s, f, exact);
    SumDiffers(s, Weighted(s, share), Weighted(s, exact), j);
    var l := Lambda(s, j);
    RedRed(PolyAt(f, j) + e);
    RedRed(PolyAt(f, j));
    RedProduct(l, l, share[j], PolyAt(f, j) + e);
    RedProduct(l, l, exact[j], PolyAt(f, j));
    RedSum(l * share[j], l * (PolyAt(f, j) + e), l * exact[j], l * PolyAt(f, j));
    assert l * (PolyAt(f, j) + e) - l * PolyAt(f, j) == l * e;
    RedSum(Interpolated(s, exact), PolyAt(f, 0), l * share[j] - l * exact[j], l * e);
  }

  /** One member off the committee's polynomial, by any error: the session still runs to its end, and
      its signature verifies iff the error is zero or the blinded challenge is. */
  lemma OneDeviatingShare(
      sessionId: Bytes16, signingSet: seq<u16>, f: seq<int>, k: map<u16, Scalar>, share: map<u16, Scalar>,
      j: u16, e: int, commitments: seq<ValidatorR1Output>, responses: seq<ValidatorR3Output>,
      msg: seq<u8>, alpha: Scalar, beta: Scalar)
    requires UsableSet(signingSet) && |f| <= |signingSet| && j in signingSet
    requires Assigned(k, signingSet) && Assigned(share, signingSet)
    requires forall i :: i in signingSet && i != j ==> share[i] == Red(PolyAt(f, i))
    requires share[j] == Red(PolyAt(f, j) + e)
    requires HonestCommitments(sessionId, signingSet, k, commitments)
    ensures var pk := Compress(Base(PolyAt(f, 0)));
            var request := Request(pk, sessionId, signingSet, commitments, msg, alpha, beta);
            && request.Ok?
            && (HonestResponses(sessionId, signingSet, k, share, request.value.0, responses) ==>
                  Verdict(pk, sessionId, signingSet, request.value.1, responses, msg) ==
                  Ok(request.value.0.c == 0 || Red(e) == 0))
  {
    hide Red, Base, PolyAt, Request, Verdict, AllSign, HonestResponses, HonestCommitments, Interpolated, Distinct,
      Lambda;
    var x := PolyAt(f, 0);
    SessionVerdict(sessionId, signingSet, x, k, share, commitments, responses, msg, alpha, beta);
    ShareError(signingSet, f, share, j, e);
    LambdaNonzero(signingSet, j);
    var c := Request(Compress(Base(x)), sessionId, signingSet, commitments, msg, alpha, beta).value.0.c;
    ErrorShows(c, x, Interpolated(signingSet, share), Lambda(signingSet, j), e);
  }

  lemma ErrorShows(c: Scalar, x: int, w: int, l: Scalar, e: int)
    requires Red(w) == Red(x + l * e) && l != 0
    ensures Red(c * w) == Red(c * x) <==> c == 0 || Red(e) == 0
  {
    hide Red;
    RedProduct(c, c, w, x + l * e);
    assert c * (x + l * e) == c * x + c * l * e;
    RedShift(c * x, c * l * e, 0);
    RedScalar(c);
    RedScalar(l);
    RedScalar(0);
    if c == 0 {
      assert c * l * e == 0;
    } else if Red(e) == 0 {
      RedProduct(c * l, c * l, e, 0);
    } else {
      NonzeroProduct(c, l);
      NonzeroProduct(c * l, e);
    }
  }
}
