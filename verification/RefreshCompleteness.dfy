/** With honest parties every refresh session ends in a valid coin, whichever candidate is chosen. */
module RefreshCompleteness {
  import opened Wrappers
  import opened Lists
  import opened Field
  import opened Group
  import opened Schnorr
  import opened Polynomials
  import opened Lagrange
  import opened Threshold
  import opened Coin
  import opened Refresh
  import opened CutAndChoose

  // ---------------------------------------------------------------- honest messages

  /** The nonces that the validators drew for candidate g (counted from zero). */
  ghost function NoncesFor(ks: map<u16, seq<Scalar>>, g: nat): map<u16, Scalar> {
    map i | i in ks && g < |ks[i]| :: ks[i][g]
  }

  /** Every member of the signing set sent its kappa commitments, in any order. */
  ghost predicate HonestRound1(
    sessionId: Bytes16, kappa: u8, signingSet: seq<u16>, ks: map<u16, seq<Scalar>>,
    outputs: seq<ValidatorRefreshR1Output>)
  {
    && Permutation(Senders1(outputs), signingSet)
    && forall j :: 0 <= j < |outputs| ==>
         && outputs[j].fromIndex in ks && |ks[outputs[j].fromIndex]| == kappa
         && outputs[j] == ValidatorRefreshR1Output(sessionId, outputs[j].fromIndex,
                                                   CommitmentsTo(ks[outputs[j].fromIndex]))
  }

  /** Every member of the signing set sent its partial signature, in any order. */
  ghost predicate HonestRound5(
    sessionId: Bytes16, kappa: u8, signingSet: seq<u16>, ks: map<u16, seq<Scalar>>,
    share: map<u16, Scalar>, round2: UserRefreshR2Output, challenge: MintRefreshR3Challenge,
    outputs: seq<ValidatorRefreshR5Output>)
    requires |round2.challenges| >= kappa
  {
    && Permutation(Senders5(outputs), signingSet)
    && forall j :: 0 <= j < |outputs| ==>
         var i := outputs[j].fromIndex;
         && i in ks && |ks[i]| == kappa && i in share
         && ValidatorRefreshRound5Result(ValidatorRefreshState(sessionId, i, kappa, ks[i]), round2,
                                         challenge, share[i], signingSet) == Ok(outputs[j])
  }

  // ---------------------------------------------------------------- round 1

  lemma {:induction false} SumDecodedOfBases(rs: seq<Bytes32>, order: seq<u16>, v: map<u16, int>)
    requires |rs| == |order|
    requires forall j :: 0 <= j < |rs| ==> rs[j] == Compress(Base(At(v, order[j])))
    ensures SumDecoded(rs) == Ok(Base(SumOver(order, v)))
  {
    if order == [] {
      BaseZero();
    } else {
      var order', k := order[..|order| - 1], order[|order| - 1];
      assert order == order' + [k];
      SumDecodedOfBases(rs[..|rs| - 1], order', v);
      hide Base, PointAdd, Decompress, At;
      SumLast(order', k, v);
      DecompressCompress(Base(At(v, k)));
      BaseSum(SumOver(order', v), At(v, k));
    }
  }

  lemma {:induction false} HonestColumn(
      sessionId: Bytes16, kappa: u8, signingSet: seq<u16>, ks: map<u16, seq<Scalar>>,
      outputs: seq<ValidatorRefreshR1Output>, g: nat)
    requires HonestRound1(sessionId, kappa, signingSet, ks, outputs) && Shaped(kappa, outputs) && g < kappa
    ensures SumDecoded(Column(kappa, outputs, g)) == Ok(Base(SumOver(signingSet, NoncesFor(ks, g))))
  {
    hide Base, Compress;
    var v := NoncesFor(ks, g);
    SumDecodedOfBases(Column(kappa, outputs, g), Senders1(outputs), v);
    SumPermutation(Senders1(outputs), signingSet, v);
  }

  lemma {:induction false} HonestColumns(
      sessionId: Bytes16, kappa: u8, signingSet: seq<u16>, ks: map<u16, seq<Scalar>>,
      outputs: seq<ValidatorRefreshR1Output>, count: nat)
    requires HonestRound1(sessionId, kappa, signingSet, ks, outputs) && Shaped(kappa, outputs)
    requires count <= kappa
    ensures var r := AggregateColumns(kappa, outputs, count);
            && r.Ok?
            && forall g :: 0 <= g < count ==>
                 r.value[g] == Compress(Base(SumOver(signingSet, NoncesFor(ks, g))))
  {
    hide Base, Compress, SumDecoded, HonestRound1, NoncesFor;
    if count > 0 {
      HonestColumns(sessionId, kappa, signingSet, ks, outputs, count - 1);
      HonestColumn(sessionId, kappa, signingSet, ks, outputs, count - 1);
    }
  }

  /** Honest round-1 messages aggregate to the commitments to the sums of the nonces. */
  lemma Round1Completes(
      sessionId: Bytes16, kappa: u8, signingSet: seq<u16>, ks: map<u16, seq<Scalar>>,
      outputs: seq<ValidatorRefreshR1Output>)
    requires kappa >= 1 && Distinct(signingSet)
    requires HonestRound1(sessionId, kappa, signingSet, ks, outputs)
    ensures var r := AggregateRefreshRound1Result(sessionId, kappa, signingSet, outputs);
            && r.Ok? && r.value.sessionId == sessionId && r.value.kappa == kappa
            && |r.value.aggregatedR| == kappa
            && forall g :: 0 <= g < kappa ==>
                 r.value.aggregatedR[g] == Compress(Base(SumOver(signingSet, NoncesFor(ks, g))))
  {
    hide Base, Compress, Distinct, NoncesFor, AggregateColumns, SumOver;
    HonestColumns(sessionId, kappa, signingSet, ks, outputs, kappa);
    CheckShapeIff(sessionId, kappa, signingSet, outputs);
    PermutationDistinct(Senders1(outputs), signingSet);
    forall j | 0 <= j < |outputs|
      ensures outputs[j].fromIndex in signingSet
    {
      assert Senders1(outputs)[j] in Senders1(outputs);
    }
  }

  // ---------------------------------------------------------------- rounds 2 to 4

  lemma {:induction false} BlindCandidatesAt(
      aggregatedR: seq<Bytes32>, jointPk: Bytes32, jointPkPoint: Point, tape: RefreshTape, count: nat)
    requires count <= |aggregatedR| && tape.Sized(|tape.seeds|) && count <= |tape.seeds|
    requires forall g :: 0 <= g < count ==> Decompress(aggregatedR[g]).Ok?
    ensures var r := BlindCandidates(aggregatedR, jointPk, jointPkPoint, tape, count);
            && r.Ok?
            && forall g :: 0 <= g < count ==>
                 (r.value.0[g], r.value.1[g]) ==
                 BlindOneCandidate(Decompress(aggregatedR[g]).value, jointPkPoint, jointPk,
                                   tape.alphas[g], tape.betas[g], CandidateMessage(tape.seeds[g]))
  {
    hide Decompress, BlindOneCandidate, CandidateMessage;
    if count > 0 {
      BlindCandidatesAt(aggregatedR, jointPk, jointPkPoint, tape, count - 1);
    }
  }

  /** The user's state and message after an honest round 2, candidate by candidate. */
  ghost predicate HonestUser(
    sessionId: Bytes16, kappa: u8, mint: MintRefreshR1Output, jointPk: Bytes32,
    round2: UserRefreshR2Output, state: UserRefreshState)
  {
    && state.Sized() && state.kappa == round2.kappa == kappa && |round2.challenges| == kappa
    && state.sessionId == round2.sessionId == mint.sessionId == sessionId
    && |mint.aggregatedR| == kappa && Decompress(jointPk).Ok?
    && forall g :: 0 <= g < kappa ==>
         && Decompress(mint.aggregatedR[g]).Ok?
         && (state.rPrimes[g], round2.challenges[g]) ==
            BlindOneCandidate(Decompress(mint.aggregatedR[g]).value, Decompress(jointPk).value, jointPk,
                              state.alphas[g], state.betas[g], CandidateMessage(state.seeds[g]))
  }

  lemma Round2Completes(
      sessionId: Bytes16, kappa: u8, mint: MintRefreshR1Output, jointPk: Bytes32, melted: Coin,
      tape: RefreshTape)
    requires mint.sessionId == sessionId && mint.kappa == kappa && |mint.aggregatedR| == kappa >= 1
    requires tape.Sized(kappa) && Decompress(jointPk).Ok?
    requires forall g :: 0 <= g < kappa ==> Decompress(mint.aggregatedR[g]).Ok?
    ensures var r := UserRefreshRound2Result(sessionId, mint, jointPk, melted, tape);
            && r.Ok?
            && HonestUser(sessionId, kappa, mint, jointPk, r.value.0, r.value.1)
            && r.value.0.meltedCoinPubkey == melted.pubkeyBytes
            && r.value.0.meltedCoinSignature == melted.signature
            && r.value.1.seeds == tape.seeds
  {
    hide Decompress, BlindOneCandidate, CandidateMessage, BlindCandidates;
    BlindCandidatesAt(mint.aggregatedR, jointPk, Decompress(jointPk).value, tape, kappa);
  }

  lemma RevealsNext(state: UserRefreshState, gammaStar: u8, upTo: u8)
    requires state.Sized() && 0 < upTo <= state.kappa
    ensures var rest := Reveals(state, gammaStar, upTo - 1);
            Reveals(state, gammaStar, upTo) ==
            if upTo == gammaStar then rest else rest + [RevealOf(state, upTo)]
    ensures var rest := Others(upTo - 1, gammaStar);
            Others(upTo, gammaStar) == if upTo == gammaStar then rest else rest + [upTo]
  {
  }

  lemma {:induction false} RevealsAre(state: UserRefreshState, gammaStar: u8, upTo: u8)
    requires state.Sized() && upTo <= state.kappa
    ensures Indices(Reveals(state, gammaStar, upTo)) == Others(upTo, gammaStar)
    ensures forall j :: 0 <= j < |Reveals(state, gammaStar, upTo)| ==>
              var rc := Reveals(state, gammaStar, upTo)[j];
              && 1 <= rc.candidateIndex <= upTo && rc.candidateIndex != gammaStar
              && rc == RevealOf(state, rc.candidateIndex)
  {
    hide *;
    if upTo > 0 {
      RevealsAre(state, gammaStar, upTo - 1);
      RevealsNext(state, gammaStar, upTo);
      IndicesWith(Reveals(state, gammaStar, upTo - 1), RevealOf(state, upTo));
      RevealIndex(state, upTo);
    } else {
      NoReveals(state, gammaStar);
    }
  }

  lemma IndicesWith(rest: seq<RevealedCandidate>, rc: RevealedCandidate)
    ensures Indices(rest + [rc]) == Indices(rest) + [rc.candidateIndex]
  {
  }

  lemma RevealIndex(state: UserRefreshState, g: u8)
    requires state.Sized() && 0 < g <= state.kappa
    ensures RevealOf(state, g).candidateIndex == g
  {
  }

  lemma NoReveals(state: UserRefreshState, gammaStar: u8)
    requires state.Sized()
    ensures Reveals(state, gammaStar, 0) == [] && Indices([]) == Others(0, gammaStar)
  {
  }

  /** The honest opening passes the mint's verification for every choice of the candidate. */
  lemma HonestOpeningAccepted(
      sessionId: Bytes16, kappa: u8, mint: MintRefreshR1Output, jointPk: Bytes32,
      round2: UserRefreshR2Output, state: UserRefreshState, challenge: MintRefreshR3Challenge)
    requires HonestUser(sessionId, kappa, mint, jointPk, round2, state)
    requires challenge.sessionId == sessionId && 1 <= challenge.gammaStar <= kappa
    ensures var opening := UserRefreshR4Reveal(sessionId, Reveals(state, challenge.gammaStar, kappa));
            VerifyRevealResult(round2, mint, challenge, opening, jointPk).Ok?
  {
    hide Decompress, BlindOneCandidate, CandidateMessage, Reveals;
    var revealed := Reveals(state, challenge.gammaStar, kappa);
    RevealsAre(state, challenge.gammaStar, kappa);
    AcceptedIff(round2, mint, challenge, UserRefreshR4Reveal(sessionId, revealed), jointPk);
  }

  // ---------------------------------------------------------------- rounds 5 and 6

  lemma {:induction false} SumPartialsValue(
      sessionId: Bytes16, signingSet: seq<u16>, outputs: seq<ValidatorRefreshR5Output>,
      order: seq<u16>, v: map<u16, int>)
    requires SumPartials(sessionId, signingSet, outputs).Ok?
    requires |order| == |outputs|
    requires forall j :: 0 <= j < |outputs| ==> outputs[j].sPartial == Red(At(v, order[j]))
    ensures SumPartials(sessionId, signingSet, outputs) == Ok(Red(SumOver(order, v)))
  {
    if order == [] {
      RedScalar(0);
    } else {
      var order', k := order[..|order| - 1], order[|order| - 1];
      assert order == order' + [k];
      SumPartialsValue(sessionId, signingSet, outputs[..|outputs| - 1], order', v);
      hide Red, At;
      SumLast(order', k, v);
      RedOuter(SumOver(order', v), At(v, k));
    }
  }

  lemma HonestPartials(
      sessionId: Bytes16, kappa: u8, s: seq<u16>, ks: map<u16, seq<Scalar>>, share: map<u16, Scalar>,
      round2: UserRefreshR2Output, challenge: MintRefreshR3Challenge,
      outputs: seq<ValidatorRefreshR5Output>, c: Scalar, partial: map<u16, Scalar>)
    requires |round2.challenges| >= kappa && 1 <= challenge.gammaStar <= kappa && UsableSet(s)
    requires HonestRound5(sessionId, kappa, s, ks, share, round2, challenge, outputs)
    requires c == round2.challenges[challenge.gammaStar - 1]
    requires forall i :: i in s ==>
               && i in ks && |ks[i]| == kappa && i in share && i in partial
               && partial[i] == PartialScalar(ks[i][challenge.gammaStar - 1], c, Lambda(s, i), share[i])
    ensures Permutation(Senders5(outputs), s) && |outputs| == |s|
    ensures SumPartials(sessionId, s, outputs).Ok?
    ensures forall j :: 0 <= j < |outputs| ==> outputs[j].sPartial == Red(At(partial, Senders5(outputs)[j]))
  {
    hide Lambda, Red, Distinct;
    PermutationDistinct(Senders5(outputs), s);
    forall j | 0 <= j < |outputs|
      ensures outputs[j].sessionId == sessionId && outputs[j].fromIndex in s && outputs[j].sPartial < Q
      ensures outputs[j].sPartial == Red(At(partial, Senders5(outputs)[j]))
    {
      var i := outputs[j].fromIndex;
      assert Senders5(outputs)[j] in Senders5(outputs);
      RedScalar(partial[i]);
    }
    SumPartialsIff(sessionId, s, outputs);
  }

  /** Honest partial signatures add up to the nonce sum plus the challenge times f(0). */
  lemma {:induction false} Round5Completes(
      sessionId: Bytes16, kappa: u8, s: seq<u16>, f: seq<int>, ks: map<u16, seq<Scalar>>,
      share: map<u16, Scalar>, round2: UserRefreshR2Output, challenge: MintRefreshR3Challenge,
      outputs: seq<ValidatorRefreshR5Output>)
    requires |round2.challenges| >= kappa && 1 <= challenge.gammaStar <= kappa
    requires UsableSet(s) && |f| <= |s| && SharesOn(f, share, s)
    requires forall i :: i in s ==> i in ks && |ks[i]| == kappa
    requires HonestRound5(sessionId, kappa, s, ks, share, round2, challenge, outputs)
    requires round2.challenges[challenge.gammaStar - 1] < Q
    ensures AggregateRefreshRound5Result(sessionId, s, outputs) ==
            Ok(MintRefreshR5Response(sessionId,
                 Red(SumOver(s, NoncesFor(ks, challenge.gammaStar - 1)) +
                     round2.challenges[challenge.gammaStar - 1] * PolyAt(f, 0))))
  {
    hide Lambda, Red, PartialScalar, PolyAt, HonestRound5, SumPartials, Distinct, SumOver;
    var g := challenge.gammaStar - 1;
    var c: Scalar := round2.challenges[g];
    var k := NoncesFor(ks, g);
    var partial := map i | i in s :: PartialScalar(ks[i][g], c, Lambda(s, i), share[i]);
    HonestPartials(sessionId, kappa, s, ks, share, round2, challenge, outputs, c, partial);
    SumPartialsValue(sessionId, s, outputs, Senders5(outputs), partial);
    ThresholdSum(s, Senders5(outputs), f, k, share, c, partial);
  }

  lemma CandidateIsBlindRequest(
      k: int, x: int, alpha: Scalar, beta: Scalar, msg: seq<u8>, s: Scalar)
    ensures var pk := Compress(Base(x));
            var candidate := BlindOneCandidate(Base(k), Base(x), pk, alpha, beta, msg);
            && candidate.1 < Q
            && SchnorrVerify(pk, msg, Signature(candidate.0, Add(s, alpha))) ==
               Ok(s == Red(k + candidate.1 * x))
  {
    hide Base, PointAdd, PointMul, Red, Add, SchnorrVerify, Compress;
    BlindIssuance(k, x, msg, alpha, beta, s);
    DecompressCompress(Base(k));
    DecompressCompress(Base(x));
  }

  /** Round 6 never rejects an honest response: it yields a coin whose secret comes from the chosen
      seed, that satisfies the coin invariant and verifies under the joint key. */
  lemma Round6Completes(
      sessionId: Bytes16, kappa: u8, mint: MintRefreshR1Output, x: int, k: int,
      round2: UserRefreshR2Output, state: UserRefreshState, challenge: MintRefreshR3Challenge)
    requires HonestUser(sessionId, kappa, mint, Compress(Base(x)), round2, state)
    requires challenge.sessionId == sessionId && 1 <= challenge.gammaStar <= kappa
    requires mint.aggregatedR[challenge.gammaStar - 1] == Compress(Base(k))
    ensures var c := round2.challenges[challenge.gammaStar - 1];
            var response := MintRefreshR5Response(sessionId, Red(k + c * x));
            var coin := UserRefreshRound6(state, challenge, response, Compress(Base(x)));
            && c < Q && coin.Ok?
            && coin.value.secret == DERIVE_COIN_SECRET(state.seeds[challenge.gammaStar - 1])
            && coin.value.Valid() && coin.value.Verify(Compress(Base(x))) == Ok(true)
  {
    hide Base, PointAdd, PointMul, Red, Add, SchnorrVerify, Compress, BlindOneCandidate;
    var g := challenge.gammaStar - 1;
    var s := Red(k + round2.challenges[g] * x);
    DecompressCompress(Base(k));
    DecompressCompress(Base(x));
    CandidateIsBlindRequest(k, x, state.alphas[g], state.betas[g], CandidateMessage(state.seeds[g]), s);
  }

  // ---------------------------------------------------------------- the whole session

  /** The state after rounds 1 and 2 of an honest session over the listed signing set. */
  ghost predicate HonestSession(
    sessionId: Bytes16, kappa: u8, s: seq<u16>, f: seq<int>, ks: map<u16, seq<Scalar>>,
    share: map<u16, Scalar>, mint: MintRefreshR1Output, round2: UserRefreshR2Output,
    state: UserRefreshState)
  {
    && kappa >= 1 && UsableSet(s) && |f| <= |s| && SharesOn(f, share, s)
    && (forall i :: i in s ==> i in ks && |ks[i]| == kappa)
    && HonestUser(sessionId, kappa, mint, Compress(Base(PolyAt(f, 0))), round2, state)
    && forall g :: 0 <= g < kappa ==>
         mint.aggregatedR[g] == Compress(Base(SumOver(s, NoncesFor(ks, g))))
  }

  /** Rounds 1 and 2 succeed for all nonces, seeds and blinding factors and any message order. */
  lemma {:induction false} SessionStarts(
      sessionId: Bytes16, kappa: u8, s: seq<u16>, f: seq<int>, ks: map<u16, seq<Scalar>>,
      share: map<u16, Scalar>, outputs: seq<ValidatorRefreshR1Output>, melted: Coin, tape: RefreshTape)
    requires kappa >= 1 && UsableSet(s) && |f| <= |s| && SharesOn(f, share, s)
    requires forall i :: i in s ==> i in ks && |ks[i]| == kappa
    requires HonestRound1(sessionId, kappa, s, ks, outputs) && tape.Sized(kappa)
    ensures var mint := AggregateRefreshRound1Result(sessionId, kappa, s, outputs);
            && mint.Ok? && |mint.value.aggregatedR| == mint.value.kappa == kappa
            && var round2 := UserRefreshRound2Result(sessionId, mint.value, Compress(Base(PolyAt(f, 0))), melted, tape);
            && round2.Ok?
            && HonestSession(sessionId, kappa, s, f, ks, share, mint.value, round2.value.0, round2.value.1)
  {
    hide Base, Compress, PolyAt, SumOver, NoncesFor, UserRefreshRound2Result,
      AggregateRefreshRound1Result, HonestUser, Distinct;
    Round1Completes(sessionId, kappa, s, ks, outputs);
    var mint := AggregateRefreshRound1Result(sessionId, kappa, s, outputs).value;
    DecompressCompress(Base(PolyAt(f, 0)));
    forall g | 0 <= g < kappa
      ensures Decompress(mint.aggregatedR[g]).Ok?
    {
      DecompressCompress(Base(SumOver(s, NoncesFor(ks, g))));
    }
    Round2Completes(sessionId, kappa, mint, Compress(Base(PolyAt(f, 0))), melted, tape);
  }

  lemma SessionMeans(
      sessionId: Bytes16, kappa: u8, s: seq<u16>, f: seq<int>, ks: map<u16, seq<Scalar>>,
      share: map<u16, Scalar>, mint: MintRefreshR1Output, round2: UserRefreshR2Output,
      state: UserRefreshState, g: nat)
    requires HonestSession(sessionId, kappa, s, f, ks, share, mint, round2, state) && g < kappa
    ensures UsableSet(s) && |f| <= |s| && SharesOn(f, share, s)
    ensures forall i :: i in s ==> i in ks && |ks[i]| == kappa
    ensures HonestUser(sessionId, kappa, mint, Compress(Base(PolyAt(f, 0))), round2, state)
    ensures state.Sized() && round2.kappa == state.kappa == |round2.challenges| == |mint.aggregatedR| == kappa
    ensures mint.aggregatedR[g] == Compress(Base(SumOver(s, NoncesFor(ks, g))))
  {
  }

  /** No member of the set is refused in round 5. */
  ghost predicate AllRefresh(
    sessionId: Bytes16, kappa: u8, s: seq<u16>, ks: map<u16, seq<Scalar>>, share: map<u16, Scalar>,
    round2: UserRefreshR2Output, challenge: MintRefreshR3Challenge)
    requires |round2.challenges| >= kappa
  {
    forall i :: i in s ==>
      && i in ks && |ks[i]| == kappa && i in share
      && ValidatorRefreshRound5Result(ValidatorRefreshState(sessionId, i, kappa, ks[i]), round2, challenge,
                                      share[i], s).Ok?
  }

  lemma MembersRefresh(
      sessionId: Bytes16, kappa: u8, s: seq<u16>, ks: map<u16, seq<Scalar>>, share: map<u16, Scalar>,
      round2: UserRefreshR2Output, challenge: MintRefreshR3Challenge)
    requires UsableSet(s) && Assigned(share, s) && forall i :: i in s ==> i in ks && |ks[i]| == kappa
    requires |round2.challenges| == kappa && round2.sessionId == challenge.sessionId == sessionId
    requires 1 <= challenge.gammaStar <= kappa && round2.challenges[challenge.gammaStar - 1] < Q
    ensures AllRefresh(sessionId, kappa, s, ks, share, round2, challenge)
  {
    hide Lambda, Red;
  }

  lemma SharesAssigned(f: seq<int>, share: map<u16, Scalar>, s: seq<u16>)
    requires SharesOn(f, share, s)
    ensures Assigned(share, s)
  {
    hide PolyAt, Red;
  }

  lemma HonestUserIds(
      sessionId: Bytes16, kappa: u8, mint: MintRefreshR1Output, jointPk: Bytes32,
      round2: UserRefreshR2Output, state: UserRefreshState)
    requires HonestUser(sessionId, kappa, mint, jointPk, round2, state)
    ensures round2.sessionId == sessionId
  {
  }

  /** Refresh completeness: for every kappa and every choice in 1..kappa the honest opening is
      accepted, every member of the signing set answers, and when their answers arrive, in any order,
      the user ends with a coin derived from the chosen seed that is valid and verifies under the
      joint key. */
  lemma RefreshCompletes(
      sessionId: Bytes16, kappa: u8, s: seq<u16>, f: seq<int>, ks: map<u16, seq<Scalar>>,
      share: map<u16, Scalar>, mint: MintRefreshR1Output, round2: UserRefreshR2Output,
      state: UserRefreshState, challenge: MintRefreshR3Challenge, outputs: seq<ValidatorRefreshR5Output>)
    requires HonestSession(sessionId, kappa, s, f, ks, share, mint, round2, state)
    requires challenge.sessionId == sessionId && 1 <= challenge.gammaStar <= kappa
    requires state.Sized() && round2.kappa == state.kappa == |round2.challenges| == |mint.aggregatedR| == kappa
    ensures var opening := UserRefreshR4Reveal(sessionId, Reveals(state, challenge.gammaStar, kappa));
            VerifyRevealResult(round2, mint, challenge, opening, Compress(Base(PolyAt(f, 0)))).Ok?
    ensures AllRefresh(sessionId, kappa, s, ks, share, round2, challenge)
    ensures HonestRound5(sessionId, kappa, s, ks, share, round2, challenge, outputs) ==>
              var response := AggregateRefreshRound5Result(sessionId, s, outputs);
              && response.Ok?
              && var coin := UserRefreshRound6(state, challenge, response.value, Compress(Base(PolyAt(f, 0))));
              && coin.Ok?
              && coin.value.secret == DERIVE_COIN_SECRET(state.seeds[challenge.gammaStar - 1])
              && coin.value.Valid()
              && coin.value.Verify(Compress(Base(PolyAt(f, 0)))) == Ok(true)
  {
    hide *;
    var g := challenge.gammaStar - 1;
    var pk := Compress(Base(PolyAt(f, 0)));
    SessionMeans(sessionId, kappa, s, f, ks, share, mint, round2, state, g);
    HonestOpeningAccepted(sessionId, kappa, mint, pk, round2, state, challenge);
    Round6Completes(sessionId, kappa, mint, PolyAt(f, 0), SumOver(s, NoncesFor(ks, g)), round2, state, challenge);
    SharesAssigned(f, share, s);
    HonestUserIds(sessionId, kappa, mint, pk, round2, state);
    MembersRefresh(sessionId, kappa, s, ks, share, round2, challenge);
    if HonestRound5(sessionId, kappa, s, ks, share, round2, challenge, outputs) {
      Round5Completes(sessionId, kappa, s, f, ks, share, round2, challenge, outputs);
    }
  }
}
