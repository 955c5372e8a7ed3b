/** What the checks of a refresh session accept, and what an accepted opening proves. */
module CutAndChoose {
  import opened Wrappers
  import opened Lists
  import opened Field
  import opened Group
  import opened Schnorr
  import opened Refresh
  import opened Lagrange
  import Coin

  // ---------------------------------------------------------------- extraction

  /** The triple opens slot g of the user's round-2 message: it recomputes the submitted challenge. */
  ghost predicate Opens(
    challenges: seq<Bytes32>, aggregatedR: seq<Bytes32>, jointPk: Bytes32, jointPkPoint: Point,
    g: u8, seed: Bytes32, alpha: Bytes32, beta: Bytes32)
    requires 1 <= g <= |challenges| && g <= |aggregatedR|
  {
    && alpha < Q && beta < Q && Decompress(aggregatedR[g - 1]).Ok?
    && BlindOneCandidate(Decompress(aggregatedR[g - 1]).value, jointPkPoint, jointPk, alpha, beta,
                         CandidateMessage(seed)).1 == challenges[g - 1]
  }

  /** The opened triple names a slot other than the chosen one and opens it. */
  ghost predicate OpensItsSlot(
    kappa: u8, challenges: seq<Bytes32>, aggregatedR: seq<Bytes32>, gammaStar: u8,
    jointPk: Bytes32, jointPkPoint: Point, rc: RevealedCandidate)
    requires |challenges| >= kappa && |aggregatedR| >= kappa
  {
    && 1 <= rc.candidateIndex <= kappa && rc.candidateIndex != gammaStar
    && Opens(challenges, aggregatedR, jointPk, jointPkPoint, rc.candidateIndex, rc.seed, rc.alpha, rc.beta)
  }

  lemma {:induction false} CheckAllOpenedIff(
      kappa: u8, challenges: seq<Bytes32>, aggregatedR: seq<Bytes32>, gammaStar: u8,
      jointPk: Bytes32, jointPkPoint: Point, revealed: seq<RevealedCandidate>)
    requires |challenges| >= kappa && |aggregatedR| >= kappa
    ensures CheckAllOpened(kappa, challenges, aggregatedR, gammaStar, jointPk, jointPkPoint, revealed).Ok? <==>
            && Distinct(Indices(revealed))
            && forall j :: 0 <= j < |revealed| ==>
                 OpensItsSlot(kappa, challenges, aggregatedR, gammaStar, jointPk, jointPkPoint, revealed[j])
  {
    hide BlindOneCandidate, Decompress, CandidateMessage;
    if revealed != [] {
      var rest, rc := revealed[..|revealed| - 1], revealed[|revealed| - 1];
      CheckAllOpenedIff(kappa, challenges, aggregatedR, gammaStar, jointPk, jointPkPoint, rest);
      assert Indices(revealed) == Indices(rest) + [rc.candidateIndex];
      DistinctLast(Indices(rest), rc.candidateIndex);
      assert forall j :: 0 <= j < |rest| ==> rest[j] == revealed[j];
    }
  }

  /** The slots 1..n without `chosen`. */
  ghost function Others(n: u8, chosen: u8): seq<u8> {
    if n == 0 then [] else Others(n - 1, chosen) + (if n == chosen then [] else [n])
  }

  lemma {:induction false} OthersMembers(n: u8, chosen: u8)
    ensures forall g: u8 :: g in Others(n, chosen) <==> 1 <= g <= n && g != chosen
    ensures |Others(n, chosen)| == if 1 <= chosen <= n then n - 1 else n
  {
    if n > 0 {
      OthersMembers(n - 1, chosen);
    }
  }

  lemma {:induction false} OthersElements(n: u8, chosen: u8)
    ensures forall g: u8 :: g in Others(n, chosen) <==> 1 <= g <= n && g != chosen
    ensures |Others(n, chosen)| == if 1 <= chosen <= n then n - 1 else n
    ensures Distinct(Others(n, chosen))
  {
    hide *;
    OthersMembers(n, chosen);
    OthersNext(n, chosen);
    if n == 0 {
      DistinctEmpty(Others(n, chosen));
    } else {
      OthersElements(n - 1, chosen);
      DistinctLast(Others(n - 1, chosen), n);
    }
  }

  lemma OthersNext(n: u8, chosen: u8)
    ensures n == 0 ==> Others(n, chosen) == []
    ensures n > 0 ==> Others(n, chosen) == if n == chosen then Others(n - 1, chosen) else Others(n - 1, chosen) + [n]
  {
  }

  /** An opening is accepted iff the session ids agree, the joint key decodes, the opened indices
      are exactly 1..kappa without the chosen one, each once, and every triple opens its slot. */
  lemma AcceptedIff(
      round2: UserRefreshR2Output, mint: MintRefreshR1Output, challenge: MintRefreshR3Challenge,
      opening: UserRefreshR4Reveal, jointPk: Bytes32)
    requires |round2.challenges| >= round2.kappa && |mint.aggregatedR| >= round2.kappa >= 1
    requires 1 <= challenge.gammaStar <= round2.kappa
    ensures VerifyRevealResult(round2, mint, challenge, opening, jointPk).Ok? <==>
            && round2.sessionId == opening.sessionId == mint.sessionId == challenge.sessionId
            && Decompress(jointPk).Ok?
            && Permutation(Indices(opening.revealed), Others(round2.kappa, challenge.gammaStar))
            && forall j :: 0 <= j < |opening.revealed| ==>
                 OpensItsSlot(round2.kappa, round2.challenges, mint.aggregatedR, challenge.gammaStar,
                              jointPk, Decompress(jointPk).value, opening.revealed[j])
  {
    hide BlindOneCandidate, Decompress, CandidateMessage, Opens;
    var kappa, gamma, revealed := round2.kappa, challenge.gammaStar, opening.revealed;
    var indices, others := Indices(revealed), Others(kappa, gamma);
    OthersElements(kappa, gamma);
    if Decompress(jointPk).Ok? {
      var point := Decompress(jointPk).value;
      CheckAllOpenedIff(kappa, round2.challenges, mint.aggregatedR, gamma, jointPk, point, revealed);
      if Permutation(indices, others) {
        PermutationDistinct(indices, others);
      }
      if |revealed| == kappa - 1 && Distinct(indices)
         && forall j :: 0 <= j < |revealed| ==>
              OpensItsSlot(kappa, round2.challenges, mint.aggregatedR, gamma, jointPk, point, revealed[j]) {
        forall g | g in indices
          ensures g in others
        {
          var j :| 0 <= j < |indices| && indices[j] == g;
          assert revealed[j].candidateIndex == g;
        }
        Pigeonhole(indices, others);
      }
    }
  }

  /** Some triple opens slot g. */
  ghost predicate Openable(round2: UserRefreshR2Output, mint: MintRefreshR1Output, jointPk: Bytes32, g: u8)
    requires |round2.challenges| >= round2.kappa && |mint.aggregatedR| >= round2.kappa
    requires 1 <= g <= round2.kappa
  {
    && Decompress(jointPk).Ok?
    && exists seed: Bytes32, alpha: Bytes32, beta: Bytes32 ::
         Opens(round2.challenges, mint.aggregatedR, jointPk, Decompress(jointPk).value, g, seed, alpha, beta)
  }

  /** Extraction: an accepted opening contains an opening of every slot but the chosen one. */
  lemma AcceptedOpensTheOthers(
      round2: UserRefreshR2Output, mint: MintRefreshR1Output, challenge: MintRefreshR3Challenge,
      opening: UserRefreshR4Reveal, jointPk: Bytes32, g: u8)
    requires |round2.challenges| >= round2.kappa && |mint.aggregatedR| >= round2.kappa >= 1
    requires 1 <= challenge.gammaStar <= round2.kappa
    requires VerifyRevealResult(round2, mint, challenge, opening, jointPk).Ok?
    requires 1 <= g <= round2.kappa && g != challenge.gammaStar
    ensures Openable(round2, mint, jointPk, g)
    ensures exists j :: 0 <= j < |opening.revealed| && opening.revealed[j].candidateIndex == g
  {
    hide Opens, Decompress;
    AcceptedIff(round2, mint, challenge, opening, jointPk);
    var indices, others := Indices(opening.revealed), Others(round2.kappa, challenge.gammaStar);
    OthersElements(round2.kappa, challenge.gammaStar);
    PermutationDistinct(indices, others);
    assert g in indices;
    var j :| 0 <= j < |indices| && indices[j] == g;
    var rc := opening.revealed[j];
    assert Opens(round2.challenges, mint.aggregatedR, jointPk, Decompress(jointPk).value, g,
                 rc.seed, rc.alpha, rc.beta);
  }

  /** Two openings of one round-2 message accepted under different choices open all slots. */
  lemma TwoChoicesOpenEverySlot(
      round2: UserRefreshR2Output, mint: MintRefreshR1Output, jointPk: Bytes32,
      challenge1: MintRefreshR3Challenge, opening1: UserRefreshR4Reveal,
      challenge2: MintRefreshR3Challenge, opening2: UserRefreshR4Reveal, g: u8)
    requires |round2.challenges| >= round2.kappa && |mint.aggregatedR| >= round2.kappa >= 1
    requires 1 <= challenge1.gammaStar <= round2.kappa && 1 <= challenge2.gammaStar <= round2.kappa
    requires challenge1.gammaStar != challenge2.gammaStar
    requires VerifyRevealResult(round2, mint, challenge1, opening1, jointPk).Ok?
    requires VerifyRevealResult(round2, mint, challenge2, opening2, jointPk).Ok?
    requires 1 <= g <= round2.kappa
    ensures Openable(round2, mint, jointPk, g)
  {
    hide *;
    if g != challenge1.gammaStar {
      AcceptedOpensTheOthers(round2, mint, challenge1, opening1, jointPk, g);
    } else {
      AcceptedOpensTheOthers(round2, mint, challenge2, opening2, jointPk, g);
    }
  }

  /** A message with a slot that nothing opens is accepted for at most one choice: that slot. */
  lemma UnopenableSlotIsTheChoice(
      round2: UserRefreshR2Output, mint: MintRefreshR1Output, challenge: MintRefreshR3Challenge,
      opening: UserRefreshR4Reveal, jointPk: Bytes32, g: u8)
    requires |round2.challenges| >= round2.kappa && |mint.aggregatedR| >= round2.kappa >= 1
    requires 1 <= challenge.gammaStar <= round2.kappa && 1 <= g <= round2.kappa
    requires !Openable(round2, mint, jointPk, g)
    requires VerifyRevealResult(round2, mint, challenge, opening, jointPk).Ok?
    ensures challenge.gammaStar == g
  {
    hide *;
    if g != challenge.gammaStar {
      AcceptedOpensTheOthers(round2, mint, challenge, opening, jointPk, g);
    }
  }

  // ---------------------------------------------------------------- acceptance by the aggregators

  lemma {:induction false} SumDecodedIff(rs: seq<Bytes32>)
    ensures SumDecoded(rs).Ok? <==> forall j :: 0 <= j < |rs| ==> Decompress(rs[j]).Ok?
  {
    hide Decompress, PointAdd;
    if rs != [] {
      SumDecodedIff(rs[..|rs| - 1]);
    }
  }

  lemma {:induction false} AggregateColumnsIff(
      kappa: u8, outputs: seq<ValidatorRefreshR1Output>, count: nat)
    requires Shaped(kappa, outputs) && count <= kappa
    ensures AggregateColumns(kappa, outputs, count).Ok? <==>
            forall j, g :: 0 <= j < |outputs| && 0 <= g < count ==>
              Decompress(outputs[j].rPerCandidate[g]).Ok?
  {
    hide Decompress, SumDecoded;
    if count > 0 {
      AggregateColumnsIff(kappa, outputs, count - 1);
      var column := Column(kappa, outputs, count - 1);
      SumDecodedIff(column);
      assert forall j :: 0 <= j < |outputs| ==> column[j] == outputs[j].rPerCandidate[count - 1];
      if AggregateColumns(kappa, outputs, count).Ok? {
        forall j, g | 0 <= j < |outputs| && 0 <= g < count
          ensures Decompress(outputs[j].rPerCandidate[g]).Ok?
        {
          assert g < count - 1 || Decompress(column[j]).Ok?;
        }
      }
    }
  }

  lemma SendersIn(senders: seq<u16>, signingSet: seq<u16>)
    ensures && |senders| == |signingSet| && Distinct(senders)
            && (forall j :: 0 <= j < |senders| ==> senders[j] in signingSet)
       <==> Distinct(signingSet) && Permutation(senders, signingSet)
  {
    if |senders| == |signingSet| && Distinct(senders)
       && forall j :: 0 <= j < |senders| ==> senders[j] in signingSet {
      Pigeonhole(senders, signingSet);
    }
    if Permutation(senders, signingSet) {
      PermutationDistinct(senders, signingSet);
    }
  }

  /** Round-1 messages are accepted iff there is a positive number of candidates, the senders are a
      permutation of a duplicate-free signing set, and every message has this session's id and one
      decodable commitment per candidate. */
  lemma Round1AcceptedIff(
      sessionId: Bytes16, kappa: u8, signingSet: seq<u16>, outputs: seq<ValidatorRefreshR1Output>)
    ensures AggregateRefreshRound1Result(sessionId, kappa, signingSet, outputs).Ok? <==>
            && kappa > 0 && Distinct(signingSet) && Permutation(Senders1(outputs), signingSet)
            && (forall j :: 0 <= j < |outputs| ==>
                  outputs[j].sessionId == sessionId && |outputs[j].rPerCandidate| == kappa)
            && (forall j, g :: 0 <= j < |outputs| && 0 <= g < |outputs[j].rPerCandidate| ==>
                  Decompress(outputs[j].rPerCandidate[g]).Ok?)
  {
    hide Decompress, AggregateColumns, Distinct, Permutation;
    CheckShapeIff(sessionId, kappa, signingSet, outputs);
    SendersIn(Senders1(outputs), signingSet);
    assert forall j :: 0 <= j < |outputs| ==> Senders1(outputs)[j] == outputs[j].fromIndex;
    if forall j :: 0 <= j < |outputs| ==> |outputs[j].rPerCandidate| == kappa {
      AggregateColumnsIff(kappa, outputs, kappa);
    }
    if Distinct(signingSet) && Permutation(Senders1(outputs), signingSet) {
      assert |Senders1(outputs)| == |signingSet|;
      assert Distinct(Senders1(outputs));
    }
  }

  lemma {:induction false} SumPartialsIff(
      sessionId: Bytes16, signingSet: seq<u16>, outputs: seq<ValidatorRefreshR5Output>)
    ensures SumPartials(sessionId, signingSet, outputs).Ok? <==>
            && Distinct(Senders5(outputs))
            && forall j :: 0 <= j < |outputs| ==>
                 && outputs[j].sessionId == sessionId && outputs[j].fromIndex in signingSet
                 && outputs[j].sPartial < Q
  {
    hide Distinct, Add;
    if outputs == [] {
      DistinctEmpty(Senders5(outputs));
    } else {
      var rest, out := outputs[..|outputs| - 1], outputs[|outputs| - 1];
      SumPartialsIff(sessionId, signingSet, rest);
      assert forall j :: 0 <= j < |rest| ==> rest[j] == outputs[j];
      DistinctLast(Senders5(rest), out.fromIndex);
      assert Senders5(outputs) == Senders5(rest) + [out.fromIndex];
    }
  }

  /** The same for the partial signatures of round 5. */
  lemma Round5AcceptedIff(
      sessionId: Bytes16, signingSet: seq<u16>, outputs: seq<ValidatorRefreshR5Output>)
    ensures AggregateRefreshRound5Result(sessionId, signingSet, outputs).Ok? <==>
            && Distinct(signingSet) && Permutation(Senders5(outputs), signingSet)
            && forall j :: 0 <= j < |outputs| ==> outputs[j].sessionId == sessionId && outputs[j].sPartial < Q
  {
    hide Distinct, Permutation;
    SumPartialsIff(sessionId, signingSet, outputs);
    SendersIn(Senders5(outputs), signingSet);
    assert forall j :: 0 <= j < |outputs| ==> Senders5(outputs)[j] == outputs[j].fromIndex;
  }

  // ---------------------------------------------------------------- what is summed, and what is refused

  /** One candidate's points; the identity stands for one that does not decode. */
  function PointsOf(rs: seq<Bytes32>): (ps: seq<int>) {
    seq(|rs|, j requires 0 <= j < |rs| => var p := Decompress(rs[j]); if p.Ok? then p.value else IDENTITY)
  }

  function PartialsOf(outputs: seq<ValidatorRefreshR5Output>): (ss: seq<int>) {
    seq(|outputs|, j requires 0 <= j < |outputs| => outputs[j].sPartial)
  }

  lemma {:induction false} SumDecodedTotal(rs: seq<Bytes32>)
    requires SumDecoded(rs).Ok?
    ensures SumDecoded(rs).value == Total(PointsOf(rs)) % (8 * Q)
  {
    hide Decompress;
    if rs == [] {
      TotalNext([], 0);
      assert PointsOf(rs) == [];
      EmptySum();
    } else {
      var rest, last := rs[..|rs| - 1], rs[|rs| - 1];
      SumDecodedTotal(rest);
      var p: Point := Decompress(last).value;
      assert PointsOf(rs) == PointsOf(rest) + [p];
      TotalNext(PointsOf(rest), p);
      SumNext(SumDecoded(rest).value, Total(PointsOf(rest)), p);
    }
  }

  lemma {:induction false} ColumnsAreSums(kappa: u8, outputs: seq<ValidatorRefreshR1Output>, count: nat, g: nat)
    requires Shaped(kappa, outputs) && g < count <= kappa && AggregateColumns(kappa, outputs, count).Ok?
    ensures Decompress(AggregateColumns(kappa, outputs, count).value[g]) ==
            Ok(Total(PointsOf(Column(kappa, outputs, g))) % (8 * Q))
  {
    hide Decompress, Compress, SumDecoded, PointsOf, Total, Column;
    if g < count - 1 {
      ColumnsAreSums(kappa, outputs, count - 1, g);
    } else {
      SumDecodedTotal(Column(kappa, outputs, g));
      DecompressCompress(SumDecoded(Column(kappa, outputs, g)).value);
    }
  }

  lemma {:induction false} SumPartialsTotal(
      sessionId: Bytes16, signingSet: seq<u16>, outputs: seq<ValidatorRefreshR5Output>)
    requires SumPartials(sessionId, signingSet, outputs).Ok?
    ensures SumPartials(sessionId, signingSet, outputs).value == Red(Total(PartialsOf(outputs)))
  {
    hide Red;
    if outputs == [] {
      TotalNext([], 0);
      assert PartialsOf(outputs) == [];
      RedScalar(0);
    } else {
      var rest, out := outputs[..|outputs| - 1], outputs[|outputs| - 1];
      SumPartialsTotal(sessionId, signingSet, rest);
      assert PartialsOf(outputs) == PartialsOf(rest) + [out.sPartial];
      TotalNext(PartialsOf(rest), out.sPartial);
      RedInner(Total(PartialsOf(rest)), out.sPartial);
    }
  }

  lemma AggregatedShape(
      sessionId: Bytes16, kappa: u8, signingSet: seq<u16>, outputs: seq<ValidatorRefreshR1Output>)
    requires AggregateRefreshRound1Result(sessionId, kappa, signingSet, outputs).Ok?
    ensures var mint := AggregateRefreshRound1Result(sessionId, kappa, signingSet, outputs).value;
            && Shaped(kappa, outputs) && mint.sessionId == sessionId && mint.kappa == kappa == |mint.aggregatedR|
            && AggregateColumns(kappa, outputs, kappa) == Ok(mint.aggregatedR)
  {
    hide AggregateColumns, Distinct;
    CheckShapeIff(sessionId, kappa, signingSet, outputs);
  }

  /** Whatever was sent, accepted commitments are added candidate by candidate in the curve's group and accepted
      partial signatures modulo Q. */
  lemma AggregatesAreSums(
      sessionId: Bytes16, kappa: u8, signingSet: seq<u16>, first: seq<ValidatorRefreshR1Output>,
      fifth: seq<ValidatorRefreshR5Output>, g: nat)
    ensures var r := AggregateRefreshRound1Result(sessionId, kappa, signingSet, first);
            r.Ok? ==>
              && r.value.sessionId == sessionId && r.value.kappa == kappa == |r.value.aggregatedR|
              && Shaped(kappa, first)
              && (g < kappa ==> Decompress(r.value.aggregatedR[g]) ==
                                Ok(Total(PointsOf(Column(kappa, first, g))) % (8 * Q)))
    ensures var r := AggregateRefreshRound5Result(sessionId, signingSet, fifth);
            r.Ok? ==> r.value == MintRefreshR5Response(sessionId, Red(Total(PartialsOf(fifth))))
  {
    hide AggregateColumns, AggregateRefreshRound1Result, SumPartials, Total, Red, PointsOf, PartialsOf, Decompress;
    if AggregateRefreshRound1Result(sessionId, kappa, signingSet, first).Ok? {
      AggregatedShape(sessionId, kappa, signingSet, first);
      if g < kappa {
        ColumnsAreSums(kappa, first, kappa, g);
      }
    }
    if AggregateRefreshRound5Result(sessionId, signingSet, fifth).Ok? {
      SumPartialsTotal(sessionId, signingSet, fifth);
    }
  }

  /** The error is that of the first bad message: a foreign session before the wrong number of candidates before a
      foreign sender; senders that repeat are only noticed after all that. */
  lemma Round1Refused(
      sessionId: Bytes16, kappa: u8, signingSet: seq<u16>, outputs: seq<ValidatorRefreshR1Output>, j: nat)
    requires |outputs| == |signingSet| && kappa > 0
    requires j < |outputs| && CheckShape(sessionId, kappa, signingSet, outputs[..j]).Ok?
    ensures var r, out := AggregateRefreshRound1Result(sessionId, kappa, signingSet, outputs), outputs[j];
            if out.sessionId != sessionId then r == Err(SessionIdMismatch)
            else if |out.rPerCandidate| != kappa then r == Err(InvalidState)
            else out.fromIndex !in signingSet ==> r == Err(UnknownParticipant)
  {
    CheckShapeStops(sessionId, kappa, signingSet, outputs, j + 1);
    assert outputs[..j + 1][..j] == outputs[..j];
    hide AggregateColumns, Distinct;
  }

  /** Likewise for partial signatures, where a repeated sender comes before a scalar that is not canonical. */
  lemma Round5Refused(
      sessionId: Bytes16, signingSet: seq<u16>, outputs: seq<ValidatorRefreshR5Output>, j: nat)
    requires |outputs| == |signingSet| && j < |outputs| && SumPartials(sessionId, signingSet, outputs[..j]).Ok?
    ensures var r, out := AggregateRefreshRound5Result(sessionId, signingSet, outputs), outputs[j];
            if out.sessionId != sessionId then r == Err(SessionIdMismatch)
            else if out.fromIndex !in signingSet then r == Err(UnknownParticipant)
            else if out.fromIndex in Senders5(outputs[..j]) then r == Err(DuplicateParticipant)
            else out.sPartial >= Q ==> r == Err(InvalidScalar)
  {
    SumPartialsStops(sessionId, signingSet, outputs, j + 1);
    assert outputs[..j + 1][..j] == outputs[..j];
    hide Add;
  }

  lemma {:induction false} BlindCandidatesIff(
      aggregatedR: seq<Bytes32>, jointPk: Bytes32, jointPkPoint: Point, tape: RefreshTape, count: nat)
    requires count <= |aggregatedR| && tape.Sized(|tape.seeds|) && count <= |tape.seeds|
    ensures BlindCandidates(aggregatedR, jointPk, jointPkPoint, tape, count).Ok? <==>
            forall g :: 0 <= g < count ==> Decompress(aggregatedR[g]).Ok?
    ensures var r := BlindCandidates(aggregatedR, jointPk, jointPkPoint, tape, count);
            r.Err? ==> r == Err(InvalidPoint)
  {
    if count > 0 {
      BlindCandidatesIff(aggregatedR, jointPk, jointPkPoint, tape, count - 1);
      NoOtherPointError(aggregatedR[count - 1]);
      hide Decompress, BlindOneCandidate, CandidateMessage;
    }
  }

  lemma NoOtherPointError(b: Bytes32)
    ensures Decompress(b).Err? ==> Decompress(b) == Err(InvalidPoint)
  {
  }

  /** The user blinds iff the ids agree, there is a candidate and all points decode. */
  lemma Round2AcceptedIff(
      sessionId: Bytes16, mint: MintRefreshR1Output, jointPk: Bytes32, melted: Coin.Coin, tape: RefreshTape)
    requires |mint.aggregatedR| >= mint.kappa && tape.Sized(mint.kappa)
    ensures var r := UserRefreshRound2Result(sessionId, mint, jointPk, melted, tape);
            && (r.Ok? <==>
                  && mint.sessionId == sessionId && mint.kappa > 0 && Decompress(jointPk).Ok?
                  && forall g :: 0 <= g < mint.kappa ==> Decompress(mint.aggregatedR[g]).Ok?)
            && (r == Err(SessionIdMismatch) <==> mint.sessionId != sessionId)
            && (r == Err(InvalidState) <==> mint.sessionId == sessionId && mint.kappa == 0)
  {
    NoOtherPointError(jointPk);
    hide Decompress, BlindCandidates;
    if Decompress(jointPk).Ok? {
      BlindCandidatesIff(mint.aggregatedR, jointPk, Decompress(jointPk).value, tape, mint.kappa);
    }
  }

  /** Which error an opening gives before its triples are looked at, and for the first triple that is bad. */
  lemma OpeningRefused(
      round2: UserRefreshR2Output, mint: MintRefreshR1Output, challenge: MintRefreshR3Challenge,
      opening: UserRefreshR4Reveal, jointPk: Bytes32, j: nat)
    requires |round2.challenges| >= round2.kappa && |mint.aggregatedR| >= round2.kappa >= 1
    ensures var r := VerifyRevealResult(round2, mint, challenge, opening, jointPk);
            if !(round2.sessionId == opening.sessionId == mint.sessionId == challenge.sessionId)
            then r == Err(SessionIdMismatch)
            else if |opening.revealed| != round2.kappa - 1 then r == Err(CheatingDetected)
            else if Decompress(jointPk).Err? then r == Err(InvalidPoint)
            else
              j < |opening.revealed|
              && CheckAllOpened(round2.kappa, round2.challenges, mint.aggregatedR, challenge.gammaStar, jointPk,
                                Decompress(jointPk).value, opening.revealed[..j]).Ok? ==>
                var rc := opening.revealed[j];
                if rc.candidateIndex == 0 || rc.candidateIndex > round2.kappa then r == Err(ChallengeOutOfRange)
                else if rc.candidateIndex == challenge.gammaStar
                        || rc.candidateIndex in Indices(opening.revealed[..j])
                then r == Err(CheatingDetected)
                else rc.alpha >= Q || rc.beta >= Q ==> r == Err(InvalidScalar)
  {
    hide CheckOpened, CheckAllOpened, Decompress, Indices;
    NoOtherPointError(jointPk);
    var revealed := opening.revealed;
    if Decompress(jointPk).Ok? && j < |revealed| {
      var point := Decompress(jointPk).value;
      FirstBadTriple(round2.kappa, round2.challenges, mint.aggregatedR, challenge.gammaStar, jointPk, point, revealed,
                     j);
      TripleRefused(round2.kappa, round2.challenges, mint.aggregatedR, challenge.gammaStar, jointPk, point,
                    Indices(revealed[..j]), revealed[j]);
    }
  }

  lemma FirstBadTriple(
      kappa: u8, challenges: seq<Bytes32>, aggregatedR: seq<Bytes32>, gammaStar: u8,
      jointPk: Bytes32, jointPkPoint: Point, revealed: seq<RevealedCandidate>, j: nat)
    requires |challenges| >= kappa && |aggregatedR| >= kappa && j < |revealed|
    ensures var r := CheckOpened(kappa, challenges, aggregatedR, gammaStar, jointPk, jointPkPoint,
                                 Indices(revealed[..j]), revealed[j]);
            CheckAllOpened(kappa, challenges, aggregatedR, gammaStar, jointPk, jointPkPoint, revealed[..j]).Ok?
            && r.Err? ==>
              CheckAllOpened(kappa, challenges, aggregatedR, gammaStar, jointPk, jointPkPoint, revealed) == r
  {
    hide CheckOpened;
    CheckAllOpenedStops(kappa, challenges, aggregatedR, gammaStar, jointPk, jointPkPoint, revealed, j + 1);
    assert revealed[..j + 1][..j] == revealed[..j];
  }

  lemma TripleRefused(
      kappa: u8, challenges: seq<Bytes32>, aggregatedR: seq<Bytes32>, gammaStar: u8,
      jointPk: Bytes32, jointPkPoint: Point, seen: seq<u8>, rc: RevealedCandidate)
    requires |challenges| >= kappa && |aggregatedR| >= kappa
    ensures var r := CheckOpened(kappa, challenges, aggregatedR, gammaStar, jointPk, jointPkPoint, seen, rc);
            if rc.candidateIndex == 0 || rc.candidateIndex > kappa then r == Err(ChallengeOutOfRange)
            else if rc.candidateIndex == gammaStar || rc.candidateIndex in seen then r == Err(CheatingDetected)
            else rc.alpha >= Q || rc.beta >= Q ==> r == Err(InvalidScalar)
  {
    hide Decompress, BlindOneCandidate, CandidateMessage;
  }

  /** A validator answers round 5 iff the ids agree, the choice is among its candidates, the challenge is canonical,
      it is in the set and zero is not; with its nonce for the choice and its weighted share. */
  lemma PartialAcceptedIff(
      state: ValidatorRefreshState, round2: UserRefreshR2Output, challenge: MintRefreshR3Challenge,
      myShare: Scalar, signingSet: seq<u16>)
    requires Answerable(state, round2, challenge)
    ensures var r := ValidatorRefreshRound5Result(state, round2, challenge, myShare, signingSet);
            var agree := state.sessionId == round2.sessionId == challenge.sessionId;
            var inRange := 1 <= challenge.gammaStar <= state.kappa;
            && (r == Err(SessionIdMismatch) <==> !agree)
            && (r == Err(ChallengeOutOfRange) <==> agree && !inRange)
            && (r == Err(InvalidScalar) <==> agree && inRange && round2.challenges[challenge.gammaStar - 1] >= Q)
            && (r.Ok? <==>
                  && agree && inRange && round2.challenges[challenge.gammaStar - 1] < Q
                  && state.myIndex in signingSet && 0 !in signingSet)
            && (r.Ok? ==>
                  && r.value.sessionId == state.sessionId && r.value.fromIndex == state.myIndex
                  && r.value.sPartial ==
                     Red(state.kPerCandidate[challenge.gammaStar - 1]
                         + round2.challenges[challenge.gammaStar - 1] * (Lambda(signingSet, state.myIndex) * myShare)))
  {
    hide Lambda, Red;
    if ValidatorRefreshRound5Result(state, round2, challenge, myShare, signingSet).Ok? {
      var l, c := Lambda(signingSet, state.myIndex), round2.challenges[challenge.gammaStar - 1];
      MulAssoc(c, l, myShare);
      RedInner(c * l, myShare);
      RedInner(c * l * myShare, state.kPerCandidate[challenge.gammaStar - 1]);
    }
  }

  /** The user gets a coin iff the ids agree, the choice is in range, the response is canonical and the unblinded
      signature on the chosen candidate's commitment verifies; which error otherwise. */
  lemma Round6AcceptedIff(
      state: UserRefreshState, challenge: MintRefreshR3Challenge, response: MintRefreshR5Response, jointPk: Bytes32)
    requires state.Sized()
    ensures var r := UserRefreshRound6(state, challenge, response, jointPk);
            var agree := state.sessionId == response.sessionId == challenge.sessionId;
            var inRange := 1 <= challenge.gammaStar <= state.kappa;
            && (r == Err(SessionIdMismatch) <==> !agree)
            && (r == Err(ChallengeOutOfRange) <==> agree && !inRange)
            && (agree && inRange && response.sAggregated >= Q ==> r == Err(InvalidScalar))
            && (r.Ok? <==>
                  && agree && inRange && response.sAggregated < Q
                  && var g := challenge.gammaStar - 1;
                     var sig := Signature(state.rPrimes[g], Red(response.sAggregated + state.alphas[g]));
                     SchnorrVerify(jointPk, CandidateMessage(state.seeds[g]), sig) == Ok(true))
  {
    hide Red, Base, Compress, PointAdd, PointMul;
    if 1 <= challenge.gammaStar <= state.kappa && response.sAggregated < Q {
      var g := challenge.gammaStar - 1;
      var sig := Signature(state.rPrimes[g], Red(response.sAggregated + state.alphas[g]));
      VerifiesIff(jointPk, CandidateMessage(state.seeds[g]), sig);
    }
  }
}
