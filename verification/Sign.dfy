/** The validator and aggregator sides of a threshold blind signing session. */
module Sign {
  import opened Wrappers
  import opened Lists
  import opened Field
  import opened Group
  import opened Schnorr
  import opened Lagrange

  datatype ValidatorR1State = ValidatorR1State(sessionId: Bytes16, myIndex: u16, k: Scalar)
  datatype ValidatorR1Output = ValidatorR1Output(fromIndex: u16, sessionId: Bytes16, r: Bytes32)
  datatype ValidatorR3Output = ValidatorR3Output(fromIndex: u16, sessionId: Bytes16, s: Bytes32)

  function ValidatorRound1(sessionId: Bytes16, myIndex: u16, k: Scalar)
    : (ValidatorR1Output, ValidatorR1State)
  {
    (ValidatorR1Output(myIndex, sessionId, Compress(Base(k))), ValidatorR1State(sessionId, myIndex, k))
  }

  function Senders1(outputs: seq<ValidatorR1Output>): (senders: seq<u16>)
    ensures |senders| == |outputs|
  {
    seq(|outputs|, j requires 0 <= j < |outputs| => outputs[j].fromIndex)
  }

  function Senders3(outputs: seq<ValidatorR3Output>): (senders: seq<u16>)
    ensures |senders| == |outputs|
  {
    seq(|outputs|, j requires 0 <= j < |outputs| => outputs[j].fromIndex)
  }

  // ---------------------------------------------------------------- aggregating commitments

  /** The per-message checks of both aggregators, in the order the source makes them. */
  function Admit(sessionId: Bytes16, signingSet: seq<u16>, seen: seq<u16>, from: u16, tag: Bytes16)
    : (r: Result<()>)
    ensures r.Ok? <==> tag == sessionId && from in signingSet && from !in seen
    ensures r == Err(DomainMismatch) <==> tag != sessionId
    ensures r == Err(UnknownParticipant) <==> tag == sessionId && from !in signingSet
    ensures r == Err(DuplicateParticipant) <==> tag == sessionId && from in signingSet && from in seen
  {
    if tag != sessionId then Err(DomainMismatch)
    else if from !in signingSet then Err(UnknownParticipant)
    else if from in seen then Err(DuplicateParticipant)
    else Ok(())
  }

  function SumCommitments(sessionId: Bytes16, signingSet: seq<u16>, outputs: seq<ValidatorR1Output>)
    : Result<Point>
  {
    if outputs == [] then Ok(IDENTITY) else
      var rest, out := outputs[..|outputs| - 1], outputs[|outputs| - 1];
      var sum :- SumCommitments(sessionId, signingSet, rest);
      var _ :- Admit(sessionId, signingSet, Senders1(rest), out.fromIndex, out.sessionId);
      var r :- Decompress(out.r);
      Ok(PointAdd(sum, r))
  }

  function AggregateCommitmentsResult(
    sessionId: Bytes16, signingSet: seq<u16>, outputs: seq<ValidatorR1Output>): Result<BlindCommit>
  {
    if |outputs| != |signingSet| then Err(InsufficientMessages) else
      var sum :- SumCommitments(sessionId, signingSet, outputs);
      Ok(BlindCommit(Compress(sum)))
  }

  /** The first rejected message decides the result. */
  lemma {:induction false} SumCommitmentsStops(
      sessionId: Bytes16, signingSet: seq<u16>, outputs: seq<ValidatorR1Output>, j: nat)
    requires j <= |outputs|
    ensures SumCommitments(sessionId, signingSet, outputs[..j]).Err? ==>
              SumCommitments(sessionId, signingSet, outputs) ==
              SumCommitments(sessionId, signingSet, outputs[..j])
    decreases |outputs|
  {
    if j == |outputs| {
      assert outputs[..j] == outputs;
    } else {
      var rest := outputs[..|outputs| - 1];
      assert rest[..j] == outputs[..j];
      SumCommitmentsStops(sessionId, signingSet, rest, j);
    }
  }

  method AggregateCommitments(
    sessionId: Bytes16, signingSet: seq<u16>, outputs: seq<ValidatorR1Output>)
    returns (r: Result<BlindCommit>)
    ensures r == AggregateCommitmentsResult(sessionId, signingSet, outputs)
  {
    if |outputs| != |signingSet| {
      return Err(InsufficientMessages);
    }
    var rAgg: Point := IDENTITY;
    var seen: seq<u16> := [];
    for j := 0 to |outputs|
      invariant seen == Senders1(outputs[..j])
      invariant SumCommitments(sessionId, signingSet, outputs[..j]) == Ok(rAgg)
    {
      var out := outputs[j];
      assert outputs[..j + 1][..j] == outputs[..j];
      SumCommitmentsStops(sessionId, signingSet, outputs, j + 1);
      if out.sessionId != sessionId {
        return Err(DomainMismatch);
      }
      if out.fromIndex !in signingSet {
        return Err(UnknownParticipant);
      }
      if out.fromIndex in seen {
        return Err(DuplicateParticipant);
      }
      seen := seen + [out.fromIndex];
      var point := Decompress(out.r);
      if point.Err? {
        return Err(InvalidPoint);
      }
      rAgg := PointAdd(rAgg, point.value);
    }
    assert outputs[..|outputs|] == outputs;
    r := Ok(BlindCommit(Compress(rAgg)));
  }

  // ---------------------------------------------------------------- partial signatures

  function PartialSignResult(
    state: ValidatorR1State, challenge: BlindChallenge, myShare: Scalar, signingSet: seq<u16>)
    : Result<ValidatorR3Output>
  {
    var c :- FromCanonicalBytes(challenge.c);
    var lambda :- LagrangeResult(signingSet, state.myIndex);
    Ok(ValidatorR3Output(state.myIndex, state.sessionId, Add(state.k, Mul(Mul(c, lambda), myShare))))
  }

  method PartialSign(
    state: ValidatorR1State, challenge: BlindChallenge, myShare: Scalar, signingSet: seq<u16>)
    returns (r: Result<ValidatorR3Output>)
    ensures r == PartialSignResult(state, challenge, myShare, signingSet)
  {
    var c := FromCanonicalBytes(challenge.c);
    if c.Err? {
      return Err(c.error);
    }
    var lambda := LagrangeCoefficientAtZero(signingSet, state.myIndex);
    if lambda.Err? {
      return Err(lambda.error);
    }
    var s := Add(state.k, Mul(Mul(c.value, lambda.value), myShare));
    r := Ok(ValidatorR3Output(state.myIndex, state.sessionId, s));
  }

  /** A validator signs iff the challenge is canonical, it is in the set and zero is not; its response answers the
      challenge with its nonce and its weighted share. */
  lemma PartialSignAcceptedIff(
      state: ValidatorR1State, challenge: BlindChallenge, myShare: Scalar, signingSet: seq<u16>)
    ensures var r := PartialSignResult(state, challenge, myShare, signingSet);
            && (r.Ok? <==> challenge.c < Q && state.myIndex in signingSet && 0 !in signingSet)
            && (r == Err(InvalidScalar) <==> challenge.c >= Q)
            && (r.Ok? ==>
                  && r.value.fromIndex == state.myIndex && r.value.sessionId == state.sessionId
                  && r.value.s == Red(state.k + challenge.c * (Lambda(signingSet, state.myIndex) * myShare)))
  {
    hide Lambda, Red;
    if challenge.c < Q && state.myIndex in signingSet && 0 !in signingSet {
      var l := Lambda(signingSet, state.myIndex);
      MulAssoc(challenge.c, l, myShare);
      RedInner(challenge.c * l, myShare);
      RedInner(challenge.c * l * myShare, state.k);
    }
  }

  // ---------------------------------------------------------------- aggregating responses

  function SumResponses(sessionId: Bytes16, signingSet: seq<u16>, outputs: seq<ValidatorR3Output>)
    : Result<Scalar>
  {
    if outputs == [] then Ok(0) else
      var rest, out := outputs[..|outputs| - 1], outputs[|outputs| - 1];
      var sum :- SumResponses(sessionId, signingSet, rest);
      var _ :- Admit(sessionId, signingSet, Senders3(rest), out.fromIndex, out.sessionId);
      var s :- FromCanonicalBytes(out.s);
      Ok(Add(sum, s))
  }

  function AggregateResponsesResult(
    sessionId: Bytes16, signingSet: seq<u16>, outputs: seq<ValidatorR3Output>): Result<BlindResponse>
  {
    if |outputs| != |signingSet| then Err(InsufficientMessages) else
      var sum :- SumResponses(sessionId, signingSet, outputs);
      Ok(BlindResponse(sum))
  }

  lemma {:induction false} SumResponsesStops(
      sessionId: Bytes16, signingSet: seq<u16>, outputs: seq<ValidatorR3Output>, j: nat)
    requires j <= |outputs|
    ensures SumResponses(sessionId, signingSet, outputs[..j]).Err? ==>
              SumResponses(sessionId, signingSet, outputs) ==
              SumResponses(sessionId, signingSet, outputs[..j])
    decreases |outputs|
  {
    if j == |outputs| {
      assert outputs[..j] == outputs;
    } else {
      var rest := outputs[..|outputs| - 1];
      assert rest[..j] == outputs[..j];
      SumResponsesStops(sessionId, signingSet, rest, j);
    }
  }

  method AggregateResponses(
    sessionId: Bytes16, signingSet: seq<u16>, outputs: seq<ValidatorR3Output>)
    returns (r: Result<BlindResponse>)
    ensures r == AggregateResponsesResult(sessionId, signingSet, outputs)
  {
    if |outputs| != |signingSet| {
      return Err(InsufficientMessages);
    }
    var sAgg: Scalar := 0;
    var seen: seq<u16> := [];
    for j := 0 to |outputs|
      invariant seen == Senders3(outputs[..j])
      invariant SumResponses(sessionId, signingSet, outputs[..j]) == Ok(sAgg)
    {
      var out := outputs[j];
      assert outputs[..j + 1][..j] == outputs[..j];
      SumResponsesStops(sessionId, signingSet, outputs, j + 1);
      if out.sessionId != sessionId {
        return Err(DomainMismatch);
      }
      if out.fromIndex !in signingSet {
        return Err(UnknownParticipant);
      }
      if out.fromIndex in seen {
        return Err(DuplicateParticipant);
      }
      seen := seen + [out.fromIndex];
      var s := FromCanonicalBytes(out.s);
      if s.Err? {
        return Err(s.error);
      }
      sAgg := Add(sAgg, s.value);
    }
    assert outputs[..|outputs|] == outputs;
    r := Ok(BlindResponse(sAgg));
  }

  // ---------------------------------------------------------------- acceptance forces a permutation

  lemma {:induction false} SumCommitmentsAccepts(
      sessionId: Bytes16, signingSet: seq<u16>, outputs: seq<ValidatorR1Output>)
    ensures SumCommitments(sessionId, signingSet, outputs).Ok? <==>
            && Distinct(Senders1(outputs))
            && forall out :: out in outputs ==>
                 out.sessionId == sessionId && out.fromIndex in signingSet && Decompress(out.r).Ok?
  {
    if outputs != [] {
      var rest, out := outputs[..|outputs| - 1], outputs[|outputs| - 1];
      assert outputs == rest + [out];
      SumCommitmentsAccepts(sessionId, signingSet, rest);
      DistinctLast(Senders1(rest), out.fromIndex);
      assert Senders1(outputs) == Senders1(rest) + [out.fromIndex];
    }
  }

  lemma {:induction false} SumResponsesAccepts(
      sessionId: Bytes16, signingSet: seq<u16>, outputs: seq<ValidatorR3Output>)
    ensures SumResponses(sessionId, signingSet, outputs).Ok? <==>
            && Distinct(Senders3(outputs))
            && forall out :: out in outputs ==>
                 out.sessionId == sessionId && out.fromIndex in signingSet && out.s < Q
  {
    if outputs != [] {
      var rest, out := outputs[..|outputs| - 1], outputs[|outputs| - 1];
      assert outputs == rest + [out];
      SumResponsesAccepts(sessionId, signingSet, rest);
      DistinctLast(Senders3(rest), out.fromIndex);
      assert Senders3(outputs) == Senders3(rest) + [out.fromIndex];
    }
  }

  /** Commitments are accepted iff their senders are a permutation of a duplicate-free signing set,
      every session id matches and every commitment decodes. */
  lemma {:induction false} CommitmentsAcceptedIff(
      sessionId: Bytes16, signingSet: seq<u16>, outputs: seq<ValidatorR1Output>)
    ensures AggregateCommitmentsResult(sessionId, signingSet, outputs).Ok? <==>
            && Distinct(signingSet)
            && Permutation(Senders1(outputs), signingSet)
            && forall out :: out in outputs ==> out.sessionId == sessionId && Decompress(out.r).Ok?
  {
    SumCommitmentsAccepts(sessionId, signingSet, outputs);
    var senders := Senders1(outputs);
    assert forall out :: out in outputs ==> out.fromIndex in senders by {
      forall out | out in outputs ensures out.fromIndex in senders {
        var j :| 0 <= j < |outputs| && outputs[j] == out;
        assert senders[j] == out.fromIndex;
      }
    }
    AdmittedSenders(senders, signingSet);
  }

  /** The same for responses, which must be canonical scalars. */
  lemma ResponsesAcceptedIff(
      sessionId: Bytes16, signingSet: seq<u16>, outputs: seq<ValidatorR3Output>)
    ensures AggregateResponsesResult(sessionId, signingSet, outputs).Ok? <==>
            && Distinct(signingSet)
            && Permutation(Senders3(outputs), signingSet)
            && forall out :: out in outputs ==> out.sessionId == sessionId && out.s < Q
  {
    SumResponsesAccepts(sessionId, signingSet, outputs);
    var senders := Senders3(outputs);
    assert forall out :: out in outputs ==> out.fromIndex in senders by {
      forall out | out in outputs ensures out.fromIndex in senders {
        var j :| 0 <= j < |outputs| && outputs[j] == out;
        assert senders[j] == out.fromIndex;
      }
    }
    AdmittedSenders(senders, signingSet);
  }

  /** Length, membership and no repetition together mean: a permutation of a duplicate-free set. */
  lemma AdmittedSenders(senders: seq<u16>, signingSet: seq<u16>)
    ensures && |senders| == |signingSet|
            && Distinct(senders)
            && (forall i :: i in senders ==> i in signingSet)
       <==> Distinct(signingSet) && Permutation(senders, signingSet)
  {
    if |senders| == |signingSet| && Distinct(senders) && forall i :: i in senders ==> i in signingSet {
      Pigeonhole(senders, signingSet);
    }
    if Permutation(senders, signingSet) {
      PermutationDistinct(senders, signingSet);
    }
  }

  // ---------------------------------------------------------------- what is summed, and what is refused

  /** The commitments' points; the identity stands for one that does not decode. */
  function PointsOf(outputs: seq<ValidatorR1Output>): (ps: seq<int>) {
    seq(|outputs|, j requires 0 <= j < |outputs| =>
      var p := Decompress(outputs[j].r); if p.Ok? then p.value else IDENTITY)
  }

  function ScalarsOf(outputs: seq<ValidatorR3Output>): (ss: seq<int>) {
    seq(|outputs|, j requires 0 <= j < |outputs| => outputs[j].s)
  }

  lemma {:induction false} SumCommitmentsTotal(
      sessionId: Bytes16, signingSet: seq<u16>, outputs: seq<ValidatorR1Output>)
    requires SumCommitments(sessionId, signingSet, outputs).Ok?
    ensures SumCommitments(sessionId, signingSet, outputs).value == Total(PointsOf(outputs)) % (8 * Q)
  {
    hide Decompress;
    if outputs == [] {
      TotalNext([], 0);
      assert PointsOf(outputs) == [];
      EmptySum();
    } else {
      var rest, out := outputs[..|outputs| - 1], outputs[|outputs| - 1];
      SumCommitmentsTotal(sessionId, signingSet, rest);
      var p: Point := Decompress(out.r).value;
      assert PointsOf(outputs) == PointsOf(rest) + [p];
      TotalNext(PointsOf(rest), p);
      SumNext(SumCommitments(sessionId, signingSet, rest).value, Total(PointsOf(rest)), p);
    }
  }

  lemma {:induction false} SumResponsesTotal(
      sessionId: Bytes16, signingSet: seq<u16>, outputs: seq<ValidatorR3Output>)
    requires SumResponses(sessionId, signingSet, outputs).Ok?
    ensures SumResponses(sessionId, signingSet, outputs).value == Red(Total(ScalarsOf(outputs)))
  {
    hide Red;
    if outputs == [] {
      TotalNext([], 0);
      assert ScalarsOf(outputs) == [];
      RedScalar(0);
    } else {
      var rest, out := outputs[..|outputs| - 1], outputs[|outputs| - 1];
      SumResponsesTotal(sessionId, signingSet, rest);
      assert ScalarsOf(outputs) == ScalarsOf(rest) + [out.s];
      TotalNext(ScalarsOf(rest), out.s);
      RedInner(Total(ScalarsOf(rest)), out.s);
    }
  }

  /** Whatever was sent, accepted commitments are added in the curve's group and accepted responses modulo Q. */
  lemma AggregatesAreSums(
      sessionId: Bytes16, signingSet: seq<u16>, first: seq<ValidatorR1Output>, third: seq<ValidatorR3Output>)
    ensures var r := AggregateCommitmentsResult(sessionId, signingSet, first);
            r.Ok? ==> Decompress(r.value.r) == Ok(Total(PointsOf(first)) % (8 * Q))
    ensures var r := AggregateResponsesResult(sessionId, signingSet, third);
            r.Ok? ==> r.value.s == Red(Total(ScalarsOf(third)))
  {
    hide SumCommitments, SumResponses, Total, Red, PointsOf, ScalarsOf;
    if AggregateCommitmentsResult(sessionId, signingSet, first).Ok? {
      SumCommitmentsTotal(sessionId, signingSet, first);
      DecompressCompress(SumCommitments(sessionId, signingSet, first).value);
    }
    if AggregateResponsesResult(sessionId, signingSet, third).Ok? {
      SumResponsesTotal(sessionId, signingSet, third);
    }
  }

  /** The error is that of the first bad commitment: a foreign session before a foreign sender before a repeated
      one before a point that does not decode. */
  lemma CommitmentRefused(
      sessionId: Bytes16, signingSet: seq<u16>, outputs: seq<ValidatorR1Output>, j: nat)
    requires |outputs| == |signingSet| && j < |outputs| && SumCommitments(sessionId, signingSet, outputs[..j]).Ok?
    ensures var r, out := AggregateCommitmentsResult(sessionId, signingSet, outputs), outputs[j];
            if out.sessionId != sessionId then r == Err(DomainMismatch)
            else if out.fromIndex !in signingSet then r == Err(UnknownParticipant)
            else if out.fromIndex in Senders1(outputs[..j]) then r == Err(DuplicateParticipant)
            else Decompress(out.r).Err? ==> r == Err(InvalidPoint)
  {
    SumCommitmentsStops(sessionId, signingSet, outputs, j + 1);
    assert outputs[..j + 1][..j] == outputs[..j];
    hide Decompress, PointAdd;
    NoOtherPointError(outputs[j].r);
  }

  lemma NoOtherPointError(b: Bytes32)
    ensures Decompress(b).Err? ==> Decompress(b) == Err(InvalidPoint)
  {
  }

  /** Likewise for responses, with a scalar that is not canonical last. */
  lemma ResponseRefused(
      sessionId: Bytes16, signingSet: seq<u16>, outputs: seq<ValidatorR3Output>, j: nat)
    requires |outputs| == |signingSet| && j < |outputs| && SumResponses(sessionId, signingSet, outputs[..j]).Ok?
    ensures var r, out := AggregateResponsesResult(sessionId, signingSet, outputs), outputs[j];
            if out.sessionId != sessionId then r == Err(DomainMismatch)
            else if out.fromIndex !in signingSet then r == Err(UnknownParticipant)
            else if out.fromIndex in Senders3(outputs[..j]) then r == Err(DuplicateParticipant)
            else out.s >= Q ==> r == Err(InvalidScalar)
  {
    SumResponsesStops(sessionId, signingSet, outputs, j + 1);
    assert outputs[..j + 1][..j] == outputs[..j];
  }
}
