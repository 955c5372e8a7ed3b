/** The cut-and-choose refresh: kappa candidates are blinded, all but one are opened. */
module Refresh {
  import opened Arithmetic
  import opened Wrappers
  import opened Lists
  import opened Octets
  import opened Field
  import opened Group
  import opened Schnorr
  import opened Lagrange
  import opened Coin

  // ---------------------------------------------------------------- messages

  datatype ValidatorRefreshR1Output = ValidatorRefreshR1Output(
    sessionId: Bytes16, fromIndex: u16, rPerCandidate: seq<Bytes32>)

  datatype ValidatorRefreshState = ValidatorRefreshState(
    sessionId: Bytes16, myIndex: u16, kappa: u8, kPerCandidate: seq<Scalar>)

  datatype MintRefreshR1Output = MintRefreshR1Output(
    sessionId: Bytes16, kappa: u8, aggregatedR: seq<Bytes32>)

  datatype MintRefreshR3Challenge = MintRefreshR3Challenge(sessionId: Bytes16, gammaStar: u8)

  datatype ValidatorRefreshR5Output = ValidatorRefreshR5Output(
    sessionId: Bytes16, fromIndex: u16, sPartial: Bytes32)

  datatype MintRefreshR5Response = MintRefreshR5Response(sessionId: Bytes16, sAggregated: Bytes32)

  datatype UserRefreshR2Output = UserRefreshR2Output(
    sessionId: Bytes16, kappa: u8, challenges: seq<Bytes32>,
    meltedCoinPubkey: Bytes32, meltedCoinSignature: Signature)

  datatype UserRefreshState = UserRefreshState(
    sessionId: Bytes16, kappa: u8, jointPkBytes: Bytes32,
    seeds: seq<Bytes32>, alphas: seq<Scalar>, betas: seq<Scalar>, rPrimes: seq<Bytes32>)
  {
    /** One entry per candidate, as round 2 leaves it. */
    ghost predicate Sized() {
      kappa >= 1 && |seeds| == |alphas| == |betas| == |rPrimes| == kappa
    }
  }

  datatype RevealedCandidate = RevealedCandidate(
    candidateIndex: u8, seed: Bytes32, alpha: Bytes32, beta: Bytes32)

  datatype UserRefreshR4Reveal = UserRefreshR4Reveal(sessionId: Bytes16, revealed: seq<RevealedCandidate>)

  // ---------------------------------------------------------------- helpers

  /** The message signed for a candidate: the public commitment of the secret its seed derives. */
  function CandidateMessage(seed: Bytes32): seq<u8> {
    Le(32, PublicKeyFromSecret(DERIVE_COIN_SECRET(seed)))
  }

  /** The blinded commitment and the blinded challenge of one candidate. */
  function BlindOneCandidate(
    rAggregated: Point, jointPkPoint: Point, jointPkBytes: Bytes32, alpha: Scalar, beta: Scalar,
    msg: seq<u8>): (Bytes32, Scalar)
  {
    var rPrime := Compress(PointAdd(PointAdd(rAggregated, Base(alpha)), PointMul(beta, jointPkPoint)));
    (rPrime, Add(CHALLENGE(rPrime, jointPkBytes, msg), beta))
  }

  /** First byte of the hash that selects the unopened candidate. */
  const GAMMA_HASH: Bytes16 -> u8

  /** The hash byte and the selected candidate, counted from zero, leave the same remainder modulo kappa. */
  function ComputeGammaStar(sessionId: Bytes16, kappa: u8): (gamma: u8)
    requires kappa >= 1
    ensures 1 <= gamma <= kappa && (gamma - 1 - GAMMA_HASH(sessionId)) % kappa == 0
  {
    GammaIsCongruent(GAMMA_HASH(sessionId), kappa);
    GAMMA_HASH(sessionId) % kappa + 1
  }

  lemma GammaIsCongruent(b: u8, kappa: u8)
    requires kappa >= 1
    ensures (b % kappa - b) % kappa == 0
  {
    DivModUnique(b % kappa - b, kappa, -(b / kappa), 0);
  }

  /** The byte b selects candidate g out of kappa. */
  predicate Selects(b: u8, kappa: u8, g: u8)
    requires kappa >= 1
  {
    1 <= g <= kappa && (g - 1 - b) % kappa == 0
  }

  /** A byte selects exactly one candidate, so the hash determines the choice. */
  lemma SelectedOnce(b: u8, kappa: u8, g: u8, h: u8)
    requires kappa >= 1 && Selects(b, kappa, g) && Selects(b, kappa, h)
    ensures g == h
  {
    var x, y := (g - 1 - b) / kappa, (h - 1 - b) / kappa;
    assert g - h == (x - y) * kappa;
    MulAtLeast(x - y, kappa);
  }

  /** How many of the bytes below n select candidate g. */
  function Selecting(n: nat, kappa: u8, g: u8): nat
    requires kappa >= 1 && n <= 256
  {
    if n == 0 then 0 else Selecting(n - 1, kappa, g) + (if Selects(n - 1, kappa, g) then 1 else 0)
  }

  lemma NextQuotient(b: nat, k: int)
    requires k >= 1
    ensures if b % k == k - 1 then (b + 1) / k == b / k + 1 && (b + 1) % k == 0
            else (b + 1) / k == b / k && (b + 1) % k == b % k + 1
  {
    if b % k == k - 1 {
      assert (b / k + 1) * k == b / k * k + k;
      DivModUnique(b + 1, k, b / k + 1, 0);
    } else {
      DivModUnique(b + 1, k, b / k, b % k + 1);
    }
  }

  lemma SelectsRemainder(b: u8, kappa: u8, g: u8)
    requires 1 <= g <= kappa
    ensures Selects(b, kappa, g) <==> g == b % kappa + 1
  {
    GammaIsCongruent(b, kappa);
    if Selects(b, kappa, g) {
      SelectedOnce(b, kappa, g, b % kappa + 1);
    }
  }

  lemma {:induction false} SelectingCount(n: nat, kappa: u8, g: u8)
    requires 1 <= g <= kappa && n <= 256
    ensures Selecting(n, kappa, g) == n / kappa + (if g - 1 < n % kappa then 1 else 0)
  {
    if n == 0 {
      DivModUnique(0, kappa, 0, 0);
    } else {
      SelectingCount(n - 1, kappa, g);
      SelectsRemainder(n - 1, kappa, g);
      hide Selects;
      NextQuotient(n - 1, kappa);
    }
  }

  lemma EveryShareOfBytes(kappa: u8)
    requires kappa >= 1
    ensures 256 / kappa >= 1
  {
    assert 256 == 256 / kappa * kappa + 256 % kappa;
    MulAtLeast(1 - 256 / kappa, kappa);
  }

  /** The choice is near uniform: every candidate is selected by some hash byte, and the numbers of bytes that
      select two candidates differ by at most one. */
  lemma ChoiceNearUniform(kappa: u8, g: u8, h: u8)
    requires 1 <= g <= kappa && 1 <= h <= kappa
    ensures Selecting(256, kappa, g) >= 1
    ensures -1 <= Selecting(256, kappa, g) - Selecting(256, kappa, h) <= 1
  {
    hide Selecting;
    SelectingCount(256, kappa, g);
    SelectingCount(256, kappa, h);
    EveryShareOfBytes(kappa);
  }

  // ---------------------------------------------------------------- round 1, validator

  function CommitmentsTo(ks: seq<Scalar>): (rs: seq<Bytes32>)
    ensures |rs| == |ks|
  {
    seq(|ks|, g requires 0 <= g < |ks| => Compress(Base(ks[g])))
  }

  /** `tape` holds the nonces drawn from the random source. */
  method ValidatorRefreshRound1(sessionId: Bytes16, myIndex: u16, kappa: u8, tape: seq<Scalar>)
    returns (r: Result<(ValidatorRefreshR1Output, ValidatorRefreshState)>)
    requires |tape| == kappa
    ensures r == if kappa == 0 then Err(InvalidState)
                 else Ok((ValidatorRefreshR1Output(sessionId, myIndex, CommitmentsTo(tape)),
                          ValidatorRefreshState(sessionId, myIndex, kappa, tape)))
  {
    if kappa == 0 {
      return Err(InvalidState);
    }
    var ks: seq<Scalar>, rs: seq<Bytes32> := [], [];
    for g := 0 to kappa
      invariant ks == tape[..g]
      invariant rs == CommitmentsTo(tape)[..g]
    {
      rs := rs + [Compress(Base(tape[g]))];
      ks := ks + [tape[g]];
    }
    assert ks == tape && rs == CommitmentsTo(tape);
    r := Ok((ValidatorRefreshR1Output(sessionId, myIndex, rs),
             ValidatorRefreshState(sessionId, myIndex, kappa, ks)));
  }

  // ---------------------------------------------------------------- round 1, aggregator

  function Senders1(outputs: seq<ValidatorRefreshR1Output>): (senders: seq<u16>)
    ensures |senders| == |outputs|
  {
    seq(|outputs|, j requires 0 <= j < |outputs| => outputs[j].fromIndex)
  }

  function CheckShape(
    sessionId: Bytes16, kappa: u8, signingSet: seq<u16>, outputs: seq<ValidatorRefreshR1Output>): Result<()>
  {
    if outputs == [] then Ok(()) else
      var _ :- CheckShape(sessionId, kappa, signingSet, outputs[..|outputs| - 1]);
      var out := outputs[|outputs| - 1];
      if out.sessionId != sessionId then Err(SessionIdMismatch)
      else if |out.rPerCandidate| != kappa then Err(InvalidState)
      else if out.fromIndex !in signingSet then Err(UnknownParticipant)
      else Ok(())
  }

  ghost predicate Shaped(kappa: u8, outputs: seq<ValidatorRefreshR1Output>) {
    forall j :: 0 <= j < |outputs| ==> |outputs[j].rPerCandidate| == kappa
  }

  function Column(kappa: u8, outputs: seq<ValidatorRefreshR1Output>, g: nat): (column: seq<Bytes32>)
    requires Shaped(kappa, outputs) && g < kappa
    ensures |column| == |outputs|
  {
    seq(|outputs|, j requires 0 <= j < |outputs| => outputs[j].rPerCandidate[g])
  }

  /** Sum of the decoded points; the first that does not decode is the error. */
  function SumDecoded(rs: seq<Bytes32>): Result<Point> {
    if rs == [] then Ok(IDENTITY) else
      var sum :- SumDecoded(rs[..|rs| - 1]);
      var r :- Decompress(rs[|rs| - 1]);
      Ok(PointAdd(sum, r))
  }

  function AggregateColumns(kappa: u8, outputs: seq<ValidatorRefreshR1Output>, count: nat)
    : (r: Result<seq<Bytes32>>)
    requires Shaped(kappa, outputs) && count <= kappa
    ensures r.Ok? ==> |r.value| == count
  {
    if count == 0 then Ok([]) else
      var rest :- AggregateColumns(kappa, outputs, count - 1);
      var sum :- SumDecoded(Column(kappa, outputs, count - 1));
      Ok(rest + [Compress(sum)])
  }

  lemma {:induction false} CheckShapeIff(
      sessionId: Bytes16, kappa: u8, signingSet: seq<u16>, outputs: seq<ValidatorRefreshR1Output>)
    ensures CheckShape(sessionId, kappa, signingSet, outputs).Ok? <==>
            forall j :: 0 <= j < |outputs| ==>
              && outputs[j].sessionId == sessionId && |outputs[j].rPerCandidate| == kappa
              && outputs[j].fromIndex in signingSet
  {
    if outputs != [] {
      CheckShapeIff(sessionId, kappa, signingSet, outputs[..|outputs| - 1]);
    }
  }

  function AggregateRefreshRound1Result(
    sessionId: Bytes16, kappa: u8, signingSet: seq<u16>, outputs: seq<ValidatorRefreshR1Output>)
    : Result<MintRefreshR1Output>
  {
    if |outputs| != |signingSet| then Err(InsufficientMessages)
    else if kappa == 0 then Err(InvalidState)
    else
      var _ :- CheckShape(sessionId, kappa, signingSet, outputs);
      if !Distinct(Senders1(outputs)) then Err(DuplicateParticipant) else
        CheckShapeIff(sessionId, kappa, signingSet, outputs);
        var aggregated :- AggregateColumns(kappa, outputs, kappa);
        Ok(MintRefreshR1Output(sessionId, kappa, aggregated))
  }

  lemma {:induction false} CheckShapeStops(
      sessionId: Bytes16, kappa: u8, signingSet: seq<u16>, outputs: seq<ValidatorRefreshR1Output>, j: nat)
    requires j <= |outputs|
    ensures CheckShape(sessionId, kappa, signingSet, outputs[..j]).Err? ==>
              CheckShape(sessionId, kappa, signingSet, outputs) ==
              CheckShape(sessionId, kappa, signingSet, outputs[..j])
    decreases |outputs|
  {
    if j == |outputs| {
      assert outputs[..j] == outputs;
    } else {
      var rest := outputs[..|outputs| - 1];
      assert rest[..j] == outputs[..j];
      CheckShapeStops(sessionId, kappa, signingSet, rest, j);
    }
  }

  lemma {:induction false} DistinctPrefix(s: seq<u16>, j: nat)
    requires j <= |s| && Distinct(s)
    ensures Distinct(s[..j])
  {
    if j < |s| {
      DistinctPrefix(s[..|s| - 1], j);
      assert s[..|s| - 1][..j] == s[..j];
    } else {
      assert s[..j] == s;
    }
  }

  lemma {:induction false} SumDecodedStops(rs: seq<Bytes32>, j: nat)
    requires j <= |rs|
    ensures SumDecoded(rs[..j]).Err? ==> SumDecoded(rs) == SumDecoded(rs[..j])
    decreases |rs|
  {
    if j == |rs| {
      assert rs[..j] == rs;
    } else {
      assert rs[..|rs| - 1][..j] == rs[..j];
      SumDecodedStops(rs[..|rs| - 1], j);
    }
  }

  lemma {:induction false} AggregateColumnsStops(
      kappa: u8, outputs: seq<ValidatorRefreshR1Output>, count: nat, upTo: nat)
    requires Shaped(kappa, outputs) && count <= upTo <= kappa
    ensures AggregateColumns(kappa, outputs, count).Err? ==>
              AggregateColumns(kappa, outputs, upTo) == AggregateColumns(kappa, outputs, count)
    decreases upTo
  {
    if count < upTo {
      AggregateColumnsStops(kappa, outputs, count, upTo - 1);
    }
  }

  method AggregateRefreshRound1(
    sessionId: Bytes16, kappa: u8, signingSet: seq<u16>, outputs: seq<ValidatorRefreshR1Output>)
    returns (r: Result<MintRefreshR1Output>)
    ensures r == AggregateRefreshRound1Result(sessionId, kappa, signingSet, outputs)
  {
    if |outputs| != |signingSet| {
      return Err(InsufficientMessages);
    }
    if kappa == 0 {
      return Err(InvalidState);
    }
    for j := 0 to |outputs|
      invariant CheckShape(sessionId, kappa, signingSet, outputs[..j]).Ok?
    {
      var out := outputs[j];
      assert outputs[..j + 1][..j] == outputs[..j];
      CheckShapeStops(sessionId, kappa, signingSet, outputs, j + 1);
      if out.sessionId != sessionId {
        return Err(SessionIdMismatch);
      }
      if |out.rPerCandidate| != kappa {
        return Err(InvalidState);
      }
      if out.fromIndex !in signingSet {
        return Err(UnknownParticipant);
      }
    }
    assert outputs[..|outputs|] == outputs;
    CheckShapeIff(sessionId, kappa, signingSet, outputs);

    var seen: seq<u16> := [];
    for j := 0 to |outputs|
      invariant seen == Senders1(outputs)[..j] && Distinct(seen)
    {
      assert Senders1(outputs)[..j + 1] == seen + [outputs[j].fromIndex];
      DistinctLast(seen, outputs[j].fromIndex);
      if outputs[j].fromIndex in seen {
        if Distinct(Senders1(outputs)) {
          DistinctPrefix(Senders1(outputs), j + 1);
        }
        return Err(DuplicateParticipant);
      }
      seen := seen + [outputs[j].fromIndex];
    }
    assert seen == Senders1(outputs);

    var aggregated: seq<Bytes32> := [];
    for g := 0 to kappa
      invariant AggregateColumns(kappa, outputs, g) == Ok(aggregated)
    {
      var agg := AddColumn(kappa, outputs, g);
      if agg.Err? {
        AggregateColumnsStops(kappa, outputs, g + 1, kappa);
        return Err(agg.error);
      }
      aggregated := aggregated + [Compress(agg.value)];
    }
    r := Ok(MintRefreshR1Output(sessionId, kappa, aggregated));
  }

  /** The inner loop over the validators for one candidate. */
  method AddColumn(kappa: u8, outputs: seq<ValidatorRefreshR1Output>, g: nat) returns (r: Result<Point>)
    requires Shaped(kappa, outputs) && g < kappa
    ensures r == SumDecoded(Column(kappa, outputs, g))
  {
    hide Decompress, PointAdd;
    var agg: Point := IDENTITY;
    ghost var column := Column(kappa, outputs, g);
    for j := 0 to |outputs|
      invariant SumDecoded(column[..j]) == Ok(agg)
    {
      assert column[..j + 1][..j] == column[..j];
      SumDecodedStops(column, j + 1);
      var point := Decompress(outputs[j].rPerCandidate[g]);
      if point.Err? {
        return Err(point.error);
      }
      agg := PointAdd(agg, point.value);
    }
    assert column[..|outputs|] == column;
    r := Ok(agg);
  }

  // ---------------------------------------------------------------- round 2, user

  /** The random draws of round 2: one seed and two blinding factors per candidate. */
  datatype RefreshTape = RefreshTape(seeds: seq<Bytes32>, alphas: seq<Scalar>, betas: seq<Scalar>) {
    ghost predicate Sized(kappa: nat) { |seeds| == |alphas| == |betas| == kappa }
  }

  /** The blinded candidates 1..count: their blinded commitments and challenges. */
  function BlindCandidates(
    aggregatedR: seq<Bytes32>, jointPk: Bytes32, jointPkPoint: Point, tape: RefreshTape, count: nat)
    : (r: Result<(seq<Bytes32>, seq<Bytes32>)>)
    requires count <= |aggregatedR| && tape.Sized(|tape.seeds|) && count <= |tape.seeds|
    ensures r.Ok? ==> |r.value.0| == |r.value.1| == count
  {
    if count == 0 then Ok(([], [])) else
      var g := count - 1;
      var rest :- BlindCandidates(aggregatedR, jointPk, jointPkPoint, tape, g);
      var rAggregated :- Decompress(aggregatedR[g]);
      var (rPrime, c) := BlindOneCandidate(rAggregated, jointPkPoint, jointPk,
                                           tape.alphas[g], tape.betas[g], CandidateMessage(tape.seeds[g]));
      Ok((rest.0 + [rPrime], rest.1 + [c]))
  }

  lemma {:induction false} BlindCandidatesStops(
      aggregatedR: seq<Bytes32>, jointPk: Bytes32, jointPkPoint: Point, tape: RefreshTape,
      count: nat, upTo: nat)
    requires count <= upTo <= |aggregatedR| && tape.Sized(|tape.seeds|) && upTo <= |tape.seeds|
    ensures BlindCandidates(aggregatedR, jointPk, jointPkPoint, tape, count).Err? ==>
              BlindCandidates(aggregatedR, jointPk, jointPkPoint, tape, upTo) ==
              BlindCandidates(aggregatedR, jointPk, jointPkPoint, tape, count)
    decreases upTo
  {
    if count < upTo {
      BlindCandidatesStops(aggregatedR, jointPk, jointPkPoint, tape, count, upTo - 1);
    }
  }

  function UserRefreshRound2Result(
    sessionId: Bytes16, mint: MintRefreshR1Output, jointPk: Bytes32, melted: Coin, tape: RefreshTape)
    : Result<(UserRefreshR2Output, UserRefreshState)>
    requires |mint.aggregatedR| >= mint.kappa && tape.Sized(mint.kappa)
  {
    if mint.sessionId != sessionId then Err(SessionIdMismatch)
    else if mint.kappa == 0 then Err(InvalidState)
    else
      var jointPkPoint :- Decompress(jointPk);
      var blinded :- BlindCandidates(mint.aggregatedR, jointPk, jointPkPoint, tape, mint.kappa);
      Ok((UserRefreshR2Output(sessionId, mint.kappa, blinded.1, melted.pubkeyBytes, melted.signature),
          UserRefreshState(sessionId, mint.kappa, jointPk, tape.seeds, tape.alphas, tape.betas, blinded.0)))
  }

  /** Reading a missing entry of the mint's message would panic, hence the precondition on its length. */
  method UserRefreshRound2(
    sessionId: Bytes16, mint: MintRefreshR1Output, jointPk: Bytes32, melted: Coin, tape: RefreshTape)
    returns (r: Result<(UserRefreshR2Output, UserRefreshState)>)
    requires |mint.aggregatedR| >= mint.kappa && tape.Sized(mint.kappa)
    ensures r == UserRefreshRound2Result(sessionId, mint, jointPk, melted, tape)
    ensures r.Ok? ==> r.value.1.Sized()
  {
    hide Decompress, BlindOneCandidate, CandidateMessage;
    if mint.sessionId != sessionId {
      return Err(SessionIdMismatch);
    }
    var kappa := mint.kappa;
    if kappa == 0 {
      return Err(InvalidState);
    }
    var jointPkPoint := Decompress(jointPk);
    if jointPkPoint.Err? {
      return Err(jointPkPoint.error);
    }
    var seeds: seq<Bytes32>, alphas: seq<Scalar>, betas: seq<Scalar> := [], [], [];
    var rPrimes: seq<Bytes32>, challenges: seq<Bytes32> := [], [];
    for g := 0 to kappa
      invariant seeds == tape.seeds[..g] && alphas == tape.alphas[..g] && betas == tape.betas[..g]
      invariant BlindCandidates(mint.aggregatedR, jointPk, jointPkPoint.value, tape, g) ==
                Ok((rPrimes, challenges))
    {
      BlindCandidatesStops(mint.aggregatedR, jointPk, jointPkPoint.value, tape, g + 1, kappa);
      var rAggregated := Decompress(mint.aggregatedR[g]);
      if rAggregated.Err? {
        return Err(rAggregated.error);
      }
      var (rPrime, c) := BlindOneCandidate(rAggregated.value, jointPkPoint.value, jointPk,
                                           tape.alphas[g], tape.betas[g], CandidateMessage(tape.seeds[g]));
      seeds := seeds + [tape.seeds[g]];
      alphas := alphas + [tape.alphas[g]];
      betas := betas + [tape.betas[g]];
      rPrimes := rPrimes + [rPrime];
      challenges := challenges + [c];
    }
    assert seeds == tape.seeds && alphas == tape.alphas && betas == tape.betas;
    r := Ok((UserRefreshR2Output(sessionId, kappa, challenges, melted.pubkeyBytes, melted.signature),
             UserRefreshState(sessionId, kappa, jointPk, seeds, alphas, betas, rPrimes)));
  }

  // ---------------------------------------------------------------- round 3, mint

  function MintRefreshRound3(sessionId: Bytes16, round2: UserRefreshR2Output, jointPk: Bytes32)
    : (r: Result<MintRefreshR3Challenge>)
    requires round2.kappa >= 1
    ensures r.Ok? ==> r.value.sessionId == sessionId && Selects(GAMMA_HASH(sessionId), round2.kappa, r.value.gammaStar)
    ensures r.Ok? <==>
            round2.sessionId == sessionId &&
            SchnorrVerify(jointPk, Le(32, round2.meltedCoinPubkey), round2.meltedCoinSignature) == Ok(true)
  {
    if round2.sessionId != sessionId then Err(SessionIdMismatch) else
      var ok :- SchnorrVerify(jointPk, Le(32, round2.meltedCoinPubkey), round2.meltedCoinSignature);
      if !ok then Err(CoinSignatureInvalid)
      else Ok(MintRefreshR3Challenge(sessionId, ComputeGammaStar(sessionId, round2.kappa)))
  }

  // ---------------------------------------------------------------- round 4, user

  function RevealOf(state: UserRefreshState, gamma: u8): RevealedCandidate
    requires state.Sized() && 1 <= gamma <= state.kappa
  {
    RevealedCandidate(gamma, state.seeds[gamma - 1], state.alphas[gamma - 1], state.betas[gamma - 1])
  }

  /** The candidates 1..upTo without the chosen one. */
  function Reveals(state: UserRefreshState, gammaStar: u8, upTo: u8): seq<RevealedCandidate>
    requires state.Sized() && upTo <= state.kappa
  {
    if upTo == 0 then [] else
      Reveals(state, gammaStar, upTo - 1) + (if upTo == gammaStar then [] else [RevealOf(state, upTo)])
  }

  method UserRefreshRound4(state: UserRefreshState, challenge: MintRefreshR3Challenge)
    returns (r: Result<UserRefreshR4Reveal>)
    requires state.Sized()
    ensures r == if state.sessionId != challenge.sessionId then Err(SessionIdMismatch)
                 else if challenge.gammaStar == 0 || challenge.gammaStar > state.kappa then
                   Err(ChallengeOutOfRange)
                 else Ok(UserRefreshR4Reveal(state.sessionId,
                                             Reveals(state, challenge.gammaStar, state.kappa)))
  {
    if state.sessionId != challenge.sessionId {
      return Err(SessionIdMismatch);
    }
    if challenge.gammaStar == 0 || challenge.gammaStar > state.kappa {
      return Err(ChallengeOutOfRange);
    }
    var revealed: seq<RevealedCandidate> := [];
    for gamma := 1 to state.kappa + 1
      invariant revealed == Reveals(state, challenge.gammaStar, gamma - 1)
    {
      if gamma == challenge.gammaStar {
        continue;
      }
      revealed := revealed + [RevealedCandidate(gamma, state.seeds[gamma - 1],
                                                state.alphas[gamma - 1], state.betas[gamma - 1])];
    }
    r := Ok(UserRefreshR4Reveal(state.sessionId, revealed));
  }

  // ---------------------------------------------------------------- checking the opened candidates, mint

  function Indices(revealed: seq<RevealedCandidate>): (indices: seq<u8>)
    ensures |indices| == |revealed|
  {
    seq(|revealed|, j requires 0 <= j < |revealed| => revealed[j].candidateIndex)
  }

  /** The checks on one opened candidate, given the indices opened so far. */
  function CheckOpened(
    kappa: u8, challenges: seq<Bytes32>, aggregatedR: seq<Bytes32>, gammaStar: u8,
    jointPk: Bytes32, jointPkPoint: Point, seen: seq<u8>, rc: RevealedCandidate): Result<()>
    requires |challenges| >= kappa && |aggregatedR| >= kappa
  {
    if rc.candidateIndex == 0 || rc.candidateIndex > kappa then Err(ChallengeOutOfRange)
    else if rc.candidateIndex == gammaStar then Err(CheatingDetected)
    else if rc.candidateIndex in seen then Err(CheatingDetected)
    else
      var idx := rc.candidateIndex - 1;
      var alpha :- FromCanonicalBytes(rc.alpha);
      var beta :- FromCanonicalBytes(rc.beta);
      var rAgg :- Decompress(aggregatedR[idx]);
      var c := BlindOneCandidate(rAgg, jointPkPoint, jointPk, alpha, beta, CandidateMessage(rc.seed)).1;
      if c != challenges[idx] then Err(CheatingDetected) else Ok(())
  }

  function CheckAllOpened(
    kappa: u8, challenges: seq<Bytes32>, aggregatedR: seq<Bytes32>, gammaStar: u8,
    jointPk: Bytes32, jointPkPoint: Point, revealed: seq<RevealedCandidate>): Result<()>
    requires |challenges| >= kappa && |aggregatedR| >= kappa
  {
    if revealed == [] then Ok(()) else
      var rest := revealed[..|revealed| - 1];
      var _ :- CheckAllOpened(kappa, challenges, aggregatedR, gammaStar, jointPk, jointPkPoint, rest);
      CheckOpened(kappa, challenges, aggregatedR, gammaStar, jointPk, jointPkPoint,
                  Indices(rest), revealed[|revealed| - 1])
  }

  function VerifyRevealResult(
    round2: UserRefreshR2Output, mint: MintRefreshR1Output, challenge: MintRefreshR3Challenge,
    opening: UserRefreshR4Reveal, jointPk: Bytes32): Result<()>
    requires |round2.challenges| >= round2.kappa && |mint.aggregatedR| >= round2.kappa >= 1
  {
    if round2.sessionId != challenge.sessionId || opening.sessionId != challenge.sessionId
       || mint.sessionId != challenge.sessionId then Err(SessionIdMismatch)
    else if |opening.revealed| != round2.kappa - 1 then Err(CheatingDetected)
    else
      var jointPkPoint :- Decompress(jointPk);
      CheckAllOpened(round2.kappa, round2.challenges, mint.aggregatedR, challenge.gammaStar,
                     jointPk, jointPkPoint, opening.revealed)
  }

  lemma {:induction false} CheckAllOpenedStops(
      kappa: u8, challenges: seq<Bytes32>, aggregatedR: seq<Bytes32>, gammaStar: u8,
      jointPk: Bytes32, jointPkPoint: Point, revealed: seq<RevealedCandidate>, j: nat)
    requires |challenges| >= kappa && |aggregatedR| >= kappa && j <= |revealed|
    ensures CheckAllOpened(kappa, challenges, aggregatedR, gammaStar, jointPk, jointPkPoint, revealed[..j]).Err? ==>
              CheckAllOpened(kappa, challenges, aggregatedR, gammaStar, jointPk, jointPkPoint, revealed) ==
              CheckAllOpened(kappa, challenges, aggregatedR, gammaStar, jointPk, jointPkPoint, revealed[..j])
    decreases |revealed|
  {
    hide CheckOpened;
    if j == |revealed| {
      assert revealed[..j] == revealed;
    } else {
      var rest := revealed[..|revealed| - 1];
      assert rest[..j] == revealed[..j];
      CheckAllOpenedStops(kappa, challenges, aggregatedR, gammaStar, jointPk, jointPkPoint, rest, j);
    }
  }

  /** The body of the mint's loop: the checks on one opened candidate. */
  method VerifyOpened(
    kappa: u8, challenges: seq<Bytes32>, aggregatedR: seq<Bytes32>, gammaStar: u8,
    jointPk: Bytes32, jointPkPoint: Point, seen: seq<u8>, rc: RevealedCandidate) returns (r: Result<()>)
    requires |challenges| >= kappa && |aggregatedR| >= kappa
    ensures r == CheckOpened(kappa, challenges, aggregatedR, gammaStar, jointPk, jointPkPoint, seen, rc)
  {
    hide Decompress, BlindOneCandidate, CandidateMessage;
    if rc.candidateIndex == 0 || rc.candidateIndex > kappa {
      return Err(ChallengeOutOfRange);
    }
    if rc.candidateIndex == gammaStar {
      return Err(CheatingDetected);
    }
    if rc.candidateIndex in seen {
      return Err(CheatingDetected);
    }
    var idx := rc.candidateIndex - 1;
    var alpha :- FromCanonicalBytes(rc.alpha);
    var beta :- FromCanonicalBytes(rc.beta);
    var rAgg :- Decompress(aggregatedR[idx]);
    var c := BlindOneCandidate(rAgg, jointPkPoint, jointPk, alpha, beta, CandidateMessage(rc.seed)).1;
    r := if c != challenges[idx] then Err(CheatingDetected) else Ok(());
  }

  method MintRefreshVerifyReveal(
    round2: UserRefreshR2Output, mint: MintRefreshR1Output, challenge: MintRefreshR3Challenge,
    opening: UserRefreshR4Reveal, jointPk: Bytes32) returns (r: Result<()>)
    requires |round2.challenges| >= round2.kappa && |mint.aggregatedR| >= round2.kappa >= 1
    ensures r == VerifyRevealResult(round2, mint, challenge, opening, jointPk)
  {
    hide Decompress, CheckOpened;
    if round2.sessionId != challenge.sessionId || opening.sessionId != challenge.sessionId
       || mint.sessionId != challenge.sessionId {
      return Err(SessionIdMismatch);
    }
    var kappa, revealed := round2.kappa, opening.revealed;
    if |revealed| != kappa - 1 {
      return Err(CheatingDetected);
    }
    var jointPkPoint :- Decompress(jointPk);
    var seen: seq<u8> := [];
    for j := 0 to |revealed|
      invariant seen == Indices(revealed[..j])
      invariant CheckAllOpened(kappa, round2.challenges, mint.aggregatedR, challenge.gammaStar,
                               jointPk, jointPkPoint, revealed[..j]) == Ok(())
    {
      assert revealed[..j + 1][..j] == revealed[..j];
      CheckAllOpenedStops(kappa, round2.challenges, mint.aggregatedR, challenge.gammaStar,
                          jointPk, jointPkPoint, revealed, j + 1);
      var _ :- VerifyOpened(kappa, round2.challenges, mint.aggregatedR, challenge.gammaStar,
                            jointPk, jointPkPoint, seen, revealed[j]);
      seen := seen + [revealed[j].candidateIndex];
    }
    assert revealed[..|revealed|] == revealed;
    r := Ok(());
  }

  // ---------------------------------------------------------------- round 5

  /** A chosen candidate that is in range for the validator has a challenge to answer. */
  ghost predicate Answerable(
    state: ValidatorRefreshState, round2: UserRefreshR2Output, challenge: MintRefreshR3Challenge)
  {
    && |state.kPerCandidate| == state.kappa
    && (1 <= challenge.gammaStar <= state.kappa ==> challenge.gammaStar <= |round2.challenges|)
  }

  function ValidatorRefreshRound5Result(
    state: ValidatorRefreshState, round2: UserRefreshR2Output, challenge: MintRefreshR3Challenge,
    myShare: Scalar, signingSet: seq<u16>): Result<ValidatorRefreshR5Output>
    requires Answerable(state, round2, challenge)
  {
    if state.sessionId != challenge.sessionId || round2.sessionId != challenge.sessionId then
      Err(SessionIdMismatch)
    else if challenge.gammaStar == 0 || challenge.gammaStar > state.kappa then Err(ChallengeOutOfRange)
    else
      var idx := challenge.gammaStar - 1;
      var c :- FromCanonicalBytes(round2.challenges[idx]);
      var lambda :- LagrangeResult(signingSet, state.myIndex);
      Ok(ValidatorRefreshR5Output(state.sessionId, state.myIndex,
                                  Add(state.kPerCandidate[idx], Mul(Mul(c, lambda), myShare))))
  }

  method ValidatorRefreshRound5(
    state: ValidatorRefreshState, round2: UserRefreshR2Output, challenge: MintRefreshR3Challenge,
    myShare: Scalar, signingSet: seq<u16>) returns (r: Result<ValidatorRefreshR5Output>)
    requires Answerable(state, round2, challenge)
    ensures r == ValidatorRefreshRound5Result(state, round2, challenge, myShare, signingSet)
  {
    if state.sessionId != challenge.sessionId || round2.sessionId != challenge.sessionId {
      return Err(SessionIdMismatch);
    }
    if challenge.gammaStar == 0 || challenge.gammaStar > state.kappa {
      return Err(ChallengeOutOfRange);
    }
    var idx := challenge.gammaStar - 1;
    var c := FromCanonicalBytes(round2.challenges[idx]);
    if c.Err? {
      return Err(c.error);
    }
    var lambda := LagrangeCoefficientAtZero(signingSet, state.myIndex);
    if lambda.Err? {
      return Err(lambda.error);
    }
    var s := Add(state.kPerCandidate[idx], Mul(Mul(c.value, lambda.value), myShare));
    r := Ok(ValidatorRefreshR5Output(state.sessionId, state.myIndex, s));
  }

  function Senders5(outputs: seq<ValidatorRefreshR5Output>): (senders: seq<u16>)
    ensures |senders| == |outputs|
  {
    seq(|outputs|, j requires 0 <= j < |outputs| => outputs[j].fromIndex)
  }

  function SumPartials(sessionId: Bytes16, signingSet: seq<u16>, outputs: seq<ValidatorRefreshR5Output>)
    : Result<Scalar>
  {
    if outputs == [] then Ok(0) else
      var rest, out := outputs[..|outputs| - 1], outputs[|outputs| - 1];
      var sum :- SumPartials(sessionId, signingSet, rest);
      if out.sessionId != sessionId then Err(SessionIdMismatch)
      else if out.fromIndex !in signingSet then Err(UnknownParticipant)
      else if out.fromIndex in Senders5(rest) then Err(DuplicateParticipant)
      else
        var s :- FromCanonicalBytes(out.sPartial);
        Ok(Add(sum, s))
  }

  function AggregateRefreshRound5Result(
    sessionId: Bytes16, signingSet: seq<u16>, outputs: seq<ValidatorRefreshR5Output>)
    : Result<MintRefreshR5Response>
  {
    if |outputs| != |signingSet| then Err(InsufficientMessages) else
      var sum :- SumPartials(sessionId, signingSet, outputs);
      Ok(MintRefreshR5Response(sessionId, sum))
  }

  lemma {:induction false} SumPartialsStops(
      sessionId: Bytes16, signingSet: seq<u16>, outputs: seq<ValidatorRefreshR5Output>, j: nat)
    requires j <= |outputs|
    ensures SumPartials(sessionId, signingSet, outputs[..j]).Err? ==>
              SumPartials(sessionId, signingSet, outputs) ==
              SumPartials(sessionId, signingSet, outputs[..j])
    decreases |outputs|
  {
    if j == |outputs| {
      assert outputs[..j] == outputs;
    } else {
      var rest := outputs[..|outputs| - 1];
      assert rest[..j] == outputs[..j];
      SumPartialsStops(sessionId, signingSet, rest, j);
    }
  }

  method AggregateRefreshRound5(
    sessionId: Bytes16, signingSet: seq<u16>, outputs: seq<ValidatorRefreshR5Output>)
    returns (r: Result<MintRefreshR5Response>)
    ensures r == AggregateRefreshRound5Result(sessionId, signingSet, outputs)
  {
    if |outputs| != |signingSet| {
      return Err(InsufficientMessages);
    }
    var sAgg: Scalar := 0;
    var seen: seq<u16> := [];
    for j := 0 to |outputs|
      invariant seen == Senders5(outputs[..j])
      invariant SumPartials(sessionId, signingSet, outputs[..j]) == Ok(sAgg)
    {
      var out := outputs[j];
      assert outputs[..j + 1][..j] == outputs[..j];
      SumPartialsStops(sessionId, signingSet, outputs, j + 1);
      if out.sessionId != sessionId {
        return Err(SessionIdMismatch);
      }
      if out.fromIndex !in signingSet {
        return Err(UnknownParticipant);
      }
      if out.fromIndex in seen {
        return Err(DuplicateParticipant);
      }
      seen := seen + [out.fromIndex];
      var s := FromCanonicalBytes(out.sPartial);
      if s.Err? {
        return Err(s.error);
      }
      sAgg := Add(sAgg, s.value);
    }
    assert outputs[..|outputs|] == outputs;
    r := Ok(MintRefreshR5Response(sessionId, sAgg));
  }

  // ---------------------------------------------------------------- round 6, user

  function UserRefreshRound6(
    state: UserRefreshState, challenge: MintRefreshR3Challenge, response: MintRefreshR5Response,
    jointPk: Bytes32): (r: Result<Coin>)
    requires state.Sized()
    ensures r.Ok? ==> r.value.Valid() && r.value.Verify(jointPk) == Ok(true)
  {
    if state.sessionId != challenge.sessionId || response.sessionId != challenge.sessionId then
      Err(SessionIdMismatch)
    else if challenge.gammaStar == 0 || challenge.gammaStar > state.kappa then Err(ChallengeOutOfRange)
    else
      var idx := challenge.gammaStar - 1;
      var s :- FromCanonicalBytes(response.sAggregated);
      var secret := DERIVE_COIN_SECRET(state.seeds[idx]);
      var pubkey := PublicKeyFromSecret(secret);
      var sig := Signature(state.rPrimes[idx], Add(s, state.alphas[idx]));
      var ok :- SchnorrVerify(jointPk, Le(32, pubkey), sig);
      if !ok then Err(CoinSignatureInvalid) else NewCoin(secret, pubkey, sig)
  }
}
