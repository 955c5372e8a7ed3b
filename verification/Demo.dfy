/** The in-process life cycle: key generation, issuance and refresh composed as the `demo` command
    composes them. Random draws are parameters. */
module Demo {
  import opened Wrappers
  import opened Lists
  import opened Octets
  import opened Field
  import opened Group
  import opened Schnorr
  import opened Polynomials
  import opened Lagrange
  import opened Vss
  import opened Dkg
  import opened Threshold
  import opened Coin
  import opened RefreshCompleteness
  import Sign
  import Refresh

  const DKG_CEREMONY: Bytes16 := 0x42424242424242424242424242424242
  const ISSUE_SESSION: Bytes16 := 0x43434343434343434343434343434343
  const REFRESH_SESSION: Bytes16 := 0x44444444444444444444444444444444
  const DEFAULT_KAPPA: u8 := 3

  // ---------------------------------------------------------------- key generation

  ghost function DealingMap(dealings: seq<Dealing>): map<u16, Dealing> {
    map k: u16 {:trigger dealings[k - 1]} | 1 <= k <= |dealings| :: dealings[k - 1]
  }

  ghost predicate AllFit(dealings: seq<Dealing>, params: VssParameters) {
    |dealings| == params.n && forall j :: 0 <= j < |dealings| ==> dealings[j].Fits(params)
  }

  /** What every validator ends up with: one key, the shares of one polynomial, the set 1..n. */
  ghost function Finalisations(params: VssParameters, f: seq<int>): (s: seq<DkgFinalised>)
    ensures |s| == params.n
  {
    seq(params.n, j requires 0 <= j < params.n =>
          DkgFinalised(j + 1, Compress(Base(PolyAt(f, 0))), Red(PolyAt(f, j + 1)), UpTo(params.n)))
  }

  /** The indices 1..upTo without i. */
  function PeersOf(i: u16, upTo: u16): seq<u16> {
    if upTo == 0 then [] else PeersOf(i, upTo - 1) + (if upTo == i then [] else [upTo])
  }

  lemma {:induction false} PeersMembers(i: u16, upTo: u16)
    ensures forall k: u16 :: k in PeersOf(i, upTo) <==> 1 <= k <= upTo && k != i
    ensures |PeersOf(i, upTo)| == if 1 <= i <= upTo then upTo - 1 else upTo
  {
    if upTo > 0 {
      PeersMembers(i, upTo - 1);
    }
  }

  lemma {:induction false} PeersDistinct(i: u16, upTo: u16)
    ensures Distinct(PeersOf(i, upTo))
  {
    if upTo > 0 {
      PeersDistinct(i, upTo - 1);
      PeersMembers(i, upTo - 1);
      assert upTo == i ==> PeersOf(i, upTo) == PeersOf(i, upTo - 1);
      DistinctLast(PeersOf(i, upTo - 1), upTo);
    }
  }

  function ContributionOf(outputs: seq<DkgRound1Output>, i: u16, k: u16): PeerContribution
    requires 1 <= k <= |outputs| && 1 <= i <= |outputs[k - 1].shares|
  {
    PeerContribution(outputs[k - 1].broadcast, outputs[k - 1].shares[i - 1])
  }

  /** What the listed validators sent to validator i. */
  ghost predicate SentBy(outputs: seq<DkgRound1Output>, i: u16, order: seq<u16>, received: seq<PeerContribution>) {
    && |received| == |order|
    && forall j :: 0 <= j < |order| ==>
         && 1 <= order[j] <= |outputs| && 1 <= i <= |outputs[order[j] - 1].shares|
         && received[j] == ContributionOf(outputs, i, order[j])
  }

  /** The round-1 outputs of all validators. */
  ghost predicate AllStarted(params: VssParameters, d: map<u16, Dealing>, outputs: seq<DkgRound1Output>) {
    && Dealt(d, params) && |outputs| == params.n
    && forall j {:trigger outputs[j]} :: 0 <= j < params.n ==>
         outputs[j] == Round1Of(DKG_CEREMONY, j + 1, params, d[j + 1])
  }

  lemma StartedShares(
      params: VssParameters, d: map<u16, Dealing>, outputs: seq<DkgRound1Output>)
    requires AllStarted(params, d, outputs)
    ensures forall j :: 0 <= j < params.n ==> |outputs[j].shares| == params.n
  {
    hide PedersenOf, FeldmanOf, SharesOf, SchnorrSign;
  }

  lemma ContributionIsHonest(
      params: VssParameters, d: map<u16, Dealing>, outputs: seq<DkgRound1Output>, i: u16, k: u16)
    requires AllStarted(params, d, outputs) && 1 <= i <= params.n && 1 <= k <= params.n
    requires i <= |outputs[k - 1].shares|
    ensures ContributionOf(outputs, i, k) == ContributionFrom(DKG_CEREMONY, i, k, params, d)
  {
    hide PedersenOf, FeldmanOf, SharesOf, SchnorrSign;
  }

  lemma DemoView(
      params: VssParameters, d: map<u16, Dealing>, outputs: seq<DkgRound1Output>, i: u16, order: seq<u16>,
      received: seq<PeerContribution>)
    requires AllStarted(params, d, outputs) && 1 <= i <= params.n
    requires order == PeersOf(i, params.n) && SentBy(outputs, i, order, received)
    ensures HonestView(DKG_CEREMONY, i, params, d, order, outputs[i - 1], received)
    ensures |order| == params.n - 1
  {
    hide Round1Of, PeersOf, Distinct, ContributionOf, ContributionFrom;
    PeersMembers(i, params.n);
    PeersDistinct(i, params.n);
    forall j | 0 <= j < |order|
      ensures 1 <= order[j] <= params.n
      ensures received[j] == ContributionFrom(DKG_CEREMONY, i, order[j], params, d)
    {
      assert order[j] in order;
      ContributionIsHonest(params, d, outputs, i, order[j]);
    }
  }

  /** What the other validators sent to validator i. */
  method Contributions(n: u16, outputs: seq<DkgRound1Output>, i: u16)
    returns (received: seq<PeerContribution>)
    requires |outputs| == n && 1 <= i
    requires forall j :: 0 <= j < n ==> i <= |outputs[j].shares|
    ensures SentBy(outputs, i, PeersOf(i, n), received)
  {
    received := [];
    for k := 1 to n + 1
      invariant SentBy(outputs, i, PeersOf(i, k - 1), received)
    {
      if k != i {
        received := received + [ContributionOf(outputs, i, k)];
      }
    }
  }

  lemma MapDealt(dealings: seq<Dealing>, params: VssParameters)
    requires AllFit(dealings, params) && params.Valid()
    ensures Dealt(DealingMap(dealings), params)
    ensures forall j: nat :: j < params.n ==> DealingMap(dealings)[j + 1] == dealings[j]
  {
  }

  method StartAll(params: VssParameters, dealings: seq<Dealing>) returns (r: Result<seq<DkgRound1Output>>)
    requires AllFit(dealings, params) && params.Valid()
    ensures r.Ok? && AllStarted(params, DealingMap(dealings), r.value)
  {
    hide Round1Of;
    ghost var d := DealingMap(dealings);
    MapDealt(dealings, params);
    var outputs: seq<DkgRound1Output> := [];
    for i := 1 to params.n + 1
      invariant |outputs| == i - 1
      invariant forall j {:trigger outputs[j]} :: 0 <= j < i - 1 ==>
                  outputs[j] == Round1Of(DKG_CEREMONY, j + 1, params, d[j + 1])
    {
      var round1 := DkgStart(DKG_CEREMONY, i, params, dealings[i - 1]);
      match round1
      case Err(e) => return Err(e);
      case Ok(output) => outputs := outputs + [output];
    }
    r := Ok(outputs);
  }

  method FinalizeFor(
    params: VssParameters, ghost d: map<u16, Dealing>, outputs: seq<DkgRound1Output>, i: u16)
    returns (r: Result<DkgFinalised>)
    requires AllStarted(params, d, outputs) && 1 <= i <= params.n
    ensures r == Ok(Finalisations(params, JointPoly(params, d))[i - 1])
  {
    hide Round1Of, JointPoly, PolyAt, Red, Base, Compress, DkgFinalizeResult, HonestView, UpTo, PeersOf, SentBy;
    StartedShares(params, d, outputs);
    var received := Contributions(params.n, outputs, i);
    DemoView(params, d, outputs, i, PeersOf(i, params.n), received);
    DkgCorrect(DKG_CEREMONY, i, params, d, PeersOf(i, params.n), outputs[i - 1], received);
    r := DkgFinalize(outputs[i - 1], received);
  }

  /** Runs the ceremony of n validators to the end. It fails only on parameters that are not
      1 <= t <= n; otherwise all validators agree on the key of one polynomial and hold its values. */
  method RunDkg(n: u16, t: u16, dealings: seq<Dealing>) returns (r: Result<seq<DkgFinalised>>)
    requires |dealings| == n
    requires 1 <= t <= n ==> AllFit(dealings, VssParameters(n, t))
    ensures !(1 <= t <= n) ==> r == Err(InvalidSigningSet)
    ensures 1 <= t <= n ==>
              var params, d := VssParameters(n, t), DealingMap(dealings);
              Dealt(d, params) && r == Ok(Finalisations(params, JointPoly(params, d)))
  {
    hide Dealt, AllFit, AllStarted, DealingMap, Finalisations, JointPoly;
    var params :- NewParameters(n, t);
    MapDealt(dealings, params);
    ghost var d := DealingMap(dealings);
    ghost var all := Finalisations(params, JointPoly(params, d));
    var started := StartAll(params, dealings);
    var outputs := started.value;
    var finalisations: seq<DkgFinalised> := [];
    for i := 1 to n + 1
      invariant |finalisations| == i - 1
      invariant forall j :: 0 <= j < i - 1 ==> finalisations[j] == all[j]
    {
      var finalised := FinalizeFor(params, d, outputs, i);
      match finalised
      case Err(e) => return Err(e);
      case Ok(output) => finalisations := finalisations + [output];
    }
    assert finalisations == all;
    r := Ok(finalisations);
  }

  // ---------------------------------------------------------------- issuance

  /** Validator j holds the value at j + 1 of f, and all name the key of f(0). */
  ghost predicate HonestKeys(finalised: seq<DkgFinalised>, f: seq<int>) {
    && |finalised| <= 0xffff
    && forall j :: 0 <= j < |finalised| ==>
         && finalised[j].myIndex == j + 1
         && finalised[j].jointPk == Compress(Base(PolyAt(f, 0)))
         && finalised[j].myShare == Red(PolyAt(f, j + 1))
  }

  /** The generated keys are honest. */
  lemma FinalisationsHonest(params: VssParameters, f: seq<int>)
    ensures HonestKeys(Finalisations(params, f), f)
  {
    hide PolyAt, Red, Base, Compress, UpTo;
  }

  ghost function ShareMap(f: seq<int>, n: u16): map<u16, Scalar> {
    map i: u16 | 1 <= i <= n :: Red(PolyAt(f, i))
  }

  ghost function NonceMap(ks: seq<Scalar>): map<u16, Scalar>
    requires |ks| <= 0xffff
  {
    map i: u16 {:trigger ks[i - 1]} | 1 <= i <= |ks| :: ks[i - 1]
  }

  method SigningSet(finalised: seq<DkgFinalised>, t: u16) returns (signingSet: seq<u16>)
    ensures |signingSet| == if t <= |finalised| then t else |finalised|
    ensures forall j :: 0 <= j < |signingSet| ==> signingSet[j] == finalised[j].myIndex
  {
    signingSet := [];
    for j := 0 to if t <= |finalised| then t else |finalised|
      invariant |signingSet| == j
      invariant forall m :: 0 <= m < j ==> signingSet[m] == finalised[m].myIndex
    {
      signingSet := signingSet + [finalised[j].myIndex];
    }
  }

  /** The first entry for an index, as the iterator's `find` returns it. */
  method FindShare(finalised: seq<DkgFinalised>, index: u16) returns (r: Option<DkgFinalised>)
    ensures r.None? <==> forall j :: 0 <= j < |finalised| ==> finalised[j].myIndex != index
    ensures r.Some? ==> r.value in finalised && r.value.myIndex == index
  {
    for j := 0 to |finalised|
      invariant forall m :: 0 <= m < j ==> finalised[m].myIndex != index
    {
      if finalised[j].myIndex == index {
        return Some(finalised[j]);
      }
    }
    r := None;
  }

  /** The first t validators hold shares of f and drew one nonce each. */
  lemma FirstValidators(f: seq<int>, t: u16, ks: seq<Scalar>)
    requires |ks| == t
    ensures UsableSet(UpTo(t)) && SharesOn(f, ShareMap(f, t), UpTo(t)) && Assigned(NonceMap(ks), UpTo(t))
  {
    hide PolyAt, Red;
    UpToElements(t);
  }

  lemma DemoCommitments(
      sessionId: Bytes16, t: u16, ks: seq<Scalar>, outputs: seq<Sign.ValidatorR1Output>)
    requires |ks| == |outputs| == t
    requires forall m :: 0 <= m < t ==> outputs[m] == Sign.ValidatorRound1(sessionId, m + 1, ks[m]).0
    ensures HonestCommitments(sessionId, UpTo(t), NonceMap(ks), outputs)
  {
    hide Base, Compress, UpTo, Permutation;
    UpToElements(t);
    assert Sign.Senders1(outputs) == UpTo(t);
    PermutationSame(UpTo(t));
    var k := NonceMap(ks);
    assert forall m :: 0 <= m < t ==> m + 1 in k && k[m + 1] == ks[m];
    assert forall m {:trigger outputs[m]} :: 0 <= m < t ==> outputs[m].fromIndex == m + 1;
  }

  /** The m-th partial signature of an honest session. */
  ghost predicate DemoResponse(
    sessionId: Bytes16, f: seq<int>, t: u16, ks: seq<Scalar>, challenge: BlindChallenge, m: nat,
    response: Sign.ValidatorR3Output)
    requires m < t == |ks|
  {
    Sign.PartialSignResult(Sign.ValidatorR1State(sessionId, m + 1, ks[m]), challenge,
                           Red(PolyAt(f, m + 1)), UpTo(t)) == Ok(response)
  }

  lemma DemoResponseAt(
      sessionId: Bytes16, f: seq<int>, t: u16, ks: seq<Scalar>, challenge: BlindChallenge, m: nat,
      response: Sign.ValidatorR3Output)
    requires m < t == |ks| && DemoResponse(sessionId, f, t, ks, challenge, m, response)
    ensures var i: u16 := m + 1;
            && response.fromIndex == i && i in NonceMap(ks) && i in ShareMap(f, t)
            && Sign.PartialSignResult(Sign.ValidatorRound1(sessionId, i, NonceMap(ks)[i]).1, challenge,
                                      ShareMap(f, t)[i], UpTo(t)) == Ok(response)
  {
    hide PolyAt, Red, LagrangeResult, UpTo, Base, Compress;
  }

  lemma DemoResponses(
      sessionId: Bytes16, f: seq<int>, t: u16, ks: seq<Scalar>, challenge: BlindChallenge,
      responses: seq<Sign.ValidatorR3Output>)
    requires |ks| == |responses| == t
    requires forall m :: 0 <= m < t ==> DemoResponse(sessionId, f, t, ks, challenge, m, responses[m])
    ensures HonestResponses(sessionId, UpTo(t), NonceMap(ks), ShareMap(f, t), challenge, responses)
  {
    hide DemoResponse, Sign.PartialSignResult, Sign.ValidatorRound1, NonceMap, ShareMap, UpTo, Permutation,
      HonestResponses;
    UpToElements(t);
    forall m | 0 <= m < t
      ensures responses[m].fromIndex == m + 1 && m + 1 in NonceMap(ks) && m + 1 in ShareMap(f, t)
      ensures Sign.PartialSignResult(Sign.ValidatorRound1(sessionId, m + 1, NonceMap(ks)[m + 1]).1, challenge,
                                     ShareMap(f, t)[m + 1], UpTo(t)) == Ok(responses[m])
    {
      DemoResponseAt(sessionId, f, t, ks, challenge, m, responses[m]);
    }
    assert Sign.Senders3(responses) == UpTo(t);
    PermutationSame(UpTo(t));
    ResponsesByIndex(sessionId, UpTo(t), NonceMap(ks), ShareMap(f, t), challenge, responses);
  }

  lemma ResponsesByIndex(
      sessionId: Bytes16, s: seq<u16>, k: map<u16, Scalar>, share: map<u16, Scalar>, challenge: BlindChallenge,
      responses: seq<Sign.ValidatorR3Output>)
    requires Permutation(Sign.Senders3(responses), s)
    requires forall m :: 0 <= m < |responses| ==>
               && responses[m].fromIndex == m + 1 && m + 1 in k && m + 1 in share
               && Sign.PartialSignResult(Sign.ValidatorRound1(sessionId, m + 1, k[m + 1]).1, challenge,
                                         share[m + 1], s) == Ok(responses[m])
    ensures HonestResponses(sessionId, s, k, share, challenge, responses)
  {
    hide Sign.PartialSignResult, Permutation;
  }

  /** A member of the signing set always signs a canonical challenge. */
  lemma MemberSigns(
      t: u16, m: nat, state: Sign.ValidatorR1State, challenge: BlindChallenge, share: Scalar)
    requires m < t && state.myIndex == m + 1 && challenge.c < Q
    ensures Sign.PartialSignResult(state, challenge, share, UpTo(t)).Ok?
  {
    hide Lambda;
    UpToElements(t);
  }

  /** What the honest session computes up to the challenge, and what it ends with. */
  lemma DemoIssuance(
      sessionId: Bytes16, f: seq<int>, t: u16, ks: seq<Scalar>, outputs: seq<Sign.ValidatorR1Output>,
      responses: seq<Sign.ValidatorR3Output>, seed: Bytes32, alpha: Scalar, beta: Scalar)
    requires |f| <= t == |ks| == |outputs|
    requires forall m :: 0 <= m < t ==> outputs[m] == Sign.ValidatorRound1(sessionId, m + 1, ks[m]).0
    ensures var jointPk := Compress(Base(PolyAt(f, 0)));
            var commit := Sign.AggregateCommitmentsResult(sessionId, UpTo(t), outputs);
            && commit.Ok?
            && var request := IssueRequest(jointPk, commit.value, seed, alpha, beta);
            && request.Ok? && request.value.0.c < Q
            && (|responses| == t
                && (forall m :: 0 <= m < t ==>
                      DemoResponse(sessionId, f, t, ks, request.value.0, m, responses[m])) ==>
                  var response := Sign.AggregateResponsesResult(sessionId, UpTo(t), responses);
                  && response.Ok?
                  && var coin := IssueFinalize(request.value.1, response.value);
                  && coin.Ok? && coin.value.Verify(jointPk) == Ok(true))
  {
    hide PolyAt, Red, Base, Compress, SchnorrVerify, HonestCommitments, HonestResponses,
      Sign.AggregateCommitmentsResult, Sign.AggregateResponsesResult, DemoResponse;
    FirstValidators(f, t, ks);
    DemoCommitments(sessionId, t, ks, outputs);
    var k, share := NonceMap(ks), ShareMap(f, t);
    var jointPk := Compress(Base(PolyAt(f, 0)));
    var msg := Le(32, PublicKeyFromSecret(DERIVE_COIN_SECRET(seed)));
    ThresholdIssuance(sessionId, UpTo(t), f, k, share, outputs, responses, msg, alpha, beta);
    var commit := Sign.AggregateCommitmentsResult(sessionId, UpTo(t), outputs).value;
    var request := IssueRequest(jointPk, commit, seed, alpha, beta);
    if |responses| == t
       && forall m :: 0 <= m < t ==> DemoResponse(sessionId, f, t, ks, request.value.0, m, responses[m]) {
      DemoResponses(sessionId, f, t, ks, request.value.0, responses);
    }
  }

  lemma IssuedCoin(
      jointPk: Bytes32, commit: BlindCommit, seed: Bytes32, alpha: Scalar, beta: Scalar, response: BlindResponse)
    requires IssueRequest(jointPk, commit, seed, alpha, beta).Ok?
    ensures var coin := IssueFinalize(IssueRequest(jointPk, commit, seed, alpha, beta).value.1, response);
            coin.Ok? ==> coin.value.Valid() && coin.value.secret == DERIVE_COIN_SECRET(seed)
  {
    hide Base, Compress, BlindRequest, Unblind;
  }

  /** The keys are honest and enough of them sign. */
  ghost predicate Enough(finalised: seq<DkgFinalised>, t: u16, f: seq<int>) {
    HonestKeys(finalised, f) && |f| <= t <= |finalised|
  }

  method CollectPartials(
    finalised: seq<DkgFinalised>, t: u16, sessionId: Bytes16, ks: seq<Scalar>, challenge: BlindChallenge,
    states: seq<Sign.ValidatorR1State>, signingSet: seq<u16>, ghost f: seq<int>)
    returns (r: Result<seq<Sign.ValidatorR3Output>>)
    requires |states| == |signingSet| <= |ks| == t
    requires forall m :: 0 <= m < |states| ==>
               states[m] == Sign.ValidatorR1State(sessionId, signingSet[m], ks[m])
    ensures Enough(finalised, t, f) && signingSet == UpTo(t) && challenge.c < Q ==>
              && r.Ok? && |r.value| == t
              && forall m :: 0 <= m < t ==> DemoResponse(sessionId, f, t, ks, challenge, m, r.value[m])
  {
    hide PolyAt, Red, Base, Compress, Lambda, Sign.PartialSignResult;
    ghost var honest := Enough(finalised, t, f) && signingSet == UpTo(t) && challenge.c < Q;
    UpToElements(t);
    var responses: seq<Sign.ValidatorR3Output> := [];
    for j := 0 to |states|
      invariant |responses| == j
      invariant honest ==> forall m :: 0 <= m < j ==>
                  DemoResponse(sessionId, f, t, ks, challenge, m, responses[m])
    {
      assert honest ==> finalised[j].myIndex == states[j].myIndex;
      var holder := FindShare(finalised, states[j].myIndex);
      if holder.None? {
        return Err(MissingShare);
      }
      if honest {
        MemberSigns(t, j, states[j], challenge, holder.value.myShare);
      }
      var response :- Sign.PartialSign(states[j], challenge, holder.value.myShare, signingSet);
      responses := responses + [response];
    }
    r := Ok(responses);
  }

  lemma FirstIndices(finalised: seq<DkgFinalised>, t: u16, f: seq<int>, signingSet: seq<u16>)
    requires Enough(finalised, t, f) && |signingSet| == t
    requires forall j :: 0 <= j < t ==> signingSet[j] == finalised[j].myIndex
    ensures signingSet == UpTo(t)
    ensures |finalised| > 0 ==> finalised[0].jointPk == Compress(Base(PolyAt(f, 0)))
  {
    hide PolyAt, Red, Base, Compress;
    UpToElements(t);
  }

  /** Issues a coin with the first t validators; `ks` holds their nonces. A coin that comes out is
      valid; with honest keys and t at least the number of coefficients one always comes out, and
      it verifies under the joint key. */
  method IssueCoin(
    finalised: seq<DkgFinalised>, t: u16, sessionId: Bytes16, ks: seq<Scalar>, seed: Bytes32,
    alpha: Scalar, beta: Scalar, ghost f: seq<int>) returns (r: Result<Coin>)
    requires finalised != [] && |ks| == t
    ensures r.Ok? ==> r.value.Valid() && r.value.secret == DERIVE_COIN_SECRET(seed)
    ensures Enough(finalised, t, f) ==> r.Ok? && r.value.Verify(finalised[0].jointPk) == Ok(true)
  {
    hide PolyAt, Red, Base, Compress, IssueRequest, IssueFinalize, DemoResponse, Coin.Valid, Coin.Verify,
      Sign.AggregateResponsesResult, Sign.AggregateCommitmentsResult;
    var jointPk := finalised[0].jointPk;
    var signingSet := SigningSet(finalised, t);
    if Enough(finalised, t, f) {
      UpToElements(t);
      assert signingSet == UpTo(t);
    }

    var outputs: seq<Sign.ValidatorR1Output>, states: seq<Sign.ValidatorR1State> := [], [];
    for j := 0 to |signingSet|
      invariant |outputs| == |states| == j
      invariant forall m :: 0 <= m < j ==>
                  (outputs[m], states[m]) == Sign.ValidatorRound1(sessionId, signingSet[m], ks[m])
    {
      var (output, state) := Sign.ValidatorRound1(sessionId, signingSet[j], ks[j]);
      outputs := outputs + [output];
      states := states + [state];
    }
    if Enough(finalised, t, f) {
      DemoIssuance(sessionId, f, t, ks, outputs, [], seed, alpha, beta);
    }
    var commit :- Sign.AggregateCommitments(sessionId, signingSet, outputs);
    var request :- IssueRequest(jointPk, commit, seed, alpha, beta);
    var (challenge, session) := request;
    var responses :- CollectPartials(finalised, t, sessionId, ks, challenge, states, signingSet, f);
    if Enough(finalised, t, f) {
      DemoIssuance(sessionId, f, t, ks, outputs, responses, seed, alpha, beta);
    }
    var response :- Sign.AggregateResponses(sessionId, signingSet, responses);
    r := IssueFinalize(session, response);
    IssuedCoin(jointPk, commit, seed, alpha, beta, response);
  }

  // ---------------------------------------------------------------- refresh

  ghost function TapeMap(kTapes: seq<seq<Scalar>>): map<u16, seq<Scalar>>
    requires |kTapes| <= 0xffff
  {
    map i: u16 {:trigger kTapes[i - 1]} | 1 <= i <= |kTapes| :: kTapes[i - 1]
  }

  ghost predicate TapesFit(kTapes: seq<seq<Scalar>>, t: u16, kappa: u8) {
    |kTapes| == t && forall j :: 0 <= j < t ==> |kTapes[j]| == kappa
  }

  /** The first messages and the states of the validators of one refresh session. */
  ghost predicate RefreshStarted(
    sessionId: Bytes16, signingSet: seq<u16>, kTapes: seq<seq<Scalar>>,
    outputs: seq<Refresh.ValidatorRefreshR1Output>, states: seq<Refresh.ValidatorRefreshState>)
  {
    && |outputs| == |states| == |signingSet| <= |kTapes|
    && forall m :: 0 <= m < |outputs| ==>
         && outputs[m] == Refresh.ValidatorRefreshR1Output(sessionId, signingSet[m], Refresh.CommitmentsTo(kTapes[m]))
         && states[m] == Refresh.ValidatorRefreshState(sessionId, signingSet[m], DEFAULT_KAPPA, kTapes[m])
  }

  method StartRefresh(sessionId: Bytes16, signingSet: seq<u16>, t: u16, kTapes: seq<seq<Scalar>>)
    returns (outputs: seq<Refresh.ValidatorRefreshR1Output>, states: seq<Refresh.ValidatorRefreshState>)
    requires |signingSet| <= t && TapesFit(kTapes, t, DEFAULT_KAPPA)
    ensures RefreshStarted(sessionId, signingSet, kTapes, outputs, states)
  {
    hide Refresh.CommitmentsTo;
    outputs, states := [], [];
    for j := 0 to |signingSet|
      invariant RefreshStarted(sessionId, signingSet[..j], kTapes, outputs, states)
    {
      var round1 := Refresh.ValidatorRefreshRound1(sessionId, signingSet[j], DEFAULT_KAPPA, kTapes[j]);
      outputs := outputs + [round1.value.0];
      states := states + [round1.value.1];
    }
    assert signingSet[..|signingSet|] == signingSet;
  }

  lemma DemoRound1(
      sessionId: Bytes16, t: u16, kTapes: seq<seq<Scalar>>, outputs: seq<Refresh.ValidatorRefreshR1Output>,
      states: seq<Refresh.ValidatorRefreshState>)
    requires TapesFit(kTapes, t, DEFAULT_KAPPA) && RefreshStarted(sessionId, UpTo(t), kTapes, outputs, states)
    ensures HonestRound1(sessionId, DEFAULT_KAPPA, UpTo(t), TapeMap(kTapes), outputs)
    ensures forall i :: i in UpTo(t) ==> i in TapeMap(kTapes) && |TapeMap(kTapes)[i]| == DEFAULT_KAPPA
  {
    hide Refresh.CommitmentsTo, UpTo, Permutation;
    var ks := TapeMap(kTapes);
    UpToElements(t);
    forall j | 0 <= j < |outputs|
      ensures outputs[j].fromIndex == j + 1 && j + 1 in ks && ks[j + 1] == kTapes[j] && |ks[j + 1]| == DEFAULT_KAPPA
      ensures outputs[j] == Refresh.ValidatorRefreshR1Output(sessionId, j + 1, Refresh.CommitmentsTo(ks[j + 1]))
    {
      assert UpTo(t)[j] == j + 1;
    }
    assert Refresh.Senders1(outputs) == UpTo(t);
    PermutationSame(UpTo(t));
  }

  /** The m-th partial signature of an honest refresh. */
  ghost predicate DemoPartial(
    sessionId: Bytes16, f: seq<int>, t: u16, kTapes: seq<seq<Scalar>>, round2: Refresh.UserRefreshR2Output,
    challenge: Refresh.MintRefreshR3Challenge, m: nat, partial: Refresh.ValidatorRefreshR5Output)
    requires TapesFit(kTapes, t, DEFAULT_KAPPA) && m < t && |round2.challenges| >= DEFAULT_KAPPA
  {
    Refresh.ValidatorRefreshRound5Result(
      Refresh.ValidatorRefreshState(sessionId, m + 1, DEFAULT_KAPPA, kTapes[m]), round2, challenge,
      Red(PolyAt(f, m + 1)), UpTo(t)) == Ok(partial)
  }

  lemma DemoRound5(
      sessionId: Bytes16, f: seq<int>, t: u16, kTapes: seq<seq<Scalar>>, round2: Refresh.UserRefreshR2Output,
      challenge: Refresh.MintRefreshR3Challenge, partials: seq<Refresh.ValidatorRefreshR5Output>)
    requires TapesFit(kTapes, t, DEFAULT_KAPPA) && |round2.challenges| >= DEFAULT_KAPPA && |partials| == t
    requires forall m :: 0 <= m < t ==>
               DemoPartial(sessionId, f, t, kTapes, round2, challenge, m, partials[m])
    ensures HonestRound5(sessionId, DEFAULT_KAPPA, UpTo(t), TapeMap(kTapes), ShareMap(f, t), round2,
                         challenge, partials)
  {
    hide DemoPartial, TapeMap, ShareMap, HonestRound5, Refresh.ValidatorRefreshRound5Result, UpTo, Permutation,
      Refresh.Senders5;
    var ks, share := TapeMap(kTapes), ShareMap(f, t);
    forall m | 0 <= m < t
      ensures partials[m].fromIndex == m + 1 && m + 1 in ks && m + 1 in share && |ks[m + 1]| == DEFAULT_KAPPA
      ensures Refresh.ValidatorRefreshRound5Result(
                Refresh.ValidatorRefreshState(sessionId, m + 1, DEFAULT_KAPPA, ks[m + 1]), round2, challenge,
                share[m + 1], UpTo(t)) == Ok(partials[m])
    {
      DemoPartialMeans(sessionId, f, t, kTapes, round2, challenge, m, partials[m]);
    }
    SendersByIndex(partials, t);
    PermutationSame(UpTo(t));
    PartialsByIndex(sessionId, UpTo(t), ks, share, round2, challenge, partials);
  }

  lemma DemoPartialMeans(
      sessionId: Bytes16, f: seq<int>, t: u16, kTapes: seq<seq<Scalar>>, round2: Refresh.UserRefreshR2Output,
      challenge: Refresh.MintRefreshR3Challenge, m: nat, partial: Refresh.ValidatorRefreshR5Output)
    requires TapesFit(kTapes, t, DEFAULT_KAPPA) && m < t && |round2.challenges| >= DEFAULT_KAPPA
    requires DemoPartial(sessionId, f, t, kTapes, round2, challenge, m, partial)
    ensures var ks, share := TapeMap(kTapes), ShareMap(f, t);
            && partial.fromIndex == m + 1 && m + 1 in ks && m + 1 in share && |ks[m + 1]| == DEFAULT_KAPPA
            && Refresh.ValidatorRefreshRound5Result(
                 Refresh.ValidatorRefreshState(sessionId, m + 1, DEFAULT_KAPPA, ks[m + 1]), round2, challenge,
                 share[m + 1], UpTo(t)) == Ok(partial)
  {
    hide PolyAt, Red, LagrangeResult, UpTo;
  }

  lemma SendersByIndex(partials: seq<Refresh.ValidatorRefreshR5Output>, t: u16)
    requires |partials| == t && forall m :: 0 <= m < t ==> partials[m].fromIndex == m + 1
    ensures Refresh.Senders5(partials) == UpTo(t)
  {
    hide UpTo, Distinct;
    UpToElements(t);
  }

  lemma PartialsByIndex(
      sessionId: Bytes16, s: seq<u16>, ks: map<u16, seq<Scalar>>, share: map<u16, Scalar>,
      round2: Refresh.UserRefreshR2Output, challenge: Refresh.MintRefreshR3Challenge,
      partials: seq<Refresh.ValidatorRefreshR5Output>)
    requires Permutation(Refresh.Senders5(partials), s) && |round2.challenges| >= DEFAULT_KAPPA
    requires forall m :: 0 <= m < |partials| ==>
               && partials[m].fromIndex == m + 1 && m + 1 in ks && m + 1 in share && |ks[m + 1]| == DEFAULT_KAPPA
               && Refresh.ValidatorRefreshRound5Result(
                    Refresh.ValidatorRefreshState(sessionId, m + 1, DEFAULT_KAPPA, ks[m + 1]), round2, challenge,
                    share[m + 1], s) == Ok(partials[m])
    ensures HonestRound5(sessionId, DEFAULT_KAPPA, s, ks, share, round2, challenge, partials)
  {
    hide Refresh.ValidatorRefreshRound5Result, Permutation;
  }

  lemma MemberRefreshes(
      sessionId: Bytes16, t: u16, m: nat, state: Refresh.ValidatorRefreshState,
      round2: Refresh.UserRefreshR2Output, challenge: Refresh.MintRefreshR3Challenge, share: Scalar)
    requires m < t && state.myIndex == m + 1 && |state.kPerCandidate| == state.kappa <= |round2.challenges|
    requires state.sessionId == round2.sessionId == challenge.sessionId && 1 <= challenge.gammaStar <= state.kappa
    requires round2.challenges[challenge.gammaStar - 1] < Q
    ensures Refresh.ValidatorRefreshRound5Result(state, round2, challenge, share, UpTo(t)).Ok?
  {
    hide Lambda;
    UpToElements(t);
  }

  method CollectRefreshPartials(
    finalised: seq<DkgFinalised>, t: u16, sessionId: Bytes16, kTapes: seq<seq<Scalar>>,
    round2: Refresh.UserRefreshR2Output, challenge: Refresh.MintRefreshR3Challenge,
    states: seq<Refresh.ValidatorRefreshState>, signingSet: seq<u16>, ghost f: seq<int>)
    returns (r: Result<seq<Refresh.ValidatorRefreshR5Output>>)
    requires |states| == |signingSet| <= t && TapesFit(kTapes, t, DEFAULT_KAPPA)
    requires |round2.challenges| >= DEFAULT_KAPPA
    requires forall m :: 0 <= m < |states| ==>
               states[m] == Refresh.ValidatorRefreshState(sessionId, signingSet[m], DEFAULT_KAPPA, kTapes[m])
    ensures Enough(finalised, t, f) && signingSet == UpTo(t) && round2.sessionId == challenge.sessionId == sessionId
            && 1 <= challenge.gammaStar <= DEFAULT_KAPPA && round2.challenges[challenge.gammaStar - 1] < Q ==>
              && r.Ok? && |r.value| == t
              && forall m :: 0 <= m < t ==>
                   DemoPartial(sessionId, f, t, kTapes, round2, challenge, m, r.value[m])
  {
    hide PolyAt, Red, Base, Compress, Lambda, Refresh.ValidatorRefreshRound5Result;
    ghost var honest := Enough(finalised, t, f) && signingSet == UpTo(t)
      && round2.sessionId == challenge.sessionId == sessionId
      && 1 <= challenge.gammaStar <= DEFAULT_KAPPA && round2.challenges[challenge.gammaStar - 1] < Q;
    UpToElements(t);
    var partials: seq<Refresh.ValidatorRefreshR5Output> := [];
    for j := 0 to |states|
      invariant |partials| == j
      invariant honest ==> forall m :: 0 <= m < j ==>
                  DemoPartial(sessionId, f, t, kTapes, round2, challenge, m, partials[m])
    {
      assert honest ==> finalised[j].myIndex == states[j].myIndex;
      var holder := FindShare(finalised, states[j].myIndex);
      if holder.None? {
        return Err(MissingShare);
      }
      if honest {
        MemberRefreshes(sessionId, t, j, states[j], round2, challenge, holder.value.myShare);
      }
      var partial :- Refresh.ValidatorRefreshRound5(states[j], round2, challenge, holder.value.myShare, signingSet);
      partials := partials + [partial];
    }
    r := Ok(partials);
  }

  lemma MintMessageSized(
      sessionId: Bytes16, kappa: u8, signingSet: seq<u16>, outputs: seq<Refresh.ValidatorRefreshR1Output>)
    requires Refresh.AggregateRefreshRound1Result(sessionId, kappa, signingSet, outputs).Ok?
    ensures var mint := Refresh.AggregateRefreshRound1Result(sessionId, kappa, signingSet, outputs).value;
            |mint.aggregatedR| == mint.kappa == kappa
  {
    hide Distinct, Decompress;
  }

  lemma Round2Shape(
      sessionId: Bytes16, mint: Refresh.MintRefreshR1Output, jointPk: Bytes32, melted: Coin,
      tape: Refresh.RefreshTape)
    requires |mint.aggregatedR| == mint.kappa && tape.Sized(mint.kappa)
    requires Refresh.UserRefreshRound2Result(sessionId, mint, jointPk, melted, tape).Ok?
    ensures var (round2, state) := Refresh.UserRefreshRound2Result(sessionId, mint, jointPk, melted, tape).value;
            && state.Sized() && state.kappa == round2.kappa == |round2.challenges| == mint.kappa >= 1
            && state.seeds == tape.seeds && state.sessionId == round2.sessionId == sessionId
            && round2.meltedCoinPubkey == melted.pubkeyBytes && round2.meltedCoinSignature == melted.signature
  {
    hide Decompress;
  }

  /** What rounds 1 to 4 of an honest demo session give, and what its partial signatures lead to. */
  lemma DemoSession(
      sessionId: Bytes16, f: seq<int>, t: u16, kTapes: seq<seq<Scalar>>,
      outputs: seq<Refresh.ValidatorRefreshR1Output>, states: seq<Refresh.ValidatorRefreshState>,
      melted: Coin, tape: Refresh.RefreshTape)
    requires |f| <= t && TapesFit(kTapes, t, DEFAULT_KAPPA) && tape.Sized(DEFAULT_KAPPA)
    requires RefreshStarted(sessionId, UpTo(t), kTapes, outputs, states)
    ensures var mint := Refresh.AggregateRefreshRound1Result(sessionId, DEFAULT_KAPPA, UpTo(t), outputs);
            && mint.Ok? && |mint.value.aggregatedR| == mint.value.kappa == DEFAULT_KAPPA
            && var round2 := Refresh.UserRefreshRound2Result(
                 sessionId, mint.value, Compress(Base(PolyAt(f, 0))), melted, tape);
            && round2.Ok?
            && HonestSession(sessionId, DEFAULT_KAPPA, UpTo(t), f, TapeMap(kTapes), ShareMap(f, t),
                             mint.value, round2.value.0, round2.value.1)
  {
    hide PolyAt, Base, Compress, HonestSession, HonestRound1, RefreshStarted, SharesOn, UpTo, TapeMap, ShareMap,
      Refresh.AggregateRefreshRound1Result, Refresh.UserRefreshRound2Result;
    DemoRound1(sessionId, t, kTapes, outputs, states);
    FirstSharers(f, t);
    SessionStarts(sessionId, DEFAULT_KAPPA, UpTo(t), f, TapeMap(kTapes), ShareMap(f, t), outputs, melted, tape);
  }

  lemma {:induction false} FirstSharers(f: seq<int>, t: u16)
    ensures UsableSet(UpTo(t)) && SharesOn(f, ShareMap(f, t), UpTo(t))
  {
    hide PolyAt, Red;
    UpToElements(t);
  }

  lemma ChosenChallenge(
      sessionId: Bytes16, f: seq<int>, t: u16, kTapes: seq<seq<Scalar>>, mint: Refresh.MintRefreshR1Output,
      round2: Refresh.UserRefreshR2Output, state: Refresh.UserRefreshState, challenge: Refresh.MintRefreshR3Challenge)
    requires |kTapes| == t && 1 <= challenge.gammaStar <= DEFAULT_KAPPA && challenge.sessionId == sessionId
    requires HonestSession(sessionId, DEFAULT_KAPPA, UpTo(t), f, TapeMap(kTapes), ShareMap(f, t), mint, round2, state)
    ensures state.Sized() && round2.kappa == state.kappa == |round2.challenges| == |mint.aggregatedR| == DEFAULT_KAPPA
    ensures round2.challenges[challenge.gammaStar - 1] < Q
    ensures round2.sessionId == state.sessionId == mint.sessionId == sessionId
    ensures HonestUser(sessionId, DEFAULT_KAPPA, mint, Compress(Base(PolyAt(f, 0))), round2, state)
  {
    hide Base, PolyAt, SumOver, NoncesFor, Compress, Refresh.BlindOneCandidate, Decompress;
    var g := challenge.gammaStar - 1;
    var k := SumOver(UpTo(t), NoncesFor(TapeMap(kTapes), g));
    Round6Completes(sessionId, DEFAULT_KAPPA, mint, PolyAt(f, 0), k, round2, state, challenge);
  }

  /** Refreshes a coin with the first t validators. A coin that comes out is valid, verifies under the
      joint key and derives from the seed of the chosen candidate; with honest keys and enough of
      them one comes out exactly when the coin handed in verifies. */
  method RefreshCoin(
    finalised: seq<DkgFinalised>, t: u16, sessionId: Bytes16, melted: Coin, kTapes: seq<seq<Scalar>>,
    tape: Refresh.RefreshTape, ghost f: seq<int>) returns (r: Result<Coin>)
    requires finalised != [] && TapesFit(kTapes, t, DEFAULT_KAPPA) && tape.Sized(DEFAULT_KAPPA)
    ensures r.Ok? ==> r.value.Valid() && r.value.Verify(finalised[0].jointPk) == Ok(true)
    ensures Enough(finalised, t, f) ==> (r.Ok? <==> melted.Verify(finalised[0].jointPk) == Ok(true))
  {
    hide PolyAt, Red, Base, Compress, Decompress, SchnorrVerify, HonestSession, Refresh.ComputeGammaStar,
      Refresh.AggregateRefreshRound1Result, Refresh.AggregateRefreshRound5Result, Refresh.UserRefreshRound2Result,
      Refresh.VerifyRevealResult, Refresh.UserRefreshRound6, Refresh.Reveals, DemoPartial, HonestRound5, HonestUser,
      Coin.Valid, Refresh.CommitmentsTo, UpTo, HonestKeys;
    var jointPk := finalised[0].jointPk;
    var signingSet := SigningSet(finalised, t);
    ghost var honest := Enough(finalised, t, f);
    if honest {
      FirstIndices(finalised, t, f, signingSet);
    }
    var outputs, states := StartRefresh(sessionId, signingSet, t, kTapes);
    if honest {
      DemoSession(sessionId, f, t, kTapes, outputs, states, melted, tape);
    }
    var mint :- Refresh.AggregateRefreshRound1(sessionId, DEFAULT_KAPPA, signingSet, outputs);
    MintMessageSized(sessionId, DEFAULT_KAPPA, signingSet, outputs);
    var user :- Refresh.UserRefreshRound2(sessionId, mint, jointPk, melted, tape);
    Round2Shape(sessionId, mint, jointPk, melted, tape);
    var (round2, state) := user;
    var challenge :- Refresh.MintRefreshRound3(sessionId, round2, jointPk);
    if honest {
      ChosenChallenge(sessionId, f, t, kTapes, mint, round2, state, challenge);
    }
    var round4 := Refresh.UserRefreshRound4(state, challenge);
    var opening := round4.value;
    if honest {
      HonestOpeningAccepted(sessionId, DEFAULT_KAPPA, mint, jointPk, round2, state, challenge);
    }
    var _ :- Refresh.MintRefreshVerifyReveal(round2, mint, challenge, opening, jointPk);
    var partials :- CollectRefreshPartials(finalised, t, sessionId, kTapes, round2, challenge, states, signingSet, f);
    if honest {
      DemoRound5(sessionId, f, t, kTapes, round2, challenge, partials);
      RefreshCompletes(sessionId, DEFAULT_KAPPA, UpTo(t), f, TapeMap(kTapes), ShareMap(f, t), mint, round2,
                       state, challenge, partials);
    }
    var response :- Refresh.AggregateRefreshRound5(sessionId, signingSet, partials);
    r := Refresh.UserRefreshRound6(state, challenge, response, jointPk);
  }

  // ---------------------------------------------------------------- the whole life cycle

  /** The scalars and seeds drawn by one issuance and by one refresh session. */
  datatype IssueTape = IssueTape(ks: seq<Scalar>, seed: Bytes32, alpha: Scalar, beta: Scalar)
  datatype SessionTape = SessionTape(ks: seq<seq<Scalar>>, user: Refresh.RefreshTape)

  /** Four validators with threshold three generate a key, issue a coin and refresh it. No step of the
      simulation can fail, and both coins verify under the generated key. */
  method LifecycleSim(dealings: seq<Dealing>, issue: IssueTape, session: SessionTape)
    returns (r: Result<(Bytes32, Coin, Coin)>)
    requires AllFit(dealings, VssParameters(4, 3)) && |issue.ks| == 3
    requires TapesFit(session.ks, 3, DEFAULT_KAPPA) && session.user.Sized(DEFAULT_KAPPA)
    ensures r.Ok?
    ensures var (jointPk, initial, refreshed) := r.value;
            && Dealt(DealingMap(dealings), VssParameters(4, 3))
            && jointPk == Compress(Base(PolyAt(JointPoly(VssParameters(4, 3), DealingMap(dealings)), 0)))
            && initial.Valid() && initial.Verify(jointPk) == Ok(true)
            && refreshed.Valid() && refreshed.Verify(jointPk) == Ok(true)
  {
    hide PolyAt, Red, Base, Compress, JointPoly, Coin.Valid, Coin.Verify, HonestKeys;
    var generated := RunDkg(4, 3, dealings);
    var finalised := generated.value;
    ghost var params := VssParameters(4, 3);
    ghost var f := JointPoly(params, DealingMap(dealings));
    FinalisationsHonest(params, f);
    var initial := IssueCoin(finalised, 3, ISSUE_SESSION, issue.ks, issue.seed, issue.alpha, issue.beta, f);
    var refreshed := RefreshCoin(finalised, 3, REFRESH_SESSION, initial.value, session.ks, session.user, f);
    r := Ok((finalised[0].jointPk, initial.value, refreshed.value));
  }
}
