/** Proactive share rotation: every validator deals a polynomial that vanishes at zero. */
module Rotation {
  import opened Wrappers
  import opened Lists
  import opened Field
  import opened Group
  import opened Polynomials
  import opened Vss

  datatype ReshareRound1Broadcast = ReshareRound1Broadcast(
    ceremonyId: Bytes16, fromIndex: u16, pedersen: VssCommitments, feldman: FeldmanCommitments)

  datatype ReshareRound1Private = ReshareRound1Private(
    ceremonyId: Bytes16, myIndex: u16, params: VssParameters)

  datatype ReshareRound1Output = ReshareRound1Output(
    broadcast: ReshareRound1Broadcast, priv: ReshareRound1Private, shares: seq<VssShare>)
  {
    ghost predicate WellFormed() {
      && priv.params.Valid()
      && 1 <= priv.myIndex <= priv.params.n
      && |shares| == priv.params.n
      && broadcast.feldman.coeffs != []
    }
  }

  datatype ResharePeerContribution = ResharePeerContribution(
    broadcast: ReshareRound1Broadcast, shareForMe: VssShare)

  datatype ReshareFinalised = ReshareFinalised(myIndex: u16, newShare: Scalar, qual: seq<u16>)

  // ---------------------------------------------------------------- round 1

  /** The scalars one dealer draws: the coefficients of f above the constant, which is zero, and
      those of g. */
  datatype ZeroDealing = ZeroDealing(fTail: seq<Scalar>, gTape: seq<Scalar>) {
    ghost predicate Fits(params: VssParameters) {
      params.Valid() && |fTail| == params.t - 1 && |gTape| == params.t
    }

    function F(): seq<Scalar> { [0] + fTail }
  }

  function Round1Of(ceremonyId: Bytes16, myIndex: u16, params: VssParameters, d: ZeroDealing)
    : ReshareRound1Output
    requires |d.fTail| + 1 == |d.gTape|
  {
    ReshareRound1Output(
      ReshareRound1Broadcast(ceremonyId, myIndex, VssCommitments(PedersenOf(d.F(), d.gTape)),
                             FeldmanCommitments(FeldmanOf(d.F()))),
      ReshareRound1Private(ceremonyId, myIndex, params),
      SharesOf(d.F(), d.gTape, params.n))
  }

  function ReshareStartResult(ceremonyId: Bytes16, myIndex: u16, params: VssParameters, d: ZeroDealing)
    : Result<ReshareRound1Output>
    requires |d.fTail| + 1 == |d.gTape|
  {
    if myIndex == 0 || myIndex > params.n then Err(UnknownParticipant)
    else Ok(Round1Of(ceremonyId, myIndex, params, d))
  }

  /** The source's debug assertion, that the dealt secret commitment is the identity, is proved. */
  method ReshareStart(ceremonyId: Bytes16, myIndex: u16, params: VssParameters, d: ZeroDealing)
    returns (r: Result<ReshareRound1Output>)
    requires d.Fits(params)
    ensures r == ReshareStartResult(ceremonyId, myIndex, params, d)
    ensures r.Ok? ==> r.value.WellFormed()
  {
    if myIndex == 0 || myIndex > params.n {
      return Err(UnknownParticipant);
    }
    var pedersen, feldman, shares := Deal(0, params, d.fTail, d.gTape);
    BaseZero();
    assert feldman.coeffs[0] == IDENTITY;
    var broadcast := ReshareRound1Broadcast(ceremonyId, myIndex, pedersen, feldman);
    r := Ok(ReshareRound1Output(broadcast, ReshareRound1Private(ceremonyId, myIndex, params), shares));
  }

  function VerifyReshareRound1(broadcast: ReshareRound1Broadcast): Result<()>
    requires broadcast.feldman.coeffs != []
  {
    if broadcast.feldman.coeffs[0] == IDENTITY then Ok(()) else Err(ResharePolyNonZero)
  }

  // ---------------------------------------------------------------- finalisation

  function Senders(received: seq<ResharePeerContribution>): (senders: seq<u16>)
    ensures |senders| == |received|
  {
    seq(|received|, j requires 0 <= j < |received| => received[j].broadcast.fromIndex)
  }

  function FShares(received: seq<ResharePeerContribution>): (fs: seq<Scalar>)
    ensures |fs| == |received|
  {
    seq(|received|, j requires 0 <= j < |received| => received[j].shareForMe.fShare)
  }

  ghost predicate Committed(received: seq<ResharePeerContribution>) {
    forall j :: 0 <= j < |received| ==> received[j].broadcast.feldman.coeffs != []
  }

  function CheckPeer(own: ReshareRound1Output, seen: seq<u16>, peer: ResharePeerContribution): Result<()>
    requires peer.broadcast.feldman.coeffs != []
  {
    if peer.broadcast.fromIndex == own.priv.myIndex then Err(DomainMismatch)
    else if peer.broadcast.fromIndex in seen then Err(DuplicateParticipant)
    else if peer.shareForMe.index != own.priv.myIndex then Err(DomainMismatch)
    else if peer.broadcast.ceremonyId != own.priv.ceremonyId then Err(DomainMismatch)
    else
      var _ :- VerifyReshareRound1(peer.broadcast);
      VerifyShareResult(peer.shareForMe, peer.broadcast.pedersen)
  }

  function CheckPeers(own: ReshareRound1Output, received: seq<ResharePeerContribution>): Result<()>
    requires Committed(received)
  {
    if received == [] then Ok(()) else
      var rest := received[..|received| - 1];
      var _ :- CheckPeers(own, rest);
      CheckPeer(own, [own.priv.myIndex] + Senders(rest), received[|received| - 1])
  }

  function ReshareFinalizeResult(
    own: ReshareRound1Output, oldShare: Scalar, received: seq<ResharePeerContribution>)
    : Result<ReshareFinalised>
    requires own.WellFormed() && Committed(received)
  {
    var myIndex := own.priv.myIndex;
    if |received| != own.priv.params.n - 1 then Err(InsufficientMessages) else
      var _ :- VerifyReshareRound1(own.broadcast);
      var _ :- CheckPeers(own, received);
      var delta := SumScalars(own.shares[myIndex - 1].fShare, FShares(received));
      Ok(ReshareFinalised(myIndex, Add(oldShare, delta), Sort([myIndex] + Senders(received))))
  }

  lemma {:induction false} CheckPeersStops(
      own: ReshareRound1Output, received: seq<ResharePeerContribution>, j: nat)
    requires j <= |received| && Committed(received)
    ensures CheckPeers(own, received[..j]).Err? ==>
              CheckPeers(own, received) == CheckPeers(own, received[..j])
    decreases |received|
  {
    if j == |received| {
      assert received[..j] == received;
    } else {
      var rest := received[..|received| - 1];
      assert rest[..j] == received[..j];
      CheckPeersStops(own, rest, j);
    }
  }

  /** The checking loop, which collects the indices seen. */
  method CheckContributions(own: ReshareRound1Output, received: seq<ResharePeerContribution>)
    returns (r: Result<seq<u16>>)
    requires Committed(received)
    ensures r == if CheckPeers(own, received).Err? then Err(CheckPeers(own, received).error)
                 else Ok([own.priv.myIndex] + Senders(received))
  {
    hide VerifyReshareRound1, VerifyShareResult;
    var myIndex := own.priv.myIndex;
    var seenIndices: seq<u16> := [myIndex];
    for j := 0 to |received|
      invariant seenIndices == [myIndex] + Senders(received[..j])
      invariant CheckPeers(own, received[..j]).Ok?
    {
      var peer := received[j];
      assert received[..j + 1][..j] == received[..j];
      CheckPeersStops(own, received, j + 1);
      if peer.broadcast.fromIndex == myIndex {
        return Err(DomainMismatch);
      }
      if peer.broadcast.fromIndex in seenIndices {
        return Err(DuplicateParticipant);
      }
      seenIndices := seenIndices + [peer.broadcast.fromIndex];
      if peer.shareForMe.index != myIndex {
        return Err(DomainMismatch);
      }
      if peer.broadcast.ceremonyId != own.priv.ceremonyId {
        return Err(DomainMismatch);
      }
      var zero := VerifyReshareRound1(peer.broadcast);
      if zero.Err? {
        return Err(zero.error);
      }
      var share := VerifyShare(peer.shareForMe, peer.broadcast.pedersen);
      if share.Err? {
        return Err(share.error);
      }
    }
    assert received[..|received|] == received;
    r := Ok(seenIndices);
  }

  method ReshareFinalize(
    own: ReshareRound1Output, oldShare: Scalar, received: seq<ResharePeerContribution>)
    returns (r: Result<ReshareFinalised>)
    requires own.WellFormed() && Committed(received)
    ensures r == ReshareFinalizeResult(own, oldShare, received)
  {
    hide VerifyShareResult, Add, Sort;
    var myIndex := own.priv.myIndex;
    if |received| != own.priv.params.n - 1 {
      return Err(InsufficientMessages);
    }
    var ownCheck := VerifyReshareRound1(own.broadcast);
    if ownCheck.Err? {
      return Err(ownCheck.error);
    }

    var seenIndices :- CheckContributions(own, received);

    var delta := own.shares[myIndex - 1].fShare;
    for j := 0 to |received|
      invariant delta == SumScalars(own.shares[myIndex - 1].fShare, FShares(received[..j]))
    {
      assert FShares(received[..j + 1])[..j] == FShares(received[..j]);
      delta := Add(delta, received[j].shareForMe.fShare);
    }
    assert received[..|received|] == received;
    r := Ok(ReshareFinalised(myIndex, Add(oldShare, delta), Sort(seenIndices)));
  }

  // ---------------------------------------------------------------- what finalisation accepts

  ghost predicate ValidPeer(own: ReshareRound1Output, peer: ResharePeerContribution) {
    && peer.broadcast.feldman.coeffs != [] && peer.broadcast.feldman.coeffs[0] == IDENTITY
    && peer.shareForMe.index == own.priv.myIndex
    && peer.broadcast.ceremonyId == own.priv.ceremonyId
    && VerifyShareResult(peer.shareForMe, peer.broadcast.pedersen).Ok?
  }

  lemma {:induction false} CheckPeersIff(own: ReshareRound1Output, received: seq<ResharePeerContribution>)
    requires Committed(received)
    ensures CheckPeers(own, received).Ok? <==>
            && Distinct([own.priv.myIndex] + Senders(received))
            && forall j :: 0 <= j < |received| ==> ValidPeer(own, received[j])
  {
    hide VerifyShareResult;
    var me := own.priv.myIndex;
    if received != [] {
      var rest, peer := received[..|received| - 1], received[|received| - 1];
      CheckPeersIff(own, rest);
      assert [me] + Senders(received) == [me] + Senders(rest) + [peer.broadcast.fromIndex];
      DistinctLast([me] + Senders(rest), peer.broadcast.fromIndex);
      assert forall j :: 0 <= j < |rest| ==> rest[j] == received[j];
    } else {
      assert [me] + Senders(received) == [] + [me];
      DistinctLast([], me);
    }
  }

  /** Finalisation succeeds iff there are n - 1 valid contributions from distinct other indices,
      each with the identity as secret commitment, and the validator's own is the identity too. */
  lemma ReshareAcceptedIff(
      own: ReshareRound1Output, oldShare: Scalar, received: seq<ResharePeerContribution>)
    requires own.WellFormed() && Committed(received)
    ensures ReshareFinalizeResult(own, oldShare, received).Ok? <==>
            && |received| == own.priv.params.n - 1
            && own.broadcast.feldman.coeffs[0] == IDENTITY
            && Distinct([own.priv.myIndex] + Senders(received))
            && forall j :: 0 <= j < |received| ==> ValidPeer(own, received[j])
  {
    hide ValidPeer, CheckPeers, SumScalars, Sort, Distinct;
    CheckPeersIff(own, received);
  }

  /** The error is that of the first bad contribution. */
  lemma PeerRefused(own: ReshareRound1Output, oldShare: Scalar, received: seq<ResharePeerContribution>, j: nat)
    requires own.WellFormed() && Committed(received) && |received| == own.priv.params.n - 1
    requires own.broadcast.feldman.coeffs[0] == IDENTITY
    requires j < |received| && CheckPeers(own, received[..j]).Ok?
    ensures var r, peer := ReshareFinalizeResult(own, oldShare, received), received[j];
            if peer.broadcast.fromIndex == own.priv.myIndex then r == Err(DomainMismatch)
            else if peer.broadcast.fromIndex in Senders(received[..j]) then r == Err(DuplicateParticipant)
            else if peer.shareForMe.index != own.priv.myIndex || peer.broadcast.ceremonyId != own.priv.ceremonyId
            then r == Err(DomainMismatch)
            else if peer.broadcast.feldman.coeffs[0] != IDENTITY then r == Err(ResharePolyNonZero)
            else VerifyShareResult(peer.shareForMe, peer.broadcast.pedersen).Err? ==> r == Err(VssShareInvalid)
  {
    hide SumScalars, Sort;
    CheckPeersStops(own, received, j + 1);
    assert received[..j + 1][..j] == received[..j];
  }

  /** What an accepted finalisation returns, whoever dealt: the old share plus the sum of all shares received, and
      everyone it heard from, in order. */
  lemma FinalisedIs(own: ReshareRound1Output, oldShare: Scalar, received: seq<ResharePeerContribution>)
    requires own.WellFormed() && Committed(received) && ReshareFinalizeResult(own, oldShare, received).Ok?
    ensures var v := ReshareFinalizeResult(own, oldShare, received).value;
            && v.myIndex == own.priv.myIndex
            && v.newShare == Red(oldShare + own.shares[v.myIndex - 1].fShare + Total(FShares(received)))
            && Sorted(v.qual) && Permutation(v.qual, [v.myIndex] + Senders(received))
  {
    hide CheckPeers, SumScalars, Sort, Sorted, Permutation, Red, Total;
    var mine := own.shares[own.priv.myIndex - 1].fShare;
    SumScalarsTotal(mine, FShares(received));
    RedOuter(oldShare, mine + Total(FShares(received)));
    RedScalar(oldShare);
    SortSorts([own.priv.myIndex] + Senders(received));
  }

  // ---------------------------------------------------------------- honest ceremonies

  ghost predicate Dealt(d: map<u16, ZeroDealing>, params: VssParameters) {
    params.Valid() && forall k: u16 :: 1 <= k <= params.n ==> k in d && d[k].Fits(params)
  }

  /** What validator `i` receives from peer `k` that dealt `d`. */
  ghost function Relayed(ceremonyId: Bytes16, i: u16, k: u16, params: VssParameters, d: ZeroDealing)
    : ResharePeerContribution
    requires d.Fits(params) && 1 <= i <= params.n
  {
    var round1 := Round1Of(ceremonyId, k, params, d);
    ResharePeerContribution(round1.broadcast, round1.shares[i - 1])
  }

  ghost function ContributionFrom(
    ceremonyId: Bytes16, i: u16, k: u16, params: VssParameters, d: map<u16, ZeroDealing>): ResharePeerContribution
    requires Dealt(d, params) && 1 <= i <= params.n && 1 <= k <= params.n
  {
    Relayed(ceremonyId, i, k, params, d[k])
  }

  /** `own` is the round-1 output of validator `i`, and `received` is what honest peers, listed in
      `order`, sent it. */
  ghost predicate HonestView(
    ceremonyId: Bytes16, i: u16, params: VssParameters, d: map<u16, ZeroDealing>, order: seq<u16>,
    own: ReshareRound1Output, received: seq<ResharePeerContribution>)
  {
    && Dealt(d, params) && 1 <= i <= params.n
    && Members(order, params) && Distinct(order) && i !in order
    && own == Round1Of(ceremonyId, i, params, d[i])
    && |received| == |order|
    && forall j :: 0 <= j < |order| ==>
         received[j] == ContributionFrom(ceremonyId, i, order[j], params, d)
  }

  ghost function DealtPolys(d: map<u16, ZeroDealing>): map<u16, seq<int>> {
    map k | k in d :: d[k].F()
  }

  /** The polynomial that one ceremony adds to the committee's sharing. */
  ghost function ZeroSum(params: VssParameters, d: map<u16, ZeroDealing>): (f: seq<int>)
    requires Dealt(d, params)
    ensures |f| == params.t
  {
    UpToElements(params.n);
    PolySum(UpTo(params.n), DealtPolys(d), params.t)
  }

  lemma HonestContribution(
      ceremonyId: Bytes16, i: u16, k: u16, params: VssParameters, d: map<u16, ZeroDealing>)
    requires Dealt(d, params) && 1 <= i <= params.n && 1 <= k <= params.n
    ensures var own := Round1Of(ceremonyId, i, params, d[i]);
            var peer := ContributionFrom(ceremonyId, i, k, params, d);
            && peer.broadcast.fromIndex == k
            && ValidPeer(own, peer) && peer.broadcast.feldman.coeffs != []
            && peer.shareForMe.fShare == Red(At(ValuesAt(DealtPolys(d), i), k))
  {
    hide Base, VerifyShareResult, PedersenOf, PolyAt, Red, Horner;
    BaseZero();
    DealtShareVerifies(d[k].F(), d[k].gTape, i);
    HornerIsPolyAt(d[k].F(), i);
  }

  lemma HonestOwn(
      ceremonyId: Bytes16, i: u16, params: VssParameters, d: map<u16, ZeroDealing>)
    requires Dealt(d, params) && 1 <= i <= params.n
    ensures var own := Round1Of(ceremonyId, i, params, d[i]);
            && own.WellFormed() && own.priv.params == params && own.priv.myIndex == i
            && own.broadcast.feldman.coeffs != [] && |own.shares| == params.n
            && own.broadcast.feldman.coeffs[0] == IDENTITY
            && own.shares[i - 1].fShare == Red(At(ValuesAt(DealtPolys(d), i), i))
  {
    hide Red, VerifyShareResult, ValuesAt;
    HonestContribution(ceremonyId, i, i, params, d);
  }

  lemma HonestViewMeans(
      ceremonyId: Bytes16, i: u16, params: VssParameters, d: map<u16, ZeroDealing>, order: seq<u16>,
      own: ReshareRound1Output, received: seq<ResharePeerContribution>)
    requires HonestView(ceremonyId, i, params, d, order, own, received)
    ensures Dealt(d, params) && 1 <= i <= params.n && i in d
    ensures Members(order, params) && Distinct(order) && i !in order
    ensures |d[i].fTail| + 1 == |d[i].gTape| && own == Round1Of(ceremonyId, i, params, d[i])
    ensures |received| == |order|
  {
  }

  lemma HonestPeers(
      ceremonyId: Bytes16, i: u16, params: VssParameters, d: map<u16, ZeroDealing>, order: seq<u16>,
      own: ReshareRound1Output, received: seq<ResharePeerContribution>)
    requires HonestView(ceremonyId, i, params, d, order, own, received)
    ensures Committed(received) && Senders(received) == order
    ensures forall j :: 0 <= j < |received| ==> ValidPeer(own, received[j])
    ensures forall j :: 0 <= j < |received| ==>
              FShares(received)[j] == Red(At(ValuesAt(DealtPolys(d), i), order[j]))
  {
    hide Red, ValidPeer, ValuesAt, ContributionFrom, Round1Of, Distinct;
    forall j | 0 <= j < |received|
      ensures received[j].broadcast.feldman.coeffs != [] && received[j].broadcast.fromIndex == order[j]
      ensures ValidPeer(own, received[j])
      ensures received[j].shareForMe.fShare == Red(At(ValuesAt(DealtPolys(d), i), order[j]))
    {
      HonestContribution(ceremonyId, i, order[j], params, d);
    }
    assert Senders(received) == order;
  }

  lemma ZeroSumAt(
      i: u16, params: VssParameters, d: map<u16, ZeroDealing>, order: seq<u16>, x: int)
    requires Dealt(d, params) && Permutation([i] + order, UpTo(params.n))
    ensures var v := ValuesAt(DealtPolys(d), x);
            PolyAt(ZeroSum(params, d), x) == At(v, i) + SumOver(order, v)
  {
    var v := ValuesAt(DealtPolys(d), x);
    UpToElements(params.n);
    PolySumAt(UpTo(params.n), DealtPolys(d), params.t, x);
    hide ValuesAt;
    SumFirst(i, order, v);
    SumPermutation([i] + order, UpTo(params.n), v);
  }

  lemma {:induction false} SumOfZeros(order: seq<u16>, v: map<u16, int>)
    requires forall k :: k in order ==> At(v, k) == 0
    ensures SumOver(order, v) == 0
  {
    if order != [] {
      assert order == order[..|order| - 1] + [order[|order| - 1]];
      SumOfZeros(order[..|order| - 1], v);
    }
  }

  /** What a ceremony adds vanishes at zero, so the joint secret stays. */
  lemma ZeroSumVanishes(params: VssParameters, d: map<u16, ZeroDealing>)
    requires Dealt(d, params)
    ensures PolyAt(ZeroSum(params, d), 0) == 0
  {
    var v, polys := ValuesAt(DealtPolys(d), 0), DealtPolys(d);
    UpToElements(params.n);
    PolySumAt(UpTo(params.n), polys, params.t, 0);
    forall k | k in UpTo(params.n)
      ensures At(v, k) == 0
    {
      PolyAtZero(polys[k]);
    }
    SumOfZeros(UpTo(params.n), v);
  }

  lemma FinalizeSteps(
      own: ReshareRound1Output, oldShare: Scalar, received: seq<ResharePeerContribution>, i: u16,
      delta: Scalar, senders: seq<u16>, qual: seq<u16>)
    requires own.WellFormed() && Committed(received) && 1 <= i <= |own.shares|
    requires own.priv.myIndex == i && |received| == own.priv.params.n - 1
    requires own.broadcast.feldman.coeffs[0] == IDENTITY && CheckPeers(own, received).Ok?
    requires SumScalars(own.shares[i - 1].fShare, FShares(received)) == delta
    requires Senders(received) == senders && Sort([i] + senders) == qual
    ensures ReshareFinalizeResult(own, oldShare, received) ==
            Ok(ReshareFinalised(i, Add(oldShare, delta), qual))
  {
  }

  /** Reshare correctness: with honest dealers every validator that finalises adds the value at its
      index of one polynomial that is the same for all and vanishes at zero. */
  lemma ReshareCorrect(
      ceremonyId: Bytes16, i: u16, params: VssParameters, d: map<u16, ZeroDealing>, order: seq<u16>,
      own: ReshareRound1Output, oldShare: Scalar, received: seq<ResharePeerContribution>)
    requires HonestView(ceremonyId, i, params, d, order, own, received)
    requires |order| == params.n - 1
    ensures Dealt(d, params) && own.WellFormed() && Committed(received)
    ensures ReshareFinalizeResult(own, oldShare, received) ==
            Ok(ReshareFinalised(i, Red(oldShare + PolyAt(ZeroSum(params, d), i)), UpTo(params.n)))
    ensures PolyAt(ZeroSum(params, d), 0) == 0
  {
    hide *;
    HonestViewMeans(ceremonyId, i, params, d, order, own, received);
    var mine := ValuesAt(DealtPolys(d), i);
    var value := PolyAt(ZeroSum(params, d), i);
    HonestOwn(ceremonyId, i, params, d);
    HonestPeers(ceremonyId, i, params, d, order, own, received);
    EveryoneElse(i, params, order);
    CheckPeersIff(own, received);
    ZeroSumAt(i, params, d, order, i);
    SumScalarsRed(own.shares[i - 1].fShare, At(mine, i), FShares(received), order, mine);
    SortRange([i] + order, params.n);
    FinalizeSteps(own, oldShare, received, i, Red(value), order, UpTo(params.n));
    AddReduced(oldShare, value);
    ZeroSumVanishes(params, d);
  }

  lemma AddReduced(s: Scalar, x: int)
    ensures Add(s, Red(x)) == Red(s + x)
  {
    hide Red;
    RedInner(x, s);
  }
}
