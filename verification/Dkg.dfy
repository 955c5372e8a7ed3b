/** Distributed key generation for one validator. */
module Dkg {
  import opened Wrappers
  import opened Lists
  import opened Octets
  import opened Borsh
  import opened Field
  import opened Group
  import opened Schnorr
  import opened Polynomials
  import opened Vss

  // ---------------------------------------------------------------- messages

  datatype DkgRound1Broadcast = DkgRound1Broadcast(
    ceremonyId: Bytes16, fromIndex: u16,
    pedersen: VssCommitments, feldman: FeldmanCommitments, pok: Signature)

  datatype DkgRound1Private = DkgRound1Private(
    ceremonyId: Bytes16, myIndex: u16, params: VssParameters, mySecret: Scalar)

  datatype DkgRound1Output = DkgRound1Output(
    broadcast: DkgRound1Broadcast, priv: DkgRound1Private, shares: seq<VssShare>)
  {
    /** What `dkg_start` guarantees and indexing relies on. */
    ghost predicate WellFormed() {
      && priv.params.Valid()
      && 1 <= priv.myIndex <= priv.params.n
      && |shares| == priv.params.n
      && broadcast.feldman.coeffs != []
    }
  }

  datatype PeerContribution = PeerContribution(broadcast: DkgRound1Broadcast, shareForMe: VssShare)

  datatype DkgFinalised = DkgFinalised(
    myIndex: u16, jointPk: Bytes32, myShare: Scalar, qual: seq<u16>)

  /** The message a dealer signs to prove knowledge of its secret. */
  function BuildPokMsg(ceremonyId: Bytes16, fromIndex: u16): seq<u8> {
    Ascii("tardus-ceremony-v1") + Ascii(":dkg-pok:") + Le(16, ceremonyId) + Le(2, fromIndex)
  }

  /** A proof for one ceremony and dealer signs a message of no other ceremony or dealer. */
  lemma PokMsgBinds(c1: Bytes16, i1: u16, c2: Bytes16, i2: u16)
    requires BuildPokMsg(c1, i1) == BuildPokMsg(c2, i2)
    ensures c1 == c2 && i1 == i2
  {
    var prefix := Ascii("tardus-ceremony-v1") + Ascii(":dkg-pok:");
    var m1, m2 := BuildPokMsg(c1, i1), BuildPokMsg(c2, i2);
    var p := |prefix|;
    assert m1[p..p + 16] == Le(16, c1) && m2[p..p + 16] == Le(16, c2);
    assert m1[p + 16..] == Le(2, i1) && m2[p + 16..] == Le(2, i2);
    Widths();
    LeInjective(16, c1, c2);
    LeInjective(2, i1, i2);
  }

  // ---------------------------------------------------------------- round 1

  /** The scalars one dealer draws: its secret, the other coefficients of f, the coefficients of g
      and the nonce of its proof of knowledge. */
  datatype Dealing = Dealing(secret: Scalar, fTail: seq<Scalar>, gTape: seq<Scalar>, nonce: Scalar) {
    ghost predicate Fits(params: VssParameters) {
      params.Valid() && |fTail| == params.t - 1 && |gTape| == params.t
    }

    function F(): seq<Scalar> { [secret] + fTail }
  }

  function Round1Of(ceremonyId: Bytes16, myIndex: u16, params: VssParameters, d: Dealing)
    : DkgRound1Output
    requires |d.fTail| + 1 == |d.gTape|
  {
    var pk := Compress(Base(d.secret));
    var pok := SchnorrSign(d.secret, pk, BuildPokMsg(ceremonyId, myIndex), d.nonce);
    DkgRound1Output(
      DkgRound1Broadcast(ceremonyId, myIndex, VssCommitments(PedersenOf(d.F(), d.gTape)),
                         FeldmanCommitments(FeldmanOf(d.F())), pok),
      DkgRound1Private(ceremonyId, myIndex, params, d.secret),
      SharesOf(d.F(), d.gTape, params.n))
  }

  function DkgStartResult(ceremonyId: Bytes16, myIndex: u16, params: VssParameters, d: Dealing)
    : Result<DkgRound1Output>
    requires |d.fTail| + 1 == |d.gTape|
  {
    if myIndex == 0 || myIndex > params.n then Err(UnknownParticipant)
    else Ok(Round1Of(ceremonyId, myIndex, params, d))
  }

  method DkgStart(ceremonyId: Bytes16, myIndex: u16, params: VssParameters, d: Dealing)
    returns (r: Result<DkgRound1Output>)
    requires d.Fits(params)
    ensures r == DkgStartResult(ceremonyId, myIndex, params, d)
    ensures r.Ok? ==> r.value.WellFormed()
  {
    if myIndex == 0 || myIndex > params.n {
      return Err(UnknownParticipant);
    }
    var pedersen, feldman, shares := Deal(d.secret, params, d.fTail, d.gTape);
    var pkBytes := Compress(feldman.coeffs[0]);
    var pok := SchnorrSign(d.secret, pkBytes, BuildPokMsg(ceremonyId, myIndex), d.nonce);
    var broadcast := DkgRound1Broadcast(ceremonyId, myIndex, pedersen, feldman, pok);
    r := Ok(DkgRound1Output(broadcast, DkgRound1Private(ceremonyId, myIndex, params, d.secret), shares));
  }

  function VerifyRound1Pok(broadcast: DkgRound1Broadcast): Result<()>
    requires broadcast.feldman.coeffs != []
  {
    var pk :- PublicKeyFromBytes(Compress(broadcast.feldman.coeffs[0]));
    var ok :- SchnorrVerify(pk, BuildPokMsg(broadcast.ceremonyId, broadcast.fromIndex), broadcast.pok);
    if ok then Ok(()) else Err(PokInvalid)
  }

  /** The dealer proved that it knows the logarithm of its torsion-free secret commitment: the proof is a signature
      under that commitment on the ceremony and the dealer. */
  ghost predicate Proved(b: DkgRound1Broadcast) {
    && b.feldman.coeffs != [] && b.feldman.coeffs[0] % 8 == 0 && Decompress(b.pok.r).Ok? && b.pok.s < Q
    && var c := CHALLENGE(b.pok.r, Compress(b.feldman.coeffs[0]), BuildPokMsg(b.ceremonyId, b.fromIndex));
       var r: int, a: int := Decompress(b.pok.r).value, b.feldman.coeffs[0];
       (8 * b.pok.s - r - c * a) % (8 * Q) == 0
  }

  lemma PokIff(b: DkgRound1Broadcast)
    requires b.feldman.coeffs != []
    ensures VerifyRound1Pok(b).Ok? <==> Proved(b)
  {
    hide SchnorrVerify, BuildPokMsg, Compress;
    var pk := Compress(b.feldman.coeffs[0]);
    DecompressCompress(b.feldman.coeffs[0]);
    VerifiesIff(pk, BuildPokMsg(b.ceremonyId, b.fromIndex), b.pok);
  }

  /** The signed message is a domain separator, the ceremony and the dealer's index in two bytes. */
  lemma PokMsgLayout(ceremonyId: Bytes16, fromIndex: u16)
    ensures var m := BuildPokMsg(ceremonyId, fromIndex);
            && |m| == 45 && FieldAt(m, 0, Ascii("tardus-ceremony-v1:dkg-pok:"))
            && FieldAt(m, 27, Le(16, ceremonyId)) && FieldAt(m, 43, Le(2, fromIndex))
  {
    hide Le;
    assert Ascii("tardus-ceremony-v1") + Ascii(":dkg-pok:") == Ascii("tardus-ceremony-v1:dkg-pok:");
  }

  // ---------------------------------------------------------------- finalisation

  function Senders(received: seq<PeerContribution>): (senders: seq<u16>)
    ensures |senders| == |received|
  {
    seq(|received|, j requires 0 <= j < |received| => received[j].broadcast.fromIndex)
  }

  ghost predicate Committed(received: seq<PeerContribution>) {
    forall j :: 0 <= j < |received| ==> received[j].broadcast.feldman.coeffs != []
  }

  /** The checks on one contribution, given the indices seen so far. */
  function CheckPeer(own: DkgRound1Output, seen: seq<u16>, peer: PeerContribution): Result<()>
    requires peer.broadcast.feldman.coeffs != []
  {
    if peer.broadcast.fromIndex == own.priv.myIndex then Err(DomainMismatch)
    else if peer.broadcast.fromIndex in seen then Err(DuplicateParticipant)
    else if peer.shareForMe.index != own.priv.myIndex then Err(DomainMismatch)
    else if peer.broadcast.ceremonyId != own.priv.ceremonyId then Err(DomainMismatch)
    else
      var _ :- VerifyRound1Pok(peer.broadcast);
      VerifyShareResult(peer.shareForMe, peer.broadcast.pedersen)
  }

  function CheckPeers(own: DkgRound1Output, received: seq<PeerContribution>): Result<()>
    requires Committed(received)
  {
    if received == [] then Ok(()) else
      var rest := received[..|received| - 1];
      var _ :- CheckPeers(own, rest);
      CheckPeer(own, [own.priv.myIndex] + Senders(rest), received[|received| - 1])
  }

  function SecretCommitments(received: seq<PeerContribution>): (ps: seq<Point>)
    requires Committed(received)
    ensures |ps| == |received|
  {
    seq(|received|, j requires 0 <= j < |received| => received[j].broadcast.feldman.coeffs[0])
  }

  function FShares(received: seq<PeerContribution>): (fs: seq<Scalar>)
    ensures |fs| == |received|
  {
    seq(|received|, j requires 0 <= j < |received| => received[j].shareForMe.fShare)
  }

  function DkgFinalizeResult(own: DkgRound1Output, received: seq<PeerContribution>)
    : Result<DkgFinalised>
    requires own.WellFormed() && Committed(received)
  {
    var myIndex := own.priv.myIndex;
    if |received| != own.priv.params.n - 1 then Err(InsufficientMessages) else
      var _ :- VerifyRound1Pok(own.broadcast);
      var _ :- CheckPeers(own, received);
      var joint := SumPoints(own.broadcast.feldman.coeffs[0], SecretCommitments(received));
      var jointPk :- PublicKeyFromBytes(Compress(joint));
      var myShare := SumScalars(own.shares[myIndex - 1].fShare, FShares(received));
      Ok(DkgFinalised(myIndex, jointPk, myShare, Sort([myIndex] + Senders(received))))
  }

  lemma {:induction false} CheckPeersStops(own: DkgRound1Output, received: seq<PeerContribution>, j: nat)
    requires j <= |received| && Committed(received)
    ensures CheckPeers(own, received[..j]).Err? ==>
              CheckPeers(own, received) == CheckPeers(own, received[..j])
    decreases |received|
  {
    if j == |received| {
      assert received[..j] == received;
    } else {
      var rest := received[..|received| - 1];
      assert rest[..j] == received[..j];
      CheckPeersStops(own, rest, j);
    }
  }

  /** The checking loop, which collects the indices seen. */
  method CheckContributions(own: DkgRound1Output, received: seq<PeerContribution>)
    returns (r: Result<seq<u16>>)
    requires Committed(received)
    ensures r == if CheckPeers(own, received).Err? then Err(CheckPeers(own, received).error)
                 else Ok([own.priv.myIndex] + Senders(received))
  {
    hide VerifyRound1Pok, VerifyShareResult;
    var myIndex := own.priv.myIndex;
    var seenIndices: seq<u16> := [myIndex];
    for j := 0 to |received|
      invariant seenIndices == [myIndex] + Senders(received[..j])
      invariant CheckPeers(own, received[..j]).Ok?
    {
      var peer := received[j];
      assert received[..j + 1][..j] == received[..j];
      CheckPeersStops(own, received, j + 1);
      if peer.broadcast.fromIndex == myIndex {
        return Err(DomainMismatch);
      }
      if peer.broadcast.fromIndex in seenIndices {
        return Err(DuplicateParticipant);
      }
      seenIndices := seenIndices + [peer.broadcast.fromIndex];
      if peer.shareForMe.index != myIndex {
        return Err(DomainMismatch);
      }
      if peer.broadcast.ceremonyId != own.priv.ceremonyId {
        return Err(DomainMismatch);
      }
      var pok := VerifyRound1Pok(peer.broadcast);
      if pok.Err? {
        return Err(pok.error);
      }
      var share := VerifyShare(peer.shareForMe, peer.broadcast.pedersen);
      if share.Err? {
        return Err(share.error);
      }
    }
    assert received[..|received|] == received;
    r := Ok(seenIndices);
  }

  /** The loop that adds the peers' secret commitments. */
  method JointPoint(first: Point, received: seq<PeerContribution>) returns (sum: Point)
    requires Committed(received)
    ensures sum == SumPoints(first, SecretCommitments(received))
  {
    hide PointAdd;
    sum := first;
    for j := 0 to |received|
      invariant sum == SumPoints(first, SecretCommitments(received[..j]))
    {
      assert SecretCommitments(received[..j + 1])[..j] == SecretCommitments(received[..j]);
      sum := PointAdd(sum, received[j].broadcast.feldman.coeffs[0]);
    }
    assert received[..|received|] == received;
  }

  /** The loop that adds the peers' shares. */
  method SumShares(first: Scalar, received: seq<PeerContribution>) returns (sum: Scalar)
    ensures sum == SumScalars(first, FShares(received))
  {
    hide Add;
    sum := first;
    for j := 0 to |received|
      invariant sum == SumScalars(first, FShares(received[..j]))
    {
      assert FShares(received[..j + 1])[..j] == FShares(received[..j]);
      sum := Add(sum, received[j].shareForMe.fShare);
    }
    assert received[..|received|] == received;
  }

  method DkgFinalize(own: DkgRound1Output, received: seq<PeerContribution>)
    returns (r: Result<DkgFinalised>)
    requires own.WellFormed() && Committed(received)
    ensures r == DkgFinalizeResult(own, received)
  {
    hide VerifyRound1Pok, PublicKeyFromBytes, CheckPeers, SumPoints, SumScalars, Compress, Sort;
    var myIndex := own.priv.myIndex;
    if |received| != own.priv.params.n - 1 {
      return Err(InsufficientMessages);
    }
    var ownPok := VerifyRound1Pok(own.broadcast);
    if ownPok.Err? {
      return Err(ownPok.error);
    }

    var seenIndices :- CheckContributions(own, received);

    var jointPoint := JointPoint(own.broadcast.feldman.coeffs[0], received);
    var jointPk := PublicKeyFromBytes(Compress(jointPoint));
    if jointPk.Err? {
      return Err(jointPk.error);
    }

    var sumF := SumShares(own.shares[myIndex - 1].fShare, received);
    r := Ok(DkgFinalised(myIndex, jointPk.value, sumF, Sort(seenIndices)));
  }

  // ---------------------------------------------------------------- what finalisation accepts

  /** A contribution to this ceremony for this validator, proved and verified. */
  ghost predicate ValidPeer(own: DkgRound1Output, peer: PeerContribution) {
    && peer.broadcast.feldman.coeffs != []
    && peer.shareForMe.index == own.priv.myIndex
    && peer.broadcast.ceremonyId == own.priv.ceremonyId
    && Proved(peer.broadcast)
    && VerifyShareResult(peer.shareForMe, peer.broadcast.pedersen).Ok?
  }

  lemma {:induction false} CheckPeersIff(own: DkgRound1Output, received: seq<PeerContribution>)
    requires Committed(received)
    ensures CheckPeers(own, received).Ok? <==>
            && Distinct([own.priv.myIndex] + Senders(received))
            && forall j :: 0 <= j < |received| ==> ValidPeer(own, received[j])
  {
    hide VerifyRound1Pok, VerifyShareResult, Proved;
    var me := own.priv.myIndex;
    if received != [] {
      var rest, peer := received[..|received| - 1], received[|received| - 1];
      CheckPeersIff(own, rest);
      PokIff(peer.broadcast);
      assert [me] + Senders(received) == [me] + Senders(rest) + [peer.broadcast.fromIndex];
      DistinctLast([me] + Senders(rest), peer.broadcast.fromIndex);
      assert forall j :: 0 <= j < |rest| ==> rest[j] == received[j];
    } else {
      assert [me] + Senders(received) == [] + [me];
      DistinctLast([], me);
    }
  }

  /** Finalisation succeeds iff there are n - 1 valid contributions from distinct other indices,
      the validator's own proof verifies and the sum of the secret commitments is torsion-free. */
  lemma DkgAcceptedIff(own: DkgRound1Output, received: seq<PeerContribution>)
    requires own.WellFormed() && Committed(received)
    ensures DkgFinalizeResult(own, received).Ok? <==>
            && |received| == own.priv.params.n - 1
            && Proved(own.broadcast)
            && Distinct([own.priv.myIndex] + Senders(received))
            && (forall j :: 0 <= j < |received| ==> ValidPeer(own, received[j]))
            && TorsionFree(SumPoints(own.broadcast.feldman.coeffs[0], SecretCommitments(received)))
  {
    hide VerifyRound1Pok, Proved, ValidPeer, CheckPeers, SumPoints, SumScalars, Sort, Distinct;
    CheckPeersIff(own, received);
    PokIff(own.broadcast);
    DecompressCompress(SumPoints(own.broadcast.feldman.coeffs[0], SecretCommitments(received)));
  }

  /** The error is that of the first bad contribution: one in the validator's own name or a repeated sender's first,
      then one for another receiver or ceremony, then a bad proof, then a bad share. */
  lemma PeerRefused(own: DkgRound1Output, received: seq<PeerContribution>, j: nat)
    requires own.WellFormed() && Committed(received) && |received| == own.priv.params.n - 1
    requires Proved(own.broadcast)
    requires j < |received| && CheckPeers(own, received[..j]).Ok?
    ensures var r, peer := DkgFinalizeResult(own, received), received[j];
            if peer.broadcast.fromIndex == own.priv.myIndex then r == Err(DomainMismatch)
            else if peer.broadcast.fromIndex in Senders(received[..j]) then r == Err(DuplicateParticipant)
            else if peer.shareForMe.index != own.priv.myIndex || peer.broadcast.ceremonyId != own.priv.ceremonyId
            then r == Err(DomainMismatch)
            else if !Proved(peer.broadcast) then r.Err?
            else VerifyShareResult(peer.shareForMe, peer.broadcast.pedersen).Err? ==> r == Err(VssShareInvalid)
  {
    hide VerifyRound1Pok, Proved, SumPoints, SumScalars, Sort;
    CheckPeersStops(own, received, j + 1);
    assert received[..j + 1][..j] == received[..j];
    PokIff(own.broadcast);
    PokIff(received[j].broadcast);
  }

  /** What an accepted finalisation returns, whoever dealt: the group's sum of all secret commitments as the key, the
      sum of all shares, and everyone it heard from, in order. */
  lemma FinalisedIs(own: DkgRound1Output, received: seq<PeerContribution>)
    requires own.WellFormed() && Committed(received) && DkgFinalizeResult(own, received).Ok?
    ensures var v := DkgFinalizeResult(own, received).value;
            && v.myIndex == own.priv.myIndex
            && Decompress(v.jointPk) ==
               Ok((own.broadcast.feldman.coeffs[0] + Total(SecretCommitments(received))) % (8 * Q))
            && v.myShare == Red(own.shares[v.myIndex - 1].fShare + Total(FShares(received)))
            && Sorted(v.qual) && Permutation(v.qual, [v.myIndex] + Senders(received))
  {
    hide VerifyRound1Pok, CheckPeers, SumPoints, SumScalars, Sort, Sorted, Permutation, Red, Total;
    var first := own.broadcast.feldman.coeffs[0];
    DecompressCompress(SumPoints(first, SecretCommitments(received)));
    SumPointsTotal(first, SecretCommitments(received));
    SumScalarsTotal(own.shares[own.priv.myIndex - 1].fShare, FShares(received));
    SortSorts([own.priv.myIndex] + Senders(received));
  }

  // ---------------------------------------------------------------- honest ceremonies

  /** One dealing per validator of a ceremony. */
  ghost predicate Dealt(d: map<u16, Dealing>, params: VssParameters) {
    params.Valid() && forall k: u16 :: 1 <= k <= params.n ==> k in d && d[k].Fits(params)
  }

  /** What validator `i` receives from peer `k` that dealt `d`. */
  ghost function Relayed(ceremonyId: Bytes16, i: u16, k: u16, params: VssParameters, d: Dealing): PeerContribution
    requires d.Fits(params) && 1 <= i <= params.n
  {
    var round1 := Round1Of(ceremonyId, k, params, d);
    PeerContribution(round1.broadcast, round1.shares[i - 1])
  }

  ghost function ContributionFrom(
    ceremonyId: Bytes16, i: u16, k: u16, params: VssParameters, d: map<u16, Dealing>): PeerContribution
    requires Dealt(d, params) && 1 <= i <= params.n && 1 <= k <= params.n
  {
    Relayed(ceremonyId, i, k, params, d[k])
  }

  /** `own` is the round-1 output of validator `i`, and `received` is what honest peers, listed in
      `order`, sent it. */
  ghost predicate HonestView(
    ceremonyId: Bytes16, i: u16, params: VssParameters, d: map<u16, Dealing>, order: seq<u16>,
    own: DkgRound1Output, received: seq<PeerContribution>)
  {
    && Dealt(d, params) && 1 <= i <= params.n
    && Members(order, params) && Distinct(order) && i !in order
    && own == Round1Of(ceremonyId, i, params, d[i])
    && |received| == |order|
    && forall j :: 0 <= j < |order| ==>
         received[j] == ContributionFrom(ceremonyId, i, order[j], params, d)
  }

  ghost function DealtPolys(d: map<u16, Dealing>): map<u16, seq<int>> {
    map k | k in d :: d[k].F()
  }

  /** The polynomial shared by the whole committee: the sum of all dealt polynomials. */
  ghost function JointPoly(params: VssParameters, d: map<u16, Dealing>): (f: seq<int>)
    requires Dealt(d, params)
    ensures |f| == params.t
  {
    UpToElements(params.n);
    PolySum(UpTo(params.n), DealtPolys(d), params.t)
  }

  lemma HonestPokVerifies(ceremonyId: Bytes16, k: u16, params: VssParameters, d: Dealing)
    requires d.Fits(params)
    ensures Round1Of(ceremonyId, k, params, d).broadcast.feldman.coeffs[0] == Base(d.secret)
    ensures VerifyRound1Pok(Round1Of(ceremonyId, k, params, d).broadcast).Ok?
  {
    hide Base, Compress, SchnorrSign, SchnorrVerify, PublicKeyFromBytes, BuildPokMsg;
    SignThenVerify(d.secret, BuildPokMsg(ceremonyId, k), d.nonce);
    HonestPublicKey(d.secret);
  }

  /** The parts of an honest contribution that finalisation uses. */
  lemma HonestContribution(
      ceremonyId: Bytes16, i: u16, k: u16, params: VssParameters, d: map<u16, Dealing>)
    requires Dealt(d, params) && 1 <= i <= params.n && 1 <= k <= params.n
    ensures var own := Round1Of(ceremonyId, i, params, d[i]);
            var peer := ContributionFrom(ceremonyId, i, k, params, d);
            && peer.broadcast.fromIndex == k
            && ValidPeer(own, peer) && peer.broadcast.feldman.coeffs != []
            && peer.broadcast.feldman.coeffs[0] == Base(At(ValuesAt(DealtPolys(d), 0), k))
            && peer.shareForMe.fShare == Red(At(ValuesAt(DealtPolys(d), i), k))
  {
    hide Base, Compress, SchnorrSign, VerifyRound1Pok, Proved, VerifyShareResult, FeldmanOf, PedersenOf,
      PolyAt, Red, Horner;
    HonestPokVerifies(ceremonyId, k, params, d[k]);
    PokIff(Round1Of(ceremonyId, k, params, d[k]).broadcast);
    DealtShareVerifies(d[k].F(), d[k].gTape, i);
    HornerIsPolyAt(d[k].F(), i);
    PolyAtZero(d[k].F());
  }

  lemma HonestOwn(
      ceremonyId: Bytes16, i: u16, params: VssParameters, d: map<u16, Dealing>)
    requires Dealt(d, params) && 1 <= i <= params.n
    ensures var own := Round1Of(ceremonyId, i, params, d[i]);
            && own.WellFormed() && own.priv.params == params && own.priv.myIndex == i
            && own.broadcast.feldman.coeffs != [] && |own.shares| == params.n
            && VerifyRound1Pok(own.broadcast).Ok?
            && own.broadcast.feldman.coeffs[0] == Base(At(ValuesAt(DealtPolys(d), 0), i))
            && own.shares[i - 1].fShare == Red(At(ValuesAt(DealtPolys(d), i), i))
  {
    hide Base, Red, VerifyRound1Pok, VerifyShareResult, ValuesAt, SchnorrSign, Compress;
    HonestContribution(ceremonyId, i, i, params, d);
    HonestPokVerifies(ceremonyId, i, params, d[i]);
  }

  lemma HonestViewMeans(
      ceremonyId: Bytes16, i: u16, params: VssParameters, d: map<u16, Dealing>, order: seq<u16>,
      own: DkgRound1Output, received: seq<PeerContribution>)
    requires HonestView(ceremonyId, i, params, d, order, own, received)
    ensures Dealt(d, params) && 1 <= i <= params.n && i in d
    ensures Members(order, params) && Distinct(order) && i !in order
    ensures |d[i].fTail| + 1 == |d[i].gTape| && own == Round1Of(ceremonyId, i, params, d[i])
    ensures |received| == |order|
  {
  }

  lemma HonestPeers(
      ceremonyId: Bytes16, i: u16, params: VssParameters, d: map<u16, Dealing>, order: seq<u16>,
      own: DkgRound1Output, received: seq<PeerContribution>)
    requires HonestView(ceremonyId, i, params, d, order, own, received)
    ensures Committed(received) && Senders(received) == order
    ensures forall j :: 0 <= j < |received| ==> ValidPeer(own, received[j])
    ensures forall j :: 0 <= j < |received| ==>
              SecretCommitments(received)[j] == Base(At(ValuesAt(DealtPolys(d), 0), order[j]))
    ensures forall j :: 0 <= j < |received| ==>
              FShares(received)[j] == Red(At(ValuesAt(DealtPolys(d), i), order[j]))
  {
    hide Base, Red, ValidPeer, ValuesAt, ContributionFrom, Round1Of, Distinct;
    forall j | 0 <= j < |received|
      ensures received[j].broadcast.feldman.coeffs != [] && received[j].broadcast.fromIndex == order[j]
      ensures ValidPeer(own, received[j])
      ensures received[j].broadcast.feldman.coeffs[0] == Base(At(ValuesAt(DealtPolys(d), 0), order[j]))
      ensures received[j].shareForMe.fShare == Red(At(ValuesAt(DealtPolys(d), i), order[j]))
    {
      HonestContribution(ceremonyId, i, order[j], params, d);
    }
    assert Senders(received) == order;
  }

  /** The values of all dealt polynomials at a point add up to the value of their sum. */
  lemma JointPolyAt(i: u16, params: VssParameters, d: map<u16, Dealing>, order: seq<u16>, x: int)
    requires Dealt(d, params) && Permutation([i] + order, UpTo(params.n))
    ensures var v := ValuesAt(DealtPolys(d), x);
            PolyAt(JointPoly(params, d), x) == At(v, i) + SumOver(order, v)
  {
    var v := ValuesAt(DealtPolys(d), x);
    UpToElements(params.n);
    PolySumAt(UpTo(params.n), DealtPolys(d), params.t, x);
    hide ValuesAt;
    SumFirst(i, order, v);
    SumPermutation([i] + order, UpTo(params.n), v);
  }

  lemma {:induction false} FinalizeSteps(
      own: DkgRound1Output, received: seq<PeerContribution>, i: u16, x: int, share: Scalar,
      senders: seq<u16>, qual: seq<u16>)
    requires own.WellFormed() && Committed(received) && 1 <= i <= |own.shares|
    requires own.priv.myIndex == i && |received| == own.priv.params.n - 1
    requires VerifyRound1Pok(own.broadcast).Ok? && CheckPeers(own, received).Ok?
    requires SumPoints(own.broadcast.feldman.coeffs[0], SecretCommitments(received)) == Base(x)
    requires SumScalars(own.shares[i - 1].fShare, FShares(received)) == share
    requires Senders(received) == senders && Sort([i] + senders) == qual
    ensures DkgFinalizeResult(own, received) == Ok(DkgFinalised(i, Compress(Base(x)), share, qual))
  {
    hide Base, Compress, PublicKeyFromBytes;
    HonestPublicKey(x);
  }

  /** DKG correctness: when all dealings are honest, every validator that finalises with the
      contributions of its n - 1 peers, in any order, obtains the key f(0) * G, the share f(i) and
      the qualified set 1..n, for one polynomial f with t coefficients that is the same for all. */
  lemma DkgCorrect(
      ceremonyId: Bytes16, i: u16, params: VssParameters, d: map<u16, Dealing>, order: seq<u16>,
      own: DkgRound1Output, received: seq<PeerContribution>)
    requires HonestView(ceremonyId, i, params, d, order, own, received)
    requires |order| == params.n - 1
    ensures Dealt(d, params) && own.WellFormed() && Committed(received)
    ensures DkgFinalizeResult(own, received) ==
            Ok(DkgFinalised(i, Compress(Base(PolyAt(JointPoly(params, d), 0))),
                            Red(PolyAt(JointPoly(params, d), i)), UpTo(params.n)))
  {
    hide *;
    HonestViewMeans(ceremonyId, i, params, d, order, own, received);
    var f := JointPoly(params, d);
    var zero, mine := ValuesAt(DealtPolys(d), 0), ValuesAt(DealtPolys(d), i);
    HonestOwn(ceremonyId, i, params, d);
    HonestPeers(ceremonyId, i, params, d, order, own, received);
    EveryoneElse(i, params, order);
    CheckPeersIff(own, received);
    JointPolyAt(i, params, d, order, 0);
    JointPolyAt(i, params, d, order, i);
    SumPointsBase(own.broadcast.feldman.coeffs[0], At(zero, i), SecretCommitments(received), order, zero);
    SumScalarsRed(own.shares[i - 1].fShare, At(mine, i), FShares(received), order, mine);
    SortRange([i] + order, params.n);
    FinalizeSteps(own, received, i, PolyAt(f, 0), Red(PolyAt(f, i)), order, UpTo(params.n));
  }
}
