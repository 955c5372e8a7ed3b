/** One validator: its stored share, its ceremony and session stores, and what each request handler
    does to them. Handlers run atomically; random draws and clock readings are parameters. */
module ValidatorNode {
  import opened Wrappers
  import opened Octets
  import opened Field
  import opened Schnorr
  import opened Vss
  import opened CeremonySessions
  import opened NonceSessions
  import Dkg
  import Rotation
  import Sign
  import Refresh
  import Accounts
  import Processor

  datatype ShareRecord = ShareRecord(
    keysetId: seq<u8>, myIndex: u16, n: u16, t: u16, epoch: u64, jointPk: Bytes32, myShare: Bytes32,
    qual: seq<u16>)

  type DkgSessions = Sessions<Dkg.DkgRound1Output, Dkg.PeerContribution>
  type ReshareSessions = Sessions<Rotation.ReshareRound1Output, Rotation.ResharePeerContribution>

  datatype Node = Node(
    share: Option<ShareRecord>,
    signCounter: u64,
    refreshCounter: u64,
    dkg: DkgSessions,
    reshare: ReshareSessions,
    sign: Entries<Sign.ValidatorR1State>,
    refresh: Entries<Refresh.ValidatorRefreshState>)

  /** What the handlers keep and index into without checking again. */
  ghost predicate SoundNode(node: Node) {
    && (forall id :: id in node.dkg ==> SoundDkg(node.dkg[id]))
    && (forall id :: id in node.reshare ==> SoundReshare(node.reshare[id]))
    && (forall id :: id in node.sign ==> node.sign[id].state.sessionId == id)
    && (forall id :: id in node.refresh ==>
          && node.refresh[id].state.sessionId == id
          && |node.refresh[id].state.kPerCandidate| == node.refresh[id].state.kappa)
  }

  ghost predicate SoundDkg(s: Session<Dkg.DkgRound1Output, Dkg.PeerContribution>) {
    && s.n >= 1 && s.myRound1.WellFormed()
    && forall k :: k in s.peers ==> s.peers[k].broadcast.feldman.coeffs != []
  }

  ghost predicate SoundReshare(s: Session<Rotation.ReshareRound1Output, Rotation.ResharePeerContribution>) {
    && s.n >= 1 && s.myRound1.WellFormed()
    && forall k :: k in s.peers ==> s.peers[k].broadcast.feldman.coeffs != []
  }

  function Saturating(x: u64): u64 {
    if x == 0xffff_ffff_ffff_ffff then x else x + 1
  }

  // ---------------------------------------------------------------- key generation

  function OnDkgStart(node: Node, id: Bytes16, myIndex: u16, n: u16, t: u16, d: Dkg.Dealing, now: nat)
    : (Node, Result<Dkg.DkgRound1Output>)
    requires |d.fTail| + 1 == |d.gTape|
  {
    var params := NewParameters(n, t);
    if params.Err? then (node, Err(params.error)) else
      var round1 := Dkg.DkgStartResult(id, myIndex, params.value, d);
      if round1.Err? then (node, round1) else
        var (dkg, stored) := Started(node.dkg, id, Session(round1.value, n, map[], now));
        (node.(dkg := dkg), if stored.Err? then Err(stored.error) else round1)
  }

  function OnDkgContribute(node: Node, id: Bytes16, from: u16, c: Dkg.PeerContribution): (Node, Result<nat>) {
    var (dkg, count) := Contributed(node.dkg, id, from, c);
    (node.(dkg := dkg), count)
  }

  lemma DkgOrderSound(s: Session<Dkg.DkgRound1Output, Dkg.PeerContribution>)
    requires SoundDkg(s)
    ensures Dkg.Committed(InKeyOrder(s.peers))
  {
    AscendingElements(s.peers.Keys, 0x1_0000);
  }

  /** Success replaces the stored share; a rejected ceremony is forgotten all the same. */
  ghost function OnDkgFinalize(node: Node, id: Bytes16): (Node, Result<Dkg.DkgFinalised>)
    requires SoundNode(node)
  {
    var (dkg, taken) := Taken(node.dkg, id);
    if taken.Err? then (node.(dkg := dkg), Err(taken.error)) else
      DkgOrderSound(node.dkg[id]);
      var (round1, contributions, n) := taken.value;
      var finalised := Dkg.DkgFinalizeResult(round1, contributions);
      if finalised.Err? then (node.(dkg := dkg), finalised) else
        (node.(dkg := dkg, share := Some(RecordOf(finalised.value, n, round1.priv.params.t))), finalised)
  }

  /** Finalisation, case by case: too early, rejected, successful. */
  lemma KeyFinalizeCases(node: Node, id: Bytes16)
    requires SoundNode(node)
    ensures Sound(node.dkg) && SoundNode(OnDkgFinalize(node, id).0)
    ensures var (dkg, taken) := Taken(node.dkg, id);
            var after :=
              Node(node.share, node.signCounter, node.refreshCounter, dkg, node.reshare, node.sign, node.refresh);
            if taken.Err? then OnDkgFinalize(node, id) == (after, Err(taken.error)) else
              var (round1, contributions, n) := taken.value;
              && round1.WellFormed() && Dkg.Committed(contributions)
              && var finalised := Dkg.DkgFinalizeResult(round1, contributions);
                 OnDkgFinalize(node, id) ==
                 if finalised.Err? then (after, finalised)
                 else (after.(share := Some(RecordOf(finalised.value, n, round1.priv.params.t))), finalised)
  {
    hide Dkg.DkgFinalizeResult, InKeyOrder, RecordOf, Dkg.Committed;
    if id in node.dkg {
      DkgOrderSound(node.dkg[id]);
    }
  }

  function RecordOf(f: Dkg.DkgFinalised, n: u16, t: u16): ShareRecord {
    ShareRecord([2] + Le(32, f.jointPk), f.myIndex, n, t, 1, f.jointPk, f.myShare, f.qual)
  }

  // ---------------------------------------------------------------- reshare

  function OnReshareStart(node: Node, id: Bytes16, d: Rotation.ZeroDealing, now: nat)
    : (Node, Result<Rotation.ReshareRound1Output>)
    requires |d.fTail| + 1 == |d.gTape|
  {
    if node.share.None? then (node, Err(ShareNotLoaded)) else
      var share := node.share.value;
      var params := NewParameters(share.n, share.t);
      if params.Err? then (node, Err(params.error)) else
        var round1 := Rotation.ReshareStartResult(id, share.myIndex, params.value, d);
        if round1.Err? then (node, round1) else
          var (reshare, stored) := Started(node.reshare, id, Session(round1.value, share.n, map[], now));
          (node.(reshare := reshare), if stored.Err? then Err(stored.error) else round1)
  }

  function OnReshareContribute(node: Node, id: Bytes16, from: u16, c: Rotation.ResharePeerContribution)
    : (Node, Result<nat>)
  {
    var (reshare, count) := Contributed(node.reshare, id, from, c);
    (node.(reshare := reshare), count)
  }

  lemma ReshareOrderSound(s: Session<Rotation.ReshareRound1Output, Rotation.ResharePeerContribution>)
    requires SoundReshare(s)
    ensures Rotation.Committed(InKeyOrder(s.peers))
  {
    AscendingElements(s.peers.Keys, 0x1_0000);
  }

  /** The new share is the old one plus what the ceremony adds; keyset, key and threshold stay. */
  ghost function OnReshareFinalize(node: Node, id: Bytes16): (Node, Result<Rotation.ReshareFinalised>)
    requires SoundNode(node)
  {
    var (reshare, taken) := Taken(node.reshare, id);
    var after := node.(reshare := reshare);
    if taken.Err? then (after, Err(taken.error))
    else if node.share.None? then (after, Err(ShareNotLoaded))
    else
      ReshareOrderSound(node.reshare[id]);
      var current := node.share.value;
      var oldShare := FromCanonicalBytes(current.myShare);
      if oldShare.Err? then (after, Err(oldShare.error)) else
        var (round1, contributions, n) := taken.value;
        var finalised := Rotation.ReshareFinalizeResult(round1, oldShare.value, contributions);
        if finalised.Err? then (after, finalised) else
          var record := ShareRecord(current.keysetId, finalised.value.myIndex, n, current.t, Saturating(current.epoch),
                                    current.jointPk, finalised.value.newShare, finalised.value.qual);
          (after.(share := Some(record)), finalised)
  }

  lemma ZeroFinalizeCases(node: Node, id: Bytes16)
    requires SoundNode(node)
    ensures Sound(node.reshare) && SoundNode(OnReshareFinalize(node, id).0)
    ensures var (reshare, taken) := Taken(node.reshare, id);
            var after :=
              Node(node.share, node.signCounter, node.refreshCounter, node.dkg, reshare, node.sign, node.refresh);
            if taken.Err? then OnReshareFinalize(node, id) == (after, Err(taken.error)) else
              var (round1, contributions, n) := taken.value;
              && round1.WellFormed() && Rotation.Committed(contributions)
              && if node.share.None? then OnReshareFinalize(node, id) == (after, Err(ShareNotLoaded)) else
                   var was, scalar := node.share.value, FromCanonicalBytes(node.share.value.myShare);
                   if scalar.Err? then OnReshareFinalize(node, id) == (after, Err(scalar.error)) else
                     var finalised := Rotation.ReshareFinalizeResult(round1, scalar.value, contributions);
                     OnReshareFinalize(node, id) ==
                     if finalised.Err? then (after, finalised)
                     else
                       (after.(share := Some(ShareRecord(was.keysetId, finalised.value.myIndex, n, was.t,
                                                         Saturating(was.epoch), was.jointPk, finalised.value.newShare,
                                                         finalised.value.qual))),
                        finalised)
  {
    hide Rotation.ReshareFinalizeResult, InKeyOrder, Rotation.Committed, FromCanonicalBytes;
    if id in node.reshare {
      ReshareOrderSound(node.reshare[id]);
    }
  }

  // ---------------------------------------------------------------- signing

  function OnSignRound1(node: Node, sid: Bytes16, k: Scalar, now: nat): (Node, Result<Sign.ValidatorR1Output>) {
    if node.share.None? then (node, Err(ShareNotLoaded)) else
      var (out, state) := Sign.ValidatorRound1(sid, node.share.value.myIndex, k);
      var (sign, stored) := Inserted(node.sign, sid, Entry(state, now));
      if stored.Err? then (node, Err(stored.error))
      else (node.(sign := sign, signCounter := Saturating(node.signCounter)), Ok(out))
  }

  /** The nonce is consumed even when signing fails afterwards. */
  function OnSignRound3(node: Node, sid: Bytes16, challenge: BlindChallenge, signingSet: seq<u16>)
    : (Node, Result<Sign.ValidatorR3Output>)
  {
    if node.share.None? then (node, Err(ShareNotLoaded)) else
      var myShare := FromCanonicalBytes(node.share.value.myShare);
      if myShare.Err? then (node, Err(myShare.error)) else
        var (sign, entry) := TakenOut(node.sign, sid);
        if entry.None? then (node, Err(NoSession))
        else (node.(sign := sign),
              Sign.PartialSignResult(entry.value.state, challenge, myShare.value, signingSet))
  }

  // ---------------------------------------------------------------- refresh

  function OnRefreshRound1(node: Node, sid: Bytes16, kappa: u8, ks: seq<Scalar>, now: nat)
    : (Node, Result<Refresh.ValidatorRefreshR1Output>)
  {
    if kappa == 0 then (node, Err(InvalidState))
    else if node.share.None? then (node, Err(ShareNotLoaded))
    else
      var myIndex := node.share.value.myIndex;
      var state := Refresh.ValidatorRefreshState(sid, myIndex, kappa, ks);
      var (refresh, stored) := Inserted(node.refresh, sid, Entry(state, now));
      if stored.Err? then (node, Err(stored.error))
      else (node.(refresh := refresh, refreshCounter := Saturating(node.refreshCounter)),
            Ok(Refresh.ValidatorRefreshR1Output(sid, myIndex, Refresh.CommitmentsTo(ks))))
  }

  /** The request of round 5. `account` is the nullifier account's data when the guard is configured. */
  datatype Round5Request = Round5Request(
    signingSet: seq<u16>, gammaStar: u8, challenges: seq<Bytes32>, meltedPubkey: Bytes32,
    meltedSignature: Signature, account: Option<seq<u8>>)

  function OnRefreshRound5(node: Node, sid: Bytes16, req: Round5Request)
    : (Node, Result<Refresh.ValidatorRefreshR5Output>)
    requires SoundNode(node)
  {
    if |req.challenges| > 0xff || |req.challenges| == 0 then (node, Err(InvalidState))
    else if req.gammaStar == 0 || req.gammaStar > |req.challenges| then (node, Err(ChallengeOutOfRange))
    else if req.account.Some?
            && Accounts.ScanResult(req.account.value, Processor.ComputeNullifier(req.meltedPubkey)).Err?
    then (node, Err(NullifierNotFinalized))
    else if node.share.None? then (node, Err(ShareNotLoaded))
    else
      var myShare := FromCanonicalBytes(node.share.value.myShare);
      if myShare.Err? then (node, Err(myShare.error)) else
        var (refresh, entry) := TakenOut(node.refresh, sid);
        if entry.None? then (node, Err(NoSession)) else
          var round2 := Refresh.UserRefreshR2Output(sid, |req.challenges|, req.challenges,
                                                    req.meltedPubkey, req.meltedSignature);
          (node.(refresh := refresh),
           Refresh.ValidatorRefreshRound5Result(
             entry.value.state, round2, Refresh.MintRefreshR3Challenge(sid, req.gammaStar),
             myShare.value, req.signingSet))
  }

  // ---------------------------------------------------------------- expiry

  function OnPrune(node: Node, now: nat, ceremonyTtl: nat, sessionTtl: nat): Node {
    node.(dkg := Pruned(node.dkg, now, ceremonyTtl), reshare := Pruned(node.reshare, now, ceremonyTtl),
          sign := Kept(node.sign, now, sessionTtl), refresh := Kept(node.refresh, now, sessionTtl))
  }
}
