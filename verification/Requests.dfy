/** When each request of a validator is accepted, and what it leaves behind. */
module Requests {
  import opened Wrappers
  import opened Field
  import opened Schnorr
  import opened Vss
  import opened CeremonySessions
  import opened NonceSessions
  import opened ValidatorNode
  import Accounts
  import Dkg
  import Lagrange
  import Processor
  import Refresh
  import Rotation
  import Sign

  // ---------------------------------------------------------------- ceremonies

  /** A key generation starts iff the threshold and the own index are within range and no ceremony of that id is in
      flight; it then waits for its n - 1 peers with nothing heard yet. */
  lemma KeyStartIff(node: Node, id: Bytes16, myIndex: u16, n: u16, t: u16, d: Dkg.Dealing, now: nat)
    requires |d.fTail| + 1 == |d.gTape|
    ensures var (after, r) := OnDkgStart(node, id, myIndex, n, t, d, now);
            && (r.Ok? <==> 1 <= t <= n && 1 <= myIndex <= n && id !in node.dkg)
            && (r == Err(AlreadyInFlight) <==> 1 <= t <= n && 1 <= myIndex <= n && id in node.dkg)
            && (r.Err? ==> after == node)
            && (r.Ok? ==> after == node.(dkg := node.dkg[id := Session(r.value, n, map[], now)])
                          && r.value.priv == Dkg.DkgRound1Private(id, myIndex, VssParameters(n, t), d.secret)
                          && r.value.broadcast.ceremonyId == id && r.value.broadcast.fromIndex == myIndex
                          && |r.value.shares| == n)
  {
    hide Dkg.BuildPokMsg, SchnorrSign, Compress;
  }

  /** A reshare starts iff a share with parameters within range is loaded and no reshare of that id is in flight. */
  lemma ZeroStartIff(node: Node, id: Bytes16, d: Rotation.ZeroDealing, now: nat)
    requires |d.fTail| + 1 == |d.gTape|
    ensures var (after, r) := OnReshareStart(node, id, d, now);
            && (r.Ok? <==>
                  && node.share.Some? && 1 <= node.share.value.t <= node.share.value.n
                  && 1 <= node.share.value.myIndex <= node.share.value.n && id !in node.reshare)
            && (r == Err(ShareNotLoaded) <==> node.share.None?)
            && (r.Err? ==> after == node)
            && (r.Ok? ==> after.reshare == node.reshare[id := Session(r.value, node.share.value.n, map[], now)]
                          && after == node.(reshare := after.reshare)
                          && r.value.priv ==
                             Rotation.ReshareRound1Private(id, node.share.value.myIndex,
                                                           VssParameters(node.share.value.n, node.share.value.t))
                          && r.value.broadcast.ceremonyId == id
                          && r.value.broadcast.fromIndex == node.share.value.myIndex
                          && |r.value.shares| == node.share.value.n)
  {
  }

  /** A contribution is stored, under the index it was sent with, iff its ceremony is in flight. */
  lemma ContributeIff(
      node: Node, id: Bytes16, from: u16, c: Dkg.PeerContribution, z: Rotation.ResharePeerContribution)
    ensures var (after, r) := OnDkgContribute(node, id, from, c);
            && (r.Ok? <==> id in node.dkg)
            && (r.Err? ==> after == node)
            && (r.Ok? ==> after == node.(dkg := after.dkg) && id in after.dkg
                          && after.dkg[id].peers == node.dkg[id].peers[from := c]
                          && r.value == |after.dkg[id].peers|)
    ensures var (after, r) := OnReshareContribute(node, id, from, z);
            && (r.Ok? <==> id in node.reshare)
            && (r.Err? ==> after == node)
            && (r.Ok? ==> after == node.(reshare := after.reshare) && id in after.reshare
                          && after.reshare[id].peers == node.reshare[id].peers[from := z]
                          && r.value == |after.reshare[id].peers|)
  {
  }

  /** Finalising consumes the ceremony once all peers were heard, whatever comes of it, and otherwise leaves the
      validator as it was. */
  lemma FinalizeConsumes(node: Node, id: Bytes16)
    requires SoundNode(node)
    ensures var after := OnDkgFinalize(node, id).0;
            if id in node.dkg && |node.dkg[id].peers| >= node.dkg[id].n - 1
            then after == node.(dkg := node.dkg - {id}, share := after.share)
            else after == node && OnDkgFinalize(node, id).1 == Err(NoSession)
    ensures var after := OnReshareFinalize(node, id).0;
            if id in node.reshare && |node.reshare[id].peers| >= node.reshare[id].n - 1
            then after == node.(reshare := node.reshare - {id}, share := after.share)
            else after == node && OnReshareFinalize(node, id).1 == Err(NoSession)
  {
    hide Dkg.DkgFinalizeResult, Rotation.ReshareFinalizeResult, InKeyOrder, SoundDkg, SoundReshare;
  }

  // ---------------------------------------------------------------- sessions

  /** A signing session opens iff a share is loaded and the id is free. */
  lemma SignOpensIff(node: Node, sid: Bytes16, k: Scalar, now: nat)
    ensures var (after, r) := OnSignRound1(node, sid, k, now);
            && (r.Ok? <==> node.share.Some? && sid !in node.sign)
            && (r == Err(AlreadyInFlight) <==> node.share.Some? && sid in node.sign)
            && (r.Err? ==> after == node)
            && (r.Ok? ==> sid in after.sign && after.sign[sid].state.k == k && after.sign[sid].createdAt == now)
  {
    hide Compress;
  }

  /** A refresh session opens iff moreover there is at least one candidate. */
  lemma RefreshOpensIff(node: Node, sid: Bytes16, kappa: u8, ks: seq<Scalar>, now: nat)
    ensures var (after, r) := OnRefreshRound1(node, sid, kappa, ks, now);
            && (r.Ok? <==> kappa > 0 && node.share.Some? && sid !in node.refresh)
            && (r == Err(InvalidState) <==> kappa == 0)
            && (r.Err? ==> after == node)
            && (r.Ok? ==>
                  && sid in after.refresh && after.refresh[sid].state.kPerCandidate == ks
                  && after.refresh[sid].state.kappa == kappa && after.refresh[sid].createdAt == now)
  {
    hide Refresh.CommitmentsTo;
  }

  /** A signing request is answered iff a canonical share is loaded, the session is open, the challenge is canonical,
      the validator is in the set and zero is not. The session is gone either way once a share was read. */
  lemma SignAnsweredIff(node: Node, sid: Bytes16, challenge: BlindChallenge, signingSet: seq<u16>)
    ensures var (after, r) := OnSignRound3(node, sid, challenge, signingSet);
            && (r.Ok? <==>
                  && node.share.Some? && node.share.value.myShare < Q && sid in node.sign && challenge.c < Q
                  && node.sign[sid].state.myIndex in signingSet && 0 !in signingSet)
            && (node.share.Some? && node.share.value.myShare < Q ==> after == node.(sign := node.sign - {sid}))
            && (node.share.None? || node.share.value.myShare >= Q ==> after == node)
  {
    hide Lagrange.Lambda, Red;
    if node.share.Some? && sid in node.sign && node.share.value.myShare < Q {
      Sign.PartialSignAcceptedIff(node.sign[sid].state, challenge, node.share.value.myShare, signingSet);
    }
    if sid !in node.sign {
      assert node.sign - {sid} == node.sign;
    }
  }

  /** A refresh request is answered iff moreover it chooses one of its at most 255 candidates, which the session has,
      and the guard, if configured, finds the melted coin's nullifier stored. */
  lemma RefreshAnsweredIff(node: Node, sid: Bytes16, req: Round5Request)
    requires SoundNode(node)
    ensures OnRefreshRound5(node, sid, req).1.Ok? <==>
            && 1 <= req.gammaStar <= |req.challenges| <= 255
            && (req.account.Some? ==>
                  && Accounts.LoadNullifiers(req.account.value).Ok?
                  && Processor.ComputeNullifier(req.meltedPubkey) in Accounts.LoadNullifiers(req.account.value).value)
            && node.share.Some? && node.share.value.myShare < Q && sid in node.refresh
            && req.gammaStar <= node.refresh[sid].state.kappa && req.challenges[req.gammaStar - 1] < Q
            && node.refresh[sid].state.myIndex in req.signingSet && 0 !in req.signingSet
  {
    hide Lagrange.Lambda, Accounts.ScanResult, Accounts.LoadNullifiers, Add, Mul, SoundDkg, SoundReshare;
    if req.account.Some? {
      Accounts.ScanMeansStored(req.account.value, Processor.ComputeNullifier(req.meltedPubkey));
    }
  }

  // ---------------------------------------------------------------- expiry

  /** Expiry drops exactly the sessions that have reached their kind's age, ceremonies by the one limit and signing
      and refresh sessions by the other, and changes nothing else. */
  lemma PruneExactly(node: Node, now: nat, ceremonyTtl: nat, sessionTtl: nat, id: Bytes16)
    ensures var after := OnPrune(node, now, ceremonyTtl, sessionTtl);
            && (id in after.dkg <==> id in node.dkg && 0 < ceremonyTtl && now < node.dkg[id].createdAt + ceremonyTtl)
            && (id in after.reshare <==>
                  id in node.reshare && 0 < ceremonyTtl && now < node.reshare[id].createdAt + ceremonyTtl)
            && (id in after.sign <==> id in node.sign && 0 < sessionTtl && now < node.sign[id].createdAt + sessionTtl)
            && (id in after.refresh <==>
                  id in node.refresh && 0 < sessionTtl && now < node.refresh[id].createdAt + sessionTtl)
            && (id in after.dkg ==> after.dkg[id] == node.dkg[id])
            && (id in after.reshare ==> after.reshare[id] == node.reshare[id])
            && (id in after.sign ==> after.sign[id] == node.sign[id])
            && (id in after.refresh ==> after.refresh[id] == node.refresh[id])
            && after.share == node.share && after.signCounter == node.signCounter
            && after.refreshCounter == node.refreshCounter
  {
  }
}
