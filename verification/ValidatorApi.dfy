/** The validator daemon: shared state behind locks and the request handlers that update it. */
module ValidatorApi {
  import opened Wrappers
  import opened Field
  import opened Schnorr
  import opened Vss
  import opened CeremonySessions
  import opened NonceSessions
  import opened ValidatorNode
  import Dkg
  import Rotation
  import Sign
  import Refresh
  import Accounts
  import Processor
  import opened Octets

  class Validator {
    var share: Option<ShareRecord>
    var signCounter: u64
    var refreshCounter: u64
    const dkgSessions: CeremonyStore<Dkg.DkgRound1Output, Dkg.PeerContribution>
    const reshareSessions: CeremonyStore<Rotation.ReshareRound1Output, Rotation.ResharePeerContribution>
    const signSessions: NonceStore<Sign.ValidatorR1State>
    const refreshSessions: NonceStore<Refresh.ValidatorRefreshState>

    ghost const Repr: set<object> := {this, dkgSessions, reshareSessions, signSessions, refreshSessions}

    ghost function View(): Node
      reads Repr
    {
      Node(share, signCounter, refreshCounter, dkgSessions.inner, reshareSessions.inner,
           signSessions.inner, refreshSessions.inner)
    }

    ghost predicate Valid()
      reads Repr
    {
      SoundNode(View())
    }

    constructor (share: Option<ShareRecord>)
      ensures Valid() && fresh(Repr)
      ensures View() == Node(share, 0, 0, map[], map[], map[], map[])
    {
      this.share := share;
      signCounter, refreshCounter := 0, 0;
      dkgSessions := new CeremonyStore();
      reshareSessions := new CeremonyStore();
      signSessions := new NonceStore();
      refreshSessions := new NonceStore();
    }

    method DkgStartHandler(id: Bytes16, myIndex: u16, n: u16, t: u16, d: Dkg.Dealing, now: nat)
      returns (r: Result<Dkg.DkgRound1Output>)
      requires Valid() && |d.fTail| + 1 == |d.gTape|
      requires 1 <= t <= n ==> d.Fits(VssParameters(n, t))
      modifies Repr
      ensures Valid() && (View(), r) == OnDkgStart(old(View()), id, myIndex, n, t, d, now)
    {
      var params :- NewParameters(n, t);
      var round1 :- Dkg.DkgStart(id, myIndex, params, d);
      var stored := dkgSessions.Start(id, Session(round1, n, map[], now));
      r := if stored.Err? then Err(stored.error) else Ok(round1);
    }

    /** A contribution without commitments would make finalisation panic, hence the precondition. */
    method DkgContributeHandler(id: Bytes16, from: u16, c: Dkg.PeerContribution) returns (r: Result<nat>)
      requires Valid() && c.broadcast.feldman.coeffs != []
      modifies Repr
      ensures Valid() && (View(), r) == OnDkgContribute(old(View()), id, from, c)
    {
      r := dkgSessions.Contribute(id, from, c);
    }

    method DkgFinalizeHandler(id: Bytes16) returns (r: Result<Dkg.DkgFinalised>)
      requires Valid()
      modifies Repr
      ensures Valid() && (View(), r) == OnDkgFinalize(old(View()), id)
    {
      hide SoundNode, OnDkgFinalize, Taken, Dkg.DkgFinalizeResult, Le, InKeyOrder, Dkg.Committed;
      KeyFinalizeCases(View(), id);
      var taken := dkgSessions.TakeFinalisable(id);
      if taken.Err? {
        return Err(taken.error);
      }
      var (round1, contributions, n) := taken.value;
      var finalised :- Dkg.DkgFinalize(round1, contributions);
      share := Some(ShareRecord([2] + Le(32, finalised.jointPk), finalised.myIndex, n, round1.priv.params.t, 1,
                                finalised.jointPk, finalised.myShare, finalised.qual));
      r := Ok(finalised);
    }

    method ReshareStartHandler(id: Bytes16, d: Rotation.ZeroDealing, now: nat)
      returns (r: Result<Rotation.ReshareRound1Output>)
      requires Valid() && |d.fTail| + 1 == |d.gTape|
      requires share.Some? && 1 <= share.value.t <= share.value.n ==>
                 d.Fits(VssParameters(share.value.n, share.value.t))
      modifies Repr
      ensures Valid() && (View(), r) == OnReshareStart(old(View()), id, d, now)
    {
      if share.None? {
        return Err(ShareNotLoaded);
      }
      var params :- NewParameters(share.value.n, share.value.t);
      var round1 :- Rotation.ReshareStart(id, share.value.myIndex, params, d);
      var stored := reshareSessions.Start(id, Session(round1, share.value.n, map[], now));
      r := if stored.Err? then Err(stored.error) else Ok(round1);
    }

    method ReshareContributeHandler(id: Bytes16, from: u16, c: Rotation.ResharePeerContribution)
      returns (r: Result<nat>)
      requires Valid() && c.broadcast.feldman.coeffs != []
      modifies Repr
      ensures Valid() && (View(), r) == OnReshareContribute(old(View()), id, from, c)
    {
      r := reshareSessions.Contribute(id, from, c);
    }

    method ReshareFinalizeHandler(id: Bytes16) returns (r: Result<Rotation.ReshareFinalised>)
      requires Valid()
      modifies Repr
      ensures Valid() && (View(), r) == OnReshareFinalize(old(View()), id)
    {
      hide SoundNode, OnReshareFinalize, Taken, Rotation.ReshareFinalizeResult, InKeyOrder, Rotation.Committed;
      ZeroFinalizeCases(View(), id);
      var taken := reshareSessions.TakeFinalisable(id);
      if taken.Err? {
        return Err(taken.error);
      }
      var (round1, contributions, n) := taken.value;
      if share.None? {
        return Err(ShareNotLoaded);
      }
      var current := share.value;
      var oldShare :- FromCanonicalBytes(current.myShare);
      var finalised :- Rotation.ReshareFinalize(round1, oldShare, contributions);
      share := Some(ShareRecord(current.keysetId, finalised.myIndex, n, current.t, Saturating(current.epoch),
                                current.jointPk, finalised.newShare, finalised.qual));
      r := Ok(finalised);
    }

    /** `k` is the sampled nonce. */
    method SignRound1(sid: Bytes16, k: Scalar, now: nat) returns (r: Result<Sign.ValidatorR1Output>)
      requires Valid()
      modifies Repr
      ensures Valid() && (View(), r) == OnSignRound1(old(View()), sid, k, now)
    {
      if share.None? {
        return Err(ShareNotLoaded);
      }
      var (out, state) := Sign.ValidatorRound1(sid, share.value.myIndex, k);
      var stored := signSessions.Insert(state.sessionId, Entry(state, now));
      if stored.Err? {
        return Err(stored.error);
      }
      signCounter := Saturating(signCounter);
      r := Ok(out);
    }

    method SignRound3(sid: Bytes16, challenge: BlindChallenge, signingSet: seq<u16>)
      returns (r: Result<Sign.ValidatorR3Output>)
      requires Valid()
      modifies Repr
      ensures Valid() && (View(), r) == OnSignRound3(old(View()), sid, challenge, signingSet)
    {
      hide Sign.PartialSignResult;
      if share.None? {
        return Err(ShareNotLoaded);
      }
      var myShare :- FromCanonicalBytes(share.value.myShare);
      var entry := signSessions.Take(sid);
      if entry.None? {
        return Err(NoSession);
      }
      r := Sign.PartialSign(entry.value.state, challenge, myShare, signingSet);
    }

    /** `ks` are the sampled nonces, one per candidate. */
    method RefreshRound1(sid: Bytes16, kappa: u8, ks: seq<Scalar>, now: nat)
      returns (r: Result<Refresh.ValidatorRefreshR1Output>)
      requires Valid() && |ks| == kappa
      modifies Repr
      ensures Valid() && (View(), r) == OnRefreshRound1(old(View()), sid, kappa, ks, now)
    {
      hide Refresh.CommitmentsTo;
      if kappa == 0 {
        return Err(InvalidState);
      }
      if share.None? {
        return Err(ShareNotLoaded);
      }
      var round1 := Refresh.ValidatorRefreshRound1(sid, share.value.myIndex, kappa, ks);
      var (out, state) := round1.value;
      var stored := refreshSessions.Insert(state.sessionId, Entry(state, now));
      if stored.Err? {
        return Err(stored.error);
      }
      refreshCounter := Saturating(refreshCounter);
      r := Ok(out);
    }

    method RefreshRound5(sid: Bytes16, req: Round5Request) returns (r: Result<Refresh.ValidatorRefreshR5Output>)
      requires Valid()
      modifies Repr
      ensures Valid() && (View(), r) == OnRefreshRound5(old(View()), sid, req)
    {
      hide Refresh.ValidatorRefreshRound5Result, Accounts.ScanResult;
      if |req.challenges| > 0xff || |req.challenges| == 0 {
        return Err(InvalidState);
      }
      var kappa: u8 := |req.challenges|;
      if req.gammaStar == 0 || req.gammaStar > kappa {
        return Err(ChallengeOutOfRange);
      }
      if req.account.Some? {
        var scanned := Accounts.ScanResult(req.account.value, Processor.ComputeNullifier(req.meltedPubkey));
        if scanned.Err? {
          return Err(NullifierNotFinalized);
        }
      }
      if share.None? {
        return Err(ShareNotLoaded);
      }
      var myShare :- FromCanonicalBytes(share.value.myShare);
      var entry := refreshSessions.Take(sid);
      if entry.None? {
        return Err(NoSession);
      }
      var round2 := Refresh.UserRefreshR2Output(sid, kappa, req.challenges, req.meltedPubkey, req.meltedSignature);
      r := Refresh.ValidatorRefreshRound5(
        entry.value.state, round2, Refresh.MintRefreshR3Challenge(sid, req.gammaStar), myShare, req.signingSet);
    }

    /** One tick of the four background timers. */
    method PruneAll(now: nat, ceremonyTtl: nat, sessionTtl: nat)
      requires Valid()
      modifies Repr
      ensures Valid() && View() == OnPrune(old(View()), now, ceremonyTtl, sessionTtl)
    {
      var _ := dkgSessions.Prune(now, ceremonyTtl);
      var _ := reshareSessions.Prune(now, ceremonyTtl);
      var _ := signSessions.Prune(now, sessionTtl);
      var _ := refreshSessions.Prune(now, sessionTtl);
    }
  }
}
