/** One validator's stored reshare ceremonies, and the dealings behind them. */
module ReshareCeremony {
  import opened Wrappers
  import opened Lists
  import opened Field
  import opened Group
  import opened Polynomials
  import opened Vss
  import opened Rotation
  import opened CeremonySessions
  import opened ValidatorNode

  type ZeroDealings = map<u16, ZeroDealing>

  type ReshareSession = Session<ReshareRound1Output, ResharePeerContribution>

  ghost predicate Complete(used: ZeroDealings, params: VssParameters) {
    Dealt(used, params) && forall k :: k in used ==> 1 <= k <= params.n
  }

  ghost predicate Partly(used: ZeroDealings, params: VssParameters) {
    params.Valid() && forall k :: k in used ==> 1 <= k <= params.n && used[k].Fits(params)
  }

  /** The stored session holds validator i's own round 1 and what the other dealers sent to it. */
  ghost predicate Tracks(
    params: VssParameters, id: Bytes16, i: u16, session: ReshareSession, used: ZeroDealings)
  {
    && Partly(used, params) && 1 <= i <= params.n && session.n == params.n
    && used.Keys == session.peers.Keys + {i} && i !in session.peers
    && i in used && session.myRound1 == Round1Of(id, i, params, used[i])
    && forall k :: k in session.peers ==> k in used && session.peers[k] == Relayed(id, i, k, params, used[k])
  }

  // ---------------------------------------------------------------- what the steps do to a session

  lemma TracksNew(params: VssParameters, id: Bytes16, i: u16, d: ZeroDealing, now: nat)
    requires d.Fits(params) && 1 <= i <= params.n
    ensures Tracks(params, id, i, Session(Round1Of(id, i, params, d), params.n, map[], now), map[i := d])
  {
    hide Round1Of, Relayed;
  }

  lemma TracksWith(
      params: VssParameters, id: Bytes16, i: u16, session: ReshareSession, used: ZeroDealings, k: u16,
      d: ZeroDealing)
    requires Tracks(params, id, i, session, used)
    requires d.Fits(params) && 1 <= k <= params.n && k != i
    ensures Tracks(params, id, i, session.(peers := session.peers[k := Relayed(id, i, k, params, d)]), used[k := d])
  {
    hide Round1Of, Relayed;
  }

  lemma RelayedCommitted(id: Bytes16, i: u16, k: u16, params: VssParameters, d: ZeroDealing)
    requires d.Fits(params) && 1 <= i <= params.n
    ensures Relayed(id, i, k, params, d).broadcast.feldman.coeffs != []
  {
    hide Base, PedersenOf;
  }

  lemma OwnWellFormed(id: Bytes16, i: u16, params: VssParameters, d: ZeroDealing)
    requires d.Fits(params) && 1 <= i <= params.n
    ensures Round1Of(id, i, params, d).WellFormed()
    ensures Round1Of(id, i, params, d).priv == ReshareRound1Private(id, i, params)
  {
    hide Base, PedersenOf;
  }

  lemma TrackedSound(
      params: VssParameters, id: Bytes16, i: u16, session: ReshareSession, used: ZeroDealings)
    requires Tracks(params, id, i, session, used)
    ensures SoundReshare(session)
  {
    hide Round1Of, Relayed;
    OwnWellFormed(id, i, params, used[i]);
    forall k | k in session.peers
      ensures session.peers[k].broadcast.feldman.coeffs != []
    {
      RelayedCommitted(id, i, k, params, used[k]);
    }
  }

  // ---------------------------------------------------------------- finalising

  /** At most the other n - 1 members have contributed, and then every member has dealt. */
  lemma TrackedCount(
      params: VssParameters, id: Bytes16, i: u16, session: ReshareSession, used: ZeroDealings)
    requires Tracks(params, id, i, session, used)
    ensures |session.peers| <= params.n - 1
    ensures |session.peers| == params.n - 1 <==> Complete(used, params)
  {
    hide Round1Of, Relayed;
    var order := KeysOf(session.peers);
    KeysAre(session.peers);
    PeerLimit(order, i, params.n);
    EveryoneCounted(order, i, params.n, used.Keys);
  }

  lemma TrackedView(
      params: VssParameters, id: Bytes16, i: u16, session: ReshareSession, used: ZeroDealings)
    requires Tracks(params, id, i, session, used) && |session.peers| == params.n - 1
    ensures HonestView(id, i, params, used, KeysOf(session.peers), session.myRound1, InKeyOrder(session.peers))
    ensures |KeysOf(session.peers)| == params.n - 1
  {
    hide Round1Of, Relayed, Distinct, KeysOf;
    var order := KeysOf(session.peers);
    TrackedCount(params, id, i, session, used);
    KeysAre(session.peers);
    assert forall j :: 0 <= j < |order| ==> order[j] in order;
  }

  /** The record after a ceremony: the share moves by what the ceremony adds at the index. */
  ghost function Moved(rec: ShareRecord, params: VssParameters, used: ZeroDealings, i: u16): ShareRecord
    requires Dealt(used, params)
  {
    rec.(myIndex := i, n := params.n, epoch := Saturating(rec.epoch),
         myShare := Red(rec.myShare + PolyAt(ZeroSum(params, used), i)), qual := UpTo(params.n))
  }

  lemma MovedIs(rec: ShareRecord, params: VssParameters, used: ZeroDealings, i: u16)
    requires Dealt(used, params)
    ensures Moved(rec, params, used, i) ==
            rec.(myIndex := i, n := params.n, epoch := Saturating(rec.epoch),
                 myShare := Moved(rec, params, used, i).myShare, qual := UpTo(params.n))
  {
    hide PolyAt, ZeroSum, Red, UpTo;
  }

  lemma FinalizeTooEarly(node: Node, id: Bytes16)
    requires SoundNode(node) && id in node.reshare && |node.reshare[id].peers| < node.reshare[id].n - 1
    ensures OnReshareFinalize(node, id).1.Err? && OnReshareFinalize(node, id).0 == node
  {
    hide ReshareFinalizeResult, InKeyOrder;
  }

  lemma FinalizeReady(node: Node, id: Bytes16, rec: ShareRecord, newShare: Scalar)
    requires SoundNode(node) && id in node.reshare && |node.reshare[id].peers| == node.reshare[id].n - 1
    requires node.share == Some(rec) && rec.myShare < Q && Committed(InKeyOrder(node.reshare[id].peers))
    requires var session := node.reshare[id];
             ReshareFinalizeResult(session.myRound1, rec.myShare, InKeyOrder(session.peers)) ==
             Ok(ReshareFinalised(session.myRound1.priv.myIndex, newShare, UpTo(session.n)))
    ensures var session := node.reshare[id];
            var (after, r) := OnReshareFinalize(node, id);
            && r.Ok?
            && after == node.(reshare := node.reshare - {id},
                              share := Some(rec.(myIndex := session.myRound1.priv.myIndex, n := session.n,
                                                 epoch := Saturating(rec.epoch), myShare := newShare,
                                                 qual := UpTo(session.n))))
  {
    hide ReshareFinalizeResult, InKeyOrder, UpTo;
  }

  lemma TrackedOwn(
      params: VssParameters, id: Bytes16, i: u16, session: ReshareSession, used: ZeroDealings)
    requires Tracks(params, id, i, session, used)
    ensures 1 <= i <= params.n && session.n == params.n && session.myRound1.priv.myIndex == i
    ensures Complete(used, params) ==> Dealt(used, params)
  {
    hide Relayed, PedersenOf;
  }

  lemma CorrectShare(
      id: Bytes16, i: u16, params: VssParameters, used: ZeroDealings, order: seq<u16>,
      own: ReshareRound1Output, rec: ShareRecord, received: seq<ResharePeerContribution>)
    requires HonestView(id, i, params, used, order, own, received) && |order| == params.n - 1
    requires Dealt(used, params) && rec.myShare < Q
    ensures own.WellFormed() && Committed(received) && Moved(rec, params, used, i).myShare < Q
    ensures ReshareFinalizeResult(own, rec.myShare, received) ==
            Ok(ReshareFinalised(i, Moved(rec, params, used, i).myShare, UpTo(params.n)))
  {
    hide HonestView, Dealt, PolyAt, Red, UpTo, ZeroSum, ReshareFinalizeResult, Committed;
    ReshareCorrect(id, i, params, used, order, own, rec.myShare, received);
  }

  /** Finalising a stored honest ceremony succeeds exactly when all peers have contributed. */
  lemma FinalizeTracked(
      node: Node, id: Bytes16, i: u16, params: VssParameters, used: ZeroDealings, rec: ShareRecord)
    requires SoundNode(node) && id in node.reshare && Tracks(params, id, i, node.reshare[id], used)
    requires node.share == Some(rec) && rec.myShare < Q
    ensures var (after, r) := OnReshareFinalize(node, id);
            if |node.reshare[id].peers| == params.n - 1 then
              && r.Ok? && Complete(used, params)
              && after == node.(reshare := node.reshare - {id}, share := Some(Moved(rec, params, used, i)))
            else r.Err? && after == node
  {
    var session := node.reshare[id];
    hide *;
    TrackedCount(params, id, i, session, used);
    TrackedOwn(params, id, i, session, used);
    if |session.peers| == params.n - 1 {
      TrackedView(params, id, i, session, used);
      CorrectShare(id, i, params, used, KeysOf(session.peers), session.myRound1, rec, InKeyOrder(session.peers));
      FinalizeReady(node, id, rec, Moved(rec, params, used, i).myShare);
      MovedIs(rec, params, used, i);
    } else {
      FinalizeTooEarly(node, id);
    }
  }

  lemma FinalizeMissing(node: Node, id: Bytes16)
    requires SoundNode(node) && id !in node.reshare
    ensures OnReshareFinalize(node, id).1.Err? && OnReshareFinalize(node, id).0 == node
  {
    hide ReshareFinalizeResult, InKeyOrder;
  }

  lemma StartAccepted(
      node: Node, id: Bytes16, i: u16, params: VssParameters, d: ZeroDealing, now: nat)
    requires d.Fits(params) && 1 <= i <= params.n
    requires node.share.Some? && node.share.value.myIndex == i
    requires VssParameters(node.share.value.n, node.share.value.t) == params
    ensures OnReshareStart(node, id, d, now) ==
            if id in node.reshare then (node, Err(AlreadyInFlight))
            else (node.(reshare := node.reshare[id := Session(Round1Of(id, i, params, d), params.n, map[], now)]),
                  Ok(Round1Of(id, i, params, d)))
  {
    hide Round1Of;
  }

  lemma StartUnloaded(node: Node, id: Bytes16, d: ZeroDealing, now: nat)
    requires |d.fTail| + 1 == |d.gTape| && node.share.None?
    ensures OnReshareStart(node, id, d, now) == (node, Err(ShareNotLoaded))
  {
  }

  // ---------------------------------------------------------------- one dealing exchanged for another

  lemma ReplacedAt(params: VssParameters, d: ZeroDealings, k: u16, again: ZeroDealing, x: int)
    requires Dealt(d, params) && 1 <= k <= params.n && again.Fits(params)
    ensures Dealt(d[k := again], params)
    ensures PolyAt(ZeroSum(params, d[k := again]), x) ==
            PolyAt(ZeroSum(params, d), x) + PolyAt(again.F(), x) - PolyAt(d[k].F(), x)
  {
    hide PolyAt;
    var d' := d[k := again];
    UpToElements(params.n);
    PolySumAt(UpTo(params.n), DealtPolys(d), params.t, x);
    PolySumAt(UpTo(params.n), DealtPolys(d'), params.t, x);
    SumDiffers(UpTo(params.n), ValuesAt(DealtPolys(d'), x), ValuesAt(DealtPolys(d), x), k);
  }
}
