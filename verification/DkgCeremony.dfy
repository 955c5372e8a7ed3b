/** One validator's stored key generations, and the dealings behind them. */
module DkgCeremony {
  import opened Wrappers
  import opened Lists
  import opened Field
  import opened Group
  import opened Schnorr
  import opened Polynomials
  import opened Vss
  import opened Dkg
  import opened CeremonySessions
  import opened ValidatorNode

  /** The dealing behind each contribution, by dealer; the validator's own is among them. */
  type Dealings = map<u16, Dealing>

  type DkgSession = Session<DkgRound1Output, PeerContribution>

  /** Exactly the members 1..n have dealt. */
  ghost predicate Complete(used: Dealings, params: VssParameters) {
    Dealt(used, params) && forall k :: k in used ==> 1 <= k <= params.n
  }

  /** Each dealt polynomial fits, and its dealer is a member. */
  ghost predicate Partly(used: Dealings, params: VssParameters) {
    params.Valid() && forall k :: k in used ==> 1 <= k <= params.n && used[k].Fits(params)
  }

  /** The stored session holds validator i's own round 1 and what the other dealers sent to it. */
  ghost predicate Tracks(params: VssParameters, id: Bytes16, i: u16, session: DkgSession, used: Dealings) {
    && Partly(used, params) && 1 <= i <= params.n && session.n == params.n
    && used.Keys == session.peers.Keys + {i} && i !in session.peers
    && i in used && session.myRound1 == Round1Of(id, i, params, used[i])
    && forall k :: k in session.peers ==> k in used && session.peers[k] == Relayed(id, i, k, params, used[k])
  }

  /** What a completed ceremony gives validator i. */
  ghost function Expected(params: VssParameters, used: Dealings, i: u16): DkgFinalised
    requires Dealt(used, params)
  {
    var f := JointPoly(params, used);
    DkgFinalised(i, Compress(Base(PolyAt(f, 0))), Red(PolyAt(f, i)), UpTo(params.n))
  }

  // ---------------------------------------------------------------- what the steps do to a session

  lemma TracksNew(params: VssParameters, id: Bytes16, i: u16, d: Dealing, now: nat)
    requires d.Fits(params) && 1 <= i <= params.n
    ensures Tracks(params, id, i, Session(Round1Of(id, i, params, d), params.n, map[], now), map[i := d])
  {
    hide Round1Of, Relayed;
  }

  lemma TracksWith(
      params: VssParameters, id: Bytes16, i: u16, session: DkgSession, used: Dealings, k: u16, d: Dealing)
    requires Tracks(params, id, i, session, used)
    requires d.Fits(params) && 1 <= k <= params.n && k != i
    ensures Tracks(params, id, i, session.(peers := session.peers[k := Relayed(id, i, k, params, d)]), used[k := d])
  {
    hide Round1Of, Relayed;
  }

  lemma RelayedCommitted(id: Bytes16, i: u16, k: u16, params: VssParameters, d: Dealing)
    requires d.Fits(params) && 1 <= i <= params.n
    ensures Relayed(id, i, k, params, d).broadcast.feldman.coeffs != []
  {
    hide Base, Compress, SchnorrSign, PedersenOf;
  }

  lemma OwnWellFormed(id: Bytes16, i: u16, params: VssParameters, d: Dealing)
    requires d.Fits(params) && 1 <= i <= params.n
    ensures Round1Of(id, i, params, d).WellFormed()
    ensures Round1Of(id, i, params, d).priv == DkgRound1Private(id, i, params, d.secret)
  {
    hide Base, Compress, SchnorrSign, PedersenOf;
  }

  lemma TrackedSound(
      params: VssParameters, id: Bytes16, i: u16, session: DkgSession, used: Dealings)
    requires Tracks(params, id, i, session, used)
    ensures SoundDkg(session)
  {
    hide Round1Of, Relayed;
    OwnWellFormed(id, i, params, used[i]);
    forall k | k in session.peers
      ensures session.peers[k].broadcast.feldman.coeffs != []
    {
      RelayedCommitted(id, i, k, params, used[k]);
    }
  }

  // ---------------------------------------------------------------- finalising

  /** At most the other n - 1 members have contributed, and then every member has dealt. */
  lemma TrackedCount(
      params: VssParameters, id: Bytes16, i: u16, session: DkgSession, used: Dealings)
    requires Tracks(params, id, i, session, used)
    ensures |session.peers| <= params.n - 1
    ensures |session.peers| == params.n - 1 <==> Complete(used, params)
  {
    hide Round1Of, Relayed;
    var order := KeysOf(session.peers);
    KeysAre(session.peers);
    PeerLimit(order, i, params.n);
    EveryoneCounted(order, i, params.n, used.Keys);
  }

  lemma TrackedView(
      params: VssParameters, id: Bytes16, i: u16, session: DkgSession, used: Dealings)
    requires Tracks(params, id, i, session, used) && |session.peers| == params.n - 1
    ensures HonestView(id, i, params, used, KeysOf(session.peers), session.myRound1, InKeyOrder(session.peers))
    ensures |KeysOf(session.peers)| == params.n - 1
  {
    hide Round1Of, Relayed, Distinct, KeysOf;
    var order := KeysOf(session.peers);
    TrackedCount(params, id, i, session, used);
    KeysAre(session.peers);
    assert forall j :: 0 <= j < |order| ==> order[j] in order;
  }

  /** The node after a finalised key generation: the session is gone and the record is stored. */
  ghost function WithKey(node: Node, id: Bytes16, params: VssParameters, used: Dealings, i: u16): Node
    requires Dealt(used, params)
  {
    node.(dkg := node.dkg - {id}, share := Some(RecordOf(Expected(params, used, i), params.n, params.t)))
  }

  /** Finalising a stored honest ceremony succeeds exactly when all peers have contributed, and then
      gives what the dealings determine; otherwise nothing changes. */
  lemma FinalizeTracked(
      node: Node, id: Bytes16, i: u16, params: VssParameters, used: Dealings)
    requires SoundNode(node) && id in node.dkg && Tracks(params, id, i, node.dkg[id], used)
    ensures var (after, r) := OnDkgFinalize(node, id);
            if |node.dkg[id].peers| == params.n - 1 then
              && Complete(used, params)
              && r == Ok(Expected(params, used, i)) && after == WithKey(node, id, params, used, i)
            else r.Err? && after == node
  {
    hide Dealt, DkgFinalizeResult, InKeyOrder, KeysOf, HonestView, JointPoly, PolyAt, Round1Of, Relayed,
      RecordOf, Complete, Base, Compress, Red, UpTo;
    var session := node.dkg[id];
    TrackedCount(params, id, i, session, used);
    if |session.peers| == params.n - 1 {
      TrackedView(params, id, i, session, used);
      OwnWellFormed(id, i, params, used[i]);
      DkgCorrect(id, i, params, used, KeysOf(session.peers), session.myRound1, InKeyOrder(session.peers));
    }
  }

  lemma FinalizeMissing(node: Node, id: Bytes16)
    requires SoundNode(node) && id !in node.dkg
    ensures OnDkgFinalize(node, id).1.Err? && OnDkgFinalize(node, id).0 == node
  {
    hide DkgFinalizeResult, InKeyOrder;
  }

  lemma StartAccepted(
      node: Node, id: Bytes16, i: u16, params: VssParameters, d: Dealing, now: nat)
    requires d.Fits(params) && 1 <= i <= params.n
    ensures OnDkgStart(node, id, i, params.n, params.t, d, now) ==
            if id in node.dkg then (node, Err(AlreadyInFlight))
            else (node.(dkg := node.dkg[id := Session(Round1Of(id, i, params, d), params.n, map[], now)]),
                  Ok(Round1Of(id, i, params, d)))
  {
    hide Round1Of;
  }

  // ---------------------------------------------------------------- one dealing exchanged for another

  lemma ReplacedAt(params: VssParameters, d: Dealings, k: u16, again: Dealing, x: int)
    requires Dealt(d, params) && 1 <= k <= params.n && again.Fits(params)
    ensures Dealt(d[k := again], params)
    ensures PolyAt(JointPoly(params, d[k := again]), x) ==
            PolyAt(JointPoly(params, d), x) + PolyAt(again.F(), x) - PolyAt(d[k].F(), x)
  {
    hide PolyAt;
    var d' := d[k := again];
    UpToElements(params.n);
    PolySumAt(UpTo(params.n), DealtPolys(d), params.t, x);
    PolySumAt(UpTo(params.n), DealtPolys(d'), params.t, x);
    SumDiffers(UpTo(params.n), ValuesAt(DealtPolys(d'), x), ValuesAt(DealtPolys(d), x), k);
  }
}
