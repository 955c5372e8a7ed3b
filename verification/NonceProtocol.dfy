/** Nonces over the life of one validator: none enters two signatures, and none a signature for a
    session it was not announced under. */
module NonceProtocol {
  import opened Wrappers
  import opened Lists
  import opened Field
  import opened Group
  import opened Schnorr
  import opened ValidatorNode
  import Refresh
  import Sign
  import Accounts
  import Processor
  import Lagrange

  datatype Step =
    | SignFirst(sid: Bytes16, k: Scalar, now: nat)
    | SignThird(sid: Bytes16, challenge: BlindChallenge, signingSet: seq<u16>)
    | RefreshFirst(sid: Bytes16, ks: seq<Scalar>, now: nat)
    | RefreshFifth(sid: Bytes16, req: Round5Request)
    | Prune(now: nat, ceremonyTtl: nat, sessionTtl: nat)
    | Reload(share: Option<ShareRecord>)

  /** A partial signature that left the validator: the session it names and the nonce inside it. */
  datatype Use = Use(sid: Bytes16, k: Scalar)

  /** The validator, every nonce sampled so far, the nonces of accepted first rounds with the session
      they were announced under, and the partial signatures returned, in order. */
  datatype System = System(
    node: Node, sampled: set<Scalar>, announced: set<(Bytes16, Scalar)>, used: seq<Use>)

  ghost function Initial(share: Option<ShareRecord>): System {
    System(Node(share, 0, 0, map[], map[], map[], map[]), {}, {}, [])
  }

  /** Sampling never repeats: the random source's only assumption. */
  ghost predicate Enabled(s: System, step: Step) {
    match step
    case SignFirst(_, k, _) => k !in s.sampled
    case RefreshFirst(_, ks, _) =>
      |ks| <= 0xff && Distinct(ks) && forall k :: k in ks ==> k !in s.sampled
    case _ => true
  }

  ghost function Next(s: System, step: Step): System
    requires SoundNode(s.node) && Enabled(s, step)
  {
    match step
    case SignFirst(sid, k, now) =>
      var (node, r) := OnSignRound1(s.node, sid, k, now);
      s.(node := node, sampled := s.sampled + {k},
         announced := if r.Ok? then s.announced + {(sid, k)} else s.announced)
    case SignThird(sid, challenge, signingSet) =>
      var (node, r) := OnSignRound3(s.node, sid, challenge, signingSet);
      s.(node := node,
         used := if r.Ok? then s.used + [Use(r.value.sessionId, s.node.sign[sid].state.k)] else s.used)
    case RefreshFirst(sid, ks, now) =>
      var (node, r) := OnRefreshRound1(s.node, sid, |ks|, ks, now);
      s.(node := node, sampled := s.sampled + Elements(ks),
         announced := if r.Ok? then s.announced + set k | k in Elements(ks) :: (sid, k) else s.announced)
    case RefreshFifth(sid, req) =>
      var (node, r) := OnRefreshRound5(s.node, sid, req);
      s.(node := node,
         used := if r.Ok? then s.used + [Use(r.value.sessionId,
                                             s.node.refresh[sid].state.kPerCandidate[req.gammaStar - 1])]
                 else s.used)
    case Prune(now, ceremonyTtl, sessionTtl) =>
      s.(node := OnPrune(s.node, now, ceremonyTtl, sessionTtl))
    case Reload(share) =>
      s.(node := s.node.(share := share))
  }

  // ---------------------------------------------------------------- the invariant

  function UsedNonces(used: seq<Use>): (ks: seq<Scalar>)
    ensures |ks| == |used|
  {
    seq(|used|, j requires 0 <= j < |used| => used[j].k)
  }

  /** Where nonces are kept: one store per kind of session. */
  datatype Slot = SignSlot(sid: Bytes16) | RefreshSlot(sid: Bytes16)

  ghost function Held(node: Node, slot: Slot): seq<Scalar> {
    match slot
    case SignSlot(sid) => if sid in node.sign then [node.sign[sid].state.k] else []
    case RefreshSlot(sid) => if sid in node.refresh then node.refresh[sid].state.kPerCandidate else []
  }

  /** Stored nonces were announced under their session and are not yet used. */
  ghost predicate Live(s: System, slot: Slot) {
    && Distinct(Held(s.node, slot))
    && forall k :: k in Held(s.node, slot) ==>
         k in s.sampled && (slot.sid, k) in s.announced && k !in UsedNonces(s.used)
  }

  ghost predicate Disjoint(p: seq<Scalar>, q: seq<Scalar>) {
    forall k :: k in p ==> k !in q
  }

  ghost predicate Inv(s: System) {
    && SoundNode(s.node)
    && (forall slot :: Live(s, slot))
    && (forall a, b :: a != b ==> Disjoint(Held(s.node, a), Held(s.node, b)))
    && Distinct(UsedNonces(s.used))
    && (forall k :: k in UsedNonces(s.used) ==> k in s.sampled)
    && (forall use :: use in s.used ==> (use.sid, use.k) in s.announced)
  }

  /** Every slot keeps its nonces or loses them all. */
  ghost predicate Shrinks(before: Node, after: Node) {
    forall slot :: Held(after, slot) == Held(before, slot) || Held(after, slot) == []
  }

  lemma ShrinkKeeps(s: System, node: Node)
    requires Inv(s) && SoundNode(node) && Shrinks(s.node, node)
    ensures Inv(s.(node := node))
  {
    hide SoundNode, Held;
    DistinctEmpty<Scalar>([]);
    forall slot
      ensures Live(s.(node := node), slot)
    {
      assert Live(s, slot);
    }
    forall a, b | a != b
      ensures Disjoint(Held(node, a), Held(node, b))
    {
      assert Disjoint(Held(s.node, a), Held(s.node, b));
    }
  }

  /** A nonce leaves its slot, which is emptied, and enters a signature for its session. */
  lemma UseKeeps(s: System, node: Node, slot: Slot, k: Scalar)
    requires Inv(s) && SoundNode(node) && Shrinks(s.node, node)
    requires k in Held(s.node, slot) && Held(node, slot) == []
    ensures Inv(s.(node := node, used := s.used + [Use(slot.sid, k)]))
  {
    hide SoundNode, Held, Distinct;
    ShrinkKeeps(s, node);
    var s' := s.(node := node, used := s.used + [Use(slot.sid, k)]);
    assert UsedNonces(s'.used) == UsedNonces(s.used) + [k];
    assert Live(s, slot);
    DistinctLast(UsedNonces(s.used), k);
    forall other
      ensures Live(s', other)
    {
      assert Live(s.(node := node), other);
      if other != slot {
        assert Disjoint(Held(s.node, slot), Held(s.node, other));
      }
    }
  }

  /** Fresh nonces enter an empty slot. */
  lemma InsertKeeps(s: System, node: Node, slot: Slot, ks: seq<Scalar>, s': System)
    requires Inv(s) && SoundNode(node) && Distinct(ks) && forall k :: k in ks ==> k !in s.sampled
    requires Held(node, slot) == ks && forall other :: other != slot ==> Held(node, other) == Held(s.node, other)
    requires s'.node == node && s'.used == s.used
    requires s'.sampled == s.sampled + Elements(ks)
    requires s'.announced == s.announced + set k | k in Elements(ks) :: (slot.sid, k)
    ensures Inv(s')
  {
    hide SoundNode, Held, Distinct;
    forall other
      ensures Live(s', other)
    {
      assert Live(s, other);
      forall k | k in Held(node, other)
        ensures k in s'.sampled && (other.sid, k) in s'.announced && k !in UsedNonces(s'.used)
      {
        if other == slot {
          assert k in Elements(ks);
        }
      }
    }
    forall a, b | a != b
      ensures Disjoint(Held(node, a), Held(node, b))
    {
      assert Live(s, a) && Live(s, b) && Disjoint(Held(s.node, a), Held(s.node, b));
    }
  }

  /** A rejected first round still sampled its nonces. */
  lemma SampleKeeps(s: System, more: set<Scalar>)
    requires Inv(s)
    ensures Inv(s.(sampled := s.sampled + more))
  {
    hide SoundNode, Held, Distinct;
    var s' := s.(sampled := s.sampled + more);
    forall slot
      ensures Live(s', slot)
    {
      assert Live(s, slot);
    }
  }

  // ---------------------------------------------------------------- each step

  lemma SignFirstEffect(node: Node, sid: Bytes16, k: Scalar, now: nat)
    requires SoundNode(node)
    ensures var (after, r) := OnSignRound1(node, sid, k, now);
            && SoundNode(after)
            && (r.Err? ==> after == node)
            && (r.Ok? ==>
                  && Held(after, SignSlot(sid)) == [k]
                  && forall other :: other != SignSlot(sid) ==> Held(after, other) == Held(node, other))
  {
    hide Base, Compress, SoundDkg, SoundReshare;
  }

  lemma RefreshFirstEffect(node: Node, sid: Bytes16, ks: seq<Scalar>, now: nat)
    requires SoundNode(node) && |ks| <= 0xff
    ensures var (after, r) := OnRefreshRound1(node, sid, |ks|, ks, now);
            && SoundNode(after)
            && (r.Err? ==> after == node)
            && (r.Ok? ==>
                  && Held(after, RefreshSlot(sid)) == ks
                  && forall other :: other != RefreshSlot(sid) ==> Held(after, other) == Held(node, other))
  {
    hide Refresh.CommitmentsTo, SoundDkg, SoundReshare;
  }

  lemma SignThirdEffect(node: Node, sid: Bytes16, challenge: BlindChallenge, signingSet: seq<u16>)
    requires SoundNode(node)
    ensures var (after, r) := OnSignRound3(node, sid, challenge, signingSet);
            && SoundNode(after) && Shrinks(node, after)
            && (r.Ok? ==>
                  && sid in node.sign && r.value.sessionId == sid
                  && Held(node, SignSlot(sid)) == [node.sign[sid].state.k] && Held(after, SignSlot(sid)) == [])
  {
    hide Lagrange.LagrangeResult, SoundDkg, SoundReshare;
  }

  lemma RefreshFifthEffect(node: Node, sid: Bytes16, req: Round5Request)
    requires SoundNode(node)
    ensures var (after, r) := OnRefreshRound5(node, sid, req);
            && SoundNode(after) && Shrinks(node, after)
            && (r.Ok? ==>
                  && sid in node.refresh && r.value.sessionId == sid
                  && 1 <= req.gammaStar <= |node.refresh[sid].state.kPerCandidate|
                  && Held(node, RefreshSlot(sid)) == node.refresh[sid].state.kPerCandidate
                  && Held(after, RefreshSlot(sid)) == [])
  {
    hide Lagrange.LagrangeResult, SoundDkg, SoundReshare, Accounts.ScanResult;
  }

  lemma PruneEffect(node: Node, now: nat, ceremonyTtl: nat, sessionTtl: nat)
    requires SoundNode(node)
    ensures var after := OnPrune(node, now, ceremonyTtl, sessionTtl);
            SoundNode(after) && Shrinks(node, after)
  {
    hide SoundDkg, SoundReshare;
  }

  lemma ReloadEffect(node: Node, share: Option<ShareRecord>)
    requires SoundNode(node)
    ensures SoundNode(node.(share := share)) && Shrinks(node, node.(share := share))
  {
    hide SoundDkg, SoundReshare;
  }

  lemma NextKeepsInv(s: System, step: Step)
    requires Inv(s) && SoundNode(s.node) && Enabled(s, step)
    ensures Inv(Next(s, step))
  {
    hide Inv, SoundNode, Held, Shrinks, Distinct, OnSignRound1, OnSignRound3, OnRefreshRound1, OnRefreshRound5, OnPrune;
    match step
    case SignFirst(sid, k, now) =>
      SignFirstEffect(s.node, sid, k, now);
      DistinctLast([], k);
      DistinctEmpty<Scalar>([]);
      assert [] + [k] == [k] && Elements([k]) == {k};
      if OnSignRound1(s.node, sid, k, now).1.Ok? {
        assert (set x | x in Elements([k]) :: (sid, x)) == {(sid, k)};
        InsertKeeps(s, OnSignRound1(s.node, sid, k, now).0, SignSlot(sid), [k], Next(s, step));
      } else {
        SampleKeeps(s, {k});
      }
    case SignThird(sid, challenge, signingSet) =>
      SignThirdEffect(s.node, sid, challenge, signingSet);
      var (node, r) := OnSignRound3(s.node, sid, challenge, signingSet);
      if r.Ok? {
        UseKeeps(s, node, SignSlot(sid), s.node.sign[sid].state.k);
      } else {
        ShrinkKeeps(s, node);
      }
    case RefreshFirst(sid, ks, now) =>
      RefreshFirstEffect(s.node, sid, ks, now);
      if OnRefreshRound1(s.node, sid, |ks|, ks, now).1.Ok? {
        InsertKeeps(s, OnRefreshRound1(s.node, sid, |ks|, ks, now).0, RefreshSlot(sid), ks, Next(s, step));
      } else {
        SampleKeeps(s, Elements(ks));
      }
    case RefreshFifth(sid, req) =>
      RefreshFifthEffect(s.node, sid, req);
      var (node, r) := OnRefreshRound5(s.node, sid, req);
      if r.Ok? {
        UseKeeps(s, node, RefreshSlot(sid), s.node.refresh[sid].state.kPerCandidate[req.gammaStar - 1]);
      } else {
        ShrinkKeeps(s, node);
      }
    case Prune(now, ceremonyTtl, sessionTtl) =>
      PruneEffect(s.node, now, ceremonyTtl, sessionTtl);
      ShrinkKeeps(s, OnPrune(s.node, now, ceremonyTtl, sessionTtl));
    case Reload(share) =>
      ReloadEffect(s.node, share);
      ShrinkKeeps(s, s.node.(share := share));
  }

  // ---------------------------------------------------------------- runs

  ghost predicate HonestRun(share: Option<ShareRecord>, steps: seq<Step>)
    decreases |steps|, 0
  {
    steps == [] ||
    (&& HonestRun(share, steps[..|steps| - 1])
     && Enabled(Run(share, steps[..|steps| - 1]), steps[|steps| - 1]))
  }

  ghost function Run(share: Option<ShareRecord>, steps: seq<Step>): (s: System)
    requires HonestRun(share, steps)
    ensures Inv(s)
    decreases |steps|, 1
  {
    if steps == [] then
      InitialInv(share);
      Initial(share)
    else
      var before := Run(share, steps[..|steps| - 1]);
      NextKeepsInv(before, steps[|steps| - 1]);
      Next(before, steps[|steps| - 1])
  }

  lemma InitialInv(share: Option<ShareRecord>)
    ensures Inv(Initial(share))
  {
    DistinctEmpty(UsedNonces([]));
    DistinctEmpty<Scalar>([]);
  }

  /** One-shot nonces: in every run of first rounds, signing rounds and expiry, with session ids reused
      at will, no nonce is inside two returned partial signatures, and each was announced under the
      very session the signature names. */
  lemma NoncesAreOneShot(share: Option<ShareRecord>, steps: seq<Step>, i: nat, j: nat)
    requires HonestRun(share, steps)
    requires i < |Run(share, steps).used| && j < |Run(share, steps).used|
    ensures var used := Run(share, steps).used;
            && (i != j ==> used[i].k != used[j].k)
            && (used[i].sid, used[i].k) in Run(share, steps).announced
  {
    hide SoundNode, Held, Run, HonestRun, Live, Disjoint;
    var used := Run(share, steps).used;
    DistinctIndices(UsedNonces(used));
    hide Distinct;
    assert UsedNonces(used)[i] == used[i].k && UsedNonces(used)[j] == used[j].k;
    assert used[i] in used;
  }

  // ---------------------------------------------------------------- counters

  ghost predicate StartsSigning(s: System, step: Step) {
    step.SignFirst? && OnSignRound1(s.node, step.sid, step.k, step.now).1.Ok?
  }

  ghost predicate StartsRefresh(s: System, step: Step)
    requires Enabled(s, step)
  {
    step.RefreshFirst? && OnRefreshRound1(s.node, step.sid, |step.ks|, step.ks, step.now).1.Ok?
  }

  lemma CounterStep(s: System, step: Step)
    requires SoundNode(s.node) && Enabled(s, step)
    ensures var after := Next(s, step).node;
            && after.signCounter ==
               (if StartsSigning(s, step) then Saturating(s.node.signCounter) else s.node.signCounter)
            && after.refreshCounter ==
               (if StartsRefresh(s, step) then Saturating(s.node.refreshCounter) else s.node.refreshCounter)
  {
    hide SoundNode, Sign.PartialSignResult, Refresh.ValidatorRefreshRound5Result, Accounts.ScanResult, Distinct,
      Elements;
  }

  /** How many signing and refresh sessions a run opened. */
  ghost function Opened(share: Option<ShareRecord>, steps: seq<Step>): (nat, nat)
    requires HonestRun(share, steps)
  {
    if steps == [] then (0, 0) else
      var before, step := steps[..|steps| - 1], steps[|steps| - 1];
      var (signs, refreshes) := Opened(share, before);
      var s := Run(share, before);
      (signs + (if StartsSigning(s, step) then 1 else 0), refreshes + (if StartsRefresh(s, step) then 1 else 0))
  }

  function Capped(n: nat): u64 {
    if n > 0xffff_ffff_ffff_ffff then 0xffff_ffff_ffff_ffff else n
  }

  lemma CappedNext(n: nat)
    ensures Saturating(Capped(n)) == Capped(n + 1) && Capped(0) == 0
  {
  }

  lemma OpenedNext(share: Option<ShareRecord>, steps: seq<Step>)
    requires HonestRun(share, steps) && steps != []
    ensures var before, step := steps[..|steps| - 1], steps[|steps| - 1];
            && HonestRun(share, before) && Enabled(Run(share, before), step) && SoundNode(Run(share, before).node)
            && Run(share, steps) == Next(Run(share, before), step)
            && var (signs, refreshes) := Opened(share, before);
               Opened(share, steps) ==
               (signs + (if StartsSigning(Run(share, before), step) then 1 else 0),
                refreshes + (if StartsRefresh(Run(share, before), step) then 1 else 0))
  {
    hide Next, Inv, StartsSigning, StartsRefresh;
    InvMeansSound(Run(share, steps[..|steps| - 1]));
  }

  lemma InvMeansSound(s: System)
    requires Inv(s)
    ensures SoundNode(s.node)
  {
    hide SoundNode;
  }

  lemma NothingOpened(share: Option<ShareRecord>)
    ensures HonestRun(share, []) && Opened(share, []) == (0, 0)
    ensures Run(share, []).node.signCounter == 0 && Run(share, []).node.refreshCounter == 0
  {
  }

  /** The counters are the numbers of sessions opened, up to 2^64 - 1. */
  lemma {:induction false} CountersCount(share: Option<ShareRecord>, steps: seq<Step>)
    requires HonestRun(share, steps)
    ensures var node, (signs, refreshes) := Run(share, steps).node, Opened(share, steps);
            node.signCounter == Capped(signs) && node.refreshCounter == Capped(refreshes)
  {
    hide *;
    if steps == [] {
      NothingOpened(share);
      CappedNext(0);
    } else {
      var before := steps[..|steps| - 1];
      OpenedNext(share, steps);
      CountersCount(share, before);
      CounterStep(Run(share, before), steps[|steps| - 1]);
      CappedNext(Opened(share, before).0);
      CappedNext(Opened(share, before).1);
    }
  }

  /** With the guard configured, a refresh signature is only returned for a coin whose nullifier the
      program has stored. */
  lemma GuardedRefresh(node: Node, sid: Bytes16, req: Round5Request)
    requires SoundNode(node) && req.account.Some? && OnRefreshRound5(node, sid, req).1.Ok?
    ensures var stored := Accounts.LoadNullifiers(req.account.value);
            stored.Ok? && Processor.ComputeNullifier(req.meltedPubkey) in stored.value
  {
    hide Accounts.ScanResult, Accounts.LoadNullifiers, Refresh.ValidatorRefreshRound5Result;
    Accounts.ScanMeansStored(req.account.value, Processor.ComputeNullifier(req.meltedPubkey));
  }
}
