/** The committee as a distributed system: validators start, relay, finalise and expire key generations
    and reshares in any interleaving, with fresh draws at every start. */
module Committee {
  import opened Wrappers
  import opened Field
  import opened Vss
  import opened ValidatorNode
  import opened Holdings
  import Dkg
  import DkgCeremony
  import Rotation
  import ReshareCeremony

  /** What a member broadcast for a ceremony: the scalars drawn when its start was accepted. */
  datatype KeyDeal = KeyDeal(id: Bytes16, dealer: u16, d: Dkg.Dealing)
  datatype ZeroDeal = ZeroDeal(id: Bytes16, dealer: u16, d: Rotation.ZeroDealing)

  /** A validator, the dealings behind its stored ceremonies and what its stored share stands for. */
  datatype Member = Member(
    node: Node,
    keyUsed: map<Bytes16, DkgCeremony.Dealings>,
    zeroUsed: map<Bytes16, ReshareCeremony.ZeroDealings>,
    holding: Option<Holding>)

  /** A finalised key generation: by whom, from which dealings, and the result. */
  datatype Output = Output(id: Bytes16, i: u16, used: DkgCeremony.Dealings, value: Dkg.DkgFinalised)

  /** The members, every accepted broadcast in order, and every finalised key generation. */
  datatype System = System(
    members: map<u16, Member>, keyDeals: seq<KeyDeal>, zeroDeals: seq<ZeroDeal>, outputs: seq<Output>)

  const IDLE: Member := Member(Node(None, 0, 0, map[], map[], map[], map[]), map[], map[], None)
  const INITIAL: System := System(map[], [], [], [])

  function MemberOf(s: System, i: u16): Member {
    if i in s.members then s.members[i] else IDLE
  }

  /** A relay names the broadcast it carries by its position. */
  datatype Step =
    | KeyStart(i: u16, id: Bytes16, d: Dkg.Dealing, now: nat)
    | KeyRelay(to: u16, j: nat)
    | KeyFinalize(i: u16, id: Bytes16)
    | ZeroStart(i: u16, id: Bytes16, z: Rotation.ZeroDealing, now: nat)
    | ZeroRelay(to: u16, j: nat)
    | ZeroFinalize(i: u16, id: Bytes16)
    | Prune(i: u16, now: nat, ceremonyTtl: nat, sessionTtl: nat)
    | Elsewhere(i: u16, node: Node)

  /** The stores of the other protocols are in order. */
  ghost predicate OthersSound(node: Node) {
    SoundNode(node.(dkg := map[], reshare := map[]))
  }

  /** Honest requests: members start ceremonies under the ceremony's parameters, and only what was
      broadcast is relayed, to a member. Nothing constrains order, repetition, loss or the draws.
      `Elsewhere` is anything the validator's other handlers do, such as signing. */
  ghost predicate Enabled(c: Setting, s: System, step: Step) {
    match step
    case KeyStart(i, id, d, _) => id in c.key && d.Fits(c.key[id]) && 1 <= i <= c.key[id].n
    case KeyRelay(to, j) =>
      j < |s.keyDeals| && s.keyDeals[j].id in c.key && 1 <= to <= c.key[s.keyDeals[j].id].n
      && to != s.keyDeals[j].dealer
    case KeyFinalize(_, _) => true
    case ZeroStart(i, id, z, _) =>
      var share := MemberOf(s, i).node.share;
      && id in c.rotation && z.Fits(c.rotation[id]) && 1 <= i <= c.rotation[id].n
      && (share.Some? ==> VssParameters(share.value.n, share.value.t) == c.rotation[id])
    case ZeroRelay(to, j) =>
      j < |s.zeroDeals| && s.zeroDeals[j].id in c.rotation && 1 <= to <= c.rotation[s.zeroDeals[j].id].n
      && to != s.zeroDeals[j].dealer
    case ZeroFinalize(_, _) => true
    case Prune(_, _, _, _) => true
    case Elsewhere(i, node) =>
      var before := MemberOf(s, i).node;
      && node.dkg == before.dkg && node.reshare == before.reshare && node.share == before.share
      && OthersSound(node)
  }

  // ---------------------------------------------------------------- the steps

  /** A start opens an entry of the ledger with the validator's own dealing. */
  function Opened<D>(ledger: map<Bytes16, map<u16, D>>, id: Bytes16, own: map<u16, D>): map<Bytes16, map<u16, D>> {
    ledger + map[id := own]
  }

  /** A relay adds a dealing to the entry, if there is one. */
  function Extended<D>(ledger: map<Bytes16, map<u16, D>>, id: Bytes16, k: u16, d: D): map<Bytes16, map<u16, D>> {
    if id in ledger then ledger + map[id := ledger[id][k := d]] else ledger
  }

  function KeyStarted(c: Setting, m: Member, i: u16, id: Bytes16, d: Dkg.Dealing, now: nat): (Member, bool)
    requires id in c.key && |d.fTail| + 1 == |d.gTape|
  {
    var (node, r) := OnDkgStart(m.node, id, i, c.key[id].n, c.key[id].t, d, now);
    (m.(node := node, keyUsed := if r.Ok? then Opened(m.keyUsed, id, map[i := d]) else m.keyUsed), r.Ok?)
  }

  ghost function KeyRelayed(c: Setting, m: Member, to: u16, deal: KeyDeal): Member
    requires deal.id in c.key && deal.d.Fits(c.key[deal.id]) && 1 <= to <= c.key[deal.id].n
  {
    var peer := Dkg.Relayed(deal.id, to, deal.dealer, c.key[deal.id], deal.d);
    var (node, r) := OnDkgContribute(m.node, deal.id, deal.dealer, peer);
    m.(node := node,
       keyUsed := if r.Ok? then Extended(m.keyUsed, deal.id, deal.dealer, deal.d) else m.keyUsed)
  }

  ghost function KeyFinalized(m: Member, i: u16, id: Bytes16): (Member, seq<Output>)
    requires SoundNode(m.node)
  {
    var (node, r) := OnDkgFinalize(m.node, id);
    if r.Ok? && id in m.keyUsed
    then (m.(node := node, holding := Some(Holding(id, m.keyUsed[id], []))), [Output(id, i, m.keyUsed[id], r.value)])
    else (m.(node := node), [])
  }

  function ZeroStarted(m: Member, i: u16, id: Bytes16, z: Rotation.ZeroDealing, now: nat): (Member, bool)
    requires |z.fTail| + 1 == |z.gTape|
  {
    var (node, r) := OnReshareStart(m.node, id, z, now);
    (m.(node := node, zeroUsed := if r.Ok? then Opened(m.zeroUsed, id, map[i := z]) else m.zeroUsed), r.Ok?)
  }

  ghost function ZeroRelayed(c: Setting, m: Member, to: u16, deal: ZeroDeal): Member
    requires deal.id in c.rotation && deal.d.Fits(c.rotation[deal.id]) && 1 <= to <= c.rotation[deal.id].n
  {
    var peer := Rotation.Relayed(deal.id, to, deal.dealer, c.rotation[deal.id], deal.d);
    var (node, r) := OnReshareContribute(m.node, deal.id, deal.dealer, peer);
    m.(node := node,
       zeroUsed := if r.Ok? then Extended(m.zeroUsed, deal.id, deal.dealer, deal.d) else m.zeroUsed)
  }

  ghost function ZeroFinalized(m: Member, id: Bytes16): Member
    requires SoundNode(m.node)
  {
    var (node, r) := OnReshareFinalize(m.node, id);
    if r.Ok? && id in m.zeroUsed && m.holding.Some?
    then m.(node := node,
            holding := Some(m.holding.value.(added := m.holding.value.added + [Addition(id, m.zeroUsed[id])])))
    else m.(node := node)
  }

  ghost function Next(c: Setting, s: System, step: Step): System
    requires c.Sensible() && Enabled(c, s, step) && Inv(c, s)
  {
    match step
    case KeyStart(i, id, d, now) =>
      var (m, accepted) := KeyStarted(c, MemberOf(s, i), i, id, d, now);
      s.(members := s.members[i := m],
         keyDeals := if accepted then s.keyDeals + [KeyDeal(id, i, d)] else s.keyDeals)
    case KeyRelay(to, j) =>
      DealFits(c, s, s.keyDeals[j]);
      s.(members := s.members[to := KeyRelayed(c, MemberOf(s, to), to, s.keyDeals[j])])
    case KeyFinalize(i, id) =>
      MemberSound(c, s, i);
      var (m, out) := KeyFinalized(MemberOf(s, i), i, id);
      s.(members := s.members[i := m], outputs := s.outputs + out)
    case ZeroStart(i, id, z, now) =>
      var (m, accepted) := ZeroStarted(MemberOf(s, i), i, id, z, now);
      s.(members := s.members[i := m],
         zeroDeals := if accepted then s.zeroDeals + [ZeroDeal(id, i, z)] else s.zeroDeals)
    case ZeroRelay(to, j) =>
      ZeroDealFits(c, s, s.zeroDeals[j]);
      s.(members := s.members[to := ZeroRelayed(c, MemberOf(s, to), to, s.zeroDeals[j])])
    case ZeroFinalize(i, id) =>
      MemberSound(c, s, i);
      s.(members := s.members[i := ZeroFinalized(MemberOf(s, i), id)])
    case Prune(i, now, ceremonyTtl, sessionTtl) =>
      var m := MemberOf(s, i);
      s.(members := s.members[i := m.(node := OnPrune(m.node, now, ceremonyTtl, sessionTtl))])
    case Elsewhere(i, node) =>
      s.(members := s.members[i := MemberOf(s, i).(node := node)])
  }

  ghost predicate HonestRun(c: Setting, steps: seq<Step>)
    requires c.Sensible()
    decreases |steps|, 0
  {
    steps == [] ||
    (&& HonestRun(c, steps[..|steps| - 1])
     && Enabled(c, Run(c, steps[..|steps| - 1]), steps[|steps| - 1]))
  }

  ghost function Run(c: Setting, steps: seq<Step>): (s: System)
    requires c.Sensible() && HonestRun(c, steps)
    ensures Inv(c, s)
    decreases |steps|, 1
  {
    if steps == [] then
      InitialInv(c);
      INITIAL
    else
      var before := Run(c, steps[..|steps| - 1]);
      NextKeepsInv(c, before, steps[|steps| - 1]);
      Next(c, before, steps[|steps| - 1])
  }

  // ---------------------------------------------------------------- the invariant

  /** Every dealing in use was broadcast for this ceremony by its dealer. */
  ghost predicate KeyBroadcast(deals: seq<KeyDeal>, id: Bytes16, used: DkgCeremony.Dealings) {
    forall k :: k in used ==> KeyDeal(id, k, used[k]) in deals
  }

  ghost predicate ZeroBroadcast(deals: seq<ZeroDeal>, id: Bytes16, used: ReshareCeremony.ZeroDealings) {
    forall k :: k in used ==> ZeroDeal(id, k, used[k]) in deals
  }

  ghost predicate KeySession(c: Setting, deals: seq<KeyDeal>, i: u16, m: Member, id: Bytes16)
    requires id in m.node.dkg
  {
    && id in c.key && id in m.keyUsed
    && DkgCeremony.Tracks(c.key[id], id, i, m.node.dkg[id], m.keyUsed[id])
    && KeyBroadcast(deals, id, m.keyUsed[id])
  }

  ghost predicate ZeroSession(c: Setting, deals: seq<ZeroDeal>, i: u16, m: Member, id: Bytes16)
    requires id in m.node.reshare
  {
    && id in c.rotation && id in m.zeroUsed && m.holding.Some?
    && ReshareCeremony.Tracks(c.rotation[id], id, i, m.node.reshare[id], m.zeroUsed[id])
    && ZeroBroadcast(deals, id, m.zeroUsed[id])
  }

  ghost predicate HoldingBroadcast(keys: seq<KeyDeal>, zeros: seq<ZeroDeal>, h: Holding) {
    KeyBroadcast(keys, h.id, h.used) && forall a :: a in h.added ==> ZeroBroadcast(zeros, a.id, a.used)
  }

  /** The stored share is the record of what the validator finalised. */
  ghost predicate Holds(c: Setting, keys: seq<KeyDeal>, zeros: seq<ZeroDeal>, i: u16, m: Member) {
    && (m.holding.Some? <==> m.node.share.Some?)
    && (m.holding.Some? ==>
          && Fits(c, m.holding.value) && HoldingBroadcast(keys, zeros, m.holding.value)
          && 1 <= i <= c.key[m.holding.value.id].n
          && Records(c, i, m.node.share.value, m.holding.value))
  }

  ghost predicate MemberInv(c: Setting, keys: seq<KeyDeal>, zeros: seq<ZeroDeal>, i: u16, m: Member) {
    && OthersSound(m.node)
    && (forall id :: id in m.node.dkg ==> KeySession(c, keys, i, m, id))
    && (forall id :: id in m.node.reshare ==> ZeroSession(c, zeros, i, m, id))
    && Holds(c, keys, zeros, i, m)
  }

  ghost predicate OutputInv(c: Setting, keys: seq<KeyDeal>, out: Output) {
    && FitsKey(c, out.id, out.used) && 1 <= out.i <= c.key[out.id].n
    && KeyBroadcast(keys, out.id, out.used)
    && out.value == DkgCeremony.Expected(c.key[out.id], out.used, out.i)
  }

  ghost predicate KeyDealInv(c: Setting, deal: KeyDeal) {
    deal.id in c.key && deal.d.Fits(c.key[deal.id]) && 1 <= deal.dealer <= c.key[deal.id].n
  }

  ghost predicate ZeroDealInv(c: Setting, deal: ZeroDeal) {
    deal.id in c.rotation && deal.d.Fits(c.rotation[deal.id]) && 1 <= deal.dealer <= c.rotation[deal.id].n
  }

  ghost predicate Inv(c: Setting, s: System) {
    && (forall i :: i in s.members ==> MemberInv(c, s.keyDeals, s.zeroDeals, i, s.members[i]))
    && (forall deal :: deal in s.keyDeals ==> KeyDealInv(c, deal))
    && (forall deal :: deal in s.zeroDeals ==> ZeroDealInv(c, deal))
    && (forall out :: out in s.outputs ==> OutputInv(c, s.keyDeals, out))
  }

  lemma InitialInv(c: Setting)
    ensures Inv(c, INITIAL)
  {
  }

  lemma DealFits(c: Setting, s: System, deal: KeyDeal)
    requires Inv(c, s) && deal in s.keyDeals
    ensures KeyDealInv(c, deal)
  {
  }

  lemma ZeroDealFits(c: Setting, s: System, deal: ZeroDeal)
    requires Inv(c, s) && deal in s.zeroDeals
    ensures ZeroDealInv(c, deal)
  {
  }

  lemma MemberOfInv(c: Setting, s: System, i: u16)
    requires Inv(c, s)
    ensures MemberInv(c, s.keyDeals, s.zeroDeals, i, MemberOf(s, i))
  {
    hide KeyBroadcast, ZeroBroadcast, HoldingBroadcast, Fits, Records;
  }

  lemma InvSound(c: Setting, keys: seq<KeyDeal>, zeros: seq<ZeroDeal>, i: u16, m: Member)
    requires MemberInv(c, keys, zeros, i, m)
    ensures SoundNode(m.node)
  {
    hide SoundDkg, SoundReshare, DkgCeremony.Tracks, ReshareCeremony.Tracks, KeyBroadcast, ZeroBroadcast, Holds;
    forall id | id in m.node.dkg
      ensures SoundDkg(m.node.dkg[id])
    {
      assert KeySession(c, keys, i, m, id);
      DkgCeremony.TrackedSound(c.key[id], id, i, m.node.dkg[id], m.keyUsed[id]);
    }
    forall id | id in m.node.reshare
      ensures SoundReshare(m.node.reshare[id])
    {
      assert ZeroSession(c, zeros, i, m, id);
      ReshareCeremony.TrackedSound(c.rotation[id], id, i, m.node.reshare[id], m.zeroUsed[id]);
    }
  }

  lemma MemberSound(c: Setting, s: System, i: u16)
    requires Inv(c, s)
    ensures SoundNode(MemberOf(s, i).node)
  {
    hide Inv, MemberOf, MemberInv, SoundNode;
    MemberOfInv(c, s, i);
    InvSound(c, s.keyDeals, s.zeroDeals, i, MemberOf(s, i));
  }

  // ---------------------------------------------------------------- more broadcasts change nothing

  ghost predicate Grows(s: System, s': System) {
    && (forall deal :: deal in s.keyDeals ==> deal in s'.keyDeals)
    && (forall deal :: deal in s.zeroDeals ==> deal in s'.zeroDeals)
  }

  lemma MemberGrows(c: Setting, s: System, s': System, i: u16, m: Member)
    requires MemberInv(c, s.keyDeals, s.zeroDeals, i, m) && Grows(s, s')
    ensures MemberInv(c, s'.keyDeals, s'.zeroDeals, i, m)
  {
    hide OthersSound, DkgCeremony.Tracks, ReshareCeremony.Tracks, Fits, Records;
    forall id | id in m.node.dkg
      ensures KeySession(c, s'.keyDeals, i, m, id)
    {
      assert KeySession(c, s.keyDeals, i, m, id);
    }
    forall id | id in m.node.reshare
      ensures ZeroSession(c, s'.zeroDeals, i, m, id)
    {
      assert ZeroSession(c, s.zeroDeals, i, m, id);
    }
  }

  lemma OutputGrows(c: Setting, s: System, s': System, out: Output)
    requires OutputInv(c, s.keyDeals, out) && Grows(s, s')
    ensures OutputInv(c, s'.keyDeals, out)
  {
    hide FitsKey, DkgCeremony.Expected;
  }

  lemma UpdateKeeps(c: Setting, s: System, s': System, i: u16)
    requires Inv(c, s) && Grows(s, s') && i in s'.members && s'.members == s.members[i := s'.members[i]]
    requires MemberInv(c, s'.keyDeals, s'.zeroDeals, i, s'.members[i])
    requires forall deal :: deal in s'.keyDeals ==> deal in s.keyDeals || KeyDealInv(c, deal)
    requires forall deal :: deal in s'.zeroDeals ==> deal in s.zeroDeals || ZeroDealInv(c, deal)
    requires forall out :: out in s'.outputs ==> out in s.outputs || OutputInv(c, s'.keyDeals, out)
    ensures Inv(c, s')
  {
    hide MemberInv, Grows, OutputInv, KeyDealInv, ZeroDealInv;
    forall k | k in s'.members
      ensures MemberInv(c, s'.keyDeals, s'.zeroDeals, k, s'.members[k])
    {
      if k != i {
        MemberGrows(c, s, s', k, s.members[k]);
      }
    }
    forall out | out in s'.outputs
      ensures OutputInv(c, s'.keyDeals, out)
    {
      if out in s.outputs {
        OutputGrows(c, s, s', out);
      }
    }
  }

  // ---------------------------------------------------------------- each step keeps it

  lemma OthersKept(node: Node, after: Node)
    requires OthersSound(node) && after.sign == node.sign && after.refresh == node.refresh
    ensures OthersSound(after)
  {
    hide SoundReshare, SoundDkg;
  }

  lemma KeyStartKeeps(
      c: Setting, s: System, i: u16, m: Member, id: Bytes16, d: Dkg.Dealing, now: nat, keys: seq<KeyDeal>)
    requires MemberInv(c, s.keyDeals, s.zeroDeals, i, m) && Grows(s, s.(keyDeals := keys))
    requires id in c.key && d.Fits(c.key[id]) && 1 <= i <= c.key[id].n
    requires KeyStarted(c, m, i, id, d, now).1 ==> KeyDeal(id, i, d) in keys
    ensures MemberInv(c, keys, s.zeroDeals, i, KeyStarted(c, m, i, id, d, now).0)
  {
    hide OthersSound, DkgCeremony.Tracks, ReshareCeremony.Tracks, OnDkgStart, Holds, Grows, Dkg.Round1Of;
    var after := KeyStarted(c, m, i, id, d, now).0;
    DkgCeremony.StartAccepted(m.node, id, i, c.key[id], d, now);
    DkgCeremony.TracksNew(c.key[id], id, i, d, now);
    OthersKept(m.node, after.node);
    MemberGrows(c, s, s.(keyDeals := keys), i, m);
    HoldsKept(c, keys, s.zeroDeals, i, m, after);
    forall x | x in after.node.dkg
      ensures KeySession(c, keys, i, after, x)
    {
      if x in m.node.dkg {
        assert KeySession(c, keys, i, m, x);
      }
    }
    forall x | x in after.node.reshare
      ensures ZeroSession(c, s.zeroDeals, i, after, x)
    {
      assert ZeroSession(c, s.zeroDeals, i, m, x);
    }
  }

  lemma HoldsKept(
      c: Setting, keys: seq<KeyDeal>, zeros: seq<ZeroDeal>, i: u16, m: Member, after: Member)
    requires Holds(c, keys, zeros, i, m) && after.holding == m.holding && after.node.share == m.node.share
    ensures Holds(c, keys, zeros, i, after)
  {
    hide Fits, HoldingBroadcast, Records;
  }

  lemma KeyRelayKeeps(
      c: Setting, keys: seq<KeyDeal>, zeros: seq<ZeroDeal>, to: u16, m: Member, deal: KeyDeal)
    requires MemberInv(c, keys, zeros, to, m) && deal in keys && KeyDealInv(c, deal)
    requires 1 <= to <= c.key[deal.id].n && to != deal.dealer
    ensures MemberInv(c, keys, zeros, to, KeyRelayed(c, m, to, deal))
  {
    hide OthersSound, DkgCeremony.Tracks, ReshareCeremony.Tracks, Holds, Dkg.Relayed;
    var after := KeyRelayed(c, m, to, deal);
    OthersKept(m.node, after.node);
    HoldsKept(c, keys, zeros, to, m, after);
    forall x | x in after.node.dkg
      ensures KeySession(c, keys, to, after, x)
    {
      assert KeySession(c, keys, to, m, x);
      if x == deal.id {
        DkgCeremony.TracksWith(c.key[x], x, to, m.node.dkg[x], m.keyUsed[x], deal.dealer, deal.d);
      }
    }
    forall x | x in after.node.reshare
      ensures ZeroSession(c, zeros, to, after, x)
    {
      assert ZeroSession(c, zeros, to, m, x);
    }
  }

  lemma KeyFinalizeKeeps(
      c: Setting, keys: seq<KeyDeal>, zeros: seq<ZeroDeal>, i: u16, m: Member, id: Bytes16)
    requires MemberInv(c, keys, zeros, i, m) && SoundNode(m.node)
    ensures MemberInv(c, keys, zeros, i, KeyFinalized(m, i, id).0)
    ensures forall out :: out in KeyFinalized(m, i, id).1 ==> OutputInv(c, keys, out)
  {
    hide OthersSound, DkgCeremony.Tracks, DkgCeremony.Complete, ReshareCeremony.Tracks, OnDkgFinalize, Records,
      DkgCeremony.Expected, RecordOf, SoundNode;
    var after := KeyFinalized(m, i, id).0;
    if id !in m.node.dkg {
      DkgCeremony.FinalizeMissing(m.node, id);
    } else {
      assert KeySession(c, keys, i, m, id);
      var params, used := c.key[id], m.keyUsed[id];
      DkgCeremony.FinalizeTracked(m.node, id, i, params, used);
      TrackedMember(params, id, i, m.node.dkg[id], used);
      if |m.node.dkg[id].peers| == params.n - 1 {
        FreshRecord(c, i, id, used);
        OthersKept(m.node, after.node);
        forall x | x in after.node.dkg
          ensures KeySession(c, keys, i, after, x)
        {
          assert KeySession(c, keys, i, m, x);
        }
        forall x | x in after.node.reshare
          ensures ZeroSession(c, zeros, i, after, x)
        {
          assert ZeroSession(c, zeros, i, m, x);
        }
      }
    }
  }

  lemma TrackedMember(
      params: VssParameters, id: Bytes16, i: u16, session: DkgCeremony.DkgSession, used: DkgCeremony.Dealings)
    requires DkgCeremony.Tracks(params, id, i, session, used)
    ensures 1 <= i <= params.n
    ensures DkgCeremony.Complete(used, params) ==> Dkg.Dealt(used, params)
  {
    hide Dkg.Round1Of, Dkg.Relayed;
  }

  lemma ZeroStartKeeps(
      c: Setting, s: System, i: u16, m: Member, id: Bytes16, z: Rotation.ZeroDealing, now: nat, zeros: seq<ZeroDeal>)
    requires MemberInv(c, s.keyDeals, s.zeroDeals, i, m) && Grows(s, s.(zeroDeals := zeros))
    requires id in c.rotation && z.Fits(c.rotation[id]) && 1 <= i <= c.rotation[id].n
    requires m.node.share.Some? ==> VssParameters(m.node.share.value.n, m.node.share.value.t) == c.rotation[id]
    requires ZeroStarted(m, i, id, z, now).1 ==> ZeroDeal(id, i, z) in zeros
    ensures MemberInv(c, s.keyDeals, zeros, i, ZeroStarted(m, i, id, z, now).0)
  {
    hide OthersSound, DkgCeremony.Tracks, ReshareCeremony.Tracks, OnReshareStart, Grows, Rotation.Round1Of, Fits,
      HoldingBroadcast, KeyOf, PolyOf;
    var after := ZeroStarted(m, i, id, z, now).0;
    if m.node.share.None? {
      ReshareCeremony.StartUnloaded(m.node, id, z, now);
    } else {
      ReshareCeremony.StartAccepted(m.node, id, i, c.rotation[id], z, now);
    }
    hide Records;
    ReshareCeremony.TracksNew(c.rotation[id], id, i, z, now);
    OthersKept(m.node, after.node);
    MemberGrows(c, s, s.(zeroDeals := zeros), i, m);
    HoldsKept(c, s.keyDeals, zeros, i, m, after);
    forall x | x in after.node.dkg
      ensures KeySession(c, s.keyDeals, i, after, x)
    {
      assert KeySession(c, s.keyDeals, i, m, x);
    }
    forall x | x in after.node.reshare
      ensures ZeroSession(c, zeros, i, after, x)
    {
      if x in m.node.reshare {
        assert ZeroSession(c, zeros, i, m, x);
      }
    }
  }

  lemma ZeroRelayKeeps(
      c: Setting, keys: seq<KeyDeal>, zeros: seq<ZeroDeal>, to: u16, m: Member, deal: ZeroDeal)
    requires MemberInv(c, keys, zeros, to, m) && deal in zeros && ZeroDealInv(c, deal)
    requires 1 <= to <= c.rotation[deal.id].n && to != deal.dealer
    ensures MemberInv(c, keys, zeros, to, ZeroRelayed(c, m, to, deal))
  {
    hide OthersSound, DkgCeremony.Tracks, ReshareCeremony.Tracks, Holds, Rotation.Relayed;
    var after := ZeroRelayed(c, m, to, deal);
    OthersKept(m.node, after.node);
    HoldsKept(c, keys, zeros, to, m, after);
    forall x | x in after.node.dkg
      ensures KeySession(c, keys, to, after, x)
    {
      assert KeySession(c, keys, to, m, x);
    }
    forall x | x in after.node.reshare
      ensures ZeroSession(c, zeros, to, after, x)
    {
      assert ZeroSession(c, zeros, to, m, x);
      if x == deal.id {
        ReshareCeremony.TracksWith(c.rotation[x], x, to, m.node.reshare[x], m.zeroUsed[x], deal.dealer, deal.d);
      }
    }
  }

  lemma RecordedShare(c: Setting, i: u16, rec: ShareRecord, h: Holding)
    requires Records(c, i, rec, h)
    ensures rec.myShare < Q
  {
    hide KeyOf, PolyOf;
  }

  lemma HoldingWith(keys: seq<KeyDeal>, zeros: seq<ZeroDeal>, c: Setting, h: Holding, a: Addition)
    requires Fits(c, h) && HoldingBroadcast(keys, zeros, h)
    requires FitsAddition(c, a) && ZeroBroadcast(zeros, a.id, a.used)
    ensures var h' := h.(added := h.added + [a]);
            Fits(c, h') && HoldingBroadcast(keys, zeros, h')
  {
    hide FitsAddition, ZeroBroadcast, FitsKey, KeyBroadcast;
  }

  lemma ZeroFinalizeKeeps(
      c: Setting, keys: seq<KeyDeal>, zeros: seq<ZeroDeal>, i: u16, m: Member, id: Bytes16)
    requires MemberInv(c, keys, zeros, i, m) && SoundNode(m.node)
    ensures MemberInv(c, keys, zeros, i, ZeroFinalized(m, id))
  {
    hide OthersSound, DkgCeremony.Tracks, ReshareCeremony.Tracks, ReshareCeremony.Complete, OnReshareFinalize,
      Records, SoundNode, ReshareCeremony.Moved, Fits, HoldingBroadcast;
    var after := ZeroFinalized(m, id);
    if id !in m.node.reshare {
      ReshareCeremony.FinalizeMissing(m.node, id);
    } else {
      assert ZeroSession(c, zeros, i, m, id);
      var params, used, rec, h := c.rotation[id], m.zeroUsed[id], m.node.share.value, m.holding.value;
      RecordedShare(c, i, rec, h);
      ReshareCeremony.FinalizeTracked(m.node, id, i, params, used, rec);
      if |m.node.reshare[id].peers| == params.n - 1 {
        ZeroFinalizedHolds(c, keys, zeros, i, m, id);
        OthersKept(m.node, after.node);
        forall x | x in after.node.dkg
          ensures KeySession(c, keys, i, after, x)
        {
          assert KeySession(c, keys, i, m, x);
        }
        forall x | x in after.node.reshare
          ensures ZeroSession(c, zeros, i, after, x)
        {
          assert ZeroSession(c, zeros, i, m, x);
        }
      }
    }
  }

  lemma ZeroFinalizedHolds(
      c: Setting, keys: seq<KeyDeal>, zeros: seq<ZeroDeal>, i: u16, m: Member, id: Bytes16)
    requires Holds(c, keys, zeros, i, m) && SoundNode(m.node) && id in m.node.reshare
    requires ZeroSession(c, zeros, i, m, id) && |m.node.reshare[id].peers| == c.rotation[id].n - 1
    ensures Holds(c, keys, zeros, i, ZeroFinalized(m, id))
  {
    hide DkgCeremony.Tracks, ReshareCeremony.Tracks, ReshareCeremony.Complete, OnReshareFinalize,
      Records, SoundNode, ReshareCeremony.Moved, Fits, HoldingBroadcast, ZeroBroadcast;
    var params, used, rec, h := c.rotation[id], m.zeroUsed[id], m.node.share.value, m.holding.value;
    RecordedShare(c, i, rec, h);
    ReshareCeremony.FinalizeTracked(m.node, id, i, params, used, rec);
    MovedRecord(c, i, rec, h, Addition(id, used));
    HoldingWith(keys, zeros, c, h, Addition(id, used));
  }

  lemma PruneKeeps(
      c: Setting, keys: seq<KeyDeal>, zeros: seq<ZeroDeal>, i: u16, m: Member, now: nat, ceremonyTtl: nat,
      sessionTtl: nat)
    requires MemberInv(c, keys, zeros, i, m)
    ensures MemberInv(c, keys, zeros, i, m.(node := OnPrune(m.node, now, ceremonyTtl, sessionTtl)))
  {
    hide DkgCeremony.Tracks, ReshareCeremony.Tracks, Holds, SoundDkg, SoundReshare, KeyBroadcast, ZeroBroadcast;
    var after := m.(node := OnPrune(m.node, now, ceremonyTtl, sessionTtl));
    HoldsKept(c, keys, zeros, i, m, after);
    forall x | x in after.node.dkg
      ensures KeySession(c, keys, i, after, x)
    {
      assert KeySession(c, keys, i, m, x);
    }
    forall x | x in after.node.reshare
      ensures ZeroSession(c, zeros, i, after, x)
    {
      assert ZeroSession(c, zeros, i, m, x);
    }
  }

  lemma ElsewhereKeeps(
      c: Setting, keys: seq<KeyDeal>, zeros: seq<ZeroDeal>, i: u16, m: Member, node: Node)
    requires MemberInv(c, keys, zeros, i, m) && OthersSound(node)
    requires node.dkg == m.node.dkg && node.reshare == m.node.reshare && node.share == m.node.share
    ensures MemberInv(c, keys, zeros, i, m.(node := node))
  {
    hide DkgCeremony.Tracks, ReshareCeremony.Tracks, Holds, OthersSound, KeyBroadcast, ZeroBroadcast;
    var after := m.(node := node);
    HoldsKept(c, keys, zeros, i, m, after);
    forall x | x in after.node.dkg
      ensures KeySession(c, keys, i, after, x)
    {
      assert KeySession(c, keys, i, m, x);
    }
    forall x | x in after.node.reshare
      ensures ZeroSession(c, zeros, i, after, x)
    {
      assert ZeroSession(c, zeros, i, m, x);
    }
  }

  lemma NextKeepsInv(c: Setting, s: System, step: Step)
    requires c.Sensible() && Inv(c, s) && Enabled(c, s, step)
    ensures Inv(c, Next(c, s, step))
  {
    hide Inv, MemberInv, MemberOf, KeyStarted, KeyRelayed, KeyFinalized, ZeroStarted, ZeroRelayed, ZeroFinalized,
      OutputInv, OnPrune, OthersSound, SoundNode;
    var s' := Next(c, s, step);
    match step
    case KeyStart(i, id, d, now) =>
      MemberOfInv(c, s, i);
      KeyStartKeeps(c, s, i, MemberOf(s, i), id, d, now, s'.keyDeals);
      UpdateKeeps(c, s, s', i);
    case KeyRelay(to, j) =>
      MemberOfInv(c, s, to);
      DealFits(c, s, s.keyDeals[j]);
      KeyRelayKeeps(c, s.keyDeals, s.zeroDeals, to, MemberOf(s, to), s.keyDeals[j]);
      UpdateKeeps(c, s, s', to);
    case KeyFinalize(i, id) =>
      MemberOfInv(c, s, i);
      MemberSound(c, s, i);
      KeyFinalizeKeeps(c, s.keyDeals, s.zeroDeals, i, MemberOf(s, i), id);
      UpdateKeeps(c, s, s', i);
    case ZeroStart(i, id, z, now) =>
      MemberOfInv(c, s, i);
      ZeroStartKeeps(c, s, i, MemberOf(s, i), id, z, now, s'.zeroDeals);
      UpdateKeeps(c, s, s', i);
    case ZeroRelay(to, j) =>
      MemberOfInv(c, s, to);
      ZeroDealFits(c, s, s.zeroDeals[j]);
      ZeroRelayKeeps(c, s.keyDeals, s.zeroDeals, to, MemberOf(s, to), s.zeroDeals[j]);
      UpdateKeeps(c, s, s', to);
    case ZeroFinalize(i, id) =>
      MemberOfInv(c, s, i);
      MemberSound(c, s, i);
      ZeroFinalizeKeeps(c, s.keyDeals, s.zeroDeals, i, MemberOf(s, i), id);
      UpdateKeeps(c, s, s', i);
    case Prune(i, now, ceremonyTtl, sessionTtl) =>
      MemberOfInv(c, s, i);
      PruneKeeps(c, s.keyDeals, s.zeroDeals, i, MemberOf(s, i), now, ceremonyTtl, sessionTtl);
      UpdateKeeps(c, s, s', i);
    case Elsewhere(i, node) =>
      MemberOfInv(c, s, i);
      ElsewhereKeeps(c, s.keyDeals, s.zeroDeals, i, MemberOf(s, i), node);
      UpdateKeeps(c, s, s', i);
  }
}
