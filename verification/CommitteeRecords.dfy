/** What the stored records say beside the share: over every run of the committee they name the key they hold a
    share of, keep its threshold and count the reshares. */
module CommitteeRecords {
  import opened Wrappers
  import opened Octets
  import opened Field
  import opened Schnorr
  import opened Vss
  import opened CeremonySessions
  import opened ValidatorNode
  import opened Holdings
  import opened Committee
  import Dkg
  import DkgCeremony
  import Rotation
  import ReshareCeremony

  // ---------------------------------------------------------------- one finalisation

  /** A key generation that finalises stores a record of the first epoch for its own key, with the size and the
      threshold of the ceremony; one that does not leaves the record alone. */
  lemma KeyRecord(node: Node, id: Bytes16)
    requires SoundNode(node)
    ensures var (after, r) := OnDkgFinalize(node, id);
            && (r.Err? ==> after.share == node.share)
            && (r.Ok? ==>
                  && id in node.dkg && after.share.Some?
                  && var rec := after.share.value;
                  && rec.keysetId == [2] + Le(32, rec.jointPk) && rec.epoch == 1
                  && rec.n == node.dkg[id].n && rec.t == node.dkg[id].myRound1.priv.params.t
                  && rec.jointPk == r.value.jointPk && rec.myIndex == r.value.myIndex
                  && rec.myShare == r.value.myShare && rec.qual == r.value.qual)
  {
    hide Dkg.DkgFinalizeResult, InKeyOrder, Le;
  }

  /** A reshare that finalises keeps keyset, key and threshold and raises the epoch by one as long as it fits 64
      bits; one that does not leaves the record alone. */
  lemma ZeroRecord(node: Node, id: Bytes16)
    requires SoundNode(node)
    ensures var (after, r) := OnReshareFinalize(node, id);
            && (r.Err? ==> after.share == node.share)
            && (r.Ok? ==>
                  && id in node.reshare && node.share.Some? && after.share.Some?
                  && var was, rec := node.share.value, after.share.value;
                  && rec.keysetId == was.keysetId && rec.jointPk == was.jointPk && rec.t == was.t
                  && rec.epoch == (if was.epoch == 0xffff_ffff_ffff_ffff then was.epoch else was.epoch + 1)
                  && rec.n == node.reshare[id].n && rec.myIndex == r.value.myIndex
                  && rec.myShare == r.value.newShare && rec.qual == r.value.qual)
  {
    hide Rotation.ReshareFinalizeResult, InKeyOrder;
  }

  // ---------------------------------------------------------------- runs

  function EpochAfter(reshares: nat): u64 {
    if reshares + 1 > 0xffff_ffff_ffff_ffff then 0xffff_ffff_ffff_ffff else reshares + 1
  }

  /** The record of a member is labelled with its key, that key's threshold and the number of its reshares. */
  ghost predicate Labelled(c: Setting, m: Member) {
    m.holding.Some? && m.node.share.Some? ==>
      var rec, h := m.node.share.value, m.holding.value;
      && rec.keysetId == [2] + Le(32, rec.jointPk) && rec.epoch == EpochAfter(|h.added|)
      && h.id in c.key && rec.t == c.key[h.id].t
  }

  lemma KeySessionKnown(c: Setting, s: System, i: u16, id: Bytes16)
    requires Inv(c, s) && id in MemberOf(s, i).node.dkg
    ensures var m := MemberOf(s, i);
            && id in m.keyUsed && id in c.key && m.node.dkg[id].myRound1.priv.params == c.key[id]
  {
    var m := MemberOf(s, i);
    MemberOfInv(c, s, i);
    hide Inv, MemberOf, OthersSound, Holds, KeyBroadcast;
    assert KeySession(c, s.keyDeals, i, m, id);
  }

  lemma ZeroSessionKnown(c: Setting, s: System, i: u16, id: Bytes16)
    requires Inv(c, s) && id in MemberOf(s, i).node.reshare
    ensures id in MemberOf(s, i).zeroUsed && MemberOf(s, i).holding.Some?
  {
    var m := MemberOf(s, i);
    MemberOfInv(c, s, i);
    hide Inv, MemberOf, OthersSound, Holds, ZeroBroadcast, ReshareCeremony.Tracks;
    assert ZeroSession(c, s.zeroDeals, i, m, id);
  }

  lemma KeyFinalizeLabels(c: Setting, s: System, i: u16, id: Bytes16)
    requires Inv(c, s) && SoundNode(MemberOf(s, i).node) && Labelled(c, MemberOf(s, i))
    ensures Labelled(c, KeyFinalized(MemberOf(s, i), i, id).0)
  {
    hide Inv, MemberOf, OnDkgFinalize, SoundNode, Le;
    var m := MemberOf(s, i);
    KeyRecord(m.node, id);
    if OnDkgFinalize(m.node, id).1.Ok? {
      KeySessionKnown(c, s, i, id);
    }
  }

  lemma ZeroFinalizeLabels(c: Setting, s: System, i: u16, id: Bytes16)
    requires Inv(c, s) && SoundNode(MemberOf(s, i).node) && Labelled(c, MemberOf(s, i))
    ensures Labelled(c, ZeroFinalized(MemberOf(s, i), id))
  {
    hide Inv, MemberOf, OnReshareFinalize, SoundNode, Le;
    var m := MemberOf(s, i);
    ZeroRecord(m.node, id);
    if OnReshareFinalize(m.node, id).1.Ok? {
      ZeroSessionKnown(c, s, i, id);
    }
  }

  /** Only finalisations touch the record and what it stands for. */
  lemma OthersLeaveRecords(c: Setting, s: System, step: Step, i: u16)
    requires c.Sensible() && Inv(c, s) && Enabled(c, s, step) && !step.KeyFinalize? && !step.ZeroFinalize?
    ensures var m, after := MemberOf(s, i), MemberOf(Next(c, s, step), i);
            after.holding == m.holding && after.node.share == m.node.share
  {
    hide Inv, OthersSound, OnDkgStart, OnReshareStart, OnDkgContribute, OnReshareContribute, OnPrune, Dkg.Relayed,
      Rotation.Relayed;
    match step
    case KeyStart(j, id, d, now) => StartsLeaveShare(MemberOf(s, j).node, j, id, c.key[id], d, now);
    case ZeroStart(j, id, z, now) => ZeroStartLeavesShare(MemberOf(s, j).node, id, z, now);
    case KeyRelay(to, k) =>
      DealFits(c, s, s.keyDeals[k]);
      var deal := s.keyDeals[k];
      RelayLeavesShare(MemberOf(s, to).node, deal.id, deal.dealer,
                       Dkg.Relayed(deal.id, to, deal.dealer, c.key[deal.id], deal.d));
    case ZeroRelay(to, k) =>
      ZeroDealFits(c, s, s.zeroDeals[k]);
      var deal := s.zeroDeals[k];
      ZeroRelayLeavesShare(MemberOf(s, to).node, deal.id, deal.dealer,
                           Rotation.Relayed(deal.id, to, deal.dealer, c.rotation[deal.id], deal.d));
    case Prune(j, now, ceremonyTtl, sessionTtl) =>
      PruneLeavesShare(MemberOf(s, j).node, now, ceremonyTtl, sessionTtl);
    case _ =>
  }

  lemma StartsLeaveShare(node: Node, i: u16, id: Bytes16, params: VssParameters, d: Dkg.Dealing, now: nat)
    requires |d.fTail| + 1 == |d.gTape|
    ensures OnDkgStart(node, id, i, params.n, params.t, d, now).0.share == node.share
  {
    hide Dkg.DkgStartResult;
  }

  lemma ZeroStartLeavesShare(node: Node, id: Bytes16, z: Rotation.ZeroDealing, now: nat)
    requires |z.fTail| + 1 == |z.gTape|
    ensures OnReshareStart(node, id, z, now).0.share == node.share
  {
    hide Rotation.ReshareStartResult;
  }

  lemma RelayLeavesShare(node: Node, id: Bytes16, from: u16, c: Dkg.PeerContribution)
    ensures OnDkgContribute(node, id, from, c).0.share == node.share
  {
  }

  lemma ZeroRelayLeavesShare(node: Node, id: Bytes16, from: u16, c: Rotation.ResharePeerContribution)
    ensures OnReshareContribute(node, id, from, c).0.share == node.share
  {
  }

  lemma PruneLeavesShare(node: Node, now: nat, ceremonyTtl: nat, sessionTtl: nat)
    ensures OnPrune(node, now, ceremonyTtl, sessionTtl).share == node.share
  {
  }

  lemma FinalizesOne(c: Setting, s: System, step: Step, i: u16)
    requires c.Sensible() && Inv(c, s) && Enabled(c, s, step) && (step.KeyFinalize? || step.ZeroFinalize?)
    requires SoundNode(MemberOf(s, step.i).node)
    ensures MemberOf(Next(c, s, step), i) ==
            if i != step.i then MemberOf(s, i)
            else if step.KeyFinalize? then KeyFinalized(MemberOf(s, i), i, step.id).0
            else ZeroFinalized(MemberOf(s, i), step.id)
  {
    hide Inv, KeyFinalized, ZeroFinalized, SoundNode;
  }

  lemma NextLabels(c: Setting, s: System, step: Step, i: u16)
    requires c.Sensible() && Inv(c, s) && Enabled(c, s, step) && Labelled(c, MemberOf(s, i))
    ensures Labelled(c, MemberOf(Next(c, s, step), i))
  {
    hide Inv, Next, MemberOf, Enabled, KeyFinalized, ZeroFinalized, SoundNode, Le;
    if step.KeyFinalize? {
      MemberSound(c, s, step.i);
      FinalizesOne(c, s, step, i);
      if i == step.i {
        KeyFinalizeLabels(c, s, i, step.id);
      }
    } else if step.ZeroFinalize? {
      MemberSound(c, s, step.i);
      FinalizesOne(c, s, step, i);
      if i == step.i {
        ZeroFinalizeLabels(c, s, i, step.id);
      }
    } else {
      OthersLeaveRecords(c, s, step, i);
    }
  }

  lemma RunNext(c: Setting, steps: seq<Step>)
    requires c.Sensible() && HonestRun(c, steps) && steps != []
    ensures var before, step := steps[..|steps| - 1], steps[|steps| - 1];
            && HonestRun(c, before) && Enabled(c, Run(c, before), step)
            && Run(c, steps) == Next(c, Run(c, before), step)
  {
    hide Inv, Next, Enabled;
  }

  lemma NothingRecorded(c: Setting, i: u16)
    requires c.Sensible()
    ensures HonestRun(c, []) && Labelled(c, MemberOf(Run(c, []), i))
  {
    hide Inv;
  }

  /** In every reachable state every stored record names its own key, has that key's threshold, and its epoch is one
      more than the number of reshares behind it, up to 2^64 - 1. */
  lemma {:induction false} RecordsAreLabelled(c: Setting, steps: seq<Step>, i: u16)
    requires c.Sensible() && HonestRun(c, steps)
    ensures Labelled(c, MemberOf(Run(c, steps), i))
  {
    hide *;
    if steps == [] {
      NothingRecorded(c, i);
    } else {
      RunNext(c, steps);
      RecordsAreLabelled(c, steps[..|steps| - 1], i);
      NextLabels(c, Run(c, steps[..|steps| - 1]), steps[|steps| - 1], i);
    }
  }
}
