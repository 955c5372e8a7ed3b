/** The same for reshare: a reused identifier leaves members with shares of different polynomials, under
    the same key. */
module RotationRestarts {
  import opened Wrappers
  import opened Lists
  import opened Field
  import opened Polynomials
  import opened Vss
  import opened Lagrange
  import opened ValidatorNode
  import opened Holdings
  import opened Committee
  import opened CommitteeSafety
  import opened CommitteeRestarts
  import Dkg
  import DkgCeremony
  import Rotation
  import ReshareCeremony

  // ---------------------------------------------------------------- reshare, step by step

  /** Member i has the ceremony in flight with these dealings. */
  ghost predicate ZeroOpen(s: System, i: u16, id: Bytes16, used: ReshareCeremony.ZeroDealings) {
    var m := MemberOf(s, i);
    id in m.node.reshare && id in m.zeroUsed && m.zeroUsed[id] == used
  }

  /** The loaded share has the ceremony's parameters. */
  ghost predicate Loaded(c: Setting, s: System, i: u16, id: Bytes16)
    requires id in c.rotation
  {
    var share := MemberOf(s, i).node.share;
    share.Some? && share.value.myIndex == i && VssParameters(share.value.n, share.value.t) == c.rotation[id]
  }

  lemma ZeroOpenMeans(s: System, i: u16, id: Bytes16, used: ReshareCeremony.ZeroDealings)
    requires ZeroOpen(s, i, id, used)
    ensures id in MemberOf(s, i).node.reshare && id in MemberOf(s, i).zeroUsed && MemberOf(s, i).zeroUsed[id] == used
  {
  }

  lemma ZeroOpenKept(
      s: System, s': System, k: u16, i: u16, id: Bytes16, used: ReshareCeremony.ZeroDealings)
    requires ZeroOpen(s, i, id, used) && OnlyAt(s, s', k) && i != k
    ensures ZeroOpen(s', i, id, used)
  {
    hide MemberOf;
  }

  lemma LoadedKept(c: Setting, s: System, s': System, i: u16, id: Bytes16)
    requires id in c.rotation && Loaded(c, s, i, id) && MemberOf(s', i).node.share == MemberOf(s, i).node.share
    ensures Loaded(c, s', i, id)
  {
    hide MemberOf;
  }

  lemma ZeroStartedMember(
      c: Setting, m: Member, i: u16, id: Bytes16, z: Rotation.ZeroDealing, now: nat)
    requires id in c.rotation && z.Fits(c.rotation[id]) && 1 <= i <= c.rotation[id].n && id !in m.node.reshare
    requires m.node.share.Some? && m.node.share.value.myIndex == i
    requires VssParameters(m.node.share.value.n, m.node.share.value.t) == c.rotation[id]
    ensures var (after, accepted) := ZeroStarted(m, i, id, z, now);
            && accepted && id in after.node.reshare && id in after.zeroUsed && after.zeroUsed[id] == map[i := z]
            && after.node.share == m.node.share && after.holding == m.holding
  {
    hide Rotation.Round1Of, OnReshareStart;
    ReshareCeremony.StartAccepted(m.node, id, i, c.rotation[id], z, now);
  }

  lemma ZeroStartOpens(
      c: Setting, s: System, i: u16, id: Bytes16, z: Rotation.ZeroDealing, now: nat)
    requires c.Sensible() && Inv(c, s) && Enabled(c, s, ZeroStart(i, id, z, now))
    requires id in c.rotation && z.Fits(c.rotation[id]) && 1 <= i <= c.rotation[id].n
    requires Loaded(c, s, i, id) && id !in MemberOf(s, i).node.reshare
    ensures var s' := Next(c, s, ZeroStart(i, id, z, now));
            && ZeroOpen(s', i, id, map[i := z]) && OnlyAt(s, s', i)
            && s' == s.(members := s'.members, zeroDeals := s.zeroDeals + [ZeroDeal(id, i, z)])
            && MemberOf(s', i).node.share == MemberOf(s, i).node.share
            && MemberOf(s', i).holding == MemberOf(s, i).holding
  {
    hide Inv, ZeroStarted, OnlyAt, MemberOf;
    ZeroStartedMember(c, MemberOf(s, i), i, id, z, now);
    Updated(s, i, ZeroStarted(MemberOf(s, i), i, id, z, now).0, Next(c, s, ZeroStart(i, id, z, now)));
  }

  lemma ZeroStartEnabled(
      c: Setting, s: System, i: u16, id: Bytes16, z: Rotation.ZeroDealing, now: nat)
    requires id in c.rotation && z.Fits(c.rotation[id]) && 1 <= i <= c.rotation[id].n && Loaded(c, s, i, id)
    ensures Enabled(c, s, ZeroStart(i, id, z, now))
  {
    hide MemberOf;
  }

  lemma ZeroRelayedMember(c: Setting, m: Member, to: u16, deal: ZeroDeal)
    requires deal.id in c.rotation && deal.d.Fits(c.rotation[deal.id]) && 1 <= to <= c.rotation[deal.id].n
    requires deal.id in m.node.reshare && deal.id in m.zeroUsed
    ensures var after := ZeroRelayed(c, m, to, deal);
            && deal.id in after.node.reshare && deal.id in after.zeroUsed
            && after.zeroUsed[deal.id] == m.zeroUsed[deal.id][deal.dealer := deal.d]
            && after.node.share == m.node.share && after.holding == m.holding
  {
    hide Rotation.Relayed;
  }

  lemma ZeroRelayExtends(
      c: Setting, s: System, to: u16, j: nat, used: ReshareCeremony.ZeroDealings)
    requires j < |s.zeroDeals| && ZeroOpen(s, to, s.zeroDeals[j].id, used)
    requires c.Sensible() && Inv(c, s) && Enabled(c, s, ZeroRelay(to, j))
    ensures var deal := s.zeroDeals[j];
            var s' := Next(c, s, ZeroRelay(to, j));
            && ZeroOpen(s', to, deal.id, used[deal.dealer := deal.d]) && OnlyAt(s, s', to)
            && s' == s.(members := s'.members)
            && MemberOf(s', to).node.share == MemberOf(s, to).node.share
            && MemberOf(s', to).holding == MemberOf(s, to).holding
  {
    hide Inv, ZeroRelayed, OnlyAt, MemberOf;
    ZeroDealFits(c, s, s.zeroDeals[j]);
    ZeroRelayedMember(c, MemberOf(s, to), to, s.zeroDeals[j]);
    Updated(s, to, ZeroRelayed(c, MemberOf(s, to), to, s.zeroDeals[j]), Next(c, s, ZeroRelay(to, j)));
  }

  lemma ZeroRelayAt(c: Setting, s: System, to: u16, j: nat)
    requires j < |s.zeroDeals| && s.zeroDeals[j].id in c.rotation && 1 <= to <= c.rotation[s.zeroDeals[j].id].n
    requires to != s.zeroDeals[j].dealer
    ensures Enabled(c, s, ZeroRelay(to, j))
  {
  }

  lemma ZeroFinalizedMember(
      c: Setting, m: Member, i: u16, id: Bytes16, used: ReshareCeremony.ZeroDealings)
    requires SoundNode(m.node) && id in m.node.reshare && id in m.zeroUsed && m.zeroUsed[id] == used
    requires id in c.rotation && ReshareCeremony.Complete(used, c.rotation[id])
    requires ReshareCeremony.Tracks(c.rotation[id], id, i, m.node.reshare[id], used)
    requires m.holding.Some? && m.node.share.Some? && m.node.share.value.myShare < Q
    ensures var after := ZeroFinalized(m, id);
            && after.node.reshare == m.node.reshare - {id}
            && SameCommittee(m.node.share, after.node.share, c.rotation[id].n, i)
            && after.holding == Some(m.holding.value.(added := m.holding.value.added + [Addition(id, used)]))
  {
    hide ReshareCeremony.Tracks, OnReshareFinalize, SoundNode, Rotation.ZeroSum, PolyAt, Red, UpTo;
    ReshareCeremony.TrackedCount(c.rotation[id], id, i, m.node.reshare[id], used);
    ReshareCeremony.FinalizeTracked(m.node, id, i, c.rotation[id], used, m.node.share.value);
  }

  lemma ZeroOpenTracked(
      c: Setting, s: System, i: u16, id: Bytes16, used: ReshareCeremony.ZeroDealings)
    requires Inv(c, s) && ZeroOpen(s, i, id, used)
    ensures SoundNode(MemberOf(s, i).node)
    ensures id in c.rotation && ReshareCeremony.Tracks(c.rotation[id], id, i, MemberOf(s, i).node.reshare[id], used)
    ensures MemberOf(s, i).holding.Some? && MemberOf(s, i).node.share.Some?
    ensures MemberOf(s, i).node.share.value.myShare < Q
    ensures 1 <= i <= c.rotation[id].n
  {
    MemberSound(c, s, i);
    MemberOfInv(c, s, i);
    hide Inv, MemberOf, OthersSound, Rotation.Round1Of, Rotation.Relayed, SoundNode, Fits, HoldingBroadcast, KeyOf,
      PolyOf;
    assert ZeroSession(c, s.zeroDeals, i, MemberOf(s, i), id);
  }

  lemma NextZeroFinalize(c: Setting, s: System, i: u16, id: Bytes16)
    requires c.Sensible() && Inv(c, s)
    ensures SoundNode(MemberOf(s, i).node) && Enabled(c, s, ZeroFinalize(i, id))
    ensures Next(c, s, ZeroFinalize(i, id)) == s.(members := s.members[i := ZeroFinalized(MemberOf(s, i), id)])
  {
    hide Inv, ZeroFinalized, MemberOf, SoundNode;
    MemberSound(c, s, i);
  }

  /** The holding after one more ceremony. */
  function Extend(h: Holding, id: Bytes16, used: ReshareCeremony.ZeroDealings): Holding {
    h.(added := h.added + [Addition(id, used)])
  }

  /** A ceremony leaves a record for index i with the ceremony's size and the threshold there was. */
  ghost predicate SameCommittee(before: Option<ShareRecord>, after: Option<ShareRecord>, n: u16, i: u16) {
    && before.Some? && after.Some?
    && after.value.myIndex == i && after.value.n == n && after.value.t == before.value.t
  }

  /** Member i has finalised the ceremony with these dealings, and nothing else has changed. */
  ghost predicate ZeroStored(
    s: System, s': System, i: u16, n: u16, id: Bytes16, used: ReshareCeremony.ZeroDealings)
  {
    && MemberOf(s, i).holding.Some?
    && MemberOf(s', i).holding == Some(Extend(MemberOf(s, i).holding.value, id, used))
    && id !in MemberOf(s', i).node.reshare
    && SameCommittee(MemberOf(s, i).node.share, MemberOf(s', i).node.share, n, i)
    && s' == s.(members := s'.members) && OnlyAt(s, s', i)
  }

  lemma ZeroFinalizeStores(
      c: Setting, s: System, s': System, i: u16, id: Bytes16, used: ReshareCeremony.ZeroDealings)
    requires Inv(c, s) && ZeroOpen(s, i, id, used) && SoundNode(MemberOf(s, i).node)
    requires FitsAddition(c, Addition(id, used))
    requires s' == s.(members := s.members[i := ZeroFinalized(MemberOf(s, i), id)])
    ensures ZeroStored(s, s', i, c.rotation[id].n, id, used)
  {
    hide ZeroOpen, OnlyAt, MemberOf, Inv, ZeroFinalized, SoundNode, ReshareCeremony.Tracks, ReshareCeremony.Complete;
    ZeroOpenTracked(c, s, i, id, used);
    ZeroOpenMeans(s, i, id, used);
    ZeroFinalizedMember(c, MemberOf(s, i), i, id, used);
    Updated(s, i, ZeroFinalized(MemberOf(s, i), id), s');
  }

  lemma ZeroStoredMeans(
      s: System, s': System, i: u16, n: u16, id: Bytes16, used: ReshareCeremony.ZeroDealings, k: u16)
    requires ZeroStored(s, s', i, n, id, used) && k != i
    ensures MemberOf(s, i).holding.Some?
    ensures MemberOf(s', i).holding == Some(Extend(MemberOf(s, i).holding.value, id, used))
    ensures id !in MemberOf(s', i).node.reshare
    ensures OnlyAt(s, s', i) && MemberOf(s', k) == MemberOf(s, k)
    ensures s'.zeroDeals == s.zeroDeals && s'.keyDeals == s.keyDeals
  {
    hide MemberOf;
  }

  // ---------------------------------------------------------------- a reshare restarted

  function ZeroRestart(s: System, i: u16, k: u16, id: Bytes16, again: Rotation.ZeroDealing, now: nat): seq<Step> {
    [ZeroStart(k, id, again, now), ZeroRelay(i, |s.zeroDeals|), ZeroFinalize(i, id)]
  }

  /** Wherever a run has led: if i has all contributions but has not finalised, and k no longer has the
      reshare in flight, k's second start is accepted and i's share moves by the dealing drawn then. */
  lemma ZeroRestartRuns(
      c: Setting, steps: seq<Step>, i: u16, k: u16, id: Bytes16, used: ReshareCeremony.ZeroDealings,
      again: Rotation.ZeroDealing, now: nat)
    requires c.Sensible() && HonestRun(c, steps) && ZeroOpen(Run(c, steps), i, id, used)
    requires FitsAddition(c, Addition(id, used)) && again.Fits(c.rotation[id])
    requires 1 <= k <= c.rotation[id].n && k != i
    requires Loaded(c, Run(c, steps), k, id) && id !in MemberOf(Run(c, steps), k).node.reshare
    ensures var s := Run(c, steps);
            var more := steps + ZeroRestart(s, i, k, id, again, now);
            && HonestRun(c, more) && MemberOf(s, i).holding.Some?
            && MemberOf(Run(c, more), i).holding == Some(Extend(MemberOf(s, i).holding.value, id, used[k := again]))
            && MemberOf(Run(c, more), k).holding == MemberOf(s, k).holding
  {
    var s := Run(c, steps);
    var start, relay, last := ZeroStart(k, id, again, now), ZeroRelay(i, |s.zeroDeals|), ZeroFinalize(i, id);
    Appended(steps, start, relay, last);
    hide *;
    ZeroOpenTracked(c, s, i, id, used);
    UsedReplaced(c, id, used, k, again);
    ZeroStartEnabled(c, s, k, id, again, now);
    RunNext(c, steps, start);
    ZeroStartOpens(c, s, k, id, again, now);
    var s1 := Next(c, s, start);
    OnlyAtMeans(s, s1, k, i);
    ZeroOpenKept(s, s1, k, i, id, used);
    ZeroRelayAt(c, s1, i, |s.zeroDeals|);
    RunNext(c, steps + [start], relay);
    ZeroRelayExtends(c, s1, i, |s.zeroDeals|, used);
    var s2 := Next(c, s1, relay);
    OnlyAtMeans(s1, s2, i, k);
    NextZeroFinalize(c, s2, i, id);
    RunNext(c, steps + [start] + [relay], last);
    ZeroFinalizeStores(c, s2, Next(c, s2, last), i, id, used[k := again]);
    ZeroStoredMeans(s2, Next(c, s2, last), i, c.rotation[id].n, id, used[k := again], k);
  }

  lemma UsedReplaced(
      c: Setting, id: Bytes16, used: ReshareCeremony.ZeroDealings, k: u16, again: Rotation.ZeroDealing)
    requires FitsAddition(c, Addition(id, used)) && again.Fits(c.rotation[id]) && 1 <= k <= c.rotation[id].n
    ensures k in used && FitsAddition(c, Addition(id, used[k := again]))
    ensures ReshareCeremony.Complete(used[k := again], c.rotation[id])
  {
  }

  lemma ExtendedAt(c: Setting, h: Holding, id: Bytes16, used: ReshareCeremony.ZeroDealings, x: int)
    requires FitsAddition(c, Addition(id, used))
    ensures PolyAt(PolyOf(c, Extend(h, id, used)), x) ==
            PolyAt(PolyOf(c, h), x) + PolyAt(Rotation.ZeroSum(c.rotation[id], used), x)
  {
    hide PolyAt, PolyAdd, KeyPoly, Rotation.ZeroSum;
    assert (h.added + [Addition(id, used)])[..|h.added|] == h.added;
    PolyAddAt(PolyOf(c, h), AddedPoly(c, Addition(id, used)), x);
  }

  /** How far the two then are apart: their keys are the same, and their sharings are the same iff the two
      dealt polynomials are. */
  lemma ZeroRestartSplits(
      c: Setting, h: Holding, id: Bytes16, used: ReshareCeremony.ZeroDealings, k: u16, again: Rotation.ZeroDealing)
    requires FitsAddition(c, Addition(id, used)) && again.Fits(c.rotation[id]) && 1 <= k <= c.rotation[id].n
    ensures KeyOf(c, Extend(h, id, used)) == KeyOf(c, Extend(h, id, used[k := again]))
    ensures k in used
    ensures SameShares(c.rotation[id], PolyOf(c, Extend(h, id, used)), PolyOf(c, Extend(h, id, used[k := again]))) <==>
            used[k].F() == again.F()
  {
    hide Red, PolyAt, Rotation.ZeroSum, SameCoefficients, SameShares, PolyAfter, FitsAddition;
    KeyAlone(c, h, id, used, again, k);
    ReplacedShares(c, h, id, used, k, again);
    SameSharesIff(c.rotation[id], used[k].F(), again.F());
    ScalarsSame(used[k].F(), again.F());
  }

  lemma KeyAlone(
      c: Setting, h: Holding, id: Bytes16, used: ReshareCeremony.ZeroDealings, again: Rotation.ZeroDealing, k: u16)
    requires FitsAddition(c, Addition(id, used)) && again.Fits(c.rotation[id]) && 1 <= k <= c.rotation[id].n
    ensures KeyOf(c, Extend(h, id, used)) == KeyOf(c, Extend(h, id, used[k := again]))
    ensures id in c.rotation && k in used && used[k].Fits(c.rotation[id])
    ensures |used[k].F()| == |again.F()| <= c.rotation[id].n
  {
    hide KeyPoly, PolyAt;
  }

  lemma ReplacedShares(
      c: Setting, h: Holding, id: Bytes16, used: ReshareCeremony.ZeroDealings, k: u16, again: Rotation.ZeroDealing)
    requires FitsAddition(c, Addition(id, used)) && again.Fits(c.rotation[id]) && 1 <= k <= c.rotation[id].n
    ensures k in used
    ensures SameShares(c.rotation[id], PolyOf(c, Extend(h, id, used)), PolyOf(c, Extend(h, id, used[k := again]))) <==>
            SameShares(c.rotation[id], used[k].F(), again.F())
  {
    UsedReplaced(c, id, used, k, again);
    var params := c.rotation[id];
    hide Red, PolyAt, PolyOf, Rotation.ZeroSum, Extend, FitsAddition;
    var f, g := PolyOf(c, Extend(h, id, used)), PolyOf(c, Extend(h, id, used[k := again]));
    forall x: u16 | 1 <= x <= params.n
      ensures Red(PolyAt(f, x)) == Red(PolyAt(g, x)) <==> Red(PolyAt(used[k].F(), x)) == Red(PolyAt(again.F(), x))
    {
      ReplacedValue(c, h, id, used, k, again, x);
    }
  }

  lemma ReplacedValue(
      c: Setting, h: Holding, id: Bytes16, used: ReshareCeremony.ZeroDealings, k: u16, again: Rotation.ZeroDealing,
      x: u16)
    requires FitsAddition(c, Addition(id, used)) && again.Fits(c.rotation[id]) && 1 <= k <= c.rotation[id].n
    ensures k in used
    ensures var f, g := PolyOf(c, Extend(h, id, used)), PolyOf(c, Extend(h, id, used[k := again]));
            Red(PolyAt(f, x)) == Red(PolyAt(g, x)) <==> Red(PolyAt(used[k].F(), x)) == Red(PolyAt(again.F(), x))
  {
    hide Red, PolyAt, PolyOf, Rotation.ZeroSum, Extend;
    UsedReplaced(c, id, used, k, again);
    ExtendedAt(c, h, id, used, x);
    ExtendedAt(c, h, id, used[k := again], x);
    ReshareCeremony.ReplacedAt(c.rotation[id], used, k, again, x);
    Shifted(PolyAt(PolyOf(c, Extend(h, id, used)), x), PolyAt(used[k].F(), x), PolyAt(again.F(), x));
  }

  // ---------------------------------------------------------------- a run from the beginning

  function TwoKeyed(id: Bytes16, d1: Dkg.Dealing, d2: Dkg.Dealing): seq<Step> {
    TwoMembers(id, d1, d2) + [KeyFinalize(1, id)]
  }

  /** A key generation by two members, then a reshare that member 2 has finalised and member 1 could. */
  function TwoResharing(
    id: Bytes16, d1: Dkg.Dealing, d2: Dkg.Dealing, rid: Bytes16, z1: Rotation.ZeroDealing, z2: Rotation.ZeroDealing)
    : seq<Step>
  {
    TwoZeroStarted(id, d1, d2, rid, z1, z2) + [ZeroRelay(1, 1)] + [ZeroRelay(2, 0)] + [ZeroFinalize(2, rid)]
  }

  function TwoZeroStarted(
    id: Bytes16, d1: Dkg.Dealing, d2: Dkg.Dealing, rid: Bytes16, z1: Rotation.ZeroDealing, z2: Rotation.ZeroDealing)
    : seq<Step>
  {
    TwoKeyed(id, d1, d2) + [ZeroStart(1, rid, z1, 0)] + [ZeroStart(2, rid, z2, 0)]
  }

  ghost predicate TwoFit(
    c: Setting, id: Bytes16, d1: Dkg.Dealing, d2: Dkg.Dealing, rid: Bytes16, z1: Rotation.ZeroDealing,
    z2: Rotation.ZeroDealing)
  {
    && id in c.key && c.key[id].n == 2 && d1.Fits(c.key[id]) && d2.Fits(c.key[id])
    && rid in c.rotation && c.rotation[rid] == c.key[id] && z1.Fits(c.rotation[rid]) && z2.Fits(c.rotation[rid])
  }

  /** Both members hold fresh shares and no reshare is in flight. */
  ghost predicate BothKeyed(c: Setting, s: System, h: Holding, rid: Bytes16)
    requires rid in c.rotation
  {
    && s.zeroDeals == []
    && MemberOf(s, 1).holding == Some(h) && MemberOf(s, 2).holding == Some(h)
    && Loaded(c, s, 1, rid) && Loaded(c, s, 2, rid)
    && MemberOf(s, 1).node.reshare == map[] && MemberOf(s, 2).node.reshare == map[]
  }

  lemma TwoKeyedRun(
      c: Setting, id: Bytes16, d1: Dkg.Dealing, d2: Dkg.Dealing, rid: Bytes16, z1: Rotation.ZeroDealing,
      z2: Rotation.ZeroDealing)
    requires c.Sensible() && TwoFit(c, id, d1, d2, rid, z1, z2)
    ensures HonestRun(c, TwoKeyed(id, d1, d2))
    ensures BothKeyed(c, Run(c, TwoKeyed(id, d1, d2)), Holding(id, Both(d1, d2), []), rid)
  {
    var before, last, used := TwoMembers(id, d1, d2), KeyFinalize(1, id), Both(d1, d2);
    assert TwoKeyed(id, d1, d2) == before + [last];
    hide *;
    FitMeans(c, id, d1, d2, rid, z1, z2);
    BothFit(c, id, d1, d2);
    TwoMembersRun(c, id, d1, d2);
    var s := Run(c, before);
    NextKeyFinalize(c, s, 1, id);
    RunNext(c, before, last);
    var s' := Next(c, s, last);
    KeyFinalizeStores(c, s, s', 1, id, used);
    StoredElsewhere(c, s, s', 1, id, used, 2);
    FreshLoaded(c, s', 1, id, used, rid);
    FreshLoaded(c, s, 2, id, used, rid);
    LoadedKept(c, s, s', 2, rid);
    BothKeyedIs(c, s', Holding(id, used, []), rid);
  }

  lemma FitMeans(
      c: Setting, id: Bytes16, d1: Dkg.Dealing, d2: Dkg.Dealing, rid: Bytes16, z1: Rotation.ZeroDealing,
      z2: Rotation.ZeroDealing)
    requires TwoFit(c, id, d1, d2, rid, z1, z2)
    ensures id in c.key && c.key[id].n == 2 && d1.Fits(c.key[id]) && d2.Fits(c.key[id])
    ensures rid in c.rotation && c.rotation[rid] == c.key[id] && z1.Fits(c.rotation[rid]) && z2.Fits(c.rotation[rid])
    ensures FitsAddition(c, Addition(rid, Both(z1, z2))) && ReshareCeremony.Complete(Both(z1, z2), c.rotation[rid])
  {
  }

  lemma BothKeyedIs(c: Setting, s: System, h: Holding, rid: Bytes16)
    requires rid in c.rotation && s.zeroDeals == []
    requires MemberOf(s, 1).holding == Some(h) && MemberOf(s, 2).holding == Some(h)
    requires Loaded(c, s, 1, rid) && Loaded(c, s, 2, rid)
    requires MemberOf(s, 1).node.reshare == map[] && MemberOf(s, 2).node.reshare == map[]
    ensures BothKeyed(c, s, h, rid)
  {
    hide MemberOf, Loaded;
  }

  lemma BothKeyedMeans(c: Setting, s: System, h: Holding, rid: Bytes16)
    requires rid in c.rotation && BothKeyed(c, s, h, rid)
    ensures s.zeroDeals == []
    ensures MemberOf(s, 1).holding == Some(h) && MemberOf(s, 2).holding == Some(h)
    ensures Loaded(c, s, 1, rid) && Loaded(c, s, 2, rid)
    ensures rid !in MemberOf(s, 1).node.reshare && rid !in MemberOf(s, 2).node.reshare
  {
    hide MemberOf, Loaded;
  }

  lemma FreshLoaded(
      c: Setting, s: System, i: u16, id: Bytes16, used: DkgCeremony.Dealings, rid: Bytes16)
    requires id in c.key && rid in c.rotation && c.rotation[rid] == c.key[id] && Dkg.Dealt(used, c.key[id])
    requires MemberOf(s, i).node.share ==
             Some(RecordOf(DkgCeremony.Expected(c.key[id], used, i), c.key[id].n, c.key[id].t))
    ensures Loaded(c, s, i, rid)
  {
    hide MemberOf, Dkg.JointPoly, PolyAt, UpTo;
  }

  lemma TwoZeroStartedRun(
      c: Setting, id: Bytes16, d1: Dkg.Dealing, d2: Dkg.Dealing, rid: Bytes16, z1: Rotation.ZeroDealing,
      z2: Rotation.ZeroDealing)
    requires c.Sensible() && TwoFit(c, id, d1, d2, rid, z1, z2) && rid in c.rotation
    ensures HonestRun(c, TwoZeroStarted(id, d1, d2, rid, z1, z2))
    ensures var s := Run(c, TwoZeroStarted(id, d1, d2, rid, z1, z2));
            && ZeroOpen(s, 1, rid, map[1 := z1]) && ZeroOpen(s, 2, rid, map[2 := z2])
            && |s.zeroDeals| == 2 && s.zeroDeals[0] == ZeroDeal(rid, 1, z1) && s.zeroDeals[1] == ZeroDeal(rid, 2, z2)
            && MemberOf(s, 1).holding == MemberOf(s, 2).holding == Some(Holding(id, Both(d1, d2), []))
            && Loaded(c, s, 1, rid) && Loaded(c, s, 2, rid)
  {
    var before, start1, start2 := TwoKeyed(id, d1, d2), ZeroStart(1, rid, z1, 0), ZeroStart(2, rid, z2, 0);
    assert TwoZeroStarted(id, d1, d2, rid, z1, z2) == before + [start1] + [start2];
    hide *;
    FitMeans(c, id, d1, d2, rid, z1, z2);
    TwoKeyedRun(c, id, d1, d2, rid, z1, z2);
    var s := Run(c, before);
    BothKeyedMeans(c, s, Holding(id, Both(d1, d2), []), rid);
    ZeroStartEnabled(c, s, 1, rid, z1, 0);
    RunNext(c, before, start1);
    ZeroStartOpens(c, s, 1, rid, z1, 0);
    var s1 := Next(c, s, start1);
    OnlyAtMeans(s, s1, 1, 2);
    LoadedKept(c, s, s1, 1, rid);
    LoadedKept(c, s, s1, 2, rid);
    ZeroStartEnabled(c, s1, 2, rid, z2, 0);
    RunNext(c, before + [start1], start2);
    ZeroStartOpens(c, s1, 2, rid, z2, 0);
    var s2 := Next(c, s1, start2);
    OnlyAtMeans(s1, s2, 2, 1);
    LoadedKept(c, s1, s2, 1, rid);
    LoadedKept(c, s1, s2, 2, rid);
    ZeroOpenKept(s1, s2, 2, 1, rid, map[1 := z1]);
    FirstTwo(s.zeroDeals, ZeroDeal(rid, 1, z1), ZeroDeal(rid, 2, z2));
  }

  lemma FirstTwo<T>(s: seq<T>, x: T, y: T)
    requires s == []
    ensures |s + [x] + [y]| == 2 && (s + [x] + [y])[0] == x && (s + [x] + [y])[1] == y
  {
  }

  /** Both members have both dealings of the reshare. */
  lemma TwoZeroRelayedRun(
      c: Setting, id: Bytes16, d1: Dkg.Dealing, d2: Dkg.Dealing, rid: Bytes16, z1: Rotation.ZeroDealing,
      z2: Rotation.ZeroDealing)
    requires c.Sensible() && TwoFit(c, id, d1, d2, rid, z1, z2) && rid in c.rotation
    ensures var steps := TwoZeroStarted(id, d1, d2, rid, z1, z2) + [ZeroRelay(1, 1)] + [ZeroRelay(2, 0)];
            && HonestRun(c, steps)
            && var s := Run(c, steps);
            && ZeroOpen(s, 1, rid, Both(z1, z2)) && ZeroOpen(s, 2, rid, Both(z1, z2))
            && MemberOf(s, 1).holding == MemberOf(s, 2).holding == Some(Holding(id, Both(d1, d2), []))
            && Loaded(c, s, 2, rid)
  {
    var before := TwoZeroStarted(id, d1, d2, rid, z1, z2);
    BothIs(z1, z2);
    hide *;
    FitMeans(c, id, d1, d2, rid, z1, z2);
    TwoZeroStartedRun(c, id, d1, d2, rid, z1, z2);
    var s := Run(c, before);
    ZeroRelayAt(c, s, 1, 1);
    RunNext(c, before, ZeroRelay(1, 1));
    ZeroRelayExtends(c, s, 1, 1, map[1 := z1]);
    var s1 := Next(c, s, ZeroRelay(1, 1));
    OnlyAtMeans(s, s1, 1, 2);
    ZeroOpenKept(s, s1, 1, 2, rid, map[2 := z2]);
    LoadedKept(c, s, s1, 2, rid);
    ZeroRelayAt(c, s1, 2, 0);
    RunNext(c, before + [ZeroRelay(1, 1)], ZeroRelay(2, 0));
    ZeroRelayExtends(c, s1, 2, 0, map[2 := z2]);
    var s2 := Next(c, s1, ZeroRelay(2, 0));
    OnlyAtMeans(s1, s2, 2, 1);
    ZeroOpenKept(s1, s2, 2, 1, rid, Both(z1, z2));
    LoadedKept(c, s1, s2, 2, rid);
  }

  lemma TwoResharingRun(
      c: Setting, id: Bytes16, d1: Dkg.Dealing, d2: Dkg.Dealing, rid: Bytes16, z1: Rotation.ZeroDealing,
      z2: Rotation.ZeroDealing)
    requires c.Sensible() && TwoFit(c, id, d1, d2, rid, z1, z2) && rid in c.rotation
    ensures HonestRun(c, TwoResharing(id, d1, d2, rid, z1, z2))
    ensures var s := Run(c, TwoResharing(id, d1, d2, rid, z1, z2));
            && ZeroOpen(s, 1, rid, Both(z1, z2)) && rid !in MemberOf(s, 2).node.reshare
            && Loaded(c, s, 2, rid)
            && MemberOf(s, 1).holding == Some(Holding(id, Both(d1, d2), []))
            && MemberOf(s, 2).holding == Some(Extend(Holding(id, Both(d1, d2), []), rid, Both(z1, z2)))
  {
    var before := TwoZeroStarted(id, d1, d2, rid, z1, z2) + [ZeroRelay(1, 1)] + [ZeroRelay(2, 0)];
    var last, used := ZeroFinalize(2, rid), Both(z1, z2);
    assert TwoResharing(id, d1, d2, rid, z1, z2) == before + [last];
    hide *;
    FitMeans(c, id, d1, d2, rid, z1, z2);
    TwoZeroRelayedRun(c, id, d1, d2, rid, z1, z2);
    var s := Run(c, before);
    NextZeroFinalize(c, s, 2, rid);
    RunNext(c, before, last);
    var s' := Next(c, s, last);
    ZeroFinalizeStores(c, s, s', 2, rid, used);
    ZeroStoredMeans(s, s', 2, c.rotation[rid].n, rid, used, 1);
    ZeroOpenKept(s, s', 2, 1, rid, used);
    StillLoaded(c, s, s', 2, rid, used);
  }

  /** Finalising keeps index, size and threshold. */
  lemma StillLoaded(
      c: Setting, s: System, s': System, i: u16, id: Bytes16, used: ReshareCeremony.ZeroDealings)
    requires id in c.rotation && Loaded(c, s, i, id) && ZeroStored(s, s', i, c.rotation[id].n, id, used)
    ensures Loaded(c, s', i, id)
  {
    hide MemberOf, OnlyAt;
  }

  /** A run from the beginning in which two honest members end under one key with shares of different
      polynomials, unless both dealings of the restarted member are one polynomial. */
  lemma TwoHoldingsDisagree(
      c: Setting, id: Bytes16, d1: Dkg.Dealing, d2: Dkg.Dealing, rid: Bytes16, z1: Rotation.ZeroDealing,
      z2: Rotation.ZeroDealing, again: Rotation.ZeroDealing, now: nat)
    requires c.Sensible() && TwoFit(c, id, d1, d2, rid, z1, z2) && rid in c.rotation && again.Fits(c.rotation[rid])
    ensures HonestRun(c, TwoResharing(id, d1, d2, rid, z1, z2))
    ensures var steps := TwoResharing(id, d1, d2, rid, z1, z2);
            var more := steps + ZeroRestart(Run(c, steps), 1, 2, rid, again, now);
            && HonestRun(c, more)
            && var s := Run(c, more);
            && MemberOf(s, 1).holding.Some? && MemberOf(s, 2).holding.Some?
            && var g, h := MemberOf(s, 1).holding.value, MemberOf(s, 2).holding.value;
            && KeyOf(c, g) == KeyOf(c, h)
            && (SameShares(c.rotation[rid], PolyOf(c, h), PolyOf(c, g)) <==> z2.F() == again.F())
  {
    var used, h := Both(z1, z2), Holding(id, Both(d1, d2), []);
    assert used[2] == z2;
    hide *;
    FitMeans(c, id, d1, d2, rid, z1, z2);
    TwoResharingRun(c, id, d1, d2, rid, z1, z2);
    ZeroRestartRuns(c, TwoResharing(id, d1, d2, rid, z1, z2), 1, 2, rid, used, again, now);
    ZeroRestartSplits(c, h, rid, used, 2, again);
  }
}
