/** What reusing a ceremony identifier does: runs in which a member's second start is accepted while
    another member still uses its first, and exactly how far the two then disagree. */
module CommitteeRestarts {
  import opened Wrappers
  import opened Lists
  import opened Field
  import opened Group
  import opened Schnorr
  import opened Polynomials
  import opened Vss
  import opened Lagrange
  import opened ValidatorNode
  import opened Holdings
  import opened Committee
  import opened CommitteeSafety
  import Dkg
  import DkgCeremony

  lemma RunNext(c: Setting, steps: seq<Step>, step: Step)
    requires c.Sensible() && HonestRun(c, steps) && Enabled(c, Run(c, steps), step)
    ensures HonestRun(c, steps + [step])
    ensures Run(c, steps + [step]) == Next(c, Run(c, steps), step)
  {
    hide Enabled, Next, Inv;
    assert (steps + [step])[..|steps|] == steps;
  }

  // ---------------------------------------------------------------- key generation, step by step

  /** Member i has the ceremony in flight with these dealings. */
  ghost predicate KeyOpen(s: System, i: u16, id: Bytes16, used: DkgCeremony.Dealings) {
    var m := MemberOf(s, i);
    id in m.node.dkg && id in m.keyUsed && m.keyUsed[id] == used
  }

  lemma Appended<T>(s: seq<T>, x: T, y: T, z: T)
    ensures s + [x, y, z] == s + [x] + [y] + [z]
  {
  }

  lemma Pair<T>(s: seq<T>, x: T, y: T)
    requires s == [x] + [y]
    ensures |s| == 2 && s[0] == x && s[1] == y
  {
  }

  /** Nobody but i changed. */
  ghost predicate OnlyAt(s: System, s': System, i: u16) {
    forall k: u16 :: k != i ==> MemberOf(s', k) == MemberOf(s, k)
  }

  lemma Updated(s: System, i: u16, m: Member, s': System)
    requires s'.members == s.members[i := m]
    ensures MemberOf(s', i) == m && OnlyAt(s, s', i)
  {
  }

  lemma KeyStartedMember(c: Setting, m: Member, i: u16, id: Bytes16, d: Dkg.Dealing, now: nat)
    requires id in c.key && d.Fits(c.key[id]) && 1 <= i <= c.key[id].n && id !in m.node.dkg
    ensures var (after, accepted) := KeyStarted(c, m, i, id, d, now);
            && accepted && id in after.node.dkg && id in after.keyUsed && after.keyUsed[id] == map[i := d]
            && after.node.share == m.node.share && after.holding == m.holding
            && after.node.reshare == m.node.reshare
  {
    hide Dkg.Round1Of, OnDkgStart;
    DkgCeremony.StartAccepted(m.node, id, i, c.key[id], d, now);
  }

  lemma KeyStartOpens(c: Setting, s: System, i: u16, id: Bytes16, d: Dkg.Dealing, now: nat)
    requires c.Sensible() && Inv(c, s) && Enabled(c, s, KeyStart(i, id, d, now)) && id !in MemberOf(s, i).node.dkg
    ensures var s' := Next(c, s, KeyStart(i, id, d, now));
            && KeyOpen(s', i, id, map[i := d]) && OnlyAt(s, s', i)
            && s' == s.(members := s'.members, keyDeals := s.keyDeals + [KeyDeal(id, i, d)])
            && MemberOf(s', i).node.share == MemberOf(s, i).node.share
            && MemberOf(s', i).holding == MemberOf(s, i).holding
            && MemberOf(s', i).node.reshare == MemberOf(s, i).node.reshare
  {
    hide Inv, KeyStarted, OnlyAt, MemberOf;
    KeyStartedMember(c, MemberOf(s, i), i, id, d, now);
    Updated(s, i, KeyStarted(c, MemberOf(s, i), i, id, d, now).0, Next(c, s, KeyStart(i, id, d, now)));
  }

  lemma KeyRelayedMember(c: Setting, m: Member, to: u16, deal: KeyDeal)
    requires deal.id in c.key && deal.d.Fits(c.key[deal.id]) && 1 <= to <= c.key[deal.id].n
    requires deal.id in m.node.dkg && deal.id in m.keyUsed
    ensures var after := KeyRelayed(c, m, to, deal);
            && deal.id in after.node.dkg && deal.id in after.keyUsed
            && after.keyUsed[deal.id] == m.keyUsed[deal.id][deal.dealer := deal.d]
            && after.node.share == m.node.share && after.holding == m.holding
            && after.node.reshare == m.node.reshare
  {
    hide Dkg.Relayed;
  }

  lemma KeyRelayExtends(c: Setting, s: System, to: u16, j: nat, used: DkgCeremony.Dealings)
    requires j < |s.keyDeals| && KeyOpen(s, to, s.keyDeals[j].id, used)
    requires c.Sensible() && Inv(c, s) && Enabled(c, s, KeyRelay(to, j))
    ensures var deal := s.keyDeals[j];
            var s' := Next(c, s, KeyRelay(to, j));
            && KeyOpen(s', to, deal.id, used[deal.dealer := deal.d]) && OnlyAt(s, s', to)
            && s' == s.(members := s'.members)
            && MemberOf(s', to).node.share == MemberOf(s, to).node.share
            && MemberOf(s', to).holding == MemberOf(s, to).holding
            && MemberOf(s', to).node.reshare == MemberOf(s, to).node.reshare
  {
    hide Inv, KeyRelayed, OnlyAt, MemberOf;
    DealFits(c, s, s.keyDeals[j]);
    KeyRelayedMember(c, MemberOf(s, to), to, s.keyDeals[j]);
    Updated(s, to, KeyRelayed(c, MemberOf(s, to), to, s.keyDeals[j]), Next(c, s, KeyRelay(to, j)));
  }

  lemma KeyFinalizedMember(
      c: Setting, m: Member, i: u16, id: Bytes16, used: DkgCeremony.Dealings)
    requires SoundNode(m.node) && id in m.node.dkg && id in m.keyUsed && m.keyUsed[id] == used
    requires FitsKey(c, id, used) && DkgCeremony.Tracks(c.key[id], id, i, m.node.dkg[id], used)
    ensures var (after, out) := KeyFinalized(m, i, id);
            && out == [Output(id, i, used, DkgCeremony.Expected(c.key[id], used, i))]
            && after.node == DkgCeremony.WithKey(m.node, id, c.key[id], used, i)
            && after.holding == Some(Holding(id, used, []))
  {
    hide DkgCeremony.Tracks, OnDkgFinalize, RecordOf, DkgCeremony.Expected, SoundNode;
    DkgCeremony.TrackedCount(c.key[id], id, i, m.node.dkg[id], used);
    DkgCeremony.FinalizeTracked(m.node, id, i, c.key[id], used);
  }

  lemma NextKeyFinalize(c: Setting, s: System, i: u16, id: Bytes16)
    requires c.Sensible() && Inv(c, s)
    ensures SoundNode(MemberOf(s, i).node) && Enabled(c, s, KeyFinalize(i, id))
    ensures var (m, out) := KeyFinalized(MemberOf(s, i), i, id);
            Next(c, s, KeyFinalize(i, id)) == s.(members := s.members[i := m], outputs := s.outputs + out)
  {
    hide Inv, KeyFinalized, MemberOf, SoundNode;
    MemberSound(c, s, i);
  }

  /** Member i has finalised the ceremony with these dealings, and nothing else has changed. */
  ghost predicate KeyStored(c: Setting, s: System, s': System, i: u16, id: Bytes16, used: DkgCeremony.Dealings)
    requires id in c.key && Dkg.Dealt(used, c.key[id])
  {
    && s'.outputs == s.outputs + [Output(id, i, used, DkgCeremony.Expected(c.key[id], used, i))]
    && s' == s.(members := s'.members, outputs := s'.outputs) && OnlyAt(s, s', i)
    && MemberOf(s', i).node == DkgCeremony.WithKey(MemberOf(s, i).node, id, c.key[id], used, i)
    && MemberOf(s', i).holding == Some(Holding(id, used, []))
  }

  lemma KeyFinalizeStores(
      c: Setting, s: System, s': System, i: u16, id: Bytes16, used: DkgCeremony.Dealings)
    requires Inv(c, s) && KeyOpen(s, i, id, used) && SoundNode(MemberOf(s, i).node)
    requires FitsKey(c, id, used) && Dkg.Dealt(used, c.key[id])
    requires var (m, out) := KeyFinalized(MemberOf(s, i), i, id);
             s' == s.(members := s.members[i := m], outputs := s.outputs + out)
    ensures KeyStored(c, s, s', i, id, used)
  {
    hide KeyOpen, OnlyAt, MemberOf, Inv, KeyFinalized, SoundNode, DkgCeremony.Expected, DkgCeremony.WithKey,
      DkgCeremony.Tracks, DkgCeremony.Complete, Dkg.Dealt;
    KeyOpenTracked(c, s, i, id, used);
    KeyOpenMeans(s, i, id, used);
    KeyFinalizedMember(c, MemberOf(s, i), i, id, used);
    Updated(s, i, KeyFinalized(MemberOf(s, i), i, id).0, s');
  }

  lemma KeyOpenMeans(s: System, i: u16, id: Bytes16, used: DkgCeremony.Dealings)
    requires KeyOpen(s, i, id, used)
    ensures id in MemberOf(s, i).node.dkg && id in MemberOf(s, i).keyUsed && MemberOf(s, i).keyUsed[id] == used
  {
  }

  lemma KeyOpenKept(
      s: System, s': System, k: u16, i: u16, id: Bytes16, used: DkgCeremony.Dealings)
    requires KeyOpen(s, i, id, used) && OnlyAt(s, s', k) && i != k
    ensures KeyOpen(s', i, id, used)
  {
    hide MemberOf;
  }

  lemma KeyOpenTracked(c: Setting, s: System, i: u16, id: Bytes16, used: DkgCeremony.Dealings)
    requires Inv(c, s) && KeyOpen(s, i, id, used)
    ensures SoundNode(MemberOf(s, i).node)
    ensures id in c.key && DkgCeremony.Tracks(c.key[id], id, i, MemberOf(s, i).node.dkg[id], used)
  {
    MemberSound(c, s, i);
    MemberOfInv(c, s, i);
    hide Inv, MemberOf, OthersSound, Holds, DkgCeremony.Tracks, SoundNode;
    assert KeySession(c, s.keyDeals, i, MemberOf(s, i), id);
  }

  /** Dealings of an open ceremony that lack nobody are complete. */
  lemma KeyOpenComplete(c: Setting, s: System, i: u16, id: Bytes16, used: DkgCeremony.Dealings)
    requires Inv(c, s) && KeyOpen(s, i, id, used)
    ensures id in c.key && 1 <= i <= c.key[id].n && DkgCeremony.Partly(used, c.key[id])
    ensures |MemberOf(s, i).node.dkg[id].peers| == c.key[id].n - 1 <==> FitsKey(c, id, used)
  {
    hide Inv, MemberOf, SoundNode, Dkg.Round1Of, Dkg.Relayed;
    KeyOpenTracked(c, s, i, id, used);
    DkgCeremony.TrackedCount(c.key[id], id, i, MemberOf(s, i).node.dkg[id], used);
  }

  // ---------------------------------------------------------------- a key generation restarted

  /** The three requests that make i finalise with k's second dealing. */
  function KeyRestart(s: System, i: u16, k: u16, id: Bytes16, again: Dkg.Dealing, now: nat): seq<Step> {
    [KeyStart(k, id, again, now), KeyRelay(i, |s.keyDeals|), KeyFinalize(i, id)]
  }

  /** Wherever a run has led: if i has all contributions but has not finalised, and k no longer has the
      ceremony in flight, k's second start is accepted and i finalises with the dealing drawn then. */
  lemma KeyRestartRuns(
      c: Setting, steps: seq<Step>, i: u16, k: u16, id: Bytes16, used: DkgCeremony.Dealings, again: Dkg.Dealing,
      now: nat)
    requires c.Sensible() && HonestRun(c, steps) && KeyOpen(Run(c, steps), i, id, used) && FitsKey(c, id, used)
    requires again.Fits(c.key[id]) && 1 <= k <= c.key[id].n && k != i && id !in MemberOf(Run(c, steps), k).node.dkg
    ensures FitsKey(c, id, used[k := again])
    ensures var s := Run(c, steps);
            var more := steps + KeyRestart(s, i, k, id, again, now);
            && HonestRun(c, more)
            && Run(c, more).outputs == s.outputs +
                 [Output(id, i, used[k := again], DkgCeremony.Expected(c.key[id], used[k := again], i))]
  {
    var s := Run(c, steps);
    var start, relay, last := KeyStart(k, id, again, now), KeyRelay(i, |s.keyDeals|), KeyFinalize(i, id);
    Appended(steps, start, relay, last);
    hide *;
    KeyOpenComplete(c, s, i, id, used);
    UsedReplaced(c, id, used, k, again);
    StartEnabled(c, s, k, id, again, now);
    RunNext(c, steps, start);
    KeyStartOpens(c, s, k, id, again, now);
    var s1 := Next(c, s, start);
    KeyOpenKept(s, s1, k, i, id, used);
    RelayEnabled(c, s, s1, i, KeyDeal(id, k, again));
    RunNext(c, steps + [start], relay);
    KeyRelayExtends(c, s1, i, |s.keyDeals|, used);
    var s2 := Next(c, s1, relay);
    NextKeyFinalize(c, s2, i, id);
    RunNext(c, steps + [start] + [relay], last);
    KeyFinalizeStores(c, s2, Next(c, s2, last), i, id, used[k := again]);
    StoredOutput(c, s2, Next(c, s2, last), i, id, used[k := again]);
  }

  lemma StartEnabled(c: Setting, s: System, k: u16, id: Bytes16, d: Dkg.Dealing, now: nat)
    requires id in c.key && d.Fits(c.key[id]) && 1 <= k <= c.key[id].n
    ensures Enabled(c, s, KeyStart(k, id, d, now))
  {
  }

  lemma RelayEnabled(c: Setting, s: System, s': System, i: u16, deal: KeyDeal)
    requires s'.keyDeals == s.keyDeals + [deal] && deal.id in c.key && 1 <= i <= c.key[deal.id].n && i != deal.dealer
    ensures Enabled(c, s', KeyRelay(i, |s.keyDeals|)) && s'.keyDeals[|s.keyDeals|] == deal
  {
  }

  lemma StoredOutput(
      c: Setting, s: System, s': System, i: u16, id: Bytes16, used: DkgCeremony.Dealings)
    requires id in c.key && Dkg.Dealt(used, c.key[id]) && KeyStored(c, s, s', i, id, used)
    ensures s'.outputs == s.outputs + [Output(id, i, used, DkgCeremony.Expected(c.key[id], used, i))]
  {
    hide DkgCeremony.Expected, OnlyAt, DkgCeremony.WithKey, MemberOf, Dkg.Dealt;
  }

  lemma UsedReplaced(
      c: Setting, id: Bytes16, used: DkgCeremony.Dealings, k: u16, again: Dkg.Dealing)
    requires FitsKey(c, id, used) && again.Fits(c.key[id]) && 1 <= k <= c.key[id].n
    ensures FitsKey(c, id, used[k := again]) && Dkg.Dealt(used[k := again], c.key[id])
    ensures DkgCeremony.Complete(used[k := again], c.key[id])
  {
  }

  lemma ReplacedShares(params: VssParameters, used: DkgCeremony.Dealings, k: u16, again: Dkg.Dealing)
    requires Dkg.Dealt(used, params) && 1 <= k <= params.n && again.Fits(params)
    ensures Dkg.Dealt(used[k := again], params)
    ensures SameShares(params, Dkg.JointPoly(params, used), Dkg.JointPoly(params, used[k := again])) <==>
            SameShares(params, used[k].F(), again.F())
  {
    hide Red, PolyAt, Dkg.JointPoly;
    var f, g := Dkg.JointPoly(params, used), Dkg.JointPoly(params, used[k := again]);
    forall x: u16 | 1 <= x <= params.n
      ensures Red(PolyAt(f, x)) == Red(PolyAt(g, x)) <==> Red(PolyAt(used[k].F(), x)) == Red(PolyAt(again.F(), x))
    {
      DkgCeremony.ReplacedAt(params, used, k, again, x);
      Shifted(PolyAt(f, x), PolyAt(used[k].F(), x), PolyAt(again.F(), x));
    }
  }

  lemma Shifted(x: int, a: int, b: int)
    ensures Red(x) == Red(x + b - a) <==> Red(a) == Red(b)
  {
    hide Red;
    RedDifference(a, b);
    RedScalar(0);
    if Red(b - a) == 0 {
      RedSum(x, x, b - a, 0);
    }
    if Red(x) == Red(x + b - a) {
      RedSum(x + b - a, x, x, x);
    }
  }

  lemma ReplacedSecret(params: VssParameters, used: DkgCeremony.Dealings, k: u16, again: Dkg.Dealing)
    requires Dkg.Dealt(used, params) && 1 <= k <= params.n && again.Fits(params)
    ensures Dkg.Dealt(used[k := again], params)
    ensures (Compress(Base(PolyAt(Dkg.JointPoly(params, used), 0))) ==
             Compress(Base(PolyAt(Dkg.JointPoly(params, used[k := again]), 0)))) <==> used[k].secret == again.secret
  {
    hide Red, Base, Compress, PolyAt, Dkg.JointPoly;
    var a, b := used[k].secret, again.secret;
    DkgCeremony.ReplacedAt(params, used, k, again, 0);
    PolyAtZero(used[k].F());
    PolyAtZero(again.F());
    KeysEqualIff(PolyAt(Dkg.JointPoly(params, used), 0), PolyAt(Dkg.JointPoly(params, used[k := again]), 0));
    Shifted(PolyAt(Dkg.JointPoly(params, used), 0), a, b);
    RedScalar(a);
    RedScalar(b);
  }

  /** How far i then disagrees with a member that used k's first dealing: on the key iff the two dealt
      secrets differ, and on the sharing iff the two dealt polynomials differ. */
  lemma KeyRestartSplits(
      c: Setting, id: Bytes16, used: DkgCeremony.Dealings, k: u16, again: Dkg.Dealing, first: u16, second: u16)
    requires FitsKey(c, id, used) && again.Fits(c.key[id]) && 1 <= k <= c.key[id].n
    ensures Dkg.Dealt(used[k := again], c.key[id])
    ensures var params := c.key[id];
            var p := DkgCeremony.Expected(params, used, first);
            var q := DkgCeremony.Expected(params, used[k := again], second);
            && (p.jointPk == q.jointPk <==> used[k].secret == again.secret)
            && (SameShares(params, Dkg.JointPoly(params, used), Dkg.JointPoly(params, used[k := again])) <==>
                used[k].F() == again.F())
  {
    hide Red, Base, Compress, PolyAt, Dkg.JointPoly, SameShares, SameCoefficients, UpTo;
    var params := c.key[id];
    ReplacedSecret(params, used, k, again);
    ReplacedShares(params, used, k, again);
    SameSharesIff(params, used[k].F(), again.F());
    ScalarsSame(used[k].F(), again.F());
  }

  // ---------------------------------------------------------------- a run from the beginning

  /** Two members up to the point where member 2 has finalised and member 1 could. */
  function TwoMembers(id: Bytes16, d1: Dkg.Dealing, d2: Dkg.Dealing): seq<Step> {
    TwoStarted(id, d1, d2) + [KeyRelay(1, 1), KeyRelay(2, 0), KeyFinalize(2, id)]
  }

  function TwoStarted(id: Bytes16, d1: Dkg.Dealing, d2: Dkg.Dealing): seq<Step> {
    [KeyStart(1, id, d1, 0), KeyStart(2, id, d2, 0)]
  }

  function Both<D>(d1: D, d2: D): map<u16, D> {
    map[1 := d1, 2 := d2]
  }

  lemma EmptyRun(c: Setting)
    requires c.Sensible()
    ensures HonestRun(c, []) && Run(c, []) == INITIAL
  {
    hide Inv, Enabled, Next;
  }

  lemma IdleMember(i: u16)
    ensures MemberOf(INITIAL, i) == IDLE
  {
  }

  lemma BothFit(c: Setting, id: Bytes16, d1: Dkg.Dealing, d2: Dkg.Dealing)
    requires id in c.key && c.key[id].n == 2 && d1.Fits(c.key[id]) && d2.Fits(c.key[id])
    ensures Dkg.Dealt(Both(d1, d2), c.key[id]) && DkgCeremony.Complete(Both(d1, d2), c.key[id])
    ensures FitsKey(c, id, Both(d1, d2))
  {
  }

  lemma TwoStartedRun(c: Setting, id: Bytes16, d1: Dkg.Dealing, d2: Dkg.Dealing)
    requires c.Sensible() && id in c.key && c.key[id].n == 2 && d1.Fits(c.key[id]) && d2.Fits(c.key[id])
    ensures HonestRun(c, TwoStarted(id, d1, d2))
    ensures var s := Run(c, TwoStarted(id, d1, d2));
            && KeyOpen(s, 1, id, map[1 := d1]) && KeyOpen(s, 2, id, map[2 := d2])
            && |s.keyDeals| == 2 && s.keyDeals[0] == KeyDeal(id, 1, d1) && s.keyDeals[1] == KeyDeal(id, 2, d2)
            && s.zeroDeals == [] && s.outputs == []
            && MemberOf(s, 1).node.reshare == map[] && MemberOf(s, 2).node.reshare == map[]
  {
    var start1, start2 := KeyStart(1, id, d1, 0), KeyStart(2, id, d2, 0);
    assert TwoStarted(id, d1, d2) == [start1] + [start2];
    hide *;
    OneStarted(c, 1, id, d1);
    var s1 := Run(c, [start1]);
    OnlyAtMeans(INITIAL, s1, 1, 2);
    IdleMember(2);
    StartEnabled(c, s1, 2, id, d2, 0);
    RunNext(c, [start1], start2);
    KeyStartOpens(c, s1, 2, id, d2, 0);
    var s2 := Next(c, s1, start2);
    OnlyAtMeans(s1, s2, 2, 1);
    KeyOpenKept(s1, s2, 2, 1, id, map[1 := d1]);
    Pair(s2.keyDeals, KeyDeal(id, 1, d1), KeyDeal(id, 2, d2));
  }

  lemma OneStarted(c: Setting, i: u16, id: Bytes16, d: Dkg.Dealing)
    requires c.Sensible() && id in c.key && 1 <= i <= c.key[id].n && d.Fits(c.key[id])
    ensures HonestRun(c, [KeyStart(i, id, d, 0)])
    ensures var s := Run(c, [KeyStart(i, id, d, 0)]);
            && KeyOpen(s, i, id, map[i := d]) && OnlyAt(INITIAL, s, i)
            && s.keyDeals == [KeyDeal(id, i, d)] && s.zeroDeals == [] && s.outputs == []
            && MemberOf(s, i).node.reshare == map[]
  {
    var start := KeyStart(i, id, d, 0);
    assert [] + [start] == [start];
    hide *;
    EmptyRun(c);
    IdleMember(i);
    StartEnabled(c, INITIAL, i, id, d, 0);
    RunNext(c, [], start);
    KeyStartOpens(c, INITIAL, i, id, d, 0);
  }

  lemma OnlyAtMeans(s: System, s': System, i: u16, k: u16)
    requires OnlyAt(s, s', i) && k != i
    ensures MemberOf(s', k) == MemberOf(s, k)
  {
    hide MemberOf;
  }

  lemma RelayAt(c: Setting, s: System, to: u16, j: nat)
    requires j < |s.keyDeals| && s.keyDeals[j].id in c.key && 1 <= to <= c.key[s.keyDeals[j].id].n
    requires to != s.keyDeals[j].dealer
    ensures Enabled(c, s, KeyRelay(to, j))
  {
  }

  /** Both members hold both dealings. */
  lemma TwoRelayedRun(c: Setting, id: Bytes16, d1: Dkg.Dealing, d2: Dkg.Dealing)
    requires c.Sensible() && id in c.key && c.key[id].n == 2 && d1.Fits(c.key[id]) && d2.Fits(c.key[id])
    ensures var steps := TwoStarted(id, d1, d2) + [KeyRelay(1, 1)] + [KeyRelay(2, 0)];
            && HonestRun(c, steps)
            && var s := Run(c, steps);
            && KeyOpen(s, 1, id, Both(d1, d2)) && KeyOpen(s, 2, id, Both(d1, d2))
            && s.outputs == [] && s.zeroDeals == []
            && MemberOf(s, 1).node.reshare == map[] && MemberOf(s, 2).node.reshare == map[]
  {
    var steps := TwoStarted(id, d1, d2);
    BothIs(d1, d2);
    hide *;
    TwoStartedRun(c, id, d1, d2);
    var s := Run(c, steps);
    RelayAt(c, s, 1, 1);
    RunNext(c, steps, KeyRelay(1, 1));
    KeyRelayExtends(c, s, 1, 1, map[1 := d1]);
    var s1 := Next(c, s, KeyRelay(1, 1));
    OnlyAtMeans(s, s1, 1, 2);
    KeyOpenKept(s, s1, 1, 2, id, map[2 := d2]);
    RelayAt(c, s1, 2, 0);
    RunNext(c, steps + [KeyRelay(1, 1)], KeyRelay(2, 0));
    KeyRelayExtends(c, s1, 2, 0, map[2 := d2]);
    var s2 := Next(c, s1, KeyRelay(2, 0));
    OnlyAtMeans(s1, s2, 2, 1);
    KeyOpenKept(s1, s2, 2, 1, id, Both(d1, d2));
  }

  lemma BothIs<D>(d1: D, d2: D)
    ensures map[1 := d1][2 := d2] == Both(d1, d2) && map[2 := d2][1 := d1] == Both(d1, d2)
  {
  }

  /** Member 2 has finalised, member 1 still has the ceremony open with the same dealings. */
  lemma TwoMembersRun(c: Setting, id: Bytes16, d1: Dkg.Dealing, d2: Dkg.Dealing)
    requires c.Sensible() && id in c.key && c.key[id].n == 2 && d1.Fits(c.key[id]) && d2.Fits(c.key[id])
    ensures HonestRun(c, TwoMembers(id, d1, d2)) && FitsKey(c, id, Both(d1, d2))
    ensures Dkg.Dealt(Both(d1, d2), c.key[id])
    ensures var s := Run(c, TwoMembers(id, d1, d2));
            && KeyOpen(s, 1, id, Both(d1, d2)) && s.zeroDeals == []
            && s.outputs == [Output(id, 2, Both(d1, d2), DkgCeremony.Expected(c.key[id], Both(d1, d2), 2))]
            && MemberOf(s, 1).node.reshare == map[]
            && MemberOf(s, 2).node.reshare == map[] && id !in MemberOf(s, 2).node.dkg
            && MemberOf(s, 2).holding == Some(Holding(id, Both(d1, d2), []))
            && MemberOf(s, 2).node.share ==
               Some(RecordOf(DkgCeremony.Expected(c.key[id], Both(d1, d2), 2), c.key[id].n, c.key[id].t))
  {
    var before, last := TwoStarted(id, d1, d2) + [KeyRelay(1, 1)] + [KeyRelay(2, 0)], KeyFinalize(2, id);
    assert TwoMembers(id, d1, d2) == before + [last];
    hide *;
    BothFit(c, id, d1, d2);
    TwoRelayedRun(c, id, d1, d2);
    var s := Run(c, before);
    NextKeyFinalize(c, s, 2, id);
    RunNext(c, before, last);
    var s' := Next(c, s, last);
    KeyFinalizeStores(c, s, s', 2, id, Both(d1, d2));
    StoredOutput(c, s, s', 2, id, Both(d1, d2));
    StoredElsewhere(c, s, s', 2, id, Both(d1, d2), 1);
    KeyOpenKept(s, s', 2, 1, id, Both(d1, d2));
  }

  lemma StoredElsewhere(
      c: Setting, s: System, s': System, i: u16, id: Bytes16, used: DkgCeremony.Dealings, k: u16)
    requires id in c.key && Dkg.Dealt(used, c.key[id]) && KeyStored(c, s, s', i, id, used) && k != i
    ensures OnlyAt(s, s', i) && MemberOf(s', k) == MemberOf(s, k) && s'.zeroDeals == s.zeroDeals
    ensures id !in MemberOf(s', i).node.dkg && MemberOf(s', i).node.reshare == MemberOf(s, i).node.reshare
    ensures MemberOf(s', i).holding == Some(Holding(id, used, []))
    ensures MemberOf(s', i).node.share ==
            Some(RecordOf(DkgCeremony.Expected(c.key[id], used, i), c.key[id].n, c.key[id].t))
  {
    hide DkgCeremony.Expected, MemberOf, Dkg.Dealt, RecordOf;
  }

  /** A run from the beginning in which two honest members of one ceremony finalise apart: member 2
      finalises, is asked to start again, and member 1 finalises with the second dealing. They agree on
      the key iff both dealings have one secret, and on the sharing iff they have one polynomial. */
  lemma TwoOutputsDisagree(
      c: Setting, id: Bytes16, d1: Dkg.Dealing, d2: Dkg.Dealing, again: Dkg.Dealing, now: nat)
    requires c.Sensible() && id in c.key && c.key[id].n == 2
    requires d1.Fits(c.key[id]) && d2.Fits(c.key[id]) && again.Fits(c.key[id])
    ensures HonestRun(c, TwoMembers(id, d1, d2))
    ensures var steps := TwoMembers(id, d1, d2);
            var more := steps + KeyRestart(Run(c, steps), 1, 2, id, again, now);
            && HonestRun(c, more) && |Run(c, more).outputs| == 2
            && var a, b := Run(c, more).outputs[0], Run(c, more).outputs[1];
            && a.id == b.id == id && a.i == 2 && b.i == 1
            && Dkg.Dealt(a.used, c.key[id]) && Dkg.Dealt(b.used, c.key[id])
            && (a.value.jointPk == b.value.jointPk <==> d2.secret == again.secret)
            && (SameShares(c.key[id], Dkg.JointPoly(c.key[id], a.used), Dkg.JointPoly(c.key[id], b.used)) <==>
                d2.F() == again.F())
  {
    var used := Both(d1, d2);
    assert used[2] == d2;
    hide *;
    TwoMembersRun(c, id, d1, d2);
    KeyRestartRuns(c, TwoMembers(id, d1, d2), 1, 2, id, used, again, now);
    KeyRestartSplits(c, id, used, 2, again, 2, 1);
    var more := KeyRestart(Run(c, TwoMembers(id, d1, d2)), 1, 2, id, again, now);
    var outputs := Run(c, TwoMembers(id, d1, d2) + more).outputs;
    Pair(outputs, Output(id, 2, used, DkgCeremony.Expected(c.key[id], used, 2)),
         Output(id, 1, used[2 := again], DkgCeremony.Expected(c.key[id], used[2 := again], 1)));
  }
}
