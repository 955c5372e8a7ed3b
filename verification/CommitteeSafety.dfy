/** What holds in every run of the committee: when finalisations succeed, when members agree, and that
    members in step issue signatures through their handlers. */
module CommitteeSafety {
  import opened Wrappers
  import opened Lists
  import opened Field
  import opened Group
  import opened Schnorr
  import opened Polynomials
  import opened Vss
  import opened Lagrange
  import opened ValidatorNode
  import opened Holdings
  import opened Committee
  import opened Threshold
  import Dkg
  import DkgCeremony
  import ReshareCeremony
  import Sign

  // ---------------------------------------------------------------- when finalisation succeeds

  /** In every reachable state a key generation finalises iff it is stored with all contributions. */
  lemma KeyFinalizeIff(c: Setting, steps: seq<Step>, i: u16, id: Bytes16)
    requires c.Sensible() && HonestRun(c, steps)
    ensures var node := MemberOf(Run(c, steps), i).node;
            && SoundNode(node)
            && (OnDkgFinalize(node, id).1.Ok? <==> id in node.dkg && |node.dkg[id].peers| == node.dkg[id].n - 1)
  {
    var s := Run(c, steps);
    var m := MemberOf(s, i);
    MemberSound(c, s, i);
    MemberOfInv(c, s, i);
    hide OnDkgFinalize, MemberOf, Run, HonestRun, SoundNode, DkgCeremony.Tracks, Inv, OthersSound, Holds;
    if id in m.node.dkg {
      assert KeySession(c, s.keyDeals, i, m, id);
      DkgCeremony.FinalizeTracked(m.node, id, i, c.key[id], m.keyUsed[id]);
      DkgCeremony.TrackedCount(c.key[id], id, i, m.node.dkg[id], m.keyUsed[id]);
      KeySessionSize(c.key[id], id, i, m.node.dkg[id], m.keyUsed[id]);
    } else {
      DkgCeremony.FinalizeMissing(m.node, id);
    }
  }

  lemma KeySessionSize(
      params: VssParameters, id: Bytes16, i: u16, session: DkgCeremony.DkgSession, used: DkgCeremony.Dealings)
    requires DkgCeremony.Tracks(params, id, i, session, used)
    ensures session.n == params.n
  {
  }

  lemma ZeroSessionSize(
      params: VssParameters, id: Bytes16, i: u16, session: ReshareCeremony.ReshareSession,
      used: ReshareCeremony.ZeroDealings)
    requires ReshareCeremony.Tracks(params, id, i, session, used)
    ensures session.n == params.n
  {
  }

  /** The same for reshare, whatever key generations ran in between. */
  lemma ZeroFinalizeIff(c: Setting, steps: seq<Step>, i: u16, id: Bytes16)
    requires c.Sensible() && HonestRun(c, steps)
    ensures var node := MemberOf(Run(c, steps), i).node;
            && SoundNode(node)
            && (OnReshareFinalize(node, id).1.Ok? <==>
                  id in node.reshare && |node.reshare[id].peers| == node.reshare[id].n - 1)
  {
    var s := Run(c, steps);
    var m := MemberOf(s, i);
    MemberSound(c, s, i);
    MemberOfInv(c, s, i);
    hide OnReshareFinalize, MemberOf, Run, HonestRun, SoundNode, ReshareCeremony.Tracks, Inv, OthersSound, Records;
    if id in m.node.reshare {
      assert ZeroSession(c, s.zeroDeals, i, m, id);
      RecordedShare(c, i, m.node.share.value, m.holding.value);
      ReshareCeremony.FinalizeTracked(m.node, id, i, c.rotation[id], m.zeroUsed[id], m.node.share.value);
      ZeroSessionSize(c.rotation[id], id, i, m.node.reshare[id], m.zeroUsed[id]);
    } else {
      ReshareCeremony.FinalizeMissing(m.node, id);
    }
  }

  // ---------------------------------------------------------------- agreement on keys

  ghost function Secrets(used: DkgCeremony.Dealings): map<u16, int> {
    map k | k in used :: used[k].secret
  }

  /** The sum of the secrets that were dealt. */
  ghost function SecretSum(params: VssParameters, used: DkgCeremony.Dealings): int {
    SumOver(UpTo(params.n), Secrets(used))
  }

  lemma JointSecretIsSum(params: VssParameters, used: DkgCeremony.Dealings)
    requires Dkg.Dealt(used, params)
    ensures PolyAt(Dkg.JointPoly(params, used), 0) == SecretSum(params, used)
  {
    var w := ValuesAt(Dkg.DealtPolys(used), 0);
    UpToElements(params.n);
    PolySumAt(UpTo(params.n), Dkg.DealtPolys(used), params.t, 0);
    forall k | k in UpTo(params.n)
      ensures At(w, k) == At(Secrets(used), k)
    {
      PolyAtZero(used[k].F());
    }
    SumDiffers(UpTo(params.n), w, Secrets(used), 0);
  }

  lemma KeysEqualIff(x: int, y: int)
    ensures Compress(Base(x)) == Compress(Base(y)) <==> Red(x) == Red(y)
  {
    hide Base, Red, Compress, Decompress;
    DecompressCompress(Base(x));
    DecompressCompress(Base(y));
    BaseInjective(x, y);
  }

  /** Every share the one ceremony gives is the share the other gives. */
  ghost predicate SameShares(params: VssParameters, f: seq<int>, g: seq<int>) {
    forall x: u16 :: 1 <= x <= params.n ==> Red(PolyAt(f, x)) == Red(PolyAt(g, x))
  }

  lemma SameSharesIff(params: VssParameters, f: seq<int>, g: seq<int>)
    requires |f| == |g| <= params.n
    ensures SameShares(params, f, g) <==> SameCoefficients(f, g)
  {
    hide Red, PolyAt, SameCoefficients;
    UpToElements(params.n);
    var all := UpTo(params.n);
    ValuesDetermine(all, f, g);
    if forall i :: i in all ==> Red(PolyAt(f, i)) == Red(PolyAt(g, i)) {
      forall x: u16 | 1 <= x <= params.n
        ensures Red(PolyAt(f, x)) == Red(PolyAt(g, x))
      {
        assert x in all;
      }
    }
  }

  /** Agreement, exactly: whatever the run, what a member finalises is determined by the dealings it
      used, which their dealers broadcast; two members of one ceremony agree on the qualified set, on the
      key iff the secrets they used have the same sum, and on every share iff the polynomials they used
      have the same sum. */
  lemma AgreementIff(c: Setting, steps: seq<Step>, a: Output, b: Output)
    requires c.Sensible() && HonestRun(c, steps) && a in Run(c, steps).outputs && b in Run(c, steps).outputs
    requires a.id == b.id
    ensures a.id in c.key && Dkg.Dealt(a.used, c.key[a.id]) && Dkg.Dealt(b.used, c.key[a.id])
    ensures KeyBroadcast(Run(c, steps).keyDeals, a.id, a.used) && KeyBroadcast(Run(c, steps).keyDeals, a.id, b.used)
    ensures var params := c.key[a.id];
            var f, g := Dkg.JointPoly(params, a.used), Dkg.JointPoly(params, b.used);
            && a.value.qual == b.value.qual == UpTo(params.n)
            && a.value.myIndex == a.i && a.value.myShare == Red(PolyAt(f, a.i))
            && b.value.myIndex == b.i && b.value.myShare == Red(PolyAt(g, b.i))
            && (a.value.jointPk == b.value.jointPk <==>
                  Red(SecretSum(params, a.used)) == Red(SecretSum(params, b.used)))
            && (SameShares(params, f, g) <==> SameCoefficients(f, g))
  {
    hide Red, PolyAt, Base, Compress, HonestRun, Run, Dkg.JointPoly, SecretSum, SameShares, SameCoefficients, MemberInv,
      KeyBroadcast;
    assert OutputInv(c, Run(c, steps).keyDeals, a) && OutputInv(c, Run(c, steps).keyDeals, b);
    var params := c.key[a.id];
    JointSecretIsSum(params, a.used);
    JointSecretIsSum(params, b.used);
    KeysEqualIff(SecretSum(params, a.used), SecretSum(params, b.used));
    SameSharesIff(params, Dkg.JointPoly(params, a.used), Dkg.JointPoly(params, b.used));
  }

  /** No member had two starts of this key generation accepted. */
  ghost predicate KeyStartedOnce(deals: seq<KeyDeal>, id: Bytes16) {
    forall a, b :: 0 <= a < b < |deals| && deals[a].id == deals[b].id == id ==> deals[a].dealer != deals[b].dealer
  }

  ghost predicate ZeroStartedOnce(deals: seq<ZeroDeal>, id: Bytes16) {
    forall a, b :: 0 <= a < b < |deals| && deals[a].id == deals[b].id == id ==> deals[a].dealer != deals[b].dealer
  }

  lemma OneKeyDealing(
      deals: seq<KeyDeal>, id: Bytes16, p: DkgCeremony.Dealings, q: DkgCeremony.Dealings)
    requires KeyStartedOnce(deals, id) && KeyBroadcast(deals, id, p) && KeyBroadcast(deals, id, q)
    requires p.Keys == q.Keys
    ensures p == q
  {
    forall k | k in p
      ensures p[k] == q[k]
    {
      var a :| 0 <= a < |deals| && deals[a] == KeyDeal(id, k, p[k]);
      var b :| 0 <= b < |deals| && deals[b] == KeyDeal(id, k, q[k]);
    }
  }

  lemma OneZeroDealing(
      deals: seq<ZeroDeal>, id: Bytes16, p: ReshareCeremony.ZeroDealings, q: ReshareCeremony.ZeroDealings)
    requires ZeroStartedOnce(deals, id) && ZeroBroadcast(deals, id, p) && ZeroBroadcast(deals, id, q)
    requires p.Keys == q.Keys
    ensures p == q
  {
    forall k | k in p
      ensures p[k] == q[k]
    {
      var a :| 0 <= a < |deals| && deals[a] == ZeroDeal(id, k, p[k]);
      var b :| 0 <= b < |deals| && deals[b] == ZeroDeal(id, k, q[k]);
    }
  }

  /** Agreement: if no member had two starts accepted, all members that finalise have the same key and
      the same qualified set, and their shares are the values at their indices of one polynomial with t
      coefficients whose value at zero is the key's secret. */
  lemma Agreement(c: Setting, steps: seq<Step>, a: Output, b: Output)
    requires c.Sensible() && HonestRun(c, steps) && a in Run(c, steps).outputs && b in Run(c, steps).outputs
    requires a.id == b.id && KeyStartedOnce(Run(c, steps).keyDeals, a.id)
    ensures a.id in c.key && Dkg.Dealt(a.used, c.key[a.id])
    ensures var params := c.key[a.id];
            var f := Dkg.JointPoly(params, a.used);
            && |f| == params.t
            && a.value == Dkg.DkgFinalised(a.i, Compress(Base(PolyAt(f, 0))), Red(PolyAt(f, a.i)), UpTo(params.n))
            && b.value == Dkg.DkgFinalised(b.i, Compress(Base(PolyAt(f, 0))), Red(PolyAt(f, b.i)), UpTo(params.n))
  {
    hide Red, PolyAt, Base, Compress, HonestRun, Run, Dkg.JointPoly, MemberInv, KeyBroadcast, KeyStartedOnce;
    var s := Run(c, steps);
    assert OutputInv(c, s.keyDeals, a) && OutputInv(c, s.keyDeals, b);
    SameDealers(c.key[a.id], a.used, b.used);
    OneKeyDealing(s.keyDeals, a.id, a.used, b.used);
  }

  lemma SameDealers(params: VssParameters, p: DkgCeremony.Dealings, q: DkgCeremony.Dealings)
    requires DkgCeremony.Complete(p, params) && DkgCeremony.Complete(q, params)
    ensures p.Keys == q.Keys
  {
  }

  lemma SameZeroDealers(
      params: VssParameters, p: ReshareCeremony.ZeroDealings, q: ReshareCeremony.ZeroDealings)
    requires ReshareCeremony.Complete(p, params) && ReshareCeremony.Complete(q, params)
    ensures p.Keys == q.Keys
  {
  }

  // ---------------------------------------------------------------- members in step

  /** The signers' shares come from the same key dealings and, in any order, the same reshares; `share`
      lists the shares in their records. */
  ghost predicate InStep(s: System, signers: seq<u16>, h: Holding, share: map<u16, Scalar>) {
    forall i :: i in signers ==>
      var m := MemberOf(s, i);
      && m.holding.Some? && m.node.share.Some?
      && m.holding.value.id == h.id && m.holding.value.used == h.used
      && Permutation(m.holding.value.added, h.added)
      && i in share && share[i] == m.node.share.value.myShare
  }

  /** After any run, members in step hold values of one polynomial, whose value at zero is the secret of
      the key that all their records name. */
  lemma InStepShares(
      c: Setting, steps: seq<Step>, signers: seq<u16>, h: Holding, share: map<u16, Scalar>)
    requires c.Sensible() && HonestRun(c, steps) && InStep(Run(c, steps), signers, h, share)
    ensures SharesOn(PolyOf(c, h), share, signers)
    ensures forall i :: i in signers ==>
              MemberOf(Run(c, steps), i).node.share.value.jointPk == Compress(Base(PolyAt(PolyOf(c, h), 0)))
  {
    hide PolyAt, Red, Base, Compress, Run, HonestRun, MemberOf, Permutation, KeyPoly, PolyAfter, HoldingBroadcast,
      Fits, Inv, OthersSound;
    var s := Run(c, steps);
    SecretStays(c, KeyPoly(c, h.id, h.used), h.added);
    forall i | i in signers
      ensures i in share && share[i] == Red(PolyAt(PolyOf(c, h), i))
      ensures MemberOf(s, i).node.share.value.jointPk == Compress(Base(PolyAt(PolyOf(c, h), 0)))
    {
      MemberOfInv(c, s, i);
      OrderIrrelevant(c, KeyPoly(c, h.id, h.used), MemberOf(s, i).holding.value.added, h.added, i);
    }
  }

  lemma PolyWithin(c: Setting, h: Holding, m: nat)
    requires Within(c, h, m)
    ensures |PolyOf(c, h)| <= m
  {
    hide PolyAfter;
    PolyLength(c, KeyPoly(c, h.id, h.used), h.added, m);
  }

  /** Agreement on stored shares, exactly: whatever the run, two members' records name one key iff the
      secrets behind them have the same sum, however often they reshared, and every member's share on the
      one polynomial is its share on the other iff the coefficients are the same scalars. */
  lemma HoldingsAgreeIff(c: Setting, steps: seq<Step>, i: u16, j: u16, n: u16, t: u16)
    requires c.Sensible() && HonestRun(c, steps)
    requires MemberOf(Run(c, steps), i).holding.Some? && MemberOf(Run(c, steps), j).holding.Some?
    requires |PolyOf(c, MemberOf(Run(c, steps), i).holding.value)| == t <= n
    requires |PolyOf(c, MemberOf(Run(c, steps), j).holding.value)| == t
    ensures var s := Run(c, steps);
            var g, h := MemberOf(s, i).holding.value, MemberOf(s, j).holding.value;
            && FitsKey(c, g.id, g.used) && FitsKey(c, h.id, h.used)
            && MemberOf(s, i).node.share.Some? && MemberOf(s, j).node.share.Some?
            && var p, q := MemberOf(s, i).node.share.value, MemberOf(s, j).node.share.value;
            && p.myShare == Red(PolyAt(PolyOf(c, g), i)) && q.myShare == Red(PolyAt(PolyOf(c, h), j))
            && (p.jointPk == q.jointPk <==>
                  Red(SecretSum(c.key[g.id], g.used)) == Red(SecretSum(c.key[h.id], h.used)))
            && (SameShares(VssParameters(n, t), PolyOf(c, g), PolyOf(c, h)) <==>
                  SameCoefficients(PolyOf(c, g), PolyOf(c, h)))
  {
    var s := Run(c, steps);
    var g, h := MemberOf(s, i).holding.value, MemberOf(s, j).holding.value;
    hide *;
    HoldingRecord(c, s, i);
    HoldingRecord(c, s, j);
    KeysEqualIff(SecretSum(c.key[g.id], g.used), SecretSum(c.key[h.id], h.used));
    SameSharesIff(VssParameters(n, t), PolyOf(c, g), PolyOf(c, h));
  }

  lemma HoldingRecord(c: Setting, s: System, i: u16)
    requires Inv(c, s) && MemberOf(s, i).holding.Some?
    ensures MemberOf(s, i).node.share.Some?
    ensures var h := MemberOf(s, i).holding.value;
            var rec := MemberOf(s, i).node.share.value;
            && FitsKey(c, h.id, h.used) && h.id in c.key && Dkg.Dealt(h.used, c.key[h.id])
            && rec.myShare == Red(PolyAt(PolyOf(c, h), i))
            && rec.jointPk == Compress(Base(SecretSum(c.key[h.id], h.used)))
  {
    MemberOfInv(c, s, i);
    hide Inv, MemberOf, OthersSound, PolyOf, HoldingBroadcast, SecretSum, Dkg.JointPoly, PolyAt, Red, Base, Compress;
    var h := MemberOf(s, i).holding.value;
    JointSecretIsSum(c.key[h.id], h.used);
  }

  // ---------------------------------------------------------------- signing through the handlers

  /** What the two signing requests make validator i return: its commitment, then its response. */
  function Signs(
    node: Node, sid: Bytes16, k: Scalar, now: nat, challenge: BlindChallenge, signers: seq<u16>)
    : (Result<Sign.ValidatorR1Output>, Result<Sign.ValidatorR3Output>)
  {
    var (after, first) := OnSignRound1(node, sid, k, now);
    (first, OnSignRound3(after, sid, challenge, signers).1)
  }

  /** The handlers use the index and the share of the stored record and the nonce of round 1. */
  lemma HandlerSigns(
      node: Node, sid: Bytes16, k: Scalar, now: nat, challenge: BlindChallenge, signers: seq<u16>)
    requires node.share.Some? && node.share.value.myShare < Q && sid !in node.sign
    ensures var (out, state) := Sign.ValidatorRound1(sid, node.share.value.myIndex, k);
            Signs(node, sid, k, now, challenge, signers) ==
            (Ok(out), Sign.PartialSignResult(state, challenge, node.share.value.myShare, signers))
  {
    hide LagrangeResult, Base, Compress;
  }

  /** The committee signs: every signer accepts the session, its commitment is among `commitments`, and
      for the user's blinded challenge every signer returns a response such that all responses, in any
      order, give a signature on `msg` that verifies under `pk`. */
  ghost predicate CommitteeSigns(
    s: System, pk: Bytes32, sid: Bytes16, signers: seq<u16>, k: map<u16, Scalar>, now: nat,
    commitments: seq<Sign.ValidatorR1Output>, responses: seq<Sign.ValidatorR3Output>,
    msg: seq<u8>, alpha: Scalar, beta: Scalar)
    requires Assigned(k, signers)
  {
    var request := Request(pk, sid, signers, commitments, msg, alpha, beta);
    && request.Ok?
    && (forall i :: i in signers ==> Signs(MemberOf(s, i).node, sid, k[i], now, request.value.0, signers).1.Ok?)
    && (Permutation(Sign.Senders3(responses), signers)
        && (forall out :: out in responses ==>
              && out.fromIndex in signers
              && Signs(MemberOf(s, out.fromIndex).node, sid, k[out.fromIndex], now, request.value.0, signers).1 ==
                 Ok(out))
        ==> Verdict(pk, sid, signers, request.value.1, responses, msg) == Ok(true))
  }

  /** The commitments are what the signers returned for round 1, in any order. */
  ghost predicate CommitteeCommits(
    s: System, sid: Bytes16, signers: seq<u16>, k: map<u16, Scalar>, now: nat,
    commitments: seq<Sign.ValidatorR1Output>)
    requires Assigned(k, signers)
  {
    && (forall i :: i in signers ==> sid !in MemberOf(s, i).node.sign)
    && Permutation(Sign.Senders1(commitments), signers)
    && forall out :: out in commitments ==>
         && out.fromIndex in signers
         && OnSignRound1(MemberOf(s, out.fromIndex).node, sid, k[out.fromIndex], now).1 == Ok(out)
  }

  lemma SignerRecord(c: Setting, s: System, i: u16)
    requires Inv(c, s) && MemberOf(s, i).node.share.Some?
    ensures MemberOf(s, i).node.share.value.myIndex == i
    ensures MemberOf(s, i).node.share.value.myShare < Q
    ensures 1 <= i
  {
    MemberOfInv(c, s, i);
    hide Inv, MemberOf, KeyOf, PolyOf, Fits, HoldingBroadcast, OthersSound;
  }

  lemma CommitsHonestly(
      c: Setting, s: System, sid: Bytes16, signers: seq<u16>, k: map<u16, Scalar>, now: nat,
      commitments: seq<Sign.ValidatorR1Output>)
    requires Inv(c, s) && Assigned(k, signers) && CommitteeCommits(s, sid, signers, k, now, commitments)
    requires forall i :: i in signers ==> MemberOf(s, i).node.share.Some?
    ensures HonestCommitments(sid, signers, k, commitments)
  {
    hide Inv, MemberOf, Base, Compress;
    forall out | out in commitments
      ensures out.fromIndex in k && out == Sign.ValidatorRound1(sid, out.fromIndex, k[out.fromIndex]).0
    {
      SignerRecord(c, s, out.fromIndex);
    }
  }

  /** End to end: in any reachable state of any run that mixes key generations, reshares and signing,
      members whose stored shares come from the same dealings sign through their handlers, and the
      signatures verify under the key their records name, for all nonces, blinding factors, messages and
      message orders. There must be at least as many as the largest threshold involved. */
  lemma CommitteeIssues(
      c: Setting, steps: seq<Step>, signers: seq<u16>, h: Holding, share: map<u16, Scalar>, pk: Bytes32,
      sid: Bytes16, k: map<u16, Scalar>, now: nat, commitments: seq<Sign.ValidatorR1Output>,
      responses: seq<Sign.ValidatorR3Output>, msg: seq<u8>, alpha: Scalar, beta: Scalar)
    requires c.Sensible() && HonestRun(c, steps) && InStep(Run(c, steps), signers, h, share)
    requires Distinct(signers) && signers != [] && Within(c, h, |signers|) && Assigned(k, signers)
    requires MemberOf(Run(c, steps), signers[0]).node.share.value.jointPk == pk
    requires CommitteeCommits(Run(c, steps), sid, signers, k, now, commitments)
    ensures forall i :: i in signers ==> MemberOf(Run(c, steps), i).node.share.value.jointPk == pk
    ensures CommitteeSigns(Run(c, steps), pk, sid, signers, k, now, commitments, responses, msg, alpha, beta)
  {
    var s := Run(c, steps);
    hide *;
    InStepMeans(s, signers, h, share);
    InStepShares(c, steps, signers, h, share);
    PolyWithin(c, h, |signers|);
    NoZeroSigner(c, s, signers);
    CommitsHonestly(c, s, sid, signers, k, now, commitments);
    assert signers[0] in signers;
    ThresholdIssuance(sid, signers, PolyOf(c, h), k, share, commitments, responses, msg, alpha, beta);
    HandlersIssue(c, s, signers, share, pk, sid, k, now, commitments, responses, msg, alpha, beta);
  }

  lemma InStepMeans(s: System, signers: seq<u16>, h: Holding, share: map<u16, Scalar>)
    requires InStep(s, signers, h, share)
    ensures forall i :: i in signers ==> MemberOf(s, i).node.share.Some? && i in share
    ensures forall i :: i in signers ==> share[i] == MemberOf(s, i).node.share.value.myShare
  {
  }

  lemma NoZeroSigner(c: Setting, s: System, signers: seq<u16>)
    requires Inv(c, s) && Distinct(signers) && forall i :: i in signers ==> MemberOf(s, i).node.share.Some?
    ensures UsableSet(signers)
  {
    hide Inv, MemberOf, Distinct;
    if 0 in signers {
      SignerRecord(c, s, 0);
    }
  }

  /** What holds of the records' shares holds of the handlers. */
  lemma HandlersIssue(
      c: Setting, s: System, signers: seq<u16>, share: map<u16, Scalar>, pk: Bytes32,
      sid: Bytes16, k: map<u16, Scalar>, now: nat, commitments: seq<Sign.ValidatorR1Output>,
      responses: seq<Sign.ValidatorR3Output>, msg: seq<u8>, alpha: Scalar, beta: Scalar)
    requires Inv(c, s) && Assigned(k, signers) && CommitteeCommits(s, sid, signers, k, now, commitments)
    requires forall i :: i in signers ==> MemberOf(s, i).node.share.Some? && i in share
    requires forall i :: i in signers ==> share[i] == MemberOf(s, i).node.share.value.myShare
    requires Issues(pk, sid, signers, k, share, commitments, responses, msg, alpha, beta)
    ensures CommitteeSigns(s, pk, sid, signers, k, now, commitments, responses, msg, alpha, beta)
  {
    hide Inv, MemberOf, Request, Verdict, Signs, Sign.PartialSignResult, Base, Compress;
    var challenge := Request(pk, sid, signers, commitments, msg, alpha, beta).value.0;
    forall i | i in signers
      ensures Signs(MemberOf(s, i).node, sid, k[i], now, challenge, signers).1 ==
              Sign.PartialSignResult(Sign.ValidatorRound1(sid, i, k[i]).1, challenge, share[i], signers)
    {
      SignerRecord(c, s, i);
      HandlerSigns(MemberOf(s, i).node, sid, k[i], now, challenge, signers);
    }
  }

  // ---------------------------------------------------------------- in step by ceremony names

  function Ids(added: seq<Addition>): (ids: seq<Bytes16>)
    ensures |ids| == |added|
  {
    seq(|added|, j requires 0 <= j < |added| => added[j].id)
  }

  /** The signers finalised the named key generation and, in any order, the named reshares. */
  ghost predicate InStepByName(
    s: System, signers: seq<u16>, id: Bytes16, ids: seq<Bytes16>, share: map<u16, Scalar>)
  {
    forall i :: i in signers ==>
      var m := MemberOf(s, i);
      && m.holding.Some? && m.node.share.Some?
      && m.holding.value.id == id && Permutation(Ids(m.holding.value.added), ids)
      && i in share && share[i] == m.node.share.value.myShare
  }

  /** Additions that their names determine are permuted as the names are. */
  lemma {:induction false} NamesDetermine(p: seq<Addition>, q: seq<Addition>)
    requires forall a, b :: a in p && b in q && a.id == b.id ==> a == b
    requires Permutation(Ids(p), Ids(q))
    ensures Permutation(p, q)
    decreases |p|
  {
    hide Permutation;
    PermutationDistinct(Ids(p), Ids(q));
    if p == [] {
      PermutationSame(p);
    } else {
      var rest, a := p[..|p| - 1], p[|p| - 1];
      assert Ids(p)[|p| - 1] == a.id && Ids(p)[..|p| - 1] == Ids(rest);
      var j := PermutationRemove(Ids(p), Ids(q));
      assert RemoveAt(Ids(q), j) == Ids(RemoveAt(q, j));
      assert q[j] in q && q[j] == a;
      assert forall b :: b in RemoveAt(q, j) ==> b in q;
      NamesDetermine(rest, RemoveAt(q, j));
      PutBack(rest, q, j);
      assert p == rest + [a];
    }
  }

  lemma PutBack<T>(rest: seq<T>, q: seq<T>, j: nat)
    requires j < |q| && Permutation(rest, RemoveAt(q, j))
    ensures Permutation(rest + [q[j]], q)
  {
    RemoveAtMultiset(q, j);
  }

  /** Each ceremony of the holding had every member's start accepted at most once. */
  ghost predicate NamesUsedOnce(s: System, h: Holding) {
    KeyStartedOnce(s.keyDeals, h.id) && forall a :: a in h.added ==> ZeroStartedOnce(s.zeroDeals, a.id)
  }

  lemma SameNameSameKey(c: Setting, s: System, i: u16, j: u16)
    requires Inv(c, s) && MemberOf(s, i).holding.Some? && MemberOf(s, j).holding.Some?
    requires MemberOf(s, i).holding.value.id == MemberOf(s, j).holding.value.id
    requires KeyStartedOnce(s.keyDeals, MemberOf(s, j).holding.value.id)
    ensures MemberOf(s, i).holding.value.used == MemberOf(s, j).holding.value.used
  {
    MemberOfInv(c, s, i);
    MemberOfInv(c, s, j);
    hide Inv, MemberOf, OthersSound, Records, KeyBroadcast, ZeroBroadcast, KeyStartedOnce, DkgCeremony.Complete;
    var p, q := MemberOf(s, i).holding.value, MemberOf(s, j).holding.value;
    SameDealers(c.key[p.id], p.used, q.used);
    OneKeyDealing(s.keyDeals, p.id, p.used, q.used);
  }

  lemma SameNameSameAddition(
      c: Setting, s: System, i: u16, j: u16, a: Addition, b: Addition)
    requires Inv(c, s) && MemberOf(s, i).holding.Some? && MemberOf(s, j).holding.Some?
    requires a in MemberOf(s, i).holding.value.added && b in MemberOf(s, j).holding.value.added
    requires a.id == b.id && ZeroStartedOnce(s.zeroDeals, a.id)
    ensures a == b
  {
    MemberOfInv(c, s, i);
    MemberOfInv(c, s, j);
    hide Inv, MemberOf, OthersSound, Records, KeyBroadcast, ZeroBroadcast, ZeroStartedOnce,
      ReshareCeremony.Complete, DkgCeremony.Complete;
    SameZeroDealers(c.rotation[a.id], a.used, b.used);
    OneZeroDealing(s.zeroDeals, a.id, a.used, b.used);
  }

  /** If no member's start was accepted twice in the ceremonies involved, having finalised the same
      ceremonies by name is enough to be in step, so agreement on names lets the committee sign. */
  lemma NamesSuffice(
      c: Setting, steps: seq<Step>, signers: seq<u16>, id: Bytes16, ids: seq<Bytes16>, share: map<u16, Scalar>)
    requires c.Sensible() && HonestRun(c, steps) && signers != []
    requires InStepByName(Run(c, steps), signers, id, ids, share)
    requires MemberOf(Run(c, steps), signers[0]).holding.Some?
    requires NamesUsedOnce(Run(c, steps), MemberOf(Run(c, steps), signers[0]).holding.value)
    ensures InStep(Run(c, steps), signers, MemberOf(Run(c, steps), signers[0]).holding.value, share)
  {
    hide Run, HonestRun, MemberOf, Permutation, KeyStartedOnce, ZeroStartedOnce, Inv;
    var s, first := Run(c, steps), signers[0];
    var h := MemberOf(s, first).holding.value;
    assert first in signers;
    forall i | i in signers
      ensures MemberOf(s, i).holding.value.used == h.used
      ensures Permutation(MemberOf(s, i).holding.value.added, h.added)
    {
      SameNameSameKey(c, s, i, first);
      var added := MemberOf(s, i).holding.value.added;
      forall a, b | a in added && b in h.added && a.id == b.id
        ensures a == b
      {
        SameNameSameAddition(c, s, i, first, a, b);
      }
      PermutationThrough(Ids(added), ids, Ids(h.added));
      NamesDetermine(added, h.added);
    }
  }

  lemma PermutationThrough<T>(p: seq<T>, q: seq<T>, r: seq<T>)
    requires Permutation(p, q) && Permutation(r, q)
    ensures Permutation(p, r)
  {
  }

  // ---------------------------------------------------------------- a member out of step

  /** All signers but j are in step with h; j holds h'. The session runs to its end, and its signature
      verifies iff the two polynomials agree at j or the blinded challenge is zero. */
  lemma OneMemberAstray(
      c: Setting, signers: seq<u16>, h: Holding, j: u16, h': Holding, share: map<u16, Scalar>,
      sid: Bytes16, k: map<u16, Scalar>, commitments: seq<Sign.ValidatorR1Output>,
      responses: seq<Sign.ValidatorR3Output>, msg: seq<u8>, alpha: Scalar, beta: Scalar)
    requires UsableSet(signers) && Within(c, h, |signers|) && j in signers
    requires Assigned(k, signers) && Assigned(share, signers)
    requires forall i :: i in signers ==> share[i] == Red(PolyAt(PolyOf(c, if i == j then h' else h), i))
    requires HonestCommitments(sid, signers, k, commitments)
    ensures var pk := Compress(Base(PolyAt(PolyOf(c, h), 0)));
            var request := Request(pk, sid, signers, commitments, msg, alpha, beta);
            && request.Ok?
            && (HonestResponses(sid, signers, k, share, request.value.0, responses) ==>
                  Verdict(pk, sid, signers, request.value.1, responses, msg) ==
                  Ok(request.value.0.c == 0
                     || Red(PolyAt(PolyOf(c, h), j)) == Red(PolyAt(PolyOf(c, h'), j))))
  {
    hide *;
    var f, g := PolyOf(c, h), PolyOf(c, h');
    PolyWithin(c, h, |signers|);
    var e := PolyAt(g, j) - PolyAt(f, j);
    OneDeviatingShare(sid, signers, f, k, share, j, e, commitments, responses, msg, alpha, beta);
    RedDifference(PolyAt(f, j), PolyAt(g, j));
  }

  lemma RedDifference(x: int, y: int)
    ensures Red(y - x) == 0 <==> Red(x) == Red(y)
  {
    hide Red;
    RedScalar(0);
    if Red(x) == Red(y) {
      RedSum(y, x, x, x);
    }
    if Red(y - x) == 0 {
      RedSum(y - x, 0, x, x);
    }
  }
}
