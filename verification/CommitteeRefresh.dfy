/** In every run of the committee, members in step refresh coins through their handlers. */
module CommitteeRefresh {
  import opened Wrappers
  import opened Lists
  import opened Field
  import opened Group
  import opened Schnorr
  import opened Polynomials
  import opened Lagrange
  import opened Threshold
  import opened Coin
  import opened Refresh
  import opened RefreshCompleteness
  import opened NonceSessions
  import opened ValidatorNode
  import opened Holdings
  import opened Committee
  import opened CommitteeSafety
  import Accounts
  import Processor

  // ---------------------------------------------------------------- one validator

  /** The guard lets the melted coin through: it is off, or the account stores a set that holds its nullifier. */
  ghost predicate GuardPasses(account: Option<seq<u8>>, meltedPubkey: Bytes32) {
    account.Some? ==>
      && Accounts.LoadNullifiers(account.value).Ok?
      && Processor.ComputeNullifier(meltedPubkey) in Accounts.LoadNullifiers(account.value).value
  }

  lemma FirstKeepsSound(node: Node, sid: Bytes16, ks: seq<Scalar>, now: nat)
    requires SoundNode(node) && 1 <= |ks| <= 255
    ensures SoundNode(OnRefreshRound1(node, sid, |ks|, ks, now).0)
  {
    hide CommitmentsTo, SoundDkg, SoundReshare;
  }

  /** What the two refresh requests make a validator return: its commitments, then its partial signature. */
  ghost function Refreshes(node: Node, sid: Bytes16, ks: seq<Scalar>, now: nat, req: Round5Request)
    : (Result<ValidatorRefreshR1Output>, Result<ValidatorRefreshR5Output>)
    requires SoundNode(node) && 1 <= |ks| <= 255
  {
    FirstKeepsSound(node, sid, ks, now);
    var (after, first) := OnRefreshRound1(node, sid, |ks|, ks, now);
    (first, OnRefreshRound5(after, sid, req).1)
  }

  /** The handlers use the index and the share of the stored record, the nonces of round 1 and the requested
      signing set. */
  lemma HandlerRefreshes(node: Node, sid: Bytes16, ks: seq<Scalar>, now: nat, req: Round5Request)
    requires SoundNode(node) && 1 <= |ks| <= 255 && |req.challenges| == |ks|
    requires node.share.Some? && node.share.value.myShare < Q && sid !in node.refresh
    requires 1 <= req.gammaStar <= |ks| && GuardPasses(req.account, req.meltedPubkey)
    ensures var i, kappa := node.share.value.myIndex, |ks|;
            Refreshes(node, sid, ks, now, req) ==
            (Ok(ValidatorRefreshR1Output(sid, i, CommitmentsTo(ks))),
             ValidatorRefreshRound5Result(
               ValidatorRefreshState(sid, i, kappa, ks),
               UserRefreshR2Output(sid, kappa, req.challenges, req.meltedPubkey, req.meltedSignature),
               MintRefreshR3Challenge(sid, req.gammaStar), node.share.value.myShare, req.signingSet))
  {
    hide LagrangeResult, CommitmentsTo, Accounts.ScanResult, Accounts.LoadNullifiers, SoundNode;
    if req.account.Some? {
      Accounts.ScanMeansStored(req.account.value, Processor.ComputeNullifier(req.meltedPubkey));
    }
  }

  // ---------------------------------------------------------------- the session

  /** Every signer drew one nonce per candidate. */
  ghost predicate Drawn(ks: map<u16, seq<Scalar>>, kappa: u8, signers: seq<u16>) {
    kappa >= 1 && forall i :: i in signers ==> i in ks && |ks[i]| == kappa
  }

  ghost predicate Ready(s: System, signers: seq<u16>) {
    forall i :: i in signers ==> SoundNode(MemberOf(s, i).node) && MemberOf(s, i).node.share.Some?
  }

  /** The offers are what the signers returned for round 1, in any order. */
  ghost predicate CommitteeOffers(
    s: System, sid: Bytes16, kappa: u8, signers: seq<u16>, ks: map<u16, seq<Scalar>>, now: nat,
    offers: seq<ValidatorRefreshR1Output>)
    requires Drawn(ks, kappa, signers)
  {
    && (forall i :: i in signers ==> sid !in MemberOf(s, i).node.refresh)
    && Permutation(Senders1(offers), signers)
    && forall j :: 0 <= j < |offers| ==>
         && offers[j].fromIndex in signers
         && OnRefreshRound1(MemberOf(s, offers[j].fromIndex).node, sid, kappa, ks[offers[j].fromIndex], now).1 ==
            Ok(offers[j])
  }

  /** The mint's sums of the offers and the user's blinded candidates. */
  function Blinded(
    sid: Bytes16, kappa: u8, signers: seq<u16>, offers: seq<ValidatorRefreshR1Output>, pk: Bytes32, melted: Coin,
    tape: RefreshTape): (r: Result<(MintRefreshR1Output, UserRefreshR2Output, UserRefreshState)>)
    requires tape.Sized(kappa)
    ensures r.Ok? ==> |r.value.0.aggregatedR| == kappa == r.value.1.kappa == |r.value.1.challenges| && r.value.2.Sized()
    ensures r.Ok? ==> r.value.2.kappa == kappa
  {
    var mint :- AggregateRefreshRound1Result(sid, kappa, signers, offers);
    var (round2, state) :- UserRefreshRound2Result(sid, mint, pk, melted, tape);
    Ok((mint, round2, state))
  }

  /** What signer i is asked in round 5; `accounts` is what its own guard fetched, if it is on. */
  function Asked(
    i: u16, signers: seq<u16>, gammaStar: u8, challenges: seq<Bytes32>, melted: Coin,
    accounts: map<u16, Option<seq<u8>>>): Round5Request
    requires i in accounts
  {
    Round5Request(signers, gammaStar, challenges, melted.pubkeyBytes, melted.signature, accounts[i])
  }

  ghost predicate GuardsPass(accounts: map<u16, Option<seq<u8>>>, signers: seq<u16>, melted: Coin) {
    forall i :: i in signers ==> i in accounts && GuardPasses(accounts[i], melted.pubkeyBytes)
  }

  /** What signer i answers to the two requests of the session. */
  ghost function Answer(
    s: System, sid: Bytes16, signers: seq<u16>, ks: map<u16, seq<Scalar>>, now: nat, gammaStar: u8,
    challenges: seq<Bytes32>, melted: Coin, accounts: map<u16, Option<seq<u8>>>, i: u16)
    : Result<ValidatorRefreshR5Output>
    requires SoundNode(MemberOf(s, i).node) && i in ks && 1 <= |ks[i]| <= 255 && i in accounts
  {
    Refreshes(MemberOf(s, i).node, sid, ks[i], now, Asked(i, signers, gammaStar, challenges, melted, accounts)).1
  }

  /** The responses sum to one from which the user's last round makes a coin of the chosen seed. */
  ghost predicate CoinComes(
    sid: Bytes16, signers: seq<u16>, gammaStar: u8, state: UserRefreshState, pk: Bytes32,
    outputs: seq<ValidatorRefreshR5Output>)
    requires state.Sized() && 1 <= gammaStar <= state.kappa
  {
    var response := AggregateRefreshRound5Result(sid, signers, outputs);
    && response.Ok?
    && var coin := UserRefreshRound6(state, MintRefreshR3Challenge(sid, gammaStar), response.value, pk);
    && coin.Ok? && coin.value.secret == DERIVE_COIN_SECRET(state.seeds[gammaStar - 1])
    && coin.value.Valid() && coin.value.Verify(pk) == Ok(true)
  }

  /** The committee refreshes: the offers sum, the user's opening for the choice passes the mint's checks,
      no signer refuses, and all answers, in any order, end in a coin that verifies under `pk`. */
  ghost predicate CommitteeRefreshes(
    s: System, pk: Bytes32, sid: Bytes16, kappa: u8, signers: seq<u16>, ks: map<u16, seq<Scalar>>, now: nat,
    offers: seq<ValidatorRefreshR1Output>, melted: Coin, tape: RefreshTape, gammaStar: u8,
    accounts: map<u16, Option<seq<u8>>>, outputs: seq<ValidatorRefreshR5Output>)
    requires Drawn(ks, kappa, signers) && Ready(s, signers) && tape.Sized(kappa) && 1 <= gammaStar <= kappa
    requires forall i :: i in signers ==> i in accounts
  {
    var blinded := Blinded(sid, kappa, signers, offers, pk, melted, tape);
    && blinded.Ok?
    && var (mint, round2, state) := blinded.value;
    && VerifyRevealResult(round2, mint, MintRefreshR3Challenge(sid, gammaStar),
                          UserRefreshR4Reveal(sid, Reveals(state, gammaStar, kappa)), pk).Ok?
    && (forall i :: i in signers ==>
          Answer(s, sid, signers, ks, now, gammaStar, round2.challenges, melted, accounts, i).Ok?)
    && (Permutation(Senders5(outputs), signers)
        && (forall j :: 0 <= j < |outputs| ==>
              && outputs[j].fromIndex in signers
              && Answer(s, sid, signers, ks, now, gammaStar, round2.challenges, melted, accounts,
                        outputs[j].fromIndex) == Ok(outputs[j]))
        ==> CoinComes(sid, signers, gammaStar, state, pk, outputs))
  }

  // ---------------------------------------------------------------- end to end

  lemma SignersReady(c: Setting, s: System, signers: seq<u16>)
    requires Inv(c, s) && forall i :: i in signers ==> MemberOf(s, i).node.share.Some?
    ensures Ready(s, signers)
  {
    hide Inv, MemberOf, SoundNode;
    forall i | i in signers
      ensures SoundNode(MemberOf(s, i).node)
    {
      MemberSound(c, s, i);
    }
  }

  lemma OffersHonestly(
      c: Setting, s: System, sid: Bytes16, kappa: u8, signers: seq<u16>, ks: map<u16, seq<Scalar>>, now: nat,
      offers: seq<ValidatorRefreshR1Output>)
    requires Inv(c, s) && Ready(s, signers) && Drawn(ks, kappa, signers)
    requires CommitteeOffers(s, sid, kappa, signers, ks, now, offers)
    ensures HonestRound1(sid, kappa, signers, ks, offers)
  {
    hide Inv, MemberOf, SoundNode, CommitmentsTo;
    forall j | 0 <= j < |offers|
      ensures offers[j].fromIndex in ks
      ensures offers[j] == ValidatorRefreshR1Output(sid, offers[j].fromIndex, CommitmentsTo(ks[offers[j].fromIndex]))
    {
      SignerRecord(c, s, offers[j].fromIndex);
    }
  }

  lemma BlindedMeans(
      sid: Bytes16, kappa: u8, signers: seq<u16>, offers: seq<ValidatorRefreshR1Output>, pk: Bytes32, melted: Coin,
      tape: RefreshTape)
    requires tape.Sized(kappa)
    requires AggregateRefreshRound1Result(sid, kappa, signers, offers).Ok?
    requires var mint := AggregateRefreshRound1Result(sid, kappa, signers, offers).value;
             && |mint.aggregatedR| == mint.kappa == kappa
             && UserRefreshRound2Result(sid, mint, pk, melted, tape).Ok?
    ensures var mint := AggregateRefreshRound1Result(sid, kappa, signers, offers).value;
            var (round2, state) := UserRefreshRound2Result(sid, mint, pk, melted, tape).value;
            && Blinded(sid, kappa, signers, offers, pk, melted, tape) == Ok((mint, round2, state))
            && round2 == UserRefreshR2Output(sid, kappa, round2.challenges, melted.pubkeyBytes, melted.signature)
  {
    hide AggregateRefreshRound1Result, BlindCandidates, Decompress;
  }

  /** Signer i's handlers answer with its share as the protocol's round 5 does. */
  lemma AnswerIs(
      c: Setting, s: System, sid: Bytes16, signers: seq<u16>, ks: map<u16, seq<Scalar>>, now: nat, gammaStar: u8,
      round2: UserRefreshR2Output, melted: Coin, accounts: map<u16, Option<seq<u8>>>, i: u16)
    requires Inv(c, s) && SoundNode(MemberOf(s, i).node) && MemberOf(s, i).node.share.Some?
    requires i in ks && 1 <= |ks[i]| <= 255 && sid !in MemberOf(s, i).node.refresh
    requires i in accounts && GuardPasses(accounts[i], melted.pubkeyBytes)
    requires round2 == UserRefreshR2Output(sid, |ks[i]|, round2.challenges, melted.pubkeyBytes, melted.signature)
    requires |round2.challenges| == |ks[i]| && 1 <= gammaStar <= |ks[i]|
    ensures MemberOf(s, i).node.share.value.myShare < Q
    ensures Answer(s, sid, signers, ks, now, gammaStar, round2.challenges, melted, accounts, i) ==
            ValidatorRefreshRound5Result(
              ValidatorRefreshState(sid, i, |ks[i]|, ks[i]), round2, MintRefreshR3Challenge(sid, gammaStar),
              MemberOf(s, i).node.share.value.myShare, signers)
  {
    hide Inv, MemberOf, SoundNode, GuardPasses, Refreshes, ValidatorRefreshRound5Result;
    SignerRecord(c, s, i);
    HandlerRefreshes(MemberOf(s, i).node, sid, ks[i], now,
                     Asked(i, signers, gammaStar, round2.challenges, melted, accounts));
  }

  /** What holds of the protocol's round 5 holds of the handlers. */
  lemma AnswersComplete(
      c: Setting, s: System, sid: Bytes16, kappa: u8, signers: seq<u16>, ks: map<u16, seq<Scalar>>,
      share: map<u16, Scalar>, now: nat, gammaStar: u8, round2: UserRefreshR2Output, melted: Coin,
      accounts: map<u16, Option<seq<u8>>>, outputs: seq<ValidatorRefreshR5Output>)
    requires Inv(c, s) && Drawn(ks, kappa, signers) && Ready(s, signers) && GuardsPass(accounts, signers, melted)
    requires forall i :: i in signers ==> sid !in MemberOf(s, i).node.refresh
    requires forall i :: i in signers ==> i in share && share[i] == MemberOf(s, i).node.share.value.myShare
    requires round2 == UserRefreshR2Output(sid, kappa, round2.challenges, melted.pubkeyBytes, melted.signature)
    requires |round2.challenges| == kappa && 1 <= gammaStar <= kappa
    requires AllRefresh(sid, kappa, signers, ks, share, round2, MintRefreshR3Challenge(sid, gammaStar))
    ensures forall i :: i in signers ==>
              Answer(s, sid, signers, ks, now, gammaStar, round2.challenges, melted, accounts, i).Ok?
    ensures Permutation(Senders5(outputs), signers)
            && (forall j :: 0 <= j < |outputs| ==>
                  && outputs[j].fromIndex in signers
                  && Answer(s, sid, signers, ks, now, gammaStar, round2.challenges, melted, accounts,
                            outputs[j].fromIndex) == Ok(outputs[j]))
            ==> HonestRound5(sid, kappa, signers, ks, share, round2, MintRefreshR3Challenge(sid, gammaStar), outputs)
  {
    hide Inv, MemberOf, SoundNode, GuardPasses, Answer, ValidatorRefreshRound5Result, Permutation;
    forall i | i in signers
      ensures Answer(s, sid, signers, ks, now, gammaStar, round2.challenges, melted, accounts, i) ==
              ValidatorRefreshRound5Result(
                ValidatorRefreshState(sid, i, kappa, ks[i]), round2, MintRefreshR3Challenge(sid, gammaStar),
                share[i], signers)
    {
      AnswerIs(c, s, sid, signers, ks, now, gammaStar, round2, melted, accounts, i);
    }
  }

  lemma RefreshesMeans(
      s: System, pk: Bytes32, sid: Bytes16, kappa: u8, signers: seq<u16>, ks: map<u16, seq<Scalar>>, now: nat,
      offers: seq<ValidatorRefreshR1Output>, melted: Coin, tape: RefreshTape, gammaStar: u8,
      accounts: map<u16, Option<seq<u8>>>, outputs: seq<ValidatorRefreshR5Output>, mint: MintRefreshR1Output,
      round2: UserRefreshR2Output, state: UserRefreshState)
    requires Drawn(ks, kappa, signers) && Ready(s, signers) && tape.Sized(kappa) && 1 <= gammaStar <= kappa
    requires forall i :: i in signers ==> i in accounts
    requires Blinded(sid, kappa, signers, offers, pk, melted, tape) == Ok((mint, round2, state))
    requires VerifyRevealResult(round2, mint, MintRefreshR3Challenge(sid, gammaStar),
                                UserRefreshR4Reveal(sid, Reveals(state, gammaStar, kappa)), pk).Ok?
    requires forall i :: i in signers ==>
               Answer(s, sid, signers, ks, now, gammaStar, round2.challenges, melted, accounts, i).Ok?
    requires Permutation(Senders5(outputs), signers)
             && (forall j :: 0 <= j < |outputs| ==>
                   && outputs[j].fromIndex in signers
                   && Answer(s, sid, signers, ks, now, gammaStar, round2.challenges, melted, accounts,
                             outputs[j].fromIndex) == Ok(outputs[j]))
             ==> CoinComes(sid, signers, gammaStar, state, pk, outputs)
    ensures CommitteeRefreshes(s, pk, sid, kappa, signers, ks, now, offers, melted, tape, gammaStar, accounts, outputs)
  {
    hide Answer, Blinded, CoinComes, VerifyRevealResult, Reveals, MemberOf, SoundNode, Permutation;
  }

  lemma CoinFollows(
      sid: Bytes16, signers: seq<u16>, gammaStar: u8, state: UserRefreshState, pk: Bytes32,
      outputs: seq<ValidatorRefreshR5Output>)
    requires state.Sized() && 1 <= gammaStar <= state.kappa
    requires var response := AggregateRefreshRound5Result(sid, signers, outputs);
             && response.Ok?
             && var coin := UserRefreshRound6(state, MintRefreshR3Challenge(sid, gammaStar), response.value, pk);
             && coin.Ok? && coin.value.secret == DERIVE_COIN_SECRET(state.seeds[gammaStar - 1])
             && coin.value.Valid() && coin.value.Verify(pk) == Ok(true)
    ensures CoinComes(sid, signers, gammaStar, state, pk, outputs)
  {
    hide AggregateRefreshRound5Result, UserRefreshRound6;
  }

  lemma Means(s: System, signers: seq<u16>, ks: map<u16, seq<Scalar>>, kappa: u8,
              accounts: map<u16, Option<seq<u8>>>, melted: Coin)
    requires Ready(s, signers) && Drawn(ks, kappa, signers) && GuardsPass(accounts, signers, melted)
    ensures kappa >= 1 && forall i :: i in signers ==> i in ks && |ks[i]| == kappa && i in accounts
    ensures forall i :: i in signers ==> SoundNode(MemberOf(s, i).node) && MemberOf(s, i).node.share.Some?
  {
    hide MemberOf, SoundNode, GuardPasses;
  }

  /** The same from the polynomial on which the shares lie. */
  lemma HandlersRefresh(
      c: Setting, s: System, signers: seq<u16>, f: seq<int>, share: map<u16, Scalar>,
      sid: Bytes16, kappa: u8, ks: map<u16, seq<Scalar>>, now: nat, offers: seq<ValidatorRefreshR1Output>,
      melted: Coin, tape: RefreshTape, gammaStar: u8, accounts: map<u16, Option<seq<u8>>>,
      outputs: seq<ValidatorRefreshR5Output>)
    requires forall i :: i in signers ==> i in accounts
    requires Inv(c, s) && Ready(s, signers) && Drawn(ks, kappa, signers) && GuardsPass(accounts, signers, melted)
    requires forall i :: i in signers ==> sid !in MemberOf(s, i).node.refresh
    requires forall i :: i in signers ==> i in share && share[i] == MemberOf(s, i).node.share.value.myShare
    requires UsableSet(signers) && |f| <= |signers| && SharesOn(f, share, signers)
    requires tape.Sized(kappa) && 1 <= gammaStar <= kappa && HonestRound1(sid, kappa, signers, ks, offers)
    ensures CommitteeRefreshes(s, Compress(Base(PolyAt(f, 0))), sid, kappa, signers, ks, now, offers, melted, tape,
                               gammaStar, accounts, outputs)
  {
    hide *;
    var pk := Compress(Base(PolyAt(f, 0)));
    Means(s, signers, ks, kappa, accounts, melted);
    SessionStarts(sid, kappa, signers, f, ks, share, offers, melted, tape);
    BlindedMeans(sid, kappa, signers, offers, pk, melted, tape);
    var (mint, round2, state) := Blinded(sid, kappa, signers, offers, pk, melted, tape).value;
    var choice := MintRefreshR3Challenge(sid, gammaStar);
    RefreshCompletes(sid, kappa, signers, f, ks, share, mint, round2, state, choice, outputs);
    AnswersComplete(c, s, sid, kappa, signers, ks, share, now, gammaStar, round2, melted, accounts, outputs);
    if HonestRound5(sid, kappa, signers, ks, share, round2, choice, outputs) {
      CoinFollows(sid, signers, gammaStar, state, pk, outputs);
    }
    RefreshesMeans(s, pk, sid, kappa, signers, ks, now, offers, melted, tape, gammaStar, accounts, outputs,
                   mint, round2, state);
  }

  lemma OffersMean(
      s: System, sid: Bytes16, kappa: u8, signers: seq<u16>, ks: map<u16, seq<Scalar>>, now: nat,
      offers: seq<ValidatorRefreshR1Output>)
    requires Drawn(ks, kappa, signers) && CommitteeOffers(s, sid, kappa, signers, ks, now, offers)
    ensures forall i :: i in signers ==> sid !in MemberOf(s, i).node.refresh
  {
    hide MemberOf, Permutation;
  }

  /** End to end: in any reachable state of any run, members whose stored shares come from the same dealings
      refresh through their handlers. For every kappa, every choice, all nonces, seeds, blinding factors and
      message orders the session ends in a coin that verifies under the key their records name, if each
      signer's guard, where it is on, finds the melted coin's nullifier stored. */
  lemma CommitteeRefreshesCoins(
      c: Setting, steps: seq<Step>, signers: seq<u16>, h: Holding, share: map<u16, Scalar>, pk: Bytes32,
      sid: Bytes16, kappa: u8, ks: map<u16, seq<Scalar>>, now: nat, offers: seq<ValidatorRefreshR1Output>,
      melted: Coin, tape: RefreshTape, gammaStar: u8, accounts: map<u16, Option<seq<u8>>>,
      outputs: seq<ValidatorRefreshR5Output>)
    requires c.Sensible() && HonestRun(c, steps) && InStep(Run(c, steps), signers, h, share)
    requires Distinct(signers) && signers != [] && Within(c, h, |signers|) && Drawn(ks, kappa, signers)
    requires MemberOf(Run(c, steps), signers[0]).node.share.value.jointPk == pk
    requires CommitteeOffers(Run(c, steps), sid, kappa, signers, ks, now, offers)
    requires tape.Sized(kappa) && 1 <= gammaStar <= kappa && GuardsPass(accounts, signers, melted)
    ensures forall i :: i in signers ==> MemberOf(Run(c, steps), i).node.share.value.jointPk == pk
    ensures Ready(Run(c, steps), signers)
    ensures CommitteeRefreshes(Run(c, steps), pk, sid, kappa, signers, ks, now, offers, melted, tape, gammaStar,
                               accounts, outputs)
  {
    var s, f := Run(c, steps), PolyOf(c, h);
    hide *;
    InStepMeans(s, signers, h, share);
    InStepShares(c, steps, signers, h, share);
    PolyWithin(c, h, |signers|);
    NoZeroSigner(c, s, signers);
    SignersReady(c, s, signers);
    OffersHonestly(c, s, sid, kappa, signers, ks, now, offers);
    assert signers[0] in signers;
    OffersMean(s, sid, kappa, signers, ks, now, offers);
    Means(s, signers, ks, kappa, accounts, melted);
    HandlersRefresh(c, s, signers, f, share, sid, kappa, ks, now, offers, melted, tape, gammaStar, accounts, outputs);
  }
}
