/** The instruction handlers, and the program as a state machine in which a failed instruction leaves
    no trace. */
module Processor {
  import opened Wrappers
  import opened Lists
  import opened Octets
  import opened Borsh
  import opened Group
  import opened Schnorr
  import opened Coin
  import opened State
  import opened Instruction

  /** Hash of a coin's public commitment under the nullifier domain. */
  const NULLIFIER_HASH: Bytes32 -> Bytes32

  function ComputeNullifier(coinPubkey: Bytes32): Bytes32 { NULLIFIER_HASH(coinPubkey) }

  datatype VaultValue = VaultValue(denom: u64, collateral: u64)
  datatype WithdrawOutcome = WithdrawOutcome(nullifier: Bytes32, recipient: Bytes32, lamportsReleased: u64)

  // ---------------------------------------------------------------- what each handler does

  function VerifyCoinForSpend(entries: seq<KeysetEntry>, denom: u64, coinPubkey: Bytes32, sig: Signature)
    : Result<()>
  {
    match ActiveFor(entries, denom)
    case None => Err(UnknownKeysetId)
    case Some(entry) =>
      var _ :- PublicKeyFromBytes(coinPubkey);
      var jointPk :- PublicKeyFromBytes(entry.jointPk);
      var ok :- SchnorrVerify(jointPk, Le(32, coinPubkey), sig);
      if ok then Ok(()) else Err(CoinSignatureInvalid)
  }

  function Registered(entries: seq<KeysetEntry>, ix: Instruction): (seq<KeysetEntry>, Result<()>) {
    if !ix.RegisterKeyset? then (entries, Err(Malformed))
    else if Position(entries, ix.keysetId).Some? then (entries, Err(KeysetAlreadyRegistered))
    else if |entries| >= KEYSET_REGISTRY_CAPACITY then (entries, Err(KeysetRegistryFull))
    else (entries + [KeysetEntry(ix.keysetId, ix.denom, ix.jointPk, ix.epoch, Active)], Ok(()))
  }

  function Deposited(entries: seq<KeysetEntry>, vault: VaultValue, ix: Instruction): (VaultValue, Result<()>) {
    if !ix.Deposit? then (vault, Err(Malformed))
    else if ix.denom != ix.lamports then (vault, Err(DepositAmountMismatch))
    else if vault.denom != ix.denom then (vault, Err(VaultInvariantViolation))
    else if ActiveFor(entries, ix.denom).None? then (vault, Err(UnknownKeysetId))
    else if vault.collateral + ix.lamports > 0xffff_ffff_ffff_ffff then (vault, Err(VaultInvariantViolation))
    else (vault.(collateral := vault.collateral + ix.lamports), Ok(()))
  }

  function Refreshed(entries: seq<KeysetEntry>, leaves: set<Bytes32>, ix: Instruction)
    : (set<Bytes32>, Result<Bytes32>)
  {
    if !ix.Refresh? then (leaves, Err(Malformed)) else
      var valid := VerifyCoinForSpend(entries, ix.denom, ix.coinPubkey, ix.coinSignature);
      if valid.Err? then (leaves, Err(valid.error)) else
        var n := ComputeNullifier(ix.coinPubkey);
        (leaves + {n}, if n in leaves then Err(DoubleSpend) else Ok(n))
  }

  /** The nullifier is inserted before the collateral is checked. */
  function Withdrawn(entries: seq<KeysetEntry>, vault: VaultValue, leaves: set<Bytes32>, ix: Instruction)
    : (VaultValue, set<Bytes32>, Result<WithdrawOutcome>)
  {
    if !ix.Withdraw? then (vault, leaves, Err(Malformed))
    else if vault.denom != ix.denom then (vault, leaves, Err(VaultInvariantViolation))
    else
      var valid := VerifyCoinForSpend(entries, ix.denom, ix.coinPubkey, ix.coinSignature);
      if valid.Err? then (vault, leaves, Err(valid.error)) else
        var n := ComputeNullifier(ix.coinPubkey);
        if n in leaves then (vault, leaves + {n}, Err(DoubleSpend))
        else if vault.collateral < ix.denom then (vault, leaves + {n}, Err(VaultInsufficientCollateral))
        else (vault.(collateral := vault.collateral - ix.denom), leaves + {n},
              Ok(WithdrawOutcome(n, ix.recipient, ix.denom)))
  }

  function RevokedIn(entries: seq<KeysetEntry>, ix: Instruction): (seq<KeysetEntry>, Result<()>) {
    if !ix.Revoke? then (entries, Err(Malformed)) else
      match Position(entries, ix.keysetId)
      case None => (entries, Err(UnknownKeysetId))
      case Some(j) => (entries[j := entries[j].(status := KeysetStatus.Revoked)], Ok(()))
  }

  // ---------------------------------------------------------------- the handlers

  method ProcessRegisterKeyset(registry: KeysetRegistry, ix: Instruction) returns (r: Result<()>)
    modifies registry
    ensures (registry.entries, r) == Registered(old(registry.entries), ix)
    ensures registry.version == old(registry.version)
  {
    if !ix.RegisterKeyset? {
      return Err(Malformed);
    }
    var found := registry.Find(ix.keysetId);
    if found.Some? {
      return Err(KeysetAlreadyRegistered);
    }
    if |registry.entries| >= KEYSET_REGISTRY_CAPACITY {
      return Err(KeysetRegistryFull);
    }
    registry.entries := registry.entries + [KeysetEntry(ix.keysetId, ix.denom, ix.jointPk, ix.epoch, Active)];
    r := Ok(());
  }

  ghost function ValueOf(vault: Vault): VaultValue
    reads vault
  {
    VaultValue(vault.denom, vault.collateral)
  }

  method ProcessDeposit(registry: KeysetRegistry, vault: Vault, ix: Instruction) returns (r: Result<()>)
    modifies vault
    ensures (ValueOf(vault), r) == Deposited(registry.entries, old(ValueOf(vault)), ix)
  {
    if !ix.Deposit? {
      return Err(Malformed);
    }
    if ix.denom != ix.lamports {
      return Err(DepositAmountMismatch);
    }
    if vault.denom != ix.denom {
      return Err(VaultInvariantViolation);
    }
    var entry := registry.FindActiveForDenom(ix.denom);
    if entry.None? {
      return Err(UnknownKeysetId);
    }
    if vault.collateral + ix.lamports > 0xffff_ffff_ffff_ffff {
      return Err(VaultInvariantViolation);
    }
    vault.collateral := vault.collateral + ix.lamports;
    r := Ok(());
  }

  method VerifyCoin(registry: KeysetRegistry, denom: u64, coinPubkey: Bytes32, sig: Signature)
    returns (r: Result<()>)
    ensures r == VerifyCoinForSpend(registry.entries, denom, coinPubkey, sig)
  {
    hide Decompress, SchnorrVerify;
    var entry := registry.FindActiveForDenom(denom);
    if entry.None? {
      return Err(UnknownKeysetId);
    }
    var _ :- PublicKeyFromBytes(coinPubkey);
    var jointPk :- PublicKeyFromBytes(entry.value.jointPk);
    var ok :- SchnorrVerify(jointPk, Le(32, coinPubkey), sig);
    if !ok {
      return Err(CoinSignatureInvalid);
    }
    r := Ok(());
  }

  method ProcessRefresh(registry: KeysetRegistry, nullifiers: NullifierSet, ix: Instruction)
    returns (r: Result<Bytes32>)
    modifies nullifiers
    ensures (nullifiers.leaves, r) == Refreshed(registry.entries, old(nullifiers.leaves), ix)
  {
    if !ix.Refresh? {
      return Err(Malformed);
    }
    var _ :- VerifyCoin(registry, ix.denom, ix.coinPubkey, ix.coinSignature);
    var nullifier := ComputeNullifier(ix.coinPubkey);
    var inserted := nullifiers.Insert(nullifier);
    if !inserted {
      return Err(DoubleSpend);
    }
    r := Ok(nullifier);
  }

  method ProcessWithdraw(registry: KeysetRegistry, vault: Vault, nullifiers: NullifierSet, ix: Instruction)
    returns (r: Result<WithdrawOutcome>)
    modifies vault, nullifiers
    ensures (ValueOf(vault), nullifiers.leaves, r) ==
            Withdrawn(registry.entries, old(ValueOf(vault)), old(nullifiers.leaves), ix)
  {
    hide VerifyCoinForSpend;
    if !ix.Withdraw? {
      return Err(Malformed);
    }
    if vault.denom != ix.denom {
      return Err(VaultInvariantViolation);
    }
    var _ :- VerifyCoin(registry, ix.denom, ix.coinPubkey, ix.coinSignature);
    var nullifier := ComputeNullifier(ix.coinPubkey);
    var inserted := nullifiers.Insert(nullifier);
    if !inserted {
      return Err(DoubleSpend);
    }
    if vault.collateral < ix.denom {
      return Err(VaultInsufficientCollateral);
    }
    vault.collateral := vault.collateral - ix.denom;
    r := Ok(WithdrawOutcome(nullifier, ix.recipient, ix.denom));
  }

  method ProcessRevoke(registry: KeysetRegistry, ix: Instruction) returns (r: Result<()>)
    modifies registry
    ensures (registry.entries, r) == RevokedIn(old(registry.entries), ix)
    ensures registry.version == old(registry.version)
  {
    if !ix.Revoke? {
      return Err(Malformed);
    }
    var found := registry.Find(ix.keysetId);
    if found.None? {
      return Err(UnknownKeysetId);
    }
    var entry := registry.entries[found.value];
    registry.entries := registry.entries[found.value := entry.(status := KeysetStatus.Revoked)];
    r := Ok(());
  }

  // ---------------------------------------------------------------- atomic instructions

  /** The whole program state; a denomination without an entry has an empty vault. */
  datatype Chain = Chain(entries: seq<KeysetEntry>, vaults: map<u64, VaultValue>, nullifiers: set<Bytes32>)

  const GENESIS: Chain := Chain([], map[], {})

  function VaultOf(chain: Chain, denom: u64): VaultValue {
    if denom in chain.vaults then chain.vaults[denom] else VaultValue(denom, 0)
  }

  /** The handler's own effect, before the runtime decides whether to keep it. */
  function Handle(chain: Chain, ix: Instruction): (Chain, Result<()>) {
    match ix
    case RegisterKeyset(_, _, _, _, _) =>
      var (entries, r) := Registered(chain.entries, ix);
      (chain.(entries := entries), r)
    case Deposit(denom, _) =>
      var (vault, r) := Deposited(chain.entries, VaultOf(chain, denom), ix);
      (chain.(vaults := chain.vaults[denom := vault]), r)
    case Refresh(_, _, _) =>
      var (leaves, r) := Refreshed(chain.entries, chain.nullifiers, ix);
      (chain.(nullifiers := leaves), Done(r))
    case Withdraw(_, _, denom, _) =>
      var (vault, leaves, r) := Withdrawn(chain.entries, VaultOf(chain, denom), chain.nullifiers, ix);
      (chain.(vaults := chain.vaults[denom := vault], nullifiers := leaves), Done(r))
    case Revoke(_, _) =>
      var (entries, r) := RevokedIn(chain.entries, ix);
      (chain.(entries := entries), r)
    case _ => (chain, Ok(()))
  }

  function Done<T>(r: Result<T>): Result<()> {
    if r.Ok? then Ok(()) else Err(r.error)
  }

  /** A transaction with one instruction: on an error nothing of it remains. */
  function Transact(chain: Chain, ix: Instruction): (Chain, Result<()>) {
    var (after, r) := Handle(chain, ix);
    (if r.Ok? then after else chain, r)
  }

  /** Why the rollback matters: a withdrawal of a valid, unspent coin from a vault without enough
      collateral fails after its handler has already spent the nullifier. */
  lemma RollbackIsNeeded(chain: Chain, ix: Instruction)
    requires ix.Withdraw? && VaultOf(chain, ix.denom).denom == ix.denom
    requires VerifyCoinForSpend(chain.entries, ix.denom, ix.coinPubkey, ix.coinSignature).Ok?
    requires ComputeNullifier(ix.coinPubkey) !in chain.nullifiers
    requires VaultOf(chain, ix.denom).collateral < ix.denom
    ensures Handle(chain, ix).1 == Err(VaultInsufficientCollateral)
    ensures ComputeNullifier(ix.coinPubkey) in Handle(chain, ix).0.nullifiers
    ensures Transact(chain, ix).0 == chain
  {
    hide VerifyCoinForSpend;
  }

  // ---------------------------------------------------------------- runs

  function RunFrom(chain: Chain, ixs: seq<Instruction>): Chain {
    if ixs == [] then chain else Transact(RunFrom(chain, ixs[..|ixs| - 1]), ixs[|ixs| - 1]).0
  }

  function Run(ixs: seq<Instruction>): Chain {
    RunFrom(GENESIS, ixs)
  }

  /** The accepted instructions of a run, in order. */
  function Accepted(ixs: seq<Instruction>): seq<Instruction> {
    if ixs == [] then [] else
      var before, ix := ixs[..|ixs| - 1], ixs[|ixs| - 1];
      if Transact(Run(before), ix).1.Ok? then Accepted(before) + [ix] else Accepted(before)
  }

  function Deposits(accepted: seq<Instruction>, denom: u64): nat {
    if accepted == [] then 0 else
      var ix := accepted[|accepted| - 1];
      Deposits(accepted[..|accepted| - 1], denom) + (if ix.Deposit? && ix.denom == denom then 1 else 0)
  }

  function Withdrawals(accepted: seq<Instruction>, denom: u64): nat {
    if accepted == [] then 0 else
      var ix := accepted[|accepted| - 1];
      Withdrawals(accepted[..|accepted| - 1], denom) + (if ix.Withdraw? && ix.denom == denom then 1 else 0)
  }

  /** The nullifiers of the accepted refreshes and withdrawals, in order. */
  function Spends(accepted: seq<Instruction>): seq<Bytes32> {
    if accepted == [] then [] else
      var ix := accepted[|accepted| - 1];
      Spends(accepted[..|accepted| - 1]) +
      (if ix.Refresh? || ix.Withdraw? then [ComputeNullifier(ix.coinPubkey)] else [])
  }

  lemma AcceptedNext(ixs: seq<Instruction>)
    requires ixs != []
    ensures var before, ix := ixs[..|ixs| - 1], ixs[|ixs| - 1];
            && Run(ixs) == Transact(Run(before), ix).0
            && Accepted(ixs) == if Transact(Run(before), ix).1.Ok? then Accepted(before) + [ix] else Accepted(before)
  {
  }

  lemma RunEmpty(ixs: seq<Instruction>, denom: u64)
    requires ixs == []
    ensures Run(ixs) == GENESIS && Accepted(ixs) == [] && Spends([]) == []
    ensures GENESIS.nullifiers == {} && Ids(GENESIS.entries) == []
    ensures VaultOf(GENESIS, denom) == VaultValue(denom, 0) && Net([], denom) == 0
  {
  }

  lemma CountsNext(accepted: seq<Instruction>, ix: Instruction, denom: u64)
    ensures Deposits(accepted + [ix], denom) ==
            Deposits(accepted, denom) + (if ix.Deposit? && ix.denom == denom then 1 else 0)
    ensures Withdrawals(accepted + [ix], denom) ==
            Withdrawals(accepted, denom) + (if ix.Withdraw? && ix.denom == denom then 1 else 0)
    ensures Spends(accepted + [ix]) ==
            if ix.Refresh? || ix.Withdraw? then Spends(accepted) + [ComputeNullifier(ix.coinPubkey)]
            else Spends(accepted)
  {
    assert (accepted + [ix])[..|accepted|] == accepted;
  }

  /** What one transaction does to the vault of a denomination. */
  lemma VaultEffect(chain: Chain, ix: Instruction, denom: u64)
    requires VaultOf(chain, denom).denom == denom
    ensures var (after, r) := Transact(chain, ix);
            && VaultOf(after, denom).denom == denom
            && VaultOf(after, denom).collateral ==
               VaultOf(chain, denom).collateral + Change(r.Ok?, ix, denom) * denom
  {
    hide VerifyCoinForSpend, Position, ActiveFor;
  }

  function Change(accepted: bool, ix: Instruction, denom: u64): int {
    if accepted && ix.Deposit? && ix.denom == denom then 1
    else if accepted && ix.Withdraw? && ix.denom == denom then -1
    else 0
  }

  /** What one transaction does to the nullifiers. */
  lemma NullifierEffect(chain: Chain, ix: Instruction)
    ensures var (after, r) := Transact(chain, ix);
            if r.Ok? && (ix.Refresh? || ix.Withdraw?) then
              && ComputeNullifier(ix.coinPubkey) !in chain.nullifiers
              && after.nullifiers == chain.nullifiers + {ComputeNullifier(ix.coinPubkey)}
            else after.nullifiers == chain.nullifiers
  {
    hide VerifyCoinForSpend, Position, ActiveFor;
  }

  lemma Balance(c: int, c': int, d: int, net: int, net': int, change: int)
    requires c == d * net && c' == c + change * d && net' == net + change
    ensures c' == d * net'
  {
    assert change * d == d * change;
    assert d * (net + change) == d * net + d * change;
  }

  /** Conservation: after any run, each vault holds its denomination times the number of deposits
      accepted for it less the number of withdrawals. */
  lemma {:induction false} VaultConservation(ixs: seq<Instruction>, denom: u64)
    ensures VaultOf(Run(ixs), denom).denom == denom
    ensures VaultOf(Run(ixs), denom).collateral == denom * Net(Accepted(ixs), denom)
  {
    hide *;
    if ixs == [] {
      RunEmpty(ixs, denom);
    } else {
      var before, ix := ixs[..|ixs| - 1], ixs[|ixs| - 1];
      VaultConservation(before, denom);
      NetNext(Accepted(before), ix, denom);
      AcceptedNext(ixs);
      VaultEffect(Run(before), ix, denom);
      var accepted := Transact(Run(before), ix).1.Ok?;
      RejectedChange(ix, denom);
      Balance(VaultOf(Run(before), denom).collateral, VaultOf(Run(ixs), denom).collateral, denom,
              Net(Accepted(before), denom), Net(Accepted(ixs), denom), Change(accepted, ix, denom));
    }
  }

  /** Deposits less withdrawals. */
  function Net(accepted: seq<Instruction>, denom: u64): int {
    Deposits(accepted, denom) - Withdrawals(accepted, denom)
  }

  lemma NetNext(accepted: seq<Instruction>, ix: Instruction, denom: u64)
    ensures Net(accepted + [ix], denom) == Net(accepted, denom) + Change(true, ix, denom)
  {
    CountsNext(accepted, ix, denom);
  }

  lemma RejectedChange(ix: Instruction, denom: u64)
    ensures Change(false, ix, denom) == 0
  {
  }

  /** No double spend: over any run and any mix of refreshes and withdrawals the accepted nullifiers
      are pairwise different, and they are exactly the stored set, so its size is their number. */
  lemma {:induction false} NoDoubleSpend(ixs: seq<Instruction>)
    ensures Distinct(Spends(Accepted(ixs)))
    ensures forall n :: n in Spends(Accepted(ixs)) <==> n in Run(ixs).nullifiers
    ensures |Run(ixs).nullifiers| == |Spends(Accepted(ixs))|
  {
    hide *;
    if ixs == [] {
      RunEmpty(ixs, 0);
      DistinctEmpty(Spends([]));
    } else {
      var before, ix := ixs[..|ixs| - 1], ixs[|ixs| - 1];
      NoDoubleSpend(before);
      AcceptedNext(ixs);
      NullifierEffect(Run(before), ix);
      CountsNext(Accepted(before), ix, 0);
      if Transact(Run(before), ix).1.Ok? && (ix.Refresh? || ix.Withdraw?) {
        DistinctLast(Spends(Accepted(before)), ComputeNullifier(ix.coinPubkey));
      }
    }
  }

  // ---------------------------------------------------------------- the registry over runs

  /** Existing entries keep everything but their status, and that only ever becomes revoked. */
  lemma EntriesEffect(chain: Chain, ix: Instruction, j: nat)
    requires j < |chain.entries|
    ensures var after := Transact(chain, ix).0;
            && j < |after.entries|
            && (after.entries[j] == chain.entries[j]
                || after.entries[j] == chain.entries[j].(status := KeysetStatus.Revoked))
  {
    hide VerifyCoinForSpend, ActiveFor;
  }

  /** A revoked keyset stays revoked, whatever follows. */
  lemma {:induction false} RevocationIsPermanent(ixs: seq<Instruction>, more: seq<Instruction>, j: nat)
    requires j < |Run(ixs).entries| && Run(ixs).entries[j].status == KeysetStatus.Revoked
    ensures j < |Run(ixs + more).entries| && Run(ixs + more).entries[j] == Run(ixs).entries[j]
    decreases |more|
  {
    hide *;
    if more == [] {
      assert ixs + more == ixs;
    } else {
      var before, ix := more[..|more| - 1], more[|more| - 1];
      RevocationIsPermanent(ixs, before, j);
      assert ixs + more == ixs + before + [ix];
      assert (ixs + more)[..|ixs + before|] == ixs + before;
      AcceptedNext(ixs + more);
      EntriesEffect(Run(ixs + before), ix, j);
    }
  }

  function Ids(entries: seq<KeysetEntry>): (ids: seq<KeysetId>)
    ensures |ids| == |entries|
  {
    seq(|entries|, j requires 0 <= j < |entries| => entries[j].keysetId)
  }

  lemma IdsEffect(chain: Chain, ix: Instruction)
    requires Distinct(Ids(chain.entries)) && |chain.entries| <= 256
    ensures var after := Transact(chain, ix).0;
            Distinct(Ids(after.entries)) && |after.entries| <= 256
  {
    hide VerifyCoinForSpend, ActiveFor, Distinct;
    var after := Transact(chain, ix).0;
    if ix.RegisterKeyset? && after.entries != chain.entries {
      assert Ids(after.entries) == Ids(chain.entries) + [ix.keysetId];
      DistinctLast(Ids(chain.entries), ix.keysetId);
    } else {
      assert Ids(after.entries) == Ids(chain.entries);
    }
  }

  /** No id is registered twice and the capacity is never exceeded. */
  lemma {:induction false} RegistryInvariant(ixs: seq<Instruction>)
    ensures Distinct(Ids(Run(ixs).entries)) && |Run(ixs).entries| <= 256
  {
    hide *;
    if ixs == [] {
      RunEmpty(ixs, 0);
      DistinctEmpty(Ids(Run(ixs).entries));
    } else {
      RegistryInvariant(ixs[..|ixs| - 1]);
      AcceptedNext(ixs);
      IdsEffect(Run(ixs[..|ixs| - 1]), ixs[|ixs| - 1]);
    }
  }

  // ---------------------------------------------------------------- when each instruction is accepted

  /** Everything but the registry is as before. */
  ghost predicate OnlyRegistry(chain: Chain, after: Chain) {
    after.vaults == chain.vaults && after.nullifiers == chain.nullifiers
  }

  lemma NewestIsFound(entries: seq<KeysetEntry>, e: KeysetEntry)
    requires Position(entries, e.keysetId).None?
    ensures Position(entries + [e], e.keysetId) == Some(|entries|)
  {
    assert (entries + [e])[|entries|] == e;
    assert forall j :: 0 <= j < |entries| ==> (entries + [e])[j] == entries[j];
  }

  /** A registration is accepted iff its id is new and there is room. It keeps every entry and makes the id findable
      with the instruction's own denomination, key and epoch, as an active keyset. */
  lemma RegisterAcceptedIff(
      chain: Chain, id: KeysetId, denom: u64, jointPk: Bytes32, epoch: u64, authorization: seq<u8>)
    ensures var (after, r) := Transact(chain, RegisterKeyset(id, denom, jointPk, epoch, authorization));
            && (r.Ok? <==> (forall j :: 0 <= j < |chain.entries| ==> chain.entries[j].keysetId != id)
                           && |chain.entries| < 256)
            && (r.Ok? ==>
                  && OnlyRegistry(chain, after) && |after.entries| == |chain.entries| + 1
                  && (forall j :: 0 <= j < |chain.entries| ==> after.entries[j] == chain.entries[j])
                  && var found := Position(after.entries, id);
                  && found == Some(|chain.entries|)
                  && var e := after.entries[found.value];
                  && e.keysetId == id && e.denom == denom && e.jointPk == jointPk && e.epoch == epoch
                  && e.status == Active)
  {
    var e := KeysetEntry(id, denom, jointPk, epoch, Active);
    if Position(chain.entries, id).None? {
      NewestIsFound(chain.entries, e);
    }
    hide ActiveFor, VerifyCoinForSpend;
  }

  /** Unless an active keyset of its denomination has a greater epoch, the new keyset serves the denomination at
      once: an unspent valid coin signed under its key can be refreshed. */
  lemma RegisteredKeyServes(
      chain: Chain, id: KeysetId, denom: u64, x: int, epoch: u64, authorization: seq<u8>, coin: Coin)
    requires Transact(chain, RegisterKeyset(id, denom, Compress(Base(x)), epoch, authorization)).1.Ok?
    requires forall j :: 0 <= j < |chain.entries| && Serves(chain.entries[j], denom) ==>
               chain.entries[j].epoch <= epoch
    requires coin.Valid() && coin.Verify(Compress(Base(x))) == Ok(true)
    requires ComputeNullifier(coin.pubkeyBytes) !in chain.nullifiers
    ensures var after := Transact(chain, RegisterKeyset(id, denom, Compress(Base(x)), epoch, authorization)).0;
            && (exists e :: ServedBy(after.entries, denom, e) && e.keysetId == id && e.jointPk == Compress(Base(x)))
            && Transact(after, Refresh(coin.pubkeyBytes, coin.signature, denom)).1.Ok?
  {
    hide Compress, Base, ComputeNullifier, VerifyCoinForSpend, Transact, ActiveFor, Coin.Valid, Coin.Verify;
    var after := Transact(chain, RegisterKeyset(id, denom, Compress(Base(x)), epoch, authorization)).0;
    RegisterAcceptedIff(chain, id, denom, Compress(Base(x)), epoch, authorization);
    var j := |chain.entries|;
    var e := after.entries[j];
    assert Latest(after.entries, denom, j);
    assert ServedBy(after.entries, denom, e);
    ActiveForIff(after.entries, denom, e);
    CoinPasses(after.entries, denom, x, coin);
    RefreshesIff(after, Refresh(coin.pubkeyBytes, coin.signature, denom));
  }

  lemma RefreshesIff(chain: Chain, ix: Instruction)
    requires ix.Refresh?
    ensures Transact(chain, ix).1.Ok? <==>
            VerifyCoinForSpend(chain.entries, ix.denom, ix.coinPubkey, ix.coinSignature).Ok?
            && ComputeNullifier(ix.coinPubkey) !in chain.nullifiers
  {
    hide VerifyCoinForSpend;
  }

  /** A revocation is accepted iff the id is registered; then the first entry with it is revoked and nothing else
      changes. */
  lemma RevokeAcceptedIff(chain: Chain, id: KeysetId, authorization: seq<u8>)
    ensures var (after, r) := Transact(chain, Revoke(id, authorization));
            && (r.Ok? <==> exists j :: 0 <= j < |chain.entries| && chain.entries[j].keysetId == id)
            && (r.Ok? ==>
                  && OnlyRegistry(chain, after) && |after.entries| == |chain.entries|
                  && exists j :: 0 <= j < |chain.entries| && chain.entries[j].keysetId == id
                       && (forall i :: 0 <= i < j ==> chain.entries[i].keysetId != id)
                       && after.entries[j] == chain.entries[j].(status := KeysetStatus.Revoked)
                       && forall i :: 0 <= i < |chain.entries| && i != j ==> after.entries[i] == chain.entries[i])
  {
    hide ActiveFor, VerifyCoinForSpend;
    match Position(chain.entries, id)
    case None =>
    case Some(j) =>
      assert Transact(chain, Revoke(id, authorization)).0.entries[j] ==
             chain.entries[j].(status := KeysetStatus.Revoked);
  }

  /** The bytes of a torsion-free point. */
  ghost predicate KeyBytes(b: Bytes32) {
    Decompress(b).Ok? && TorsionFree(Decompress(b).value)
  }

  /** The coin's signature verifies under the key that serves the denomination. */
  ghost predicate SignedBy(entries: seq<KeysetEntry>, denom: u64, coinPubkey: Bytes32, sig: Signature) {
    exists e :: ServedBy(entries, denom, e) && KeyBytes(e.jointPk)
      && SchnorrVerify(e.jointPk, Le(32, coinPubkey), sig) == Ok(true)
  }

  /** The check of both spending instructions, exactly: the commitment is the encoding of a torsion-free point and
      the signature on it verifies under the serving key. */
  lemma CoinAcceptedIff(entries: seq<KeysetEntry>, denom: u64, coinPubkey: Bytes32, sig: Signature)
    ensures VerifyCoinForSpend(entries, denom, coinPubkey, sig).Ok? <==>
            KeyBytes(coinPubkey) && SignedBy(entries, denom, coinPubkey, sig)
  {
    hide ServedBy, ActiveFor, SchnorrVerify, Decompress, Le;
    match ActiveFor(entries, denom)
    case None =>
      forall e
        ensures !ServedBy(entries, denom, e)
      {
        ActiveForIff(entries, denom, e);
      }
    case Some(entry) =>
      ActiveForIff(entries, denom, entry);
      forall e | ServedBy(entries, denom, e)
        ensures e == entry
      {
        ActiveForIff(entries, denom, e);
      }
  }

  /** A refresh is accepted iff the coin is so signed and unspent. */
  lemma RefreshAcceptedIff(chain: Chain, coinPubkey: Bytes32, sig: Signature, denom: u64)
    ensures Transact(chain, Refresh(coinPubkey, sig, denom)).1.Ok? <==>
            && KeyBytes(coinPubkey) && SignedBy(chain.entries, denom, coinPubkey, sig)
            && ComputeNullifier(coinPubkey) !in chain.nullifiers
  {
    hide VerifyCoinForSpend, KeyBytes, SignedBy, Transact, ComputeNullifier;
    CoinAcceptedIff(chain.entries, denom, coinPubkey, sig);
    RefreshesIff(chain, Refresh(coinPubkey, sig, denom));
  }

  /** A withdrawal is accepted iff moreover the vault is the denomination's and can pay; it then pays exactly the
      denomination. */
  lemma WithdrawAcceptedIff(chain: Chain, coinPubkey: Bytes32, sig: Signature, denom: u64, recipient: Bytes32)
    ensures var (after, r) := Transact(chain, Withdraw(coinPubkey, sig, denom, recipient));
            && (r.Ok? <==>
                  && KeyBytes(coinPubkey) && SignedBy(chain.entries, denom, coinPubkey, sig)
                  && ComputeNullifier(coinPubkey) !in chain.nullifiers
                  && VaultOf(chain, denom).denom == denom && denom <= VaultOf(chain, denom).collateral)
            && (r.Ok? ==> VaultOf(after, denom).collateral == VaultOf(chain, denom).collateral - denom)
  {
    hide VerifyCoinForSpend, KeyBytes, SignedBy, ComputeNullifier;
    CoinAcceptedIff(chain.entries, denom, coinPubkey, sig);
  }

  /** A deposit is accepted iff it names the vault's denomination as its amount, some keyset serves it and the sum
      fits 64 bits; it then adds exactly the denomination. */
  lemma DepositAcceptedIff(chain: Chain, denom: u64, lamports: u64)
    ensures var (after, r) := Transact(chain, Deposit(denom, lamports));
            && (r.Ok? <==>
                  && lamports == denom == VaultOf(chain, denom).denom
                  && (exists e :: ServedBy(chain.entries, denom, e))
                  && VaultOf(chain, denom).collateral + denom < 0x1_0000_0000_0000_0000)
            && (r.Ok? ==>
                  && VaultOf(after, denom).collateral == VaultOf(chain, denom).collateral + denom
                  && after.entries == chain.entries && after.nullifiers == chain.nullifiers)
  {
    hide ServedBy, ActiveFor, VerifyCoinForSpend;
    match ActiveFor(chain.entries, denom)
    case None =>
      forall e
        ensures !ServedBy(chain.entries, denom, e)
      {
        ActiveForIff(chain.entries, denom, e);
      }
    case Some(entry) =>
      ActiveForIff(chain.entries, denom, entry);
  }

  /** A refused instruction changes nothing; an accepted one changes no vault but that of its denomination, no
      registry entry unless it registers or revokes, and no nullifier unless it spends. */
  lemma TransactFrame(chain: Chain, ix: Instruction, other: u64)
    ensures var (after, r) := Transact(chain, ix);
            && (r.Err? ==> after == chain)
            && ((ix.Deposit? || ix.Withdraw? ==> other != ix.denom) ==> VaultOf(after, other) == VaultOf(chain, other))
            && (!ix.RegisterKeyset? && !ix.Revoke? ==> after.entries == chain.entries)
            && (!ix.Refresh? && !ix.Withdraw? ==> after.nullifiers == chain.nullifiers)
  {
    hide ActiveFor, VerifyCoinForSpend, ComputeNullifier;
  }

  // ---------------------------------------------------------------- why an instruction is refused

  /** A used id is reported before a full registry, and an amount that is not the denomination before a vault of
      another one, before a denomination that nothing serves, before a sum that does not fit. */
  lemma RegistryRefusals(entries: seq<KeysetEntry>, vault: VaultValue, register: Instruction, deposit: Instruction)
    requires register.RegisterKeyset? && deposit.Deposit?
    ensures var r := Registered(entries, register).1;
            var used := exists j :: 0 <= j < |entries| && entries[j].keysetId == register.keysetId;
            && (r == Err(KeysetAlreadyRegistered) <==> used)
            && (r == Err(KeysetRegistryFull) <==> !used && |entries| >= 256)
    ensures var r, served := Deposited(entries, vault, deposit).1, exists e :: ServedBy(entries, deposit.denom, e);
            && (r == Err(DepositAmountMismatch) <==> deposit.denom != deposit.lamports)
            && (r == Err(UnknownKeysetId) <==> deposit.denom == deposit.lamports == vault.denom && !served)
            && (r == Err(VaultInvariantViolation) <==>
                  && deposit.denom == deposit.lamports
                  && (vault.denom != deposit.denom
                      || (served && vault.collateral + deposit.lamports >= 0x1_0000_0000_0000_0000)))
  {
    hide ServedBy, ActiveFor;
    ServedIffFound(entries, deposit.denom);
  }

  lemma ServedIffFound(entries: seq<KeysetEntry>, denom: u64)
    ensures ActiveFor(entries, denom).Some? <==> exists e :: ServedBy(entries, denom, e)
  {
    hide ServedBy, ActiveFor;
    forall e
      ensures ActiveFor(entries, denom) == Some(e) <==> ServedBy(entries, denom, e)
    {
      ActiveForIff(entries, denom, e);
    }
  }

  /** A coin that fails its check is reported before one that is spent, and that before a vault that cannot pay; the
      outcome of a withdrawal names the coin's nullifier, the recipient and the denomination. */
  lemma SpendRefusals(
      entries: seq<KeysetEntry>, vault: VaultValue, leaves: set<Bytes32>, refresh: Instruction, withdraw: Instruction)
    requires refresh.Refresh? && withdraw.Withdraw?
    ensures var r, ix := Refreshed(entries, leaves, refresh).1, refresh;
            && (r == Err(DoubleSpend) <==>
                  && KeyBytes(ix.coinPubkey) && SignedBy(entries, ix.denom, ix.coinPubkey, ix.coinSignature)
                  && ComputeNullifier(ix.coinPubkey) in leaves)
            && (r.Ok? ==> r.value == ComputeNullifier(ix.coinPubkey))
    ensures var r, ix := Withdrawn(entries, vault, leaves, withdraw).2, withdraw;
            var signed := KeyBytes(ix.coinPubkey) && SignedBy(entries, ix.denom, ix.coinPubkey, ix.coinSignature);
            && (vault.denom != ix.denom ==> r == Err(VaultInvariantViolation))
            && (r == Err(DoubleSpend) <==>
                  vault.denom == ix.denom && signed && ComputeNullifier(ix.coinPubkey) in leaves)
            && (r == Err(VaultInsufficientCollateral) <==>
                  && vault.denom == ix.denom && signed && ComputeNullifier(ix.coinPubkey) !in leaves
                  && vault.collateral < ix.denom)
            && (r.Ok? ==> r.value == WithdrawOutcome(ComputeNullifier(ix.coinPubkey), ix.recipient, ix.denom))
  {
    CoinErrors(entries, refresh.denom, refresh.coinPubkey, refresh.coinSignature);
    CoinErrors(entries, withdraw.denom, withdraw.coinPubkey, withdraw.coinSignature);
    hide VerifyCoinForSpend, KeyBytes, SignedBy;
    CoinAcceptedIff(entries, refresh.denom, refresh.coinPubkey, refresh.coinSignature);
    CoinAcceptedIff(entries, withdraw.denom, withdraw.coinPubkey, withdraw.coinSignature);
  }

  /** What the check of a coin reports: an unserved denomination first, then keys that are not torsion-free points,
      then a signature that does not verify. */
  lemma CoinErrors(entries: seq<KeysetEntry>, denom: u64, coinPubkey: Bytes32, sig: Signature)
    ensures var r := VerifyCoinForSpend(entries, denom, coinPubkey, sig);
            && r.Err? ==> r.error in {UnknownKeysetId, InvalidPoint, InvalidScalar, CoinSignatureInvalid}
    ensures VerifyCoinForSpend(entries, denom, coinPubkey, sig) == Err(UnknownKeysetId) <==>
            !exists e :: ServedBy(entries, denom, e)
    ensures (exists e :: ServedBy(entries, denom, e)) && !KeyBytes(coinPubkey) ==>
              VerifyCoinForSpend(entries, denom, coinPubkey, sig) == Err(InvalidPoint)
  {
    hide ServedBy, ActiveFor, Le, Base, PointAdd, PointMul;
    ServedIffFound(entries, denom);
  }

  // ---------------------------------------------------------------- spending an issued coin

  lemma CoinPasses(entries: seq<KeysetEntry>, denom: u64, x: int, coin: Coin)
    requires ActiveFor(entries, denom).Some? && ActiveFor(entries, denom).value.jointPk == Compress(Base(x))
    requires coin.Valid() && coin.Verify(Compress(Base(x))) == Ok(true)
    ensures VerifyCoinForSpend(entries, denom, coin.pubkeyBytes, coin.signature) == Ok(())
  {
    hide Base, Compress, PublicKeyFromBytes, SchnorrVerify;
    HonestPublicKey(x);
    HonestPublicKey(coin.secret);
  }

  lemma RunFromNext(chain: Chain, ixs: seq<Instruction>)
    requires ixs != []
    ensures RunFrom(chain, ixs) == Transact(RunFrom(chain, ixs[..|ixs| - 1]), ixs[|ixs| - 1]).0
  {
  }

  lemma RunFromNone(chain: Chain)
    ensures RunFrom(chain, []) == chain
  {
  }

  /** A stored nullifier stays stored. */
  lemma {:induction false} NullifiersStay(chain: Chain, ixs: seq<Instruction>, n: Bytes32)
    requires n in chain.nullifiers
    ensures n in RunFrom(chain, ixs).nullifiers
  {
    hide *;
    RunFromNone(chain);
    if ixs != [] {
      var before := ixs[..|ixs| - 1];
      NullifiersStay(chain, before, n);
      RunFromNext(chain, ixs);
      NullifierEffect(RunFrom(chain, before), ixs[|ixs| - 1]);
    }
  }

  /** The instruction spends the coin with this public commitment. */
  predicate SpendsCoin(ix: Instruction, coinPubkey: Bytes32) {
    (ix.Refresh? || ix.Withdraw?) && ix.coinPubkey == coinPubkey
  }

  /** Once a coin is spent, no instruction spends it again, under whatever signature, denomination or
      recipient and after whatever further instructions. */
  lemma SpentForGood(
      chain: Chain, spend: Instruction, coinPubkey: Bytes32, more: seq<Instruction>, again: Instruction)
    requires SpendsCoin(spend, coinPubkey) && Transact(chain, spend).1.Ok? && SpendsCoin(again, coinPubkey)
    ensures Transact(RunFrom(Transact(chain, spend).0, more), again).1.Err?
  {
    hide Transact, RunFrom;
    var after := Transact(chain, spend).0;
    NullifierEffect(chain, spend);
    NullifiersStay(after, more, ComputeNullifier(coinPubkey));
    NullifierEffect(RunFrom(after, more), again);
  }

  /** A valid coin that verifies under the active key of a denomination can be refreshed iff its
      nullifier is fresh, and withdrawn iff moreover the vault can pay; once either has happened, nothing
      spends it again in any further run. */
  lemma CoinIsSpentOnce(
      chain: Chain, denom: u64, x: int, coin: Coin, recipient: Bytes32, more: seq<Instruction>, again: Instruction)
    requires VaultOf(chain, denom).denom == denom
    requires ActiveFor(chain.entries, denom).Some?
    requires ActiveFor(chain.entries, denom).value.jointPk == Compress(Base(x))
    requires coin.Valid() && coin.Verify(Compress(Base(x))) == Ok(true)
    ensures var refresh := Refresh(coin.pubkeyBytes, coin.signature, denom);
            var withdraw := Withdraw(coin.pubkeyBytes, coin.signature, denom, recipient);
            var unspent := ComputeNullifier(coin.pubkeyBytes) !in chain.nullifiers;
            && (Transact(chain, refresh).1.Ok? <==> unspent)
            && (Transact(chain, withdraw).1.Ok? <==> unspent && VaultOf(chain, denom).collateral >= denom)
            && (Transact(chain, refresh).1.Ok? && SpendsCoin(again, coin.pubkeyBytes) ==>
                  Transact(RunFrom(Transact(chain, refresh).0, more), again).1.Err?)
            && (Transact(chain, withdraw).1.Ok? && SpendsCoin(again, coin.pubkeyBytes) ==>
                  Transact(RunFrom(Transact(chain, withdraw).0, more), again).1.Err?)
  {
    hide VerifyCoinForSpend, Coin.Valid, Coin.Verify, ActiveFor, Compress, Base, RunFrom;
    CoinPasses(chain.entries, denom, x, coin);
    var refresh := Refresh(coin.pubkeyBytes, coin.signature, denom);
    var withdraw := Withdraw(coin.pubkeyBytes, coin.signature, denom, recipient);
    if Transact(chain, refresh).1.Ok? && SpendsCoin(again, coin.pubkeyBytes) {
      SpentForGood(chain, refresh, coin.pubkeyBytes, more, again);
    }
    if Transact(chain, withdraw).1.Ok? && SpendsCoin(again, coin.pubkeyBytes) {
      SpentForGood(chain, withdraw, coin.pubkeyBytes, more, again);
    }
  }
}
