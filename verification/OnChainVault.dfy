/** Deposits and withdrawals as the deployed program makes them: a vault is an address with lamports, no
    vault record is kept, and transactions of several operations succeed or fail as a whole. */
module OnChainVault {
  import opened Wrappers
  import opened Lists
  import opened Schnorr
  import opened State
  import opened Instruction
  import opened Processor
  import opened Accounts

  /** Whether the transaction carries a precompile instruction that verified this signature. */
  const PRECOMPILE: (Bytes32, Bytes32, Signature) -> bool

  /** Program-derived addresses of different denominations are different. */
  type VaultAddresses = f: u64 -> Bytes32 | forall a, b :: f(a) == f(b) ==> a == b
    witness ((d: u64) => d as Bytes32)

  const VAULT_ADDRESS: VaultAddresses

  const MAX_LAMPORTS: u64 := 0xffff_ffff_ffff_ffff

  // ---------------------------------------------------------------- what each handler does

  /** A deposit moves nothing: it only looks at the lamports the vault has. */
  function DepositChecked(entries: seq<KeysetEntry>, observed: u64, ix: Instruction): Result<()> {
    if !ix.Deposit? then Err(Malformed)
    else if observed < ix.lamports then Err(InsufficientFunds)
    else Deposited(entries, VaultValue(ix.denom, observed), ix).1
  }

  /** The checks that refresh and withdrawal share; the nullifier is inserted at the end. */
  function Spent(entries: seq<KeysetEntry>, leaves: set<Bytes32>, denom: u64, coinPubkey: Bytes32, sig: Signature)
    : (set<Bytes32>, Result<()>)
  {
    match ActiveFor(entries, denom)
    case None => (leaves, Err(UnknownKeysetId))
    case Some(entry) =>
      if !PRECOMPILE(entry.jointPk, coinPubkey, sig) then (leaves, Err(CoinSignatureInvalid)) else
        var n := ComputeNullifier(coinPubkey);
        (leaves + {n}, if n in leaves then Err(DoubleSpend) else Ok(()))
  }

  /** A system transfer: both balances afterwards. */
  function Transferred(from: u64, to: u64, same: bool, amount: u64): Result<(u64, u64)> {
    if from < amount then Err(InsufficientFunds)
    else if same then Ok((from, to))
    else if to + amount > MAX_LAMPORTS then Err(InvalidState)
    else Ok((from - amount, to + amount))
  }

  // ---------------------------------------------------------------- the handlers

  /** The processor runs on a vault value made for the occasion and dropped afterwards. */
  method DepositEntry(registry: KeysetRegistry, vault: Account, ix: Instruction) returns (r: Result<()>)
    ensures r == DepositChecked(registry.entries, vault.lamports, ix)
  {
    if !ix.Deposit? {
      return Err(Malformed);
    }
    var observed := vault.lamports;
    if observed < ix.lamports {
      return Err(InsufficientFunds);
    }
    var shadowVault := new Vault(ix.denom);
    shadowVault.collateral := observed;
    r := ProcessDeposit(registry, shadowVault, ix);
  }

  method SpendEntry(
    registry: KeysetRegistry, nullifiers: NullifierSet, denom: u64, coinPubkey: Bytes32, sig: Signature)
    returns (r: Result<()>)
    modifies nullifiers
    ensures (nullifiers.leaves, r) == Spent(registry.entries, old(nullifiers.leaves), denom, coinPubkey, sig)
  {
    var entry := registry.FindActiveForDenom(denom);
    if entry.None? {
      return Err(UnknownKeysetId);
    }
    if !PRECOMPILE(entry.value.jointPk, coinPubkey, sig) {
      return Err(CoinSignatureInvalid);
    }
    var inserted := nullifiers.Insert(ComputeNullifier(coinPubkey));
    r := if inserted then Ok(()) else Err(DoubleSpend);
  }

  method SystemTransfer(from: Account, to: Account, amount: u64) returns (r: Result<()>)
    modifies from`lamports, to`lamports
    ensures var moved := Transferred(old(from.lamports), old(to.lamports), from == to, amount);
            && r == Done(moved)
            && if moved.Ok? then (from.lamports, to.lamports) == moved.value
               else from.lamports == old(from.lamports) && to.lamports == old(to.lamports)
  {
    if from.lamports < amount {
      return Err(InsufficientFunds);
    }
    if from != to && to.lamports + amount > MAX_LAMPORTS {
      return Err(InvalidState);
    }
    from.lamports := from.lamports - amount;
    to.lamports := to.lamports + amount;
    r := Ok(());
  }

  /** The nullifier is stored before the balance is looked at; the transfer comes last. */
  method WithdrawEntry(
    registry: KeysetRegistry, vault: Account, nullifiers: NullifierSet, recipient: Account, ix: Instruction)
    returns (r: Result<()>)
    requires ix.Withdraw?
    modifies vault`lamports, recipient`lamports, nullifiers
    ensures var (leaves, spent) :=
              Spent(registry.entries, old(nullifiers.leaves), ix.denom, ix.coinPubkey, ix.coinSignature);
            var moved := Transferred(old(vault.lamports), old(recipient.lamports), vault == recipient, ix.denom);
            && nullifiers.leaves == leaves
            && r == (if spent.Err? then spent
                     else if old(vault.lamports) < ix.denom then Err(VaultInsufficientCollateral) else Done(moved))
            && if r.Ok? then (vault.lamports, recipient.lamports) == moved.value
               else vault.lamports == old(vault.lamports) && recipient.lamports == old(recipient.lamports)
  {
    var _ :- SpendEntry(registry, nullifiers, ix.denom, ix.coinPubkey, ix.coinSignature);
    var observed := vault.lamports;
    if observed < ix.denom {
      return Err(VaultInsufficientCollateral);
    }
    r := SystemTransfer(vault, recipient, ix.denom);
  }

  // ---------------------------------------------------------------- transactions

  /** What the program and the system program keep: registry, nullifiers and lamports by address. */
  datatype Ledger = Ledger(entries: seq<KeysetEntry>, nullifiers: set<Bytes32>, lamports: map<Bytes32, u64>)

  function BalanceOf(l: Ledger, a: Bytes32): u64 {
    if a in l.lamports then l.lamports[a] else 0
  }

  /** `Transfer` is any movement that another instruction makes: a system transfer, the rent paid when a
      vault is created, a sponsor payout. */
  datatype Op = Transfer(from: Bytes32, to: Bytes32, amount: u64) | Call(ix: Instruction)

  ghost predicate IsVault(a: Bytes32) {
    exists d: u64 :: VAULT_ADDRESS(d) == a
  }

  function Move(l: Ledger, from: Bytes32, to: Bytes32, amount: u64): Result<Ledger> {
    var moved :- Transferred(BalanceOf(l, from), BalanceOf(l, to), from == to, amount);
    Ok(l.(lamports := l.lamports[from := moved.0][to := moved.1]))
  }

  /** One call of the program; instructions on other accounts leave the ledger alone. */
  function Called(l: Ledger, ix: Instruction): Result<Ledger> {
    if ix.RegisterKeyset? then
      var (entries, r) := Registered(l.entries, ix);
      if r.Err? then Err(r.error) else Ok(l.(entries := entries))
    else if ix.Revoke? then
      var (entries, r) := RevokedIn(l.entries, ix);
      if r.Err? then Err(r.error) else Ok(l.(entries := entries))
    else if ix.Deposit? then
      var r := DepositChecked(l.entries, BalanceOf(l, VAULT_ADDRESS(ix.denom)), ix);
      if r.Err? then Err(r.error) else Ok(l)
    else if ix.Refresh? then
      var (leaves, r) := Spent(l.entries, l.nullifiers, ix.denom, ix.coinPubkey, ix.coinSignature);
      if r.Err? then Err(r.error) else Ok(l.(nullifiers := leaves))
    else if ix.Withdraw? then
      var (leaves, r) := Spent(l.entries, l.nullifiers, ix.denom, ix.coinPubkey, ix.coinSignature);
      if r.Err? then Err(r.error)
      else if BalanceOf(l, VAULT_ADDRESS(ix.denom)) < ix.denom then Err(VaultInsufficientCollateral)
      else Move(l.(nullifiers := leaves), VAULT_ADDRESS(ix.denom), ix.recipient, ix.denom)
    else Ok(l)
  }

  /** One operation. Nobody signs for a vault but the program. */
  ghost function Apply(l: Ledger, op: Op): Result<Ledger> {
    match op
    case Transfer(from, to, amount) => if IsVault(from) then Err(InvalidState) else Move(l, from, to, amount)
    case Call(ix) => Called(l, ix)
  }

  /** The operations of one transaction; the first failure fails it. */
  ghost function ApplyAll(l: Ledger, ops: seq<Op>): Result<Ledger> {
    if ops == [] then Ok(l) else
      var before :- ApplyAll(l, ops[..|ops| - 1]);
      Apply(before, ops[|ops| - 1])
  }

  /** A run of transactions: of a failed one nothing remains. */
  ghost function Run(start: Ledger, txs: seq<seq<Op>>): Ledger {
    if txs == [] then start else
      var before := Run(start, txs[..|txs| - 1]);
      var after := ApplyAll(before, txs[|txs| - 1]);
      if after.Ok? then after.value else before
  }

  /** The operations of the accepted transactions, in order. */
  ghost function AcceptedOps(start: Ledger, txs: seq<seq<Op>>): seq<Op> {
    if txs == [] then [] else
      var before := txs[..|txs| - 1];
      if ApplyAll(Run(start, before), txs[|txs| - 1]).Ok? then AcceptedOps(start, before) + txs[|txs| - 1]
      else AcceptedOps(start, before)
  }

  lemma ApplyAllNext(l: Ledger, ops: seq<Op>, op: Op)
    ensures ApplyAll(l, ops + [op]) ==
            if ApplyAll(l, ops).Ok? then Apply(ApplyAll(l, ops).value, op) else ApplyAll(l, ops)
  {
    hide Apply;
    assert (ops + [op])[..|ops|] == ops;
  }

  lemma ApplyAllNone(l: Ledger)
    ensures ApplyAll(l, []) == Ok(l)
  {
  }

  lemma {:induction false} ApplyAllAppend(l: Ledger, ops: seq<Op>, more: seq<Op>)
    requires ApplyAll(l, ops).Ok?
    ensures ApplyAll(l, ops + more) == ApplyAll(ApplyAll(l, ops).value, more)
    decreases |more|
  {
    hide *;
    ApplyAllNone(ApplyAll(l, ops).value);
    if more == [] {
      assert ops + more == ops;
    } else {
      var rest, op := more[..|more| - 1], more[|more| - 1];
      assert more == rest + [op] && ops + more == ops + rest + [op];
      ApplyAllAppend(l, ops, rest);
      ApplyAllNext(l, ops + rest, op);
      ApplyAllNext(ApplyAll(l, ops).value, rest, op);
    }
  }

  lemma RunNext(start: Ledger, txs: seq<seq<Op>>)
    requires txs != []
    ensures var before, tx := txs[..|txs| - 1], txs[|txs| - 1];
            var after := ApplyAll(Run(start, before), tx);
            if after.Ok? then
              Run(start, txs) == after.value && AcceptedOps(start, txs) == AcceptedOps(start, before) + tx
            else Run(start, txs) == Run(start, before) && AcceptedOps(start, txs) == AcceptedOps(start, before)
  {
    hide ApplyAll;
  }

  lemma RunNone(start: Ledger)
    ensures Run(start, []) == start && AcceptedOps(start, []) == []
  {
  }

  /** A run is what its accepted operations make of the start. */
  lemma {:induction false} RunIsAccepted(start: Ledger, txs: seq<seq<Op>>)
    ensures ApplyAll(start, AcceptedOps(start, txs)) == Ok(Run(start, txs))
  {
    hide *;
    RunNone(start);
    ApplyAllNone(start);
    if txs != [] {
      var before := txs[..|txs| - 1];
      RunIsAccepted(start, before);
      RunNext(start, txs);
      ApplyAllAppend(start, AcceptedOps(start, before), txs[|txs| - 1]);
    }
  }

  // ---------------------------------------------------------------- balances

  /** Lamports that one operation brings to an address. */
  function Brings(op: Op, a: Bytes32): nat {
    match op
    case Transfer(_, to, amount) => if to == a then amount else 0
    case Call(ix) => if ix.Withdraw? && ix.recipient == a then ix.denom else 0
  }

  function Incoming(ops: seq<Op>, a: Bytes32): nat {
    if ops == [] then 0 else Incoming(ops[..|ops| - 1], a) + Brings(ops[|ops| - 1], a)
  }

  predicate IsWithdrawal(op: Op, denom: u64) { op.Call? && op.ix.Withdraw? && op.ix.denom == denom }

  predicate IsDeposit(op: Op, denom: u64) { op.Call? && op.ix.Deposit? && op.ix.denom == denom }

  function WithdrawalCount(ops: seq<Op>, denom: u64): nat {
    if ops == [] then 0 else
      WithdrawalCount(ops[..|ops| - 1], denom) + (if IsWithdrawal(ops[|ops| - 1], denom) then 1 else 0)
  }

  function DepositCount(ops: seq<Op>, denom: u64): nat {
    if ops == [] then 0 else
      DepositCount(ops[..|ops| - 1], denom) + (if IsDeposit(ops[|ops| - 1], denom) then 1 else 0)
  }

  lemma MoveBalance(l: Ledger, from: Bytes32, to: Bytes32, amount: u64, a: Bytes32)
    requires Move(l, from, to, amount).Ok?
    ensures BalanceOf(Move(l, from, to, amount).value, a) ==
            BalanceOf(l, a) + (if to == a then amount else 0) - (if from == a then amount else 0)
  {
  }

  lemma WithdrawMoves(l: Ledger, ix: Instruction)
    requires ix.Withdraw? && Apply(l, Call(ix)).Ok?
    ensures var leaves := Spent(l.entries, l.nullifiers, ix.denom, ix.coinPubkey, ix.coinSignature).0;
            Apply(l, Call(ix)) == Move(l.(nullifiers := leaves), VAULT_ADDRESS(ix.denom), ix.recipient, ix.denom)
  {
    hide Move, Spent;
  }

  lemma CallKeepsLamports(l: Ledger, ix: Instruction)
    requires !ix.Withdraw? && Called(l, ix).Ok?
    ensures var after := Called(l, ix).value;
            after == Ledger(after.entries, after.nullifiers, l.lamports)
  {
    hide DepositChecked, Spent, Registered, RevokedIn, Move, BalanceOf, IsVault;
  }

  lemma SameLamports(l: Ledger, after: Ledger, a: Bytes32)
    requires after == Ledger(after.entries, after.nullifiers, l.lamports)
    ensures BalanceOf(after, a) == BalanceOf(l, a)
  {
  }

  lemma OpBalance(l: Ledger, op: Op, denom: u64)
    requires Apply(l, op).Ok?
    ensures var a := VAULT_ADDRESS(denom);
            BalanceOf(Apply(l, op).value, a) ==
            BalanceOf(l, a) + Brings(op, a) - (if IsWithdrawal(op, denom) then denom else 0)
  {
    match op
    case Transfer(from, to, amount) => TransferBalance(l, from, to, amount, denom);
    case Call(ix) =>
      hide Apply;
      if ix.Withdraw? {
        WithdrawalBalance(l, ix, denom);
      } else {
        OtherBalance(l, ix, denom);
      }
  }

  lemma TransferBalance(l: Ledger, from: Bytes32, to: Bytes32, amount: u64, denom: u64)
    requires Apply(l, Transfer(from, to, amount)).Ok?
    ensures var a := VAULT_ADDRESS(denom);
            BalanceOf(Apply(l, Transfer(from, to, amount)).value, a) ==
            BalanceOf(l, a) + (if to == a then amount else 0)
  {
    hide Move;
    var a := VAULT_ADDRESS(denom);
    assert IsVault(a);
    hide IsVault;
    MoveBalance(l, from, to, amount, a);
  }

  lemma WithdrawalBalance(l: Ledger, ix: Instruction, denom: u64)
    requires ix.Withdraw? && Apply(l, Call(ix)).Ok?
    ensures var a := VAULT_ADDRESS(denom);
            BalanceOf(Apply(l, Call(ix)).value, a) ==
            BalanceOf(l, a) + (if ix.recipient == a then ix.denom else 0) - (if ix.denom == denom then denom else 0)
  {
    var leaves := Spent(l.entries, l.nullifiers, ix.denom, ix.coinPubkey, ix.coinSignature).0;
    var marked, a := l.(nullifiers := leaves), VAULT_ADDRESS(denom);
    SameLamports(l, marked, a);
    hide *;
    WithdrawMoves(l, ix);
    MoveBalance(marked, VAULT_ADDRESS(ix.denom), ix.recipient, ix.denom, a);
  }

  lemma OtherBalance(l: Ledger, ix: Instruction, denom: u64)
    requires !ix.Withdraw? && Apply(l, Call(ix)).Ok?
    ensures BalanceOf(Apply(l, Call(ix)).value, VAULT_ADDRESS(denom)) == BalanceOf(l, VAULT_ADDRESS(denom))
  {
    hide Called, BalanceOf;
    CallKeepsLamports(l, ix);
    SameLamports(l, Called(l, ix).value, VAULT_ADDRESS(denom));
  }

  lemma CountsNext(ops: seq<Op>, op: Op, denom: u64, a: Bytes32)
    ensures Incoming(ops + [op], a) == Incoming(ops, a) + Brings(op, a)
    ensures WithdrawalCount(ops + [op], denom) ==
            WithdrawalCount(ops, denom) + (if IsWithdrawal(op, denom) then 1 else 0)
    ensures DepositCount(ops + [op], denom) == DepositCount(ops, denom) + (if IsDeposit(op, denom) then 1 else 0)
  {
    hide Brings, IsWithdrawal, IsDeposit;
    assert (ops + [op])[..|ops|] == ops;
  }

  lemma CountsNone(denom: u64, a: Bytes32)
    ensures Incoming([], a) == 0 && WithdrawalCount([], denom) == 0 && DepositCount([], denom) == 0
  {
  }

  lemma BalanceStep(b: int, b': int, start: int, incoming: int, brings: int, d: int, count: int, more: int)
    requires b == start + incoming - d * count && b' == b + brings - d * more
    ensures b' == start + (incoming + brings) - d * (count + more)
  {
  }

  lemma {:induction false} BalanceOfAll(l: Ledger, ops: seq<Op>, denom: u64)
    requires ApplyAll(l, ops).Ok?
    ensures var a := VAULT_ADDRESS(denom);
            BalanceOf(ApplyAll(l, ops).value, a) ==
            BalanceOf(l, a) + Incoming(ops, a) - denom * WithdrawalCount(ops, denom)
  {
    hide *;
    var a := VAULT_ADDRESS(denom);
    ApplyAllNone(l);
    CountsNone(denom, a);
    if ops != [] {
      var rest, op := ops[..|ops| - 1], ops[|ops| - 1];
      assert ops == rest + [op];
      ApplyAllNext(l, rest, op);
      BalanceOfAll(l, rest, denom);
      var before := ApplyAll(l, rest).value;
      OpBalance(before, op, denom);
      CountsNext(rest, op, denom, a);
      BalanceStep(BalanceOf(before, a), BalanceOf(ApplyAll(l, ops).value, a), BalanceOf(l, a), Incoming(rest, a),
                  Brings(op, a), denom, WithdrawalCount(rest, denom), if IsWithdrawal(op, denom) then 1 else 0);
    }
  }

  /** Conservation at the vault's address: after any run of transactions it holds what it held, plus all
      lamports moved to it, less its denomination for every accepted withdrawal. So it never pays out more
      than it was given. */
  lemma VaultBalance(start: Ledger, txs: seq<seq<Op>>, denom: u64)
    ensures var a := VAULT_ADDRESS(denom);
            var ops := AcceptedOps(start, txs);
            && BalanceOf(Run(start, txs), a) ==
               BalanceOf(start, a) + Incoming(ops, a) - denom * WithdrawalCount(ops, denom)
            && denom * WithdrawalCount(ops, denom) <= BalanceOf(start, a) + Incoming(ops, a)
  {
    hide *;
    RunIsAccepted(start, txs);
    BalanceOfAll(start, AcceptedOps(start, txs), denom);
  }

  /** Deposits are not part of that balance: it is the deposits less the withdrawals iff the lamports
      moved to the vault are those the accepted deposits name. */
  lemma DepositsMatchIff(start: Ledger, txs: seq<seq<Op>>, denom: u64)
    ensures var a := VAULT_ADDRESS(denom);
            var ops := AcceptedOps(start, txs);
            BalanceOf(Run(start, txs), a) ==
            BalanceOf(start, a) + denom * (DepositCount(ops, denom) - WithdrawalCount(ops, denom)) <==>
            Incoming(ops, a) == denom * DepositCount(ops, denom)
  {
    hide *;
    VaultBalance(start, txs, denom);
    var ops := AcceptedOps(start, txs);
    assert denom * (DepositCount(ops, denom) - WithdrawalCount(ops, denom)) ==
           denom * DepositCount(ops, denom) - denom * WithdrawalCount(ops, denom);
  }

  // ---------------------------------------------------------------- deposits

  /** A deposit is accepted iff it names the denomination, a keyset is active for it and the vault has that
      much with room for as much again; it changes nothing. */
  lemma DepositAcceptedIff(l: Ledger, denom: u64, lamports: u64)
    ensures var r := Apply(l, Call(Deposit(denom, lamports)));
            var balance := BalanceOf(l, VAULT_ADDRESS(denom));
            && (r.Ok? <==> denom == lamports && ActiveFor(l.entries, denom).Some?
                           && lamports <= balance <= MAX_LAMPORTS - lamports)
            && (r.Ok? ==> r.value == l)
  {
    hide ActiveFor, ComputeNullifier, Spent, Move, Registered, RevokedIn, IsVault, BalanceOf;
  }

  function Repeated(op: Op, n: nat): (ops: seq<Op>)
    ensures |ops| == n
  {
    if n == 0 then [] else Repeated(op, n - 1) + [op]
  }

  lemma {:induction false} RepeatedDeposits(l: Ledger, denom: u64, n: nat)
    requires ActiveFor(l.entries, denom).Some?
    requires denom <= BalanceOf(l, VAULT_ADDRESS(denom)) <= MAX_LAMPORTS - denom
    ensures ApplyAll(l, Repeated(Call(Deposit(denom, denom)), n)) == Ok(l)
  {
    var op := Call(Deposit(denom, denom));
    hide Apply, ApplyAll, BalanceOf, ActiveFor;
    DepositAcceptedIff(l, denom, denom);
    ApplyAllNone(l);
    if n > 0 {
      RepeatedDeposits(l, denom, n - 1);
      ApplyAllNext(l, Repeated(op, n - 1), op);
    }
  }

  /** One transfer carries any number of deposits: after it, in the same or later transactions, they are all
      accepted while the vault's balance moved once. */
  lemma OneTransferManyDeposits(l: Ledger, payer: Bytes32, denom: u64, n: nat)
    requires ActiveFor(l.entries, denom).Some? && !IsVault(payer) && denom <= BalanceOf(l, payer)
    requires BalanceOf(l, VAULT_ADDRESS(denom)) + denom <= MAX_LAMPORTS - denom
    ensures var tx := [Transfer(payer, VAULT_ADDRESS(denom), denom)] + Repeated(Call(Deposit(denom, denom)), n);
            && ApplyAll(l, tx).Ok?
            && BalanceOf(ApplyAll(l, tx).value, VAULT_ADDRESS(denom)) == BalanceOf(l, VAULT_ADDRESS(denom)) + denom
  {
    var a := VAULT_ADDRESS(denom);
    assert IsVault(a);
    var pay := Transfer(payer, a, denom);
    assert [] + [pay] == [pay];
    hide ActiveFor, ApplyAll, IsVault;
    ApplyAllNone(l);
    ApplyAllNext(l, [], pay);
    ApplyAllAppend(l, [pay], Repeated(Call(Deposit(denom, denom)), n));
    RepeatedDeposits(ApplyAll(l, [pay]).value, denom, n);
  }

  // ---------------------------------------------------------------- spends

  /** The nullifier that an operation spends. */
  function SpendOf(op: Op): seq<Bytes32> {
    if op.Call? && (op.ix.Refresh? || op.ix.Withdraw?) then [ComputeNullifier(op.ix.coinPubkey)] else []
  }

  function Spends(ops: seq<Op>): seq<Bytes32> {
    if ops == [] then [] else Spends(ops[..|ops| - 1]) + SpendOf(ops[|ops| - 1])
  }

  lemma SpentAdds(
      entries: seq<KeysetEntry>, leaves: set<Bytes32>, denom: u64, coinPubkey: Bytes32, sig: Signature)
    requires Spent(entries, leaves, denom, coinPubkey, sig).1.Ok?
    ensures ComputeNullifier(coinPubkey) !in leaves
    ensures Spent(entries, leaves, denom, coinPubkey, sig).0 == leaves + {ComputeNullifier(coinPubkey)}
  {
    hide ActiveFor;
  }

  lemma RefreshMarks(l: Ledger, ix: Instruction)
    requires ix.Refresh? && Called(l, ix).Ok?
    ensures var (leaves, r) := Spent(l.entries, l.nullifiers, ix.denom, ix.coinPubkey, ix.coinSignature);
            r.Ok? && Called(l, ix) == Ok(l.(nullifiers := leaves))
  {
    hide Move, ActiveFor, ComputeNullifier, BalanceOf;
  }

  lemma WithdrawSpends(l: Ledger, ix: Instruction)
    requires ix.Withdraw? && Called(l, ix).Ok?
    ensures Spent(l.entries, l.nullifiers, ix.denom, ix.coinPubkey, ix.coinSignature).1.Ok?
  {
    hide Move, ActiveFor, ComputeNullifier, BalanceOf;
  }

  lemma MoveKeeps(l: Ledger, from: Bytes32, to: Bytes32, amount: u64)
    requires Move(l, from, to, amount).Ok?
    ensures var after := Move(l, from, to, amount).value;
            after == Ledger(l.entries, l.nullifiers, after.lamports)
  {
    hide Transferred, BalanceOf;
  }

  lemma CallKeepsNullifiers(l: Ledger, ix: Instruction)
    requires !ix.Refresh? && !ix.Withdraw? && Called(l, ix).Ok?
    ensures var after := Called(l, ix).value;
            after == Ledger(after.entries, l.nullifiers, after.lamports)
  {
    hide DepositChecked, Spent, Registered, RevokedIn, Move, BalanceOf;
  }

  lemma OpSpends(l: Ledger, op: Op)
    requires Apply(l, op).Ok?
    ensures SpendOf(op) == [] ==> Apply(l, op).value.nullifiers == l.nullifiers
    ensures SpendOf(op) != [] ==>
              SpendOf(op)[0] !in l.nullifiers && Apply(l, op).value.nullifiers == l.nullifiers + {SpendOf(op)[0]}
  {
    hide Move, Called, Spent, IsVault, ComputeNullifier;
    match op
    case Transfer(from, to, amount) =>
      MoveKeeps(l, from, to, amount);
    case Call(ix) =>
      if ix.Refresh? {
        RefreshMarks(l, ix);
        SpentAdds(l.entries, l.nullifiers, ix.denom, ix.coinPubkey, ix.coinSignature);
      } else if ix.Withdraw? {
        var leaves := Spent(l.entries, l.nullifiers, ix.denom, ix.coinPubkey, ix.coinSignature).0;
        WithdrawMoves(l, ix);
        WithdrawSpends(l, ix);
        MoveKeeps(l.(nullifiers := leaves), VAULT_ADDRESS(ix.denom), ix.recipient, ix.denom);
        SpentAdds(l.entries, l.nullifiers, ix.denom, ix.coinPubkey, ix.coinSignature);
      } else {
        CallKeepsNullifiers(l, ix);
      }
  }

  lemma SpendsNext(ops: seq<Op>, op: Op)
    ensures Spends(ops + [op]) == Spends(ops) + SpendOf(op)
    ensures |SpendOf(op)| <= 1 && Spends([]) == []
  {
    assert (ops + [op])[..|ops|] == ops;
  }

  lemma {:induction false} SpendsOfAll(l: Ledger, ops: seq<Op>)
    requires ApplyAll(l, ops).Ok?
    ensures Distinct(Spends(ops)) && forall n :: n in Spends(ops) ==> n !in l.nullifiers
    ensures forall n :: n in ApplyAll(l, ops).value.nullifiers <==> n in l.nullifiers || n in Spends(ops)
  {
    hide *;
    ApplyAllNone(l);
    DistinctEmpty<Bytes32>([]);
    if ops == [] {
      SpendsNext([], Transfer(0, 0, 0));
    } else {
      var rest, op := ops[..|ops| - 1], ops[|ops| - 1];
      assert ops == rest + [op];
      ApplyAllNext(l, rest, op);
      SpendsOfAll(l, rest);
      OpSpends(ApplyAll(l, rest).value, op);
      SpendsNext(rest, op);
      if SpendOf(op) != [] {
        assert SpendOf(op) == [SpendOf(op)[0]];
        DistinctLast(Spends(rest), SpendOf(op)[0]);
      } else {
        assert Spends(rest) + [] == Spends(rest);
      }
    }
  }

  /** No coin is spent twice, over any run of transactions and any mix of refreshes and withdrawals, even
      when several are in one transaction. */
  lemma SpentOnce(start: Ledger, txs: seq<seq<Op>>)
    ensures var spends := Spends(AcceptedOps(start, txs));
            && Distinct(spends)
            && (forall n :: n in spends ==> n !in start.nullifiers)
            && forall n :: n in Run(start, txs).nullifiers <==> n in start.nullifiers || n in spends
  {
    hide *;
    RunIsAccepted(start, txs);
    SpendsOfAll(start, AcceptedOps(start, txs));
  }

  // ---------------------------------------------------------------- what an accepted spend was checked for

  /** The precompile verified this signature on the coin under the key that serves the denomination. */
  ghost predicate Verified(entries: seq<KeysetEntry>, denom: u64, coinPubkey: Bytes32, sig: Signature) {
    exists e :: ServedBy(entries, denom, e) && PRECOMPILE(e.jointPk, coinPubkey, sig)
  }

  lemma SpentAcceptedIff(
      entries: seq<KeysetEntry>, leaves: set<Bytes32>, denom: u64, coinPubkey: Bytes32, sig: Signature)
    ensures Spent(entries, leaves, denom, coinPubkey, sig).1.Ok? <==>
            Verified(entries, denom, coinPubkey, sig) && ComputeNullifier(coinPubkey) !in leaves
  {
    hide ServedBy, ActiveFor;
    match ActiveFor(entries, denom)
    case None =>
      forall e
        ensures !ServedBy(entries, denom, e)
      {
        ActiveForIff(entries, denom, e);
      }
    case Some(entry) =>
      ActiveForIff(entries, denom, entry);
      forall e | ServedBy(entries, denom, e)
        ensures e == entry
      {
        ActiveForIff(entries, denom, e);
      }
  }

  /** The ledger after coins were spent and lamports moved; everything else is as before. */
  ghost predicate OnlySpends(l: Ledger, after: Ledger, coinPubkey: Bytes32) {
    after.entries == l.entries && after.nullifiers == l.nullifiers + {ComputeNullifier(coinPubkey)}
  }

  /** A refresh is accepted iff its signature was verified under the serving key and the coin is unspent; then
      it marks the coin spent and moves nothing. */
  lemma RefreshAcceptedIff(l: Ledger, coinPubkey: Bytes32, sig: Signature, denom: u64)
    ensures var r := Apply(l, Call(Refresh(coinPubkey, sig, denom)));
            && (r.Ok? <==> Verified(l.entries, denom, coinPubkey, sig) && ComputeNullifier(coinPubkey) !in l.nullifiers)
            && (r.Ok? ==> OnlySpends(l, r.value, coinPubkey) && r.value.lamports == l.lamports)
  {
    SpentAcceptedIff(l.entries, l.nullifiers, denom, coinPubkey, sig);
    hide Verified, ComputeNullifier, Spent, Move, BalanceOf;
    if Called(l, Refresh(coinPubkey, sig, denom)).Ok? {
      SpentAdds(l.entries, l.nullifiers, denom, coinPubkey, sig);
    }
  }

  /** Why a spend is refused: no keyset serves, the signature was not verified, or the coin is spent, in this order. */
  lemma SpentRefusals(
      entries: seq<KeysetEntry>, leaves: set<Bytes32>, denom: u64, coinPubkey: Bytes32, sig: Signature)
    ensures var r, served := Spent(entries, leaves, denom, coinPubkey, sig).1, exists e :: ServedBy(entries, denom, e);
            && (r == Err(UnknownKeysetId) <==> !served)
            && (r == Err(CoinSignatureInvalid) <==> served && !Verified(entries, denom, coinPubkey, sig))
            && (r == Err(DoubleSpend) <==>
                  Verified(entries, denom, coinPubkey, sig) && ComputeNullifier(coinPubkey) in leaves)
  {
    hide ServedBy, ActiveFor, ComputeNullifier;
    ServedIffFound(entries, denom);
    forall e
      ensures ActiveFor(entries, denom) == Some(e) <==> ServedBy(entries, denom, e)
    {
      ActiveForIff(entries, denom, e);
    }
  }

  /** Registration and revocation do to the deployed registry what the processors do, and nothing to the rest. */
  lemma RegistryCalls(l: Ledger, ix: Instruction)
    requires ix.RegisterKeyset? || ix.Revoke?
    ensures var r, (after, processed) := Apply(l, Call(ix)), Transact(Chain(l.entries, map[], l.nullifiers), ix);
            && (r.Ok? <==> processed.Ok?)
            && (r.Ok? ==> r.value == Ledger(after.entries, l.nullifiers, l.lamports))
            && (r.Err? ==> r.error == processed.error)
  {
    hide ActiveFor, VerifyCoinForSpend;
  }

  lemma MoveAcceptedIff(l: Ledger, from: Bytes32, to: Bytes32, amount: u64)
    ensures Move(l, from, to, amount).Ok? <==>
            amount <= BalanceOf(l, from) && (from == to || BalanceOf(l, to) + amount <= 0xffff_ffff_ffff_ffff)
  {
  }

  /** What a withdrawal leaves at an address: the denomination moves from the vault to the recipient. */
  function BalanceAfter(l: Ledger, denom: u64, recipient: Bytes32, a: Bytes32): int {
    BalanceOf(l, a) + (if a == recipient then denom else 0) - (if a == VAULT_ADDRESS(denom) then denom else 0)
  }

  /** What is left after a move out of the vault of a ledger that marked the coin. */
  lemma WithdrawEffect(l: Ledger, leaves: set<Bytes32>, coinPubkey: Bytes32, denom: u64, recipient: Bytes32)
    requires leaves == l.nullifiers + {ComputeNullifier(coinPubkey)}
    requires Move(Ledger(l.entries, leaves, l.lamports), VAULT_ADDRESS(denom), recipient, denom).Ok?
    ensures var after := Move(Ledger(l.entries, leaves, l.lamports), VAULT_ADDRESS(denom), recipient, denom).value;
            && OnlySpends(l, after, coinPubkey)
            && forall a :: BalanceOf(after, a) == BalanceAfter(l, denom, recipient, a)
  {
    var marked := Ledger(l.entries, leaves, l.lamports);
    MoveKeeps(marked, VAULT_ADDRESS(denom), recipient, denom);
    hide ComputeNullifier, Move, BalanceOf;
    forall a
      ensures BalanceOf(Move(marked, VAULT_ADDRESS(denom), recipient, denom).value, a) ==
              BalanceAfter(l, denom, recipient, a)
    {
      MoveBalance(marked, VAULT_ADDRESS(denom), recipient, denom, a);
      SameLamports(l, marked, a);
    }
  }

  lemma AppliedCall(l: Ledger, ix: Instruction, leaves: set<Bytes32>)
    ensures Apply(l, Call(ix)) == Called(l, ix)
    ensures l.(nullifiers := leaves) == Ledger(l.entries, leaves, l.lamports)
  {
    hide Called;
  }

  /** A withdrawal is accepted iff its signature was verified under the serving key, the coin is unspent, the vault
      can pay and the credit fits; then it marks the coin spent and moves the denomination to the recipient. */
  lemma WithdrawAcceptedIff(l: Ledger, coinPubkey: Bytes32, sig: Signature, denom: u64, recipient: Bytes32)
    ensures var r := Apply(l, Call(Withdraw(coinPubkey, sig, denom, recipient)));
            var vault := VAULT_ADDRESS(denom);
            && (r.Ok? <==>
                  && Verified(l.entries, denom, coinPubkey, sig) && ComputeNullifier(coinPubkey) !in l.nullifiers
                  && denom <= BalanceOf(l, vault)
                  && (recipient == vault || BalanceOf(l, recipient) + denom <= 0xffff_ffff_ffff_ffff))
            && (r.Ok? ==>
                  && OnlySpends(l, r.value, coinPubkey)
                  && forall a :: BalanceOf(r.value, a) == BalanceAfter(l, denom, recipient, a))
  {
    hide *;
    var ix := Withdraw(coinPubkey, sig, denom, recipient);
    var (leaves, r) := Spent(l.entries, l.nullifiers, denom, coinPubkey, sig);
    var marked := Ledger(l.entries, leaves, l.lamports);
    AppliedCall(l, ix, leaves);
    SpentAcceptedIff(l.entries, l.nullifiers, denom, coinPubkey, sig);
    MoveAcceptedIff(marked, VAULT_ADDRESS(denom), recipient, denom);
    SameLamports(l, marked, VAULT_ADDRESS(denom));
    SameLamports(l, marked, recipient);
    WithdrawCalled(l, ix);
    if Called(l, ix).Ok? {
      SpentAdds(l.entries, l.nullifiers, denom, coinPubkey, sig);
      WithdrawEffect(l, leaves, coinPubkey, denom, recipient);
    }
  }

  lemma WithdrawCalled(l: Ledger, ix: Instruction)
    requires ix.Withdraw?
    ensures var (leaves, r) := Spent(l.entries, l.nullifiers, ix.denom, ix.coinPubkey, ix.coinSignature);
            && (r.Ok? && ix.denom <= BalanceOf(l, VAULT_ADDRESS(ix.denom)) ==>
                  Called(l, ix) == Move(l.(nullifiers := leaves), VAULT_ADDRESS(ix.denom), ix.recipient, ix.denom))
            && (r.Err? || BalanceOf(l, VAULT_ADDRESS(ix.denom)) < ix.denom ==> Called(l, ix).Err?)
  {
    hide Move, ActiveFor, ComputeNullifier, BalanceOf;
  }

  lemma {:induction false} PrefixApplied(l: Ledger, ops: seq<Op>, i: nat)
    requires ApplyAll(l, ops).Ok? && i < |ops|
    ensures ApplyAll(l, ops[..i]).Ok? && Apply(ApplyAll(l, ops[..i]).value, ops[i]).Ok?
    decreases |ops|
  {
    hide *;
    var rest, op := ops[..|ops| - 1], ops[|ops| - 1];
    assert ops == rest + [op];
    ApplyAllNext(l, rest, op);
    if i < |rest| {
      assert rest[..i] == ops[..i];
      PrefixApplied(l, rest, i);
    } else {
      assert ops[..i] == rest;
    }
  }

  /** Over any run, every accepted refresh and withdrawal was verified by the precompile under the key that served
      its denomination at that point, for a coin that was unspent until then. */
  lemma SpendsWereVerified(start: Ledger, txs: seq<seq<Op>>, i: nat)
    requires i < |AcceptedOps(start, txs)| && SpendOf(AcceptedOps(start, txs)[i]) != []
    ensures var ops := AcceptedOps(start, txs);
            var before := ApplyAll(start, ops[..i]);
            var ix := ops[i].ix;
            && before.Ok?
            && Verified(before.value.entries, ix.denom, ix.coinPubkey, ix.coinSignature)
            && ComputeNullifier(ix.coinPubkey) !in before.value.nullifiers
  {
    var ops := AcceptedOps(start, txs);
    assert ops[i].Call? && (ops[i].ix.Refresh? || ops[i].ix.Withdraw?);
    hide *;
    RunIsAccepted(start, txs);
    PrefixApplied(start, ops, i);
    match ops[i].ix
    case Refresh(coinPubkey, sig, denom) =>
      RefreshAcceptedIff(ApplyAll(start, ops[..i]).value, coinPubkey, sig, denom);
    case Withdraw(coinPubkey, sig, denom, recipient) =>
      WithdrawAcceptedIff(ApplyAll(start, ops[..i]).value, coinPubkey, sig, denom, recipient);
    case _ =>
  }
}
