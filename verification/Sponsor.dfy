/** The sponsor pool: deposits are only counted, payouts move lamports directly and are rate-limited. */
module Sponsor {
  import opened Wrappers
  import opened Accounts

  const U64_MAX: u64 := 0xffff_ffff_ffff_ffff
  const MIN_SLOTS_BETWEEN_PAYOUTS: u64 := 5

  function SatAdd(a: u64, b: u64): u64 {
    if a + b > U64_MAX then U64_MAX else a + b
  }

  function SatSub(a: u64, b: u64): u64 {
    if a < b then 0 else a - b
  }

  /** The checks of a payout and the accounting after it; `have` is the pool's balance. */
  function PaidOut(p: SponsorPool, have: u64, lamports: u64, slot: u64): Result<SponsorPool> {
    if p.lastPayoutSlot != 0 && SatSub(slot, p.lastPayoutSlot) < MIN_SLOTS_BETWEEN_PAYOUTS then Err(RateLimited)
    else if have < lamports then Err(InsufficientFunds)
    else Ok(SponsorPool(slot, SatAdd(p.totalPayouts, lamports), p.totalDeposits))
  }

  function DepositCounted(p: SponsorPool, amount: u64): SponsorPool {
    p.(totalDeposits := SatAdd(p.totalDeposits, amount))
  }

  // ---------------------------------------------------------------- the handlers

  method SponsorDeposit(account: Account, amount: u64) returns (r: Result<()>)
    modifies account`data
    ensures r.Ok? <==> LoadPool(old(account.data)).Ok? && |old(account.data)| >= 24
    ensures if r.Ok? then LoadPool(account.data) == Ok(DepositCounted(LoadPool(old(account.data)).value, amount))
            else account.data == old(account.data)
  {
    hide LoadPool, PoolBefore;
    var pool :- LoadPool(account.data);
    pool := pool.(totalDeposits := SatAdd(pool.totalDeposits, amount));
    PoolRead(pool, []);
    ghost var before := account.data;
    r := account.StorePool(pool);
    if r.Ok? {
      PoolLoadsBack(before, pool);
    }
  }

  /** The recipient may be the pool itself. Lamports move before the accounting is stored, so a
      failed store relies on the runtime to undo the movement. */
  method SponsorPayout(account: Account, recipient: Account, lamports: u64, slot: u64) returns (r: Result<()>)
    modifies account, recipient`lamports
    ensures r.Ok? <==>
            && lamports != 0 && LoadPool(old(account.data)).Ok? && |old(account.data)| >= 24
            && PaidOut(LoadPool(old(account.data)).value, old(account.lamports), lamports, slot).Ok?
    ensures r.Ok? ==>
              && LoadPool(account.data) ==
                 PaidOut(LoadPool(old(account.data)).value, old(account.lamports), lamports, slot)
              && (account != recipient ==>
                    && account.lamports == old(account.lamports) - lamports
                    && recipient.lamports == SatAdd(old(recipient.lamports), lamports))
              && (account == recipient ==> account.lamports == old(account.lamports))
    ensures r.Err? ==> account.data == old(account.data)
    ensures r.Err? && r.error != AccountDataTooSmall ==>
              account.lamports == old(account.lamports) && recipient.lamports == old(recipient.lamports)
  {
    hide LoadPool, PoolBefore;
    if lamports == 0 {
      return Err(Malformed);
    }
    var pool :- LoadPool(account.data);
    var elapsed := SatSub(slot, pool.lastPayoutSlot);
    if pool.lastPayoutSlot != 0 && elapsed < MIN_SLOTS_BETWEEN_PAYOUTS {
      return Err(RateLimited);
    }
    if account.lamports < lamports {
      return Err(InsufficientFunds);
    }
    account.lamports := SatSub(account.lamports, lamports);
    recipient.lamports := SatAdd(recipient.lamports, lamports);
    pool := pool.(lastPayoutSlot := slot, totalPayouts := SatAdd(pool.totalPayouts, lamports));
    PoolRead(pool, []);
    ghost var before := account.data;
    r := account.StorePool(pool);
    if r.Ok? {
      PoolLoadsBack(before, pool);
    }
  }

  // ---------------------------------------------------------------- runs

  /** Balances by position, the pool's own first; a payout may name any of them. */
  datatype World = World(balances: seq<u64>, pool: SponsorPool)
  datatype Step = Deposit(amount: u64) | Payout(recipient: nat, lamports: u64, slot: u64)

  function Next(w: World, step: Step): (World, Result<()>)
    requires w.balances != []
  {
    match step
    case Deposit(amount) => (w.(pool := DepositCounted(w.pool, amount)), Ok(()))
    case Payout(recipient, lamports, slot) =>
      if recipient >= |w.balances| then (w, Err(InvalidAccountData))
      else if lamports == 0 then (w, Err(Malformed))
      else
        var paid := PaidOut(w.pool, w.balances[0], lamports, slot);
        if paid.Err? then (w, Err(paid.error)) else
          var debited := w.balances[0 := w.balances[0] - lamports];
          (World(debited[recipient := SatAdd(debited[recipient], lamports)], paid.value), Ok(()))
  }

  function Run(start: World, steps: seq<Step>): (w: World)
    requires start.balances != []
    ensures w.balances != []
  {
    if steps == [] then start else Next(Run(start, steps[..|steps| - 1]), steps[|steps| - 1]).0
  }

  /** The accepted steps of a run. */
  function Accepted(start: World, steps: seq<Step>): seq<Step>
    requires start.balances != []
  {
    if steps == [] then [] else
      var before, step := steps[..|steps| - 1], steps[|steps| - 1];
      if Next(Run(start, before), step).1.Ok? then Accepted(start, before) + [step] else Accepted(start, before)
  }

  function Slots(accepted: seq<Step>): seq<u64> {
    if accepted == [] then [] else
      var step := accepted[|accepted| - 1];
      Slots(accepted[..|accepted| - 1]) + (if step.Payout? then [step.slot] else [])
  }

  function PaidTotal(accepted: seq<Step>): nat {
    if accepted == [] then 0 else
      var step := accepted[|accepted| - 1];
      PaidTotal(accepted[..|accepted| - 1]) + (if step.Payout? then step.lamports else 0)
  }

  function DepositTotal(accepted: seq<Step>): nat {
    if accepted == [] then 0 else
      var step := accepted[|accepted| - 1];
      DepositTotal(accepted[..|accepted| - 1]) + (if step.Deposit? then step.amount else 0)
  }

  lemma AcceptedNext(start: World, steps: seq<Step>)
    requires start.balances != [] && steps != []
    ensures var before, step := steps[..|steps| - 1], steps[|steps| - 1];
            && Run(start, steps) == Next(Run(start, before), step).0
            && Accepted(start, steps) ==
               if Next(Run(start, before), step).1.Ok? then Accepted(start, before) + [step]
               else Accepted(start, before)
  {
  }

  lemma RunEmpty(start: World, steps: seq<Step>)
    requires start.balances != [] && steps == []
    ensures Run(start, steps) == start && Accepted(start, steps) == []
    ensures Slots([]) == [] && PaidTotal([]) == 0 && DepositTotal([]) == 0
  {
  }

  lemma TotalsNext(accepted: seq<Step>, step: Step)
    ensures Slots(accepted + [step]) == if step.Payout? then Slots(accepted) + [step.slot] else Slots(accepted)
    ensures PaidTotal(accepted + [step]) == PaidTotal(accepted) + (if step.Payout? then step.lamports else 0)
    ensures DepositTotal(accepted + [step]) == DepositTotal(accepted) + (if step.Deposit? then step.amount else 0)
  {
    assert (accepted + [step])[..|accepted|] == accepted;
  }

  /** A rejected step changes nothing; an accepted one moves the counters and the slot. */
  lemma NextPool(w: World, step: Step)
    requires w.balances != []
    ensures var (after, r) := Next(w, step);
            && (r.Err? ==> after == w)
            && (r.Ok? && step.Deposit? ==>
                  after.pool == w.pool.(totalDeposits := SatAdd(w.pool.totalDeposits, step.amount)))
            && (r.Ok? && step.Payout? ==>
                  && after.pool == SponsorPool(step.slot, SatAdd(w.pool.totalPayouts, step.lamports),
                                               w.pool.totalDeposits)
                  && (w.pool.lastPayoutSlot == 0
                      || step.slot - w.pool.lastPayoutSlot >= 5))
  {
  }

  /** Between two payouts: after one at slot s, a payout is accepted at slot s' iff the pool can fund it and s is
      zero or at least five slots have passed; too early is reported before too poor. */
  lemma RateLimit(p: SponsorPool, have: u64, lamports: u64, slot: u64)
    ensures var early := p.lastPayoutSlot != 0 && slot - p.lastPayoutSlot < 5;
            && (PaidOut(p, have, lamports, slot) == Err(RateLimited) <==> early)
            && (PaidOut(p, have, lamports, slot) == Err(InsufficientFunds) <==> !early && have < lamports)
            && (PaidOut(p, have, lamports, slot).Ok? <==> !early && have >= lamports)
  {
  }

  /** Slot zero is the exception: two payouts in it are both accepted. */
  lemma SlotZeroIsNotLimited()
    ensures var start := World([2, 0], SponsorPool(0, 0, 0));
            var steps := [Payout(1, 1, 0), Payout(1, 1, 0)];
            Accepted(start, steps) == steps
  {
    var start := World([2, 0], SponsorPool(0, 0, 0));
    var p := Payout(1, 1, 0);
    assert [p, p][..1] == [p] && [p][..0] == [];
    assert Accepted(start, [p]) == [p];
    assert Run(start, [p]) == World([1, 1], SponsorPool(0, 1, 0));
  }

  predicate ClockStarted(steps: seq<Step>) {
    forall j :: 0 <= j < |steps| && steps[j].Payout? ==> steps[j].slot >= 1
  }

  /** All slots are positive and each is at least five after the one before. */
  ghost predicate Apart(slots: seq<u64>) {
    slots != [] ==>
      var before, last: int := slots[..|slots| - 1], slots[|slots| - 1];
      && last >= 1 && Apart(before)
      && (before != [] ==> last - before[|before| - 1] >= 5)
  }

  /** The last payout's slot, as accounting that began with `stored` remembers it. */
  ghost function LastOf(stored: u64, slots: seq<u64>): u64 {
    if slots == [] then stored else slots[|slots| - 1]
  }

  /** The first payout keeps its distance from the one that was stored, if any. */
  ghost predicate Follows(stored: u64, slots: seq<u64>) {
    stored != 0 && slots != [] ==> slots[0] - stored >= 5
  }

  lemma ApartEmpty(stored: u64)
    ensures Apart([]) && Follows(stored, []) && LastOf(stored, []) == stored
  {
  }

  lemma ApartNext(stored: u64, slots: seq<u64>, slot: u64)
    requires Apart(slots) && Follows(stored, slots) && slot >= 1
    requires LastOf(stored, slots) == 0 || slot - LastOf(stored, slots) >= 5
    ensures Apart(slots + [slot]) && Follows(stored, slots + [slot]) && LastOf(stored, slots + [slot]) == slot
  {
    assert (slots + [slot])[..|slots|] == slots;
  }

  lemma {:induction false} PayoutsApart(start: World, steps: seq<Step>)
    requires start.balances != [] && ClockStarted(steps)
    ensures Apart(Slots(Accepted(start, steps)))
    ensures Follows(start.pool.lastPayoutSlot, Slots(Accepted(start, steps)))
    ensures Run(start, steps).pool.lastPayoutSlot == LastOf(start.pool.lastPayoutSlot, Slots(Accepted(start, steps)))
  {
    assert ClockStarted(steps[..if steps == [] then 0 else |steps| - 1]);
    assert steps != [] && steps[|steps| - 1].Payout? ==> steps[|steps| - 1].slot >= 1;
    hide *;
    var stored := start.pool.lastPayoutSlot;
    if steps == [] {
      RunEmpty(start, steps);
      ApartEmpty(stored);
    } else {
      var before, step := steps[..|steps| - 1], steps[|steps| - 1];
      PayoutsApart(start, before);
      AcceptedNext(start, steps);
      TotalsNext(Accepted(start, before), step);
      NextPool(Run(start, before), step);
      if step.Payout? && Next(Run(start, before), step).1.Ok? {
        ApartNext(stored, Slots(Accepted(start, before)), step.slot);
      }
    }
  }

  lemma {:induction false} Spread(stored: u64, slots: seq<u64>)
    requires slots != [] && Apart(slots) && Follows(stored, slots)
    ensures slots[|slots| - 1] - slots[0] >= 5 * (|slots| - 1)
    ensures stored != 0 ==> slots[|slots| - 1] - stored >= 5 * |slots|
  {
    if |slots| > 1 {
      Spread(stored, slots[..|slots| - 1]);
    }
  }

  /** Rate: from any pool, k payouts accepted after slot zero span at least 5 * (k - 1) slots, and a stored
      earlier payout is at least 5 * k slots before the last of them, however the requests are ordered and
      mixed with deposits. */
  lemma PayoutRate(start: World, steps: seq<Step>)
    requires start.balances != [] && ClockStarted(steps)
    ensures var slots, stored := Slots(Accepted(start, steps)), start.pool.lastPayoutSlot;
            slots != [] ==>
              && slots[|slots| - 1] - slots[0] >= 5 * (|slots| - 1)
              && (stored != 0 ==> slots[|slots| - 1] - stored >= 5 * |slots|)
  {
    hide *;
    PayoutsApart(start, steps);
    if Slots(Accepted(start, steps)) != [] {
      Spread(start.pool.lastPayoutSlot, Slots(Accepted(start, steps)));
    }
  }

  function Capped(x: nat): u64 {
    if x > U64_MAX then U64_MAX else x
  }

  lemma CappedSmall(x: u64)
    ensures Capped(x) == x
  {
  }

  lemma CappedNext(x: nat, y: u64)
    ensures SatAdd(Capped(x), y) == Capped(x + y)
  {
  }

  lemma {:induction false} PayoutCounter(start: World, steps: seq<Step>)
    requires start.balances != []
    ensures Run(start, steps).pool.totalPayouts == Capped(start.pool.totalPayouts + PaidTotal(Accepted(start, steps)))
  {
    hide *;
    if steps == [] {
      RunEmpty(start, steps);
      CappedSmall(start.pool.totalPayouts);
    } else {
      var before, step := steps[..|steps| - 1], steps[|steps| - 1];
      PayoutCounter(start, before);
      AcceptedNext(start, steps);
      TotalsNext(Accepted(start, before), step);
      NextPool(Run(start, before), step);
      if step.Payout? {
        CappedNext(start.pool.totalPayouts + PaidTotal(Accepted(start, before)), step.lamports);
      }
    }
  }

  lemma {:induction false} DepositCounter(start: World, steps: seq<Step>)
    requires start.balances != []
    ensures Run(start, steps).pool.totalDeposits ==
            Capped(start.pool.totalDeposits + DepositTotal(Accepted(start, steps)))
  {
    hide *;
    if steps == [] {
      RunEmpty(start, steps);
      CappedSmall(start.pool.totalDeposits);
    } else {
      var before, step := steps[..|steps| - 1], steps[|steps| - 1];
      DepositCounter(start, before);
      AcceptedNext(start, steps);
      TotalsNext(Accepted(start, before), step);
      NextPool(Run(start, before), step);
      if step.Deposit? {
        CappedNext(start.pool.totalDeposits + DepositTotal(Accepted(start, before)), step.amount);
      }
    }
  }

  /** Both lifetime counters are the true sums of the accepted amounts, capped at 2^64 - 1. */
  lemma {:induction false} CountersAreCappedSums(start: World, steps: seq<Step>)
    requires start.balances != []
    ensures var pool, accepted := Run(start, steps).pool, Accepted(start, steps);
            && pool.totalPayouts == Capped(start.pool.totalPayouts + PaidTotal(accepted))
            && pool.totalDeposits == Capped(start.pool.totalDeposits + DepositTotal(accepted))
  {
    hide *;
    PayoutCounter(start, steps);
    DepositCounter(start, steps);
  }

  function Total(balances: seq<u64>): nat {
    if balances == [] then 0 else Total(balances[..|balances| - 1]) + balances[|balances| - 1]
  }

  lemma {:induction false} TotalUpdate(balances: seq<u64>, j: nat, x: u64)
    requires j < |balances|
    ensures Total(balances[j := x]) == Total(balances) - balances[j] + x
  {
    var n := |balances| - 1;
    if j < n {
      assert balances[j := x][..n] == balances[..n][j := x];
      TotalUpdate(balances[..n], j, x);
    } else {
      assert balances[j := x][..n] == balances[..n];
    }
  }

  lemma {:induction false} TotalBounds(balances: seq<u64>, j: nat)
    requires j < |balances|
    ensures balances[j] <= Total(balances)
  {
    if j < |balances| - 1 {
      TotalBounds(balances[..|balances| - 1], j);
    }
  }

  /** An accepted payout keeps the total unless the credit saturates: exactly when the recipient is the
      pool itself or its new balance fits 64 bits. */
  lemma PayoutConservesIff(w: World, recipient: nat, lamports: u64, slot: u64)
    requires w.balances != [] && recipient < |w.balances|
    requires Next(w, Payout(recipient, lamports, slot)).1.Ok?
    ensures Total(Next(w, Payout(recipient, lamports, slot)).0.balances) == Total(w.balances) <==>
            recipient == 0 || w.balances[recipient] + lamports <= U64_MAX
  {
    hide Total;
    var debited := w.balances[0 := w.balances[0] - lamports];
    TotalUpdate(w.balances, 0, w.balances[0] - lamports);
    TotalUpdate(debited, recipient, SatAdd(debited[recipient], lamports));
  }

  lemma NextConserves(w: World, step: Step)
    requires w.balances != [] && Total(w.balances) <= U64_MAX
    ensures Total(Next(w, step).0.balances) == Total(w.balances)
  {
    hide Total;
    if step.Payout? && Next(w, step).1.Ok? {
      var debited := w.balances[0 := w.balances[0] - step.lamports];
      TotalUpdate(w.balances, 0, w.balances[0] - step.lamports);
      TotalBounds(debited, step.recipient);
      TotalUpdate(debited, step.recipient, SatAdd(debited[step.recipient], step.lamports));
    }
  }

  /** Lamports are conserved by every run as long as all balances together fit 64 bits. */
  lemma {:induction false} LamportsConserved(start: World, steps: seq<Step>)
    requires start.balances != [] && Total(start.balances) <= U64_MAX
    ensures Total(Run(start, steps).balances) == Total(start.balances)
  {
    hide *;
    if steps == [] {
      RunEmpty(start, steps);
    } else {
      LamportsConserved(start, steps[..|steps| - 1]);
      AcceptedNext(start, steps);
      NextConserves(Run(start, steps[..|steps| - 1]), steps[|steps| - 1]);
    }
  }
}
