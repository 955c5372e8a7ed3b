/** Program state in padded account data: stored over the front of a larger buffer whose stale tail
    stays, loaded from the front again, and scanned from outside by the validators. */
module Accounts {
  import opened Wrappers
  import opened Lists
  import opened Octets
  import opened Borsh
  import opened State
  import opened Instruction

  datatype RegistryValue = RegistryValue(version: u8, entries: seq<KeysetEntry>)
  datatype SponsorPool = SponsorPool(lastPayoutSlot: u64, totalPayouts: u64, totalDeposits: u64)

  predicate AllZero(data: seq<u8>) {
    forall j :: 0 <= j < |data| ==> data[j] == 0
  }

  // ---------------------------------------------------------------- encodings, each before a tail

  function StatusByte(status: KeysetStatus): u8 {
    if status == Active then 0 else 1
  }

  function EntryBefore(e: KeysetEntry, tail: seq<u8>): seq<u8> {
    e.keysetId + (Le(8, e.denom) + (Le(32, e.jointPk) + (Le(8, e.epoch) + ([StatusByte(e.status)] + tail))))
  }

  function EntriesBefore(entries: seq<KeysetEntry>, tail: seq<u8>): seq<u8> {
    if entries == [] then tail else EntryBefore(entries[0], EntriesBefore(entries[1..], tail))
  }

  function RegistryBefore(r: RegistryValue, tail: seq<u8>): seq<u8>
    requires |r.entries| < 0x1_0000_0000
  {
    [r.version] + (Le(4, |r.entries|) + EntriesBefore(r.entries, tail))
  }

  function LeavesBefore(leaves: seq<Bytes32>, tail: seq<u8>): seq<u8> {
    if leaves == [] then tail else Le(32, leaves[0]) + LeavesBefore(leaves[1..], tail)
  }

  function PoolBefore(p: SponsorPool, tail: seq<u8>): seq<u8> {
    Le(8, p.lastPayoutSlot) + (Le(8, p.totalPayouts) + (Le(8, p.totalDeposits) + tail))
  }

  // ---------------------------------------------------------------- reading

  function ReadEntry(data: seq<u8>): Result<(KeysetEntry, seq<u8>)> {
    var (keysetId, d1) :- ReadBytes(data, 33);
    var (denom, d2) :- ReadU64(d1);
    var (jointPk, d3) :- Read32(d2);
    var (epoch, d4) :- ReadU64(d3);
    var (status, d5) :- ReadU8(d4);
    if status > 1 then Err(Malformed)
    else Ok((KeysetEntry(keysetId, denom, jointPk, epoch, if status == 0 then Active else KeysetStatus.Revoked), d5))
  }

  function ReadEntries(data: seq<u8>, n: nat): Result<(seq<KeysetEntry>, seq<u8>)> {
    if n == 0 then Ok(([], data)) else
      var (e, d1) :- ReadEntry(data);
      var (rest, d2) :- ReadEntries(d1, n - 1);
      Ok(([e] + rest, d2))
  }

  function ReadLeaves(data: seq<u8>, n: nat): Result<(seq<Bytes32>, seq<u8>)> {
    if n == 0 then Ok(([], data)) else
      var (leaf, d1) :- Read32(data);
      var (rest, d2) :- ReadLeaves(d1, n - 1);
      Ok(([leaf] + rest, d2))
  }

  function ReadRegistry(data: seq<u8>): Result<RegistryValue> {
    var (version, d1) :- ReadU8(data);
    var (n, d2) :- ReadU32(d1);
    var (entries, _) :- ReadEntries(d2, n);
    Ok(RegistryValue(version, entries))
  }

  function ReadNullifiers(data: seq<u8>): Result<seq<Bytes32>> {
    var (n, d1) :- ReadU32(data);
    var (leaves, _) :- ReadLeaves(d1, n);
    Ok(leaves)
  }

  function ReadPool(data: seq<u8>): Result<SponsorPool> {
    var (slot, d1) :- ReadU64(data);
    var (payouts, d2) :- ReadU64(d1);
    var (deposits, _) :- ReadU64(d2);
    Ok(SponsorPool(slot, payouts, deposits))
  }

  // ---------------------------------------------------------------- loading: bytes left over are ignored

  function LoadRegistry(data: seq<u8>): Result<RegistryValue> {
    if AllZero(data) then Ok(RegistryValue(1, []))
    else if ReadRegistry(data).Ok? then ReadRegistry(data) else Err(InvalidAccountData)
  }

  function ElementsOf(leaves: seq<Bytes32>): set<Bytes32> {
    set x | x in leaves
  }

  function LoadNullifiers(data: seq<u8>): Result<set<Bytes32>> {
    if AllZero(data) then Ok({})
    else if ReadNullifiers(data).Ok? then Ok(ElementsOf(ReadNullifiers(data).value))
    else Err(InvalidAccountData)
  }

  function LoadPool(data: seq<u8>): Result<SponsorPool> {
    if AllZero(data) then Ok(SponsorPool(0, 0, 0))
    else if ReadPool(data).Ok? then ReadPool(data) else Err(InvalidAccountData)
  }

  // ---------------------------------------------------------------- storing

  /** The buffer after its front was overwritten; stale bytes stay behind it. */
  function Overwritten(data: seq<u8>, bytes: seq<u8>): (r: seq<u8>)
    requires |bytes| <= |data|
    ensures |r| == |data|
  {
    bytes + data[|bytes|..]
  }

  lemma OverwrittenAt(data: seq<u8>, bytes: seq<u8>, j: nat)
    requires |bytes| <= |data| && j < |data|
    ensures Overwritten(data, bytes)[j] == if j < |bytes| then bytes[j] else data[j]
  {
  }

  /** Ascending by the bytes of the leaf, first byte first. */
  function BigEndian(b: seq<u8>): nat {
    if b == [] then 0 else 256 * BigEndian(b[..|b| - 1]) + b[|b| - 1]
  }

  function Key(leaf: Bytes32): nat {
    BigEndian(Le(32, leaf))
  }

  ghost predicate Ascends(leaves: seq<Bytes32>) {
    forall i, j :: 0 <= i < j < |leaves| ==> Key(leaves[i]) <= Key(leaves[j])
  }

  /** The leaves in the order an ordered set is serialised in. */
  ghost predicate Listing(leaves: seq<Bytes32>, stored: set<Bytes32>) {
    Distinct(leaves) && Ascends(leaves) && ElementsOf(leaves) == stored
  }

  class Account {
    var lamports: u64
    var data: seq<u8>

    constructor (lamports: u64, data: seq<u8>)
      ensures this.lamports == lamports && this.data == data
    {
      this.lamports, this.data := lamports, data;
    }

    method Write(bytes: seq<u8>) returns (r: Result<()>)
      modifies this`data
      ensures |bytes| > |old(data)| ==> r == Err(AccountDataTooSmall) && data == old(data)
      ensures |bytes| <= |old(data)| ==> r == Ok(()) && data == Overwritten(old(data), bytes)
    {
      if |bytes| > |data| {
        return Err(AccountDataTooSmall);
      }
      data := bytes + data[|bytes|..];
      r := Ok(());
    }

    method StoreRegistry(registry: RegistryValue) returns (r: Result<()>)
      modifies this`data
      ensures |registry.entries| >= 0x1_0000_0000 ==> r == Err(InvalidAccountData) && data == old(data)
      ensures |registry.entries| < 0x1_0000_0000 ==>
                var bytes := RegistryBefore(registry, []);
                if |bytes| > |old(data)| then r == Err(AccountDataTooSmall) && data == old(data)
                else r == Ok(()) && data == Overwritten(old(data), bytes)
    {
      if |registry.entries| >= 0x1_0000_0000 {
        return Err(InvalidAccountData);
      }
      r := Write(RegistryBefore(registry, []));
    }

    method StoreNullifiers(stored: set<Bytes32>) returns (r: Result<()>, ghost leaves: seq<Bytes32>)
      modifies this`data
      ensures Listing(leaves, stored)
      ensures |leaves| >= 0x1_0000_0000 ==> r == Err(InvalidAccountData) && data == old(data)
      ensures |leaves| < 0x1_0000_0000 ==>
                var bytes := Le(4, |leaves|) + LeavesBefore(leaves, []);
                if |bytes| > |old(data)| then r == Err(AccountDataTooSmall) && data == old(data)
                else r == Ok(()) && data == Overwritten(old(data), bytes)
    {
      var listed := InOrder(stored);
      leaves := listed;
      if |listed| >= 0x1_0000_0000 {
        return Err(InvalidAccountData), listed;
      }
      r := Write(Le(4, |listed|) + LeavesBefore(listed, []));
    }

    method StorePool(pool: SponsorPool) returns (r: Result<()>)
      modifies this`data
      ensures var bytes := PoolBefore(pool, []);
              if |bytes| > |old(data)| then r == Err(AccountDataTooSmall) && data == old(data)
              else r == Ok(()) && data == Overwritten(old(data), bytes)
    {
      r := Write(PoolBefore(pool, []));
    }

    /** The program's resize: never for vaults, never to a smaller or equal size, and only when the
        rent for the new size has been paid; the new tail is zero. */
    method Resize(kind: BootstrapKind, newSize: u32, newRent: u64) returns (r: Result<()>)
      modifies this`data
      ensures r.Ok? <==>
              && 0 < newSize <= 65536 && kind != VaultAccount
              && newSize > |old(data)| && lamports >= newRent
      ensures data == if r.Ok? then old(data) + Zeros(newSize - |old(data)|) else old(data)
    {
      if newSize == 0 || newSize > BOOTSTRAP_MAX_SIZE {
        return Err(BootstrapSizeInvalid);
      }
      if kind == VaultAccount {
        return Err(Malformed);
      }
      if newSize <= |data| {
        return Err(BootstrapSizeInvalid);
      }
      if lamports < newRent {
        return Err(VaultInsufficientCollateral);
      }
      data := data + Zeros(newSize - |data|);
      r := Ok(());
    }
  }

  const BOOTSTRAP_MAX_SIZE: u32 := 65536

  function Zeros(n: nat): (z: seq<u8>)
    ensures |z| == n && AllZero(z)
  {
    seq(n, i => 0)
  }

  /** Some leaf precedes all others. */
  lemma {:induction false} LeastLeaf(stored: set<Bytes32>) returns (least: Bytes32)
    requires stored != {}
    ensures least in stored
    ensures forall x :: x in stored ==> Key(least) <= Key(x)
    decreases |stored|
  {
    hide Key;
    var x :| x in stored;
    if stored == {x} {
      least := x;
    } else {
      var y := LeastLeaf(stored - {x});
      least := if Key(x) <= Key(y) then x else y;
    }
  }

  lemma ListNext(leaves: seq<Bytes32>, next: Bytes32, stored: set<Bytes32>)
    requires Listing(leaves, stored) && next !in stored
    requires forall x :: x in stored ==> Key(x) <= Key(next)
    ensures Listing(leaves + [next], stored + {next})
  {
    hide BigEndian, Le, Distinct;
    forall x | x in leaves
      ensures x in stored
    {
      assert x in ElementsOf(leaves);
    }
    DistinctLast(leaves, next);
  }

  lemma OrderKept(stored: set<Bytes32>, rest: set<Bytes32>, next: Bytes32)
    requires next in rest && forall x :: x in rest ==> Key(next) <= Key(x)
    requires forall x, y :: x in stored - rest && y in rest ==> Key(x) <= Key(y)
    ensures forall x, y :: x in stored - (rest - {next}) && y in rest - {next} ==> Key(x) <= Key(y)
    ensures rest <= stored ==> stored - rest + {next} == stored - (rest - {next})
    ensures forall x :: x in stored - rest ==> Key(x) <= Key(next)
  {
    hide Key;
  }

  method InOrder(stored: set<Bytes32>) returns (leaves: seq<Bytes32>)
    ensures Listing(leaves, stored)
  {
    var rest := stored;
    leaves := [];
    assert Listing(leaves, stored - rest);
    hide Listing, Key;
    while rest != {}
      invariant rest <= stored
      invariant Listing(leaves, stored - rest)
      invariant forall x, y :: x in stored - rest && y in rest ==> Key(x) <= Key(y)
      decreases |rest|
    {
      ghost var least := LeastLeaf(rest);
      var next :| next in rest && forall x :: x in rest ==> Key(next) <= Key(x);
      OrderKept(stored, rest, next);
      ListNext(leaves, next, stored - rest);
      leaves := leaves + [next];
      rest := rest - {next};
    }
    assert stored - rest == stored;
  }

  // ---------------------------------------------------------------- load after store

  lemma EntryRead(e: KeysetEntry, tail: seq<u8>)
    ensures ReadEntry(EntryBefore(e, tail)) == Ok((e, tail))
  {
    hide Le, ReadU8, ReadU64, Read32, ReadBytes;
    var t4 := [StatusByte(e.status)] + tail;
    var t3 := Le(8, e.epoch) + t4;
    var t2 := Le(32, e.jointPk) + t3;
    BytesRead(e.keysetId, Le(8, e.denom) + t2);
    U64Read(e.denom, t2);
    Bytes32Read(e.jointPk, t3);
    U64Read(e.epoch, t4);
    U8Read(StatusByte(e.status), tail);
  }

  lemma {:induction false} EntriesRead(entries: seq<KeysetEntry>, tail: seq<u8>)
    ensures ReadEntries(EntriesBefore(entries, tail), |entries|) == Ok((entries, tail))
  {
    hide ReadEntry, EntryBefore;
    if entries != [] {
      EntriesRead(entries[1..], tail);
      EntryRead(entries[0], EntriesBefore(entries[1..], tail));
      assert entries == [entries[0]] + entries[1..];
    }
  }

  lemma {:induction false} LeavesRead(leaves: seq<Bytes32>, tail: seq<u8>)
    ensures ReadLeaves(LeavesBefore(leaves, tail), |leaves|) == Ok((leaves, tail))
  {
    hide Read32, Le;
    if leaves != [] {
      LeavesRead(leaves[1..], tail);
      Bytes32Read(leaves[0], LeavesBefore(leaves[1..], tail));
      assert leaves == [leaves[0]] + leaves[1..];
    }
  }

  lemma EntryThenTail(e: KeysetEntry, inner: seq<u8>, tail: seq<u8>)
    ensures EntryBefore(e, inner) + tail == EntryBefore(e, inner + tail)
  {
    hide Le;
    var t4 := [StatusByte(e.status)] + inner;
    var t3 := Le(8, e.epoch) + t4;
    var t2 := Le(32, e.jointPk) + t3;
    Assoc(e.keysetId, Le(8, e.denom) + t2, tail);
    Assoc(Le(8, e.denom), t2, tail);
    Assoc(Le(32, e.jointPk), t3, tail);
    Assoc(Le(8, e.epoch), t4, tail);
    Assoc([StatusByte(e.status)], inner, tail);
  }

  lemma {:induction false} EntriesThenTail(entries: seq<KeysetEntry>, tail: seq<u8>)
    ensures EntriesBefore(entries, []) + tail == EntriesBefore(entries, tail)
  {
    hide EntryBefore;
    if entries != [] {
      EntriesThenTail(entries[1..], tail);
      EntryThenTail(entries[0], EntriesBefore(entries[1..], []), tail);
    }
  }

  lemma {:induction false} LeavesThenTail(leaves: seq<Bytes32>, tail: seq<u8>)
    ensures LeavesBefore(leaves, []) + tail == LeavesBefore(leaves, tail)
  {
    hide Le;
    if leaves != [] {
      LeavesThenTail(leaves[1..], tail);
      Assoc(Le(32, leaves[0]), LeavesBefore(leaves[1..], []), tail);
    }
  }

  lemma RegistryRead(r: RegistryValue, tail: seq<u8>)
    requires |r.entries| < 0x1_0000_0000
    ensures RegistryBefore(r, []) + tail == RegistryBefore(r, tail)
    ensures ReadRegistry(RegistryBefore(r, tail)) == Ok(r)
    ensures |RegistryBefore(r, tail)| >= 1 && RegistryBefore(r, tail)[0] == r.version
  {
    hide Le, ReadU8, ReadU32, ReadEntries, EntriesBefore;
    var inner := EntriesBefore(r.entries, []);
    EntriesThenTail(r.entries, tail);
    Assoc([r.version], Le(4, |r.entries|) + inner, tail);
    Assoc(Le(4, |r.entries|), inner, tail);
    U8Read(r.version, Le(4, |r.entries|) + EntriesBefore(r.entries, tail));
    U32Read(|r.entries|, EntriesBefore(r.entries, tail));
    EntriesRead(r.entries, tail);
  }

  /** Whatever stale bytes follow, a stored registry loads back, except that a buffer left all zero
      loads as the initial registry. */
  lemma RegistryLoadsBack(data: seq<u8>, r: RegistryValue)
    requires |r.entries| < 0x1_0000_0000 && |RegistryBefore(r, [])| <= |data|
    ensures var stored := Overwritten(data, RegistryBefore(r, []));
            && (LoadRegistry(stored) == Ok(r) <==> !AllZero(stored))
            && (r.version != 0 ==> !AllZero(stored))
  {
    hide RegistryBefore, ReadRegistry;
    RegistryRead(r, data[|RegistryBefore(r, [])|..]);
    RegistryRead(r, []);
  }

  lemma ElementsEmpty(leaves: seq<Bytes32>)
    requires leaves == []
    ensures ElementsOf(leaves) == {}
  {
  }

  lemma NullifiersRead(leaves: seq<Bytes32>, tail: seq<u8>)
    requires |leaves| < 0x1_0000_0000
    ensures Le(4, |leaves|) + LeavesBefore(leaves, []) + tail == Le(4, |leaves|) + LeavesBefore(leaves, tail)
    ensures ReadNullifiers(Le(4, |leaves|) + LeavesBefore(leaves, tail)) == Ok(leaves)
  {
    hide Le, ReadU32, ReadLeaves, LeavesBefore;
    LeavesThenTail(leaves, tail);
    Assoc(Le(4, |leaves|), LeavesBefore(leaves, []), tail);
    U32Read(|leaves|, LeavesBefore(leaves, tail));
    LeavesRead(leaves, tail);
  }

  lemma {:induction false} FromLeZeros(b: seq<u8>)
    requires AllZero(b)
    ensures FromLe(b) == 0
  {
    if b != [] {
      FromLeZeros(b[1..]);
    }
  }

  /** An all-zero buffer that can be read at all reads as no leaves. */
  lemma ZeroReadsEmpty(data: seq<u8>)
    requires AllZero(data) && ReadNullifiers(data).Ok?
    ensures ReadNullifiers(data).value == []
  {
    FromLeZeros(data[..4]);
  }

  /** A stored nullifier set always loads back, whatever stale bytes follow. */
  lemma NullifiersLoadBack(data: seq<u8>, leaves: seq<Bytes32>, stored: set<Bytes32>)
    requires Listing(leaves, stored) && |leaves| < 0x1_0000_0000
    requires |Le(4, |leaves|) + LeavesBefore(leaves, [])| <= |data|
    ensures LoadNullifiers(Overwritten(data, Le(4, |leaves|) + LeavesBefore(leaves, []))) == Ok(stored)
  {
    hide Le, LeavesBefore, ReadNullifiers, Distinct, Ascends, ElementsOf;
    var bytes := Le(4, |leaves|) + LeavesBefore(leaves, []);
    NullifiersRead(leaves, data[|bytes|..]);
    if AllZero(Overwritten(data, bytes)) {
      ZeroReadsEmpty(Overwritten(data, bytes));
      ElementsEmpty(leaves);
    }
  }

  lemma PoolRead(p: SponsorPool, tail: seq<u8>)
    ensures PoolBefore(p, []) + tail == PoolBefore(p, tail)
    ensures ReadPool(PoolBefore(p, tail)) == Ok(p)
    ensures |PoolBefore(p, tail)| == 24 + |tail|
  {
    hide Le, ReadU64;
    U64Read(p.lastPayoutSlot, Le(8, p.totalPayouts) + (Le(8, p.totalDeposits) + tail));
    U64Read(p.totalPayouts, Le(8, p.totalDeposits) + tail);
    U64Read(p.totalDeposits, tail);
    Assoc(Le(8, p.lastPayoutSlot), Le(8, p.totalPayouts) + (Le(8, p.totalDeposits) + []), tail);
    Assoc(Le(8, p.totalPayouts), Le(8, p.totalDeposits) + [], tail);
  }

  /** A stored sponsor pool always loads back. */
  lemma PoolLoadsBack(data: seq<u8>, p: SponsorPool)
    requires |data| >= 24
    ensures |PoolBefore(p, [])| == 24
    ensures LoadPool(Overwritten(data, PoolBefore(p, []))) == Ok(p)
  {
    PoolRead(p, []);
    PoolRead(p, data[24..]);
    var stored := Overwritten(data, PoolBefore(p, []));
    hide PoolBefore;
    if AllZero(stored) {
      FromLeZeros(stored[..8]);
      FromLeZeros(stored[8..][..8]);
      FromLeZeros(stored[8..][8..][..8]);
    }
  }

  // ---------------------------------------------------------------- the layout

  /** An entry has 82 bytes: id, denomination, key, epoch and a status byte that is 0 iff active. */
  lemma EntryLayout(e: KeysetEntry, tail: seq<u8>)
    ensures var b := EntryBefore(e, tail);
            && FieldAt(b, 0, e.keysetId) && FieldAt(b, 33, Le(8, e.denom)) && FieldAt(b, 41, Le(32, e.jointPk))
            && FieldAt(b, 73, Le(8, e.epoch)) && FieldAt(b, 81, [if e.status.Active? then 0 else 1])
            && FieldAt(b, 82, tail) && |b| == 82 + |tail|
  {
    hide Le;
    Fields5(e.keysetId, Le(8, e.denom), Le(32, e.jointPk), Le(8, e.epoch), [StatusByte(e.status)], tail);
  }

  /** Entry j of a list of entries starts 82 * j bytes in. */
  lemma {:induction false} EntriesLayout(entries: seq<KeysetEntry>, j: nat)
    requires j < |entries|
    ensures |EntriesBefore(entries, [])| == 82 * |entries|
    ensures EntryFields(EntriesBefore(entries, []), 82 * j, entries[j])
  {
    hide EntryBefore, FieldAt, Le;
    var rest := EntriesBefore(entries[1..], []);
    EntryLayout(entries[0], rest);
    if |entries| > 1 {
      EntriesLayout(entries[1..], if j == 0 then 0 else j - 1);
    }
    if j > 0 {
      FieldsWithin(EntryBefore(entries[0], rest), 82, rest, 82 * (j - 1), entries[j]);
    }
  }

  /** The fields of an entry, from the offset on. */
  predicate EntryFields(b: seq<u8>, offset: nat, e: KeysetEntry) {
    && FieldAt(b, offset, e.keysetId) && FieldAt(b, offset + 33, Le(8, e.denom))
    && FieldAt(b, offset + 41, Le(32, e.jointPk)) && FieldAt(b, offset + 73, Le(8, e.epoch))
    && FieldAt(b, offset + 81, [if e.status.Active? then 0 else 1])
  }

  lemma FieldsWithin(b: seq<u8>, offset: nat, part: seq<u8>, k: nat, e: KeysetEntry)
    requires FieldAt(b, offset, part) && EntryFields(part, k, e)
    ensures EntryFields(b, offset + k, e)
  {
    hide FieldAt, Le;
    FieldPart(b, offset, part, k, e.keysetId);
    FieldPart(b, offset, part, k + 33, Le(8, e.denom));
    FieldPart(b, offset, part, k + 41, Le(32, e.jointPk));
    FieldPart(b, offset, part, k + 73, Le(8, e.epoch));
    FieldPart(b, offset, part, k + 81, [if e.status.Active? then 0 else 1]);
  }

  /** A registry is its version byte, a four-byte count, and entry j at 5 + 82 * j. */
  lemma RegistryLayout(r: RegistryValue, j: nat)
    requires |r.entries| < 0x1_0000_0000
    ensures var b := RegistryBefore(r, []);
            && FieldAt(b, 0, [r.version]) && FieldAt(b, 1, Le(4, |r.entries|))
            && |b| == 5 + 82 * |r.entries|
            && (j < |r.entries| ==> EntryFields(b, 5 + 82 * j, r.entries[j]))
  {
    hide EntriesBefore, FieldAt, Le, EntryFields;
    var inner := EntriesBefore(r.entries, []);
    Fields2([r.version], Le(4, |r.entries|), inner);
    if j < |r.entries| {
      EntriesLayout(r.entries, j);
      FieldsWithin(RegistryBefore(r, []), 5, inner, 82 * j, r.entries[j]);
    } else if r.entries != [] {
      EntriesLayout(r.entries, 0);
    } else {
      NoEntries();
    }
  }

  lemma NoEntries()
    ensures EntriesBefore([], []) == []
  {
  }

  /** Leaf j of a list of leaves starts 32 * j bytes in, so at 4 + 32 * j of a stored set. */
  lemma {:induction false} LeavesLayout(leaves: seq<Bytes32>, j: nat)
    requires j < |leaves|
    ensures |LeavesBefore(leaves, [])| == 32 * |leaves|
    ensures FieldAt(LeavesBefore(leaves, []), 32 * j, Le(32, leaves[j]))
  {
    hide FieldAt, Le;
    var rest := LeavesBefore(leaves[1..], []);
    FirstField(Le(32, leaves[0]), rest);
    if |leaves| > 1 {
      LeavesLayout(leaves[1..], if j == 0 then 0 else j - 1);
    }
    if j > 0 {
      LaterField(Le(32, leaves[0]), rest, 32 * (j - 1), Le(32, leaves[j]));
    }
  }

  /** A pool is three eight-byte numbers: the last slot, the payouts and the deposits. */
  lemma PoolLayout(p: SponsorPool)
    ensures var b := PoolBefore(p, []);
            && |b| == 24 && FieldAt(b, 0, Le(8, p.lastPayoutSlot)) && FieldAt(b, 8, Le(8, p.totalPayouts))
            && FieldAt(b, 16, Le(8, p.totalDeposits))
  {
    hide Le;
    Fields3(Le(8, p.lastPayoutSlot), Le(8, p.totalPayouts), Le(8, p.totalDeposits), []);
  }

  // ---------------------------------------------------------------- what loads

  /** Untouched accounts load as an empty registry of version 1, no nullifiers and a pool of zeros. */
  lemma UntouchedLoads(n: nat)
    ensures LoadRegistry(Zeros(n)) == Ok(RegistryValue(1, []))
    ensures LoadNullifiers(Zeros(n)) == Ok({})
    ensures LoadPool(Zeros(n)) == Ok(SponsorPool(0, 0, 0))
  {
  }

  /** A nullifier account loads iff it is all zero or has room for its count; so does a pool with 24 bytes. What
      does not load is reported as invalid data. */
  lemma LoadsIff(data: seq<u8>)
    ensures LoadNullifiers(data).Ok? <==> AllZero(data) || (|data| >= 4 && |data| >= 4 + 32 * FromLe(data[..4]))
    ensures LoadPool(data).Ok? <==> AllZero(data) || |data| >= 24
    ensures LoadNullifiers(data).Err? ==> LoadNullifiers(data) == Err(InvalidAccountData)
    ensures LoadPool(data).Err? ==> LoadPool(data) == Err(InvalidAccountData)
  {
    hide FromLe, ReadLeaves;
    if |data| >= 4 {
      LeavesAreChunks(data[4..], FromLe(data[..4]), 0);
    }
  }

  /** The status byte of entry j is one of the two in use. */
  predicate StatusKnown(data: seq<u8>, j: nat) {
    82 * j + 81 < |data| && data[82 * j + 81] <= 1
  }

  lemma StatusShifts(data: seq<u8>, j: nat)
    requires |data| >= 82
    ensures StatusKnown(data[82..], j) <==> StatusKnown(data, j + 1)
  {
  }

  lemma {:induction false} EntriesReadIff(data: seq<u8>, n: nat)
    ensures ReadEntries(data, n).Ok? <==> |data| >= 82 * n && forall j :: 0 <= j < n ==> StatusKnown(data, j)
    decreases n
  {
    hide ReadEntry;
    if n > 0 {
      EntryReadIff(data);
      if |data| >= 82 {
        var rest := data[82..];
        EntriesReadIff(rest, n - 1);
        forall j | 0 <= j < n - 1
          ensures StatusKnown(rest, j) <==> StatusKnown(data, j + 1)
        {
          StatusShifts(data, j);
        }
        hide StatusKnown;
        StatusesShift(rest, data, n);
      }
    }
  }

  lemma StatusesShift(rest: seq<u8>, data: seq<u8>, n: nat)
    requires n > 0 && forall j :: 0 <= j < n - 1 ==> (StatusKnown(rest, j) <==> StatusKnown(data, j + 1))
    ensures (forall j :: 0 <= j < n ==> StatusKnown(data, j)) <==>
            StatusKnown(data, 0) && forall j :: 0 <= j < n - 1 ==> StatusKnown(rest, j)
  {
    hide StatusKnown;
    if StatusKnown(data, 0) && forall j :: 0 <= j < n - 1 ==> StatusKnown(rest, j) {
      forall j | 0 <= j < n
        ensures StatusKnown(data, j)
      {
        assert j > 0 ==> (StatusKnown(rest, j - 1) <==> StatusKnown(data, j - 1 + 1));
      }
    }
  }

  /** A registry account loads iff it is all zero or holds as many entries as it counts, each with a known status;
      otherwise its data is reported as invalid. */
  lemma RegistryLoadsIff(data: seq<u8>)
    ensures LoadRegistry(data).Ok? <==>
            || AllZero(data)
            || (|data| >= 5
                && var n := FromLe(data[1..5]);
                |data| >= 5 + 82 * n && forall j :: 0 <= j < n ==> StatusKnown(data[5..], j))
    ensures LoadRegistry(data).Err? ==> LoadRegistry(data) == Err(InvalidAccountData)
  {
    hide FromLe, StatusKnown, ReadEntries;
    if |data| >= 5 {
      assert data[1..][..4] == data[1..5] && data[1..][4..] == data[5..];
      EntriesReadIff(data[5..], FromLe(data[1..5]));
    }
  }

  lemma EntryReadIff(data: seq<u8>)
    ensures ReadEntry(data).Ok? <==> |data| >= 82 && data[81] <= 1
    ensures ReadEntry(data).Ok? ==> ReadEntry(data).value.1 == data[82..]
  {
    hide FromLe;
    if |data| >= 82 {
      assert data[33..][8..] == data[41..] && data[41..][32..] == data[73..];
      assert data[73..][8..] == data[81..] && data[81..][1..] == data[82..];
    }
  }

  // ---------------------------------------------------------------- the order of the leaves

  /** The first octet that differs decides. */
  lemma {:induction false} BigEndianOrder(a: seq<u8>, b: seq<u8>, i: nat)
    requires |a| == |b| && i < |a| && a[..i] == b[..i] && a[i] < b[i]
    ensures BigEndian(a) < BigEndian(b)
  {
    var n := |a| - 1;
    if i == n {
      assert a[..n] == b[..n];
    } else {
      assert a[..n][..i] == a[..i] && b[..n][..i] == b[..i];
      BigEndianOrder(a[..n], b[..n], i);
    }
  }

  /** Leaves are ordered by their bytes: by the first one that differs. */
  lemma LeafOrder(a: Bytes32, b: Bytes32, i: nat)
    requires i < 32 && Le(32, a)[..i] == Le(32, b)[..i] && Le(32, a)[i] < Le(32, b)[i]
    ensures Key(a) < Key(b)
  {
    hide Le;
    BigEndianOrder(Le(32, a), Le(32, b), i);
  }

  // ---------------------------------------------------------------- resizing

  lemma BytesExtend(data: seq<u8>, z: seq<u8>, n: nat)
    requires ReadBytes(data, n).Ok?
    ensures var (b, rest) := ReadBytes(data, n).value; ReadBytes(data + z, n) == Ok((b, rest + z))
  {
    assert (data + z)[..n] == data[..n] && (data + z)[n..] == data[n..] + z;
  }

  lemma EntryExtends(data: seq<u8>, z: seq<u8>)
    requires ReadEntry(data).Ok?
    ensures var (e, rest) := ReadEntry(data).value; ReadEntry(data + z) == Ok((e, rest + z))
  {
    hide FromLe, ReadBytes;
    BytesExtend(data, z, 33);
    var d1 := ReadBytes(data, 33).value.1;
    BytesExtend(d1, z, 8);
    var d2 := ReadBytes(d1, 8).value.1;
    BytesExtend(d2, z, 32);
    var d3 := ReadBytes(d2, 32).value.1;
    BytesExtend(d3, z, 8);
    BytesExtend(ReadBytes(d3, 8).value.1, z, 1);
  }

  lemma {:induction false} EntriesExtend(data: seq<u8>, z: seq<u8>, n: nat)
    requires ReadEntries(data, n).Ok?
    ensures var (es, rest) := ReadEntries(data, n).value; ReadEntries(data + z, n) == Ok((es, rest + z))
    decreases n
  {
    hide ReadEntry;
    if n > 0 {
      EntryExtends(data, z);
      EntriesExtend(ReadEntry(data).value.1, z, n - 1);
    }
  }

  lemma {:induction false} LeavesExtend(data: seq<u8>, z: seq<u8>, n: nat)
    requires ReadLeaves(data, n).Ok?
    ensures var (ls, rest) := ReadLeaves(data, n).value; ReadLeaves(data + z, n) == Ok((ls, rest + z))
    decreases n
  {
    hide FromLe, ReadBytes;
    if n > 0 {
      BytesExtend(data, z, 32);
      LeavesExtend(ReadBytes(data, 32).value.1, z, n - 1);
    }
  }

  lemma ZeroExtended(data: seq<u8>, n: nat)
    ensures AllZero(data + Zeros(n)) <==> AllZero(data)
  {
    if AllZero(data + Zeros(n)) {
      assert forall j :: 0 <= j < |data| ==> (data + Zeros(n))[j] == data[j];
    }
  }

  /** Growing an account with zero bytes changes nothing that loads from it. */
  lemma ResizeKeepsValues(data: seq<u8>, n: nat)
    ensures LoadRegistry(data).Ok? ==> LoadRegistry(data + Zeros(n)) == LoadRegistry(data)
    ensures LoadNullifiers(data).Ok? ==> LoadNullifiers(data + Zeros(n)) == LoadNullifiers(data)
    ensures LoadPool(data).Ok? ==> LoadPool(data + Zeros(n)) == LoadPool(data)
  {
    hide FromLe, ReadBytes, ReadEntries, ReadLeaves, AllZero;
    var z := Zeros(n);
    ZeroExtended(data, n);
    if ReadRegistry(data).Ok? {
      BytesExtend(data, z, 1);
      var d1 := ReadBytes(data, 1).value.1;
      BytesExtend(d1, z, 4);
      EntriesExtend(ReadBytes(d1, 4).value.1, z, ReadU32(d1).value.0);
    }
    if ReadNullifiers(data).Ok? {
      BytesExtend(data, z, 4);
      LeavesExtend(ReadBytes(data, 4).value.1, z, ReadU32(data).value.0);
    }
    if ReadPool(data).Ok? {
      BytesExtend(data, z, 8);
      var d1 := ReadBytes(data, 8).value.1;
      BytesExtend(d1, z, 8);
      BytesExtend(ReadBytes(d1, 8).value.1, z, 8);
    }
  }

  // ---------------------------------------------------------------- the validators' scan

  /** Some 32-byte chunk equals the target; an incomplete last chunk is ignored. */
  function AnyChunk(bytes: seq<u8>, target: seq<u8>): bool {
    if |bytes| < 32 then false else bytes[..32] == target || AnyChunk(bytes[32..], target)
  }

  /** What a validator reads off the raw account data. */
  function ScanResult(data: seq<u8>, nullifier: Bytes32): Result<()> {
    if |data| < 4 then Err(Malformed) else
      var count := FromLe(data[..4]);
      if |data| < 4 + count * 32 then Err(Malformed)
      else if AnyChunk(data[4..4 + count * 32], Le(32, nullifier)) then Ok(())
      else Err(NullifierNotFinalized)
  }

  lemma LeafBytes(b: seq<u8>, n: Bytes32)
    requires |b| == 32
    ensures b == Le(32, n) <==> FromLe(b) == n
  {
    hide Le, FromLe, Pow256;
    Widths();
    FromLeOfLe(32, n);
    LeOfFromLe(b);
  }

  /** Reading n leaves succeeds iff their bytes are there, and finds what the chunk scan finds. */
  lemma {:induction false} LeavesAreChunks(data: seq<u8>, n: nat, nullifier: Bytes32)
    ensures ReadLeaves(data, n).Ok? <==> |data| >= 32 * n
    ensures ReadLeaves(data, n).Ok? ==>
              (nullifier in ReadLeaves(data, n).value.0 <==> AnyChunk(data[..32 * n], Le(32, nullifier)))
  {
    hide Le, FromLe;
    if n > 0 && |data| >= 32 {
      LeavesAreChunks(data[32..], n - 1, nullifier);
      LeafBytes(data[..32], nullifier);
      if |data| >= 32 * n {
        assert data[..32 * n][..32] == data[..32];
        assert data[..32 * n][32..] == data[32..][..32 * (n - 1)];
      }
    }
  }

  /** On every byte string the scan succeeds iff the program would load a set that holds the
      nullifier from it. */
  lemma ScanMeansStored(data: seq<u8>, nullifier: Bytes32)
    ensures ScanResult(data, nullifier).Ok? <==>
            LoadNullifiers(data).Ok? && nullifier in LoadNullifiers(data).value
    ensures ScanResult(data, nullifier) == Err(Malformed) <==> |data| < 4 || |data| < 4 + 32 * FromLe(data[..4])
  {
    hide Le, FromLe, ReadLeaves, AnyChunk;
    if |data| >= 4 {
      var n := FromLe(data[..4]);
      LeavesAreChunks(data[4..], n, nullifier);
      assert |data| >= 4 + n * 32 ==> data[4..][..32 * n] == data[4..4 + n * 32];
      if AllZero(data) {
        FromLeZeros(data[..4]);
        assert |data| >= 4 + n * 32;
        ZeroReadsEmpty(data);
      }
    }
  }
}
