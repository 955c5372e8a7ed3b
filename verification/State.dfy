/** The accounts the on-chain program keeps: keyset registry, vaults and nullifier set. */
module State {
  import opened Wrappers
  import opened Borsh

  datatype KeysetStatus = Active | Revoked

  datatype KeysetEntry = KeysetEntry(
    keysetId: KeysetId, denom: u64, jointPk: Bytes32, epoch: u64, status: KeysetStatus)

  const KEYSET_REGISTRY_CAPACITY: nat := 256

  /** Position of the first entry with this id. */
  function Position(entries: seq<KeysetEntry>, id: KeysetId): (r: Option<nat>)
    ensures r.Some? ==> r.value < |entries| && entries[r.value].keysetId == id
    ensures r.Some? ==> forall j :: 0 <= j < r.value ==> entries[j].keysetId != id
    ensures r.None? ==> forall j :: 0 <= j < |entries| ==> entries[j].keysetId != id
  {
    if entries == [] then None
    else if entries[0].keysetId == id then Some(0)
    else
      var rest := Position(entries[1..], id);
      if rest.Some? then Some(rest.value + 1) else None
  }

  predicate Serves(e: KeysetEntry, denom: u64) {
    e.denom == denom && e.status == Active
  }

  /** The active entry of a denomination with the greatest epoch; of several, the last one. */
  function ActiveFor(entries: seq<KeysetEntry>, denom: u64): Option<KeysetEntry> {
    if entries == [] then None else
      var best, e := ActiveFor(entries[..|entries| - 1], denom), entries[|entries| - 1];
      if Serves(e, denom) && (best.None? || best.value.epoch <= e.epoch) then Some(e) else best
  }

  /** Entry j serves the denomination and no later entry that does has an epoch as great, no earlier
      one a greater epoch. */
  ghost predicate Latest(entries: seq<KeysetEntry>, denom: u64, j: nat)
    requires j < |entries|
  {
    && Serves(entries[j], denom)
    && (forall i :: 0 <= i < j && Serves(entries[i], denom) ==> entries[i].epoch <= entries[j].epoch)
    && (forall i :: j < i < |entries| && Serves(entries[i], denom) ==> entries[i].epoch < entries[j].epoch)
  }

  /** Registration order and epoch decide which entry serves a denomination, and one does as soon as
      any entry is active for it. */
  lemma {:induction false} ActiveForIsLatest(entries: seq<KeysetEntry>, denom: u64)
    ensures match ActiveFor(entries, denom)
            case None => forall j :: 0 <= j < |entries| ==> !Serves(entries[j], denom)
            case Some(e) => exists j :: 0 <= j < |entries| && entries[j] == e && Latest(entries, denom, j)
  {
    if entries != [] {
      var rest := entries[..|entries| - 1];
      ActiveForIsLatest(rest, denom);
      var best, e := ActiveFor(rest, denom), entries[|entries| - 1];
      if best.Some? {
        var j :| 0 <= j < |rest| && rest[j] == best.value && Latest(rest, denom, j);
        if Serves(e, denom) && best.value.epoch <= e.epoch {
          forall i | 0 <= i < |rest| && Serves(entries[i], denom)
            ensures entries[i].epoch <= e.epoch
          {
            assert rest[i] == entries[i];
          }
          assert Latest(entries, denom, |entries| - 1);
        } else {
          assert Latest(entries, denom, j);
        }
      } else if Serves(e, denom) {
        assert forall i :: 0 <= i < |rest| ==> rest[i] == entries[i];
        assert Latest(entries, denom, |entries| - 1);
      }
    }
  }

  /** This entry is the one that serves the denomination: active, of greatest epoch, last among equals. */
  ghost predicate ServedBy(entries: seq<KeysetEntry>, denom: u64, e: KeysetEntry) {
    exists j :: 0 <= j < |entries| && entries[j] == e && Latest(entries, denom, j)
  }

  lemma LatestOnce(entries: seq<KeysetEntry>, denom: u64, i: nat, j: nat)
    requires i < |entries| && j < |entries| && Latest(entries, denom, i) && Latest(entries, denom, j)
    ensures i == j
  {
  }

  /** The scan finds the serving entry, and nothing iff there is none. */
  lemma ActiveForIff(entries: seq<KeysetEntry>, denom: u64, e: KeysetEntry)
    ensures ActiveFor(entries, denom) == Some(e) <==> ServedBy(entries, denom, e)
    ensures ActiveFor(entries, denom).None? ==> !ServedBy(entries, denom, e)
  {
    ActiveForIsLatest(entries, denom);
    if ServedBy(entries, denom, e) {
      var i :| 0 <= i < |entries| && entries[i] == e && Latest(entries, denom, i);
      match ActiveFor(entries, denom)
      case None =>
      case Some(f) =>
        var j :| 0 <= j < |entries| && entries[j] == f && Latest(entries, denom, j);
        LatestOnce(entries, denom, i, j);
    }
  }

  class KeysetRegistry {
    var version: u8
    var entries: seq<KeysetEntry>

    constructor ()
      ensures version == 1 && entries == []
    {
      version, entries := 1, [];
    }

    method Find(id: KeysetId) returns (r: Option<nat>)
      ensures r == Position(entries, id)
    {
      for j := 0 to |entries|
        invariant forall i :: 0 <= i < j ==> entries[i].keysetId != id
      {
        if entries[j].keysetId == id {
          return Some(j);
        }
      }
      r := None;
    }

    method FindActiveForDenom(denom: u64) returns (r: Option<KeysetEntry>)
      ensures r == ActiveFor(entries, denom)
    {
      r := None;
      for j := 0 to |entries|
        invariant r == ActiveFor(entries[..j], denom)
      {
        assert entries[..j + 1][..j] == entries[..j];
        var e := entries[j];
        if e.denom == denom && e.status == Active && (r.None? || r.value.epoch <= e.epoch) {
          r := Some(e);
        }
      }
      assert entries[..|entries|] == entries;
    }
  }

  class Vault {
    const denom: u64
    var collateral: u64

    constructor (denom: u64)
      ensures this.denom == denom && collateral == 0
    {
      this.denom := denom;
      collateral := 0;
    }
  }

  class NullifierSet {
    var leaves: set<Bytes32>

    constructor ()
      ensures leaves == {}
    {
      leaves := {};
    }

    /** Whether the leaf was new. */
    method Insert(n: Bytes32) returns (inserted: bool)
      modifies this
      ensures inserted == (n !in old(leaves))
      ensures leaves == old(leaves) + {n}
    {
      inserted := n !in leaves;
      leaves := leaves + {n};
    }
  }
}
