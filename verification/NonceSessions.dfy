/** The per-validator store of signing and refresh sessions between their two rounds. Both stores are
    the same code over their own state type `V`, which holds the nonces. */
module NonceSessions {
  import opened Wrappers
  import opened CeremonySessions

  datatype Entry<V> = Entry(state: V, createdAt: nat)

  type Entries<V> = map<Bytes16, Entry<V>>

  /** A session id in flight is refused, so its nonces cannot be replaced. */
  function Inserted<V>(entries: Entries<V>, id: Bytes16, entry: Entry<V>): (Entries<V>, Result<()>) {
    if id in entries then (entries, Err(AlreadyInFlight)) else (entries[id := entry], Ok(()))
  }

  /** Handing a session out removes it. */
  function TakenOut<V>(entries: Entries<V>, id: Bytes16): (Entries<V>, Option<Entry<V>>) {
    if id in entries then (entries - {id}, Some(entries[id])) else (entries, None)
  }

  function Kept<V>(entries: Entries<V>, now: nat, ttl: nat): Entries<V> {
    map id | id in entries && Age(now, entries[id].createdAt) < ttl :: entries[id]
  }

  class NonceStore<V> {
    var inner: Entries<V>

    constructor ()
      ensures inner == map[]
    {
      inner := map[];
    }

    method Insert(id: Bytes16, entry: Entry<V>) returns (r: Result<()>)
      modifies this
      ensures (inner, r) == Inserted(old(inner), id, entry)
    {
      if id in inner {
        return Err(AlreadyInFlight);
      }
      inner := inner[id := entry];
      r := Ok(());
    }

    method Take(id: Bytes16) returns (r: Option<Entry<V>>)
      modifies this
      ensures (inner, r) == TakenOut(old(inner), id)
    {
      r := None;
      if id in inner {
        r := Some(inner[id]);
        inner := inner - {id};
      }
    }

    method Prune(now: nat, ttl: nat) returns (evicted: int)
      modifies this
      ensures inner == Kept(old(inner), now, ttl)
      ensures forall id :: id in inner <==> id in old(inner) && 0 < ttl && now < old(inner)[id].createdAt + ttl
      ensures forall id :: id in inner ==> inner[id] == old(inner)[id]
      ensures evicted == |old(inner)| - |inner|
    {
      var before := |inner|;
      inner := map id | id in inner && Age(now, inner[id].createdAt) < ttl :: inner[id];
      evicted := before - |inner|;
    }
  }
}
