/** The per-validator store of key-generation and reshare ceremonies. Both stores are the same code
    over their own message types `R` (the validator's own round 1) and `C` (a peer's contribution). */
module CeremonySessions {
  import opened Wrappers
  import opened Lists

  datatype Session<R, C> = Session(myRound1: R, n: u16, peers: map<u16, C>, createdAt: nat)

  type Sessions<R, C> = map<Bytes16, Session<R, C>>

  /** `n - 1` peers are waited for, so an empty committee cannot be stored. */
  ghost predicate Sound<R, C>(sessions: Sessions<R, C>) {
    forall id :: id in sessions ==> sessions[id].n >= 1
  }

  // ---------------------------------------------------------------- what each step does

  function Started<R, C>(sessions: Sessions<R, C>, id: Bytes16, session: Session<R, C>)
    : (Sessions<R, C>, Result<()>)
  {
    if id in sessions then (sessions, Err(AlreadyInFlight)) else (sessions[id := session], Ok(()))
  }

  /** A later contribution under the same index replaces the earlier one. */
  function Contributed<R, C>(sessions: Sessions<R, C>, id: Bytes16, from: u16, c: C)
    : (Sessions<R, C>, Result<nat>)
  {
    if id !in sessions then (sessions, Err(NoSession)) else
      var session := sessions[id];
      var peers := session.peers[from := c];
      (sessions[id := session.(peers := peers)], Ok(|peers|))
  }

  /** The keys below a bound, in ascending order. */
  ghost function Ascending(keys: set<u16>, below: nat): seq<u16>
    requires below <= 0x1_0000
  {
    if below == 0 then [] else
      Ascending(keys, below - 1) + (if below - 1 in keys then [below - 1] else [])
  }

  ghost function KeysOf<C>(peers: map<u16, C>): seq<u16> {
    Ascending(peers.Keys, 0x1_0000)
  }

  /** The contributions ordered by the index they are stored under. */
  ghost function InKeyOrder<C>(peers: map<u16, C>): (cs: seq<C>)
    ensures |cs| == |KeysOf(peers)|
  {
    AscendingElements(peers.Keys, 0x1_0000);
    var keys := KeysOf(peers);
    seq(|keys|, j requires 0 <= j < |keys| => assert keys[j] in keys; peers[keys[j]])
  }

  /** A session is handed out, and forgotten, only once enough peers have contributed. */
  ghost function Taken<R, C>(sessions: Sessions<R, C>, id: Bytes16)
    : (Sessions<R, C>, Result<(R, seq<C>, u16)>)
    requires Sound(sessions)
  {
    if id !in sessions then (sessions, Err(NoSession)) else
      var session := sessions[id];
      if |session.peers| < session.n - 1 then (sessions, Err(NoSession))
      else (sessions - {id}, Ok((session.myRound1, InKeyOrder(session.peers), session.n)))
  }

  /** Saturating difference of two clock readings. */
  function Age(now: nat, since: nat): nat {
    if now >= since then now - since else 0
  }

  /** What is kept is younger than its time to live; a clock that went back makes everything young. */
  lemma YoungIff(now: nat, since: nat, ttl: nat)
    ensures Age(now, since) < ttl <==> 0 < ttl && now < since + ttl
  {
  }

  function Pruned<R, C>(sessions: Sessions<R, C>, now: nat, ttl: nat): Sessions<R, C> {
    map id | id in sessions && Age(now, sessions[id].createdAt) < ttl :: sessions[id]
  }

  // ---------------------------------------------------------------- the order of the keys

  lemma AscendingNext(keys: set<u16>, below: nat)
    requires 0 < below <= 0x1_0000
    ensures var rest := Ascending(keys, below - 1);
            Ascending(keys, below) == if below - 1 in keys then rest + [below - 1] else rest
  {
  }

  lemma {:induction false} AscendingElements(keys: set<u16>, below: nat)
    requires below <= 0x1_0000
    ensures Distinct(Ascending(keys, below))
    ensures forall k :: k in Ascending(keys, below) <==> k in keys && k < below
  {
    if below > 0 {
      AscendingElements(keys, below - 1);
      AscendingNext(keys, below);
      hide Distinct, Ascending;
      DistinctLast(Ascending(keys, below - 1), below - 1);
    } else {
      DistinctEmpty(Ascending(keys, below));
    }
  }

  lemma AscendingNone(keys: set<u16>)
    ensures Sorted(Ascending(keys, 0))
  {
  }

  lemma {:induction false} AscendingSorted(keys: set<u16>, below: nat)
    requires below <= 0x1_0000
    ensures Sorted(Ascending(keys, below))
  {
    hide *;
    if below > 0 {
      AscendingSorted(keys, below - 1);
      AscendingElements(keys, below - 1);
      AscendingNext(keys, below);
      if below - 1 in keys {
        SortedAppend(Ascending(keys, below - 1), below - 1);
      }
    } else {
      AscendingNone(keys);
    }
  }

  lemma {:induction false} SortedAppend(s: seq<u16>, x: u16)
    requires Sorted(s) && forall k :: k in s ==> k <= x
    ensures Sorted(s + [x])
  {
    if s != [] {
      assert forall k :: k in s[1..] ==> k in s;
      SortedAppend(s[1..], x);
      assert (s + [x])[1..] == s[1..] + [x];
      assert s[0] in s;
      assert |s| > 1 ==> (s + [x])[1] == s[1];
    }
  }

  lemma SameElementsPermutation<T>(p: seq<T>, q: seq<T>)
    requires Distinct(p) && Distinct(q) && forall x :: x in p <==> x in q
    ensures Permutation(p, q)
  {
    DistinctMultiset(p);
    DistinctMultiset(q);
    forall x
      ensures multiset(p)[x] == multiset(q)[x]
    {
      assert x in multiset(p) <==> x in p;
      assert x in multiset(q) <==> x in q;
    }
  }

  /** Sorted lists of the same elements are equal. */
  lemma {:induction false} SortedUnique(p: seq<u16>, q: seq<u16>)
    requires Sorted(p) && Sorted(q) && Permutation(p, q)
    ensures p == q
    decreases |p|
  {
    PermutationDistinct(p, q);
    if p != [] {
      var x, y := p[|p| - 1], q[|q| - 1];
      assert x in q && y in p;
      var i :| 0 <= i < |p| && p[i] == y;
      var j :| 0 <= j < |q| && q[j] == x;
      SortedMax(p, i);
      SortedMax(q, j);
      PermutationDropLast(p, q);
      SortedUnique(p[..|p| - 1], q[..|q| - 1]);
      assert p == p[..|p| - 1] + [x] && q == q[..|q| - 1] + [y];
    }
  }

  /** Sorting the keys in whatever order they were collected gives the ascending list. */
  lemma SortedKeys(keys: set<u16>, collected: seq<u16>)
    requires Distinct(collected) && forall k :: k in collected <==> k in keys
    ensures Sort(collected) == Ascending(keys, 0x1_0000)
  {
    hide Sorted, Distinct, Permutation, Ascending;
    var ascending := Ascending(keys, 0x1_0000);
    AscendingElements(keys, 0x1_0000);
    AscendingSorted(keys, 0x1_0000);
    SortSorts(collected);
    SameElementsPermutation(collected, ascending);
    PermutationTransitive(Sort(collected), collected, ascending);
    SortedUnique(Sort(collected), ascending);
  }

  lemma PermutationTransitive<T>(p: seq<T>, q: seq<T>, r: seq<T>)
    requires Permutation(p, q) && Permutation(q, r)
    ensures Permutation(p, r)
  {
  }

  lemma KeysAre<C>(peers: map<u16, C>)
    ensures Distinct(KeysOf(peers)) && |KeysOf(peers)| == |peers|
    ensures forall k :: k in KeysOf(peers) <==> k in peers
  {
    AscendingElements(peers.Keys, 0x1_0000);
    DistinctCardinality(KeysOf(peers));
    assert Elements(KeysOf(peers)) == peers.Keys;
    assert |peers.Keys| == |peers|;
  }

  lemma {:induction false} AscendingIndex(keys: set<u16>, below: nat, j: nat, k: nat)
    requires below <= 0x1_0000 && j < k < |Ascending(keys, below)|
    ensures Ascending(keys, below)[j] < Ascending(keys, below)[k]
  {
    if below > 0 {
      AscendingElements(keys, below - 1);
      var rest := Ascending(keys, below - 1);
      if k < |rest| {
        AscendingIndex(keys, below - 1, j, k);
      } else {
        assert rest[j] in rest;
      }
    }
  }

  /** Contributions are handed out once each, in ascending order of the indices they are stored under. */
  lemma HandedOutInOrder<C>(peers: map<u16, C>, j: nat, k: nat)
    requires j < k < |InKeyOrder(peers)|
    ensures |InKeyOrder(peers)| == |peers|
    ensures var keys := KeysOf(peers);
            && keys[j] < keys[k] && keys[j] in peers && keys[k] in peers
            && InKeyOrder(peers)[j] == peers[keys[j]] && InKeyOrder(peers)[k] == peers[keys[k]]
  {
    KeysAre(peers);
    AscendingIndex(peers.Keys, 0x1_0000, j, k);
    assert KeysOf(peers)[j] in KeysOf(peers) && KeysOf(peers)[k] in KeysOf(peers);
  }

  /** What the store's steps do: a start needs a free id, a contribution and a hand-out a stored one; only the named
      session changes, and a hand-out needs n - 1 contributions and removes it. */
  lemma StepsAre<R, C>(sessions: Sessions<R, C>, id: Bytes16, other: Bytes16, session: Session<R, C>, from: u16, c: C)
    requires Sound(sessions) && other != id
    ensures var (after, r) := Started(sessions, id, session);
            && r == (if id in sessions then Err(AlreadyInFlight) else Ok(()))
            && after == (if id in sessions then sessions else sessions[id := session])
    ensures var (after, r) := Contributed(sessions, id, from, c);
            && (id !in sessions ==> r == Err(NoSession) && after == sessions)
            && (id in sessions ==>
                  && after.Keys == sessions.Keys && r == Ok(|after[id].peers|)
                  && after[id] == sessions[id].(peers := sessions[id].peers[from := c])
                  && (other in sessions ==> after[other] == sessions[other]))
    ensures var (after, r) := Taken(sessions, id);
            && (r.Ok? <==> id in sessions && |sessions[id].peers| >= sessions[id].n - 1)
            && (r.Ok? ==> after == sessions - {id} && r.value.0 == sessions[id].myRound1 && r.value.2 == sessions[id].n
                          && |r.value.1| == |sessions[id].peers|)
            && (r.Err? ==> r == Err(NoSession) && after == sessions)
  {
    if id in sessions {
      KeysAre(sessions[id].peers);
    }
  }

  /** At most n - 1 different peers can have contributed. */
  lemma PeerLimit(order: seq<u16>, i: u16, n: u16)
    requires Distinct(order) && i !in order && 1 <= i <= n && forall k :: k in order ==> 1 <= k <= n
    ensures |order| <= n - 1
  {
    UpToElements(n);
    DistinctFirst(i, order);
    DistinctCardinality([i] + order);
    DistinctCardinality(UpTo(n));
    var mine, all := Elements([i] + order), Elements(UpTo(n));
    assert mine <= all by {
      forall k | k in mine ensures k in all {
        assert k == i || k in order;
      }
    }
    SubsetSize(mine, all);
  }

  lemma SubsetSize(a: set<u16>, b: set<u16>)
    requires a <= b
    ensures |a| <= |b|
  {
    assert b == a + (b - a);
  }

  lemma IsListed(order: seq<u16>, i: u16, n: u16, k: u16)
    requires Distinct(order) && i !in order && 1 <= i <= n && forall k :: k in order ==> 1 <= k <= n
    requires |order| == n - 1 && 1 <= k <= n
    ensures k == i || k in order
  {
    assert forall j :: 0 <= j < |order| ==> order[j] in order;
    AllOthers(i, n, order);
    PermutationDistinct([i] + order, UpTo(n));
    UpToElements(n);
    assert k in [i] + order;
  }

  lemma EnoughListed(order: seq<u16>, i: u16, n: u16)
    requires Distinct(order) && i !in order && 1 <= i <= n && forall k: u16 :: 1 <= k <= n ==> k == i || k in order
    ensures |order| >= n - 1
  {
    hide Distinct;
    var all := [i] + order;
    UpToElements(n);
    DistinctFirst(i, order);
    forall k | k in Elements(UpTo(n))
      ensures k in Elements(all)
    {
      assert k in UpTo(n);
    }
    DistinctCardinality(all);
    DistinctCardinality(UpTo(n));
    SubsetSize(Elements(UpTo(n)), Elements(all));
  }

  /** i and the listed peers are all of 1..n iff there are n - 1 of them. */
  lemma EveryoneCounted(order: seq<u16>, i: u16, n: u16, members: set<u16>)
    requires Distinct(order) && i !in order && 1 <= i <= n && forall k :: k in members ==> 1 <= k <= n
    requires forall k :: k in members <==> k == i || k in order
    ensures |order| == n - 1 <==> forall k: u16 :: 1 <= k <= n ==> k in members
  {
    hide *;
    PeerLimit(order, i, n);
    if |order| == n - 1 {
      forall k: u16 | 1 <= k <= n
        ensures k in members
      {
        IsListed(order, i, n, k);
      }
    }
    if forall k: u16 :: 1 <= k <= n ==> k in members {
      EnoughListed(order, i, n);
    }
  }

  // ---------------------------------------------------------------- the store

  class CeremonyStore<R, C> {
    var inner: Sessions<R, C>

    constructor ()
      ensures inner == map[]
    {
      inner := map[];
    }

    method Start(id: Bytes16, session: Session<R, C>) returns (r: Result<()>)
      modifies this
      ensures (inner, r) == Started(old(inner), id, session)
    {
      if id in inner {
        return Err(AlreadyInFlight);
      }
      inner := inner[id := session];
      r := Ok(());
    }

    method Contribute(id: Bytes16, from: u16, c: C) returns (r: Result<nat>)
      modifies this
      ensures (inner, r) == Contributed(old(inner), id, from, c)
    {
      if id !in inner {
        return Err(NoSession);
      }
      var session := inner[id];
      session := session.(peers := session.peers[from := c]);
      inner := inner[id := session];
      r := Ok(|session.peers|);
    }

    /** The entry is removed first and put back when it is not ready. */
    method TakeFinalisable(id: Bytes16) returns (r: Result<(R, seq<C>, u16)>)
      requires Sound(inner)
      modifies this
      ensures (inner, r) == Taken(old(inner), id)
    {
      if id !in inner {
        return Err(NoSession);
      }
      var session := inner[id];
      inner := inner - {id};
      if |session.peers| < session.n - 1 {
        inner := inner[id := session];
        assert inner == old(inner);
        return Err(NoSession);
      }
      var contributions := SortedByKey(session.peers);
      r := Ok((session.myRound1, contributions, session.n));
    }

    static method SortedByKey(peers: map<u16, C>) returns (contributions: seq<C>)
      ensures contributions == InKeyOrder(peers)
    {
      var keys := SortedKeyList(peers);
      AscendingElements(peers.Keys, 0x1_0000);
      contributions := [];
      for j := 0 to |keys|
        invariant contributions == InKeyOrder(peers)[..j]
      {
        assert keys[j] in keys;
        contributions := contributions + [peers[keys[j]]];
      }
    }

    static method SortedKeyList(peers: map<u16, C>) returns (keys: seq<u16>)
      ensures keys == KeysOf(peers)
    {
      var collected: seq<u16>, rest := [], peers.Keys;
      while rest != {}
        invariant Distinct(collected)
        invariant forall k :: k in collected <==> k in peers.Keys && k !in rest
        invariant rest <= peers.Keys
        decreases |rest|
      {
        var k :| k in rest;
        DistinctLast(collected, k);
        collected := collected + [k];
        rest := rest - {k};
      }
      SortedKeys(peers.Keys, collected);
      keys := Sort(collected);
    }

    method Prune(now: nat, ttl: nat) returns (evicted: int)
      modifies this
      ensures inner == Pruned(old(inner), now, ttl)
      ensures forall id :: id in inner <==> id in old(inner) && 0 < ttl && now < old(inner)[id].createdAt + ttl
      ensures forall id :: id in inner ==> inner[id] == old(inner)[id]
      ensures evicted == |old(inner)| - |inner|
    {
      var before := |inner|;
      inner := map id | id in inner && Age(now, inner[id].createdAt) < ttl :: inner[id];
      evicted := before - |inner|;
    }
  }
}
