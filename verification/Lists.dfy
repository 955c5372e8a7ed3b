/** Duplicate-free lists, permutations and sums that do not depend on the order. */
module Lists {
  import opened Wrappers

  ghost predicate Permutation<T>(p: seq<T>, q: seq<T>) {
    multiset(p) == multiset(q)
  }

  lemma PermutationSame<T>(s: seq<T>)
    ensures Permutation(s, s)
  {
  }

  function RemoveAt<T>(q: seq<T>, j: nat): (r: seq<T>)
    requires j < |q|
    ensures |r| == |q| - 1
  {
    q[..j] + q[j + 1..]
  }

  lemma RemoveAtMultiset<T>(q: seq<T>, j: nat)
    requires j < |q|
    ensures multiset(q) == multiset(RemoveAt(q, j)) + multiset{q[j]}
  {
    assert q == q[..j] + [q[j]] + q[j + 1..];
  }

  /** A duplicate-free list drawn from a list of the same length is a permutation of it, and that
      list is duplicate-free too. */
  lemma {:induction false} Pigeonhole<T>(p: seq<T>, s: seq<T>)
    requires Distinct(p) && |p| == |s|
    requires forall x :: x in p ==> x in s
    ensures Permutation(p, s) && Distinct(s)
  {
    if p != [] {
      var p', x := p[..|p| - 1], p[|p| - 1];
      assert p == p' + [x];
      assert x in p;
      var j :| 0 <= j < |s| && s[j] == x;
      var s' := RemoveAt(s, j);
      RemoveAtMultiset(s, j);
      forall y | y in p'
        ensures y in s'
      {
        assert y in p && y != x;
        assert y in multiset(s);
      }
      Pigeonhole(p', s');
      PermutationDistinct(p, s);
    }
  }

  lemma DistinctEmpty<T>(p: seq<T>)
    requires p == []
    ensures Distinct(p)
  {
  }

  lemma DistinctLast<T>(p: seq<T>, x: T)
    ensures Distinct(p + [x]) <==> Distinct(p) && x !in p
  {
    assert (p + [x])[..|p|] == p;
  }

  lemma {:induction false} DistinctFirst<T>(x: T, p: seq<T>)
    requires Distinct(p) && x !in p
    ensures Distinct([x] + p)
  {
    if p != [] {
      var p', y := p[..|p| - 1], p[|p| - 1];
      assert p == p' + [y];
      DistinctFirst(x, p');
      DistinctLast([x] + p', y);
      assert [x] + p == [x] + p' + [y];
    }
  }

  ghost function Elements<T>(p: seq<T>): set<T> {
    set x | x in p
  }

  lemma {:induction false} DistinctCardinality<T>(p: seq<T>)
    requires Distinct(p)
    ensures |Elements(p)| == |p|
  {
    if p != [] {
      var p', x := p[..|p| - 1], p[|p| - 1];
      assert p == p' + [x];
      DistinctCardinality(p');
      assert Elements(p) == Elements(p') + {x};
    }
  }

  lemma {:induction false} DistinctIndices<T>(s: seq<T>)
    ensures Distinct(s) <==> forall i, j :: 0 <= i < j < |s| ==> s[i] != s[j]
  {
    if s != [] {
      var s' := s[..|s| - 1];
      DistinctIndices(s');
      assert forall i :: 0 <= i < |s'| ==> s'[i] == s[i];
    }
  }

  lemma {:induction false} DistinctMultiset<T>(p: seq<T>)
    ensures Distinct(p) <==> forall x :: multiset(p)[x] <= 1
  {
    if p != [] {
      var p', x := p[..|p| - 1], p[|p| - 1];
      assert p == p' + [x];
      DistinctMultiset(p');
      assert forall y :: multiset(p')[y] <= multiset(p)[y];
      assert multiset(p)[x] == multiset(p')[x] + 1;
      assert x in p' <==> x in multiset(p');
      assert Distinct(p) <==> Distinct(p') && x !in p';
    }
  }

  lemma PermutationDistinct<T>(p: seq<T>, q: seq<T>)
    requires Permutation(p, q)
    ensures |p| == |q|
    ensures Distinct(p) <==> Distinct(q)
    ensures forall x :: x in p <==> x in q
  {
    DistinctMultiset(p);
    DistinctMultiset(q);
    assert |multiset(p)| == |p| && |multiset(q)| == |q|;
    forall x
      ensures x in p <==> x in q
    {
      assert x in p <==> x in multiset(p);
    }
  }

  // ---------------------------------------------------------------- sums

  /** The value at an index, zero where the map says nothing. */
  ghost function At<T>(f: map<T, int>, i: T): int {
    if i in f then f[i] else 0
  }

  ghost function SumOver<T>(p: seq<T>, f: map<T, int>): int {
    if p == [] then 0 else SumOver(p[..|p| - 1], f) + At(f, p[|p| - 1])
  }

  lemma SumEmpty<T>(f: map<T, int>)
    ensures SumOver<T>([], f) == 0
  {
  }

  lemma SumLast<T>(p: seq<T>, x: T, f: map<T, int>)
    ensures SumOver(p + [x], f) == SumOver(p, f) + At(f, x)
  {
    assert (p + [x])[..|p|] == p;
  }

  lemma {:induction false} SumRemove<T>(q: seq<T>, j: nat, f: map<T, int>)
    requires j < |q|
    ensures SumOver(q, f) == SumOver(RemoveAt(q, j), f) + At(f, q[j])
  {
    var q', x := q[..|q| - 1], q[|q| - 1];
    if j < |q'| {
      SumRemove(q', j, f);
      var r := RemoveAt(q, j);
      assert r[..|r| - 1] == RemoveAt(q', j);
    } else {
      assert RemoveAt(q, j) == q';
    }
  }

  lemma SumFirst<T>(x: T, p: seq<T>, f: map<T, int>)
    ensures SumOver([x] + p, f) == At(f, x) + SumOver(p, f)
  {
    SumRemove([x] + p, 0, f);
    assert RemoveAt([x] + p, 0) == p;
  }

  /** Sums of functions that differ at one index. */
  lemma {:induction false} SumDiffers<T>(order: seq<T>, v: map<T, int>, w: map<T, int>, k: T)
    requires Distinct(order)
    requires forall j :: j in order && j != k ==> At(v, j) == At(w, j)
    ensures SumOver(order, v) - SumOver(order, w) == if k in order then At(v, k) - At(w, k) else 0
  {
    hide At;
    if order != [] {
      var rest, j := order[..|order| - 1], order[|order| - 1];
      assert order == rest + [j];
      SumDiffers(rest, v, w, k);
    }
  }

  lemma PermutationRemove<T>(p: seq<T>, q: seq<T>) returns (j: nat)
    requires Permutation(p, q) && p != []
    ensures j < |q| && q[j] == p[|p| - 1]
    ensures Permutation(p[..|p| - 1], RemoveAt(q, j))
  {
    var p', x := p[..|p| - 1], p[|p| - 1];
    assert p == p' + [x];
    assert x in multiset(q);
    j :| 0 <= j < |q| && q[j] == x;
    RemoveAtMultiset(q, j);
    assert multiset(p') == multiset(p) - multiset{x};
  }

  /** A sum does not depend on the order of its terms. */
  lemma {:induction false} SumPermutation<T>(p: seq<T>, q: seq<T>, f: map<T, int>)
    requires Permutation(p, q)
    ensures SumOver(p, f) == SumOver(q, f)
    decreases |p|
  {
    hide Permutation;
    PermutationDistinct(p, q);
    if p != [] {
      var j := PermutationRemove(p, q);
      SumRemove(q, j, f);
      SumPermutation(p[..|p| - 1], RemoveAt(q, j), f);
    }
  }

  ghost function Total(xs: seq<int>): int {
    if xs == [] then 0 else Total(xs[..|xs| - 1]) + xs[|xs| - 1]
  }

  lemma TotalNext(xs: seq<int>, x: int)
    ensures Total([]) == 0 && Total(xs + [x]) == Total(xs) + x
  {
    assert (xs + [x])[..|xs|] == xs;
  }

  // ---------------------------------------------------------------- sorting

  ghost predicate Sorted(s: seq<u16>) {
    |s| <= 1 || (s[0] <= s[1] && Sorted(s[1..]))
  }

  function Insert(x: u16, s: seq<u16>): (r: seq<u16>)
    ensures |r| == |s| + 1
  {
    if s == [] || x <= s[0] then [x] + s else [s[0]] + Insert(x, s[1..])
  }

  /** What the library's `sort_unstable` returns. */
  function Sort(s: seq<u16>): (r: seq<u16>)
    ensures |r| == |s|
  {
    if s == [] then [] else Insert(s[0], Sort(s[1..]))
  }

  lemma {:induction false} InsertElements(x: u16, s: seq<u16>)
    ensures multiset(Insert(x, s)) == multiset(s) + multiset{x}
  {
    if s != [] && x > s[0] {
      assert s == [s[0]] + s[1..];
      InsertElements(x, s[1..]);
    }
  }

  lemma {:induction false} InsertSorted(x: u16, s: seq<u16>)
    requires Sorted(s)
    ensures Sorted(Insert(x, s))
  {
    if s != [] && x > s[0] {
      var r := Insert(x, s[1..]);
      InsertSorted(x, s[1..]);
      assert Insert(x, s)[1..] == r;
    }
  }

  lemma {:induction false} SortSorts(s: seq<u16>)
    ensures Sorted(Sort(s)) && Permutation(Sort(s), s)
  {
    if s != [] {
      SortSorts(s[1..]);
      InsertSorted(s[0], Sort(s[1..]));
      InsertElements(s[0], Sort(s[1..]));
      assert s == [s[0]] + s[1..];
    }
  }

  /** The indices 1 to n in order. */
  function UpTo(n: u16): (s: seq<u16>)
    ensures |s| == n
  {
    if n == 0 then [] else UpTo(n - 1) + [n]
  }

  lemma {:induction false} UpToElements(n: u16)
    ensures Distinct(UpTo(n))
    ensures forall j :: 0 <= j < n ==> UpTo(n)[j] == j + 1
    ensures forall k: u16 :: k in UpTo(n) <==> 1 <= k <= n
  {
    if n > 0 {
      UpToElements(n - 1);
    }
  }

  lemma {:induction false} SortedMax(s: seq<u16>, j: nat)
    requires Sorted(s) && j < |s|
    ensures s[j] <= s[|s| - 1]
    ensures Sorted(s[..|s| - 1])
  {
    if |s| > 1 {
      SortedMax(s[1..], if j == 0 then 0 else j - 1);
      assert s[..|s| - 1][1..] == s[1..][..|s| - 2];
    }
  }

  lemma MultisetLast(p: seq<u16>)
    requires p != []
    ensures multiset(p) == multiset(p[..|p| - 1]) + multiset{p[|p| - 1]}
  {
    assert p == p[..|p| - 1] + [p[|p| - 1]];
  }

  lemma MultisetCancel(a: multiset<u16>, b: multiset<u16>, x: u16)
    requires a + multiset{x} == b + multiset{x}
    ensures a == b
  {
    assert a == (a + multiset{x}) - multiset{x};
    assert b == (b + multiset{x}) - multiset{x};
  }

  lemma PermutationDropLast(p: seq<u16>, q: seq<u16>)
    requires Permutation(p, q) && p != [] && q != [] && p[|p| - 1] == q[|q| - 1]
    ensures Permutation(p[..|p| - 1], q[..|q| - 1])
  {
    MultisetLast(p);
    MultisetLast(q);
    MultisetCancel(multiset(p[..|p| - 1]), multiset(q[..|q| - 1]), p[|p| - 1]);
  }

  /** The greatest index comes last in a sorted permutation. */
  lemma SortedLast(s: seq<u16>, n: u16)
    requires Sorted(s) && Permutation(s, UpTo(n)) && n > 0
    ensures s != [] && s[|s| - 1] == n
    ensures Sorted(s[..|s| - 1]) && Permutation(s[..|s| - 1], UpTo(n - 1))
  {
    hide Sorted, Permutation;
    PermutationDistinct(s, UpTo(n));
    UpToElements(n);
    assert n in s && s[|s| - 1] in s;
    var j :| 0 <= j < |s| && s[j] == n;
    SortedMax(s, j);
    PermutationDropLast(s, UpTo(n));
  }

  lemma {:induction false} SortedRange(s: seq<u16>, n: u16)
    requires Sorted(s) && Permutation(s, UpTo(n))
    ensures s == UpTo(n)
    decreases n
  {
    hide Sorted, Permutation;
    PermutationDistinct(s, UpTo(n));
    if n > 0 {
      SortedLast(s, n);
      SortedRange(s[..|s| - 1], n - 1);
      assert s == s[..|s| - 1] + [s[|s| - 1]];
    }
  }

  lemma SortRange(s: seq<u16>, n: u16)
    requires Permutation(s, UpTo(n))
    ensures Sort(s) == UpTo(n)
  {
    SortSorts(s);
    SortedRange(Sort(s), n);
  }

  /** n - 1 different indices from 1..n other than i are all the others. */
  lemma AllOthers(i: u16, n: u16, order: seq<u16>)
    requires forall j :: 0 <= j < |order| ==> 1 <= order[j] <= n
    requires Distinct(order) && i !in order && 1 <= i <= n && |order| == n - 1
    ensures Permutation([i] + order, UpTo(n)) && Distinct([i] + order)
  {
    var all := [i] + order;
    UpToElements(n);
    forall x | x in all
      ensures x in UpTo(n)
    {
      assert x == i || x in order;
    }
    DistinctFirst(i, order);
    Pigeonhole(all, UpTo(n));
  }
}
