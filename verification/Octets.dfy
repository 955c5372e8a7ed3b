/** Fixed-width little-endian integers. */
module Octets {
  import opened Arithmetic
  import opened Wrappers

  function Pow256(n: nat): (p: int)
    ensures p >= 1
  {
    if n == 0 then 1 else 256 * Pow256(n - 1)
  }

  /** The `n` low-order octets of `x`, least significant first. */
  function Le(n: nat, x: nat): (b: seq<u8>)
    ensures |b| == n
  {
    if n == 0 then [] else [x % 256] + Le(n - 1, x / 256)
  }

  function FromLe(b: seq<u8>): (x: nat)
  {
    if b == [] then 0 else b[0] + 256 * FromLe(b[1..])
  }

  lemma {:induction false} FromLeBound(b: seq<u8>)
    ensures FromLe(b) < Pow256(|b|)
  {
    if b != [] {
      FromLeBound(b[1..]);
    }
  }

  /** Decoding undoes encoding for every number that fits. */
  lemma {:induction false} FromLeOfLe(n: nat, x: nat)
    requires x < Pow256(n)
    ensures FromLe(Le(n, x)) == x
  {
    if n > 0 {
      assert Le(n, x)[1..] == Le(n - 1, x / 256);
      FromLeOfLe(n - 1, x / 256);
    }
  }

  /** Encoding undoes decoding. */
  lemma {:induction false} LeOfFromLe(b: seq<u8>)
    ensures Le(|b|, FromLe(b)) == b
  {
    if b != [] {
      LeOfFromLe(b[1..]);
      DivModUnique(FromLe(b), 256, FromLe(b[1..]), b[0]);
      assert b == [b[0]] + b[1..];
    }
  }

  /** Octet i of an encoding is the digit of 256^i, so the least significant octet comes first. */
  lemma {:induction false} LeOctet(n: nat, x: nat, i: nat)
    requires i < n
    ensures Le(n, x)[i] == x / Pow256(i) % 256
  {
    if i > 0 {
      LeOctet(n - 1, x / 256, i - 1);
      DivDiv(x, 256, Pow256(i - 1), Pow256(i));
    }
  }

  lemma LeInjective(n: nat, x: nat, y: nat)
    requires x < Pow256(n) && y < Pow256(n) && Le(n, x) == Le(n, y)
    ensures x == y
  {
    FromLeOfLe(n, x);
    FromLeOfLe(n, y);
  }

  /** The bytes of an ASCII string literal. */
  function Ascii(s: string): (b: seq<u8>)
    ensures |b| == |s|
  {
    seq(|s|, i requires 0 <= i < |s| => s[i] as int % 256)
  }

  lemma Pow256Step(n: nat)
    ensures Pow256(n + 4) == 0x1_0000_0000 * Pow256(n)
  {
    assert Pow256(n + 2) == 256 * Pow256(n + 1);
    assert Pow256(n + 4) == 256 * Pow256(n + 3) && Pow256(n + 3) == 256 * Pow256(n + 2);
  }

  /** The widths used by the protocol. */
  lemma Widths()
    ensures Pow256(1) == 0x100
    ensures Pow256(2) == 0x1_0000
    ensures Pow256(4) == 0x1_0000_0000
    ensures Pow256(8) == 0x1_0000_0000_0000_0000
    ensures Pow256(16) == 0x1_0000000000000000_0000000000000000
    ensures Pow256(32) ==
            0x1_0000000000000000_0000000000000000_0000000000000000_0000000000000000
  {
    assert Pow256(0) == 1 && Pow256(1) == 256 && Pow256(2) == 256 * Pow256(1);
    hide Pow256;
    Pow256Step(0);
    Pow256Step(4);
    Pow256Step(8);
    Pow256Step(12);
    Pow256Step(16);
    Pow256Step(20);
    Pow256Step(24);
    Pow256Step(28);
  }
}
