/** Fixed-width fields, read from the front of a byte string and appended to the end of one. */
module Borsh {
  import opened Wrappers
  import opened Octets

  type KeysetId = s: seq<u8> | |s| == 33 witness seq(33, i => 0)

  function ReadBytes(data: seq<u8>, n: nat): (r: Result<(seq<u8>, seq<u8>)>)
    ensures r.Ok? ==> |r.value.0| == n
  {
    if |data| < n then Err(Malformed) else Ok((data[..n], data[n..]))
  }

  function ReadU8(data: seq<u8>): Result<(u8, seq<u8>)> {
    var (b, rest) :- ReadBytes(data, 1);
    Ok((b[0], rest))
  }

  function ReadU32(data: seq<u8>): Result<(u32, seq<u8>)> {
    var (b, rest) :- ReadBytes(data, 4);
    FromLeBound(b);
    Widths();
    Ok((FromLe(b), rest))
  }

  function ReadU64(data: seq<u8>): Result<(u64, seq<u8>)> {
    var (b, rest) :- ReadBytes(data, 8);
    FromLeBound(b);
    Widths();
    Ok((FromLe(b), rest))
  }

  function Read32(data: seq<u8>): Result<(Bytes32, seq<u8>)> {
    var (b, rest) :- ReadBytes(data, 32);
    FromLeBound(b);
    Widths();
    Ok((FromLe(b), rest))
  }

  // ---------------------------------------------------------------- reading undoes writing

  lemma Assoc(a: seq<u8>, b: seq<u8>, c: seq<u8>)
    ensures (a + b) + c == a + (b + c)
  {
  }

  lemma BytesRead(a: seq<u8>, rest: seq<u8>)
    ensures ReadBytes(a + rest, |a|) == Ok((a, rest))
  {
    assert (a + rest)[..|a|] == a && (a + rest)[|a|..] == rest;
  }

  lemma U8Read(x: u8, rest: seq<u8>)
    ensures ReadU8([x] + rest) == Ok((x, rest))
  {
    BytesRead([x], rest);
  }

  lemma U32Read(x: u32, rest: seq<u8>)
    ensures ReadU32(Le(4, x) + rest) == Ok((x, rest))
  {
    hide Le, FromLe, Pow256;
    Widths();
    BytesRead(Le(4, x), rest);
    FromLeOfLe(4, x);
  }

  lemma U64Read(x: u64, rest: seq<u8>)
    ensures ReadU64(Le(8, x) + rest) == Ok((x, rest))
  {
    hide Le, FromLe, Pow256;
    Widths();
    BytesRead(Le(8, x), rest);
    FromLeOfLe(8, x);
  }

  lemma Bytes32Read(x: Bytes32, rest: seq<u8>)
    ensures Read32(Le(32, x) + rest) == Ok((x, rest))
  {
    hide Le, FromLe, Pow256;
    Widths();
    BytesRead(Le(32, x), rest);
    FromLeOfLe(32, x);
  }

  // ---------------------------------------------------------------- writing undoes reading

  lemma BytesWritten(data: seq<u8>, n: nat)
    requires ReadBytes(data, n).Ok?
    ensures var (b, rest) := ReadBytes(data, n).value; data == b + rest
  {
  }

  lemma U8Written(data: seq<u8>)
    requires ReadU8(data).Ok?
    ensures var (x, rest) := ReadU8(data).value; data == [x] + rest
  {
    assert data[..1] == [data[0]];
  }

  lemma U32Written(data: seq<u8>)
    requires ReadU32(data).Ok?
    ensures var (x, rest) := ReadU32(data).value; data == Le(4, x) + rest
  {
    hide Le, FromLe, Pow256;
    LeOfFromLe(data[..4]);
  }

  lemma U64Written(data: seq<u8>)
    requires ReadU64(data).Ok?
    ensures var (x, rest) := ReadU64(data).value; data == Le(8, x) + rest
  {
    hide Le, FromLe, Pow256;
    LeOfFromLe(data[..8]);
  }

  lemma Bytes32Written(data: seq<u8>)
    requires Read32(data).Ok?
    ensures var (x, rest) := Read32(data).value; data == Le(32, x) + rest
  {
    hide Le, FromLe, Pow256;
    LeOfFromLe(data[..32]);
  }

  // ---------------------------------------------------------------- byte vectors

  function ReadVec(data: seq<u8>): Result<(seq<u8>, seq<u8>)> {
    var (n, rest) :- ReadU32(data);
    ReadBytes(rest, n)
  }

  lemma {:induction false} VecRead(b: seq<u8>, rest: seq<u8>)
    requires |b| < 0x1_0000_0000
    ensures ReadVec(Le(4, |b|) + b + rest) == Ok((b, rest))
  {
    hide Le, FromLe, Pow256, ReadU32, ReadBytes;
    Assoc(Le(4, |b|), b, rest);
    U32Read(|b|, b + rest);
    BytesRead(b, rest);
  }

  lemma VecWritten(data: seq<u8>)
    requires ReadVec(data).Ok?
    ensures var (b, rest) := ReadVec(data).value;
            |b| < 0x1_0000_0000 && data == Le(4, |b|) + b + rest
  {
    hide Le, FromLe, Pow256, ReadU32, ReadBytes;
    U32Written(data);
    var (n, tail) := ReadU32(data).value;
    BytesWritten(tail, n);
    var (b, rest) := ReadBytes(tail, n).value;
    Assoc(Le(4, n), b, rest);
  }

  // ---------------------------------------------------------------- where fields stand

  /** The bytes of `field` stand at the offset. */
  predicate FieldAt(data: seq<u8>, offset: nat, field: seq<u8>) {
    offset + |field| <= |data| && data[offset..offset + |field|] == field
  }

  lemma FirstField(a: seq<u8>, tail: seq<u8>)
    ensures FieldAt(a + tail, 0, a)
  {
  }

  lemma LaterField(a: seq<u8>, tail: seq<u8>, offset: nat, field: seq<u8>)
    requires FieldAt(tail, offset, field)
    ensures FieldAt(a + tail, |a| + offset, field)
  {
    assert (a + tail)[|a| + offset..|a| + offset + |field|] == tail[offset..offset + |field|];
  }

  lemma Fields1(a: seq<u8>, tail: seq<u8>)
    ensures FieldAt(a + tail, 0, a) && FieldAt(a + tail, |a|, tail)
  {
  }

  lemma Fields2(a: seq<u8>, b: seq<u8>, tail: seq<u8>)
    ensures var data := a + (b + tail);
            && FieldAt(data, 0, a) && FieldAt(data, |a|, b) && FieldAt(data, |a| + |b|, tail)
  {
    hide FieldAt;
    var rest := b + tail;
    Fields1(b, tail);
    FirstField(a, rest);
    LaterField(a, rest, 0, b);
    LaterField(a, rest, |b|, tail);
  }

  lemma Fields3(a: seq<u8>, b: seq<u8>, c: seq<u8>, tail: seq<u8>)
    ensures var data := a + (b + (c + tail));
            && FieldAt(data, 0, a) && FieldAt(data, |a|, b) && FieldAt(data, |a| + |b|, c)
            && FieldAt(data, |a| + |b| + |c|, tail)
  {
    hide FieldAt;
    var rest := b + (c + tail);
    Fields2(b, c, tail);
    FirstField(a, rest);
    LaterField(a, rest, 0, b);
    LaterField(a, rest, |b|, c);
    LaterField(a, rest, |b| + |c|, tail);
  }

  lemma Fields4(a: seq<u8>, b: seq<u8>, c: seq<u8>, d: seq<u8>, tail: seq<u8>)
    ensures var data := a + (b + (c + (d + tail)));
            && FieldAt(data, 0, a) && FieldAt(data, |a|, b) && FieldAt(data, |a| + |b|, c)
            && FieldAt(data, |a| + |b| + |c|, d) && FieldAt(data, |a| + |b| + |c| + |d|, tail)
  {
    hide FieldAt;
    var rest := b + (c + (d + tail));
    Fields3(b, c, d, tail);
    FirstField(a, rest);
    LaterField(a, rest, 0, b);
    LaterField(a, rest, |b|, c);
    LaterField(a, rest, |b| + |c|, d);
    LaterField(a, rest, |b| + |c| + |d|, tail);
  }

  lemma Fields5(a: seq<u8>, b: seq<u8>, c: seq<u8>, d: seq<u8>, e: seq<u8>, tail: seq<u8>)
    ensures var data := a + (b + (c + (d + (e + tail))));
            && FieldAt(data, 0, a) && FieldAt(data, |a|, b) && FieldAt(data, |a| + |b|, c)
            && FieldAt(data, |a| + |b| + |c|, d) && FieldAt(data, |a| + |b| + |c| + |d|, e)
            && FieldAt(data, |a| + |b| + |c| + |d| + |e|, tail)
  {
    hide FieldAt;
    var rest := b + (c + (d + (e + tail)));
    Fields4(b, c, d, e, tail);
    FirstField(a, rest);
    LaterField(a, rest, 0, b);
    LaterField(a, rest, |b|, c);
    LaterField(a, rest, |b| + |c|, d);
    LaterField(a, rest, |b| + |c| + |d|, e);
    LaterField(a, rest, |b| + |c| + |d| + |e|, tail);
  }

  lemma Fields6(a: seq<u8>, b: seq<u8>, c: seq<u8>, d: seq<u8>, e: seq<u8>, f: seq<u8>, tail: seq<u8>)
    ensures var data := a + (b + (c + (d + (e + (f + tail)))));
            && FieldAt(data, 0, a) && FieldAt(data, |a|, b) && FieldAt(data, |a| + |b|, c)
            && FieldAt(data, |a| + |b| + |c|, d) && FieldAt(data, |a| + |b| + |c| + |d|, e)
            && FieldAt(data, |a| + |b| + |c| + |d| + |e|, f)
            && FieldAt(data, |a| + |b| + |c| + |d| + |e| + |f|, tail)
  {
    hide FieldAt;
    var rest := b + (c + (d + (e + (f + tail))));
    Fields5(b, c, d, e, f, tail);
    FirstField(a, rest);
    LaterField(a, rest, 0, b);
    LaterField(a, rest, |b|, c);
    LaterField(a, rest, |b| + |c|, d);
    LaterField(a, rest, |b| + |c| + |d|, e);
    LaterField(a, rest, |b| + |c| + |d| + |e|, f);
    LaterField(a, rest, |b| + |c| + |d| + |e| + |f|, tail);
  }

  lemma FieldPart(data: seq<u8>, offset: nat, field: seq<u8>, k: nat, part: seq<u8>)
    requires FieldAt(data, offset, field) && FieldAt(field, k, part)
    ensures FieldAt(data, offset + k, part)
  {
    var n := |part|;
    forall j | 0 <= j < n
      ensures data[offset + k..offset + k + n][j] == part[j]
    {
      assert part[j] == field[k + j] && field[k + j] == data[offset + k + j];
    }
  }

  lemma VecField(data: seq<u8>, offset: nat, length: seq<u8>, b: seq<u8>)
    requires FieldAt(data, offset, length + b)
    ensures FieldAt(data, offset, length) && FieldAt(data, offset + |length|, b)
  {
    hide FieldAt;
    FirstField(length, b);
    FieldPart(data, offset, length + b, 0, length);
    Whole(b);
    LaterField(length, b, 0, b);
    FieldPart(data, offset, length + b, |length|, b);
  }

  lemma Whole(b: seq<u8>)
    ensures FieldAt(b, 0, b)
  {
  }

  // ---------------------------------------------------------------- the stateful ends

  class Writer {
    var out: seq<u8>

    constructor ()
      ensures out == []
    {
      out := [];
    }

    method WriteAll(b: seq<u8>)
      modifies this
      ensures out == old(out) + b
    {
      out := out + b;
    }
  }

  class Reader {
    var rest: seq<u8>

    constructor (data: seq<u8>)
      ensures rest == data
    {
      rest := data;
    }

    method ReadExact(n: nat) returns (r: Result<seq<u8>>)
      modifies this
      ensures var read := ReadBytes(old(rest), n);
              if read.Ok? then r == Ok(read.value.0) && rest == read.value.1
              else r == Err(Malformed) && rest == old(rest)
    {
      if |rest| < n {
        return Err(Malformed);
      }
      r := Ok(rest[..n]);
      rest := rest[n..];
    }
  }
}
