/** The program's nine instructions and their hand-written byte encoding. */
module Instruction {
  import opened Wrappers
  import opened Octets
  import opened Borsh
  import opened Schnorr

  datatype BootstrapKind = KeysetRegistryAccount | NullifierTreeAccount | VaultAccount | SponsorPoolAccount

  datatype Instruction =
    | RegisterKeyset(keysetId: KeysetId, denom: u64, jointPk: Bytes32, epoch: u64, authorization: seq<u8>)
    | Deposit(denom: u64, lamports: u64)
    | Refresh(coinPubkey: Bytes32, coinSignature: Signature, denom: u64)
    | Withdraw(coinPubkey: Bytes32, coinSignature: Signature, denom: u64, recipient: Bytes32)
    | Revoke(keysetId: KeysetId, authorization: seq<u8>)
    | Bootstrap(accountKind: BootstrapKind, size: u32, denom: u64)
    | SponsorDeposit(amount: u64)
    | SponsorPayout(lamports: u64, recipient: Bytes32)
    | ResizeAccount(accountKind: BootstrapKind, newSize: u32, denom: u64)
  {
    /** The only limit of the encoding: a four-byte length for the authorization. */
    predicate Encodable() {
      (RegisterKeyset? || Revoke?) ==> |authorization| < 0x1_0000_0000
    }
  }

  function AsByte(kind: BootstrapKind): u8 {
    match kind
    case KeysetRegistryAccount => 0
    case NullifierTreeAccount => 1
    case VaultAccount => 2
    case SponsorPoolAccount => 3
  }

  function TryFromByte(b: u8): Result<BootstrapKind> {
    match b
    case 0 => Ok(KeysetRegistryAccount)
    case 1 => Ok(NullifierTreeAccount)
    case 2 => Ok(VaultAccount)
    case 3 => Ok(SponsorPoolAccount)
    case _ => Err(Malformed)
  }

  /** The encoding of an instruction, followed by `tail`. */
  function EncodeBefore(ix: Instruction, tail: seq<u8>): seq<u8>
    requires ix.Encodable()
  {
    match ix
    case RegisterKeyset(keysetId, denom, jointPk, epoch, authorization) =>
      [0] + (keysetId + (Le(8, denom) + (Le(32, jointPk) + (Le(8, epoch) +
        (Le(4, |authorization|) + authorization + tail)))))
    case Deposit(denom, lamports) => [1] + (Le(8, denom) + (Le(8, lamports) + tail))
    case Refresh(coinPubkey, sig, denom) =>
      [2] + (Le(32, coinPubkey) + (Le(32, sig.r) + (Le(32, sig.s) + (Le(8, denom) + tail))))
    case Withdraw(coinPubkey, sig, denom, recipient) =>
      [3] + (Le(32, coinPubkey) + (Le(32, sig.r) + (Le(32, sig.s) + (Le(8, denom) + (Le(32, recipient) + tail)))))
    case Revoke(keysetId, authorization) =>
      [4] + (keysetId + (Le(4, |authorization|) + authorization + tail))
    case Bootstrap(kind, size, denom) => [5] + ([AsByte(kind)] + (Le(4, size) + (Le(8, denom) + tail)))
    case SponsorDeposit(amount) => [6] + (Le(8, amount) + tail)
    case SponsorPayout(lamports, recipient) => [7] + (Le(8, lamports) + (Le(32, recipient) + tail))
    case ResizeAccount(kind, newSize, denom) => [8] + ([AsByte(kind)] + (Le(4, newSize) + (Le(8, denom) + tail)))
  }

  function Encode(ix: Instruction): Result<seq<u8>> {
    if ix.Encodable() then Ok(EncodeBefore(ix, [])) else Err(Malformed)
  }

  /** Reads one instruction from the front and returns what is left. */
  function Decode(data: seq<u8>): Result<(Instruction, seq<u8>)> {
    var (tag, d0) :- ReadU8(data);
    match tag
    case 0 =>
      var (keysetId, d1) :- ReadBytes(d0, 33);
      var (denom, d2) :- ReadU64(d1);
      var (jointPk, d3) :- Read32(d2);
      var (epoch, d4) :- ReadU64(d3);
      var (authorization, d5) :- ReadVec(d4);
      Ok((RegisterKeyset(keysetId, denom, jointPk, epoch, authorization), d5))
    case 1 =>
      var (denom, d1) :- ReadU64(d0);
      var (lamports, d2) :- ReadU64(d1);
      Ok((Deposit(denom, lamports), d2))
    case 2 =>
      var (coinPubkey, d1) :- Read32(d0);
      var (r, d2) :- Read32(d1);
      var (s, d3) :- Read32(d2);
      var (denom, d4) :- ReadU64(d3);
      Ok((Refresh(coinPubkey, Signature(r, s), denom), d4))
    case 3 =>
      var (coinPubkey, d1) :- Read32(d0);
      var (r, d2) :- Read32(d1);
      var (s, d3) :- Read32(d2);
      var (denom, d4) :- ReadU64(d3);
      var (recipient, d5) :- Read32(d4);
      Ok((Withdraw(coinPubkey, Signature(r, s), denom, recipient), d5))
    case 4 =>
      var (keysetId, d1) :- ReadBytes(d0, 33);
      var (authorization, d2) :- ReadVec(d1);
      Ok((Revoke(keysetId, authorization), d2))
    case 5 =>
      var (b, d1) :- ReadU8(d0);
      var kind :- TryFromByte(b);
      var (size, d2) :- ReadU32(d1);
      var (denom, d3) :- ReadU64(d2);
      Ok((Bootstrap(kind, size, denom), d3))
    case 6 =>
      var (amount, d1) :- ReadU64(d0);
      Ok((SponsorDeposit(amount), d1))
    case 7 =>
      var (lamports, d1) :- ReadU64(d0);
      var (recipient, d2) :- Read32(d1);
      Ok((SponsorPayout(lamports, recipient), d2))
    case 8 =>
      var (b, d1) :- ReadU8(d0);
      var kind :- TryFromByte(b);
      var (newSize, d2) :- ReadU32(d1);
      var (denom, d3) :- ReadU64(d2);
      Ok((ResizeAccount(kind, newSize, denom), d3))
    case _ => Err(Malformed)
  }

  /** The entry point accepts a byte string only when nothing is left over. */
  function TryFromSlice(data: seq<u8>): Result<Instruction> {
    var (ix, rest) :- Decode(data);
    if rest == [] then Ok(ix) else Err(Malformed)
  }

  // ---------------------------------------------------------------- round trips

  /** Decoding reads back the instruction and leaves exactly what follows its encoding. */
  lemma DecodeEncode(ix: Instruction, tail: seq<u8>)
    requires ix.Encodable()
    ensures Decode(EncodeBefore(ix, tail)) == Ok((ix, tail))
  {
    hide Le, ReadU8, ReadU32, ReadU64, Read32, ReadVec, ReadBytes;
    match ix
    case RegisterKeyset(keysetId, denom, jointPk, epoch, authorization) =>
      var t5 := Le(4, |authorization|) + authorization + tail;
      var t4 := Le(8, epoch) + t5;
      var t3 := Le(32, jointPk) + t4;
      var t2 := Le(8, denom) + t3;
      U8Read(0, keysetId + t2);
      BytesRead(keysetId, t2);
      U64Read(denom, t3);
      Bytes32Read(jointPk, t4);
      U64Read(epoch, t5);
      VecRead(authorization, tail);
    case Deposit(denom, lamports) =>
      U8Read(1, Le(8, denom) + (Le(8, lamports) + tail));
      U64Read(denom, Le(8, lamports) + tail);
      U64Read(lamports, tail);
    case Refresh(coinPubkey, sig, denom) =>
      var t4 := Le(8, denom) + tail;
      SpendRead(2, coinPubkey, sig, t4);
      U64Read(denom, tail);
    case Withdraw(coinPubkey, sig, denom, recipient) =>
      var t5 := Le(32, recipient) + tail;
      SpendRead(3, coinPubkey, sig, Le(8, denom) + t5);
      U64Read(denom, t5);
      Bytes32Read(recipient, tail);
    case Revoke(keysetId, authorization) =>
      var t2 := Le(4, |authorization|) + authorization + tail;
      U8Read(4, keysetId + t2);
      BytesRead(keysetId, t2);
      VecRead(authorization, tail);
    case Bootstrap(kind, size, denom) =>
      KindRead(5, kind, size, denom, tail);
    case SponsorDeposit(amount) =>
      U8Read(6, Le(8, amount) + tail);
      U64Read(amount, tail);
    case SponsorPayout(lamports, recipient) =>
      U8Read(7, Le(8, lamports) + (Le(32, recipient) + tail));
      U64Read(lamports, Le(32, recipient) + tail);
      Bytes32Read(recipient, tail);
    case ResizeAccount(kind, newSize, denom) =>
      KindRead(8, kind, newSize, denom, tail);
  }

  lemma SpendRead(tag: u8, coinPubkey: Bytes32, sig: Signature, tail: seq<u8>)
    ensures var t3 := Le(32, sig.s) + tail;
            var t2 := Le(32, sig.r) + t3;
            var t1 := Le(32, coinPubkey) + t2;
            && ReadU8([tag] + t1) == Ok((tag, t1)) && Read32(t1) == Ok((coinPubkey, t2))
            && Read32(t2) == Ok((sig.r, t3)) && Read32(t3) == Ok((sig.s, tail))
  {
    hide Le, ReadU8, Read32;
    var t3 := Le(32, sig.s) + tail;
    var t2 := Le(32, sig.r) + t3;
    U8Read(tag, Le(32, coinPubkey) + t2);
    Bytes32Read(coinPubkey, t2);
    Bytes32Read(sig.r, t3);
    Bytes32Read(sig.s, tail);
  }

  lemma KindRead(tag: u8, kind: BootstrapKind, size: u32, denom: u64, tail: seq<u8>)
    ensures var t3 := Le(8, denom) + tail;
            var t2 := Le(4, size) + t3;
            var t1 := [AsByte(kind)] + t2;
            && ReadU8([tag] + t1) == Ok((tag, t1)) && ReadU8(t1) == Ok((AsByte(kind), t2))
            && TryFromByte(AsByte(kind)) == Ok(kind)
            && ReadU32(t2) == Ok((size, t3)) && ReadU64(t3) == Ok((denom, tail))
  {
    hide Le, ReadU8, ReadU32, ReadU64;
    var t3 := Le(8, denom) + tail;
    var t2 := Le(4, size) + t3;
    U8Read(tag, [AsByte(kind)] + t2);
    U8Read(AsByte(kind), t2);
    U32Read(size, t3);
    U64Read(denom, tail);
  }

  /** Whatever decodes is the encoding of what it decodes to, followed by what was left. */
  lemma EncodeDecode(data: seq<u8>)
    requires Decode(data).Ok?
    ensures var (ix, rest) := Decode(data).value;
            ix.Encodable() && data == EncodeBefore(ix, rest)
  {
    hide Le, ReadU8, ReadU32, ReadU64, Read32, ReadVec, ReadBytes;
    U8Written(data);
    var (tag, d0) := ReadU8(data).value;
    match tag
    case 0 =>
      BytesWritten(d0, 33);
      var d1 := ReadBytes(d0, 33).value.1;
      U64Written(d1);
      var d2 := ReadU64(d1).value.1;
      Bytes32Written(d2);
      var d3 := Read32(d2).value.1;
      U64Written(d3);
      VecWritten(ReadU64(d3).value.1);
    case 1 =>
      U64Written(d0);
      U64Written(ReadU64(d0).value.1);
    case 2 =>
      var d3 := SpendWritten(d0);
      U64Written(d3);
    case 3 =>
      var d3 := SpendWritten(d0);
      U64Written(d3);
      Bytes32Written(ReadU64(d3).value.1);
    case 4 =>
      BytesWritten(d0, 33);
      VecWritten(ReadBytes(d0, 33).value.1);
    case 5 =>
      KindWritten(d0);
    case 6 =>
      U64Written(d0);
    case 7 =>
      U64Written(d0);
      Bytes32Written(ReadU64(d0).value.1);
    case 8 =>
      KindWritten(d0);
    case _ =>
  }

  lemma SpendWritten(d0: seq<u8>) returns (d3: seq<u8>)
    requires Read32(d0).Ok? && Read32(Read32(d0).value.1).Ok?
    requires Read32(Read32(Read32(d0).value.1).value.1).Ok?
    ensures d3 == Read32(Read32(Read32(d0).value.1).value.1).value.1
    ensures d0 == Le(32, Read32(d0).value.0) + (Le(32, Read32(Read32(d0).value.1).value.0) +
                  (Le(32, Read32(Read32(Read32(d0).value.1).value.1).value.0) + d3))
  {
    hide Le, Read32;
    Bytes32Written(d0);
    var d1 := Read32(d0).value.1;
    Bytes32Written(d1);
    var d2 := Read32(d1).value.1;
    Bytes32Written(d2);
    d3 := Read32(d2).value.1;
  }

  lemma KindWritten(d0: seq<u8>)
    requires ReadU8(d0).Ok? && TryFromByte(ReadU8(d0).value.0).Ok?
    requires ReadU32(ReadU8(d0).value.1).Ok? && ReadU64(ReadU32(ReadU8(d0).value.1).value.1).Ok?
    ensures var (b, d1) := ReadU8(d0).value;
            var (size, d2) := ReadU32(d1).value;
            var (denom, d3) := ReadU64(d2).value;
            d0 == [AsByte(TryFromByte(b).value)] + (Le(4, size) + (Le(8, denom) + d3))
  {
    hide Le, ReadU8, ReadU32, ReadU64;
    U8Written(d0);
    var d1 := ReadU8(d0).value.1;
    U32Written(d1);
    U64Written(ReadU32(d1).value.1);
  }

  lemma Nest2(a: seq<u8>, b: seq<u8>, tail: seq<u8>)
    ensures (a + (b + [])) + tail == a + (b + tail)
  {
  }

  lemma Nest3(a: seq<u8>, b: seq<u8>, c: seq<u8>, tail: seq<u8>)
    ensures (a + (b + (c + []))) + tail == a + (b + (c + tail))
  {
    Nest2(b, c, tail);
    Assoc(a, b + (c + []), tail);
  }

  lemma Nest4(a: seq<u8>, b: seq<u8>, c: seq<u8>, d: seq<u8>, tail: seq<u8>)
    ensures (a + (b + (c + (d + [])))) + tail == a + (b + (c + (d + tail)))
  {
    Nest3(b, c, d, tail);
    Assoc(a, b + (c + (d + [])), tail);
  }

  lemma Nest5(a: seq<u8>, b: seq<u8>, c: seq<u8>, d: seq<u8>, e: seq<u8>, tail: seq<u8>)
    ensures (a + (b + (c + (d + (e + []))))) + tail == a + (b + (c + (d + (e + tail))))
  {
    Nest4(b, c, d, e, tail);
    Assoc(a, b + (c + (d + (e + []))), tail);
  }

  lemma EncodeThenTail(ix: Instruction, tail: seq<u8>)
    requires ix.Encodable()
    ensures EncodeBefore(ix, tail) == Encode(ix).value + tail
  {
    hide Le;
    match ix
    case RegisterKeyset(keysetId, denom, jointPk, epoch, authorization) =>
      var v := Le(4, |authorization|) + authorization;
      Nest5(keysetId, Le(8, denom), Le(32, jointPk), Le(8, epoch), v, tail);
      Assoc([0], keysetId + (Le(8, denom) + (Le(32, jointPk) + (Le(8, epoch) + (v + [])))), tail);
    case Deposit(denom, lamports) =>
      Nest3([1], Le(8, denom), Le(8, lamports), tail);
    case Refresh(coinPubkey, sig, denom) =>
      Nest5([2], Le(32, coinPubkey), Le(32, sig.r), Le(32, sig.s), Le(8, denom), tail);
    case Withdraw(coinPubkey, sig, denom, recipient) =>
      Nest5(Le(32, coinPubkey), Le(32, sig.r), Le(32, sig.s), Le(8, denom), Le(32, recipient), tail);
      var fields := Le(32, coinPubkey) + (Le(32, sig.r) + (Le(32, sig.s) + (Le(8, denom) + (Le(32, recipient) + []))));
      Assoc([3], fields, tail);
    case Revoke(keysetId, authorization) =>
      Nest3([4], keysetId, Le(4, |authorization|) + authorization, tail);
    case Bootstrap(kind, size, denom) =>
      Nest4([5], [AsByte(kind)], Le(4, size), Le(8, denom), tail);
    case SponsorDeposit(amount) =>
      Nest2([6], Le(8, amount), tail);
    case SponsorPayout(lamports, recipient) =>
      Nest3([7], Le(8, lamports), Le(32, recipient), tail);
    case ResizeAccount(kind, newSize, denom) =>
      Nest4([8], [AsByte(kind)], Le(4, newSize), Le(8, denom), tail);
  }

  /** The codec is a bijection between encodable instructions and accepted byte strings. */
  lemma CodecBijection(ix: Instruction, data: seq<u8>)
    ensures Encode(ix) == Ok(data) <==> TryFromSlice(data) == Ok(ix)
  {
    hide EncodeBefore, Decode;
    if Encode(ix) == Ok(data) {
      DecodeEncode(ix, []);
    }
    if TryFromSlice(data) == Ok(ix) {
      EncodeDecode(data);
    }
  }

  /** No encoding is a proper prefix of another. */
  lemma PrefixFree(a: Instruction, b: Instruction)
    requires a.Encodable() && b.Encodable()
    requires Encode(a).value <= Encode(b).value
    ensures a == b
  {
    hide EncodeBefore, Decode;
    var x, y := Encode(a).value, Encode(b).value;
    var tail := y[|x|..];
    assert y == x + tail;
    EncodeThenTail(a, tail);
    DecodeEncode(a, tail);
    DecodeEncode(b, []);
  }

  // ---------------------------------------------------------------- the layout

  /** Tags 0 and 4, fixed fields at fixed offsets, and an authorization after its four-byte length. */
  lemma RegistryLayout(ix: Instruction)
    requires (ix.RegisterKeyset? || ix.Revoke?) && ix.Encodable()
    ensures var b := Encode(ix).value;
            && FieldAt(b, 1, ix.keysetId)
            && (ix.RegisterKeyset? ==>
                  && |b| == 86 + |ix.authorization| && FieldAt(b, 0, [0])
                  && FieldAt(b, 34, Le(8, ix.denom)) && FieldAt(b, 42, Le(32, ix.jointPk))
                  && FieldAt(b, 74, Le(8, ix.epoch)) && FieldAt(b, 82, Le(4, |ix.authorization|))
                  && FieldAt(b, 86, ix.authorization))
            && (ix.Revoke? ==>
                  && |b| == 38 + |ix.authorization| && FieldAt(b, 0, [4])
                  && FieldAt(b, 34, Le(4, |ix.authorization|)) && FieldAt(b, 38, ix.authorization))
  {
    hide Le, FieldAt;
    var v := Le(4, |ix.authorization|) + ix.authorization;
    match ix
    case RegisterKeyset(keysetId, denom, jointPk, epoch, _) =>
      Fields6([0], keysetId, Le(8, denom), Le(32, jointPk), Le(8, epoch), v, []);
      VecField(Encode(ix).value, 82, Le(4, |ix.authorization|), ix.authorization);
    case Revoke(keysetId, _) =>
      Fields3([4], keysetId, v, []);
      VecField(Encode(ix).value, 34, Le(4, |ix.authorization|), ix.authorization);
  }

  /** Tags 1, 2 and 3; a signature is its commitment followed by its response. */
  lemma VaultLayout(ix: Instruction)
    requires ix.Deposit? || ix.Refresh? || ix.Withdraw?
    ensures var b := Encode(ix).value;
            && (ix.Deposit? ==>
                  && |b| == 17 && FieldAt(b, 0, [1])
                  && FieldAt(b, 1, Le(8, ix.denom)) && FieldAt(b, 9, Le(8, ix.lamports)))
            && (ix.Refresh? || ix.Withdraw? ==>
                  && FieldAt(b, 1, Le(32, ix.coinPubkey)) && FieldAt(b, 33, Le(32, ix.coinSignature.r))
                  && FieldAt(b, 65, Le(32, ix.coinSignature.s)) && FieldAt(b, 97, Le(8, ix.denom)))
            && (ix.Refresh? ==> |b| == 105 && FieldAt(b, 0, [2]))
            && (ix.Withdraw? ==> |b| == 137 && FieldAt(b, 0, [3]) && FieldAt(b, 105, Le(32, ix.recipient)))
  {
    hide Le, FieldAt;
    match ix
    case Deposit(denom, lamports) => Fields3([1], Le(8, denom), Le(8, lamports), []);
    case Refresh(coinPubkey, sig, denom) =>
      Fields5([2], Le(32, coinPubkey), Le(32, sig.r), Le(32, sig.s), Le(8, denom), []);
    case Withdraw(coinPubkey, sig, denom, recipient) =>
      Fields6([3], Le(32, coinPubkey), Le(32, sig.r), Le(32, sig.s), Le(8, denom), Le(32, recipient), []);
  }

  /** Tags 5 and 8 with an account kind from 0 to 3, and tags 6 and 7. */
  lemma AccountLayout(ix: Instruction)
    requires ix.Bootstrap? || ix.ResizeAccount? || ix.SponsorDeposit? || ix.SponsorPayout?
    ensures var b := Encode(ix).value;
            && (ix.Bootstrap? || ix.ResizeAccount? ==>
                  && |b| == 14
                  && FieldAt(b, 1, [if ix.accountKind.KeysetRegistryAccount? then 0
                                    else if ix.accountKind.NullifierTreeAccount? then 1
                                    else if ix.accountKind.VaultAccount? then 2 else 3])
                  && FieldAt(b, 6, Le(8, ix.denom)))
            && (ix.Bootstrap? ==> FieldAt(b, 0, [5]) && FieldAt(b, 2, Le(4, ix.size)))
            && (ix.ResizeAccount? ==> FieldAt(b, 0, [8]) && FieldAt(b, 2, Le(4, ix.newSize)))
            && (ix.SponsorDeposit? ==> |b| == 9 && FieldAt(b, 0, [6]) && FieldAt(b, 1, Le(8, ix.amount)))
            && (ix.SponsorPayout? ==>
                  && |b| == 41 && FieldAt(b, 0, [7])
                  && FieldAt(b, 1, Le(8, ix.lamports)) && FieldAt(b, 9, Le(32, ix.recipient)))
  {
    hide Le, FieldAt;
    match ix
    case Bootstrap(kind, size, denom) => Fields4([5], [AsByte(kind)], Le(4, size), Le(8, denom), []);
    case ResizeAccount(kind, newSize, denom) => Fields4([8], [AsByte(kind)], Le(4, newSize), Le(8, denom), []);
    case SponsorDeposit(amount) => Fields2([6], Le(8, amount), []);
    case SponsorPayout(lamports, recipient) => Fields3([7], Le(8, lamports), Le(32, recipient), []);
  }

  // ---------------------------------------------------------------- the writer and the reader

  // Chunks appended one by one, from the left.

  lemma Left2(o: seq<u8>, a: seq<u8>, b: seq<u8>)
    ensures o + a + b == o + (a + (b + []))
  {
  }

  lemma Left3(o: seq<u8>, a: seq<u8>, b: seq<u8>, c: seq<u8>)
    ensures o + a + b + c == o + (a + (b + (c + [])))
  {
    Left2(o + a, b, c);
    Assoc(o, a, b + (c + []));
  }

  lemma Left4(o: seq<u8>, a: seq<u8>, b: seq<u8>, c: seq<u8>, d: seq<u8>)
    ensures o + a + b + c + d == o + (a + (b + (c + (d + []))))
  {
    Left3(o + a, b, c, d);
    Assoc(o, a, b + (c + (d + [])));
  }

  lemma Left5(o: seq<u8>, a: seq<u8>, b: seq<u8>, c: seq<u8>, d: seq<u8>, e: seq<u8>)
    ensures o + a + b + c + d + e == o + (a + (b + (c + (d + (e + [])))))
  {
    Left4(o + a, b, c, d, e);
    Assoc(o, a, b + (c + (d + (e + []))));
  }

  lemma Left6(o: seq<u8>, a: seq<u8>, b: seq<u8>, c: seq<u8>, d: seq<u8>, e: seq<u8>, f: seq<u8>)
    ensures o + a + b + c + d + e + f == o + (a + (b + (c + (d + (e + (f + []))))))
  {
    Left5(o + a, b, c, d, e, f);
    Assoc(o, a, b + (c + (d + (e + (f + [])))));
  }

  method WriteVec(writer: Writer, b: seq<u8>) returns (r: Result<()>)
    modifies writer
    ensures r == if |b| < 0x1_0000_0000 then Ok(()) else Err(Malformed)
    ensures r.Ok? ==> writer.out == old(writer.out) + (Le(4, |b|) + b)
  {
    if |b| >= 0x1_0000_0000 {
      return Err(Malformed);
    }
    writer.WriteAll(Le(4, |b|));
    writer.WriteAll(b);
    Assoc(old(writer.out), Le(4, |b|), b);
    r := Ok(());
  }

  /** Both halves of a signature, as `to_bytes` lays them out. */
  function SignatureBytes(sig: Signature): (b: seq<u8>)
    ensures |b| == 64
  {
    Le(32, sig.r) + Le(32, sig.s)
  }

  method Serialize(ix: Instruction, writer: Writer) returns (r: Result<()>)
    modifies writer
    ensures r.Ok? <==> ix.Encodable()
    ensures r.Ok? ==> writer.out == old(writer.out) + Encode(ix).value
  {
    hide Le;
    r := Ok(());
    match ix
    case RegisterKeyset(keysetId, denom, jointPk, epoch, authorization) =>
      writer.WriteAll([0]);
      writer.WriteAll(keysetId);
      writer.WriteAll(Le(8, denom));
      writer.WriteAll(Le(32, jointPk));
      writer.WriteAll(Le(8, epoch));
      r := WriteVec(writer, authorization);
      Left6(old(writer.out), [0], keysetId, Le(8, denom), Le(32, jointPk), Le(8, epoch),
            Le(4, |authorization|) + authorization);
    case Deposit(denom, lamports) =>
      writer.WriteAll([1]);
      writer.WriteAll(Le(8, denom));
      writer.WriteAll(Le(8, lamports));
      Left3(old(writer.out), [1], Le(8, denom), Le(8, lamports));
    case Refresh(coinPubkey, coinSignature, denom) =>
      writer.WriteAll([2]);
      writer.WriteAll(Le(32, coinPubkey));
      writer.WriteAll(SignatureBytes(coinSignature));
      Assoc(old(writer.out) + [2] + Le(32, coinPubkey), Le(32, coinSignature.r), Le(32, coinSignature.s));
      writer.WriteAll(Le(8, denom));
      Left5(old(writer.out), [2], Le(32, coinPubkey), Le(32, coinSignature.r), Le(32, coinSignature.s), Le(8, denom));
    case Withdraw(coinPubkey, coinSignature, denom, recipient) =>
      writer.WriteAll([3]);
      writer.WriteAll(Le(32, coinPubkey));
      writer.WriteAll(SignatureBytes(coinSignature));
      Assoc(old(writer.out) + [3] + Le(32, coinPubkey), Le(32, coinSignature.r), Le(32, coinSignature.s));
      writer.WriteAll(Le(8, denom));
      writer.WriteAll(Le(32, recipient));
      Left6(old(writer.out), [3], Le(32, coinPubkey), Le(32, coinSignature.r), Le(32, coinSignature.s),
            Le(8, denom), Le(32, recipient));
    case Revoke(keysetId, authorization) =>
      writer.WriteAll([4]);
      writer.WriteAll(keysetId);
      r := WriteVec(writer, authorization);
      Left3(old(writer.out), [4], keysetId, Le(4, |authorization|) + authorization);
    case Bootstrap(kind, size, denom) =>
      writer.WriteAll([5]);
      writer.WriteAll([AsByte(kind)]);
      writer.WriteAll(Le(4, size));
      writer.WriteAll(Le(8, denom));
      Left4(old(writer.out), [5], [AsByte(kind)], Le(4, size), Le(8, denom));
    case SponsorDeposit(amount) =>
      writer.WriteAll([6]);
      writer.WriteAll(Le(8, amount));
      Left2(old(writer.out), [6], Le(8, amount));
    case SponsorPayout(lamports, recipient) =>
      writer.WriteAll([7]);
      writer.WriteAll(Le(8, lamports));
      writer.WriteAll(Le(32, recipient));
      Left3(old(writer.out), [7], Le(8, lamports), Le(32, recipient));
    case ResizeAccount(kind, newSize, denom) =>
      writer.WriteAll([8]);
      writer.WriteAll([AsByte(kind)]);
      writer.WriteAll(Le(4, newSize));
      writer.WriteAll(Le(8, denom));
      Left4(old(writer.out), [8], [AsByte(kind)], Le(4, newSize), Le(8, denom));
  }

  method NextU8(reader: Reader) returns (r: Result<u8>)
    modifies reader
    ensures Read(r, ReadU8(old(reader.rest)), reader.rest)
  {
    var b :- reader.ReadExact(1);
    r := Ok(b[0]);
  }

  method NextU32(reader: Reader) returns (r: Result<u32>)
    modifies reader
    ensures Read(r, ReadU32(old(reader.rest)), reader.rest)
  {
    hide FromLe;
    var b :- reader.ReadExact(4);
    FromLeBound(b);
    Widths();
    r := Ok(FromLe(b));
  }

  method NextU64(reader: Reader) returns (r: Result<u64>)
    modifies reader
    ensures Read(r, ReadU64(old(reader.rest)), reader.rest)
  {
    hide FromLe;
    var b :- reader.ReadExact(8);
    FromLeBound(b);
    Widths();
    r := Ok(FromLe(b));
  }

  method Next32(reader: Reader) returns (r: Result<Bytes32>)
    modifies reader
    ensures Read(r, Read32(old(reader.rest)), reader.rest)
  {
    hide FromLe;
    var b :- reader.ReadExact(32);
    FromLeBound(b);
    Widths();
    r := Ok(FromLe(b));
  }

  method NextVec(reader: Reader) returns (r: Result<seq<u8>>)
    modifies reader
    ensures Read(r, ReadVec(old(reader.rest)), reader.rest)
  {
    hide ReadU32;
    var n :- NextU32(reader);
    r := reader.ReadExact(n);
  }

  method NextSignature(reader: Reader) returns (r: Result<Signature>)
    modifies reader
    ensures var first := Read32(old(reader.rest));
            if first.Err? then r == Err(first.error) else
              var second := Read32(first.value.1);
              if second.Err? then r == Err(second.error)
              else r == Ok(Signature(first.value.0, second.value.0)) && reader.rest == second.value.1
  {
    hide Read32;
    var a :- Next32(reader);
    var b :- Next32(reader);
    r := Ok(Signature(a, b));
  }

  /** A stateful read gave what the pure read gives and left the reader where the pure read ends. */
  ghost predicate Read<T>(r: Result<T>, pure: Result<(T, seq<u8>)>, rest: seq<u8>) {
    if pure.Err? then r == Err(pure.error) else r == Ok(pure.value.0) && rest == pure.value.1
  }

  method DeserializeReader(reader: Reader) returns (r: Result<Instruction>)
    modifies reader
    ensures Read(r, Decode(old(reader.rest)), reader.rest)
  {
    hide ReadU8, ReadU32, ReadU64, Read32, ReadVec;
    var tag :- NextU8(reader);
    match tag {
      case 0 =>
        var keysetId :- reader.ReadExact(33);
        var denom :- NextU64(reader);
        var jointPk :- Next32(reader);
        var epoch :- NextU64(reader);
        var authorization :- NextVec(reader);
        r := Ok(RegisterKeyset(keysetId, denom, jointPk, epoch, authorization));
      case 1 =>
        var denom :- NextU64(reader);
        var lamports :- NextU64(reader);
        r := Ok(Deposit(denom, lamports));
      case 2 =>
        var coinPubkey :- Next32(reader);
        var coinSignature :- NextSignature(reader);
        var denom :- NextU64(reader);
        r := Ok(Refresh(coinPubkey, coinSignature, denom));
      case 3 =>
        var coinPubkey :- Next32(reader);
        var coinSignature :- NextSignature(reader);
        var denom :- NextU64(reader);
        var recipient :- Next32(reader);
        r := Ok(Withdraw(coinPubkey, coinSignature, denom, recipient));
      case 4 =>
        var keysetId :- reader.ReadExact(33);
        var authorization :- NextVec(reader);
        r := Ok(Revoke(keysetId, authorization));
      case 5 =>
        var b :- NextU8(reader);
        var kind :- TryFromByte(b);
        var size :- NextU32(reader);
        var denom :- NextU64(reader);
        r := Ok(Bootstrap(kind, size, denom));
      case 6 =>
        var amount :- NextU64(reader);
        r := Ok(SponsorDeposit(amount));
      case 7 =>
        var lamports :- NextU64(reader);
        var recipient :- Next32(reader);
        r := Ok(SponsorPayout(lamports, recipient));
      case 8 =>
        var b :- NextU8(reader);
        var kind :- TryFromByte(b);
        var newSize :- NextU32(reader);
        var denom :- NextU64(reader);
        r := Ok(ResizeAccount(kind, newSize, denom));
      case _ =>
        r := Err(Malformed);
    }
  }
}
