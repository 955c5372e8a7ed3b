/** Hexadecimal text, as octets. */
module Hex {
  import opened Wrappers

  function HexNibble(c: u8): (r: Option<u8>)
    ensures r.Some? ==> r.value < 16
  {
    if '0' as int <= c <= '9' as int then Some(c - '0' as int)
    else if 'a' as int <= c <= 'f' as int then Some(c - 'a' as int + 10)
    else if 'A' as int <= c <= 'F' as int then Some(c - 'A' as int + 10)
    else None
  }

  function LowerDigit(n: u8): u8
    requires n < 16
  {
    if n < 10 then '0' as int + n else 'a' as int + n - 10
  }

  function UpperDigit(n: u8): u8
    requires n < 16
  {
    if n < 10 then '0' as int + n else 'A' as int + n - 10
  }

  lemma NibbleOfDigit(n: u8)
    requires n < 16
    ensures HexNibble(LowerDigit(n)) == Some(n) && HexNibble(UpperDigit(n)) == Some(n)
  {
  }

  lemma LowerDigitIs(n: u8)
    requires n < 16
    ensures LowerDigit(n) == "0123456789abcdef"[n] as int
  {
  }

  lemma UpperDigitIs(n: u8)
    requires n < 16
    ensures UpperDigit(n) == "0123456789ABCDEF"[n] as int
  {
  }

  lemma NibbleIffDigit(c: u8, n: u8)
    requires n < 16
    ensures HexNibble(c) == Some(n) <==> c == LowerDigit(n) || c == UpperDigit(n)
  {
  }

  /** Digits of either case are read, and nothing else. */
  lemma NibbleIff(c: u8, n: u8)
    requires n < 16
    ensures HexNibble(c) == Some(n) <==>
            c == "0123456789abcdef"[n] as int || c == "0123456789ABCDEF"[n] as int
  {
    hide HexNibble, LowerDigit, UpperDigit;
    LowerDigitIs(n);
    UpperDigitIs(n);
    NibbleIffDigit(c, n);
  }

  /** Two lower-case digits per octet. */
  function EncodeHex(b: seq<u8>): (s: seq<u8>)
    ensures |s| == 2 * |b|
  {
    if b == [] then [] else [LowerDigit(b[0] / 16), LowerDigit(b[0] % 16)] + EncodeHex(b[1..])
  }

  function DecodeHex(s: seq<u8>): (b: Option<seq<u8>>)
    ensures b.Some? ==> 2 * |b.value| == |s|
  {
    if s == [] then Some([])
    else if |s| == 1 then None
    else
      var hi, lo := HexNibble(s[0]), HexNibble(s[1]);
      var rest := DecodeHex(s[2..]);
      if hi.None? || lo.None? || rest.None? then None
      else Some([hi.value * 16 + lo.value] + rest.value)
  }

  /** Decoding undoes encoding. */
  lemma {:induction false} DecodeEncodeHex(b: seq<u8>)
    ensures DecodeHex(EncodeHex(b)) == Some(b)
  {
    if b != [] {
      var s := EncodeHex(b);
      DecodeEncodeHex(b[1..]);
      NibbleOfDigit(b[0] / 16);
      NibbleOfDigit(b[0] % 16);
      assert s[2..] == EncodeHex(b[1..]);
      assert b == [b[0]] + b[1..];
    }
  }

  lemma {:induction false} HexDigits(b: seq<u8>)
    ensures forall c :: c in EncodeHex(b) ==> HexNibble(c).Some?
  {
    if b != [] {
      HexDigits(b[1..]);
      NibbleOfDigit(b[0] / 16);
      NibbleOfDigit(b[0] % 16);
    }
  }

  /** Octet j is printed as two lower-case digits, the high one first. */
  lemma {:induction false} HexAt(b: seq<u8>, j: nat)
    requires j < |b|
    ensures EncodeHex(b)[2 * j] == "0123456789abcdef"[b[j] / 16] as int
    ensures EncodeHex(b)[2 * j + 1] == "0123456789abcdef"[b[j] % 16] as int
  {
    hide LowerDigit;
    if j == 0 {
      LowerDigitIs(b[0] / 16);
      LowerDigitIs(b[0] % 16);
    } else {
      HexAt(b[1..], j - 1);
    }
  }

  /** Exactly the digits in pairs decode, two of them per octet. */
  lemma {:induction false} DecodeHexIff(s: seq<u8>)
    ensures DecodeHex(s).Some? <==> |s| % 2 == 0 && forall c :: c in s ==> HexNibble(c).Some?
    ensures DecodeHex(s).Some? ==>
              forall j :: 0 <= j < |DecodeHex(s).value| ==>
                DecodeHex(s).value[j] == 16 * HexNibble(s[2 * j]).value + HexNibble(s[2 * j + 1]).value
  {
    hide HexNibble;
    if |s| >= 2 {
      DecodeHexIff(s[2..]);
      assert s == [s[0], s[1]] + s[2..];
    }
  }

  function DecodeHex32(s: seq<u8>): Option<seq<u8>> {
    if |s| != 64 then None else DecodeHex(s)
  }

  /** A digit that is not one decides the result. */
  lemma {:induction false} DecodeStops(s: seq<u8>, i: nat)
    requires 2 * i + 1 < |s| && |s| % 2 == 0
    requires HexNibble(s[2 * i]).None? || HexNibble(s[2 * i + 1]).None?
    ensures DecodeHex(s).None?
  {
    if i > 0 {
      DecodeStops(s[2..], i - 1);
    }
  }

  lemma {:induction false} DecodeNext(s: seq<u8>, hi: u8, lo: u8)
    requires |s| % 2 == 0 && HexNibble(hi).Some? && HexNibble(lo).Some? && DecodeHex(s).Some?
    ensures DecodeHex(s + [hi, lo]) == Some(DecodeHex(s).value + [HexNibble(hi).value * 16 + HexNibble(lo).value])
  {
    var last: u8 := HexNibble(hi).value * 16 + HexNibble(lo).value;
    if s == [] {
      var both := s + [hi, lo];
      assert both[2..] == [] && DecodeHex(both[2..]) == Some([]);
      assert DecodeHex(both) == Some([last] + []);
      assert [last] + [] == DecodeHex(s).value + [last];
    } else {
      DecodeNext(s[2..], hi, lo);
      assert (s + [hi, lo])[2..] == s[2..] + [hi, lo];
      var first: u8 := HexNibble(s[0]).value * 16 + HexNibble(s[1]).value;
      var rest := DecodeHex(s[2..]).value;
      assert [first] + (rest + [last]) == [first] + rest + [last];
    }
  }

  /** The source's loop over the 32 output octets. */
  method DecodeHexLoop(s: seq<u8>) returns (r: Option<seq<u8>>)
    ensures r == DecodeHex32(s)
  {
    if |s| != 64 {
      return None;
    }
    var out := new u8[32];
    for i := 0 to 32
      invariant DecodeHex(s[..2 * i]) == Some(out[..i])
    {
      var hi, lo := HexNibble(s[2 * i]), HexNibble(s[2 * i + 1]);
      if hi.None? || lo.None? {
        DecodeStops(s, i);
        return None;
      }
      DecodeNext(s[..2 * i], s[2 * i], s[2 * i + 1]);
      assert s[..2 * (i + 1)] == s[..2 * i] + [s[2 * i], s[2 * i + 1]];
      ghost var before := out[..i];
      out[i] := hi.value * 16 + lo.value;
      assert out[..i + 1] == before + [hi.value * 16 + lo.value];
    }
    assert s[..64] == s && out[..32] == out[..];
    r := Some(out[..]);
  }

  lemma {:induction false} EncodeNext(b: seq<u8>, x: u8)
    ensures EncodeHex(b + [x]) == EncodeHex(b) + [LowerDigit(x / 16), LowerDigit(x % 16)]
  {
    if b == [] {
      assert [x][1..] == [];
    } else {
      EncodeNext(b[1..], x);
      assert (b + [x])[1..] == b[1..] + [x];
    }
  }

  method EncodeHexLoop(bytes: seq<u8>) returns (s: seq<u8>)
    ensures s == EncodeHex(bytes)
  {
    s := [];
    for i := 0 to |bytes|
      invariant s == EncodeHex(bytes[..i])
    {
      EncodeNext(bytes[..i], bytes[i]);
      assert bytes[..i + 1] == bytes[..i] + [bytes[i]];
      s := s + [LowerDigit(bytes[i] / 16)];
      s := s + [LowerDigit(bytes[i] % 16)];
    }
    assert bytes[..|bytes|] == bytes;
  }
}
