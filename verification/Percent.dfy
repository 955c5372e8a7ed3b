/** Percent-encoding of octet strings. */
module Percent {
  import opened Wrappers
  import opened Text
  import opened Hex

  predicate Unreserved(b: u8) {
    || 'a' as int <= b <= 'z' as int || 'A' as int <= b <= 'Z' as int || '0' as int <= b <= '9' as int
    || b == '-' as int || b == '_' as int || b == '.' as int || b == '~' as int || b == '/' as int
    || b == ':' as int
  }

  function EncodeOctet(b: u8): Text {
    if Unreserved(b) then [b] else ['%' as int, UpperDigit(b / 16), UpperDigit(b % 16)]
  }

  function UrlEncode(s: Text): Text {
    if s == [] then [] else EncodeOctet(s[0]) + UrlEncode(s[1..])
  }

  /** The octet of an escape at the front: two hexadecimal digits that denote ASCII. */
  function Escaped(s: Text): (r: Option<u8>)
    requires s != []
    ensures r.Some? ==> |s| >= 3
  {
    if |s| < 3 then None else
      var hi, lo := HexNibble(s[1]), HexNibble(s[2]);
      if hi.None? || lo.None? || hi.value * 16 + lo.value >= 128 then None
      else Some(hi.value * 16 + lo.value)
  }

  /** A malformed escape or a character beyond ASCII fails; a plus sign is a space. */
  function UrlDecode(s: Text): Option<Text> {
    if s == [] then Some([])
    else if s[0] == '%' as int then
      match Escaped(s)
      case None => None
      case Some(b) => Prepend(b, UrlDecode(s[3..]))
    else if s[0] == '+' as int then Prepend(' ' as int, UrlDecode(s[1..]))
    else if s[0] < 128 then Prepend(s[0], UrlDecode(s[1..]))
    else None
  }

  predicate IsAscii(s: Text) {
    forall j :: 0 <= j < |s| ==> s[j] < 128
  }

  /** Decoding undoes encoding exactly for ASCII text, and otherwise fails. */
  lemma {:induction false} DecodeEncodeUrl(s: Text)
    ensures UrlDecode(UrlEncode(s)) == if IsAscii(s) then Some(s) else None
  {
    if s != [] {
      DecodeEncodeUrl(s[1..]);
      DecodeOctet(s[0], UrlEncode(s[1..]));
      hide UrlDecode, EncodeOctet;
      assert s == [s[0]] + s[1..];
      assert IsAscii(s) <==> s[0] < 128 && IsAscii(s[1..]);
    }
  }

  lemma DecodeOctet(b: u8, rest: Text)
    ensures UrlDecode(EncodeOctet(b) + rest) == if b < 128 then Prepend(b, UrlDecode(rest)) else None
  {
    var e := EncodeOctet(b);
    NibbleOfDigit(b / 16);
    NibbleOfDigit(b % 16);
    assert (e + rest)[|e|..] == rest;
    hide HexNibble, UpperDigit;
  }

  /** Nothing that separates the parts of a URI survives encoding. */
  lemma {:induction false} EncodedIsClean(s: Text)
    ensures forall c :: c in UrlEncode(s) ==> c == '%' as int || Unreserved(c)
  {
    if s != [] {
      EncodedIsClean(s[1..]);
    }
  }

  lemma EncodeFirst(s: Text)
    requires s != []
    ensures UrlEncode(s) == EncodeOctet(s[0]) + UrlEncode(s[1..])
  {
  }

  lemma EncodeOne(b: u8)
    ensures UrlEncode([]) == [] && UrlEncode([b]) == EncodeOctet(b)
  {
    hide EncodeOctet;
    assert [b][1..] == [];
  }

  lemma {:induction false} EncodeNextOctet(s: Text, b: u8)
    ensures UrlEncode(s + [b]) == UrlEncode(s) + EncodeOctet(b)
  {
    hide *;
    EncodeOne(b);
    if s == [] {
      assert s + [b] == [b];
    } else {
      EncodeNextOctet(s[1..], b);
      EncodeFirst(s);
      EncodeFirst(s + [b]);
      assert (s + [b])[1..] == s[1..] + [b];
      var first := EncodeOctet(s[0]);
      assert first + (UrlEncode(s[1..]) + EncodeOctet(b)) == first + UrlEncode(s[1..]) + EncodeOctet(b);
    }
  }

  /** Octets are encoded one by one: unreserved ones as they stand, others as a percent sign and two upper-case
      digits. */
  lemma EncodedOctet(s: Text, b: u8)
    ensures UrlEncode([]) == []
    ensures UrlEncode(s + [b]) ==
            UrlEncode(s) +
            if Unreserved(b) then [b]
            else ['%' as int, "0123456789ABCDEF"[b / 16] as int, "0123456789ABCDEF"[b % 16] as int]
  {
    hide Unreserved, UpperDigit;
    EncodeNextOctet(s, b);
    UpperDigitIs(b / 16);
    UpperDigitIs(b % 16);
  }

  /** A plus sign is a space, an escape with digits of either case is the octet they denote, and any other ASCII
      character stands for itself. */
  lemma DecodedFront(b: u8, hi: u8, lo: u8, rest: Text)
    ensures UrlDecode([]) == Some([])
    ensures UrlDecode([43] + rest) == Prepend(32, UrlDecode(rest))
    ensures b != 37 && b != 43 ==> UrlDecode([b] + rest) == if b < 128 then Prepend(b, UrlDecode(rest)) else None
    ensures HexNibble(hi) == Some(b / 16) && HexNibble(lo) == Some(b % 16) ==>
              UrlDecode([37, hi, lo] + rest) == if b < 128 then Prepend(b, UrlDecode(rest)) else None
  {
    hide HexNibble, Prepend;
    assert [43 as u8][..] + rest == [43] + rest && ([43] + rest)[1..] == rest;
    assert ([b] + rest)[1..] == rest && ([37, hi, lo] + rest)[3..] == rest;
  }

  /** A percent sign that two digits do not follow spoils the text. */
  lemma BadEscape(rest: Text)
    requires |rest| < 2 || HexNibble(rest[0]).None? || HexNibble(rest[1]).None?
    ensures UrlDecode([37] + rest) == None
  {
    hide HexNibble, Prepend;
  }

  method UrlEncodeLoop(s: Text) returns (out: Text)
    ensures out == UrlEncode(s)
  {
    out := [];
    for i := 0 to |s|
      invariant out == UrlEncode(s[..i])
    {
      EncodeNextOctet(s[..i], s[i]);
      assert s[..i + 1] == s[..i] + [s[i]];
      if Unreserved(s[i]) {
        out := out + [s[i]];
      } else {
        out := out + ['%' as int, UpperDigit(s[i] / 16), UpperDigit(s[i] % 16)];
      }
    }
    assert s[..|s|] == s;
  }

  /** One step of decoding at position i, without slices of slices. */
  lemma DecodeAt(s: Text, i: nat)
    requires i < |s|
    ensures UrlDecode(s[i..]) ==
            if s[i] == '%' as int then
              if Escaped(s[i..]).None? then None else Prepend(Escaped(s[i..]).value, UrlDecode(s[i + 3..]))
            else if s[i] == '+' as int then Prepend(' ' as int, UrlDecode(s[i + 1..]))
            else if s[i] < 128 then Prepend(s[i], UrlDecode(s[i + 1..]))
            else None
  {
    hide Escaped;
    assert s[i..][1..] == s[i + 1..];
    if i + 2 < |s| {
      assert s[i..][3..] == s[i + 3..];
    }
  }

  method ReadEscape(s: Text, i: nat) returns (r: Option<u8>)
    requires i < |s|
    ensures r == Escaped(s[i..])
  {
    if i + 2 >= |s| {
      return None;
    }
    var hi, lo := HexNibble(s[i + 1]), HexNibble(s[i + 2]);
    if hi.None? || lo.None? {
      return None;
    }
    var decoded := hi.value * 16 + lo.value;
    r := if decoded < 128 then Some(decoded) else None;
  }

  lemma AfterEnd(out: Text, s: Text)
    ensures After(out, UrlDecode(s[|s|..])) == Some(out)
  {
    assert s[|s|..] == [] && out + [] == out;
  }

  method UrlDecodeLoop(s: Text) returns (r: Option<Text>)
    ensures r == UrlDecode(s)
  {
    var out: Text := [];
    var i := 0;
    AfterNothing(UrlDecode(s));
    assert s[0..] == s;
    hide UrlDecode, Prepend, After, Escaped;
    while i < |s|
      invariant 0 <= i <= |s|
      invariant After(out, UrlDecode(s[i..])) == UrlDecode(s)
    {
      var c := s[i];
      DecodeAt(s, i);
      AfterNone(out);
      if c == '%' as int {
        var escape := ReadEscape(s, i);
        if escape.None? {
          return None;
        }
        var decoded := escape.value;
        AfterPrepend(out, decoded, UrlDecode(s[i + 3..]));
        out := out + [decoded];
        i := i + 3;
      } else if c == '+' as int {
        AfterPrepend(out, ' ' as int, UrlDecode(s[i + 1..]));
        out := out + [' ' as int];
        i := i + 1;
      } else if c < 128 {
        AfterPrepend(out, c, UrlDecode(s[i + 1..]));
        out := out + [c];
        i := i + 1;
      } else {
        return None;
      }
    }
    AfterEnd(out, s);
    r := Some(out);
  }
}
