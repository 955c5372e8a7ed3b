/** Base64 with the URL-safe alphabet and without padding (section 5 of RFC 4648). */
module Base64Url {
  import opened Arithmetic
  import opened Wrappers
  import opened Text

  /** Character of a six-bit group. */
  function Symbol(n: u8): u8
    requires n < 64
  {
    if n < 26 then 'A' as int + n
    else if n < 52 then 'a' as int + n - 26
    else if n < 62 then '0' as int + n - 52
    else if n == 62 then '-' as int
    else '_' as int
  }

  function Index(c: u8): (r: Option<u8>)
    ensures r.Some? ==> r.value < 64
  {
    if 'A' as int <= c <= 'Z' as int then Some(c - 'A' as int)
    else if 'a' as int <= c <= 'z' as int then Some(c - 'a' as int + 26)
    else if '0' as int <= c <= '9' as int then Some(c - '0' as int + 52)
    else if c == '-' as int then Some(62)
    else if c == '_' as int then Some(63)
    else None
  }

  lemma IndexOfSymbol(n: u8)
    requires n < 64
    ensures Index(Symbol(n)) == Some(n)
  {
  }

  lemma UpperSymbol(n: u8)
    requires n < 26
    ensures Symbol(n) == "ABCDEFGHIJKLMNOPQRSTUVWXYZ"[n] as int
  {
  }

  lemma LowerSymbol(n: u8)
    requires n < 26
    ensures Symbol(26 + n) == "abcdefghijklmnopqrstuvwxyz"[n] as int
  {
  }

  lemma OtherSymbol(n: u8)
    requires n < 12
    ensures Symbol(52 + n) == "0123456789-_"[n] as int
  {
  }

  lemma IndexIff(c: u8, n: u8)
    ensures Index(c) == Some(n) <==> n < 64 && Symbol(n) == c
  {
  }

  /** The six-bit group of a 24-bit number that starts at `bit`. */
  function Group(n: nat, shift: nat): (g: u8)
    requires shift > 0
    ensures g < 64
  {
    n / shift % 64
  }

  /** Up to three octets as a 24-bit number, first octet highest. */
  function Packed(chunk: Text): (n: nat)
    requires 1 <= |chunk| <= 3
    ensures n < 0x100_0000
  {
    var a: int, b: int, c: int :=
      chunk[0], if |chunk| > 1 then chunk[1] else 0, if |chunk| > 2 then chunk[2] else 0;
    a * 65536 + b * 256 + c
  }

  function EncodeChunk(chunk: Text): Text
    requires 1 <= |chunk| <= 3
  {
    var n := Packed(chunk);
    var four := [Symbol(Group(n, 262144)), Symbol(Group(n, 4096)), Symbol(Group(n, 64)), Symbol(Group(n, 1))];
    four[..|chunk| + 1]
  }

  function Encode(s: Text): Text {
    if s == [] then []
    else if |s| <= 3 then EncodeChunk(s)
    else EncodeChunk(s[..3]) + Encode(s[3..])
  }

  /** The number that up to four symbols form, highest group first. */
  function ChunkValue(chunk: Text): Option<nat> {
    if chunk == [] then Some(0) else
      var rest, idx := ChunkValue(chunk[..|chunk| - 1]), Index(chunk[|chunk| - 1]);
      if rest.None? || idx.None? then None else Some(rest.value * 64 + idx.value)
  }

  /** A chunk of four, three or two symbols gives three, two or one octets; surplus bits are dropped. */
  function DecodeChunk(chunk: Text): Option<Text>
    requires 1 <= |chunk| <= 4
  {
    var value := ChunkValue(chunk);
    if value.None? then None else
      var v := value.value *
        (if |chunk| == 4 then 1 else if |chunk| == 3 then 64 else if |chunk| == 2 then 4096 else 262144);
      if |chunk| == 2 then Some([v / 65536 % 256])
      else if |chunk| == 3 then Some([v / 65536 % 256, v / 256 % 256])
      else if |chunk| == 4 then Some([v / 65536 % 256, v / 256 % 256, v % 256])
      else None
  }

  function Decode(s: Text): Option<Text> {
    if s == [] then Some([]) else
      var size := if |s| < 4 then |s| else 4;
      var first, rest := DecodeChunk(s[..size]), Decode(s[size..]);
      if first.None? || rest.None? then None else Some(first.value + rest.value)
  }

  // ---------------------------------------------------------------- decoding undoes encoding

  lemma Groups(n: nat)
    requires n < 0x100_0000
    ensures n == ((Group(n, 262144) * 64 + Group(n, 4096)) * 64 + Group(n, 64)) * 64 + Group(n, 1)
  {
    DivDiv(n, 64, 64, 4096);
    DivDiv(n, 4096, 64, 262144);
    var q1, q2, q3 := n / 64, n / 4096, n / 262144;
    DivModUnique(q3, 64, 0, q3);
    assert n == q1 * 64 + n % 64 && q1 == q2 * 64 + q1 % 64 && q2 == q3 * 64 + q2 % 64;
  }

  lemma ValueNext(chunk: Text, c: u8, v: nat, g: int)
    requires ChunkValue(chunk) == Some(v) && 0 <= g < 64 && Index(c) == Some(g)
    ensures ChunkValue(chunk + [c]) == Some(v * 64 + g)
  {
    assert (chunk + [c])[..|chunk|] == chunk;
  }

  /** Two, three or four symbols form the number of their groups. */
  lemma ValueOfSymbols(g0: u8, g1: u8, g2: u8, g3: u8)
    requires g0 < 64 && g1 < 64 && g2 < 64 && g3 < 64
    ensures var (a, b, c, d) := (Symbol(g0), Symbol(g1), Symbol(g2), Symbol(g3));
            var v1: int := g0; var v2 := v1 * 64 + g1; var v3 := v2 * 64 + g2;
            && ChunkValue([a, b]) == Some(v2)
            && ChunkValue([a, b, c]) == Some(v3)
            && ChunkValue([a, b, c, d]) == Some(v3 * 64 + g3)
  {
    IndexOfSymbol(g0);
    IndexOfSymbol(g1);
    IndexOfSymbol(g2);
    IndexOfSymbol(g3);
    var v1: int := g0;
    var v2 := v1 * 64 + g1;
    var v3 := v2 * 64 + g2;
    hide Symbol, Index;
    assert ChunkValue([]) == Some(0);
    ValueNext([], Symbol(g0), 0, g0);
    assert [] + [Symbol(g0)] == [Symbol(g0)];
    ValueNext([Symbol(g0)], Symbol(g1), v1, g1);
    assert [Symbol(g0)] + [Symbol(g1)] == [Symbol(g0), Symbol(g1)];
    ValueNext([Symbol(g0), Symbol(g1)], Symbol(g2), v2, g2);
    assert [Symbol(g0), Symbol(g1)] + [Symbol(g2)] == [Symbol(g0), Symbol(g1), Symbol(g2)];
    ValueNext([Symbol(g0), Symbol(g1), Symbol(g2)], Symbol(g3), v3, g3);
    assert [Symbol(g0), Symbol(g1), Symbol(g2)] + [Symbol(g3)] == [Symbol(g0), Symbol(g1), Symbol(g2), Symbol(g3)];
  }

  /** The octets come back from the number, whose groups below the last symbol are zero. */
  lemma Unpacked(chunk: Text)
    requires 1 <= |chunk| <= 3
    ensures var n := Packed(chunk);
            && n / 65536 % 256 == chunk[0]
            && (|chunk| > 1 ==> n / 256 % 256 == chunk[1])
            && (|chunk| > 2 ==> n % 256 == chunk[2])
            && (|chunk| == 1 ==> Group(n, 64) == 0 && Group(n, 1) == 0)
            && (|chunk| == 2 ==> Group(n, 1) == 0)
  {
    UnpackOctets(chunk[0], if |chunk| > 1 then chunk[1] else 0, if |chunk| > 2 then chunk[2] else 0);
  }

  lemma UnpackOctets(a: int, b: int, c: int)
    requires 0 <= a < 256 && 0 <= b < 256 && 0 <= c < 256
    ensures var n := a * 65536 + b * 256 + c;
            && n / 65536 % 256 == a && n / 256 % 256 == b && n % 256 == c
            && (c == 0 ==> n / 1 % 64 == 0) && (b == 0 && c == 0 ==> n / 64 % 64 == 0)
  {
    var n := a * 65536 + b * 256 + c;
    DivModUnique(n, 65536, a, b * 256 + c);
    DivModUnique(a, 256, 0, a);
    DivModUnique(n, 256, a * 256 + b, c);
    DivModUnique(a * 256 + b, 256, a, b);
    if c == 0 {
      DivModUnique(n, 64, a * 1024 + b * 4, 0);
    }
    if b == 0 && c == 0 {
      DivModUnique(a * 1024, 64, a * 16, 0);
    }
  }

  /** A chunk of k octets gives k + 1 symbols, and they decode to the chunk. */
  lemma ChunkRoundTrip(chunk: Text)
    requires 1 <= |chunk| <= 3
    ensures |EncodeChunk(chunk)| == |chunk| + 1
    ensures DecodeChunk(EncodeChunk(chunk)) == Some(chunk)
  {
    var n := Packed(chunk);
    var g0, g1, g2, g3 := Group(n, 262144), Group(n, 4096), Group(n, 64), Group(n, 1);
    Groups(n);
    Unpacked(chunk);
    ValueOfSymbols(g0, g1, g2, g3);
    hide Symbol, Index, Group, ChunkValue, Packed;
    var s := EncodeChunk(chunk);
    if |chunk| == 1 {
      assert s == [Symbol(g0), Symbol(g1)] && chunk == [chunk[0]];
    } else if |chunk| == 2 {
      assert s == [Symbol(g0), Symbol(g1), Symbol(g2)] && chunk == [chunk[0], chunk[1]];
    } else {
      assert s == [Symbol(g0), Symbol(g1), Symbol(g2), Symbol(g3)] && chunk == [chunk[0], chunk[1], chunk[2]];
    }
  }

  /** Unpadded base64 decodes to what was encoded, for every length and so every residue modulo 3. */
  lemma {:induction false} RoundTrip(s: Text)
    ensures Decode(Encode(s)) == Some(s)
    decreases |s|
  {
    hide EncodeChunk, DecodeChunk;
    if s == [] {
    } else if |s| <= 3 {
      ChunkRoundTrip(s);
      var e := Encode(s);
      assert e[..|e|] == e && e[|e|..] == [];
      assert Decode(e[|e|..]) == Some([]) && s + [] == s;
    } else {
      ChunkRoundTrip(s[..3]);
      RoundTrip(s[3..]);
      var e := Encode(s);
      assert e[..4] == EncodeChunk(s[..3]) && e[4..] == Encode(s[3..]);
      assert s[..3] + s[3..] == s;
    }
  }

  lemma SymbolClean(n: u8)
    requires n < 64
    ensures Index(Symbol(n)).Some?
  {
  }

  lemma ChunkClean(chunk: Text)
    requires 1 <= |chunk| <= 3
    ensures forall c :: c in EncodeChunk(chunk) ==> Index(c).Some?
  {
    var n := Packed(chunk);
    SymbolClean(Group(n, 262144));
    SymbolClean(Group(n, 4096));
    SymbolClean(Group(n, 64));
    SymbolClean(Group(n, 1));
    hide Symbol, Index, Group, Packed;
  }

  /** Only symbols of the alphabet come out. */
  lemma {:induction false} EncodedIsClean(s: Text)
    ensures forall c :: c in Encode(s) ==> Index(c).Some?
    decreases |s|
  {
    hide EncodeChunk, Index;
    if s == [] {
    } else if |s| <= 3 {
      ChunkClean(s);
    } else {
      ChunkClean(s[..3]);
      EncodedIsClean(s[3..]);
    }
  }

  // ---------------------------------------------------------------- the loops

  lemma EncodeFrom(s: Text, i: nat)
    requires i + 3 <= |s|
    ensures Encode(s[i..]) == EncodeChunk(s[i..i + 3]) + Encode(s[i + 3..])
  {
    hide EncodeChunk;
    assert s[i..][..3] == s[i..i + 3] && s[i..][3..] == s[i + 3..];
    if i + 3 == |s| {
      assert s[i + 3..] == [] && s[i..] == s[i..i + 3];
      assert Encode(s[i + 3..]) == [] && EncodeChunk(s[i..i + 3]) + [] == EncodeChunk(s[i..i + 3]);
    }
  }

  /** Whole chunks first, then the remainder of one or two octets. */
  method EncodeLoop(input: Text) returns (out: Text)
    ensures out == Encode(input)
  {
    out := [];
    var i := 0;
    assert input[0..] == input && [] + Encode(input) == Encode(input);
    while i + 3 <= |input|
      invariant 0 <= i <= |input|
      invariant out + Encode(input[i..]) == Encode(input)
    {
      EncodeFrom(input, i);
      var four := PushChunk(input[i..i + 3]);
      assert out + (four + Encode(input[i + 3..])) == out + four + Encode(input[i + 3..]);
      out := out + four;
      i := i + 3;
    }
    if i < |input| {
      var last := PushChunk(input[i..]);
      out := out + last;
    } else {
      assert input[i..] == [] && out + [] == out;
    }
  }

  method PushChunk(chunk: Text) returns (out: Text)
    requires 1 <= |chunk| <= 3
    ensures out == EncodeChunk(chunk)
  {
    hide Symbol, Group;
    var n := Packed(chunk);
    out := [Symbol(Group(n, 262144))];
    out := out + [Symbol(Group(n, 4096))];
    if |chunk| > 1 {
      out := out + [Symbol(Group(n, 64))];
    }
    if |chunk| > 2 {
      out := out + [Symbol(Group(n, 1))];
    }
  }

  lemma {:induction false} ValueStops(chunk: Text, j: nat)
    requires j < |chunk| && Index(chunk[j]).None?
    ensures ChunkValue(chunk).None?
    decreases |chunk|
  {
    hide Index;
    if j < |chunk| - 1 {
      ValueStops(chunk[..|chunk| - 1], j);
    }
  }

  method ReadChunk(chunk: Text) returns (r: Option<nat>)
    ensures r == ChunkValue(chunk)
  {
    hide Index;
    var value: nat := 0;
    for j := 0 to |chunk|
      invariant ChunkValue(chunk[..j]) == Some(value)
    {
      var idx := Index(chunk[j]);
      if idx.None? {
        ValueStops(chunk, j);
        return None;
      }
      assert chunk[..j + 1][..j] == chunk[..j];
      value := value * 64 + idx.value;
    }
    assert chunk[..|chunk|] == chunk;
    r := Some(value);
  }

  lemma DecodeFrom(s: Text, i: nat, size: nat)
    requires i < |s| && size == if |s| - i < 4 then |s| - i else 4
    ensures var first, rest := DecodeChunk(s[i..i + size]), Decode(s[i + size..]);
            Decode(s[i..]) == if first.None? || rest.None? then None else Some(first.value + rest.value)
  {
    hide DecodeChunk;
    assert s[i..][..size] == s[i..i + size] && s[i..][size..] == s[i + size..];
  }

  lemma AfterChunk(out: Text, chunk: Text, rest: Option<Text>)
    ensures After(out, if rest.None? then None else Some(chunk + rest.value)) == After(out + chunk, rest)
  {
    if rest.Some? {
      assert out + (chunk + rest.value) == out + chunk + rest.value;
    }
  }

  method DecodeLoop(input: Text) returns (r: Option<Text>)
    ensures r == Decode(input)
  {
    var out: Text := [];
    var i := 0;
    AfterNothing(Decode(input));
    assert input[0..] == input;
    hide Decode, After, ChunkValue;
    while i < |input|
      invariant 0 <= i <= |input|
      invariant After(out, Decode(input[i..])) == Decode(input)
    {
      var size := if |input| - i < 4 then |input| - i else 4;
      var chunk := input[i..i + size];
      DecodeFrom(input, i, size);
      AfterNone(out);
      var value := ReadChunk(chunk);
      if value.None? {
        return None;
      }
      var v := value.value * (if size == 4 then 1 else if size == 3 then 64 else if size == 2 then 4096 else 262144);
      var octets: Text;
      match size {
        case 2 => octets := [v / 65536 % 256];
        case 3 => octets := [v / 65536 % 256, v / 256 % 256];
        case 4 => octets := [v / 65536 % 256, v / 256 % 256, v % 256];
        case _ => return None;
      }
      AfterChunk(out, octets, Decode(input[i + size..]));
      out := out + octets;
      i := i + size;
    }
    EmptyDecodes(out, input[i..]);
    r := Some(out);
  }

  lemma EmptyDecodes(out: Text, rest: Text)
    requires rest == []
    ensures After(out, Decode(rest)) == Some(out)
  {
    assert out + [] == out;
  }

  // ---------------------------------------------------------------- the bit layout

  /** The four groups of 24 bits, taken from three octets. */
  lemma GroupBits(a: int, b: int, c: int)
    requires 0 <= a < 256 && 0 <= b < 256 && 0 <= c < 256
    ensures var n: nat := a * 65536 + b * 256 + c;
            && Group(n, 262144) == a / 4 && Group(n, 4096) == a % 4 * 16 + b / 16
            && Group(n, 64) == b % 16 * 4 + c / 64 && Group(n, 1) == c % 64
  {
    var n: nat := a * 65536 + b * 256 + c;
    DivModUnique(n, 262144, a / 4, a % 4 * 65536 + b * 256 + c);
    DivModUnique(a / 4, 64, 0, a / 4);
    DivModUnique(n, 4096, a * 16 + b / 16, b % 16 * 256 + c);
    DivModUnique(a * 16 + b / 16, 64, a / 4, a % 4 * 16 + b / 16);
    DivModUnique(n, 64, a * 1024 + b * 4 + c / 64, c % 64);
    DivModUnique(a * 1024 + b * 4 + c / 64, 64, a * 16 + b / 16, b % 16 * 4 + c / 64);
  }

  /** One, two or three octets give two, three or four symbols, six bits each, highest first, the last padded
      with zero bits (section 4 of RFC 4648). */
  lemma ChunkBits(chunk: Text)
    requires 1 <= |chunk| <= 3
    ensures var a: int, b: int, c: int :=
              chunk[0], if |chunk| > 1 then chunk[1] else 0, if |chunk| > 2 then chunk[2] else 0;
            EncodeChunk(chunk) ==
            if |chunk| == 1 then [Symbol(a / 4), Symbol(a % 4 * 16)]
            else if |chunk| == 2 then [Symbol(a / 4), Symbol(a % 4 * 16 + b / 16), Symbol(b % 16 * 4)]
            else [Symbol(a / 4), Symbol(a % 4 * 16 + b / 16), Symbol(b % 16 * 4 + c / 64), Symbol(c % 64)]
  {
    hide Symbol, Group;
    GroupBits(chunk[0], if |chunk| > 1 then chunk[1] else 0, if |chunk| > 2 then chunk[2] else 0);
  }

  /** Three octets at a time. */
  lemma {:induction false} EncodeConcat(a: Text, b: Text)
    requires |a| % 3 == 0
    ensures Encode(a + b) == Encode(a) + Encode(b)
    decreases |a|
  {
    hide EncodeChunk;
    if a == [] {
      assert a + b == b;
    } else {
      EncodeConcat(a[3..], b);
      assert (a + b)[..3] == a[..3] && (a + b)[3..] == a[3..] + b;
      EncodeFrom(a, 0);
      EncodeFrom(a + b, 0);
      assert a[0..] == a && (a + b)[0..] == a + b && (a + b)[0..3] == a[0..3];
    }
  }

  lemma OctetBits(i0: int, i1: int, i2: int, i3: int)
    requires 0 <= i0 < 64 && 0 <= i1 < 64 && 0 <= i2 < 64 && 0 <= i3 < 64
    ensures (i0 * 64 + i1) * 4096 / 65536 % 256 == i0 * 4 + i1 / 16
    ensures var v := ((i0 * 64 + i1) * 64 + i2) * 64;
            v / 65536 % 256 == i0 * 4 + i1 / 16 && v / 256 % 256 == i1 % 16 * 16 + i2 / 4
    ensures var v := ((i0 * 64 + i1) * 64 + i2) * 64 + i3;
            && v / 65536 % 256 == i0 * 4 + i1 / 16 && v / 256 % 256 == i1 % 16 * 16 + i2 / 4
            && v % 256 == i2 % 4 * 64 + i3
  {
    var x, y := i0 * 4 + i1 / 16, i1 % 16 * 16 + i2 / 4;
    DivModUnique(x, 256, 0, x);
    DivModUnique((i0 * 64 + i1) * 4096, 65536, x, i1 % 16 * 4096);
    UnpackOctets(x, y, i2 % 4 * 64);
    UnpackOctets(x, y, i2 % 4 * 64 + i3);
  }

  lemma DecodedValue(chunk: Text, v: nat)
    requires 2 <= |chunk| <= 4 && ChunkValue(chunk) == Some(v)
    ensures |chunk| == 2 ==> DecodeChunk(chunk) == Some([v * 4096 / 65536 % 256])
    ensures |chunk| == 3 ==> DecodeChunk(chunk) == Some([v * 64 / 65536 % 256, v * 64 / 256 % 256])
    ensures |chunk| == 4 ==> DecodeChunk(chunk) == Some([v / 65536 % 256, v / 256 % 256, v % 256])
  {
    hide ChunkValue;
  }

  /** Two, three or four symbols give one, two or three octets; bits left over are dropped. */
  lemma SymbolBits(c0: u8, c1: u8, c2: u8, c3: u8, i0: u8, i1: u8, i2: u8, i3: u8)
    requires Index(c0) == Some(i0) && Index(c1) == Some(i1) && Index(c2) == Some(i2) && Index(c3) == Some(i3)
    ensures DecodeChunk([c0, c1]) == Some([i0 * 4 + i1 / 16])
    ensures DecodeChunk([c0, c1, c2]) == Some([i0 * 4 + i1 / 16, i1 % 16 * 16 + i2 / 4])
    ensures DecodeChunk([c0, c1, c2, c3]) ==
            Some([i0 * 4 + i1 / 16, i1 % 16 * 16 + i2 / 4, i2 % 4 * 64 + i3])
  {
    IndexIff(c0, i0);
    IndexIff(c1, i1);
    IndexIff(c2, i2);
    IndexIff(c3, i3);
    hide *;
    ValueOfSymbols(i0, i1, i2, i3);
    var v: nat := i0 * 64 + i1;
    OctetBits(i0, i1, i2, i3);
    DecodedValue([c0, c1], v);
    DecodedValue([c0, c1, c2], v * 64 + i2);
    DecodedValue([c0, c1, c2, c3], (v * 64 + i2) * 64 + i3);
  }

  lemma {:induction false} ValueIff(chunk: Text)
    ensures ChunkValue(chunk).Some? <==> forall c :: c in chunk ==> Index(c).Some?
  {
    hide Index;
    if chunk != [] {
      ValueIff(chunk[..|chunk| - 1]);
      assert chunk == chunk[..|chunk| - 1] + [chunk[|chunk| - 1]];
    }
  }

  predicate AllSymbols(s: Text) {
    forall c :: c in s ==> Index(c).Some?
  }

  lemma ChunkIff(chunk: Text)
    requires 1 <= |chunk| <= 4
    ensures DecodeChunk(chunk).Some? <==> |chunk| != 1 && AllSymbols(chunk)
  {
    hide Index, ChunkValue;
    ValueIff(chunk);
  }

  lemma DecodeStep(s: Text, size: nat)
    requires s != [] && size == if |s| < 4 then |s| else 4
    ensures Decode(s).Some? <==> DecodeChunk(s[..size]).Some? && Decode(s[size..]).Some?
    ensures AllSymbols(s) <==> AllSymbols(s[..size]) && AllSymbols(s[size..])
  {
    hide DecodeChunk, Index;
    assert s == s[..size] + s[size..];
  }

  lemma NothingDecodes()
    ensures Decode([]).Some? && AllSymbols([])
  {
  }

  /** Exactly the texts over the alphabet decode whose length leaves no single symbol at the end. */
  lemma {:induction false} DecodeIff(s: Text)
    ensures Decode(s).Some? <==> |s| % 4 != 1 && AllSymbols(s)
    decreases |s|
  {
    hide *;
    if s == [] {
      NothingDecodes();
    } else {
      var size := if |s| < 4 then |s| else 4;
      DecodeStep(s, size);
      ChunkIff(s[..size]);
      DecodeIff(s[size..]);
    }
  }
}
