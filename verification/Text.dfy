/** Octet strings: splitting at a separator and decimal numbers. */
module Text {
  import opened Wrappers

  type Text = seq<u8>

  /** The parts before and after the first separator. */
  function SplitOnce(s: Text, c: u8): (r: Option<(Text, Text)>)
    ensures r.Some? ==> |r.value.0| + |r.value.1| + 1 == |s|
  {
    if s == [] then None
    else if s[0] == c then Some(([], s[1..]))
    else
      var rest := SplitOnce(s[1..], c);
      if rest.None? then None else Some(([s[0]] + rest.value.0, rest.value.1))
  }

  /** All parts between separators; a text without any is its own only part. */
  function Split(s: Text, c: u8): seq<Text>
    decreases |s|
  {
    match SplitOnce(s, c)
    case None => [s]
    case Some((first, rest)) => [first] + Split(rest, c)
  }

  function Join(parts: seq<Text>, c: u8): Text {
    if parts == [] then []
    else if |parts| == 1 then parts[0]
    else parts[0] + ([c] + Join(parts[1..], c))
  }

  lemma {:induction false} SplitOnceAbsent(s: Text, c: u8)
    requires c !in s
    ensures SplitOnce(s, c).None?
  {
    if s != [] {
      SplitOnceAbsent(s[1..], c);
    }
  }

  lemma {:induction false} SplitOnceAt(a: Text, c: u8, b: Text)
    requires c !in a
    ensures SplitOnce(a + ([c] + b), c) == Some((a, b))
  {
    if a == [] {
      assert a + ([c] + b) == [c] + b;
    } else {
      SplitOnceAt(a[1..], c, b);
      assert (a + ([c] + b))[1..] == a[1..] + ([c] + b);
      assert a == [a[0]] + a[1..];
    }
  }

  lemma {:induction false} SplitOnceParts(s: Text, c: u8)
    ensures SplitOnce(s, c) == None <==> c !in s
    ensures SplitOnce(s, c).Some? ==>
              var (a, b) := SplitOnce(s, c).value; c !in a && s == a + ([c] + b)
  {
    if s != [] {
      SplitOnceParts(s[1..], c);
      assert s == [s[0]] + s[1..];
    }
  }

  /** A text splits exactly at its first separator. */
  lemma SplitOnceIff(s: Text, c: u8, a: Text, b: Text)
    ensures SplitOnce(s, c) == Some((a, b)) <==> c !in a && s == a + ([c] + b)
    ensures SplitOnce(s, c) == None <==> c !in s
  {
    hide SplitOnce;
    SplitOnceParts(s, c);
    if c !in a && s == a + ([c] + b) {
      SplitOnceAt(a, c, b);
    }
  }

  /** Joining undoes splitting, and no part contains the separator. */
  lemma {:induction false} JoinSplit(s: Text, c: u8)
    ensures Split(s, c) != [] && Join(Split(s, c), c) == s
    ensures forall part :: part in Split(s, c) ==> c !in part
    decreases |s|
  {
    match SplitOnce(s, c)
    case None => SplitOnceIff(s, c, [], []);
    case Some((first, rest)) =>
      JoinSplit(rest, c);
      SplitOnceIff(s, c, first, rest);
      hide SplitOnce;
      assert ([first] + Split(rest, c))[1..] == Split(rest, c);
  }

  /** Splitting undoes joining when no part contains the separator. */
  lemma {:induction false} SplitJoin(parts: seq<Text>, c: u8)
    requires parts != [] && forall j :: 0 <= j < |parts| ==> c !in parts[j]
    ensures Split(Join(parts, c), c) == parts
  {
    if |parts| == 1 {
      SplitOnceAbsent(parts[0], c);
    } else {
      SplitOnceAt(parts[0], c, Join(parts[1..], c));
      SplitJoin(parts[1..], c);
      assert parts == [parts[0]] + parts[1..];
    }
  }

  // ---------------------------------------------------------------- partial results

  function Prepend(b: u8, rest: Option<Text>): Option<Text> {
    if rest.None? then None else Some([b] + rest.value)
  }

  /** What is decoded so far, in front of what the rest decodes to. */
  function After(out: Text, rest: Option<Text>): Option<Text> {
    if rest.None? then None else Some(out + rest.value)
  }

  lemma AfterPrepend(out: Text, b: u8, rest: Option<Text>)
    ensures After(out, Prepend(b, rest)) == After(out + [b], rest)
  {
    if rest.Some? {
      assert out + ([b] + rest.value) == out + [b] + rest.value;
    }
  }

  lemma AfterNothing(rest: Option<Text>)
    ensures After([], rest) == rest
  {
    if rest.Some? {
      assert [] + rest.value == rest.value;
    }
  }

  lemma AfterNone(out: Text)
    ensures After(out, None) == None
  {
  }

  // ---------------------------------------------------------------- decimal numbers

  predicate IsDigit(c: u8) {
    '0' as int <= c <= '9' as int
  }

  function PrintNat(n: nat): (s: Text)
    ensures s != []
  {
    if n < 10 then ['0' as int + n] else PrintNat(n / 10) + ['0' as int + n % 10]
  }

  function DigitsValue(s: Text): Option<nat> {
    if s == [] then Some(0) else
      var rest, c := DigitsValue(s[..|s| - 1]), s[|s| - 1];
      if rest.None? || !IsDigit(c) then None else Some(10 * rest.value + (c - '0' as int))
  }

  /** How the standard library reads an unsigned number: an optional plus sign, then digits. */
  function ParseU64(s: Text): Option<u64> {
    if s == [] then None else
      var digits := if |s| > 1 && s[0] == '+' as int then s[1..] else s;
      var value := DigitsValue(digits);
      if value.None? || value.value > 0xffff_ffff_ffff_ffff then None else Some(value.value)
  }

  lemma {:induction false} PrintedDigits(n: nat)
    ensures DigitsValue(PrintNat(n)) == Some(n)
    ensures forall c :: c in PrintNat(n) ==> IsDigit(c)
  {
    if n < 10 {
      assert [('0' as int + n) as u8][..0] == [];
    } else {
      PrintedDigits(n / 10);
      var s := PrintNat(n);
      assert s[..|s| - 1] == PrintNat(n / 10);
    }
  }

  lemma ParsePrinted(n: u64)
    ensures ParseU64(PrintNat(n)) == Some(n)
  {
    PrintedDigits(n);
    assert PrintNat(n)[0] in PrintNat(n);
  }

  /** A further digit multiplies by ten. */
  lemma DigitsNext(s: Text, c: u8)
    ensures DigitsValue([]) == Some(0)
    ensures DigitsValue(s + [c]) ==
            if DigitsValue(s).Some? && 48 <= c <= 57 then Some(10 * DigitsValue(s).value + (c - 48)) else None
  {
    assert (s + [c])[..|s|] == s;
  }

  /** Numbers are printed without leading zeros. */
  lemma {:induction false} PrintedCanonical(n: nat)
    ensures n >= 10 ==> PrintNat(n)[0] != 48
    ensures n >= 1 ==> PrintNat(n)[0] != 48
    ensures n < 10 ==> |PrintNat(n)| == 1
  {
    if n >= 10 {
      PrintedCanonical(n / 10);
    }
  }

  lemma {:induction false} DigitsOnly(s: Text)
    requires DigitsValue(s).Some?
    ensures forall c :: c in s ==> IsDigit(c)
  {
    if s != [] {
      DigitsOnly(s[..|s| - 1]);
      assert s == s[..|s| - 1] + [s[|s| - 1]];
    }
  }

  lemma ParsedDigits(s: Text, digits: Text, v: u64)
    requires digits != [] && (s == digits || s == [43] + digits) && DigitsValue(digits) == Some(v)
    ensures ParseU64(s) == Some(v)
  {
    DigitsOnly(digits);
    hide DigitsValue;
    assert digits[0] in digits;
    if s != digits {
      assert s[1..] == digits;
    }
  }

  /** What is read as a number: one or more digits, with or without a plus sign, whose value fits 64 bits. */
  lemma ParseIff(s: Text, v: u64)
    ensures ParseU64(s) == Some(v) <==>
            exists digits: Text ::
              && digits != [] && (s == digits || s == [43] + digits) && DigitsValue(digits) == Some(v)
  {
    hide DigitsValue;
    if ParseU64(s) == Some(v) {
      var digits := if |s| > 1 && s[0] == 43 then s[1..] else s;
      assert DigitsValue(digits) == Some(v);
      assert s == digits || s == [43] + digits;
    }
    forall digits: Text | digits != [] && (s == digits || s == [43] + digits) && DigitsValue(digits) == Some(v)
      ensures ParseU64(s) == Some(v)
    {
      ParsedDigits(s, digits, v);
    }
  }
}
