/** Which texts are invoices and what they mean, parameter by parameter. */
module InvoiceGrammar {
  import opened Wrappers
  import opened Octets
  import opened Text
  import opened I = Invoice
  import Hex
  import Percent
  import Base64Url

  // ---------------------------------------------------------------- what parameters mean

  /** The parameter starts with the key and an equals sign. */
  predicate Names(pair: Text, key: Text) {
    key + [61] <= pair
  }

  function Denom(): (key: Text)
    ensures |key| == 5
  {
    Ascii("denom")
  }

  function Relay(): (key: Text)
    ensures |key| == 5
  {
    Ascii("relay")
  }

  function Memo(): (key: Text)
    ensures |key| == 4
  {
    Ascii("memo")
  }

  /** What is wrong with a parameter; nothing is wrong with an empty one, nor with the value of an unknown key. */
  function Fault(pair: Text): Option<Error> {
    if pair == [] then None
    else if 61 !in pair then Some(WrongScheme)
    else if Names(pair, Denom()) then if ParseU64(pair[6..]).None? then Some(InvalidDenom) else None
    else if Names(pair, Relay()) then
      if Percent.UrlDecode(pair[6..]) in {None, Some([])} then Some(InvalidRelayUrl) else None
    else if Names(pair, Memo()) then
      match Base64Url.Decode(pair[5..])
      case None => Some(MemoNotBase64)
      case Some(memo) => if |memo| > 128 then Some(MemoTooLong) else None
    else None
  }

  function FirstFault(pairs: seq<Text>): Option<Error> {
    if pairs == [] then None
    else if FirstFault(pairs[..|pairs| - 1]).Some? then FirstFault(pairs[..|pairs| - 1])
    else Fault(pairs[|pairs| - 1])
  }

  /** The last denomination given counts. */
  function LastDenom(pairs: seq<Text>): Option<u64> {
    if pairs == [] then None
    else if Names(pairs[|pairs| - 1], Denom()) then ParseU64(pairs[|pairs| - 1][6..])
    else LastDenom(pairs[..|pairs| - 1])
  }

  /** The last memo given counts. */
  function LastMemo(pairs: seq<Text>): Option<Text> {
    if pairs == [] then None
    else if Names(pairs[|pairs| - 1], Memo()) then Base64Url.Decode(pairs[|pairs| - 1][5..])
    else LastMemo(pairs[..|pairs| - 1])
  }

  /** All relays count, in order. */
  function AllRelays(pairs: seq<Text>): seq<Text> {
    if pairs == [] then [] else
      var rest, last := AllRelays(pairs[..|pairs| - 1]), pairs[|pairs| - 1];
      if Names(last, Relay()) && Percent.UrlDecode(last[6..]).Some?
      then rest + [Percent.UrlDecode(last[6..]).value] else rest
  }

  // ---------------------------------------------------------------- the parser reads them so

  /** What stands before the first equals sign is the key. */
  lemma KeyNamed(key: Text, v: Text, k: Text)
    requires 61 !in key && 61 !in k
    ensures var pair := key + ([61] + v);
            && (Names(pair, k) <==> key == k)
            && pair[|key| + 1..] == v
  {
    var pair := key + ([61] + v);
    assert pair == key + [61] + v;
    if Names(pair, k) {
      var rest := pair[|k| + 1..];
      assert pair == k + ([61] + rest);
      SplitOnceIff(pair, 61, key, v);
      SplitOnceIff(pair, 61, k, rest);
    }
  }

  lemma KeysDiffer()
    ensures 61 !in Denom() && 61 !in Relay() && 61 !in Memo()
    ensures Denom() != Relay() && Denom() != Memo() && Relay() != Memo()
  {
    assert Denom()[0] == 100 && Relay()[0] == 114 && Memo()[0] == 109;
  }

  /** Reading one parameter: its fault, or the field it sets. */
  lemma ParamIs(f: Fields, pair: Text)
    requires pair != []
    ensures ReadParam(f, pair) ==
            if Fault(pair).Some? then Err(Fault(pair).value)
            else if Names(pair, Denom()) then Ok(f.(denom := ParseU64(pair[6..])))
            else if Names(pair, Relay()) && Percent.UrlDecode(pair[6..]).Some?
            then Ok(f.(relays := f.relays + [Percent.UrlDecode(pair[6..]).value]))
            else if Names(pair, Memo()) then Ok(f.(memo := Base64Url.Decode(pair[5..])))
            else Ok(f)
  {
    hide ParseU64, Percent.UrlDecode, Base64Url.Decode, SplitOnce, Ascii, Names;
    SplitOnceParts(pair, 61);
    KeysDiffer();
    match SplitOnce(pair, 61)
    case None =>
    case Some((key, v)) =>
      KeyNamed(key, v, Denom());
      KeyNamed(key, v, Relay());
      KeyNamed(key, v, Memo());
  }

  lemma ReferenceNext(pairs: seq<Text>, pair: Text)
    ensures FirstFault(pairs + [pair]) == if FirstFault(pairs).Some? then FirstFault(pairs) else Fault(pair)
    ensures LastDenom(pairs + [pair]) == if Names(pair, Denom()) then ParseU64(pair[6..]) else LastDenom(pairs)
    ensures LastMemo(pairs + [pair]) ==
            if Names(pair, Memo()) then Base64Url.Decode(pair[5..]) else LastMemo(pairs)
    ensures AllRelays(pairs + [pair]) ==
            if Names(pair, Relay()) && Percent.UrlDecode(pair[6..]).Some?
            then AllRelays(pairs) + [Percent.UrlDecode(pair[6..]).value] else AllRelays(pairs)
  {
    hide ParseU64, Percent.UrlDecode, Base64Url.Decode, Names, Fault;
    assert (pairs + [pair])[..|pairs|] == pairs;
  }

  lemma EmptyNamesNothing()
    ensures !Names([], Denom()) && !Names([], Relay()) && !Names([], Memo())
  {
  }

  lemma OneName(pair: Text)
    ensures Names(pair, Denom()) ==> !Names(pair, Relay()) && !Names(pair, Memo())
    ensures Names(pair, Relay()) ==> !Names(pair, Memo())
  {
    assert Denom()[0] == 100 && Relay()[0] == 114 && Memo()[0] == 109;
    assert Names(pair, Denom()) ==> pair[0] == (Denom() + [61])[0];
    assert Names(pair, Relay()) ==> pair[0] == (Relay() + [61])[0];
    assert Names(pair, Memo()) ==> pair[0] == (Memo() + [61])[0];
  }

  /** What the fields are after further parameters. */
  ghost function Meaning(pairs: seq<Text>): Result<Fields> {
    if FirstFault(pairs).Some? then Err(FirstFault(pairs).value)
    else Ok(Fields(LastDenom(pairs), AllRelays(pairs), LastMemo(pairs)))
  }

  lemma MeaningNext(pairs: seq<Text>, pair: Text)
    ensures Meaning(pairs + [pair]) ==
            if Meaning(pairs).Err? || pair == [] then Meaning(pairs) else ReadParam(Meaning(pairs).value, pair)
  {
    hide ParseU64, Percent.UrlDecode, Base64Url.Decode, Names, ReadParam, FirstFault, LastDenom, LastMemo, AllRelays;
    ReferenceNext(pairs, pair);
    OneName(pair);
    EmptyNamesNothing();
    if Meaning(pairs).Ok? && pair != [] {
      ParamIs(Meaning(pairs).value, pair);
    }
  }

  lemma ReadParamsNext(pairs: seq<Text>, pair: Text)
    ensures ReadParams([]) == Ok(Fields(None, [], None)) == Meaning([])
    ensures ReadParams(pairs + [pair]) ==
            if ReadParams(pairs).Err? || pair == [] then ReadParams(pairs) else ReadParam(ReadParams(pairs).value, pair)
  {
    hide ReadParam;
    assert (pairs + [pair])[..|pairs|] == pairs;
  }

  /** The parser's loop over the parameters: the first fault, or what the last denomination, the last memo and
      all relays say. */
  lemma {:induction false} ParamsAre(pairs: seq<Text>)
    ensures ReadParams(pairs) == Meaning(pairs)
  {
    hide *;
    if pairs == [] {
      ReadParamsNext([], []);
    } else {
      var before, pair := pairs[..|pairs| - 1], pairs[|pairs| - 1];
      assert pairs == before + [pair];
      ParamsAre(before);
      ReadParamsNext(before, pair);
      MeaningNext(before, pair);
    }
  }

  // ---------------------------------------------------------------- whole texts

  /** The address of an invoice with these parameters. */
  function Address(host: Text, pairs: seq<Text>): Text {
    Ascii("tardus://") + (host + ([63] + Join(pairs, 38)))
  }

  /** Parameters as they stand between ampersands; there is always at least one, possibly empty. */
  ghost predicate Separate(pairs: seq<Text>) {
    pairs != [] && forall j :: 0 <= j < |pairs| ==> 38 !in pairs[j]
  }

  /** The parser, exactly: the recipient is checked first, then the parameters in order, then whether there was
      a denomination. */
  lemma ParsedIs(host: Text, pairs: seq<Text>)
    requires 63 !in host && Separate(pairs)
    ensures Parsed(Address(host, pairs)) ==
            if host == [] then Err(MissingRecipient)
            else if Hex.DecodeHex32(host).None? then Err(InvalidRecipientHex)
            else if FirstFault(pairs).Some? then Err(FirstFault(pairs).value)
            else if LastDenom(pairs).None? then Err(MissingDenom)
            else Ok(I.Invoice(Hex.DecodeHex32(host).value, LastDenom(pairs).value, AllRelays(pairs),
                                    LastMemo(pairs)))
  {
    assert Scheme() == Ascii("tardus://");
    hide ReadParams, Split, SplitOnce, Join, Hex.DecodeHex, FirstFault, LastDenom, LastMemo, AllRelays, Scheme;
    var query := Join(pairs, 38);
    UriStarts(host + ([63] + query));
    SplitOnceAt(host, 63, query);
    SplitJoin(pairs, 38);
    ParamsAre(pairs);
  }

  /** Without a question mark there are no parameters, so no denomination. */
  lemma ParsedBare(host: Text)
    requires 63 !in host
    ensures Parsed(Ascii("tardus://") + host) ==
            if host == [] then Err(MissingRecipient)
            else if Hex.DecodeHex32(host).None? then Err(InvalidRecipientHex)
            else Err(MissingDenom)
  {
    assert Scheme() == Ascii("tardus://");
    hide ReadParam, SplitOnce, Hex.DecodeHex, Scheme;
    UriStarts(host);
    SplitOnceAbsent(host, 63);
    SplitOnceAbsent([], 38);
    var one: seq<Text> := [[]];
    assert one[..0] == [];
  }

  /** Every text with the scheme is of one of the two forms. */
  lemma EveryForm(uri: Text) returns (host: Text, pairs: seq<Text>)
    requires Ascii("tardus://") <= uri
    ensures 63 !in host && Separate(pairs)
    ensures uri == Ascii("tardus://") + host || uri == Address(host, pairs)
  {
    hide Ascii, SplitOnce, Split, Join;
    var body := uri[|Ascii("tardus://")|..];
    assert uri == Ascii("tardus://") + body;
    SplitOnceParts(body, 63);
    match SplitOnce(body, 63)
    case None =>
      host, pairs := body, [[]];
    case Some((before, query)) =>
      JoinSplit(query, 38);
      host, pairs := before, Split(query, 38);
      forall j | 0 <= j < |pairs|
        ensures 38 !in pairs[j]
      {
        assert pairs[j] in pairs;
      }
  }

  lemma ParamTexts(denom: u64, relay: Text, memo: Text)
    ensures DenomParam(denom) == Ascii("denom=") + PrintNat(denom)
    ensures RelayParam(relay) == Ascii("relay=") + Percent.UrlEncode(relay)
    ensures MemoParam(memo) == Ascii("memo=") + Base64Url.Encode(memo)
  {
    hide Percent.UrlEncode, Base64Url.Encode, PrintNat;
    assert Ascii("denom=") == Ascii("denom") + [61] && Ascii("relay=") == Ascii("relay") + [61];
    assert Ascii("memo=") == Ascii("memo") + [61];
  }

  /** The printer's text: the denomination first, then the relays in order, then the memo. */
  lemma PrintedParts(inv: I.Invoice)
    ensures Uri(inv) == Address(Hex.EncodeHex(inv.recipient), Params(inv))
    ensures var pairs, n := Params(inv), |inv.relays|;
            && |pairs| == (if inv.memo.Some? then n + 2 else n + 1)
            && pairs[0] == Ascii("denom=") + PrintNat(inv.denom)
            && (forall j :: 0 <= j < n ==> pairs[j + 1] == Ascii("relay=") + Percent.UrlEncode(inv.relays[j]))
            && (inv.memo.Some? ==> pairs[n + 1] == Ascii("memo=") + Base64Url.Encode(inv.memo.value))
  {
    assert Scheme() == Ascii("tardus://");
    hide DenomParam, RelayParam, MemoParam, Percent.UrlEncode, Base64Url.Encode, PrintNat, Hex.EncodeHex, Join, Ascii,
      Scheme;
    ParamTexts(inv.denom, [], if inv.memo.Some? then inv.memo.value else []);
    forall j | 0 <= j < |inv.relays|
      ensures Params(inv)[j + 1] == Ascii("relay=") + Percent.UrlEncode(inv.relays[j])
    {
      ParamTexts(inv.denom, inv.relays[j], []);
    }
  }

  /** What is printed without an escape: the symbols of base64 and four more characters. */
  lemma UnreservedIff(b: u8)
    ensures Percent.Unreserved(b) <==>
            Base64Url.Index(b).Some? || b == '.' as int || b == '~' as int || b == '/' as int || b == ':' as int
  {
  }

  // ---------------------------------------------------------------- laws

  /** A parameter with an unknown key says nothing. */
  lemma {:induction false} UnknownSaysNothing(p: seq<Text>, pair: Text, q: seq<Text>)
    requires 61 in pair && !Names(pair, Denom()) && !Names(pair, Relay()) && !Names(pair, Memo())
    ensures Meaning(p + [pair] + q) == Meaning(p + q)
    decreases |q|
  {
    if q == [] {
      MeaningNext(p, pair);
      hide *;
      assert p + [pair] + [] == p + [pair] && p + [] == p;
      UnknownKey(p, pair);
    } else {
      hide *;
      var q', last := q[..|q| - 1], q[|q| - 1];
      UnknownSaysNothing(p, pair, q');
      assert p + [pair] + q == p + [pair] + q' + [last] && p + q == p + q' + [last];
      MeaningNext(p + [pair] + q', last);
      MeaningNext(p + q', last);
    }
  }

  lemma UnknownKey(p: seq<Text>, pair: Text)
    requires 61 in pair && !Names(pair, Denom()) && !Names(pair, Relay()) && !Names(pair, Memo())
    ensures Meaning(p + [pair]) == Meaning(p)
  {
    hide Names, FirstFault, LastDenom, LastMemo, AllRelays;
    ReferenceNext(p, pair);
  }

  lemma SeparateWith(p: seq<Text>, pair: Text, q: seq<Text>)
    requires 38 !in pair && Separate(p + q)
    ensures Separate(p + [pair] + q)
  {
    forall j | 0 <= j < |p + [pair] + q|
      ensures 38 !in (p + [pair] + q)[j]
    {
      assert j < |p| ==> (p + [pair] + q)[j] == (p + q)[j];
      assert j > |p| ==> (p + [pair] + q)[j] == (p + q)[j - 1];
    }
  }

  /** So adding it anywhere does not change what is parsed. */
  lemma UnknownIgnored(host: Text, p: seq<Text>, pair: Text, q: seq<Text>)
    requires 63 !in host && 38 !in pair && Separate(p + q)
    requires 61 in pair && !Names(pair, Denom()) && !Names(pair, Relay()) && !Names(pair, Memo())
    ensures Parsed(Address(host, p + [pair] + q)) == Parsed(Address(host, p + q))
  {
    hide Names, FirstFault, LastDenom, LastMemo, AllRelays, Address, Parsed, Hex.DecodeHex32;
    SeparateWith(p, pair, q);
    UnknownSaysNothing(p, pair, q);
    ParsedIs(host, p + [pair] + q);
    ParsedIs(host, p + q);
  }

  /** A later denomination replaces an earlier one: what counts is the one that none follows. */
  lemma {:induction false} LaterDenomReplaces(p: seq<Text>, pair: Text, q: seq<Text>)
    requires Names(pair, Denom()) && forall j :: 0 <= j < |q| ==> !Names(q[j], Denom())
    ensures LastDenom(p + [pair] + q) == ParseU64(pair[6..])
    decreases |q|
  {
    hide Names, ParseU64;
    if q == [] {
      ReferenceNext(p, pair);
      assert p + [pair] + q == p + [pair];
    } else {
      var q', last := q[..|q| - 1], q[|q| - 1];
      LaterDenomReplaces(p, pair, q');
      ReferenceNext(p + [pair] + q', last);
      assert p + [pair] + q == p + [pair] + q' + [last];
    }
  }
}
