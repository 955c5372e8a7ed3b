/** The `tardus://` payment URI: printer, parser and the round trip between them. */
module Invoice {
  import opened Wrappers
  import opened Octets
  import opened Text
  import Hex
  import Percent
  import Base64Url

  type PubkeyBytes = s: seq<u8> | |s| == 32 witness seq(32, i => 0)

  datatype Invoice = Invoice(recipient: PubkeyBytes, denom: u64, relays: seq<Text>, memo: Option<Text>)

  const MEMO_MAX_BYTES: nat := 128

  function Scheme(): Text { Ascii("tardus://") }

  const QUESTION: u8 := '?' as int
  const AMPERSAND: u8 := '&' as int
  const EQUALS: u8 := '=' as int

  // ---------------------------------------------------------------- printing

  function DenomParam(denom: u64): Text { Ascii("denom") + ([EQUALS] + PrintNat(denom)) }
  function RelayParam(relay: Text): Text { Ascii("relay") + ([EQUALS] + Percent.UrlEncode(relay)) }
  function MemoParam(memo: Text): Text { Ascii("memo") + ([EQUALS] + Base64Url.Encode(memo)) }

  function RelayParams(relays: seq<Text>): (ps: seq<Text>)
    ensures |ps| == |relays|
  {
    seq(|relays|, j requires 0 <= j < |relays| => RelayParam(relays[j]))
  }

  function Params(inv: Invoice): (ps: seq<Text>)
    ensures ps != []
  {
    [DenomParam(inv.denom)] + RelayParams(inv.relays) +
    (match inv.memo case None => [] case Some(memo) => [MemoParam(memo)])
  }

  function Uri(inv: Invoice): Text {
    Scheme() + (Hex.EncodeHex(inv.recipient) + ([QUESTION] + Join(Params(inv), AMPERSAND)))
  }

  method ToUri(inv: Invoice) returns (out: Text)
    ensures out == Uri(inv)
  {
    hide Percent.UrlEncode, Base64Url.Encode, PrintNat, Hex.EncodeHex, Join, Ascii;
    out := Scheme();
    var hex := Hex.EncodeHexLoop(inv.recipient);
    out := out + hex;
    out := out + [QUESTION];
    var params: seq<Text> := [DenomParam(inv.denom)];
    for j := 0 to |inv.relays|
      invariant params == [DenomParam(inv.denom)] + RelayParams(inv.relays)[..j]
    {
      var encoded := Percent.UrlEncodeLoop(inv.relays[j]);
      params := params + [Ascii("relay") + ([EQUALS] + encoded)];
    }
    if inv.memo.Some? {
      var encoded := Base64Url.EncodeLoop(inv.memo.value);
      params := params + [Ascii("memo") + ([EQUALS] + encoded)];
    }
    assert params == Params(inv);
    ghost var query := Join(params, AMPERSAND);
    assert Scheme() + hex + [QUESTION] + query == Scheme() + (hex + ([QUESTION] + query));
    out := out + Join(params, AMPERSAND);
  }

  // ---------------------------------------------------------------- parsing

  /** What the parameters read so far have set. */
  datatype Fields = Fields(denom: Option<u64>, relays: seq<Text>, memo: Option<Text>)

  /** One parameter; unknown keys are ignored, later values replace earlier ones except for relays. */
  function ReadParam(f: Fields, pair: Text): Result<Fields> {
    match SplitOnce(pair, EQUALS)
    case None => Err(WrongScheme)
    case Some((key, v)) =>
      if key == Ascii("denom") then
        match ParseU64(v)
        case None => Err(InvalidDenom)
        case Some(d) => Ok(f.(denom := Some(d)))
      else if key == Ascii("relay") then
        match Percent.UrlDecode(v)
        case None => Err(InvalidRelayUrl)
        case Some(relay) => if relay == [] then Err(InvalidRelayUrl) else Ok(f.(relays := f.relays + [relay]))
      else if key == Ascii("memo") then
        match Base64Url.Decode(v)
        case None => Err(MemoNotBase64)
        case Some(memo) => if |memo| > MEMO_MAX_BYTES then Err(MemoTooLong) else Ok(f.(memo := Some(memo)))
      else Ok(f)
  }

  const NOTHING: Fields := Fields(None, [], None)

  function ReadParams(pairs: seq<Text>): Result<Fields> {
    if pairs == [] then Ok(NOTHING) else
      var f :- ReadParams(pairs[..|pairs| - 1]);
      var last := pairs[|pairs| - 1];
      if last == [] then Ok(f) else ReadParam(f, last)
  }

  function ParseBody(body: Text): Result<Invoice> {
    var (host, query) := match SplitOnce(body, QUESTION) case Some(parts) => parts case None => (body, []);
    if host == [] then Err(MissingRecipient)
    else
      var recipient := Hex.DecodeHex32(host);
      if recipient.None? then Err(InvalidRecipientHex) else
        var f :- ReadParams(Split(query, AMPERSAND));
        if f.denom.None? then Err(MissingDenom)
        else Ok(Invoice(recipient.value, f.denom.value, f.relays, f.memo))
  }

  function Parsed(uri: Text): Result<Invoice> {
    var scheme := Scheme();
    if |uri| < |scheme| || uri[..|scheme|] != scheme then Err(WrongScheme) else ParseBody(uri[|scheme|..])
  }

  lemma {:induction false} ReadParamsStops(pairs: seq<Text>, j: nat)
    requires j <= |pairs|
    ensures ReadParams(pairs[..j]).Err? ==> ReadParams(pairs) == ReadParams(pairs[..j])
    decreases |pairs|
  {
    hide ReadParam;
    if j == |pairs| {
      assert pairs[..j] == pairs;
    } else {
      var rest := pairs[..|pairs| - 1];
      assert rest[..j] == pairs[..j];
      ReadParamsStops(rest, j);
    }
  }

  method ReadOne(f: Fields, pair: Text) returns (r: Result<Fields>)
    ensures r == ReadParam(f, pair)
  {
    hide ParseU64, Percent.UrlDecode, Base64Url.Decode, SplitOnce, Ascii;
    var split := SplitOnce(pair, EQUALS);
    if split.None? {
      return Err(WrongScheme);
    }
    var (key, v) := split.value;
    if key == Ascii("denom") {
      var d := ParseU64(v);
      if d.None? {
        return Err(InvalidDenom);
      }
      r := Ok(f.(denom := Some(d.value)));
    } else if key == Ascii("relay") {
      var relay := Percent.UrlDecodeLoop(v);
      if relay.None? || relay.value == [] {
        return Err(InvalidRelayUrl);
      }
      r := Ok(f.(relays := f.relays + [relay.value]));
    } else if key == Ascii("memo") {
      var memo := Base64Url.DecodeLoop(v);
      if memo.None? {
        return Err(MemoNotBase64);
      }
      if |memo.value| > MEMO_MAX_BYTES {
        return Err(MemoTooLong);
      }
      r := Ok(f.(memo := Some(memo.value)));
    } else {
      r := Ok(f);
    }
  }

  method Parse(uri: Text) returns (r: Result<Invoice>)
    ensures r == Parsed(uri)
  {
    hide ReadParam, SplitOnce, Split, Ascii, Hex.DecodeHex;
    var scheme := Scheme();
    if |uri| < |scheme| || uri[..|scheme|] != scheme {
      return Err(WrongScheme);
    }
    var body := uri[|scheme|..];
    var split := SplitOnce(body, QUESTION);
    var (host, query) := if split.Some? then split.value else (body, []);
    if host == [] {
      return Err(MissingRecipient);
    }
    var recipient := Hex.DecodeHexLoop(host);
    if recipient.None? {
      return Err(InvalidRecipientHex);
    }
    var pairs := Split(query, AMPERSAND);
    var f := NOTHING;
    for j := 0 to |pairs|
      invariant ReadParams(pairs[..j]) == Ok(f)
    {
      assert pairs[..j + 1][..j] == pairs[..j];
      ReadParamsStops(pairs, j + 1);
      if pairs[j] != [] {
        f :- ReadOne(f, pairs[j]);
      }
    }
    assert pairs[..|pairs|] == pairs;
    if f.denom.None? {
      return Err(MissingDenom);
    }
    r := Ok(Invoice(recipient.value, f.denom.value, f.relays, f.memo));
  }

  // ---------------------------------------------------------------- the round trip

  lemma Keys()
    ensures Ascii("denom") == [100, 101, 110, 111, 109]
    ensures Ascii("relay") == [114, 101, 108, 97, 121]
    ensures Ascii("memo") == [109, 101, 109, 111]
  {
  }

  lemma DenomRead(f: Fields, denom: u64)
    ensures ReadParam(f, DenomParam(denom)) == Ok(f.(denom := Some(denom)))
    ensures DenomParam(denom) != [] && AMPERSAND !in DenomParam(denom)
  {
    hide PrintNat, ParseU64, Percent.UrlDecode, Base64Url.Decode, SplitOnce, Ascii;
    Keys();
    SplitOnceAt(Ascii("denom"), EQUALS, PrintNat(denom));
    ParsePrinted(denom);
    PrintedDigits(denom);
  }

  /** A relay survives iff it is a non-empty ASCII string. */
  lemma RelayRead(f: Fields, relay: Text)
    ensures ReadParam(f, RelayParam(relay)) ==
            if relay != [] && Percent.IsAscii(relay) then Ok(f.(relays := f.relays + [relay]))
            else Err(InvalidRelayUrl)
    ensures RelayParam(relay) != [] && AMPERSAND !in RelayParam(relay)
  {
    hide PrintNat, ParseU64, Percent.UrlDecode, Percent.UrlEncode, Base64Url.Decode, SplitOnce, Ascii, Percent.IsAscii;
    Keys();
    SplitOnceAt(Ascii("relay"), EQUALS, Percent.UrlEncode(relay));
    Percent.DecodeEncodeUrl(relay);
    Percent.EncodedIsClean(relay);
  }

  /** A memo survives iff it is not too long. */
  lemma MemoRead(f: Fields, memo: Text)
    ensures ReadParam(f, MemoParam(memo)) ==
            if |memo| <= MEMO_MAX_BYTES then Ok(f.(memo := Some(memo))) else Err(MemoTooLong)
    ensures MemoParam(memo) != [] && AMPERSAND !in MemoParam(memo)
  {
    hide PrintNat, ParseU64, Percent.UrlDecode, Base64Url.Decode, Base64Url.Encode, SplitOnce, Ascii;
    Keys();
    SplitOnceAt(Ascii("memo"), EQUALS, Base64Url.Encode(memo));
    Base64Url.RoundTrip(memo);
    Base64Url.EncodedIsClean(memo);
  }

  ghost predicate GoodRelays(relays: seq<Text>) {
    forall j :: 0 <= j < |relays| ==> relays[j] != [] && Percent.IsAscii(relays[j])
  }

  lemma ReadNext(pairs: seq<Text>, pair: Text)
    requires pair != []
    ensures ReadParams(pairs + [pair]) ==
            if ReadParams(pairs).Ok? then ReadParam(ReadParams(pairs).value, pair) else ReadParams(pairs)
  {
    assert (pairs + [pair])[..|pairs|] == pairs;
  }

  lemma {:induction false} RelaysRead(denom: u64, relays: seq<Text>)
    ensures var f := ReadParams([DenomParam(denom)] + RelayParams(relays));
            if GoodRelays(relays) then f == Ok(Fields(Some(denom), relays, None)) else f.Err?
  {
    hide ReadParam, DenomParam, RelayParam, Percent.IsAscii;
    var first := [DenomParam(denom)];
    if relays == [] {
      DenomRead(NOTHING, denom);
      ReadNext([], DenomParam(denom));
      assert first + RelayParams(relays) == first && [] + first == first;
    } else {
      var rest, relay := relays[..|relays| - 1], relays[|relays| - 1];
      RelaysRead(denom, rest);
      assert first + RelayParams(relays) == first + RelayParams(rest) + [RelayParam(relay)];
      assert relays == rest + [relay];
      RelayRead(NOTHING, relay);
      ReadNext(first + RelayParams(rest), RelayParam(relay));
      if GoodRelays(rest) {
        RelayRead(Fields(Some(denom), rest, None), relay);
      }
    }
  }

  ghost predicate Printable(inv: Invoice) {
    GoodRelays(inv.relays) && (inv.memo.Some? ==> |inv.memo.value| <= 128)
  }

  lemma ParamsRead(inv: Invoice)
    ensures var f := ReadParams(Params(inv));
            if Printable(inv) then f == Ok(Fields(Some(inv.denom), inv.relays, inv.memo)) else f.Err?
  {
    hide ReadParam, DenomParam, RelayParam, MemoParam, GoodRelays, RelayParams;
    var most := [DenomParam(inv.denom)] + RelayParams(inv.relays);
    RelaysRead(inv.denom, inv.relays);
    if inv.memo.Some? {
      MemoRead(NOTHING, inv.memo.value);
      ReadNext(most, MemoParam(inv.memo.value));
      if GoodRelays(inv.relays) {
        MemoRead(Fields(Some(inv.denom), inv.relays, None), inv.memo.value);
      }
    } else {
      assert most + [] == most;
    }
  }

  lemma ParamsClean(inv: Invoice)
    ensures forall j :: 0 <= j < |Params(inv)| ==> AMPERSAND !in Params(inv)[j]
  {
    hide DenomParam, RelayParam, MemoParam;
    DenomRead(NOTHING, inv.denom);
    forall j | 0 <= j < |inv.relays|
      ensures AMPERSAND !in RelayParams(inv.relays)[j]
    {
      RelayRead(NOTHING, inv.relays[j]);
    }
    if inv.memo.Some? {
      MemoRead(NOTHING, inv.memo.value);
    }
  }

  lemma UriStarts(rest: Text)
    ensures var uri := Scheme() + rest;
            |uri| >= |Scheme()| && uri[..|Scheme()|] == Scheme() && uri[|Scheme()|..] == rest
  {
    hide Scheme;
  }

  lemma HostRead(bytes: PubkeyBytes, query: Text)
    ensures var host := Hex.EncodeHex(bytes);
            && SplitOnce(host + ([QUESTION] + query), QUESTION) == Some((host, query))
            && host != [] && Hex.DecodeHex32(host) == Some(bytes)
  {
    hide Hex.EncodeHex, Hex.DecodeHex, SplitOnce;
    var host := Hex.EncodeHex(bytes);
    Hex.HexDigits(bytes);
    Hex.DecodeEncodeHex(bytes);
    SplitOnceAt(host, QUESTION, query);
  }

  /** Round trip: a printed invoice parses back to itself exactly when its relays are non-empty ASCII
      strings and its memo, if any, has at most 128 octets; any other invoice prints to a URI that
      the parser rejects. */
  lemma InvoiceRoundTrip(inv: Invoice)
    ensures if Printable(inv) then Parsed(Uri(inv)) == Ok(inv) else Parsed(Uri(inv)).Err?
  {
    hide Printable, ReadParams, Split, SplitOnce, Join, Hex.EncodeHex, Hex.DecodeHex32, Scheme, Params;
    var query := Join(Params(inv), AMPERSAND);
    var host := Hex.EncodeHex(inv.recipient);
    UriStarts(host + ([QUESTION] + query));
    HostRead(inv.recipient, query);
    ParamsClean(inv);
    SplitJoin(Params(inv), AMPERSAND);
    ParamsRead(inv);
  }
}
