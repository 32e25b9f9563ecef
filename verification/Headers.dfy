/** End-to-end header filtering and the request headers sent upstream. */
module Headers {
  import opened Bytes
  import opened Decimals
  import opened ConnectionLists

  const CONTENT_LENGTH := "content-length"
  const AUTHORIZATION := "authorization"

  const HOP_BY_HOP: seq<string> := [
    "connection", "proxy-connection", "keep-alive", "proxy-authenticate", "proxy-authorization",
    "te", "trailer", "transfer-encoding", "upgrade"
  ]

  const REQUEST_STRIP: seq<string> := [
    "host", "content-length", "authorization", "x-api-key", "x-model", "expect"
  ]

  const RESPONSE_STRIP: seq<string> := []

  /** The names that concern one connection only. */
  ghost predicate IsForOneHop(name: string) {
    || name == "connection" || name == "proxy-connection" || name == "keep-alive" || name == "te"
    || name == "proxy-authenticate" || name == "proxy-authorization"
    || name == "trailer" || name == "transfer-encoding" || name == "upgrade"
  }

  /** The names that concern the gateway only: its address, the client's body and credentials, its routing. */
  ghost predicate IsForGateway(name: string) {
    || name == "host" || name == "expect" || name == "content-length"
    || name == "authorization" || name == "x-api-key" || name == "x-model"
  }

  lemma ForOneHopIs(name: string)
    ensures name in HOP_BY_HOP <==> IsForOneHop(name)
  {
    var names := HOP_BY_HOP;
    assert names[0] == "connection" && names[1] == "proxy-connection" && names[2] == "keep-alive";
    assert names[3] == "proxy-authenticate" && names[4] == "proxy-authorization" && names[5] == "te";
    assert names[6] == "trailer" && names[7] == "transfer-encoding" && names[8] == "upgrade";
  }

  lemma ForGatewayIs(name: string)
    ensures name in REQUEST_STRIP <==> IsForGateway(name)
  {
    var names := REQUEST_STRIP;
    assert names[0] == "host" && names[1] == "content-length" && names[2] == "authorization";
    assert names[3] == "x-api-key" && names[4] == "x-model" && names[5] == "expect";
  }

  // ---- copying ----

  predicate Stripped(name: string, extra: seq<string>, tokens: seq<string>) {
    name in HOP_BY_HOP || name in extra || name in tokens
  }

  function Kept(source: HeaderMap, extra: seq<string>, tokens: seq<string>): HeaderMap {
    if source == [] then []
    else
      var last := source[|source| - 1];
      Kept(source[..|source| - 1], extra, tokens) + if Stripped(last.name, extra, tokens) then [] else [last]
  }

  function Copied(source: HeaderMap, extra: seq<string>): HeaderMap {
    Kept(source, extra, AllTokens(Values(source, CONNECTION)))
  }

  method CopyHeaders(source: HeaderMap, target: HeaderMap, extra: seq<string>) returns (result: HeaderMap)
    ensures result == target + Copied(source, extra)
  {
    result := target;
    var tokens := ConnectionTokens(source);
    for n := 0 to |source|
      invariant result == target + Kept(source[..n], extra, tokens)
    {
      assert source[..n + 1][..n] == source[..n];
      if source[n].name in HOP_BY_HOP || source[n].name in extra || source[n].name in tokens { continue; }
      result := result + [source[n]];
    }
    assert source[..|source|] == source;
  }

  lemma {:induction false} KeptValues(source: HeaderMap, extra: seq<string>, tokens: seq<string>, name: string)
    ensures Values(Kept(source, extra, tokens), name)
            == if Stripped(name, extra, tokens) then [] else Values(source, name)
  {
    if source != [] {
      var n := |source| - 1;
      var front := Kept(source[..n], extra, tokens);
      KeptValues(source[..n], extra, tokens, name);
      ValuesAppend(front, source[n], name);
      assert front + [] == front;
    }
  }

  /**
   The copy keeps every value of every name, in order, except for hop-by-hop names, the extra names, and the names
   that a `Connection` line lists.
   */
  lemma CopyKeepsEndToEnd(source: HeaderMap, extra: seq<string>, name: string)
    ensures Values(Copied(source, extra), name)
            == if IsForOneHop(name) || name in extra || IsListed(source, name) then [] else Values(source, name)
  {
    hide Kept, Values, AllTokens, IsListed, IsForOneHop;
    TokensAreListed(source, name);
    ForOneHopIs(name);
    KeptValues(source, extra, AllTokens(Values(source, CONNECTION)), name);
  }

  lemma {:induction false} KeptIsClean(source: HeaderMap, extra: seq<string>, tokens: seq<string>)
    ensures forall i | 0 <= i < |Kept(source, extra, tokens)| ::
              !Stripped(Kept(source, extra, tokens)[i].name, extra, tokens)
  {
    if source != [] { KeptIsClean(source[..|source| - 1], extra, tokens); }
  }

  lemma {:induction false} KeptAll(source: HeaderMap, extra: seq<string>, tokens: seq<string>)
    requires forall i | 0 <= i < |source| :: !Stripped(source[i].name, extra, tokens)
    ensures Kept(source, extra, tokens) == source
  {
    if source != [] {
      var n := |source| - 1;
      KeptAll(source[..n], extra, tokens);
      assert source == source[..n] + [source[n]];
    }
  }

  /** Copying a copy changes nothing: the `Connection` line, and with it every listed name, is gone. */
  lemma CopyIsIdempotent(source: HeaderMap, extra: seq<string>)
    ensures Copied(Copied(source, extra), extra) == Copied(source, extra)
  {
    var tokens := AllTokens(Values(source, CONNECTION));
    var copy := Copied(source, extra);
    assert CONNECTION in HOP_BY_HOP by { assert HOP_BY_HOP[0] == CONNECTION; }
    KeptValues(source, extra, tokens, CONNECTION);
    assert AllTokens([]) == [];
    KeptIsClean(source, extra, tokens);
    KeptAll(copy, extra, []);
  }

  // ---- the upstream request ----

  /** Setting a name replaces all its values. */
  function Insert(headers: HeaderMap, name: string, value: string): HeaderMap {
    Without(headers, name) + [Header(name, value)]
  }

  function Without(headers: HeaderMap, name: string): HeaderMap {
    if headers == [] then []
    else Without(headers[..|headers| - 1], name)
         + if headers[|headers| - 1].name == name then [] else [headers[|headers| - 1]]
  }

  lemma {:induction false} WithoutValues(headers: HeaderMap, name: string, other: string)
    ensures Values(Without(headers, name), other) == if other == name then [] else Values(headers, other)
  {
    if headers != [] {
      var n := |headers| - 1;
      var front := Without(headers[..n], name);
      WithoutValues(headers[..n], name, other);
      ValuesAppend(front, headers[n], other);
      assert front + [] == front;
    }
  }

  lemma InsertValues(headers: HeaderMap, name: string, value: string, other: string)
    ensures Values(Insert(headers, name, value), other) == if other == name then [value] else Values(headers, other)
  {
    WithoutValues(headers, name, other);
    ValuesAppend(Without(headers, name), Header(name, value), other);
  }

  /** The text of a length. */
  function LengthText(n: nat): string {
    var digits := Decimal(n);
    seq(|digits|, i requires 0 <= i < |digits| => digits[i] as char)
  }

  /** The text is that of a length: decimal digits without a leading zero, whose place values add up to it. */
  ghost predicate IsLength(text: string, n: nat) {
    && text != "" && (text[0] == '0' ==> text == "0")
    && (forall k | 0 <= k < |text| :: '0' <= text[k] <= '9')
    && PlaceValue(seq(|text|, i requires 0 <= i < |text| => text[i] as int)) == n
  }

  lemma LengthTextIs(n: nat)
    ensures IsLength(LengthText(n), n)
  {
    hide Decimal, Magnitude, PlaceValue;
    var digits, text := Decimal(n), LengthText(n);
    forall k | 0 <= k < |text| ensures '0' <= text[k] <= '9' {
      assert IsDigit(digits[k]);
    }
    assert seq(|text|, i requires 0 <= i < |text| => text[i] as int) == digits;
    MagnitudeIsPlaceValue(digits);
  }

  datatype Result<T> = Ok(value: T) | InternalError

  /** The headers sent upstream: the filtered ones, the real body length, and the upstream's own key. */
  function RequestHeaders(source: HeaderMap, bodyLength: nat, apiKey: Option<string>): Result<HeaderMap> {
    var sized := Insert(Copied(source, REQUEST_STRIP), CONTENT_LENGTH, LengthText(bodyLength));
    match apiKey
    case None => Ok(sized)
    case Some(key) =>
      if IsText(key) then Ok(Insert(sized, AUTHORIZATION, "Bearer " + key)) else InternalError
  }

  /**
   The upstream request has exactly one content length, the text of the body length; its authorization comes from the
   upstream key alone; every other name has the values the client sent, in order, unless it concerns one connection or
   the gateway only or is listed by `Connection`.
   */
  ghost predicate IsUpstreamRequest(headers: HeaderMap, source: HeaderMap, bodyLength: nat, apiKey: Option<string>) {
    var lengths := Values(headers, "content-length");
    && |lengths| == 1 && IsLength(lengths[0], bodyLength)
    && Values(headers, "authorization") == (if apiKey.Some? then ["Bearer " + apiKey.value] else [])
    && forall name | name != "content-length" && name != "authorization" ::
         Values(headers, name) == if IsWithheld(source, name) then [] else Values(source, name)
  }

  ghost predicate IsWithheld(source: HeaderMap, name: string) {
    IsForOneHop(name) || IsForGateway(name) || IsListed(source, name)
  }

  lemma ForwardedValues(source: HeaderMap, name: string)
    ensures Values(Copied(source, REQUEST_STRIP), name) == if IsWithheld(source, name) then [] else Values(source, name)
  {
    hide Values, Copied, IsForGateway, IsForOneHop, IsListed;
    ForGatewayIs(name);
    CopyKeepsEndToEnd(source, REQUEST_STRIP, name);
  }

  lemma RequestHeadersAre(source: HeaderMap, bodyLength: nat, apiKey: Option<string>)
    ensures RequestHeaders(source, bodyLength, apiKey).InternalError?
            <==> apiKey.Some? && !IsReadable(apiKey.value)
    ensures RequestHeaders(source, bodyLength, apiKey).Ok? ==>
              IsUpstreamRequest(RequestHeaders(source, bodyLength, apiKey).value, source, bodyLength, apiKey)
  {
    hide Values, Copied, Insert, LengthText, IsLength, IsText, IsReadable, IsWithheld;
    var copy := Copied(source, REQUEST_STRIP);
    var length := LengthText(bodyLength);
    var sized := Insert(copy, CONTENT_LENGTH, length);
    LengthTextIs(bodyLength);
    if apiKey.Some? { TextIsReadable(apiKey.value); }
    forall name
      ensures RequestHeaders(source, bodyLength, apiKey).Ok? ==>
                Values(RequestHeaders(source, bodyLength, apiKey).value, name)
                == if name == "authorization" && apiKey.Some? then ["Bearer " + apiKey.value]
                   else if name == "content-length" then [length]
                   else if IsWithheld(source, name) then [] else Values(source, name)
    {
      ForwardedValues(source, name);
      InsertValues(copy, CONTENT_LENGTH, length, name);
      if apiKey.Some? { InsertValues(sized, AUTHORIZATION, "Bearer " + apiKey.value, name); }
    }
    assert IsWithheld(source, "authorization") by { WithheldNames(source); }
  }

  lemma WithheldNames(source: HeaderMap)
    ensures IsWithheld(source, "authorization")
  {
    hide IsListed;
  }

  /** An unreadable key is an internal error; otherwise the request is as it should be. */
  method BuildRequest(source: HeaderMap, bodyLength: nat, apiKey: Option<string>)
    returns (result: Result<HeaderMap>)
    ensures result.InternalError? <==> apiKey.Some? && !IsReadable(apiKey.value)
    ensures result.Ok? ==> IsUpstreamRequest(result.value, source, bodyLength, apiKey)
  {
    hide Values, AllTokens, IsText, IsReadable, IsUpstreamRequest;
    if apiKey.Some? { TextIsReadable(apiKey.value); }
    RequestHeadersAre(source, bodyLength, apiKey);
    var headers := CopyHeaders(source, [], REQUEST_STRIP);
    assert [] + Copied(source, REQUEST_STRIP) == Copied(source, REQUEST_STRIP);
    headers := Insert(headers, CONTENT_LENGTH, LengthText(bodyLength));
    if apiKey.Some? {
      if !IsText(apiKey.value) { return InternalError; }
      headers := Insert(headers, AUTHORIZATION, "Bearer " + apiKey.value);
    }
    return Ok(headers);
  }

  /** The response keeps every value, in order, of all names but hop-by-hop ones and those `Connection` lists. */
  lemma ResponseHeadersAre(source: HeaderMap, name: string)
    ensures Values(Copied(source, RESPONSE_STRIP), name)
            == if IsForOneHop(name) || IsListed(source, name) then [] else Values(source, name)
    ensures !IsListed(source, "content-length") ==>
              Values(Copied(source, RESPONSE_STRIP), "content-length") == Values(source, "content-length")
  {
    hide Values, Copied, IsListed;
    CopyKeepsEndToEnd(source, RESPONSE_STRIP, name);
    CopyKeepsEndToEnd(source, RESPONSE_STRIP, "content-length");
    LengthIsEndToEnd();
  }

  lemma LengthIsEndToEnd()
    ensures !IsForOneHop("content-length")
  {
  }
}
