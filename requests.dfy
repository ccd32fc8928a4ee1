/**
 * Building the three kinds of request (`makeSignedRequest`, `makePublicRequest`,
 * `makeMarketDataRequest`, binanceUsClient.js:164-278) and the dispatcher
 * `binanceUsRequest` (:288-298). The HMAC, the clock, `encodeURIComponent`, the
 * environment and `fetch` are parameters: `sign(secret, message)`, `now`, `enc`,
 * the credentials and `fetch(request)`.
 */
module Requests {
  import opened Wrappers
  import opened JsNumbers
  import opened QueryString
  import opened Responses

  const BASE_URL := "https://api.binance.us"
  const DEFAULT_RECV_WINDOW := 5000
  const MAX_RECV_WINDOW := 60000
  const API_KEY_HEADER := "X-MBX-APIKEY"
  const CONTENT_TYPE_HEADER := "Content-Type"
  const FORM_CONTENT_TYPE := "application/x-www-form-urlencoded"

  /** The API key and secret, read once from the environment. */
  datatype Credentials = Credentials(apiKey: string, apiSecret: string)

  datatype HttpMethod = GET | POST | PUT | DELETE

  /** What is handed to `fetch`: method, URL, headers in order, and the body if any. */
  datatype Request = Request(httpMethod: HttpMethod, url: string, headers: seq<(string, string)>, body: Option<string>)

  /** `process.env.BINANCE_US_API_KEY || ""` and the same for the secret. */
  function LoadCredentials(keyVar: Option<string>, secretVar: Option<string>): (c: Credentials)
    ensures c.apiKey == keyVar.GetOr("") && c.apiSecret == secretVar.GetOr("")
  {
    Credentials(keyVar.GetOr(""), secretVar.GetOr(""))
  }

  /** `hasApiCredentials()`: both the key and the secret are non-empty. */
  predicate HasApiCredentials(c: Credentials) {
    c.apiKey != "" && c.apiSecret != ""
  }

  /** `hasApiKey()`: the key is non-empty. */
  predicate HasApiKey(c: Credentials) {
    c.apiKey != ""
  }

  /** Signed requests need both variables set to non-empty text; market-data requests only the key. */
  lemma CredentialsFromEnvironment(keyVar: Option<string>, secretVar: Option<string>)
    ensures HasApiCredentials(LoadCredentials(keyVar, secretVar)) <==> Present(keyVar) && Present(secretVar)
    ensures HasApiKey(LoadCredentials(keyVar, secretVar)) <==> Present(keyVar)
    ensures HasApiCredentials(LoadCredentials(keyVar, secretVar)) ==> HasApiKey(LoadCredentials(keyVar, secretVar))
  {
  }

  // ---------------------------------------------------------------------------
  // Signed requests
  // ---------------------------------------------------------------------------

  /**
   * The receive window actually sent: 5000 when the argument is omitted, otherwise
   * the argument capped at 60000 (no lower bound).
   */
  function EffectiveRecvWindow(recvWindow: Option<int>): (w: int)
    ensures recvWindow.None? ==> w == DEFAULT_RECV_WINDOW
    ensures recvWindow.Some? ==> w <= recvWindow.value && w <= MAX_RECV_WINDOW
    ensures recvWindow.Some? ==> w == recvWindow.value || w == MAX_RECV_WINDOW
  {
    var requested := recvWindow.GetOr(DEFAULT_RECV_WINDOW);
    if requested > MAX_RECV_WINDOW then MAX_RECV_WINDOW else requested
  }

  /** `{ ...params, timestamp, recvWindow }`. */
  function SignedParams(params: Params, timestamp: int, recvWindow: int): Params {
    SetParam(SetParam(params, "timestamp", Num(timestamp)), "recvWindow", Num(recvWindow))
  }

  /** The string that is signed: the encoded parameters with timestamp and window. */
  function UnsignedQuery(params: Params, timestamp: int, recvWindow: int, enc: string -> string): string {
    BuildQueryString(SignedParams(params, timestamp, recvWindow), enc)
  }

  /** The string that is sent: the signed string followed by `&signature=` and the HMAC of it. */
  function SignedQuery(params: Params, timestamp: int, recvWindow: int, secret: string,
                       sign: (string, string) -> string, enc: string -> string): string
  {
    var q := UnsignedQuery(params, timestamp, recvWindow, enc);
    q + "&signature=" + sign(secret, q)
  }

  predicate SendsInQuery(m: HttpMethod) {
    m == GET || m == DELETE
  }

  /**
   * `makeSignedRequest` up to the call to `fetch`: the credential check, then the
   * request whose query (GET, DELETE) or body (POST, PUT) is the signed string.
   */
  function SignedRequest(httpMethod: HttpMethod, endpoint: string, params: Params, recvWindow: Option<int>,
                         creds: Credentials, now: int, sign: (string, string) -> string,
                         enc: string -> string): (r: Result<Request, ApiError>)
    ensures r.Failure? <==> !HasApiCredentials(creds)
    ensures r.Failure? ==> r.error == MissingCredentials
    ensures r.Success? ==> r.value.httpMethod == httpMethod
    ensures r.Success? ==> r.value.headers == [(API_KEY_HEADER, creds.apiKey), (CONTENT_TYPE_HEADER, FORM_CONTENT_TYPE)]
    ensures r.Success? ==>
      var sent := SignedQuery(params, now, EffectiveRecvWindow(recvWindow), creds.apiSecret, sign, enc);
      if SendsInQuery(httpMethod) then r.value.url == BASE_URL + endpoint + "?" + sent && r.value.body.None?
      else r.value.url == BASE_URL + endpoint && r.value.body == Some(sent)
  {
    if !HasApiCredentials(creds) then Failure(MissingCredentials)
    else
      var sent := SignedQuery(params, now, EffectiveRecvWindow(recvWindow), creds.apiSecret, sign, enc);
      Success(Request(
        httpMethod,
        if SendsInQuery(httpMethod) then BASE_URL + endpoint + "?" + sent else BASE_URL + endpoint,
        [(API_KEY_HEADER, creds.apiKey), (CONTENT_TYPE_HEADER, FORM_CONTENT_TYPE)],
        if SendsInQuery(httpMethod) then None else Some(sent)))
  }

  /** `makeSignedRequest` up to `fetch`, step by step as the source builds it. */
  method MakeSignedRequest(httpMethod: HttpMethod, endpoint: string, params: Params, recvWindow: Option<int>,
                           creds: Credentials, now: int, sign: (string, string) -> string,
                           enc: string -> string) returns (r: Result<Request, ApiError>)
    ensures r == SignedRequest(httpMethod, endpoint, params, recvWindow, creds, now, sign, enc)
  {
    if !HasApiCredentials(creds) {
      return Failure(MissingCredentials);
    }
    var window := recvWindow.GetOr(DEFAULT_RECV_WINDOW);
    if window > MAX_RECV_WINDOW {
      window := MAX_RECV_WINDOW;
    }
    var timestamp := now;
    var paramsWithTimestamp := SetParam(SetParam(params, "timestamp", Num(timestamp)), "recvWindow", Num(window));
    var queryString := BuildQueryString(paramsWithTimestamp, enc);
    var signature := sign(creds.apiSecret, queryString);
    var signedQueryString := queryString + "&signature=" + signature;
    var url := if httpMethod == GET || httpMethod == DELETE
      then BASE_URL + endpoint + "?" + signedQueryString
      else BASE_URL + endpoint;
    var headers := [(API_KEY_HEADER, creds.apiKey), (CONTENT_TYPE_HEADER, FORM_CONTENT_TYPE)];
    var body: Option<string> := None;
    if httpMethod == POST || httpMethod == PUT {
      body := Some(signedQueryString);
    }
    r := Success(Request(httpMethod, url, headers, body));
  }

  // ---------------------------------------------------------------------------
  // Public and market-data requests
  // ---------------------------------------------------------------------------

  /** The URL of an unsigned request: `?` and the query only when the query is non-empty. */
  function QueryUrl(endpoint: string, query: string): string {
    if query == "" then BASE_URL + endpoint else BASE_URL + endpoint + "?" + query
  }

  /** `makePublicRequest` up to `fetch`: never gated, no headers, no body. */
  function PublicRequest(httpMethod: HttpMethod, endpoint: string, params: Params, enc: string -> string): (r: Request)
    ensures r.httpMethod == httpMethod && r.headers == [] && r.body.None?
    ensures r.url == BASE_URL + endpoint <==> forall i :: 0 <= i < |params| ==> !Defined(params[i].1)
    ensures r.url != BASE_URL + endpoint ==> r.url == BASE_URL + endpoint + "?" + BuildQueryString(params, enc)
  {
    BuildQueryStringEmpty(params, enc);
    var q := BuildQueryString(params, enc);
    assert q != "" ==> |QueryUrl(endpoint, q)| > |BASE_URL + endpoint|;
    Request(httpMethod, QueryUrl(endpoint, q), [], None)
  }

  /** `makeMarketDataRequest` up to `fetch`: needs only the key, sent in `X-MBX-APIKEY`; the URL is the public one. */
  function MarketDataRequest(httpMethod: HttpMethod, endpoint: string, params: Params, creds: Credentials,
                             enc: string -> string): (r: Result<Request, ApiError>)
    ensures r.Failure? <==> !HasApiKey(creds)
    ensures r.Failure? ==> r.error == MissingCredentials
    ensures r.Success? ==> r.value.httpMethod == httpMethod && r.value.body.None?
    ensures r.Success? ==> r.value.url == PublicRequest(httpMethod, endpoint, params, enc).url
    ensures r.Success? ==> r.value.headers == [(API_KEY_HEADER, creds.apiKey)]
  {
    if !HasApiKey(creds) then Failure(MissingCredentials)
    else Success(Request(httpMethod, QueryUrl(endpoint, BuildQueryString(params, enc)), [(API_KEY_HEADER, creds.apiKey)], None))
  }

  // ---------------------------------------------------------------------------
  // Sending and dispatch
  // ---------------------------------------------------------------------------

  /** One call: the request handed to `fetch` (none when a gate refused) and how it ended. */
  datatype Exchange<J> = Exchange(sent: Option<Request>, outcome: Outcome<J>)

  /** A built request is fetched exactly once and its response classified; a refused one is never sent. */
  function Send<J>(built: Result<Request, ApiError>, fetch: Request -> Response<J>): (x: Exchange<J>)
    ensures x.sent.None? <==> built.Failure?
    ensures built.Failure? ==> x.outcome == Thrown(built.error)
    ensures built.Success? ==> x.sent == Some(built.value) && x.outcome == Classify(fetch(built.value))
  {
    match built
    case Failure(e) => Exchange(None, Thrown(e))
    case Success(req) => Exchange(Some(req), Classify(fetch(req)))
  }

  /**
   * `binanceUsRequest`: `signed` selects the signed path whatever `apiKeyRequired`
   * says; otherwise `apiKeyRequired` selects market data, and neither gives a public
   * request; the last two are always sent as GET.
   */
  method BinanceUsRequest<J>(httpMethod: HttpMethod, path: string, params: Params, signed: bool,
                             apiKeyRequired: bool, recvWindow: Option<int>, creds: Credentials, now: int,
                             sign: (string, string) -> string, enc: string -> string,
                             fetch: Request -> Response<J>) returns (x: Exchange<J>)
    ensures signed ==> x == Send(SignedRequest(httpMethod, path, params, recvWindow, creds, now, sign, enc), fetch)
    ensures !signed && apiKeyRequired ==> x == Send(MarketDataRequest(GET, path, params, creds, enc), fetch)
    ensures !signed && !apiKeyRequired ==> x == Send(Success(PublicRequest(GET, path, params, enc)), fetch)
    ensures !signed ==> x.sent.None? || x.sent.value.httpMethod == GET
  {
    var built: Result<Request, ApiError>;
    if signed {
      built := MakeSignedRequest(httpMethod, path, params, recvWindow, creds, now, sign, enc);
    } else if apiKeyRequired {
      built := MarketDataRequest(GET, path, params, creds, enc);
    } else {
      built := Success(PublicRequest(GET, path, params, enc));
    }
    x := Send(built, fetch);
  }

  // ---------------------------------------------------------------------------
  // Properties of request construction
  // ---------------------------------------------------------------------------

  /**
   * Credential gates: a signed call without key and secret, or a market-data call
   * without a key, throws code -2015 with status 401 and sends nothing, whatever
   * the transport would have answered. A public call is always sent.
   */
  lemma CredentialGates<J>(httpMethod: HttpMethod, path: string, params: Params, signed: bool,
                           apiKeyRequired: bool, recvWindow: Option<int>, creds: Credentials, now: int,
                           sign: (string, string) -> string, enc: string -> string,
                           fetch: Request -> Response<J>)
    ensures var x := Send(SignedRequest(httpMethod, path, params, recvWindow, creds, now, sign, enc), fetch);
      x.sent.None? <==> !HasApiCredentials(creds)
    ensures var x := Send(MarketDataRequest(GET, path, params, creds, enc), fetch);
      x.sent.None? <==> !HasApiKey(creds)
    ensures !HasApiKey(creds) ==>
      var x := Send(MarketDataRequest(GET, path, params, creds, enc), fetch);
      x.outcome.Thrown? && x.outcome.error.Code() == -2015 && x.outcome.error.HttpStatus() == 401
    ensures !HasApiCredentials(creds) ==>
      var x := Send(SignedRequest(httpMethod, path, params, recvWindow, creds, now, sign, enc), fetch);
      x.outcome.Thrown? && x.outcome.error.Code() == -2015 && x.outcome.error.HttpStatus() == 401
    ensures Send(Success(PublicRequest(GET, path, params, enc)), fetch).sent.Some?
  {
  }

  /** Timestamp and window override any caller values; every other key keeps its value and its place. */
  lemma SignedParamsOverride(params: Params, timestamp: int, recvWindow: int)
    ensures Lookup(SignedParams(params, timestamp, recvWindow), "timestamp") == Some(Num(timestamp))
    ensures Lookup(SignedParams(params, timestamp, recvWindow), "recvWindow") == Some(Num(recvWindow))
    ensures forall k :: k != "timestamp" && k != "recvWindow" ==>
      Lookup(SignedParams(params, timestamp, recvWindow), k) == Lookup(params, k)
    ensures Keys(params) <= Keys(SignedParams(params, timestamp, recvWindow))
    ensures DistinctKeys(params) ==> DistinctKeys(SignedParams(params, timestamp, recvWindow))
  {
    var p1 := SetParam(params, "timestamp", Num(timestamp));
    var p2 := SetParam(p1, "recvWindow", Num(recvWindow));
    SetParamLookup(p1, "recvWindow", Num(recvWindow), "timestamp");
    SetParamLookup(params, "timestamp", Num(timestamp), "timestamp");
    SetParamLookup(p1, "recvWindow", Num(recvWindow), "recvWindow");
    forall k | k != "timestamp" && k != "recvWindow"
      ensures Lookup(p2, k) == Lookup(params, k)
    {
      SetParamLookup(p1, "recvWindow", Num(recvWindow), k);
      SetParamLookup(params, "timestamp", Num(timestamp), k);
    }
    SetParamKeys(params, "timestamp", Num(timestamp));
    SetParamKeys(p1, "recvWindow", Num(recvWindow));
  }

  /** An HMAC-SHA256 digest in lower-case hexadecimal. */
  predicate IsHexDigest(s: string) {
    forall i :: 0 <= i < |s| ==> s[i] in "0123456789abcdef"
  }

  ghost predicate HexSigner(sign: (string, string) -> string) {
    forall k, m :: IsHexDigest(sign(k, m))
  }

  /** Splits `s` at its last `c`. */
  function SplitLast(s: string, c: char): (r: Option<(string, string)>)
    ensures r.None? <==> c !in s
  {
    if s == [] then None
    else if s[|s| - 1] == c then Some((s[..|s| - 1], ""))
    else
      assert s == s[..|s| - 1] + [s[|s| - 1]];
      match SplitLast(s[..|s| - 1], c)
      case None => None
      case Some((a, b)) => Some((a, b + [s[|s| - 1]]))
  }

  /**
   * How the exchange reads a signed string: the text before the last `&` is what
   * was signed, and after it comes `signature=` and the digest.
   */
  function StripSignature(s: string): Option<(string, string)> {
    match SplitLast(s, '&')
    case None => None
    case Some((signed, tail)) =>
      if |tail| >= 10 && tail[..10] == "signature=" then Some((signed, tail[10..])) else None
  }

  /** An exchange holding the same secret accepts the string: the digest matches the text before it. */
  predicate Verifies(s: string, secret: string, sign: (string, string) -> string) {
    var stripped := StripSignature(s);
    stripped.Some? && stripped.value.1 == sign(secret, stripped.value.0)
  }

  lemma {:induction false} SplitLastAt(a: string, c: char, b: string)
    requires c !in b
    ensures SplitLast(a + [c] + b, c) == Some((a, b))
    decreases |b|
  {
    var s := a + [c] + b;
    if b == [] {
      assert s[..|s| - 1] == a;
    } else {
      var b' := b[..|b| - 1];
      assert s[..|s| - 1] == a + [c] + b';
      assert s[|s| - 1] == b[|b| - 1];
      SplitLastAt(a, c, b');
      assert b' + [b[|b| - 1]] == b;
    }
  }

  /**
   * The signature is computed over exactly the text that precedes it on the wire:
   * stripping `&signature=<digest>` from the sent string gives back the signed
   * string and its digest, so the exchange can verify it.
   */
  lemma SignatureCoversSentPrefix(params: Params, timestamp: int, recvWindow: int, secret: string,
                                  sign: (string, string) -> string, enc: string -> string)
    requires HexSigner(sign)
    ensures var q := UnsignedQuery(params, timestamp, recvWindow, enc);
      StripSignature(SignedQuery(params, timestamp, recvWindow, secret, sign, enc)) == Some((q, sign(secret, q)))
    ensures Verifies(SignedQuery(params, timestamp, recvWindow, secret, sign, enc), secret, sign)
  {
    var q := UnsignedQuery(params, timestamp, recvWindow, enc);
    var sig := sign(secret, q);
    var tail := "signature=" + sig;
    assert IsHexDigest(sig);
    SignatureTailFree(sig);
    SignatureSuffix(q, sig);
    SplitLastAt(q, '&', tail);
    assert tail[..10] == "signature=" && tail[10..] == sig;
  }

  lemma SignatureTailFree(sig: string)
    requires IsHexDigest(sig)
    ensures '&' !in "signature=" + sig
  {
    var tail := "signature=" + sig;
    forall i | 0 <= i < |tail|
      ensures tail[i] != '&'
    {
      if i >= 10 { assert tail[i] == sig[i - 10]; }
    }
  }

  /** The appended `&signature=<digest>` is one more `&`-separated pair `signature=<digest>`. */
  lemma SignatureSuffix(q: string, sig: string)
    ensures q + "&signature=" + sig == q + "&" + ("signature=" + sig)
    ensures SplitPair("signature=" + sig) == ("signature", sig)
  {
    assert "&signature=" == "&" + "signature=";
    assert "signature=" + sig == "signature" + "=" + sig;
    SplitPairAt("signature", sig);
  }

  /** Split at `&`, the sent string is the signed string's pairs followed by one last raw pair `signature=<digest>`. */
  lemma SignedQueryPairs(params: Params, timestamp: int, recvWindow: int, secret: string,
                         sign: (string, string) -> string, enc: string -> string)
    requires HexSigner(sign) && EscapesSeparators(enc)
    ensures var q := UnsignedQuery(params, timestamp, recvWindow, enc);
      RawPairs(SignedQuery(params, timestamp, recvWindow, secret, sign, enc)) == RawPairs(q) + [("signature", sign(secret, q))]
  {
    var sp := SignedParams(params, timestamp, recvWindow);
    var q := UnsignedQuery(params, timestamp, recvWindow, enc);
    var sig := sign(secret, q);
    var tail := "signature=" + sig;
    var parts := EncodePairs(Kept(sp), enc);
    SignedParamsHold(params, timestamp, recvWindow);
    EncodedQueryParts(sp, enc, "timestamp", Num(timestamp));
    assert q == Join(parts);
    assert IsHexDigest(sig);
    SignatureTailFree(sig);
    RawPairsSnoc(parts, tail);
    SignatureSuffix(q, sig);
  }

  /** The signed parameters hold the timestamp and the window as entries. */
  lemma SignedParamsHold(params: Params, timestamp: int, recvWindow: int)
    ensures ("timestamp", Num(timestamp)) in SignedParams(params, timestamp, recvWindow)
    ensures ("recvWindow", Num(recvWindow)) in SignedParams(params, timestamp, recvWindow)
  {
    var sp := SignedParams(params, timestamp, recvWindow);
    SignedParamsOverride(params, timestamp, recvWindow);
    LookupIn(sp, "timestamp", Num(timestamp));
    LookupIn(sp, "recvWindow", Num(recvWindow));
  }

  /**
   * Decoded, the signed string gives back the caller's defined parameters with
   * `timestamp` and `recvWindow` carrying the values the client chose.
   */
  lemma SignedQueryReadsBack(params: Params, timestamp: int, recvWindow: int,
                             enc: string -> string, dec: string -> string)
    requires EscapesSeparators(enc)
    requires forall s :: dec(enc(s)) == s
    ensures var q := UnsignedQuery(params, timestamp, recvWindow, enc);
      ParseQuery(q, dec) == Rendered(Kept(SignedParams(params, timestamp, recvWindow)))
    ensures var q := UnsignedQuery(params, timestamp, recvWindow, enc);
      ("timestamp", IntToString(timestamp)) in ParseQuery(q, dec) && ("recvWindow", IntToString(recvWindow)) in ParseQuery(q, dec)
  {
    var sp := SignedParams(params, timestamp, recvWindow);
    SignedParamsHold(params, timestamp, recvWindow);
    ParseBuildQueryString(sp, enc, dec);
    RenderedHas(Kept(sp), "timestamp", Num(timestamp));
    RenderedHas(Kept(sp), "recvWindow", Num(recvWindow));
  }
}
