/**
 * The client's error classes (binanceUsClient.js:34-63), rate-limit header parsing
 * `parseRateLimitInfo` (:107-117) and the classification of an HTTP response that
 * follows every `fetch` (:196-212, repeated at :223-238 and :262-277).
 */
module Responses {
  import opened Wrappers
  import opened JsNumbers

  /** The weight limit reported whenever rate-limit headers are present. */
  const DEFAULT_WEIGHT_LIMIT := 1200
  /** The `Retry-After` text assumed on a 429 without a usable header. */
  const RATE_LIMIT_RETRY_DEFAULT := "60"
  /** The `Retry-After` text assumed on a 418 without a usable header. */
  const IP_BAN_RETRY_DEFAULT := "120"

  /** Rate-limit information read from `X-MBX-USED-WEIGHT-1M` and `Retry-After`. */
  datatype RateLimitInfo = RateLimitInfo(usedWeight: JsNumber, weightLimit: int, retryAfter: Option<JsNumber>)

  /**
   * The errors the client throws. `BinanceUsApiError` is the base class;
   * `RateLimitError` and `IpBanError` are its subclasses with fixed code and status;
   * `MissingCredentials` is a base-class error thrown before any request is built.
   * Message wording is not modelled except the exchange's own `msg`.
   */
  datatype ApiError =
    | MissingCredentials
    | RateLimitError(retryAfter: JsNumber, rateLimitInfo: Option<RateLimitInfo>)
    | IpBanError(retryAfter: JsNumber, rateLimitInfo: Option<RateLimitInfo>)
    | BinanceUsApiError(code: int, message: string, httpStatus: int, rateLimitInfo: Option<RateLimitInfo>)
  {
    /** The `code` property. */
    function Code(): int {
      match this
      case MissingCredentials => -2015
      case RateLimitError(_, _) => -1003
      case IpBanError(_, _) => -1003
      case BinanceUsApiError(c, _, _, _) => c
    }

    /** The `httpStatus` property. */
    function HttpStatus(): int {
      match this
      case MissingCredentials => 401
      case RateLimitError(_, _) => 429
      case IpBanError(_, _) => 418
      case BinanceUsApiError(_, _, s, _) => s
    }

    /** The `rateLimitInfo` property (`undefined` on a credential error). */
    function Info(): Option<RateLimitInfo> {
      if MissingCredentials? then None else rateLimitInfo
    }
  }

  /**
   * The response body as `response.json()` sees it: not JSON at all, or a parsed
   * value together with its `code` and `msg` members (`None` when absent).
   */
  datatype Body<J> = Unparsable | Parsed(value: J, code: Option<int>, msg: Option<string>)

  /** What the classifier reads from a response. Header values are raw text. */
  datatype Response<J> = Response(
    status: int,
    statusText: string,
    usedWeightHeader: Option<string>,
    retryAfterHeader: Option<string>,
    body: Body<J>)

  /**
   * What a request call ends in: the parsed body, a thrown `ApiError`, or the
   * `SyntaxError` that `response.json()` raises on a 2xx response whose body is not JSON.
   */
  datatype Outcome<J> = Ok(value: J) | Thrown(error: ApiError) | MalformedJson

  /** `response.ok`. */
  predicate IsOk(status: int) {
    200 <= status <= 299
  }

  /** A header is truthy when present and non-empty. */
  predicate Present(h: Option<string>) {
    h.Some? && h.value != ""
  }

  /** `headers.get(name) || fallback`. */
  function HeaderOr(h: Option<string>, fallback: string): (t: string)
    ensures Present(h) ==> t == h.value
    ensures !Present(h) ==> t == fallback
  {
    if Present(h) then h.value else fallback
  }

  /** `parseRateLimitInfo(headers)`. */
  function ParseRateLimitInfo(usedWeight: Option<string>, retryAfter: Option<string>): (r: Option<RateLimitInfo>)
    ensures r.None? <==> !Present(usedWeight) && !Present(retryAfter)
    ensures r.Some? ==> r.value.weightLimit == DEFAULT_WEIGHT_LIMIT
    ensures r.Some? ==> r.value.usedWeight == if Present(usedWeight) then ParseInt(usedWeight.value) else Int(0)
    ensures r.Some? ==> (r.value.retryAfter.Some? <==> Present(retryAfter))
    ensures r.Some? && Present(retryAfter) ==> r.value.retryAfter == Some(ParseInt(retryAfter.value))
  {
    if !Present(usedWeight) && !Present(retryAfter) then None
    else Some(RateLimitInfo(
      if Present(usedWeight) then ParseInt(usedWeight.value) else Int(0),
      DEFAULT_WEIGHT_LIMIT,
      if Present(retryAfter) then Some(ParseInt(retryAfter.value)) else None))
  }

  /** `errorData.code || response.status`: a missing or zero code falls back to the status. */
  function ErrorCode<J>(body: Body<J>, status: int): (c: int)
    ensures body.Parsed? && body.code.Some? && body.code.value != 0 ==> c == body.code.value
    ensures !(body.Parsed? && body.code.Some? && body.code.value != 0) ==> c == status
  {
    match body
    case Parsed(_, Some(c), _) => if c != 0 then c else status
    case _ => status
  }

  /** `errorData.msg || response.statusText`: a missing or empty message falls back to the status text. */
  function ErrorMessage<J>(body: Body<J>, statusText: string): (m: string)
    ensures body.Parsed? && body.msg.Some? && body.msg.value != "" ==> m == body.msg.value
    ensures !(body.Parsed? && body.msg.Some? && body.msg.value != "") ==> m == statusText
  {
    match body
    case Parsed(_, _, Some(m)) => if m != "" then m else statusText
    case _ => statusText
  }

  /**
   * The status checks after `fetch`, in source order: 429, then 418, then any
   * other non-2xx status, then success. Every thrown error carries the same
   * rate-limit information, parsed once before the checks, and reports the
   * response's own status as its `httpStatus`.
   */
  function Classify<J>(r: Response<J>): (o: Outcome<J>)
    ensures o.Thrown? <==> !IsOk(r.status)
    ensures o.Thrown? ==> o.error.HttpStatus() == r.status
    ensures o.Thrown? ==> !o.error.MissingCredentials?
    ensures o.Thrown? ==> o.error.Info() == ParseRateLimitInfo(r.usedWeightHeader, r.retryAfterHeader)
    ensures o.Ok? <==> IsOk(r.status) && r.body.Parsed?
    ensures o.Ok? ==> o.value == r.body.value
  {
    var info := ParseRateLimitInfo(r.usedWeightHeader, r.retryAfterHeader);
    if r.status == 429 then
      Thrown(RateLimitError(ParseInt(HeaderOr(r.retryAfterHeader, RATE_LIMIT_RETRY_DEFAULT)), info))
    else if r.status == 418 then
      Thrown(IpBanError(ParseInt(HeaderOr(r.retryAfterHeader, IP_BAN_RETRY_DEFAULT)), info))
    else if !IsOk(r.status) then
      Thrown(BinanceUsApiError(ErrorCode(r.body, r.status), ErrorMessage(r.body, r.statusText), r.status, info))
    else
      match r.body
      case Parsed(v, _, _) => Ok(v)
      case Unparsable => MalformedJson
  }

  // ---------------------------------------------------------------------------
  // Properties of the classification
  // ---------------------------------------------------------------------------

  /** A 429 is a `RateLimitError` (code -1003); its `retryAfter` defaults to 60 without a usable header. */
  lemma RateLimitedResponse<J>(r: Response<J>)
    requires r.status == 429
    ensures Classify(r).Thrown? && Classify(r).error.RateLimitError?
    ensures Classify(r).error.Code() == -1003 && Classify(r).error.HttpStatus() == 429
    ensures !Present(r.retryAfterHeader) ==> Classify(r).error.retryAfter == Int(60)
    ensures Present(r.retryAfterHeader) ==> Classify(r).error.retryAfter == ParseInt(r.retryAfterHeader.value)
  {
    ParseIntOfDefaults();
  }

  /** A 418 is an `IpBanError` (code -1003); its `retryAfter` defaults to 120 without a usable header. */
  lemma IpBannedResponse<J>(r: Response<J>)
    requires r.status == 418
    ensures Classify(r).Thrown? && Classify(r).error.IpBanError?
    ensures Classify(r).error.Code() == -1003 && Classify(r).error.HttpStatus() == 418
    ensures !Present(r.retryAfterHeader) ==> Classify(r).error.retryAfter == Int(120)
    ensures Present(r.retryAfterHeader) ==> Classify(r).error.retryAfter == ParseInt(r.retryAfterHeader.value)
  {
    ParseIntOfDefaults();
  }

  /** A `Retry-After` header that holds a printed integer is read back as that integer. */
  lemma RetryAfterHeaderRoundTrip<J>(r: Response<J>, seconds: int)
    requires r.status == 429 || r.status == 418
    requires r.retryAfterHeader == Some(IntToString(seconds))
    ensures Classify(r).Thrown?
    ensures Classify(r).error.retryAfter == Int(seconds)
    ensures Classify(r).error.Info().Some?
    ensures Classify(r).error.Info().value.retryAfter == Some(Int(seconds))
  {
    ParseIntOfIntToString(seconds);
  }

  /** A header that is present but holds no digit gives `NaN`, not the default, on a 429 and on a 418. */
  lemma UnparsableRetryAfter<J>(r: Response<J>)
    requires r.status == 429 || r.status == 418
    requires Present(r.retryAfterHeader)
    requires forall i :: 0 <= i < |r.retryAfterHeader.value| ==> !IsDigit(r.retryAfterHeader.value[i])
    ensures Classify(r).Thrown? && (Classify(r).error.RateLimitError? || Classify(r).error.IpBanError?)
    ensures Classify(r).error.retryAfter == NaN
  {
    ParseIntOfNoDigits(r.retryAfterHeader.value);
  }

  /**
   * Any other non-2xx status is a plain `BinanceUsApiError` carrying the status;
   * the exchange's `code` and `msg` are used when truthy, and a body that is not
   * JSON falls back to the status and the status text.
   */
  lemma GenericErrorResponse<J>(r: Response<J>)
    requires !IsOk(r.status) && r.status != 429 && r.status != 418
    ensures Classify(r).Thrown? && Classify(r).error.BinanceUsApiError?
    ensures Classify(r).error.httpStatus == r.status
    ensures r.body.Parsed? && r.body.code.Some? && r.body.code.value != 0 ==> Classify(r).error.code == r.body.code.value
    ensures !(r.body.Parsed? && r.body.code.Some? && r.body.code.value != 0) ==> Classify(r).error.code == r.status
    ensures r.body.Parsed? && r.body.msg.Some? && r.body.msg.value != "" ==> Classify(r).error.message == r.body.msg.value
    ensures !(r.body.Parsed? && r.body.msg.Some? && r.body.msg.value != "") ==> Classify(r).error.message == r.statusText
    ensures r.body.Unparsable? ==> Classify(r).error.code == r.status && Classify(r).error.message == r.statusText
  {
  }

  /** The used-weight header holding a printed count is read back as that count. */
  lemma UsedWeightRoundTrip(weight: nat, retryAfter: Option<string>)
    ensures ParseRateLimitInfo(Some(IntToString(weight)), retryAfter).Some?
    ensures ParseRateLimitInfo(Some(IntToString(weight)), retryAfter).value.usedWeight == Int(weight)
  {
    ParseIntOfIntToString(weight);
  }

  /**
   * Headers holding printed numbers give the record with those numbers and the
   * fixed weight limit 1200; a missing count reads as 0 and a missing
   * `Retry-After` as absent; with neither header there is no record.
   */
  lemma RateLimitInfoFromHeaders(weight: nat, seconds: int, noHeader: Option<string>)
    requires !Present(noHeader)
    ensures ParseRateLimitInfo(Some(IntToString(weight)), Some(IntToString(seconds)))
      == Some(RateLimitInfo(Int(weight), 1200, Some(Int(seconds))))
    ensures ParseRateLimitInfo(Some(IntToString(weight)), noHeader) == Some(RateLimitInfo(Int(weight), 1200, None))
    ensures ParseRateLimitInfo(noHeader, Some(IntToString(seconds))) == Some(RateLimitInfo(Int(0), 1200, Some(Int(seconds))))
    ensures ParseRateLimitInfo(noHeader, noHeader) == None
  {
    ParseIntOfIntToString(weight);
    ParseIntOfIntToString(seconds);
  }
}
