# Binance.US request pipeline, modelled in Dafny

The Binance.US MCP server sends every exchange call through one client module. That
module encodes the parameters into a query string. For signed endpoints it adds
`timestamp` and a capped `recvWindow` and appends an HMAC-SHA256 signature. It puts the
result in the URL or in the body, calls `fetch`, and sorts the response into success,
`RateLimitError` (429), `IpBanError` (418) or `BinanceUsApiError`. Credential gates stop
signed and market-data calls before anything is sent.

The model has six modules:

- `Wrappers`: Option and Result.
- `JsNumbers`: `String(n)` for integers, and `parseInt(s, 10)` with its `NaN` case.
- `QueryString`: `buildQueryString`, reading a query string back, object spread.
- `Responses`: the error classes, `parseRateLimitInfo` and classification of responses.
- `Requests`: credentials, the three request builders, `fetch` plus classification, and the
  dispatcher `binanceUsRequest`.
- `Formatters`: `formatKline` and `formatAggTrade`.

Things outside the module come in as parameters:

- the HMAC is `sign(secret, message)`;
- `encodeURIComponent` is `enc`, and its inverse in the read-back lemmas is `dec`;
- `Date.now()` is `now`;
- `new Date(ms).toISOString()` is `iso`;
- `fetch` is a function from a `Request` to a `Response`;
- the environment variables are `Option<string>` values.

`makeSignedRequest` reassigns `recvWindow` and sets the fetch body in place, so it is the
method `Requests.MakeSignedRequest`, proved equal to the specification function
`Requests.SignedRequest`. The dispatcher is the method `Requests.BinanceUsRequest`. The
remaining operations are functions.

Three behaviours of the client worth noting:

- A `Retry-After` header that is present but not a number gives `NaN`, not the default.
  The default (60 or 120) applies only when the header is absent or empty (lemma
  `Responses.UnparsableRetryAfter`).
- Rate-limit information is parsed on every response, but only thrown errors carry it.
  A success returns the bare body.
- `binanceUsRequest` is declared without `PUT`. `makeSignedRequest` handles `PUT`, and the
  model accepts all four methods.

## Model

| member | source | states |
|---|---|---|
| `JsNumbers.ParseIntOfIntToString` | binance-us-mcp-server/build/config/binanceUsClient.js:113-115 | `parseInt` reads back every integer printed by `String`: a header holding a printed count is read as that count |
| `JsNumbers.IntToStringInjective` | binance-us-mcp-server/build/config/binanceUsClient.js:82 | distinct integer values (timestamps, windows) encode to distinct text |
| `JsNumbers.ParseIntOfDefaults` | binance-us-mcp-server/build/config/binanceUsClient.js:200-205 | the fallback texts "60" and "120" are read as 60 and 120 seconds |
| `JsNumbers.ParseIntOfNoDigits` | binance-us-mcp-server/build/config/binanceUsClient.js:200-205 | `parseInt` of any text without a decimal digit is NaN |
| `QueryString.Kept` | binance-us-mcp-server/build/config/binanceUsClient.js:80-81 | an entry survives iff its value is not `undefined`/`null`, so `""`, `0` and `false` stay |
| `QueryString.KeptAppend` | binance-us-mcp-server/build/config/binanceUsClient.js:80-81 | filtering a concatenation is the concatenation of the filtered parts, so input order is kept |
| `QueryString.KeptSingle` | binance-us-mcp-server/build/config/binanceUsClient.js:81 | a single entry is kept exactly when its value is defined |
| `QueryString.BuildQueryStringEmpty` | binance-us-mcp-server/build/config/binanceUsClient.js:79-85 | the encoded string is `""` iff the map is empty or every value is `undefined`/`null` |
| `QueryString.ParseBuildQueryString` | binance-us-mcp-server/build/config/binanceUsClient.js:79-85 | round trip: splitting the output at `&` and then at the first `=`, then decoding, gives exactly the kept entries in input order as `(key, String(value))` |
| `QueryString.Replace` | binance-us-mcp-server/build/config/binanceUsClient.js:175 | overriding a key gives it the new value, changes no other key and keeps the key order |
| `QueryString.SetParamLookup` | binance-us-mcp-server/build/config/binanceUsClient.js:175 | after `{...p, k: v}`, `k` maps to `v` and every other key keeps its value |
| `QueryString.SetParamKeys` | binance-us-mcp-server/build/config/binanceUsClient.js:175 | the spread keeps an existing key in place or appends a new one last, and keeps keys distinct |
| `Responses.Classify` | binance-us-mcp-server/build/config/binanceUsClient.js:196-212 | throws iff the status is not 2xx; every thrown error reports the response status as `httpStatus` and carries the parsed rate-limit info; success returns the parsed body unchanged |
| `Responses.RateLimitedResponse` | binance-us-mcp-server/build/config/binanceUsClient.js:199-202 | a 429 is checked first and is a `RateLimitError` with code -1003 and status 429; `retryAfter` is the parsed header, or 60 when it is absent or empty |
| `Responses.IpBannedResponse` | binance-us-mcp-server/build/config/binanceUsClient.js:204-207 | a 418 is an `IpBanError` with code -1003 and status 418; `retryAfter` is the parsed header, or 120 when it is absent or empty |
| `Responses.RetryAfterHeaderRoundTrip` | binance-us-mcp-server/build/config/binanceUsClient.js:199-206 | `Retry-After: n` on a 429 or 418 yields `retryAfter == n` on the error and in its rate-limit info |
| `Responses.UnparsableRetryAfter` | binance-us-mcp-server/build/config/binanceUsClient.js:199-206 | on a 429 or a 418, a present `Retry-After` holding no digit gives `retryAfter` NaN; the 60/120 fallback applies only to an absent or empty header |
| `Responses.GenericErrorResponse` | binance-us-mcp-server/build/config/binanceUsClient.js:208-211 | any other non-2xx status is a `BinanceUsApiError` with the status as `httpStatus`; its code is the body's non-zero `code`, else the status; its message is the body's non-empty `msg`, else the status text; a body that is not JSON gives status and status text |
| `Responses.UsedWeightRoundTrip` | binance-us-mcp-server/build/config/binanceUsClient.js:108-113 | `X-MBX-USED-WEIGHT-1M: n` yields `usedWeight == n` |
| `Responses.RateLimitInfoFromHeaders` | binance-us-mcp-server/build/config/binanceUsClient.js:107-117 | printed `X-MBX-USED-WEIGHT-1M: w` and `Retry-After: s` give `{usedWeight: w, weightLimit: 1200, retryAfter: s}`; without the count `usedWeight` is 0, without `Retry-After` it is absent, and without both there is no record |
| `Requests.CredentialsFromEnvironment` | binance-us-mcp-server/build/config/binanceUsClient.js:89-97 | signed calls need both variables non-empty, market-data calls only the key, and the first implies the second |
| `Requests.EffectiveRecvWindow` | binance-us-mcp-server/build/config/binanceUsClient.js:164-172 | the window is 5000 when omitted, and otherwise `min(recvWindow, 60000)` with no lower bound |
| `Requests.SignedRequest` | binance-us-mcp-server/build/config/binanceUsClient.js:164-195 | fails with the credential error iff the key or the secret is empty; GET/DELETE put the signed string after `?` with no body; POST/PUT send it as the body with a bare URL; headers are the API key and the form content type |
| `Requests.MakeSignedRequest` | binance-us-mcp-server/build/config/binanceUsClient.js:164-195 | building the request step by step (reassigning the window, setting the body afterwards) gives exactly `SignedRequest` |
| `Requests.PublicRequest` | binance-us-mcp-server/build/config/binanceUsClient.js:217-222 | never gated; no headers and no body; the URL gets `?query` iff some parameter is defined |
| `Requests.MarketDataRequest` | binance-us-mcp-server/build/config/binanceUsClient.js:249-261 | fails iff the key is empty; otherwise the same URL as the public request, with only the `X-MBX-APIKEY` header |
| `Requests.BinanceUsRequest` | binance-us-mcp-server/build/config/binanceUsClient.js:288-298 | `signed` takes the signed path whatever `apiKeyRequired` says; otherwise `apiKeyRequired` takes market data, else public; both of those use GET |
| `Requests.CredentialGates` | binance-us-mcp-server/build/config/binanceUsClient.js:166-168 | with missing credentials, a signed or market-data call sends nothing and throws code -2015 with status 401, whatever the transport; a public call is always sent |
| `Requests.SignedParamsOverride` | binance-us-mcp-server/build/config/binanceUsClient.js:174-175 | `timestamp` and `recvWindow` override caller values; every other key keeps its value; the caller's keys come first in their order |
| `Requests.SignatureCoversSentPrefix` | binance-us-mcp-server/build/config/binanceUsClient.js:177-179 | removing `&signature=<digest>` from the sent string gives exactly the signed string and its HMAC, so a holder of the secret verifies it |
| `Requests.SignedQueryPairs` | binance-us-mcp-server/build/config/binanceUsClient.js:177-179 | the sent string reads back as the signed string's pairs followed by one last pair `signature=<digest>` |
| `Requests.SignedQueryReadsBack` | binance-us-mcp-server/build/config/binanceUsClient.js:175-177 | the signed string decodes to the merged defined parameters, including `timestamp=String(now)` and `recvWindow=String(window)` |
| `Formatters.FormatKline` | binance-us-mcp-server/build/config/binanceUsClient.js:121-137 | the two ISO fields are the ISO forms of `openTime` and `closeTime` |
| `Formatters.FormatKlineRoundTrip` | binance-us-mcp-server/build/config/binanceUsClient.js:121-137 | elements 0-10 map to the named fields: the record plus element 11 rebuilds the raw array |
| `Formatters.FormatKlineIgnoresLast` | binance-us-mcp-server/build/config/binanceUsClient.js:121-137 | element 11 is dropped and does not affect the record |
| `Formatters.FormatAggTrade` | binance-us-mcp-server/build/config/binanceUsClient.js:141-153 | `timestampISO` is the ISO form of the trade time |
| `Formatters.FormatAggTradeRoundTrip` | binance-us-mcp-server/build/config/binanceUsClient.js:141-153 | every trade field survives the relabelling |

## Left out

- The network call `fetch` and reading the body are out. `fetch` is a parameter. The body comes already parsed as a value with its `code` and `msg` members, or as not JSON.
- Bodies of other shapes are out. A JSON `null` body on an error status makes the source throw a `TypeError` when it reads `.code`. A non-numeric `code` or a non-string `msg` is passed through untyped. The model treats both like a body without those members.
- HMAC-SHA256 (`crypto.createHmac`) is the parameter `sign`. The signature lemmas assume only that it returns a lower-case hex digest.
- `encodeURIComponent` is the parameter `enc`. The read-back lemmas assume it escapes `&` and `=` and has an inverse `dec`.
- `String(value)` is modelled for strings, booleans and integers. Fractional numbers, exponent notation, `NaN` and `Infinity` are not.
- Numbers are unbounded integers. Precision loss above 2^53 is not modelled.
- `Object.entries` order is taken to be insertion order. JavaScript lists integer-like keys (`"1"`) first in ascending order, and the model does not.
- `parseInt` skips ASCII white space only. Unicode space separators and the byte-order mark are not modelled.
- `Date.now()` is the parameter `now`.
- `new Date(ms).toISOString()` is the parameter `iso`. Its `RangeError` on out-of-range times is not modelled.
- `process.env` is the `Option<string>` arguments of `LoadCredentials`.
- `generateSignature` and `getTimestamp` are just the `sign` and `now` parameters.
- The wording of error messages is out. The exchange's own `msg` is kept.
- Header lookup is reduced to the two headers the client reads. Case-insensitive matching of other headers is not modelled.
- The `async`/`await` sequencing is modelled as one sequential call.
- `BINANCE_US_CONFIG.WS_URL` and the `binanceUsConfig` export are configuration data with no behaviour.
- The constant lists at binance-us-mcp-server/build/config/binanceUsClient.js:303-321 are left out because no code here uses them.
- The other files of the repository are tool registration and type declarations without logic. They are not part of this model.
