# Kite authentication helper, modelled in Dafny

This project models the `kiteauth` package of the Options trading tools. The package does two things for the Zerodha Kite Connect API:

- **`BuildLoginURL`** builds the browser login URL:
  - It rejects a blank API key.
  - Otherwise it returns `https://kite.zerodha.com/connect/login?` followed by the form-encoded query `v=3`, `api_key` and, when given, `redirenct_params`.
- **`Client.ExchangeForAccessToken`** swaps a request token for an access token:
  - It checks that the three credentials are non-empty.
  - It signs them with a hex SHA-256 checksum and posts the form to `<BaseAPI>/session/token`.
  - It retries up to `Retries` more times, sleeping `Backoff(attempt)` between attempts, and classifies every answer as success or an error.
  - `new` and `WithHTTPClient` build the client: a 20-second transport, `https://auth.kite.trade`, 2 retries and a 100 ms doubling backoff, then the options.

## Modules

- `optional.dfy`, module `Optional`: `Option` and `Result`, standing in for Go's nil pointers and `error` returns.
- `go_strings.dfy`, module `GoStrings`: Go strings as byte sequences. It also defines `strings.TrimSpace`, `strings.ToLower` and Go's string order `<`.
- `hex.dfy`, module `Hex`: `hex.EncodeToString`, and `hex.DecodeString` as its partner.
- `url_values.dfy`, module `UrlValues`: `url.Values` with `Set`, `Encode` and `QueryEscape`, plus a query parser (`ParseQuery`, modelled on `url.ParseQuery`) as the decoder. Encoding and then parsing gives back the same values.
- `login_url.dfy`, module `LoginUrl`: `BuildLoginURL`.
- `client.dfy`, module `KiteClient`:
  - `computeChecksum`.
  - The token request.
  - Response classification.
  - Client construction and options.
  - `Exchange` and `Attempts`, which state the whole exchange as a function of its inputs.
  - The `Client` class, whose `ExchangeForAccessToken` method runs the Go loop and is proved equal to `Exchange`.

The program's surroundings are parameters:

- The SHA-256 function is an uninterpreted `seq<byte> -> Digest` with 32-byte digests.
- `Environment` holds the error, if any, from `http.NewRequestWithContext` and the outcome of `HTTPClient.Do` for each attempt: a transport error, a read error, a JSON error, or a decoded `SessionResponse`. The outcome is a function of the client's configured HTTP client, the request and the attempt number, so the client that `new` and `WithHTTPClient` keep is the one every request goes through.
- A `Trace` records the requests sent and the delays slept, in milliseconds, so retries and backoff can be stated.

Three details of the code are modelled as written:

- The redirect key is spelled `redirenct_params`, as `login_url.go` writes it, not `redirect_params`.
- The context reaches only `http.NewRequestWithContext` and the transport. The code never checks it between attempts or around the sleep, so cancelling it does not stop the retry loop. The model has no cancellation step either; the only context effect it keeps is the request-construction error.
- `Retries` is a Go `int`. `Retries + 1` wraps around for the largest `int`, which gives a negative attempt count and no attempts at all.

## Model

| member | source | states |
|---|---|---|
| GoStrings.TrimSpace | kite-auth/internal/kiteauth/login_url.go:12 | The result is a slice of the key. Everything cut off before and after it is white space, and the result has no white space at either end. It is empty exactly when every byte of the key is white space. |
| GoStrings.ToLower | options-kite/kite-auth/internal/kiteauth/client.go:108 | Lowering keeps the length, leaves no upper-case ASCII letter, turns each upper-case letter into its lower-case one and keeps every other byte. |
| GoStrings.ToLowerMatches | options-kite/kite-auth/internal/kiteauth/client.go:108 | Lowering a string gives a given lower-case string exactly when the lengths agree and every byte is that string's byte or its upper-case form. |
| GoStrings.LessTransitive | kite-auth/internal/kiteauth/login_url.go:30 | The byte order on strings that `Encode` sorts keys by is transitive. |
| GoStrings.LessTotal | kite-auth/internal/kiteauth/login_url.go:30 | The byte order is total: any two distinct keys are ordered one way or the other. |
| Hex.EncodeToString | options-kite/kite-auth/internal/kiteauth/client.go:132 | Writes exactly two characters per byte, all from `0-9a-f`. |
| Hex.DecodeEncode | options-kite/kite-auth/internal/kiteauth/client.go:132 | Decoding the hex text gives back the encoded bytes. |
| Hex.EncodeInjective | options-kite/kite-auth/internal/kiteauth/client.go:132 | Different byte strings never get the same hex text. |
| UrlValues.Set | kite-auth/internal/kiteauth/login_url.go:23-27 | The key maps to the new value, the key set gains the key, and every other key keeps its value. |
| UrlValues.QueryEscape | kite-auth/internal/kiteauth/login_url.go:30 | The escaped text holds only unreserved bytes, `+` and `%`, and never the separators `&`, `=` or `;`. |
| UrlValues.UnescapeEscape | kite-auth/internal/kiteauth/login_url.go:30 | Unescaping an escaped string gives back the string, whatever bytes it holds. |
| UrlValues.EscapeUnreserved | kite-auth/internal/kiteauth/login_url.go:23-24 | A string of unreserved bytes, such as the key `api_key` or the value `3`, is written unchanged. |
| UrlValues.SortedKeys | kite-auth/internal/kiteauth/login_url.go:30 | The keys come out in strictly increasing byte order, and they are exactly the map's keys. |
| UrlValues.SortedKeysOf | kite-auth/internal/kiteauth/login_url.go:30 | Any strictly increasing list of keys is the sorted order of its own set. |
| UrlValues.Encode | kite-auth/internal/kiteauth/login_url.go:30 | The encoded text is empty exactly when there are no values. `ParseEncode` shows that it decodes back to the same map. |
| UrlValues.ParseEncodeKeys | kite-auth/internal/kiteauth/login_url.go:30 | The `key=value` items for the listed keys, joined by `&`, parse back to exactly those keys with their values. |
| UrlValues.ParseEncode | kite-auth/internal/kiteauth/login_url.go:30 | An encoded `Values` parses back to the same map, with no key lost, added or changed. |
| LoginUrl.LoginQuery | kite-auth/internal/kiteauth/login_url.go:22-28 | The query map is exactly `v=3` and `api_key` set to the untrimmed key, plus `redirenct_params` only when the parameters are non-empty. |
| LoginUrl.URLString | kite-auth/internal/kiteauth/login_url.go:16-32 | The URL text starts with the scheme. Split at its first `?`, as `url.Parse` splits off `RawQuery`, it gives back `scheme://host/path` and the raw query. |
| LoginUrl.URLStringQuery | kite-auth/internal/kiteauth/login_url.go:30-32 | When the origin holds no `?`, the written URL reads back as that origin and the raw query, and as just the origin when the query is empty. |
| LoginUrl.BuildLoginURL | kite-auth/internal/kiteauth/login_url.go:11-33 | Fails with "apiKey required" exactly when the key is empty or all white space. On success the URL is the login endpoint, then `?`, then the query. Read back by splitting at the first `?`, the part before is the endpoint. The query decodes to exactly `v=3`, `api_key` set to the untrimmed key, and `redirenct_params` only when the parameters are non-empty. |
| LoginUrl.LoginKeysSorted | kite-auth/internal/kiteauth/login_url.go:23-27 | The query keys in encoded order are `api_key`, `redirenct_params` when present, then `v`. |
| LoginUrl.LoginURLText | kite-auth/internal/kiteauth/login_url.go:22-32 | The exact text of a successful URL: the endpoint, `?`, then one `key=value` item per key in that order, joined by `&`. |
| KiteClient.ComputeChecksum | options-kite/kite-auth/internal/kiteauth/client.go:129-133 | The checksum is 64 lower-case hex digits that decode to the SHA-256 digest of `apiKey + apiSecret + requestToken`. |
| KiteClient.ChecksumOfConcatenation | options-kite/kite-auth/internal/kiteauth/client.go:131 | Only the concatenation is signed: the same text split differently gives the same checksum. |
| KiteClient.ChecksumDistinguishesDigests | options-kite/kite-auth/internal/kiteauth/client.go:131-132 | Different digests give different checksums. |
| KiteClient.TokenForm | options-kite/kite-auth/internal/kiteauth/client.go:75-78 | The form is exactly `api_key`, `request_token` and `checksum`, each with its given value. |
| KiteClient.TokenRequest | options-kite/kite-auth/internal/kiteauth/client.go:80-92 | The request is a POST to `<BaseAPI>/session/token` with content type `application/x-www-form-urlencoded`. |
| KiteClient.TokenRequestBody | options-kite/kite-auth/internal/kiteauth/client.go:73-87 | The posted body decodes to exactly `api_key`, `request_token` and `checksum`. The secret itself is not sent. |
| KiteClient.RejectionMessage | options-kite/kite-auth/internal/kiteauth/client.go:112-116 | A rejection always carries a non-empty message: the server's own error text when it has one, and "unknown error occurred" when the `Error` field is empty. |
| KiteClient.IsSuccess | options-kite/kite-auth/internal/kiteauth/client.go:108 | A success has a status of exactly seven bytes and a non-empty access token. |
| KiteClient.AttemptError | options-kite/kite-auth/internal/kiteauth/client.go:94-116 | A failed attempt records its own transport, read or decode error with its message. A parsed response that is not a success records a rejection carrying `RejectionMessage`: the server's text, or "unknown error occurred". It is never a validation or request-construction error. |
| KiteClient.SuccessCriterion | options-kite/kite-auth/internal/kiteauth/client.go:108 | A response succeeds exactly when its status is "success" in any letter case and its access token is non-empty. |
| KiteClient.DefaultBackoff | options-kite/kite-auth/internal/kiteauth/client.go:43-45 | The default delay is 100 ms for the first attempt and doubles with each attempt. |
| KiteClient.DefaultDelays | options-kite/kite-auth/internal/kiteauth/client.go:42-45 | With the default 2 retries and the default backoff, a run of failures sleeps 100 ms, then 200 ms. |
| KiteClient.ApplyOption | options-kite/kite-auth/internal/kiteauth/client.go:57-63 | A `WithHTTPClient` option changes only the transport, and only when its client is non-nil. |
| KiteClient.ApplyOptions | options-kite/kite-auth/internal/kiteauth/client.go:48-50 | After the options, the transport is the starting one or the client of one of the options. |
| KiteClient.ApplyOptionsAppend | options-kite/kite-auth/internal/kiteauth/client.go:48-50 | Applying a list of options is applying its first part, then its second. |
| KiteClient.OptionsKeepPolicy | options-kite/kite-auth/internal/kiteauth/client.go:48-63 | `WithHTTPClient` options never change the base URL, the retry count or the backoff. |
| KiteClient.NilClientsKeepTransport | options-kite/kite-auth/internal/kiteauth/client.go:59-61 | `WithHTTPClient` options that carry only nil clients leave the configuration unchanged. |
| KiteClient.LastClientWins | options-kite/kite-auth/internal/kiteauth/client.go:48-63 | The client keeps the last non-nil HTTP client among its options. |
| KiteClient.MissingCredentialFails | options-kite/kite-auth/internal/kiteauth/client.go:69-71 | An empty key, secret or token fails with the "are required" error before any request is sent or delay slept. |
| KiteClient.AttemptCount | options-kite/kite-auth/internal/kiteauth/client.go:85 | The attempt count is a Go `int` that differs from `Retries + 1` by a multiple of 2^64. |
| KiteClient.AttemptCountWraps | options-kite/kite-auth/internal/kiteauth/client.go:85 | Below the largest `int` the count is `Retries + 1`. At the largest `int` it wraps to the smallest. |
| KiteClient.NoAttempts | options-kite/kite-auth/internal/kiteauth/client.go:82-126 | With `Retries < 0`, or `Retries` the largest `int`, the loop never runs: a nil response with a nil error, and nothing sent. |
| KiteClient.RequestErrorAborts | options-kite/kite-auth/internal/kiteauth/client.go:87-90 | A request that cannot be built ends the exchange with that error on the first attempt, before anything is sent. |
| KiteClient.Attempts | options-kite/kite-auth/internal/kiteauth/client.go:85-126 | The retry loop from a given attempt on: a response is only ever a success, returned with a nil error. No attempt reports a validation error. At most the remaining attempts are made. |
| KiteClient.AttemptsAllFail | options-kite/kite-auth/internal/kiteauth/client.go:85-123 | When every remaining attempt fails, the run ends after the last one with that attempt's error, having slept after every attempt but the last. |
| KiteClient.AttemptsFirstSuccess | options-kite/kite-auth/internal/kiteauth/client.go:85-110 | The first successful attempt ends the run with its response and a nil error, after one delay per earlier attempt. |
| KiteClient.Exchange | options-kite/kite-auth/internal/kiteauth/client.go:68-127 | The validation error comes exactly from an empty credential. A response is only ever a success, with a nil error. At most `Retries + 1` requests are sent, and none when that count wraps or is not positive. |
| KiteClient.ExhaustedRetries | options-kite/kite-auth/internal/kiteauth/client.go:84-126 | When `Retries` is below the largest `int` and every attempt fails: exactly `Retries + 1` requests, the delays `Backoff(0) .. Backoff(Retries - 1)` in order, and the last attempt's error returned. |
| KiteClient.FirstSuccessReturns | options-kite/kite-auth/internal/kiteauth/client.go:108-110 | The first success at attempt `k` is returned with a nil error, after `k + 1` requests and the delays `Backoff(0) .. Backoff(k - 1)`. |
| KiteClient.AttemptsShape | options-kite/kite-auth/internal/kiteauth/client.go:85-123 | The invariant of the retry loop: the number of requests, the delays, the failures so far, and that a response appears only for a success of the last request. |
| KiteClient.ExchangeShape | options-kite/kite-auth/internal/kiteauth/client.go:68-127 | For every exchange with valid credentials: at most `Retries + 1` requests and the delays `Backoff(0), Backoff(1), ...` between them. A response comes only from a success of the last request, with a nil error. Otherwise the error is the last request's error. Fewer requests than allowed only on success or a request-construction error. |
| KiteClient.Client.constructor | options-kite/kite-auth/internal/kiteauth/client.go:38-53 | The defaults (a 20-second transport, the Kite API URL, 2 retries, the doubling backoff) with every option applied in order. The transport is fresh or one of the options' clients. The base URL, retry count and backoff keep their defaults, since `WithHTTPClient` options touch only the transport. |
| KiteClient.Client.Apply | options-kite/kite-auth/internal/kiteauth/client.go:57-63 | A non-nil client replaces the transport; a nil one changes nothing. |
| KiteClient.Client.SendWithRetries | options-kite/kite-auth/internal/kiteauth/client.go:84-126 | The retry loop returns exactly the response, error, request count and delays that `Attempts` defines for the client's retries and backoff. |
| KiteClient.Client.ExchangeForAccessToken | options-kite/kite-auth/internal/kiteauth/client.go:68-127 | The method returns exactly what `Exchange` defines for the client's fields. By `ExchangeShape` and the lemmas above, that is the validated, signed, retried and classified exchange. |

## Left out

- HTTP, JSON and reading the body are not modelled. Each attempt's outcome is a parameter: a transport error, a read error, a JSON error, or a decoded response. The `Content-Type` header is a field of the modelled request.
- SHA-256 is not modelled: the digest function is a parameter. Only its 32-byte length and the hex encoding are modelled.
- The context is only modelled where the code uses it, as the error `http.NewRequestWithContext` may return. The code has no cancellation check between attempts or around the sleep, and the model has none either.
- Sleeping is not modelled: each requested delay is recorded in milliseconds instead of being waited out. The 20-second transport timeout is kept as a value only.
- `defer res.Body.Close()` is not modelled: closing bodies has no effect on the returned values.
- `options-kite/kite-auth/main.go` is not modelled: it is demo wiring that prints a login URL and discards a client and a context. It never calls `ExchangeForAccessToken`, and the `kiteauth.New` it calls is not defined in `client.go`, which has only `new`.
- `url.Values` with several values per key is not modelled: the code only ever calls `Set`, so each key holds one value.
- GoStrings.TrimSpace: only ASCII white space is removed. Go also trims Unicode spaces such as U+0085 and U+00A0 in their UTF-8 form.
- GoStrings.ToLower: only ASCII letters are lowered. Go also lowers non-ASCII letters, none of which lowers to the ASCII text "success".
- KiteClient.ClientOption: only the one option the package defines, `WithHTTPClient`, is modelled. Go's `Option` is any `func(*Client)`, so a caller's own option could also set `BaseAPI`, `Retries` or `Backoff`. `OptionsKeepPolicy`, `NilClientsKeepTransport` and the constructor's claim that the policy keeps its defaults hold only for `WithHTTPClient` options.
- KiteClient.Config: the panics of a `Client` with nil fields are not modelled. Code outside the package can only build a `Client` as a struct literal, since `new` is unexported. The zero value has a nil `HTTPClient` and a nil `Backoff`. With valid credentials and `Retries >= 0`, a nil `HTTPClient` panics at `c.HTTPClient.Do` (client.go line 94). With `Retries >= 1` and a failed first attempt, a nil `Backoff` panics at `c.Backoff(attempt)` (line 122). The model's transport is never nil and its backoff is a total function, so neither case can be expressed.
- KiteClient.AttemptCount: Go's `int` is taken to be 64 bits, as on 64-bit platforms. On a 32-bit platform `Retries + 1` wraps at 2^31 - 1 instead.
- KiteClient.DefaultBackoff: the delay is `100 * 2^attempt` ms on unbounded integers. The Go value overflows from attempt 37 on: `time.Duration` counts nanoseconds in an int64, and 100 * 2^37 ms exceeds it. The `int` product `100*(1<<attempt)` overflows from attempt 57, and `1<<attempt` from attempt 63. None of these overflows is modelled. The default retry count only reaches attempt 1.
- LoginUrl.URLString: writes only the URL shapes `BuildLoginURL` produces: a scheme, a host and an absolute path that need no escaping.
