/**
  The token-exchange client of the Kite authentication helper.  A `Client`
  holds its transport, base URL, retry count and backoff; its
  `ExchangeForAccessToken` validates the three credentials, signs them with a
  SHA-256 checksum, posts the form to `<BaseAPI>/session/token` up to
  `Retries + 1` times, and classifies each answer.

  What happens outside the program is a parameter here: the hash function
  (`Sha256`), whether the request can be built at all, and what the transport
  answers to the request on each attempt (`Environment`).  Sleeping is
  recorded as the list of requested delays in milliseconds.
 */
module KiteClient {
  import opened Optional
  import opened GoStrings
  import Hex
  import UrlValues

  // ---------------------------------------------------------------------
  // Checksum
  // ---------------------------------------------------------------------

  /** A SHA-256 digest: 32 bytes (section 6.2 of FIPS 180-4). */
  type Digest = d: seq<byte> | |d| == 32 witness seq(32, _ => 0 as byte)

  /** The SHA-256 function of Go's `crypto/sha256`, left uninterpreted. */
  type Sha256 = seq<byte> -> Digest

  /**
    `computeChecksum`: the lower-case hex text of the SHA-256 digest of
    `apiKey + apiSecret + requestToken` -- 64 digits from `0-9a-f` that decode
    back to that digest.
   */
  function ComputeChecksum(sha256: Sha256, apiKey: GoString, apiSecret: GoString, requestToken: GoString): (checksum: GoString)
    ensures |checksum| == 64
    ensures forall i :: 0 <= i < |checksum| ==> Hex.IsLowerHexDigit(checksum[i])
    ensures var decoded := Hex.DecodeString(checksum);
            decoded.Some? && decoded.value == sha256(ToBytes(apiKey + apiSecret + requestToken))
  {
    var digest := sha256(ToBytes(apiKey + apiSecret + requestToken));
    Hex.DecodeEncode(digest);
    Hex.EncodeToString(digest)
  }

  /** The checksum sees only the concatenation: splitting the same text differently signs the same. */
  lemma ChecksumOfConcatenation(sha256: Sha256, a1: GoString, b1: GoString, c1: GoString,
                                a2: GoString, b2: GoString, c2: GoString)
    requires a1 + b1 + c1 == a2 + b2 + c2
    ensures ComputeChecksum(sha256, a1, b1, c1) == ComputeChecksum(sha256, a2, b2, c2)
  {
  }

  /** Distinct digests give distinct checksums: the hex step loses nothing. */
  lemma ChecksumDistinguishesDigests(sha256: Sha256, a1: GoString, b1: GoString, c1: GoString,
                                     a2: GoString, b2: GoString, c2: GoString)
    requires sha256(ToBytes(a1 + b1 + c1)) != sha256(ToBytes(a2 + b2 + c2))
    ensures ComputeChecksum(sha256, a1, b1, c1) != ComputeChecksum(sha256, a2, b2, c2)
  {
    if ComputeChecksum(sha256, a1, b1, c1) == ComputeChecksum(sha256, a2, b2, c2) {
      Hex.EncodeInjective(sha256(ToBytes(a1 + b1 + c1)), sha256(ToBytes(a2 + b2 + c2)));
    }
  }

  // ---------------------------------------------------------------------
  // The request
  // ---------------------------------------------------------------------

  const TokenPath: GoString := "/session/token"
  const FormContentType: GoString := "application/x-www-form-urlencoded"
  const ApiKeyField: GoString := "api_key"
  const RequestTokenField: GoString := "request_token"
  const ChecksumField: GoString := "checksum"

  /** The parts of the HTTP request that the transport receives; the body is the form, sent encoded (`Body`). */
  datatype Request = Request(httpMethod: GoString, url: GoString, contentType: GoString, form: UrlValues.Values)

  /** The text posted: `form.Encode()`. */
  function Body(req: Request): GoString
  {
    UrlValues.Encode(req.form)
  }

  /** The form: `api_key`, `request_token` and `checksum`, each set once. */
  function TokenForm(apiKey: GoString, requestToken: GoString, checksum: GoString): (form: UrlValues.Values)
    ensures form == map[ApiKeyField := apiKey, RequestTokenField := requestToken, ChecksumField := checksum]
  {
    UrlValues.Set(UrlValues.Set(UrlValues.Set(map[], ApiKeyField, apiKey), RequestTokenField, requestToken),
                  ChecksumField, checksum)
  }

  /** The POST of the encoded form to `<baseApi>/session/token`: its body decodes back to the form. */
  function TokenRequest(baseApi: GoString, form: UrlValues.Values): (req: Request)
    ensures req.httpMethod == "POST" && req.contentType == FormContentType
    ensures req.url == baseApi + TokenPath
  {
    Request("POST", baseApi + TokenPath, FormContentType, form)
  }

  /**
    The body posted carries exactly the three fields: the API key and the
    request token as given, and the checksum of the three credentials.  The
    API secret itself is not among them.
   */
  lemma TokenRequestBody(sha256: Sha256, baseApi: GoString, apiKey: GoString, apiSecret: GoString, requestToken: GoString)
    ensures var checksum := ComputeChecksum(sha256, apiKey, apiSecret, requestToken);
            var req := TokenRequest(baseApi, TokenForm(apiKey, requestToken, checksum));
            UrlValues.ParseQuery(Body(req)) == Success(map[ApiKeyField := apiKey, RequestTokenField := requestToken,
                                                          ChecksumField := checksum])
  {
    var checksum := ComputeChecksum(sha256, apiKey, apiSecret, requestToken);
    var form := TokenForm(apiKey, requestToken, checksum);
    UrlValues.ParseEncode(form);
  }

  // ---------------------------------------------------------------------
  // Responses and their classification
  // ---------------------------------------------------------------------

  /** `SessionResponse`, the decoded JSON body (the `data` object's two fields flattened). */
  datatype SessionResponse = SessionResponse(status: GoString, accessToken: GoString, userId: GoString, error: GoString)

  /** What one attempt produced, as far as the exchange can tell. */
  datatype AttemptOutcome =
    | TransportErr(msg: GoString)   // `HTTPClient.Do` returned an error
    | ReadErr(msg: GoString)        // reading the body failed
    | ParseErr(msg: GoString)       // the body is not the expected JSON
    | Parsed(response: SessionResponse)

  /** The errors the exchange can return. */
  datatype Error =
    | InvalidInput(msg: GoString)
    | RequestFailed(msg: GoString)
    | TransportFailed(msg: GoString)
    | ReadFailed(msg: GoString)
    | ParseFailed(msg: GoString)
    | Rejected(msg: GoString)

  // Written in pieces: Dafny checks that every character of a literal is a byte, and does not finish that check for one this long.
  const MissingCredentials: GoString := "apiKey, apiSecret " + "and requestToken " + "are required"
  const UnknownError: GoString := "unknown error occurred"
  const SuccessStatus: GoString := "success"

  /** A parsed response counts as success when its status lowers to "success" and it carries an access token. */
  predicate IsSuccess(r: SessionResponse)
    ensures IsSuccess(r) ==> |r.status| == |SuccessStatus| && r.accessToken != []
  {
    ToLower(r.status) == SuccessStatus && r.accessToken != []
  }

  /** An attempt that ends the exchange with a response. */
  predicate Succeeded(o: AttemptOutcome)
  {
    o.Parsed? && IsSuccess(o.response)
  }

  /** The message a rejected response leaves: its own error text, else the generic sentinel; never empty. */
  function RejectionMessage(r: SessionResponse): (msg: GoString)
    ensures msg != []
    ensures r.error != [] ==> msg == r.error
    ensures r.error == [] ==> msg == UnknownError
  {
    if r.error != [] then r.error else UnknownError
  }

  /**
    The error an unsuccessful attempt records: the transport's, the body
    reader's or the decoder's own error, or a rejection with a non-empty
    message -- never a validation or request-construction error.
   */
  function AttemptError(o: AttemptOutcome): (e: Error)
    ensures !e.InvalidInput? && !e.RequestFailed?
    ensures o.Parsed? <==> e.Rejected?
    ensures e.Rejected? ==> e.msg != []
    ensures o.TransportErr? ==> e == TransportFailed(o.msg)
    ensures o.ReadErr? ==> e == ReadFailed(o.msg)
    ensures o.ParseErr? ==> e == ParseFailed(o.msg)
    ensures o.Parsed? ==> e == Rejected(RejectionMessage(o.response))
  {
    match o
    case TransportErr(m) => TransportFailed(m)
    case ReadErr(m) => ReadFailed(m)
    case ParseErr(m) => ParseFailed(m)
    case Parsed(r) => Rejected(RejectionMessage(r))
  }

  /**
    Success, stated without `ToLower`: the status is "success" in any mix of
    letter cases (seven bytes, each the lower- or upper-case letter) and the
    access token is non-empty.
   */
  lemma SuccessCriterion(r: SessionResponse)
    ensures IsSuccess(r) <==>
      && |r.status| == 7
      && (forall i :: 0 <= i < 7 ==> r.status[i] == SuccessStatus[i] || r.status[i] == UpperByte(SuccessStatus[i]))
      && r.accessToken != []
  {
    ToLowerMatches(r.status, SuccessStatus);
  }

  // ---------------------------------------------------------------------
  // Configuration
  // ---------------------------------------------------------------------

  /** An `*http.Client`: only its identity and its per-request timeout matter here. */
  class HttpClient {
    const timeoutSeconds: nat

    constructor (timeoutSeconds: nat)
      ensures this.timeoutSeconds == timeoutSeconds
    {
      this.timeoutSeconds := timeoutSeconds;
    }
  }

  /** The fields of a `Client`. */
  datatype Config = Config(httpClient: HttpClient, baseApi: GoString, retries: int64, backoff: nat -> int)

  /** Go's `int` on a 64-bit platform. */
  newtype int64 = x: int | -0x8000_0000_0000_0000 <= x < 0x8000_0000_0000_0000

  /** The largest Go `int`. */
  const MaxInt: int := 0x7fff_ffff_ffff_ffff

  /**
    `attempts := c.Retries + 1` in Go's `int` arithmetic, which wraps around
    modulo 2^64: the result is a Go `int` that differs from `retries + 1` by a
    multiple of 2^64.
   */
  function AttemptCount(retries: int64): (n: int)
    ensures -0x8000_0000_0000_0000 <= n <= MaxInt
    ensures n == retries as int + 1 || n == retries as int + 1 - 0x1_0000_0000_0000_0000
  {
    (retries as int + 1 + 0x8000_0000_0000_0000) % 0x1_0000_0000_0000_0000 - 0x8000_0000_0000_0000
  }

  /** Below the largest `int` the count is `retries + 1`; at the largest it wraps to the smallest `int`. */
  lemma AttemptCountWraps(retries: int64)
    ensures retries as int < MaxInt ==> AttemptCount(retries) == retries as int + 1
    ensures retries as int == MaxInt ==> AttemptCount(retries) == -0x8000_0000_0000_0000
  {
  }

  /** A functional option.  `WithHTTPClient(null)` is the option built from a nil client. */
  datatype ClientOption = WithHTTPClient(hc: HttpClient?)

  const DefaultBaseApi: GoString := "https://auth.kite.trade"
  const DefaultRetries: int64 := 2
  const DefaultTimeoutSeconds: nat := 20

  /** 2 to the power `n`. */
  function Pow2(n: nat): nat
  {
    if n == 0 then 1 else 2 * Pow2(n - 1)
  }

  /** The default backoff in milliseconds: 100 ms for the first attempt, doubled for each attempt after it. */
  function DefaultBackoff(attempt: nat): (delay: int)
    ensures attempt == 0 ==> delay == 100
    ensures attempt > 0 ==> delay == 2 * DefaultBackoff(attempt - 1)
  {
    100 * Pow2(attempt)
  }

  /** With the default policy, a run in which every attempt fails sleeps 100 ms, then 200 ms. */
  lemma DefaultDelays()
    ensures Backoffs(DefaultBackoff, 0, DefaultRetries as int) == [100, 200]
  {
    assert DefaultBackoff(1) == 200;
  }

  /** What one option does to the configuration. */
  function ApplyOption(c: Config, o: ClientOption): (r: Config)
    ensures r.baseApi == c.baseApi && r.retries == c.retries && r.backoff == c.backoff
    ensures r.httpClient == if o.hc != null then o.hc else c.httpClient
  {
    match o
    case WithHTTPClient(hc) => if hc != null then c.(httpClient := hc) else c
  }

  /** The options applied one after another, first to last. */
  function ApplyOptions(c: Config, opts: seq<ClientOption>): (r: Config)
    ensures r.httpClient == c.httpClient || exists i :: 0 <= i < |opts| && r.httpClient == opts[i].hc
  {
    if opts == [] then c else ApplyOption(ApplyOptions(c, opts[..|opts| - 1]), opts[|opts| - 1])
  }

  /** Applying a list of options is applying its first part, then its second. */
  lemma {:induction false} ApplyOptionsAppend(c: Config, a: seq<ClientOption>, b: seq<ClientOption>)
    ensures ApplyOptions(c, a + b) == ApplyOptions(ApplyOptions(c, a), b)
    decreases |b|
  {
    if b != [] {
      assert (a + b)[..|a + b| - 1] == a + b[..|b| - 1];
      assert (a + b)[|a + b| - 1] == b[|b| - 1];
      ApplyOptionsAppend(c, a, b[..|b| - 1]);
    } else {
      assert a + b == a;
    }
  }

  /** Options touch only the transport: base URL, retries and backoff keep their values. */
  lemma {:induction false} OptionsKeepPolicy(c: Config, opts: seq<ClientOption>)
    ensures var r := ApplyOptions(c, opts);
            r.baseApi == c.baseApi && r.retries == c.retries && r.backoff == c.backoff
  {
    if opts != [] {
      OptionsKeepPolicy(c, opts[..|opts| - 1]);
    }
  }

  /** With no non-nil client among the options the transport is unchanged. */
  lemma {:induction false} NilClientsKeepTransport(c: Config, opts: seq<ClientOption>)
    requires forall i :: 0 <= i < |opts| ==> opts[i].hc == null
    ensures ApplyOptions(c, opts) == c
  {
    if opts != [] {
      NilClientsKeepTransport(c, opts[..|opts| - 1]);
    }
  }

  /** The last non-nil client among the options is the one the client keeps. */
  lemma {:induction false} LastClientWins(c: Config, opts: seq<ClientOption>, j: nat)
    requires j < |opts| && opts[j].hc != null
    requires forall i :: j < i < |opts| ==> opts[i].hc == null
    ensures ApplyOptions(c, opts).httpClient == opts[j].hc
  {
    if j < |opts| - 1 {
      LastClientWins(c, opts[..|opts| - 1], j);
    }
  }

  // ---------------------------------------------------------------------
  // The exchange, as a function of its inputs
  // ---------------------------------------------------------------------

  /**
    What the exchange cannot see into: the hash function, the error
    `http.NewRequestWithContext` gives for this context and endpoint (if any),
    and the outcome of `HTTPClient.Do` on each attempt, which depends on the
    client's configured HTTP client, the request and the attempt number.
   */
  datatype Environment = Environment(sha256: Sha256, newRequestErr: Option<GoString>,
                                     send: (HttpClient, Request, nat) -> AttemptOutcome)

  /**
    The result of an exchange: the response and the error Go returns (either
    may be nil), how many requests were sent, and the delays slept, in order.
   */
  datatype Trace = Trace(response: Option<SessionResponse>, err: Option<Error>, calls: nat, sleeps: seq<int>)

  /** The request the exchange sends for these credentials. */
  function ExchangeRequest(c: Config, env: Environment, apiKey: GoString, apiSecret: GoString, requestToken: GoString): Request
  {
    TokenRequest(c.baseApi, TokenForm(apiKey, requestToken, ComputeChecksum(env.sha256, apiKey, apiSecret, requestToken)))
  }

  /**
    The attempts from `attempt` on, out of `attempts`, with the error and the
    delays so far.  A response is only ever a success, returned with a nil
    error; no attempt reports a validation error; at most the remaining
    attempts are made.
   */
  function Attempts(attempts: int, backoff: nat -> int, hc: HttpClient, req: Request, env: Environment,
                    attempt: nat, lastErr: Option<Error>, sleeps: seq<int>): (t: Trace)
    ensures t.response.Some? ==> t.err.None? && IsSuccess(t.response.value)
    ensures (lastErr.None? || !lastErr.value.InvalidInput?) ==> t.err.None? || !t.err.value.InvalidInput?
    ensures attempt <= t.calls <= if attempt >= attempts then attempt else attempts
    decreases attempts - attempt
  {
    if attempt >= attempts then Trace(None, lastErr, attempt, sleeps)
    else if env.newRequestErr.Some? then Trace(None, Some(RequestFailed(env.newRequestErr.value)), attempt, sleeps)
    else
      var o := env.send(hc, req, attempt);
      if Succeeded(o) then Trace(Some(o.response), None, attempt + 1, sleeps)
      else
        Attempts(attempts, backoff, hc, req, env, attempt + 1, Some(AttemptError(o)),
                 if attempt + 1 < attempts then sleeps + [backoff(attempt)] else sleeps)
  }

  /** One failed attempt: the run goes on from the next attempt with that attempt's error, after a sleep unless it was the last. */
  lemma AttemptsStep(n: int, backoff: nat -> int, hc: HttpClient, req: Request, env: Environment,
                     a: nat, lastErr: Option<Error>, sleeps: seq<int>)
    requires a < n && env.newRequestErr.None? && !Succeeded(env.send(hc, req, a))
    ensures Attempts(n, backoff, hc, req, env, a, lastErr, sleeps)
            == Attempts(n, backoff, hc, req, env, a + 1, Some(AttemptError(env.send(hc, req, a))),
                        if a + 1 < n then sleeps + [backoff(a)] else sleeps)
  {
  }

  /**
    `ExchangeForAccessToken` as a function of the configuration, the
    environment and the credentials.  The validation error comes exactly from
    a missing credential; a response is only ever a success, with a nil
    error; at most `Retries + 1` requests are sent, and none when that count
    is not positive in Go's `int` arithmetic.
   */
  function Exchange(c: Config, env: Environment, apiKey: GoString, apiSecret: GoString, requestToken: GoString): (t: Trace)
    ensures (t.err.Some? && t.err.value.InvalidInput?) <==> (apiKey == [] || apiSecret == [] || requestToken == [])
    ensures t.response.Some? ==> t.err.None? && IsSuccess(t.response.value)
    ensures t.calls <= if c.retries < 0 || c.retries as int == MaxInt then 0 else c.retries as int + 1
  {
    AttemptCountWraps(c.retries);
    if apiKey == [] || apiSecret == [] || requestToken == [] then
      Trace(None, Some(InvalidInput(MissingCredentials)), 0, [])
    else
      Attempts(AttemptCount(c.retries), c.backoff, c.httpClient, ExchangeRequest(c, env, apiKey, apiSecret, requestToken), env, 0, None, [])
  }

  /** The delays `backoff(lo)`, ..., `backoff(hi - 1)`. */
  function Backoffs(backoff: nat -> int, lo: nat, hi: nat): (ds: seq<int>)
    requires lo <= hi
    ensures |ds| == hi - lo
    ensures forall i :: 0 <= i < hi - lo ==> ds[i] == backoff(lo + i)
  {
    seq(hi - lo, i requires 0 <= i < hi - lo => backoff(lo + i))
  }

  // ---------------------------------------------------------------------
  // Properties of the exchange
  // ---------------------------------------------------------------------

  /** A missing credential fails at once: no request is sent and nothing is slept. */
  lemma MissingCredentialFails(c: Config, env: Environment, apiKey: GoString, apiSecret: GoString, requestToken: GoString)
    requires apiKey == [] || apiSecret == [] || requestToken == []
    ensures Exchange(c, env, apiKey, apiSecret, requestToken) == Trace(None, Some(InvalidInput(MissingCredentials)), 0, [])
  {
  }

  /**
    With a negative `Retries`, or with the largest `int`, for which
    `Retries + 1` wraps around to a negative count, the loop never runs: no
    request, no response and a nil error.
   */
  lemma NoAttempts(c: Config, env: Environment, apiKey: GoString, apiSecret: GoString, requestToken: GoString)
    requires apiKey != [] && apiSecret != [] && requestToken != []
    requires c.retries < 0 || c.retries as int == MaxInt
    ensures Exchange(c, env, apiKey, apiSecret, requestToken) == Trace(None, None, 0, [])
  {
    AttemptCountWraps(c.retries);
  }

  /** A request that cannot be built ends the exchange on the first attempt, before anything is sent. */
  lemma RequestErrorAborts(c: Config, env: Environment, apiKey: GoString, apiSecret: GoString, requestToken: GoString)
    requires apiKey != [] && apiSecret != [] && requestToken != []
    requires 0 <= c.retries as int < MaxInt && env.newRequestErr.Some?
    ensures Exchange(c, env, apiKey, apiSecret, requestToken)
            == Trace(None, Some(RequestFailed(env.newRequestErr.value)), 0, [])
  {
    AttemptCountWraps(c.retries);
  }

  /** Attempts `a` .. `n - 1` all fail: `n` requests in all, the last error, and a sleep after every attempt but the last. */
  lemma {:induction false} AttemptsAllFail(n: int, backoff: nat -> int, hc: HttpClient, req: Request, env: Environment,
                                           a: nat, lastErr: Option<Error>, sleeps: seq<int>)
    requires env.newRequestErr.None?
    requires a < n
    requires forall i :: a <= i < n ==> !Succeeded(env.send(hc, req, i))
    ensures Attempts(n, backoff, hc, req, env, a, lastErr, sleeps)
            == Trace(None, Some(AttemptError(env.send(hc, req, n - 1))), n, sleeps + Backoffs(backoff, a, n - 1))
    decreases n - a
  {
    if a == n - 1 {
      assert sleeps + Backoffs(backoff, a, n - 1) == sleeps;
    } else {
      var o := env.send(hc, req, a);
      AttemptsAllFail(n, backoff, hc, req, env, a + 1, Some(AttemptError(o)), sleeps + [backoff(a)]);
      assert sleeps + [backoff(a)] + Backoffs(backoff, a + 1, n - 1) == sleeps + Backoffs(backoff, a, n - 1);
    }
  }

  /** The first successful attempt `k` ends the exchange with its response, after `k` sleeps. */
  lemma {:induction false} AttemptsFirstSuccess(n: int, backoff: nat -> int, hc: HttpClient, req: Request, env: Environment,
                                                a: nat, k: nat, lastErr: Option<Error>, sleeps: seq<int>)
    requires env.newRequestErr.None?
    requires a <= k < n
    requires forall i :: a <= i < k ==> !Succeeded(env.send(hc, req, i))
    requires Succeeded(env.send(hc, req, k))
    ensures Attempts(n, backoff, hc, req, env, a, lastErr, sleeps)
            == Trace(Some(env.send(hc, req, k).response), None, k + 1, sleeps + Backoffs(backoff, a, k))
    decreases n - a
  {
    if a == k {
      assert sleeps + Backoffs(backoff, a, k) == sleeps;
    } else {
      var o := env.send(hc, req, a);
      AttemptsFirstSuccess(n, backoff, hc, req, env, a + 1, k, Some(AttemptError(o)), sleeps + [backoff(a)]);
      assert sleeps + [backoff(a)] + Backoffs(backoff, a + 1, k) == sleeps + Backoffs(backoff, a, k);
    }
  }

  /**
    When every attempt fails, exactly `Retries + 1` requests are sent, the
    delays `Backoff(0) .. Backoff(Retries - 1)` are slept in order (none after
    the last attempt), and the error returned is the one the last attempt
    recorded; earlier errors are dropped.
   */
  lemma ExhaustedRetries(c: Config, env: Environment, apiKey: GoString, apiSecret: GoString, requestToken: GoString)
    requires apiKey != [] && apiSecret != [] && requestToken != []
    requires env.newRequestErr.None? && 0 <= c.retries as int < MaxInt
    requires forall i :: 0 <= i <= c.retries as int ==>
               !Succeeded(env.send(c.httpClient, ExchangeRequest(c, env, apiKey, apiSecret, requestToken), i))
    ensures var hc, req := c.httpClient, ExchangeRequest(c, env, apiKey, apiSecret, requestToken);
            var r := c.retries as int;
            Exchange(c, env, apiKey, apiSecret, requestToken)
            == Trace(None, Some(AttemptError(env.send(hc, req, r))), r + 1, Backoffs(c.backoff, 0, r))
  {
    var hc, req := c.httpClient, ExchangeRequest(c, env, apiKey, apiSecret, requestToken);
    AttemptCountWraps(c.retries);
    AttemptsAllFail(c.retries as int + 1, c.backoff, hc, req, env, 0, None, []);
  }

  /**
    The first attempt whose response is a success is returned at once with a
    nil error: `k + 1` requests, the delays `Backoff(0) .. Backoff(k - 1)`,
    and nothing after it.
   */
  lemma FirstSuccessReturns(c: Config, env: Environment, apiKey: GoString, apiSecret: GoString, requestToken: GoString, k: nat)
    requires apiKey != [] && apiSecret != [] && requestToken != []
    requires env.newRequestErr.None? && k <= c.retries as int < MaxInt
    requires var hc, req := c.httpClient, ExchangeRequest(c, env, apiKey, apiSecret, requestToken);
             (forall i :: 0 <= i < k ==> !Succeeded(env.send(hc, req, i))) && Succeeded(env.send(hc, req, k))
    ensures var hc, req := c.httpClient, ExchangeRequest(c, env, apiKey, apiSecret, requestToken);
            Exchange(c, env, apiKey, apiSecret, requestToken)
            == Trace(Some(env.send(hc, req, k).response), None, k + 1, Backoffs(c.backoff, 0, k))
  {
    var hc, req := c.httpClient, ExchangeRequest(c, env, apiKey, apiSecret, requestToken);
    AttemptCountWraps(c.retries);
    AttemptsFirstSuccess(c.retries as int + 1, c.backoff, hc, req, env, 0, k, None, []);
  }

  /** What every run from attempt `a` on looks like, given that the first `a` attempts failed. */
  lemma {:induction false} AttemptsShape(n: int, backoff: nat -> int, hc: HttpClient, req: Request, env: Environment,
                                         a: nat, lastErr: Option<Error>)
    requires a < n
    requires env.newRequestErr.Some? ==> a == 0
    requires forall i :: 0 <= i < a ==> !Succeeded(env.send(hc, req, i))
    ensures var t := Attempts(n, backoff, hc, req, env, a, lastErr, Backoffs(backoff, 0, a));
      && a <= t.calls <= n
      && t.sleeps == Backoffs(backoff, 0, if t.calls == 0 then 0 else t.calls - 1)
      && (forall i :: 0 <= i < t.calls - 1 ==> !Succeeded(env.send(hc, req, i)))
      && (t.response.Some? ==> t.calls >= 1 && t.err.None? && Succeeded(env.send(hc, req, t.calls - 1))
                               && t.response.value == env.send(hc, req, t.calls - 1).response)
      && (t.response.None? && t.calls >= 1 ==> t.err == Some(AttemptError(env.send(hc, req, t.calls - 1))))
      && (t.calls < n ==> t.response.Some? || env.newRequestErr.Some?)
    decreases n - a
  {
    var t := Attempts(n, backoff, hc, req, env, a, lastErr, Backoffs(backoff, 0, a));
    if env.newRequestErr.None? {
      var o := env.send(hc, req, a);
      if !Succeeded(o) {
        if a + 1 < n {
          assert Backoffs(backoff, 0, a) + [backoff(a)] == Backoffs(backoff, 0, a + 1);
          AttemptsShape(n, backoff, hc, req, env, a + 1, Some(AttemptError(o)));
        } else {
          assert t == Trace(None, Some(AttemptError(o)), a + 1, Backoffs(backoff, 0, a));
        }
      }
    }
  }

  /**
    Every exchange with valid credentials: at most `Retries + 1` requests,
    one sleep between consecutive requests and none after the last, the
    delays `Backoff(0), Backoff(1), ...` in order; a response is returned only
    when it is a success, with a nil error, from the last request sent, all
    earlier ones having failed; otherwise the error is the one the last
    request recorded; fewer requests than allowed are sent only on success
    or when the request cannot be built.
   */
  lemma ExchangeShape(c: Config, env: Environment, apiKey: GoString, apiSecret: GoString, requestToken: GoString)
    requires apiKey != [] && apiSecret != [] && requestToken != []
    requires 0 <= c.retries as int < MaxInt
    ensures var hc, req := c.httpClient, ExchangeRequest(c, env, apiKey, apiSecret, requestToken);
            var t := Exchange(c, env, apiKey, apiSecret, requestToken);
      && t.calls <= c.retries as int + 1
      && t.sleeps == Backoffs(c.backoff, 0, if t.calls == 0 then 0 else t.calls - 1)
      && (forall i :: 0 <= i < t.calls - 1 ==> !Succeeded(env.send(hc, req, i)))
      && (t.response.Some? ==> t.calls >= 1 && t.err.None? && Succeeded(env.send(hc, req, t.calls - 1))
                               && t.response.value == env.send(hc, req, t.calls - 1).response
                               && IsSuccess(t.response.value))
      && (t.response.None? && t.calls >= 1 ==> t.err == Some(AttemptError(env.send(hc, req, t.calls - 1))))
      && (t.calls < c.retries as int + 1 ==> t.response.Some? || env.newRequestErr.Some?)
  {
    var hc, req := c.httpClient, ExchangeRequest(c, env, apiKey, apiSecret, requestToken);
    assert Backoffs(c.backoff, 0, 0) == [];
    AttemptCountWraps(c.retries);
    AttemptsShape(c.retries as int + 1, c.backoff, hc, req, env, 0, None);
  }

  // ---------------------------------------------------------------------
  // The client object
  // ---------------------------------------------------------------------

  /** `Client`: the transport, the base URL, the retry count and the backoff, set at construction. */
  class Client {
    var httpClient: HttpClient
    var baseApi: GoString
    var retries: int64
    var backoff: nat -> int

    /** The fields as a value. */
    function Cfg(): Config
      reads this
    {
      Config(httpClient, baseApi, retries, backoff)
    }

    /**
      `new`: a 20-second transport, the Kite API URL, 2 retries and the
      doubling backoff, then every option applied in the order given.
     */
    constructor (opts: seq<ClientOption>)
      ensures fresh(Cfg().httpClient) || exists i :: 0 <= i < |opts| && Cfg().httpClient == opts[i].hc
      ensures exists d: HttpClient :: d.timeoutSeconds == DefaultTimeoutSeconds
                && Cfg() == ApplyOptions(Config(d, DefaultBaseApi, DefaultRetries, DefaultBackoff), opts)
      ensures baseApi == DefaultBaseApi && retries == DefaultRetries && backoff == DefaultBackoff
    {
      var d := new HttpClient(DefaultTimeoutSeconds);
      httpClient := d;
      baseApi := DefaultBaseApi;
      retries := DefaultRetries;
      backoff := DefaultBackoff;
      new;
      ghost var start := Config(d, DefaultBaseApi, DefaultRetries, DefaultBackoff);
      var i := 0;
      while i < |opts|
        invariant 0 <= i <= |opts|
        invariant Cfg() == ApplyOptions(start, opts[..i])
        invariant httpClient == d || exists j :: 0 <= j < i && httpClient == opts[j].hc
      {
        Apply(opts[i]);
        assert opts[..i + 1][..i] == opts[..i];
        i := i + 1;
      }
      assert opts[..|opts|] == opts;
      OptionsKeepPolicy(start, opts);
    }

    /** Runs one option on this client. */
    method Apply(o: ClientOption)
      modifies this
      ensures Cfg() == ApplyOption(old(Cfg()), o)
    {
      match o
      case WithHTTPClient(hc) =>
        if hc != null {
          httpClient := hc;
        }
    }

    /**
      `ExchangeForAccessToken`: exactly the outcome `Exchange` gives for this
      client's fields -- the response, the error, the number of requests sent
      and the delays slept.
     */
    method ExchangeForAccessToken(env: Environment, apiKey: GoString, apiSecret: GoString, requestToken: GoString)
      returns (response: Option<SessionResponse>, err: Option<Error>, calls: nat, sleeps: seq<int>)
      ensures Trace(response, err, calls, sleeps) == Exchange(Cfg(), env, apiKey, apiSecret, requestToken)
    {
      if apiKey == [] || apiSecret == [] || requestToken == [] {
        return None, Some(InvalidInput(MissingCredentials)), 0, [];
      }

      var checksum := ComputeChecksum(env.sha256, apiKey, apiSecret, requestToken);
      var req := TokenRequest(baseApi, TokenForm(apiKey, requestToken, checksum));

      response, err, calls, sleeps := SendWithRetries(env, req);
    }

    /**
      The retry loop of `ExchangeForAccessToken` for a built request: up to
      `retries + 1` attempts (in Go's wrapping `int` arithmetic), stopping at the first success or at a request
      that cannot be built, sleeping `backoff(attempt)` between attempts.
     */
    method SendWithRetries(env: Environment, req: Request)
      returns (response: Option<SessionResponse>, err: Option<Error>, calls: nat, sleeps: seq<int>)
      ensures Trace(response, err, calls, sleeps) == Attempts(AttemptCount(retries), backoff, httpClient, req, env, 0, None, [])
    {
      var lastErr: Option<Error> := None;
      var attempts := AttemptCount(retries);
      var attempt: nat := 0;
      calls, sleeps := 0, [];
      ghost var total := Attempts(attempts, backoff, httpClient, req, env, 0, None, []);
      while attempt < attempts
        invariant calls == attempt
        invariant Attempts(attempts, backoff, httpClient, req, env, attempt, lastErr, sleeps) == total
        decreases attempts - attempt
      {
        if env.newRequestErr.Some? {
          return None, Some(RequestFailed(env.newRequestErr.value)), calls, sleeps;
        }
        var outcome := env.send(httpClient, req, attempt);
        ghost var old_lastErr := lastErr;
        calls := calls + 1;
        match outcome {
          case TransportErr(m) =>
            lastErr := Some(TransportFailed(m));
            assert lastErr == Some(AttemptError(outcome));
          case ReadErr(m) =>
            lastErr := Some(ReadFailed(m));
            assert lastErr == Some(AttemptError(outcome));
          case ParseErr(m) =>
            lastErr := Some(ParseFailed(m));
            assert lastErr == Some(AttemptError(outcome));
          case Parsed(sr) =>
            if IsSuccess(sr) {
              return Some(sr), None, calls, sleeps;
            }
            if sr.error != [] {
              lastErr := Some(Rejected(sr.error));
            } else {
              lastErr := Some(Rejected(UnknownError));
            }
            assert lastErr == Some(AttemptError(outcome));
        }
        assert !Succeeded(outcome);
        AttemptsStep(attempts, backoff, httpClient, req, env, attempt, old_lastErr, sleeps);
        if attempt + 1 < attempts {
          sleeps := sleeps + [backoff(attempt)];
        }
        attempt := attempt + 1;
      }
      return None, lastErr, calls, sleeps;
    }
  }
}
