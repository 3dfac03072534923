/**
 * The session protocol with the SLT API: which stored token the worker tries, when it logs in
 * again, and how it keeps the module-level `cachedAccessToken` up to date.
 */
module Session {
  import opened Wrappers
  import opened Text
  import opened Payload

  /** The worker's configuration; an unset secret is None. */
  datatype Env = Env(
    subscriberId: Option<string>,
    authToken: Option<string>,
    username: Option<string>,
    password: Option<string>,
    channelId: Option<string>)

  /** JavaScript truthiness of an optional string: set and not empty. */
  predicate Truthy(s: Option<string>) {
    s.Some? && s.value != ""
  }

  /** What the usage-summary endpoint answers: a status, the body as text, and the body as a payload. */
  datatype UsageResponse = UsageResponse(status: int, text: string, payload: UsagePayload)

  /** The `accessToken` field of a login response body. */
  datatype LoginResponse = LoginResponse(status: int, text: string, accessToken: Option<string>)

  /** One request to the usage-summary endpoint. */
  datatype UsageRequest = UsageRequest(subscriberId: string, token: string)

  /** The form body of one login request. */
  datatype LoginForm = LoginForm(username: string, password: string, channelId: string)

  /** `response.ok`. */
  predicate IsOk(status: int) {
    200 <= status <= 299
  }

  /** isUnauthorized. */
  predicate IsUnauthorized(status: int) {
    status == 401 || status == 403
  }

  /** canAutoLogin: both a user name and a password are set and not empty. */
  predicate CanAutoLogin(env: Env) {
    Truthy(env.username) && Truthy(env.password)
  }

  const MISSING_SUBSCRIBER_ID: string := "Missing SLT_SUBSCRIBER_ID"
  const NO_AUTH_TOKEN: string :=
    "No SLT auth token available. Provide SLT_AUTH_TOKEN or configure SLT_USERNAME and SLT_PASSWORD secrets for auto-login."
  const MISSING_CREDENTIALS: string := "Missing SLT_USERNAME or SLT_PASSWORD secret"
  const NO_ACCESS_TOKEN: string := "SLT login response did not include an accessToken"

  function ApiFailed(status: int, text: string): string {
    "SLT API failed with " + IntToString(status) + ": " + text
  }

  function RetryFailed(status: int, text: string): string {
    "SLT API failed after re-login with " + IntToString(status) + ": " + text
  }

  function LoginFailed(status: int, text: string): string {
    "SLT login failed with " + IntToString(status) + ": " + text
  }

  /** A candidate token: a string that is not all whitespace. */
  predicate Usable(t: Option<string>) {
    t.Some? && !IsBlank(t.value)
  }

  /** Usable is the `filter` test `token.trim().length > 0`. */
  lemma UsableIsTrimmedNonEmpty(t: Option<string>)
    ensures Usable(t) <==> t.Some? && Trim(t.value) != []
  {
    if t.Some? {
      TrimSpec(t.value);
    }
  }

  /** The `filter` step: the usable entries, in order. */
  function UsableTokens(ts: seq<Option<string>>): seq<string> {
    if ts == [] then [] else UsableTokens(ts[..|ts| - 1]) + UsableOne(ts[|ts| - 1])
  }

  /** The filter on one entry: the token when it is usable. */
  function UsableOne(t: Option<string>): seq<string> {
    if Usable(t) then [t.value] else []
  }

  /** `Array.from(new Set(s))`: each string once, in the order of its first occurrence. */
  function Distinct(s: seq<string>): seq<string> {
    if s == [] then []
    else
      var d := Distinct(s[..|s| - 1]);
      if s[|s| - 1] in d then d else d + [s[|s| - 1]]
  }

  predicate NoDuplicates(s: seq<string>) {
    forall i, j :: 0 <= i < j < |s| ==> s[i] != s[j]
  }

  /** Distinct keeps every string of `s` and no other, each once, and never lengthens `s`. */
  lemma {:induction false} DistinctSpec(s: seq<string>)
    ensures forall x :: x in Distinct(s) <==> x in s
    ensures NoDuplicates(Distinct(s)) && |Distinct(s)| <= |s|
  {
    if s != [] {
      DistinctSpec(s[..|s| - 1]);
      assert s == s[..|s| - 1] + [s[|s| - 1]];
    }
  }

  /** Distinct keeps the first string of `s` in front. */
  lemma {:induction false} DistinctFirst(s: seq<string>)
    requires s != []
    ensures Distinct(s) != [] && Distinct(s)[0] == s[0]
  {
    if |s| > 1 {
      DistinctFirst(s[..|s| - 1]);
    }
  }

  /** `tokensToTry`: the cached token, then the configured one, without blanks or repeats. */
  function CandidateTokens(cached: Option<string>, authToken: Option<string>): seq<string> {
    Distinct(UsableTokens([cached, authToken]))
  }

  lemma UsableTokensOfPair(cached: Option<string>, authToken: Option<string>)
    ensures UsableTokens([cached, authToken]) == UsableOne(cached) + UsableOne(authToken)
  {
    var ts := [cached, authToken];
    assert UsableTokens([cached]) == UsableOne(cached) by {
      assert [cached][..0] == [];
    }
    assert ts[..1] == [cached];
  }

  lemma DistinctOfShort(first: seq<string>, second: seq<string>)
    requires |first| <= 1 && |second| <= 1
    ensures Distinct(first + second) == if second != [] && second[0] !in first then first + second else first
  {
    assert Distinct(first) == first by {
      if first != [] {
        assert first[..0] == [];
      }
    }
    if second != [] {
      assert (first + second)[..|first|] == first;
    } else {
      assert first + second == first;
    }
  }

  /** The filter and the set of a two-entry list, written out. */
  lemma CandidateTokensOfPair(cached: Option<string>, authToken: Option<string>)
    ensures var first := UsableOne(cached);
      CandidateTokens(cached, authToken)
        == if Usable(authToken) && authToken.value !in first then first + [authToken.value] else first
  {
    UsableTokensOfPair(cached, authToken);
    DistinctOfShort(UsableOne(cached), UsableOne(authToken));
  }

  /** The four shapes the candidate list can take. */
  lemma CandidateTokensCases(cached: Option<string>, authToken: Option<string>)
    ensures CandidateTokens(cached, authToken)
      == if Usable(cached) && Usable(authToken) && authToken.value != cached.value then [cached.value, authToken.value]
         else if Usable(cached) then [cached.value]
         else if Usable(authToken) then [authToken.value]
         else []
  {
    CandidateTokensOfPair(cached, authToken);
  }

  /**
   * The candidates are exactly the usable ones of the cached and the configured token, never
   * the same twice.
   */
  lemma CandidateTokensMembers(cached: Option<string>, authToken: Option<string>)
    ensures var r := CandidateTokens(cached, authToken);
      (Usable(cached) ==> cached.value in r) && (Usable(authToken) ==> authToken.value in r)
      && (forall i :: 0 <= i < |r| ==> (Usable(cached) && r[i] == cached.value) || (Usable(authToken) && r[i] == authToken.value))
      && NoDuplicates(r)
  {
    CandidateTokensCases(cached, authToken);
  }

  /** The cached token is tried first when it is usable, and the configured one otherwise. */
  lemma CandidateTokensFirst(cached: Option<string>, authToken: Option<string>)
    ensures var r := CandidateTokens(cached, authToken);
      (Usable(cached) ==> r != [] && r[0] == cached.value)
      && (!Usable(cached) ==> r == if Usable(authToken) then [authToken.value] else [])
  {
    CandidateTokensOfPair(cached, authToken);
  }

  /** The outcome of a login: the token or the error message, and the login requests made. */
  datatype LoginOutcome = LoginOutcome(result: Result<string, string>, requests: seq<LoginForm>)

  /**
   * performSltLogin, as a function of the answer the login endpoint gives to request number
   * `l0`: it needs a user name and a password, sends them with the channel (by default
   * "WEB"), and accepts a 2xx answer whose access token is not blank once trimmed.
   */
  function LoginSpec(env: Env, loginReply: (nat, LoginForm) -> LoginResponse, l0: nat): LoginOutcome {
    if !Truthy(env.username) || !Truthy(env.password) then LoginOutcome(Failure(MISSING_CREDENTIALS), [])
    else
      var form := LoginForm(env.username.value, env.password.value, env.channelId.GetOr("WEB"));
      var response := loginReply(l0, form);
      if !IsOk(response.status) then LoginOutcome(Failure(LoginFailed(response.status, response.text)), [form])
      else if response.accessToken.None? || IsBlank(response.accessToken.value) then
        LoginOutcome(Failure(NO_ACCESS_TOKEN), [form])
      else LoginOutcome(Success(Trim(response.accessToken.value)), [form])
  }

  /** Without both credentials no login request is made. */
  lemma LoginNeedsCredentials(env: Env, loginReply: (nat, LoginForm) -> LoginResponse, l0: nat)
    requires !CanAutoLogin(env)
    ensures LoginSpec(env, loginReply, l0) == LoginOutcome(Failure(MISSING_CREDENTIALS), [])
  {
  }

  /** With both credentials exactly one login request is made, on channel "WEB" unless one is set. */
  lemma LoginSendsOneForm(env: Env, loginReply: (nat, LoginForm) -> LoginResponse, l0: nat)
    requires CanAutoLogin(env)
    ensures LoginSpec(env, loginReply, l0).requests
      == [LoginForm(env.username.value, env.password.value, if env.channelId.Some? then env.channelId.value else "WEB")]
  {
  }

  /** performSltLogin sends at most one login request. */
  lemma LoginRequestCount(env: Env, loginReply: (nat, LoginForm) -> LoginResponse, l0: nat)
    ensures |LoginSpec(env, loginReply, l0).requests| <= 1
  {
  }

  /** A token from a login is the answer's access token trimmed, and is neither blank nor padded. */
  lemma LoginTokenTrimmed(env: Env, loginReply: (nat, LoginForm) -> LoginResponse, l0: nat)
    ensures var o := LoginSpec(env, loginReply, l0);
      o.result.Success? ==>
        var response := loginReply(l0, o.requests[0]);
        IsOk(response.status) && response.accessToken.Some?
        && o.result.value == Trim(response.accessToken.value) && o.result.value != []
        && !IsJsWhitespace(o.result.value[0]) && !IsJsWhitespace(o.result.value[|o.result.value| - 1])
  {
    var o := LoginSpec(env, loginReply, l0);
    if o.result.Success? {
      TrimSpec(loginReply(l0, o.requests[0]).accessToken.value);
    }
  }

  /** A 2xx login answer with a token that is not blank succeeds with that token trimmed. */
  lemma LoginAcceptsToken(env: Env, loginReply: (nat, LoginForm) -> LoginResponse, l0: nat)
    requires CanAutoLogin(env)
    ensures var response := loginReply(l0, LoginForm(env.username.value, env.password.value, env.channelId.GetOr("WEB")));
      IsOk(response.status) && response.accessToken.Some? && !IsBlank(response.accessToken.value) ==>
        LoginSpec(env, loginReply, l0).result == Success(Trim(response.accessToken.value))
  {
  }

  /** A 2xx login answer without a token, or with a blank one, fails with "did not include an accessToken". */
  lemma LoginNoAccessToken(env: Env, loginReply: (nat, LoginForm) -> LoginResponse, l0: nat)
    requires CanAutoLogin(env)
    ensures var response := loginReply(l0, LoginForm(env.username.value, env.password.value, env.channelId.GetOr("WEB")));
      IsOk(response.status) && (response.accessToken.None? || IsBlank(response.accessToken.value)) ==>
        LoginSpec(env, loginReply, l0).result == Failure(NO_ACCESS_TOKEN)
  {
  }

  /**
   * A token from a login passes the candidate filter of the next fetch unchanged: it is its
   * own trim, it is usable, and once cached it is the first candidate.
   */
  lemma LoginTokenIsFirstCandidate(env: Env, loginReply: (nat, LoginForm) -> LoginResponse, l0: nat, authToken: Option<string>)
    ensures var o := LoginSpec(env, loginReply, l0);
      o.result.Success? ==>
        && Trim(o.result.value) == o.result.value && Usable(Some(o.result.value))
        && CandidateTokens(Some(o.result.value), authToken) != []
        && CandidateTokens(Some(o.result.value), authToken)[0] == o.result.value
  {
    var o := LoginSpec(env, loginReply, l0);
    if o.result.Success? {
      var raw := loginReply(l0, o.requests[0]).accessToken.value;
      TrimIdempotent(raw);
      TrimSpec(raw);
      assert !IsJsWhitespace(o.result.value[0]);
      CandidateTokensFirst(Some(o.result.value), authToken);
    }
  }

  /** A non-2xx login answer fails with its status and body, whatever its token. */
  lemma LoginRejected(env: Env, loginReply: (nat, LoginForm) -> LoginResponse, l0: nat)
    requires CanAutoLogin(env)
    ensures var o := LoginSpec(env, loginReply, l0);
      !IsOk(loginReply(l0, o.requests[0]).status) ==>
        o.result == Failure(LoginFailed(loginReply(l0, o.requests[0]).status, loginReply(l0, o.requests[0]).text))
  {
  }

  /**
   * The outcome of fetchUsagePayload: the payload or the error message, the cached token
   * afterwards, and the usage-summary and login requests made.
   */
  datatype FetchOutcome = FetchOutcome(
    result: Result<UsagePayload, string>,
    cached: Option<string>,
    usageRequests: seq<UsageRequest>,
    loginRequests: seq<LoginForm>)

  /** The first candidate was rejected with 401 or 403, or there was none. */
  predicate NeedsLogin(env: Env, tokens: seq<string>, usageReply: (nat, UsageRequest) -> UsageResponse, u0: nat)
    requires Truthy(env.subscriberId)
  {
    tokens == [] || IsUnauthorized(usageReply(u0, UsageRequest(env.subscriberId.value, tokens[0])).status)
  }

  /** The usage request made for the first candidate, if there is one. */
  function Tried(id: string, tokens: seq<string>): seq<UsageRequest> {
    if tokens == [] then [] else [UsageRequest(id, tokens[0])]
  }

  /** The first candidate's answer when it is neither 401 nor 403: its payload, or a failure. */
  function FirstAnswer(cached: Option<string>, id: string, token: string, response: UsageResponse): FetchOutcome {
    if IsOk(response.status) then FetchOutcome(Success(response.payload), Some(token), [UsageRequest(id, token)], [])
    else FetchOutcome(Failure(ApiFailed(response.status, response.text)), cached, [UsageRequest(id, token)], [])
  }

  /**
   * fetchUsagePayload as a function of the cached token, the candidate tokens, the
   * configuration, the answers of the usage endpoint (numbered from `u0`) and the outcome
   * `login` that performSltLogin has if it is called.
   */
  function FetchSpec(
    cached: Option<string>, tokens: seq<string>, env: Env,
    usageReply: (nat, UsageRequest) -> UsageResponse, login: LoginOutcome, u0: nat): FetchOutcome
  {
    if !Truthy(env.subscriberId) then FetchOutcome(Failure(MISSING_SUBSCRIBER_ID), cached, [], [])
    else
      var id := env.subscriberId.value;
      var tried := Tried(id, tokens);
      if !NeedsLogin(env, tokens, usageReply, u0) then FirstAnswer(cached, id, tokens[0], usageReply(u0, UsageRequest(id, tokens[0])))
      else Fallback(cached, tried, FirstFailure(id, tokens, usageReply, u0), env, id, usageReply, login, u0 + |tried|)
  }

  /** The answer to the first candidate, kept as `lastFailure` once it is a 401 or 403. */
  function FirstFailure(id: string, tokens: seq<string>, usageReply: (nat, UsageRequest) -> UsageResponse, u0: nat): Option<UsageResponse> {
    if tokens == [] then None else Some(usageReply(u0, UsageRequest(id, tokens[0])))
  }

  /**
   * The re-login tail of fetchUsagePayload, after the usage requests `tried`: without
   * credentials it fails with the last rejection, or for want of any token; otherwise it
   * logs in and retries once, as usage request number `u1`.
   */
  function Fallback(
    cached: Option<string>, tried: seq<UsageRequest>, lastFailure: Option<UsageResponse>, env: Env, id: string,
    usageReply: (nat, UsageRequest) -> UsageResponse, login: LoginOutcome, u1: nat): FetchOutcome
  {
    if !CanAutoLogin(env) then
      FetchOutcome(
        Failure(if lastFailure.Some? then ApiFailed(lastFailure.value.status, lastFailure.value.text) else NO_AUTH_TOKEN),
        cached, tried, [])
    else AfterLogin(cached, tried, id, login, usageReply, u1)
  }

  /**
   * The end of fetchUsagePayload once it has logged in: a failed login fails the call; a
   * token from the login is cached and retried once, as usage request number `u1`.
   */
  function AfterLogin(
    cached: Option<string>, tried: seq<UsageRequest>, id: string, login: LoginOutcome,
    usageReply: (nat, UsageRequest) -> UsageResponse, u1: nat): FetchOutcome
  {
    if login.result.Failure? then FetchOutcome(Failure(login.result.error), cached, tried, login.requests)
    else
      var retry := UsageRequest(id, login.result.value);
      var response := usageReply(u1, retry);
      FetchOutcome(
        if IsOk(response.status) then Success(response.payload) else Failure(RetryFailed(response.status, response.text)),
        Some(login.result.value), tried + [retry], login.requests)
  }

  /** Without a subscriber id nothing is requested and nothing changes. */
  lemma FetchNeedsSubscriber(
    cached: Option<string>, tokens: seq<string>, env: Env,
    usageReply: (nat, UsageRequest) -> UsageResponse, login: LoginOutcome, u0: nat)
    requires !Truthy(env.subscriberId)
    ensures FetchSpec(cached, tokens, env, usageReply, login, u0) == FetchOutcome(Failure(MISSING_SUBSCRIBER_ID), cached, [], [])
  {
  }

  /** A 2xx answer to the first candidate returns its payload and caches that candidate. */
  lemma FetchFirstAccepted(
    cached: Option<string>, tokens: seq<string>, env: Env,
    usageReply: (nat, UsageRequest) -> UsageResponse, login: LoginOutcome, u0: nat)
    requires Truthy(env.subscriberId) && tokens != []
    requires IsOk(usageReply(u0, UsageRequest(env.subscriberId.value, tokens[0])).status)
    ensures var request := UsageRequest(env.subscriberId.value, tokens[0]);
      FetchSpec(cached, tokens, env, usageReply, login, u0)
        == FetchOutcome(Success(usageReply(u0, request).payload), Some(tokens[0]), [request], [])
  {
  }

  /** A first answer that is neither 2xx nor 401/403 fails at once with its status, without a login. */
  lemma FetchOtherStatusFailsAtOnce(
    cached: Option<string>, tokens: seq<string>, env: Env,
    usageReply: (nat, UsageRequest) -> UsageResponse, login: LoginOutcome, u0: nat)
    requires Truthy(env.subscriberId) && tokens != []
    requires var r := usageReply(u0, UsageRequest(env.subscriberId.value, tokens[0]));
      !IsOk(r.status) && !IsUnauthorized(r.status)
    ensures var request := UsageRequest(env.subscriberId.value, tokens[0]);
      var r := usageReply(u0, request);
      FetchSpec(cached, tokens, env, usageReply, login, u0) == FetchOutcome(Failure(ApiFailed(r.status, r.text)), cached, [request], [])
  {
  }

  /**
   * Without credentials for a login, a call with no candidate fails with "No SLT auth token
   * available" after no request, and a rejected candidate fails with its rejection.
   */
  lemma FetchWithoutAutoLogin(
    cached: Option<string>, tokens: seq<string>, env: Env,
    usageReply: (nat, UsageRequest) -> UsageResponse, login: LoginOutcome, u0: nat)
    requires Truthy(env.subscriberId) && NeedsLogin(env, tokens, usageReply, u0) && !CanAutoLogin(env)
    ensures var id := env.subscriberId.value;
      FetchSpec(cached, tokens, env, usageReply, login, u0) == FetchOutcome(
        Failure(if tokens == [] then NO_AUTH_TOKEN
                else ApiFailed(usageReply(u0, UsageRequest(id, tokens[0])).status, usageReply(u0, UsageRequest(id, tokens[0])).text)),
        cached, Tried(id, tokens), [])
  {
  }

  /** A failed login fails the call with the login's error and leaves the cache alone. */
  lemma FetchLoginFails(
    cached: Option<string>, tokens: seq<string>, env: Env,
    usageReply: (nat, UsageRequest) -> UsageResponse, login: LoginOutcome, u0: nat)
    requires Truthy(env.subscriberId) && NeedsLogin(env, tokens, usageReply, u0) && CanAutoLogin(env)
    requires login.result.Failure?
    ensures FetchSpec(cached, tokens, env, usageReply, login, u0) == FetchOutcome(Failure(login.result.error), cached, Tried(env.subscriberId.value, tokens), login.requests)
  {
  }

  /**
   * After a successful login the fresh token is cached whatever the one retry answers; a
   * retry that is not 2xx fails "after re-login" with the retry's status.
   */
  lemma FetchRetry(
    cached: Option<string>, tokens: seq<string>, env: Env,
    usageReply: (nat, UsageRequest) -> UsageResponse, login: LoginOutcome, u0: nat)
    requires Truthy(env.subscriberId) && NeedsLogin(env, tokens, usageReply, u0) && CanAutoLogin(env)
    requires login.result.Success?
    ensures var id := env.subscriberId.value;
      var token := login.result.value;
      var tried := Tried(id, tokens);
      var r := usageReply(u0 + |tried|, UsageRequest(id, token));
      FetchSpec(cached, tokens, env, usageReply, login, u0) == FetchOutcome(
        if IsOk(r.status) then Success(r.payload) else Failure(RetryFailed(r.status, r.text)),
        Some(token), tried + [UsageRequest(id, token)], login.requests)
  {
    var id := env.subscriberId.value;
    var tried := Tried(id, tokens);
    assert FetchSpec(cached, tokens, env, usageReply, login, u0)
      == AfterLogin(cached, tried, id, login, usageReply, u0 + |tried|);
  }

  /** Once the first candidate is rejected, or there is none, the call is decided by the re-login tail. */
  lemma FetchFallsBack(
    cached: Option<string>, tokens: seq<string>, env: Env,
    usageReply: (nat, UsageRequest) -> UsageResponse, login: LoginOutcome, u0: nat)
    requires Truthy(env.subscriberId) && NeedsLogin(env, tokens, usageReply, u0)
    ensures var id := env.subscriberId.value;
      FetchSpec(cached, tokens, env, usageReply, login, u0)
        == Fallback(cached, Tried(id, tokens), FirstFailure(id, tokens, usageReply, u0), env, id, usageReply, login, u0 + |Tried(id, tokens)|)
  {
  }

  /** With credentials, a rejected or missing first candidate leads to exactly one login request. */
  lemma FetchReloginLogsInOnce(
    cached: Option<string>, tokens: seq<string>, env: Env,
    usageReply: (nat, UsageRequest) -> UsageResponse, loginReply: (nat, LoginForm) -> LoginResponse, u0: nat, l0: nat)
    requires Truthy(env.subscriberId) && NeedsLogin(env, tokens, usageReply, u0) && CanAutoLogin(env)
    ensures |FetchSpec(cached, tokens, env, usageReply, LoginSpec(env, loginReply, l0), u0).loginRequests| == 1
  {
    FetchFallsBack(cached, tokens, env, usageReply, LoginSpec(env, loginReply, l0), u0);
    LoginSendsOneForm(env, loginReply, l0);
  }

  /** One call logs in at most once and asks for the usage summary at most twice. */
  lemma FetchRequestBounds(
    cached: Option<string>, tokens: seq<string>, env: Env,
    usageReply: (nat, UsageRequest) -> UsageResponse, login: LoginOutcome, u0: nat)
    requires |login.requests| <= 1
    ensures var o := FetchSpec(cached, tokens, env, usageReply, login, u0);
      |o.usageRequests| <= 2 && |o.loginRequests| <= 1
  {
  }

  /**
   * Only the first candidate is ever tried: the first usage request carries it, and a second
   * one carries the token the login returned, which is then the cached token.
   */
  lemma FetchTriesFirstCandidateOnly(
    cached: Option<string>, tokens: seq<string>, env: Env,
    usageReply: (nat, UsageRequest) -> UsageResponse, login: LoginOutcome, u0: nat)
    requires Truthy(env.subscriberId)
    ensures var o := FetchSpec(cached, tokens, env, usageReply, login, u0);
      (tokens != [] ==> |o.usageRequests| >= 1 && o.usageRequests[0] == UsageRequest(env.subscriberId.value, tokens[0]))
      && (tokens == [] ==> |o.usageRequests| <= 1)
      && (|o.usageRequests| == 2 ==> o.cached == Some(o.usageRequests[1].token))
  {
  }

  /** A fetched payload comes with its token cached: the last token sent. */
  lemma FetchCachesWorkingToken(
    cached: Option<string>, tokens: seq<string>, env: Env,
    usageReply: (nat, UsageRequest) -> UsageResponse, login: LoginOutcome, u0: nat)
    ensures var o := FetchSpec(cached, tokens, env, usageReply, login, u0);
      o.result.Success? ==> o.usageRequests != [] && o.cached == Some(o.usageRequests[|o.usageRequests| - 1].token)
  {
  }

  /** The cache changes only to the last token sent. */
  lemma FetchCacheChanges(
    cached: Option<string>, tokens: seq<string>, env: Env,
    usageReply: (nat, UsageRequest) -> UsageResponse, login: LoginOutcome, u0: nat)
    ensures var o := FetchSpec(cached, tokens, env, usageReply, login, u0);
      o.cached == cached
      || (o.usageRequests != [] && o.cached == Some(o.usageRequests[|o.usageRequests| - 1].token))
  {
  }

  /**
   * The SLT endpoints. The answer to a request depends on the request and on how many
   * requests of its kind came before; every request made is logged.
   */
  class Upstream {
    const usageReply: (nat, UsageRequest) -> UsageResponse
    const loginReply: (nat, LoginForm) -> LoginResponse
    var usageRequests: seq<UsageRequest>
    var loginRequests: seq<LoginForm>

    constructor (usageReply: (nat, UsageRequest) -> UsageResponse, loginReply: (nat, LoginForm) -> LoginResponse)
      ensures this.usageReply == usageReply && this.loginReply == loginReply
      ensures usageRequests == [] && loginRequests == []
    {
      this.usageReply := usageReply;
      this.loginReply := loginReply;
      usageRequests := [];
      loginRequests := [];
    }

    /** requestUsageSummary. */
    method RequestUsageSummary(subscriberId: string, token: string) returns (response: UsageResponse)
      modifies this
      ensures response == usageReply(|old(usageRequests)|, UsageRequest(subscriberId, token))
      ensures usageRequests == old(usageRequests) + [UsageRequest(subscriberId, token)]
      ensures loginRequests == old(loginRequests)
    {
      response := usageReply(|usageRequests|, UsageRequest(subscriberId, token));
      usageRequests := usageRequests + [UsageRequest(subscriberId, token)];
    }

    /** The POST to the login endpoint. */
    method RequestLogin(form: LoginForm) returns (response: LoginResponse)
      modifies this
      ensures response == loginReply(|old(loginRequests)|, form)
      ensures loginRequests == old(loginRequests) + [form]
      ensures usageRequests == old(usageRequests)
    {
      response := loginReply(|loginRequests|, form);
      loginRequests := loginRequests + [form];
    }
  }

  /** performSltLogin. */
  method PerformSltLogin(env: Env, upstream: Upstream) returns (r: Result<string, string>)
    modifies upstream
    ensures var o := LoginSpec(env, upstream.loginReply, |old(upstream.loginRequests)|);
      r == o.result && upstream.loginRequests == old(upstream.loginRequests) + o.requests
    ensures upstream.usageRequests == old(upstream.usageRequests)
  {
    if !Truthy(env.username) || !Truthy(env.password) {
      return Failure(MISSING_CREDENTIALS);
    }
    var form := LoginForm(env.username.value, env.password.value, env.channelId.GetOr("WEB"));
    var response := upstream.RequestLogin(form);
    if !IsOk(response.status) {
      return Failure(LoginFailed(response.status, response.text));
    }
    var accessToken := if response.accessToken.Some? then Some(Trim(response.accessToken.value)) else None;
    if response.accessToken.Some? {
      TrimSpec(response.accessToken.value);
    }
    if accessToken.None? || accessToken.value == "" {
      return Failure(NO_ACCESS_TOKEN);
    }
    return Success(accessToken.value);
  }

  /** The answer of the login route: whether the login succeeded, and the error otherwise. */
  datatype LoginNowResponse = LoginNowResponse(loggedIn: bool, error: Option<string>)

  /** The worker's module state: the access token that last worked. */
  class SltClient {
    var cachedAccessToken: Option<string>

    constructor ()
      ensures cachedAccessToken == None
    {
      cachedAccessToken := None;
    }

    /** fetchUsagePayload. */
    method FetchUsagePayload(env: Env, upstream: Upstream) returns (r: Result<UsagePayload, string>)
      modifies this, upstream
      ensures var o := FetchSpec(old(cachedAccessToken), CandidateTokens(old(cachedAccessToken), env.authToken),
                                 env, upstream.usageReply, LoginSpec(env, upstream.loginReply, |old(upstream.loginRequests)|),
                                 |old(upstream.usageRequests)|);
        r == o.result && cachedAccessToken == o.cached
        && upstream.usageRequests == old(upstream.usageRequests) + o.usageRequests
        && upstream.loginRequests == old(upstream.loginRequests) + o.loginRequests
    {
      ghost var cached0, u0, l0 := cachedAccessToken, |upstream.usageRequests|, |upstream.loginRequests|;
      ghost var usageReply := upstream.usageReply;
      ghost var login0 := LoginSpec(env, upstream.loginReply, l0);
      if !Truthy(env.subscriberId) {
        FetchNeedsSubscriber(cached0, CandidateTokens(cached0, env.authToken), env, usageReply, login0, u0);
        return Failure(MISSING_SUBSCRIBER_ID);
      }
      var subscriberId := env.subscriberId.value;
      var tokensToTry := CandidateTokens(cachedAccessToken, env.authToken);
      var lastFailure: Option<UsageResponse> := None;
      var i := 0;
      // fetchUsagePayload's `break` after a 401 or 403 is the guard `lastFailure.None?`.
      while i < |tokensToTry| && lastFailure.None?
        invariant i <= |tokensToTry| && (i == 0 <==> lastFailure.None?) && i <= 1
        invariant lastFailure.Some? ==> lastFailure == Some(usageReply(u0, UsageRequest(subscriberId, tokensToTry[0])))
        invariant lastFailure.Some? ==> IsUnauthorized(lastFailure.value.status)
        invariant cachedAccessToken == cached0
        invariant upstream.usageRequests == old(upstream.usageRequests) + Tried(subscriberId, tokensToTry[..i])
        invariant upstream.loginRequests == old(upstream.loginRequests)
        decreases |tokensToTry| - i
      {
        var token := tokensToTry[i];
        var response := upstream.RequestUsageSummary(subscriberId, token);
        if IsOk(response.status) {
          FetchFirstAccepted(cached0, tokensToTry, env, usageReply, login0, u0);
          cachedAccessToken := Some(token);
          return Success(response.payload);
        }
        lastFailure := Some(response);
        if !IsUnauthorized(response.status) {
          FetchOtherStatusFailsAtOnce(cached0, tokensToTry, env, usageReply, login0, u0);
          return Failure(ApiFailed(response.status, response.text));
        }
        i := i + 1;
      }
      assert lastFailure == FirstFailure(subscriberId, tokensToTry, usageReply, u0);
      FetchFallsBack(cached0, tokensToTry, env, usageReply, login0, u0);
      r := Reauthenticate(env, upstream, subscriberId, lastFailure, old(upstream.usageRequests), Tried(subscriberId, tokensToTry));
    }

    /**
     * The re-login tail of fetchUsagePayload, once the usage requests `tried` have been made
     * after `base`.
     */
    method Reauthenticate(
      env: Env, upstream: Upstream, subscriberId: string, lastFailure: Option<UsageResponse>,
      ghost base: seq<UsageRequest>, ghost tried: seq<UsageRequest>)
      returns (r: Result<UsagePayload, string>)
      requires upstream.usageRequests == base + tried
      modifies this, upstream
      ensures var o := Fallback(old(cachedAccessToken), tried, lastFailure, env, subscriberId, upstream.usageReply,
                                LoginSpec(env, upstream.loginReply, |old(upstream.loginRequests)|), |old(upstream.usageRequests)|);
        r == o.result && cachedAccessToken == o.cached
        && upstream.usageRequests == base + o.usageRequests
        && upstream.loginRequests == old(upstream.loginRequests) + o.loginRequests
    {
      if !CanAutoLogin(env) {
        if lastFailure.Some? {
          return Failure(ApiFailed(lastFailure.value.status, lastFailure.value.text));
        }
        return Failure(NO_AUTH_TOKEN);
      }
      var login := PerformSltLogin(env, upstream);
      if login.Failure? {
        return Failure(login.error);
      }
      var freshToken := login.value;
      cachedAccessToken := Some(freshToken);
      var retryResponse := upstream.RequestUsageSummary(subscriberId, freshToken);
      if !IsOk(retryResponse.status) {
        return Failure(RetryFailed(retryResponse.status, retryResponse.text));
      }
      return Success(retryResponse.payload);
    }

    /** loginNow: a successful login replaces the cached token; a failed one leaves it. */
    method LoginNow(env: Env, upstream: Upstream) returns (response: LoginNowResponse)
      modifies this, upstream
      ensures var o := LoginSpec(env, upstream.loginReply, |old(upstream.loginRequests)|);
        && response.loggedIn == o.result.Success?
        && (o.result.Success? ==> cachedAccessToken == Some(o.result.value) && response.error == None)
        && (o.result.Failure? ==> cachedAccessToken == old(cachedAccessToken) && response.error == Some(o.result.error))
        && upstream.loginRequests == old(upstream.loginRequests) + o.requests
      ensures upstream.usageRequests == old(upstream.usageRequests)
    {
      var login := PerformSltLogin(env, upstream);
      if login.Failure? {
        return LoginNowResponse(false, Some(login.error));
      }
      cachedAccessToken := Some(login.value);
      return LoginNowResponse(true, None);
    }
  }
}
