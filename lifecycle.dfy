/** The token lifecycle as pure transitions on the settings record: what
    each plugin operation sends, what it reports and what settings it
    leaves. A network exchange is an input value, the response the
    endpoint gives; time is `now` in milliseconds. */
module Lifecycle {
  import opened Wrappers
  import opened Settings
  import AuthUrl

  const TokenEndpoint: string := "https://ticktick.com/oauth/token"
  const TaskEndpoint: string := "https://api.ticktick.com/open/v1/task"

  /** The JSON body of a token response: `access_token`, the optional
      `refresh_token` and `expires_in` in seconds. */
  datatype TokenJson = TokenJson(accessToken: string, refreshToken: Option<string>, expiresIn: int)

  /** What `requestUrl` gives back for a token request: a reply with an
      HTTP status, or a thrown transport failure. */
  datatype TokenResponse = TokenReply(status: int, json: TokenJson) | TokenTransportError

  /** The form-encoded token requests (sections 4.1.3 and 6 of RFC 6749,
      with the `code_verifier` of section 4.5 of RFC 7636). */
  datatype TokenRequest =
    | AuthorizationCodeGrant(code: string, redirectUri: string, clientId: string,
                             clientSecret: string, codeVerifier: string)
    | RefreshTokenGrant(refreshToken: string, clientId: string, clientSecret: string)

  /** `Date.now() + expires_in * 1000 * 0.85` in whole milliseconds: for a
      positive lifetime, a moment after `now` and before the server's own
      expiry `now + expires_in * 1000`. */
  function ExpiryAt(now: int, expiresIn: int): (t: int)
    ensures expiresIn > 0 ==> now < t < now + expiresIn * 1000
  {
    now + expiresIn * 850
  }

  /** The three assignments a 200 token response makes. The refresh token
      is taken as the response has it, absent included. */
  function StoreTokens(s: TickTickSettings, now: int, json: TokenJson): TickTickSettings {
    s.(accessToken := json.accessToken, refreshToken := json.refreshToken,
       tokenExpiry := Some(ExpiryAt(now, json.expiresIn)))
  }

  // ---------------------------------------------------------------- startAuthFlow

  /** Settings after `startAuthFlow` drew `verifier` and `state`: nothing
      happens without a client id; otherwise the single pending slot is
      overwritten. */
  function StartAuth(s: TickTickSettings, verifier: string, state: string): (r: TickTickSettings)
    ensures s.clientId == "" ==> r == s
    ensures s.clientId != "" ==> r.tempCodeVerifier == Some(verifier) && r.tempState == Some(state)
    ensures r.(tempCodeVerifier := s.tempCodeVerifier, tempState := s.tempState) == s
  {
    if s.clientId == "" then s else s.(tempCodeVerifier := Some(verifier), tempState := Some(state))
  }

  // ---------------------------------------------------- exchangeAuthCodeForToken

  /** The guard: verifier, client id and client secret all set. */
  predicate CanExchange(s: TickTickSettings) {
    IsSet(s.tempCodeVerifier) && s.clientId != "" && s.clientSecret != ""
  }

  /** The request sent, if any. The redirect URI is the hard-coded one,
      whatever the settings hold. */
  function ExchangeRequest(s: TickTickSettings, code: string): Option<TokenRequest> {
    if CanExchange(s) then
      Some(AuthorizationCodeGrant(code, AuthUrl.RedirectUri, s.clientId, s.clientSecret, s.tempCodeVerifier.value))
    else None
  }

  /** What the exchange reports; none of these is thrown to the caller. */
  datatype ExchangeOutcome = MissingCredentials | TokenObtained | ExchangeRejected(status: int) | ExchangeError

  function ExchangeOutcomeOf(s: TickTickSettings, response: TokenResponse): ExchangeOutcome {
    if !CanExchange(s) then MissingCredentials
    else match response
      case TokenTransportError => ExchangeError
      case TokenReply(status, _) => if status == 200 then TokenObtained else ExchangeRejected(status)
  }

  /** Settings after the exchange. The returned state is not checked and
      the pending verifier and state are kept. */
  function Exchange(s: TickTickSettings, now: int, response: TokenResponse): TickTickSettings {
    if ExchangeOutcomeOf(s, response) == TokenObtained then StoreTokens(s, now, response.json) else s
  }

  /** The exchange either stores exactly the three token fields of a 200
      response or changes nothing; a request goes out exactly when the
      guard passes. */
  lemma ExchangeEffect(s: TickTickSettings, code: string, now: int, response: TokenResponse)
    ensures ExchangeRequest(s, code).Some? <==> CanExchange(s)
    ensures ExchangeOutcomeOf(s, response) != TokenObtained ==> Exchange(s, now, response) == s
    ensures ExchangeOutcomeOf(s, response) == TokenObtained <==>
      CanExchange(s) && response.TokenReply? && response.status == 200
    ensures ExchangeOutcomeOf(s, response) == TokenObtained ==>
      var r := Exchange(s, now, response);
      r.accessToken == response.json.accessToken && r.refreshToken == response.json.refreshToken
      && r.tokenExpiry == Some(ExpiryAt(now, response.json.expiresIn))
      && SameConfiguration(r, s) && r.tempCodeVerifier == s.tempCodeVerifier && r.tempState == s.tempState
  {
  }

  // ---------------------------------------------------------- refreshAccessToken

  /** The errors `refreshAccessToken` throws. */
  datatype RefreshError = NoRefreshToken | RefreshRejected(status: int) | RefreshTransportError

  function RefreshRequest(s: TickTickSettings): Option<TokenRequest> {
    if IsSet(s.refreshToken) then Some(RefreshTokenGrant(s.refreshToken.value, s.clientId, s.clientSecret))
    else None
  }

  function Refresh(s: TickTickSettings, now: int, response: TokenResponse): Result<TickTickSettings, RefreshError> {
    if !IsSet(s.refreshToken) then Failure(NoRefreshToken)
    else match response
      case TokenTransportError => Failure(RefreshTransportError)
      case TokenReply(status, json) =>
        if status == 200 then Success(StoreTokens(s, now, json)) else Failure(RefreshRejected(status))
  }

  /** Without a refresh token nothing is sent and the call fails; with one,
      a non-200 reply or a transport failure is an error, and a 200 reply
      overwrites access token, refresh token and expiry and nothing else. */
  lemma RefreshEffect(s: TickTickSettings, now: int, response: TokenResponse)
    ensures RefreshRequest(s).Some? <==> IsSet(s.refreshToken)
    ensures !IsSet(s.refreshToken) ==> Refresh(s, now, response) == Failure(NoRefreshToken)
    ensures Refresh(s, now, response).Success? <==>
      IsSet(s.refreshToken) && response.TokenReply? && response.status == 200
    ensures Refresh(s, now, response).Success? ==>
      var r := Refresh(s, now, response).value;
      r.accessToken == response.json.accessToken && r.refreshToken == response.json.refreshToken
      && r.tokenExpiry == Some(ExpiryAt(now, response.json.expiresIn))
      && r.(accessToken := s.accessToken, refreshToken := s.refreshToken, tokenExpiry := s.tokenExpiry) == s
  {
  }

  /** A 200 refresh reply without `refresh_token` clears the stored one, so
      the next refresh fails with NoRefreshToken before any request. */
  lemma RefreshWithoutRotationStrandsToken(s: TickTickSettings, now: int, json: TokenJson,
                                           later: int, next: TokenResponse)
    requires IsSet(s.refreshToken) && json.refreshToken == None
    ensures Refresh(s, now, TokenReply(200, json)).Success?
    ensures var r := Refresh(s, now, TokenReply(200, json)).value;
      r.refreshToken == None && RefreshRequest(r) == None
      && Refresh(r, later, next) == Failure(NoRefreshToken)
  {
  }

  // ------------------------------------------------------------ ensureFreshToken

  /** `this.settings.tokenExpiry && Date.now() > this.settings.tokenExpiry`:
      an absent or zero expiry counts as fresh. */
  predicate IsExpired(s: TickTickSettings, now: int) {
    s.tokenExpiry.Some? && s.tokenExpiry.value != 0 && now > s.tokenExpiry.value
  }

  /** One refresh when expired, none otherwise; its error propagates. */
  function EnsureFresh(s: TickTickSettings, now: int, response: TokenResponse): Result<TickTickSettings, RefreshError> {
    if IsExpired(s, now) then Refresh(s, now, response) else Success(s)
  }

  /** A token that is absent, zero or not yet past its expiry is left as it
      is; an expired one is refreshed exactly once, failures included. */
  lemma EnsureFreshEffect(s: TickTickSettings, now: int, response: TokenResponse)
    ensures !IsExpired(s, now) ==> EnsureFresh(s, now, response) == Success(s)
    ensures (s.tokenExpiry == None || s.tokenExpiry == Some(0)) ==> EnsureFresh(s, now, response) == Success(s)
    ensures s.tokenExpiry.Some? && now <= s.tokenExpiry.value ==> EnsureFresh(s, now, response) == Success(s)
    ensures IsExpired(s, now) ==> EnsureFresh(s, now, response) == Refresh(s, now, response)
  {
  }

  /** Tokens stored at `now` with a non-zero expiry count as fresh up to
      and including their expiry and as expired after it. An expiry of 0
      counts as absent, so such tokens never count as expired. */
  lemma FreshUntilExpiry(s: TickTickSettings, now: int, json: TokenJson, t: int)
    requires ExpiryAt(now, json.expiresIn) != 0
    ensures IsExpired(StoreTokens(s, now, json), t) <==> t > ExpiryAt(now, json.expiresIn)
  {
  }

  // --------------------------------------------------------- force-token-expiry

  /** The force-expiry command: expiry one millisecond before `now`. */
  function ForceExpiry(s: TickTickSettings, now: int): (r: TickTickSettings)
    ensures r.(tokenExpiry := s.tokenExpiry) == s
  {
    s.(tokenExpiry := Some(now - 1))
  }

  /** After forcing expiry, every later freshness check refreshes. At
      `now` = 1 the expiry would be 0, which counts as absent. */
  lemma ForceExpiryForcesRefresh(s: TickTickSettings, now: int, later: int, response: TokenResponse)
    requires now != 1 && later >= now
    ensures IsExpired(ForceExpiry(s, now), later)
    ensures EnsureFresh(ForceExpiry(s, now), later, response) == Refresh(ForceExpiry(s, now), later, response)
  {
  }

  // --------------------------------------------------------- createTicktickTask

  /** What `requestUrl` gives back for the task request. */
  datatype ApiResponse = ApiReply(status: int) | ApiTransportError

  /** The bearer-authenticated JSON request `{title, content}`. */
  datatype TaskRequest = TaskRequest(authorization: string, title: string, content: string)

  function TaskRequestFor(s: TickTickSettings, title: string, description: string): Option<TaskRequest> {
    if s.accessToken == "" then None else Some(TaskRequest("Bearer " + s.accessToken, title, description))
  }

  /** `{ success }`: only a 200 reply to a request that was sent. */
  function TaskCreated(s: TickTickSettings, response: ApiResponse): bool {
    s.accessToken != "" && response.ApiReply? && response.status == 200
  }

  /** A request goes out exactly when an access token is stored, it carries
      that token as a bearer credential, and no task is reported created
      unless a request went out and was answered with 200. */
  lemma TaskCreatedNeedsRequest(s: TickTickSettings, title: string, description: string, response: ApiResponse)
    ensures TaskRequestFor(s, title, description).None? <==> s.accessToken == ""
    ensures TaskRequestFor(s, title, description).Some? ==>
      TaskRequestFor(s, title, description).value.authorization == "Bearer " + s.accessToken
      && TaskRequestFor(s, title, description).value.title == title
      && TaskRequestFor(s, title, description).value.content == description
    ensures TaskCreated(s, response) ==> TaskRequestFor(s, title, description).Some? && response == ApiReply(200)
    ensures TaskRequestFor(s, title, description).Some? && response == ApiReply(200) ==> TaskCreated(s, response)
  {
  }

  // --------------------------------------------------------- sequences of calls

  /** One call of a plugin operation that may change the settings. */
  datatype Event =
    | StartAuthFlow(verifier: string, state: string)
    | ExchangeCode(now: int, response: TokenResponse)
    | RefreshTokens(now: int, response: TokenResponse)
    | EnsureFreshToken(now: int, response: TokenResponse)
    | ForceTokenExpiry(now: int)

  /** Settings after one call; a thrown refresh error leaves them alone. */
  function Step(s: TickTickSettings, e: Event): TickTickSettings {
    match e
    case StartAuthFlow(v, st) => StartAuth(s, v, st)
    case ExchangeCode(now, response) => Exchange(s, now, response)
    case RefreshTokens(now, response) =>
      (match Refresh(s, now, response) case Success(r) => r case Failure(_) => s)
    case EnsureFreshToken(now, response) =>
      (match EnsureFresh(s, now, response) case Success(r) => r case Failure(_) => s)
    case ForceTokenExpiry(now) => ForceExpiry(s, now)
  }

  function Run(s: TickTickSettings, events: seq<Event>): TickTickSettings
    decreases |events|
  {
    if events == [] then s else Run(Step(s, events[0]), events[1..])
  }

  /** The verifier and state of the last StartAuthFlow call, if any. */
  function LastPending(events: seq<Event>, initial: (Option<string>, Option<string>)): (Option<string>, Option<string>)
    decreases |events|
  {
    if events == [] then initial
    else
      var e := events[|events| - 1];
      if e.StartAuthFlow? then (Some(e.verifier), Some(e.state))
      else LastPending(events[..|events| - 1], initial)
  }

  lemma StepKeepsConfiguration(s: TickTickSettings, e: Event)
    ensures SameConfiguration(Step(s, e), s)
  {
  }

  /** No operation of the plugin writes the client id, the client secret
      or the redirect URI. */
  lemma {:induction false} RunKeepsConfiguration(s: TickTickSettings, events: seq<Event>)
    ensures SameConfiguration(Run(s, events), s)
    decreases |events|
  {
    if events != [] {
      StepKeepsConfiguration(s, events[0]);
      RunKeepsConfiguration(Step(s, events[0]), events[1..]);
    }
  }

  lemma {:induction false} RunAppend(s: TickTickSettings, events: seq<Event>, e: Event)
    ensures Run(s, events + [e]) == Step(Run(s, events), e)
    decreases |events|
  {
    if events != [] {
      assert (events + [e])[1..] == events[1..] + [e];
      RunAppend(Step(s, events[0]), events[1..], e);
    }
  }

  /** One pending slot: with a client id set, the stored verifier and
      state are those of the last StartAuthFlow call; exchanges, refreshes
      and expiry changes never clear or replace them. */
  lemma {:induction false} PendingSlotIsLastStart(s: TickTickSettings, events: seq<Event>)
    requires s.clientId != ""
    ensures (Run(s, events).tempCodeVerifier, Run(s, events).tempState)
         == LastPending(events, (s.tempCodeVerifier, s.tempState))
    decreases |events|
  {
    if events != [] {
      var init, e := events[..|events| - 1], events[|events| - 1];
      assert events == init + [e];
      RunAppend(s, init, e);
      RunKeepsConfiguration(s, init);
      PendingSlotIsLastStart(s, init);
    }
  }
}
