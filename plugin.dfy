/** The plugin object: its settings record and the operations that read
    and overwrite it. Every method is proved against the pure transition
    of the same name in `Lifecycle`; `saveCount` counts the calls to
    `saveSettings`. */
module Plugin {
  import opened Wrappers
  import opened Settings
  import opened Pkce
  import opened Paragraph
  import opened TaskText
  import AuthUrl
  import Lifecycle

  /** How the create-task command ends. */
  datatype CommandOutcome =
    | NoFile
    | NoParagraph
    | Aborted(text: string, blockId: string, error: Lifecycle.RefreshError)
    | Finished(text: string, blockId: string, request: Option<Lifecycle.TaskRequest>, created: bool)

  lemma UnreservedHasNoAmpersand(s: string)
    requires IsPkceString(s)
    ensures '&' !in s
  {
  }

  lemma AlphabetHasNoAmpersand(s: string)
    requires forall i :: 0 <= i < |s| ==> s[i] in Possible
    ensures '&' !in s
  {
    PossibleIsAlphanumeric();
  }

  class TickTickPlugin {
    var settings: TickTickSettings
    var saveCount: nat
    /** SHA-256 of the UTF-8 encoding, as `crypto.subtle.digest` gives it. */
    const sha256: Sha256

    constructor (sha256: Sha256)
      ensures settings == DefaultSettings && saveCount == 0 && this.sha256 == sha256
    {
      settings := DefaultSettings;
      saveCount := 0;
      this.sha256 := sha256;
    }

    method SaveSettings()
      modifies this
      ensures settings == old(settings) && saveCount == old(saveCount) + 1
    {
      saveCount := saveCount + 1;
    }

    /** Draws a verifier and a state, stores both, and returns the URL the
        browser is sent to; without a client id nothing happens. */
    method StartAuthFlow() returns (authUrl: Option<string>)
      modifies this
      ensures old(settings).clientId == "" ==>
        settings == old(settings) && saveCount == old(saveCount) && authUrl == None
      ensures old(settings).clientId != "" ==>
        settings.tempCodeVerifier.Some? && settings.tempState.Some?
        && saveCount == old(saveCount) + 1
        && var verifier, state := settings.tempCodeVerifier.value, settings.tempState.value;
        var challenge := CodeChallenge(sha256, verifier);
        && settings == Lifecycle.StartAuth(old(settings), verifier, state)
        && |verifier| == VerifierLength && IsPkceString(verifier)
        && (forall i :: 0 <= i < |verifier| ==> verifier[i] in Possible)
        && |state| == StateLength && (forall i :: 0 <= i < |state| ==> state[i] in Possible)
        && authUrl == Some(AuthUrl.AuthorizationUrl(settings.clientId, challenge, state))
        && ('&' !in settings.clientId ==>
              AuthUrl.QueryParams(authUrl.value) == AuthUrl.AuthorizationParams(settings.clientId, challenge, state))
    {
      var clientId := settings.clientId;
      if clientId == "" {
        return None;
      }
      var codeVerifier, codeChallenge := GeneratePkceCodes(sha256);
      var state := GenerateRandomString(StateLength);
      settings := settings.(tempCodeVerifier := Some(codeVerifier));
      settings := settings.(tempState := Some(state));
      SaveSettings();
      authUrl := Some(AuthUrl.AuthorizationUrl(clientId, codeChallenge, state));
      if '&' !in clientId {
        UnreservedHasNoAmpersand(codeChallenge);
        AlphabetHasNoAmpersand(state);
        AuthUrl.AuthorizationUrlParams(clientId, codeChallenge, state);
      }
    }

    /** Trades the authorization code for tokens with the stored verifier. */
    method ExchangeAuthCodeForToken(code: string, now: int, response: Lifecycle.TokenResponse)
      returns (outcome: Lifecycle.ExchangeOutcome, request: Option<Lifecycle.TokenRequest>)
      modifies this
      ensures request == Lifecycle.ExchangeRequest(old(settings), code)
      ensures outcome == Lifecycle.ExchangeOutcomeOf(old(settings), response)
      ensures settings == Lifecycle.Exchange(old(settings), now, response)
      ensures saveCount == old(saveCount) + if outcome == Lifecycle.TokenObtained then 1 else 0
    {
      var clientId := settings.clientId;
      var clientSecret := settings.clientSecret;
      var codeVerifier := settings.tempCodeVerifier;
      if !IsSet(codeVerifier) || clientId == "" || clientSecret == "" {
        return Lifecycle.MissingCredentials, None;
      }
      request := Some(Lifecycle.AuthorizationCodeGrant(code, AuthUrl.RedirectUri, clientId, clientSecret, codeVerifier.value));
      match response
      case TokenTransportError =>
        outcome := Lifecycle.ExchangeError;
      case TokenReply(status, data) =>
        if status == 200 {
          settings := settings.(accessToken := data.accessToken);
          settings := settings.(refreshToken := data.refreshToken);
          settings := settings.(tokenExpiry := Some(now + data.expiresIn * 850));
          SaveSettings();
          outcome := Lifecycle.TokenObtained;
        } else {
          outcome := Lifecycle.ExchangeRejected(status);
        }
    }

    /** Trades the refresh token for new tokens; `error` is what the
        source throws. */
    method RefreshAccessToken(now: int, response: Lifecycle.TokenResponse)
      returns (error: Option<Lifecycle.RefreshError>, request: Option<Lifecycle.TokenRequest>)
      modifies this
      ensures request == Lifecycle.RefreshRequest(old(settings))
      ensures match Lifecycle.Refresh(old(settings), now, response)
        case Success(r) => error == None && settings == r && saveCount == old(saveCount) + 1
        case Failure(e) => error == Some(e) && settings == old(settings) && saveCount == old(saveCount)
    {
      if !IsSet(settings.refreshToken) {
        return Some(Lifecycle.NoRefreshToken), None;
      }
      request := Some(Lifecycle.RefreshTokenGrant(settings.refreshToken.value, settings.clientId, settings.clientSecret));
      match response
      case TokenTransportError =>
        error := Some(Lifecycle.RefreshTransportError);
      case TokenReply(status, data) =>
        if status == 200 {
          settings := settings.(accessToken := data.accessToken);
          settings := settings.(refreshToken := data.refreshToken);
          settings := settings.(tokenExpiry := Some(now + data.expiresIn * 850));
          SaveSettings();
          error := None;
        } else {
          error := Some(Lifecycle.RefreshRejected(status));
        }
    }

    /** Refreshes once when the stored expiry has passed. */
    method EnsureFreshToken(now: int, response: Lifecycle.TokenResponse)
      returns (error: Option<Lifecycle.RefreshError>, request: Option<Lifecycle.TokenRequest>)
      modifies this
      ensures request == if Lifecycle.IsExpired(old(settings), now) then Lifecycle.RefreshRequest(old(settings)) else None
      ensures match Lifecycle.EnsureFresh(old(settings), now, response)
        case Success(r) => error == None && settings == r
          && saveCount == old(saveCount) + if Lifecycle.IsExpired(old(settings), now) then 1 else 0
        case Failure(e) => error == Some(e) && settings == old(settings) && saveCount == old(saveCount)
    {
      error, request := None, None;
      if settings.tokenExpiry.Some? && settings.tokenExpiry.value != 0 && now > settings.tokenExpiry.value {
        error, request := RefreshAccessToken(now, response);
      }
    }

    /** Posts the task with the stored access token. */
    method CreateTicktickTask(title: string, description: string, response: Lifecycle.ApiResponse)
      returns (success: bool, request: Option<Lifecycle.TaskRequest>)
      ensures request == Lifecycle.TaskRequestFor(settings, title, description)
      ensures success == Lifecycle.TaskCreated(settings, response)
    {
      var accessToken := settings.accessToken;
      if accessToken == "" {
        return false, None;
      }
      request := Some(Lifecycle.TaskRequest("Bearer " + accessToken, title, description));
      match response
      case ApiTransportError =>
        success := false;
      case ApiReply(status) =>
        success := status == 200;
    }

    /** The force-token-expiry command. */
    method ForceTokenExpiry(now: int)
      modifies this
      ensures settings == Lifecycle.ForceExpiry(old(settings), now)
      ensures saveCount == old(saveCount) + 1
    {
      settings := settings.(tokenExpiry := Some(now - 1));
      SaveSettings();
    }

    /** The create-task command on a note given as its lines. The rewrite
        of the paragraph is returned as `replacement`; `advancedUri` builds
        the note link from the block id. */
    method CreateTaskFromParagraph(lines: seq<string>, cursorLine: nat, hasFile: bool,
                                   advancedUri: string -> string, now: int,
                                   tokenResponse: Lifecycle.TokenResponse, apiResponse: Lifecycle.ApiResponse)
      returns (outcome: CommandOutcome, replacement: Option<string>)
      requires cursorLine < |lines|
      modifies this
      ensures !hasFile ==> outcome == NoFile
      ensures hasFile && ParagraphText(lines, cursorLine) == "" ==> outcome == NoParagraph
      ensures outcome.NoFile? || outcome.NoParagraph? ==>
        settings == old(settings) && saveCount == old(saveCount) && replacement == None
      ensures hasFile && ParagraphText(lines, cursorLine) != "" ==>
        (outcome.Aborted? || outcome.Finished?)
        && outcome.text == ParagraphText(lines, cursorLine)
        && |outcome.blockId| == 8 && (forall i :: 0 <= i < |outcome.blockId| ==> outcome.blockId[i] in Possible)
        && replacement == Some(TaggedParagraph(outcome.text, outcome.blockId))
        && match Lifecycle.EnsureFresh(old(settings), now, tokenResponse)
          case Failure(e) => outcome.Aborted? && outcome.error == e && settings == old(settings)
            && saveCount == old(saveCount)
          case Success(r) => (outcome.Finished? && settings == r
            && saveCount == old(saveCount) + (if Lifecycle.IsExpired(old(settings), now) then 1 else 0)
            && outcome.request == Lifecycle.TaskRequestFor(r, TaskTitle(outcome.text),
                                    TaskDescription(outcome.text, advancedUri(outcome.blockId)))
            && outcome.created == Lifecycle.TaskCreated(r, apiResponse))
    {
      if !hasFile {
        return NoFile, None;
      }
      var paragraphText, start, end := GetParagraph(lines, cursorLine);
      if paragraphText == "" {
        return NoParagraph, None;
      }
      var blockId := GenerateRandomString(8);
      replacement := Some(TaggedParagraph(paragraphText, blockId));
      var taskDescription := TaskDescription(paragraphText, advancedUri(blockId));
      var taskTitle := TaskTitle(paragraphText);
      var error, _ := EnsureFreshToken(now, tokenResponse);
      if error.Some? {
        return Aborted(paragraphText, blockId, error.value), replacement;
      }
      var success, request := CreateTicktickTask(taskTitle, taskDescription, apiResponse);
      outcome := Finished(paragraphText, blockId, request, success);
    }
  }
}
