# TickTick Obsidian plugin: OAuth 2.0 PKCE client model

A Dafny model of the part of the TickTick plugin for Obsidian that turns a
paragraph of a note into a TickTick task. The core is an OAuth 2.0
authorization-code client with PKCE (RFC 6749, RFC 7636):

- `Pkce` and `Base64Url` hold the proof-key material. A 64-character
  verifier is drawn from a 62-character alphabet, and the challenge is the
  unpadded base64url encoding (section 5 of RFC 4648) of its SHA-256 digest.
  Base64 is modelled in full. SHA-256 is a parameter returning 32 bytes.
- `AuthUrl` builds the authorization URL and reads its query back.
- `Settings` is the stored settings record and its defaults.
- `Lifecycle` holds the token lifecycle as pure transitions on that record:
  start of the flow, code exchange, refresh, the freshness check, forced
  expiry, and the guard and result of task creation. Each network call is
  an input value, the endpoint's response. Time is an input `now` in
  milliseconds.
- `Plugin` holds the class `TickTickPlugin`. Its `settings` field is
  overwritten in place by methods that are proved against the `Lifecycle`
  transitions. `saveCount` counts the writes to storage.
- `Paragraph` and `TaskText` hold the editor side: the paragraph around the
  cursor (the editor is its sequence of lines), the `#ticktick … ^id`
  rewrite, and the task title and description.
- `JsString` holds the JavaScript string operations these use:
  `String.prototype.trim` (ECMAScript white space and line terminators),
  global replace of one character, and removal of a trailing run of `=`.

Randomness is a nondeterministic choice of an alphabet index
(`var k :| 0 <= k < |Possible|`).

The model follows the code as written, including these points where it
departs from what OAuth 2.0 and PKCE clients usually do:

- `exchangeAuthCodeForToken` does not compare the returned `state` with the
  stored one.
- The pending verifier and state are never cleared; only the next
  `startAuthFlow` replaces them.
- A 200 token response without `refresh_token` overwrites the stored
  refresh token with nothing. Section 6 of RFC 6749 lets the server omit a
  new refresh token, in which case the client keeps the old one; the code
  clears it anyway. `Lifecycle.RefreshWithoutRotationStrandsToken` shows
  the consequence: the next refresh fails before sending a request.
- Both the authorization URL and the token request use the hard-coded
  redirect URI `http://127.0.0.1:3000/callback`; the `redirectUri` setting
  is never read.

## Model

| member | source | states |
|---|---|---|
| Pkce.GenerateRandomString | main.ts:5-12 | the string has exactly the requested length and every character is drawn from the alphabet |
| Pkce.PossibleIsAlphanumeric | main.ts:6 | the alphabet has 62 characters and holds exactly the ASCII letters and digits |
| Pkce.RandomStringIsVerifier | main.ts:34 | any string of 43 to 128 alphabet characters is a valid PKCE verifier (unreserved characters, section 4.1 of RFC 7636) |
| Base64Url.Btoa | main.ts:26 | standard padded base64 of n bytes has 4·⌈n/3⌉ characters |
| Base64Url.Encode | main.ts:22-30 | unpadded base64url of n bytes has ⌈4n/3⌉ characters, all from the URL-safe alphabet |
| Base64Url.DecodeEncode | main.ts:22-30 | decoding the encoding gives back the bytes, so the encoding loses nothing |
| Base64Url.EncodeInjective | main.ts:22-30 | different byte strings get different encodings |
| Base64Url.EncodeIsUrlSafe | main.ts:26-29 | the encoding contains no `+`, `/` or `=` |
| Base64Url.BtoaUrlSafeIsEncode | main.ts:26-29 | `btoa` followed by the two substitutions and stripping the trailing `=` run equals unpadded base64url |
| Base64Url.Base64UrlEncode | main.ts:22-30 | the loop over the bytes and the string pipeline compute exactly the unpadded base64url encoding |
| Pkce.CodeChallenge | main.ts:35-36 | the S256 challenge of any verifier has 43 characters, is a valid PKCE string and has no `+`, `/` or `=` |
| Pkce.ChallengeDeterminesDigest | main.ts:35-36 | equal challenges come from equal digests |
| Pkce.GeneratePkceCodes | main.ts:33-38 | the verifier has 64 alphabet characters and is a valid PKCE verifier; the challenge is the S256 challenge of that verifier |
| Paragraph.GetParagraph | main.ts:41-58 | the bounds hold the cursor line, every other line between them is non-blank, and the paragraph cannot be widened; the bounds are the reference ones; the text is the trimmed newline join of the lines |
| Paragraph.WidenUp | main.ts:45-48 | the start is at or above the cursor, the line above it is blank or absent, and no line from it down to the line above the cursor is blank (the cursor line itself may be blank) |
| Paragraph.WidenDown | main.ts:49-52 | the end is at or below the cursor and inside the note, the line below it is blank or absent, and no line from the one below the cursor down to it is blank (the cursor line itself may be blank) |
| Paragraph.JoinRange | main.ts:53-56 | the accumulated text is the lines of the range, each followed by a newline |
| Paragraph.BoundsAreReference | main.ts:45-52 | any bounds forming the paragraph around a line are the reference ones |
| Paragraph.ParagraphBounds | main.ts:45-52 | the line-by-line reference bounds form the paragraph around the cursor |
| Paragraph.ParagraphIsUnique | main.ts:41-58 | there is only one paragraph around a line |
| Paragraph.JoinLinesWhitespace | main.ts:53-57 | the joined text is all white space exactly when every line is blank |
| Paragraph.ParagraphTextEmpty | main.ts:101-105 | the paragraph text is empty, so the command stops, exactly when the cursor line is blank and stands alone |
| TaskText.TaskTitle | main.ts:124 | the title is the text when it has at most 50 characters; otherwise it is the first 50 characters plus `...`; it never exceeds 53 characters |
| TaskText.TaggedParagraph | main.ts:111 | the rewritten paragraph: `#ticktick `, the text, ` ^` and the block id |
| TaskText.TaggedParagraphKeepsText | main.ts:111 | the rewrite starts with `#ticktick `, ends with ` ^` and the block id, and keeps the paragraph text between them |
| TaskText.TaskDescription | main.ts:122 | the task content: the text, a blank line and a `[Open in Obsidian](…)` link to the Advanced URI |
| TaskText.TaskDescriptionKeepsText | main.ts:122 | the description starts with the whole text, followed by `\n\n[Open in Obsidian](`, the URI and `)` |
| AuthUrl.AuthorizationUrl | main.ts:169 | the authorization URL: the endpoint, `?`, and the seven parameters of the template in the source's order |
| AuthUrl.AuthorizationUrlParams | main.ts:157-169 | if the client id, the challenge and the state hold no `&`, the query reads back as exactly `client_id`, the encoded loopback `redirect_uri`, `response_type=code`, the encoded `scope`, `code_challenge`, `code_challenge_method=S256` and `state`, in that order; the plugin meets the last two by construction, since a base64url challenge and an alphanumeric state contain no `&` |
| Lifecycle.StartAuth | main.ts:151-166 | without a client id nothing changes; otherwise the pending verifier and state are replaced and nothing else changes |
| Lifecycle.ExpiryAt | main.ts:211 | the stored expiry `now + expires_in·850`; for a positive lifetime it lies after `now` and before the server's own expiry `now + expires_in·1000` |
| Lifecycle.ExchangeRequest | main.ts:185-196 | no request without verifier, client id and secret; otherwise the `authorization_code` grant with the code, the hard-coded redirect URI, the client credentials and the pending verifier |
| Lifecycle.Exchange | main.ts:179-224 | the settings after the exchange: the three token fields of a 200 reply stored, anything else leaving them unchanged; its properties are `Lifecycle.ExchangeEffect` |
| Lifecycle.ExchangeEffect | main.ts:179-224 | a request goes out exactly when verifier, client id and secret are set; only a 200 reply changes settings, and it stores the access token, the refresh token and the expiry `now + expires_in·850`, keeping configuration and pending fields |
| Lifecycle.RefreshRequest | main.ts:230-241 | no request without a refresh token; otherwise the `refresh_token` grant with the stored token and the client credentials |
| Lifecycle.Refresh | main.ts:229-267 | the refresh's result: the `NoRefreshToken` error, a rejection, a transport error, or the settings with the reply's tokens stored; its properties are `Lifecycle.RefreshEffect` |
| Lifecycle.RefreshEffect | main.ts:229-267 | without a refresh token nothing is sent and the call fails; only a 200 reply succeeds, and it overwrites exactly access token, refresh token and expiry |
| Lifecycle.RefreshWithoutRotationStrandsToken | main.ts:230-255 | a 200 refresh reply without `refresh_token` clears the stored one, after which every refresh fails with no request sent |
| Lifecycle.IsExpired | main.ts:273 | `tokenExpiry && now > tokenExpiry` under JavaScript truthiness: an absent or zero expiry never counts as expired |
| Lifecycle.EnsureFresh | main.ts:272-282 | one refresh when expired, none otherwise; its properties are `Lifecycle.EnsureFreshEffect` |
| Lifecycle.EnsureFreshEffect | main.ts:272-282 | an absent or zero expiry, or one not yet passed, leaves settings alone; an expired token is refreshed exactly once, failure included |
| Lifecycle.FreshUntilExpiry | main.ts:273 | tokens stored at `now` count as expired exactly after `now + expires_in·850`, provided that expiry is not 0 (a zero expiry counts as absent and never expires) |
| Lifecycle.ForceExpiry | main.ts:85 | only the expiry changes |
| Lifecycle.ForceExpiryForcesRefresh | main.ts:85 | after forcing expiry at `now` ≠ 1, every check at or after `now` refreshes |
| Lifecycle.TaskRequestFor | main.ts:289-305 | the task request the plugin sends: none without an access token, otherwise the bearer request with title and content |
| Lifecycle.TaskCreatedNeedsRequest | main.ts:288-319 | a request goes out exactly when an access token is stored, carrying it as a bearer credential with the title and description; a task is reported created exactly when a request went out and the reply is 200 |
| Lifecycle.RunKeepsConfiguration | main.ts:151-282 | no sequence of plugin operations changes the client id, the client secret or the redirect URI |
| Lifecycle.PendingSlotIsLastStart | main.ts:164-165 | with a client id set, the pending verifier and state after any sequence of operations are those of the last start of the flow |
| Plugin.TickTickPlugin.constructor | settings.ts:15-20 | the plugin starts from the default settings |
| Plugin.TickTickPlugin.SaveSettings | main.ts:326-328 | a save leaves the settings as they are and is counted |
| Plugin.TickTickPlugin.StartAuthFlow | main.ts:151-173 | without a client id nothing changes, nothing is saved and no URL is built; otherwise settings become `StartAuth` of the old ones with a 64-character verifier and a 32-character state, saved once; the URL carries that verifier's challenge and that state, and, when the client id holds no `&`, its query reads back as the seven parameters |
| Plugin.TickTickPlugin.ExchangeAuthCodeForToken | main.ts:179-224 | request, reported outcome and new settings are those of `Lifecycle.Exchange`; settings are saved only when tokens were obtained |
| Plugin.TickTickPlugin.RefreshAccessToken | main.ts:229-267 | request and new settings are those of `Lifecycle.Refresh`; on failure its error is raised and settings are untouched |
| Plugin.TickTickPlugin.EnsureFreshToken | main.ts:272-282 | a refresh request is sent only when expired; new settings and raised error are those of `Lifecycle.EnsureFresh` |
| Plugin.TickTickPlugin.CreateTicktickTask | main.ts:288-319 | without an access token no request is sent; otherwise a bearer request with the title and description; success exactly on a 200 reply |
| Plugin.TickTickPlugin.ForceTokenExpiry | main.ts:84-88 | settings become `ForceExpiry` of the old ones and are saved |
| Plugin.TickTickPlugin.CreateTaskFromParagraph | main.ts:95-140 | stops without a file or with empty paragraph text; otherwise rewrites the paragraph with an 8-character block id, and either aborts with the freshness check's error or sends the task request built from the refreshed settings, the title and the description; settings are saved once exactly when a refresh succeeded, and not at all on an abort |

## Left out

- Network: `requestUrl` is replaced by a response value given to each operation. Request headers and the form and JSON encodings of bodies are not modelled; the requests are datatypes holding their fields.
- User interface and logging: notices, `console` output, the `log` helper and `window.open` have no effect in the model. `StartAuthFlow` returns the URL it would open.
- Persistence: `saveSettings` is a counter. `loadSettings`, which merges stored data over the defaults, is not modelled; the constructor starts from the defaults.
- `Pkce.CodeChallenge`: the SHA-256 digest, computed with `crypto.subtle.digest` over the UTF-8 encoding of the verifier, is a parameter of the model returning 32 bytes.
- Randomness: `Math.random` is a nondeterministic index choice; uniformity and uniqueness are not modelled.
- Lifecycle.ExpiryAt: `expires_in * 1000 * 0.85` is computed as `expires_in * 850` on integers; JavaScript floating-point rounding and fractional expiries are not modelled.
- Lifecycle.IsExpired: a NaN expiry, which JavaScript treats as falsy, is not modelled; an expiry is an integer or absent.
- Plugin.TickTickPlugin.EnsureFreshToken: the freshness check and the refresh it triggers read the clock at the same `now`.
- Strings are sequences of code points, while JavaScript counts UTF-16 code units; `length` and `substring` in the title truncation therefore differ from the source for text outside the Basic Multilingual Plane.
- `encodeURIComponent`: in the authorization URL it is applied only to two constants (the redirect URI and the scope), written as its results. Its other uses, on the vault name, the file path and the block id, are inside the Advanced URI, which is a parameter of the model.
- Plugin.TickTickPlugin.CreateTaskFromParagraph: the editor update (`replaceRange`) is returned as the replacement text rather than performed. The Advanced URI, built from the vault name and file path, is a parameter function of the block id. The cursor is assumed to be on a line of the note.
- Concurrency: `async` interleavings, such as two refreshes racing, are not modelled; every operation runs to completion in order.
- The settings tab (`TickTickSettingTab`) and the callback server (`server.js`) are user-interface and I/O glue outside this model.
