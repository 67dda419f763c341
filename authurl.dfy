/** The authorization request of section 4.1.1 of RFC 6749 with the PKCE
    parameters of section 4.3 of RFC 7636, and a reader for its query. */
module AuthUrl {

  const AuthorizeEndpoint: string := "https://ticktick.com/oauth/authorize"

  /** The redirect URI, hard-coded for the authorization and token requests. */
  const RedirectUri: string := "http://127.0.0.1:3000/callback"

  /** `encodeURIComponent(RedirectUri)` */
  const EncodedRedirectUri: string := "http%3A%2F%2F127.0.0.1%3A3000%2Fcallback"

  /** `encodeURIComponent('tasks:read tasks:write')` */
  const EncodedScope: string := "tasks%3Aread%20tasks%3Awrite"

  /** The URL `startAuthFlow` opens. The client id is inserted as it is,
      without percent-encoding. */
  function AuthorizationUrl(clientId: string, codeChallenge: string, state: string): string {
    AuthorizeEndpoint + "?" + AuthorizationQuery(clientId, codeChallenge, state)
  }

  function AuthorizationQuery(clientId: string, codeChallenge: string, state: string): string {
    "client_id=" + clientId + "&redirect_uri=" + EncodedRedirectUri
    + "&response_type=code&scope=" + EncodedScope + "&code_challenge=" + codeChallenge
    + "&code_challenge_method=S256&state=" + state
  }

  /** Index of the first `c` in `s`. */
  function IndexOf(s: string, c: char): (i: nat)
    requires c in s
    ensures i < |s| && s[i] == c && c !in s[..i]
    decreases |s|
  {
    if s[0] == c then 0 else (assert s == [s[0]] + s[1..]; 1 + IndexOf(s[1..], c))
  }

  /** `s.split(sep)` */
  function Split(s: string, sep: char): seq<string>
    decreases |s|
  {
    if sep !in s then [s] else var i := IndexOf(s, sep); [s[..i]] + Split(s[i + 1..], sep)
  }

  /** A query parameter split at its first `=`. */
  function Param(piece: string): (string, string) {
    if '=' in piece then var i := IndexOf(piece, '='); (piece[..i], piece[i + 1..]) else (piece, "")
  }

  function Params(pieces: seq<string>): seq<(string, string)> {
    seq(|pieces|, i requires 0 <= i < |pieces| => Param(pieces[i]))
  }

  /** Query parameters `name=value` written one after the other,
      separated by `&`. */
  function JoinParams(pairs: seq<(string, string)>): string
    requires |pairs| > 0
    decreases |pairs|
  {
    var piece := pairs[0].0 + "=" + pairs[0].1;
    if |pairs| == 1 then piece else piece + "&" + JoinParams(pairs[1..])
  }

  predicate IsPlainParam(pair: (string, string)) {
    '&' !in pair.0 && '=' !in pair.0 && '&' !in pair.1
  }

  /** The name/value pairs of the query of a URL (what follows its first `?`). */
  function QueryParams(url: string): seq<(string, string)> {
    if '?' in url then Params(Split(url[IndexOf(url, '?') + 1..], '&')) else []
  }

  lemma {:induction false} IndexOfFirst(a: string, c: char, b: string)
    requires c !in a
    ensures IndexOf(a + [c] + b, c) == |a|
    decreases |a|
  {
    if a != [] {
      assert (a + [c] + b)[1..] == a[1..] + [c] + b;
      IndexOfFirst(a[1..], c, b);
    }
  }

  lemma SplitCons(a: string, sep: char, b: string)
    requires sep !in a
    ensures Split(a + [sep] + b, sep) == [a] + Split(b, sep)
  {
    var s := a + [sep] + b;
    assert s[|a|] == sep;
    IndexOfFirst(a, sep, b);
    assert s[..|a|] == a && s[|a| + 1..] == b;
  }

  lemma ParamOf(key: string, value: string)
    requires '=' !in key
    ensures Param(key + "=" + value) == (key, value)
  {
    var p := key + "=" + value;
    assert p[|key|] == '=';
    IndexOfFirst(key, '=', value);
    assert p[..|key|] == key && p[|key| + 1..] == value;
  }

  /** A parameter written as `name=value`. */
  function Piece(pair: (string, string)): string {
    pair.0 + "=" + pair.1
  }

  function Pieces(pairs: seq<(string, string)>): seq<string> {
    seq(|pairs|, i requires 0 <= i < |pairs| => Piece(pairs[i]))
  }

  lemma {:induction false} SplitJoinParams(pairs: seq<(string, string)>)
    requires |pairs| > 0
    requires forall i :: 0 <= i < |pairs| ==> IsPlainParam(pairs[i])
    ensures Split(JoinParams(pairs), '&') == Pieces(pairs)
    decreases |pairs|
  {
    var piece := Piece(pairs[0]);
    PieceIsPlain(pairs[0]);
    if |pairs| > 1 {
      SplitJoinParams(pairs[1..]);
      JoinParamsTail(pairs);
      SplitCons(piece, '&', JoinParams(pairs[1..]));
      PiecesTail(pairs);
    }
  }

  lemma PieceIsPlain(pair: (string, string))
    requires IsPlainParam(pair)
    ensures '&' !in Piece(pair)
  {
  }

  lemma JoinParamsTail(pairs: seq<(string, string)>)
    requires |pairs| > 1
    ensures JoinParams(pairs) == Piece(pairs[0]) + ['&'] + JoinParams(pairs[1..])
  {
  }

  lemma PiecesTail(pairs: seq<(string, string)>)
    requires |pairs| > 0
    ensures Pieces(pairs) == [Piece(pairs[0])] + Pieces(pairs[1..])
  {
  }

  lemma ParamsOfPieces(pairs: seq<(string, string)>)
    requires forall i :: 0 <= i < |pairs| ==> IsPlainParam(pairs[i])
    ensures Params(Pieces(pairs)) == pairs
  {
    forall i | 0 <= i < |pairs|
      ensures Params(Pieces(pairs))[i] == pairs[i]
    {
      ParamOf(pairs[i].0, pairs[i].1);
    }
  }

  /** Reading back a joined query gives its pairs, provided no name holds
      `&` or `=` and no value holds `&`. */
  lemma JoinParamsReadBack(pairs: seq<(string, string)>)
    requires |pairs| > 0
    requires forall i :: 0 <= i < |pairs| ==> IsPlainParam(pairs[i])
    ensures Params(Split(JoinParams(pairs), '&')) == pairs
  {
    SplitJoinParams(pairs);
    ParamsOfPieces(pairs);
  }

  /** The request's parameters in order. */
  function AuthorizationParams(clientId: string, codeChallenge: string, state: string): seq<(string, string)> {
    [("client_id", clientId), ("redirect_uri", EncodedRedirectUri), ("response_type", "code"),
     ("scope", EncodedScope), ("code_challenge", codeChallenge), ("code_challenge_method", "S256"),
     ("state", state)]
  }

  lemma JoinSeven(k1: string, v1: string, k2: string, v2: string, k3: string, v3: string,
                   k4: string, v4: string, k5: string, v5: string, k6: string, v6: string,
                   k7: string, v7: string)
    ensures JoinParams([(k1, v1), (k2, v2), (k3, v3), (k4, v4), (k5, v5), (k6, v6), (k7, v7)])
         == k1 + "=" + v1 + "&" + (k2 + "=" + v2 + "&" + (k3 + "=" + v3 + "&" + (k4 + "=" + v4 + "&"
          + (k5 + "=" + v5 + "&" + (k6 + "=" + v6 + "&" + (k7 + "=" + v7))))))
  {
    var l7 := [(k7, v7)];
    var l6 := [(k6, v6)] + l7;
    var l5 := [(k5, v5)] + l6;
    var l4 := [(k4, v4)] + l5;
    var l3 := [(k3, v3)] + l4;
    var l2 := [(k2, v2)] + l3;
    var l1 := [(k1, v1)] + l2;
    JoinCons((k6, v6), l7);
    JoinCons((k5, v5), l6);
    JoinCons((k4, v4), l5);
    JoinCons((k3, v3), l4);
    JoinCons((k2, v2), l3);
    JoinCons((k1, v1), l2);
    assert [(k1, v1), (k2, v2), (k3, v3), (k4, v4), (k5, v5), (k6, v6), (k7, v7)] == l1;
  }

  lemma JoinCons(p: (string, string), rest: seq<(string, string)>)
    requires |rest| > 0
    ensures JoinParams([p] + rest) == p.0 + "=" + p.1 + "&" + JoinParams(rest)
  {
    assert ([p] + rest)[1..] == rest;
  }

  /** Regrouping the template's literal runs into `&`, names and `=`. */
  lemma Regroup(k1: string, v1: string, k2: string, v2: string, k3: string, v3: string,
                k4: string, v4: string, k5: string, v5: string, k6: string, v6: string,
                k7: string, v7: string, t1: string, t2: string, t3: string, t4: string, t5: string)
    requires t1 == k1 + "=" && t2 == "&" + k2 + "=" && t3 == "&" + k3 + "=" + v3 + "&" + k4 + "="
    requires t4 == "&" + k5 + "=" && t5 == "&" + k6 + "=" + v6 + "&" + k7 + "="
    ensures t1 + v1 + t2 + v2 + t3 + v4 + t4 + v5 + t5 + v7
         == k1 + "=" + v1 + "&" + (k2 + "=" + v2 + "&" + (k3 + "=" + v3 + "&" + (k4 + "=" + v4 + "&"
          + (k5 + "=" + v5 + "&" + (k6 + "=" + v6 + "&" + (k7 + "=" + v7))))))
  {
  }

  // The template's literal runs, split into `&`, names and `=`; one lemma
  // each keeps every string comparison in a context of its own.
  lemma TemplateLiteral1() ensures "client_id=" == "client_id" + "=" {}
  lemma TemplateLiteral2() ensures "&redirect_uri=" == "&" + "redirect_uri" + "=" {}
  lemma TemplateLiteral3() ensures "&response_type=code&scope=" == "&" + "response_type" + "=" + "code" + "&" + "scope" + "=" {}
  lemma TemplateLiteral4() ensures "&code_challenge=" == "&" + "code_challenge" + "=" {}
  lemma TemplateLiteral5()
    ensures "&code_challenge_method=S256&state=" == "&" + "code_challenge_method" + "=" + "S256" + "&" + "state" + "="
  {}

  /** The template is the join of the parameters. */
  lemma AuthorizationQueryIsJoin(clientId: string, codeChallenge: string, state: string)
    ensures AuthorizationQuery(clientId, codeChallenge, state)
         == JoinParams(AuthorizationParams(clientId, codeChallenge, state))
  {
    TemplateLiteral1(); TemplateLiteral2(); TemplateLiteral3(); TemplateLiteral4(); TemplateLiteral5();
    Regroup("client_id", clientId, "redirect_uri", EncodedRedirectUri, "response_type", "code",
      "scope", EncodedScope, "code_challenge", codeChallenge, "code_challenge_method", "S256",
      "state", state, "client_id=", "&redirect_uri=", "&response_type=code&scope=",
      "&code_challenge=", "&code_challenge_method=S256&state=");
    JoinSeven("client_id", clientId, "redirect_uri", EncodedRedirectUri, "response_type", "code",
      "scope", EncodedScope, "code_challenge", codeChallenge, "code_challenge_method", "S256",
      "state", state);
  }

  /** The query of the URL is the template after the endpoint's `?`. */
  lemma AuthorizationUrlQuery(clientId: string, codeChallenge: string, state: string)
    ensures QueryParams(AuthorizationUrl(clientId, codeChallenge, state))
         == Params(Split(AuthorizationQuery(clientId, codeChallenge, state), '&'))
  {
    var q := AuthorizationQuery(clientId, codeChallenge, state);
    IndexOfFirst(AuthorizeEndpoint, '?', q);
    assert AuthorizationUrl(clientId, codeChallenge, state)[|AuthorizeEndpoint| + 1..] == q;
  }

  lemma RedirectParamIsPlain() ensures IsPlainParam(("redirect_uri", EncodedRedirectUri)) {}
  lemma ScopeParamIsPlain() ensures IsPlainParam(("scope", EncodedScope)) {}
  lemma ResponseTypeParamIsPlain() ensures IsPlainParam(("response_type", "code")) {}
  lemma MethodParamIsPlain() ensures IsPlainParam(("code_challenge_method", "S256")) {}
  lemma VariableNamesArePlain()
    ensures '&' !in "client_id" && '=' !in "client_id" && '&' !in "code_challenge" && '=' !in "code_challenge"
    ensures '&' !in "state" && '=' !in "state"
  {
  }

  lemma SevenArePlain(p1: (string, string), p2: (string, string), p3: (string, string), p4: (string, string),
                      p5: (string, string), p6: (string, string), p7: (string, string))
    requires IsPlainParam(p1) && IsPlainParam(p2) && IsPlainParam(p3) && IsPlainParam(p4)
    requires IsPlainParam(p5) && IsPlainParam(p6) && IsPlainParam(p7)
    ensures forall i :: 0 <= i < 7 ==> IsPlainParam([p1, p2, p3, p4, p5, p6, p7][i])
  {
  }

  lemma AuthorizationParamsArePlain(clientId: string, codeChallenge: string, state: string)
    requires '&' !in clientId && '&' !in codeChallenge && '&' !in state
    ensures forall i :: 0 <= i < 7 ==> IsPlainParam(AuthorizationParams(clientId, codeChallenge, state)[i])
  {
    RedirectParamIsPlain();
    ScopeParamIsPlain();
    ResponseTypeParamIsPlain();
    MethodParamIsPlain();
    VariableNamesArePlain();
    SevenArePlain(("client_id", clientId), ("redirect_uri", EncodedRedirectUri), ("response_type", "code"),
      ("scope", EncodedScope), ("code_challenge", codeChallenge), ("code_challenge_method", "S256"),
      ("state", state));
  }

  /** As long as the client id, the challenge and the state hold no `&`,
      the URL's query reads back as exactly the seven parameters of the
      request, in order. */
  lemma AuthorizationUrlParams(clientId: string, codeChallenge: string, state: string)
    requires '&' !in clientId && '&' !in codeChallenge && '&' !in state
    ensures QueryParams(AuthorizationUrl(clientId, codeChallenge, state))
         == AuthorizationParams(clientId, codeChallenge, state)
  {
    AuthorizationUrlQuery(clientId, codeChallenge, state);
    AuthorizationQueryIsJoin(clientId, codeChallenge, state);
    AuthorizationParamsArePlain(clientId, codeChallenge, state);
    JoinParamsReadBack(AuthorizationParams(clientId, codeChallenge, state));
  }
}
