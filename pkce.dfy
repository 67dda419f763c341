/** Proof-key material: random alphanumeric strings, the code verifier and
    its S256 code challenge (sections 4.1 and 4.2 of RFC 7636). */
module Pkce {
  import opened Base64Url

  /** The alphabet `generateRandomString` draws from. */
  const Possible: string := "ABCDEFGHIJKLMNOPQRSTUVWXYZ" + "abcdefghijklmnopqrstuvwxyz" + "0123456789"

  /** Lengths the plugin asks for: code verifier and anti-CSRF state. */
  const VerifierLength: nat := 64
  const StateLength: nat := 32

  predicate IsAlphanumeric(c: char) {
    'A' <= c <= 'Z' || 'a' <= c <= 'z' || '0' <= c <= '9'
  }

  /** `n` consecutive code points from `lo`. */
  function Run(lo: char, n: nat): (r: string)
    requires lo as int + n < 0xD800
    ensures |r| == n && forall i :: 0 <= i < n ==> r[i] as int == lo as int + i
  {
    seq(n, i requires 0 <= i < n => (lo as int + i) as char)
  }

  /** The alphabet literal is the three ranges A-Z, a-z, 0-9 in order. */
  lemma PossibleIsRuns()
    ensures Possible == Run('A', 26) + Run('a', 26) + Run('0', 10)
  {
    UpperRun();
    LowerRun();
    DigitRun();
  }

  lemma UpperRun()
    ensures Run('A', 26) == "ABCDEFGHIJKLMNOPQRSTUVWXYZ"
  {
  }

  lemma LowerRun()
    ensures Run('a', 26) == "abcdefghijklmnopqrstuvwxyz"
  {
  }

  lemma DigitRun()
    ensures Run('0', 10) == "0123456789"
  {
  }

  lemma RunsAreAlphanumeric(p: string)
    requires p == Run('A', 26) + Run('a', 26) + Run('0', 10)
    ensures |p| == 62
    ensures forall c :: c in p <==> IsAlphanumeric(c)
  {
    forall c | c in p
      ensures IsAlphanumeric(c)
    {
      var k :| 0 <= k < 62 && p[k] == c;
      assert p[k] as int == if k < 26 then 'A' as int + k
                            else if k < 52 then 'a' as int + k - 26
                            else '0' as int + k - 52;
    }
    forall c | IsAlphanumeric(c)
      ensures c in p
    {
      if 'A' <= c <= 'Z' {
        assert p[c as int - 'A' as int] == c;
      } else if 'a' <= c <= 'z' {
        assert p[26 + c as int - 'a' as int] == c;
      } else {
        assert p[52 + c as int - '0' as int] == c;
      }
    }
  }

  /** The alphabet holds exactly the 62 ASCII letters and digits. */
  lemma PossibleIsAlphanumeric()
    ensures |Possible| == 62
    ensures forall c :: c in Possible <==> IsAlphanumeric(c)
  {
    PossibleIsRuns();
    RunsAreAlphanumeric(Possible);
  }

  /** `generateRandomString(length)`: each character is `possible` at an
      index in [0, 62) chosen by `Math.random`, here left open. */
  method GenerateRandomString(length: nat) returns (text: string)
    ensures |text| == length
    ensures forall i :: 0 <= i < |text| ==> text[i] in Possible
  {
    text := "";
    for i := 0 to length
      invariant |text| == i
      invariant forall j :: 0 <= j < |text| ==> text[j] in Possible
    {
      var k :| 0 <= k < |Possible|;
      text := text + [Possible[k]];
    }
  }

  /** The unreserved characters of section 2.3 of RFC 3986, which
      section 4.1 of RFC 7636 allows in a code verifier. */
  predicate IsUnreserved(c: char) {
    IsAlphanumeric(c) || c == '-' || c == '.' || c == '_' || c == '~'
  }

  /** `code-verifier = 43*128unreserved` (section 4.1 of RFC 7636); the
      code challenge has the same shape (section 4.2). */
  predicate IsPkceString(s: string) {
    43 <= |s| <= 128 && forall i :: 0 <= i < |s| ==> IsUnreserved(s[i])
  }

  /** Any string drawn from the alphabet with a length in [43, 128] is a
      valid code verifier; 64 is. */
  lemma RandomStringIsVerifier(s: string)
    requires 43 <= |s| <= 128
    requires forall i :: 0 <= i < |s| ==> s[i] in Possible
    ensures IsPkceString(s)
  {
    PossibleIsAlphanumeric();
  }

  /** A SHA-256 digest is 32 bytes. */
  type Digest = d: seq<byte> | |d| == 32 witness seq(32, _ => 0)

  /** `TextEncoder` followed by `crypto.subtle.digest('SHA-256', ...)`;
      the model never looks inside it. */
  type Sha256 = string -> Digest

  /** `code_challenge = BASE64URL-ENCODE(SHA256(ASCII(code_verifier)))`,
      the S256 method of section 4.2 of RFC 7636. */
  function CodeChallenge(sha256: Sha256, verifier: string): (challenge: string)
    ensures |challenge| == 43 && IsPkceString(challenge)
    ensures '+' !in challenge && '/' !in challenge && '=' !in challenge
  {
    Encode(sha256(verifier))
  }

  /** Two verifiers with the same challenge have the same digest: the
      encoding loses nothing. */
  lemma ChallengeDeterminesDigest(sha256: Sha256, v1: string, v2: string)
    requires CodeChallenge(sha256, v1) == CodeChallenge(sha256, v2)
    ensures sha256(v1) == sha256(v2)
  {
    EncodeInjective(sha256(v1), sha256(v2));
  }

  /** `generatePKCECodes()` */
  method GeneratePkceCodes(sha256: Sha256) returns (codeVerifier: string, codeChallenge: string)
    ensures |codeVerifier| == VerifierLength
    ensures forall i :: 0 <= i < |codeVerifier| ==> codeVerifier[i] in Possible
    ensures IsPkceString(codeVerifier)
    ensures codeChallenge == CodeChallenge(sha256, codeVerifier)
  {
    codeVerifier := GenerateRandomString(VerifierLength);
    RandomStringIsVerifier(codeVerifier);
    var hashBuffer := sha256(codeVerifier);
    codeChallenge := Base64UrlEncode(hashBuffer);
  }
}
