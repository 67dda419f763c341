/** Base64 encoding as the plugin uses it: `btoa` over the binary string of
    the digest bytes, then `+` -> `-`, `/` -> `_` and the trailing `=`
    removed. Proved equal to the unpadded base64url encoding of section 5
    of RFC 4648, which a decoder inverts. */
module Base64Url {
  import opened Wrappers
  import opened JsString

  type byte = b: int | 0 <= b < 256

  /** The four 6-bit groups of a 3-byte block (a missing byte counts as 0),
      section 4 of RFC 4648. */
  function Sextet0(b0: byte): (v: int)
    ensures 0 <= v < 64
  {
    b0 / 4
  }

  function Sextet1(b0: byte, b1: byte): (v: int)
    ensures 0 <= v < 64
  {
    b0 % 4 * 16 + b1 / 16
  }

  function Sextet2(b1: byte, b2: byte): (v: int)
    ensures 0 <= v < 64
  {
    b1 % 16 * 4 + b2 / 64
  }

  function Sextet3(b2: byte): (v: int)
    ensures 0 <= v < 64
  {
    b2 % 64
  }

  /** Table 1 of RFC 4648: the standard base64 alphabet. */
  function StdChar(v: int): char
    requires 0 <= v < 64
  {
    if v < 26 then ('A' as int + v) as char
    else if v < 52 then ('a' as int + v - 26) as char
    else if v < 62 then ('0' as int + v - 52) as char
    else if v == 62 then '+'
    else '/'
  }

  /** Table 2 of RFC 4648: the URL- and filename-safe alphabet. */
  function UrlChar(v: int): char
    requires 0 <= v < 64
  {
    if v < 62 then StdChar(v) else if v == 62 then '-' else '_'
  }

  predicate IsUrlChar(c: char) {
    'A' <= c <= 'Z' || 'a' <= c <= 'z' || '0' <= c <= '9' || c == '-' || c == '_'
  }

  /** The value a base64url character stands for, if any. */
  function UrlValue(c: char): (r: Option<int>)
    ensures r.Some? <==> IsUrlChar(c)
    ensures r.Some? ==> 0 <= r.value < 64 && UrlChar(r.value) == c
  {
    if 'A' <= c <= 'Z' then Some(c as int - 'A' as int)
    else if 'a' <= c <= 'z' then Some(c as int - 'a' as int + 26)
    else if '0' <= c <= '9' then Some(c as int - '0' as int + 52)
    else if c == '-' then Some(62)
    else if c == '_' then Some(63)
    else None
  }

  lemma UrlValueOfChar(v: int)
    requires 0 <= v < 64
    ensures UrlValue(UrlChar(v)) == Some(v)
  {
  }

  /** A string whose characters are all below 256, as `btoa` demands. */
  predicate IsBinaryString(s: string) {
    forall i :: 0 <= i < |s| ==> s[i] as int < 256
  }

  /** `bytes.forEach(b => binary += String.fromCharCode(b))` */
  function BinaryString(bytes: seq<byte>): (s: string)
    ensures |s| == |bytes| && IsBinaryString(s)
  {
    seq(|bytes|, i requires 0 <= i < |bytes| => bytes[i] as char)
  }

  /** `btoa`: standard base64 with `=` padding of a binary string. */
  function Btoa(s: string): (r: string)
    requires IsBinaryString(s)
    ensures |r| == 4 * ((|s| + 2) / 3)
    decreases |s|
  {
    if |s| == 0 then ""
    else
      var b0 := s[0] as int;
      if |s| == 1 then [StdChar(Sextet0(b0)), StdChar(Sextet1(b0, 0)), '=', '=']
      else
        var b1 := s[1] as int;
        if |s| == 2 then [StdChar(Sextet0(b0)), StdChar(Sextet1(b0, b1)), StdChar(Sextet2(b1, 0)), '=']
        else
          var b2 := s[2] as int;
          [StdChar(Sextet0(b0)), StdChar(Sextet1(b0, b1)), StdChar(Sextet2(b1, b2)), StdChar(Sextet3(b2))]
          + Btoa(s[3..])
  }

  /** Base64url without padding (sections 3.2 and 5 of RFC 4648). */
  function Encode(bytes: seq<byte>): (r: string)
    ensures |r| == (4 * |bytes| + 2) / 3
    ensures forall i :: 0 <= i < |r| ==> IsUrlChar(r[i])
    decreases |bytes|
  {
    if |bytes| == 0 then ""
    else if |bytes| == 1 then [UrlChar(Sextet0(bytes[0])), UrlChar(Sextet1(bytes[0], 0))]
    else if |bytes| == 2 then
      [UrlChar(Sextet0(bytes[0])), UrlChar(Sextet1(bytes[0], bytes[1])), UrlChar(Sextet2(bytes[1], 0))]
    else
      [UrlChar(Sextet0(bytes[0])), UrlChar(Sextet1(bytes[0], bytes[1])),
       UrlChar(Sextet2(bytes[1], bytes[2])), UrlChar(Sextet3(bytes[2]))]
      + Encode(bytes[3..])
  }

  /** Decoder for unpadded base64url; `None` for a stray character or a
      length that leaves a single character over. */
  function Decode(s: string): Option<seq<byte>>
    decreases |s|
  {
    if |s| == 0 then Some([])
    else if |s| == 1 || !IsUrlChar(s[0]) || !IsUrlChar(s[1]) then None
    else
      var v0, v1 := UrlValue(s[0]).value, UrlValue(s[1]).value;
      if |s| == 2 then Some([v0 * 4 + v1 / 16])
      else if !IsUrlChar(s[2]) then None
      else
        var v2 := UrlValue(s[2]).value;
        if |s| == 3 then Some([v0 * 4 + v1 / 16, v1 % 16 * 16 + v2 / 4])
        else if !IsUrlChar(s[3]) then None
        else
          var v3 := UrlValue(s[3]).value;
          match Decode(s[4..])
          case None => None
          case Some(rest) =>
            Some([v0 * 4 + v1 / 16, v1 % 16 * 16 + v2 / 4, v2 % 4 * 64 + v3] + rest)
  }

  /** The sextets of a block give back its bytes. */
  lemma SextetsInvert(b0: byte, b1: byte, b2: byte)
    ensures Sextet0(b0) * 4 + Sextet1(b0, b1) / 16 == b0
    ensures Sextet1(b0, b1) % 16 * 16 + Sextet2(b1, b2) / 4 == b1
    ensures Sextet2(b1, b2) % 4 * 64 + Sextet3(b2) == b2
  {
  }

  /** Four characters decode to the three bytes their values spell,
      ahead of whatever follows. */
  lemma DecodeFourChars(v0: int, v1: int, v2: int, v3: int, t: string, r: seq<byte>)
    requires 0 <= v0 < 64 && 0 <= v1 < 64 && 0 <= v2 < 64 && 0 <= v3 < 64
    requires Decode(t) == Some(r)
    ensures Decode([UrlChar(v0), UrlChar(v1), UrlChar(v2), UrlChar(v3)] + t)
         == Some([v0 * 4 + v1 / 16, v1 % 16 * 16 + v2 / 4, v2 % 4 * 64 + v3] + r)
  {
    var s := [UrlChar(v0), UrlChar(v1), UrlChar(v2), UrlChar(v3)] + t;
    UrlValueOfChar(v0);
    UrlValueOfChar(v1);
    UrlValueOfChar(v2);
    UrlValueOfChar(v3);
    assert s[4..] == t;
  }

  /** One full block decodes to its three bytes ahead of whatever follows. */
  lemma DecodeBlock(b0: byte, b1: byte, b2: byte, t: string, r: seq<byte>)
    requires Decode(t) == Some(r)
    ensures Decode([UrlChar(Sextet0(b0)), UrlChar(Sextet1(b0, b1)), UrlChar(Sextet2(b1, b2)), UrlChar(Sextet3(b2))] + t)
         == Some([b0, b1, b2] + r)
  {
    var v0, v1, v2, v3 := Sextet0(b0), Sextet1(b0, b1), Sextet2(b1, b2), Sextet3(b2);
    DecodeFourChars(v0, v1, v2, v3, t, r);
    SextetsInvert(b0, b1, b2);
  }

  /** Decoding inverts encoding, so distinct digests give distinct strings. */
  lemma {:induction false} DecodeEncode(bytes: seq<byte>)
    ensures Decode(Encode(bytes)) == Some(bytes)
    decreases |bytes|
  {
    if |bytes| == 1 {
      assert bytes == [bytes[0]];
      DecodeEncodeOne(bytes[0]);
    } else if |bytes| == 2 {
      assert bytes == [bytes[0], bytes[1]];
      DecodeEncodeTwo(bytes[0], bytes[1]);
    } else if |bytes| >= 3 {
      DecodeEncode(bytes[3..]);
      DecodeEncodeBlock(bytes);
    }
  }

  lemma SplitBlock<T>(s: seq<T>)
    requires |s| >= 3
    ensures s == [s[0], s[1], s[2]] + s[3..]
  {
  }

  lemma DecodeEncodeBlock(bytes: seq<byte>)
    requires |bytes| >= 3 && Decode(Encode(bytes[3..])) == Some(bytes[3..])
    ensures Decode(Encode(bytes)) == Some(bytes)
  {
    var block := [UrlChar(Sextet0(bytes[0])), UrlChar(Sextet1(bytes[0], bytes[1])),
                  UrlChar(Sextet2(bytes[1], bytes[2])), UrlChar(Sextet3(bytes[2]))];
    var t := Encode(bytes[3..]);
    calc {
      Decode(Encode(bytes));
      { EncodeBlock(bytes); }
      Decode(block + t);
      { DecodeBlock(bytes[0], bytes[1], bytes[2], t, bytes[3..]); }
      Some([bytes[0], bytes[1], bytes[2]] + bytes[3..]);
      { SplitBlock(bytes); }
      Some(bytes);
    }
  }

  lemma EncodeBlock(bytes: seq<byte>)
    requires |bytes| >= 3
    ensures Encode(bytes)
         == [UrlChar(Sextet0(bytes[0])), UrlChar(Sextet1(bytes[0], bytes[1])),
             UrlChar(Sextet2(bytes[1], bytes[2])), UrlChar(Sextet3(bytes[2]))] + Encode(bytes[3..])
  {
  }

  lemma DecodeTwoChars(v0: int, v1: int)
    requires 0 <= v0 < 64 && 0 <= v1 < 64
    ensures Decode([UrlChar(v0), UrlChar(v1)]) == Some([v0 * 4 + v1 / 16])
  {
    UrlValueOfChar(v0);
    UrlValueOfChar(v1);
  }

  lemma DecodeThreeChars(v0: int, v1: int, v2: int)
    requires 0 <= v0 < 64 && 0 <= v1 < 64 && 0 <= v2 < 64
    ensures Decode([UrlChar(v0), UrlChar(v1), UrlChar(v2)]) == Some([v0 * 4 + v1 / 16, v1 % 16 * 16 + v2 / 4])
  {
    UrlValueOfChar(v0);
    UrlValueOfChar(v1);
    UrlValueOfChar(v2);
  }

  lemma EncodeOne(b0: byte)
    ensures Encode([b0]) == [UrlChar(Sextet0(b0)), UrlChar(Sextet1(b0, 0))]
  {
  }

  lemma EncodeTwo(b0: byte, b1: byte)
    ensures Encode([b0, b1]) == [UrlChar(Sextet0(b0)), UrlChar(Sextet1(b0, b1)), UrlChar(Sextet2(b1, 0))]
  {
  }

  lemma DecodeEncodeOne(b0: byte)
    ensures Decode(Encode([b0])) == Some([b0])
  {
    calc {
      Decode(Encode([b0]));
      { EncodeOne(b0); }
      Decode([UrlChar(Sextet0(b0)), UrlChar(Sextet1(b0, 0))]);
      { DecodeTwoChars(Sextet0(b0), Sextet1(b0, 0)); }
      Some([Sextet0(b0) * 4 + Sextet1(b0, 0) / 16]);
      { SextetsInvert(b0, 0, 0); }
      Some([b0]);
    }
  }

  lemma DecodeEncodeTwo(b0: byte, b1: byte)
    ensures Decode(Encode([b0, b1])) == Some([b0, b1])
  {
    calc {
      Decode(Encode([b0, b1]));
      { EncodeTwo(b0, b1); }
      Decode([UrlChar(Sextet0(b0)), UrlChar(Sextet1(b0, b1)), UrlChar(Sextet2(b1, 0))]);
      { DecodeThreeChars(Sextet0(b0), Sextet1(b0, b1), Sextet2(b1, 0)); }
      Some([Sextet0(b0) * 4 + Sextet1(b0, b1) / 16, Sextet1(b0, b1) % 16 * 16 + Sextet2(b1, 0) / 4]);
      { SextetsInvert(b0, b1, 0); }
      Some([b0, b1]);
    }
  }

  /** Encoding is injective: equal challenges come from equal digests. */
  lemma EncodeInjective(a: seq<byte>, b: seq<byte>)
    requires Encode(a) == Encode(b)
    ensures a == b
  {
    DecodeEncode(a);
    DecodeEncode(b);
  }

  /** The URL-safe substitution of `+` and `/`. */
  function UrlSafe(s: string): string {
    ReplaceAll(ReplaceAll(s, '+', '-'), '/', '_')
  }

  lemma UrlSafeAppend(a: string, b: string)
    ensures UrlSafe(a + b) == UrlSafe(a) + UrlSafe(b)
  {
    ReplaceAllAppend(a, b, '+', '-');
    ReplaceAllAppend(ReplaceAll(a, '+', '-'), ReplaceAll(b, '+', '-'), '/', '_');
  }

  lemma UrlSafeOne(v0: int, v1: int)
    requires 0 <= v0 < 64 && 0 <= v1 < 64
    ensures StripTrailing(UrlSafe([StdChar(v0), StdChar(v1), '=', '=']), '=') == [UrlChar(v0), UrlChar(v1)]
  {
    var u := [UrlChar(v0), UrlChar(v1)];
    assert UrlSafe([StdChar(v0), StdChar(v1), '=', '=']) == u + "==";
    StripTrailingAppend(u, "==", '=');
  }

  lemma UrlSafeTwo(v0: int, v1: int, v2: int)
    requires 0 <= v0 < 64 && 0 <= v1 < 64 && 0 <= v2 < 64
    ensures StripTrailing(UrlSafe([StdChar(v0), StdChar(v1), StdChar(v2), '=']), '=')
         == [UrlChar(v0), UrlChar(v1), UrlChar(v2)]
  {
    var u := [UrlChar(v0), UrlChar(v1), UrlChar(v2)];
    assert UrlSafe([StdChar(v0), StdChar(v1), StdChar(v2), '=']) == u + "=";
    StripTrailingAppend(u, "=", '=');
  }

  /** What the source's `base64UrlEncode` computes from a byte array: the
      substituted `btoa` output with its trailing `=` removed, which is the
      unpadded base64url encoding. */
  lemma {:induction false} BtoaUrlSafeIsEncode(bytes: seq<byte>)
    ensures StripTrailing(UrlSafe(Btoa(BinaryString(bytes))), '=') == Encode(bytes)
    decreases |bytes|
  {
    if |bytes| == 1 {
      UrlSafeOne(Sextet0(bytes[0]), Sextet1(bytes[0], 0));
    } else if |bytes| == 2 {
      UrlSafeTwo(Sextet0(bytes[0]), Sextet1(bytes[0], bytes[1]), Sextet2(bytes[1], 0));
    } else if |bytes| >= 3 {
      BtoaUrlSafeBlock(bytes);
      BtoaUrlSafeIsEncode(bytes[3..]);
      EncodeBlock(bytes);
    }
  }

  /** `btoa` emits one block of four characters for the first three bytes. */
  lemma BtoaBlock(bytes: seq<byte>)
    requires |bytes| >= 3
    ensures Btoa(BinaryString(bytes))
         == [StdChar(Sextet0(bytes[0])), StdChar(Sextet1(bytes[0], bytes[1])),
             StdChar(Sextet2(bytes[1], bytes[2])), StdChar(Sextet3(bytes[2]))]
            + Btoa(BinaryString(bytes[3..]))
  {
    var s := BinaryString(bytes);
    assert s[3..] == BinaryString(bytes[3..]);
  }

  lemma UrlSafeBlock(v0: int, v1: int, v2: int, v3: int)
    requires 0 <= v0 < 64 && 0 <= v1 < 64 && 0 <= v2 < 64 && 0 <= v3 < 64
    ensures UrlSafe([StdChar(v0), StdChar(v1), StdChar(v2), StdChar(v3)])
         == [UrlChar(v0), UrlChar(v1), UrlChar(v2), UrlChar(v3)]
  {
  }

  /** One full block: its four characters come first, then the rest. */
  lemma BtoaUrlSafeBlock(bytes: seq<byte>)
    requires |bytes| >= 3
    ensures StripTrailing(UrlSafe(Btoa(BinaryString(bytes))), '=')
         == [UrlChar(Sextet0(bytes[0])), UrlChar(Sextet1(bytes[0], bytes[1])),
             UrlChar(Sextet2(bytes[1], bytes[2])), UrlChar(Sextet3(bytes[2]))]
            + StripTrailing(UrlSafe(Btoa(BinaryString(bytes[3..]))), '=')
  {
    var v0, v1 := Sextet0(bytes[0]), Sextet1(bytes[0], bytes[1]);
    var v2, v3 := Sextet2(bytes[1], bytes[2]), Sextet3(bytes[2]);
    var block := [StdChar(v0), StdChar(v1), StdChar(v2), StdChar(v3)];
    var u := [UrlChar(v0), UrlChar(v1), UrlChar(v2), UrlChar(v3)];
    var rest := Btoa(BinaryString(bytes[3..]));
    calc {
      StripTrailing(UrlSafe(Btoa(BinaryString(bytes))), '=');
      { BtoaBlock(bytes); }
      StripTrailing(UrlSafe(block + rest), '=');
      { UrlSafeAppend(block, rest); UrlSafeBlock(v0, v1, v2, v3); }
      StripTrailing(u + UrlSafe(rest), '=');
      { StripTrailingAppend(u, UrlSafe(rest), '='); }
      u + StripTrailing(UrlSafe(rest), '=');
    }
  }

  /** The encoded text holds no `+`, `/` or `=` anywhere, so in particular
      no trailing padding. */
  lemma EncodeIsUrlSafe(bytes: seq<byte>)
    ensures '+' !in Encode(bytes) && '/' !in Encode(bytes) && '=' !in Encode(bytes)
  {
  }

  /** `base64UrlEncode(buffer)`: collects the binary string byte by byte,
      then applies `btoa` and the three replacements. */
  method Base64UrlEncode(bytes: seq<byte>) returns (encoded: string)
    ensures encoded == Encode(bytes)
  {
    var binary := "";
    for i := 0 to |bytes|
      invariant binary == BinaryString(bytes[..i])
    {
      binary := binary + [bytes[i] as char];
    }
    assert bytes[..|bytes|] == bytes;
    encoded := StripTrailing(ReplaceAll(ReplaceAll(Btoa(binary), '+', '-'), '/', '_'), '=');
    BtoaUrlSafeIsEncode(bytes);
  }
}
