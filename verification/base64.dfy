/**
 * Base64 as the browser's `btoa` and `atob` implement it: the encoding of
 * section 4 of RFC 4648 (alphabet of Table 1, `=` padding), and the HTML
 * standard's "forgiving-base64 decode", which skips ASCII whitespace, accepts
 * missing padding and rejects everything outside the alphabet.
 */
module Base64 {
  import opened Outcomes
  import opened Bytes

  predicate IsAlphabet(c: char)
  {
    'A' <= c <= 'Z' || 'a' <= c <= 'z' || '0' <= c <= '9' || c == '+' || c == '/'
  }

  predicate AllAlphabet(s: string)
  {
    forall i :: 0 <= i < |s| ==> IsAlphabet(s[i])
  }

  /** The six-bit value a character of the alphabet stands for. */
  function ValueOf(c: char): (v: int)
    requires IsAlphabet(c)
    ensures 0 <= v < 64
  {
    if 'A' <= c <= 'Z' then c as int - 'A' as int
    else if 'a' <= c <= 'z' then c as int - 'a' as int + 26
    else if '0' <= c <= '9' then c as int - '0' as int + 52
    else if c == '+' then 62
    else 63
  }

  /** The character of the alphabet that stands for the six-bit value `v`. */
  function CharOf(v: int): (c: char)
    requires 0 <= v < 64
    ensures IsAlphabet(c) && ValueOf(c) == v
  {
    if v < 26 then ('A' as int + v) as char
    else if v < 52 then ('a' as int + (v - 26)) as char
    else if v < 62 then ('0' as int + (v - 52)) as char
    else if v == 62 then '+'
    else '/'
  }

  /**
   * The encoding without its padding: each 3-byte group becomes 4 characters,
   * a final 1-byte group 2 characters and a final 2-byte group 3 characters.
   */
  function EncodeUnpadded(d: Bytes): (r: string)
    ensures |r| == 4 * (|d| / 3) + (if |d| % 3 == 0 then 0 else |d| % 3 + 1)
    ensures AllAlphabet(r)
  {
    if |d| == 0 then ""
    else if |d| == 1 then
      [CharOf(d[0] / 4), CharOf(d[0] % 4 * 16)]
    else if |d| == 2 then
      [CharOf(d[0] / 4), CharOf(d[0] % 4 * 16 + d[1] / 16), CharOf(d[1] % 16 * 4)]
    else
      [CharOf(d[0] / 4), CharOf(d[0] % 4 * 16 + d[1] / 16),
       CharOf(d[1] % 16 * 4 + d[2] / 64), CharOf(d[2] % 64)]
      + EncodeUnpadded(d[3..])
  }

  /** The `=` characters that complete the final quantum. */
  function Padding(n: nat): string
  {
    if n % 3 == 1 then "==" else if n % 3 == 2 then "=" else ""
  }

  /** Base64 encoding of `d` per section 4 of RFC 4648. */
  function Encode(d: Bytes): (r: string)
    ensures |r| % 4 == 0
    ensures |r| == 4 * ((|d| + 2) / 3)
  {
    PaddedLength(|d|);
    EncodeUnpadded(d) + Padding(|d|)
  }

  /** The unpadded length plus the padding is four characters per started 3-byte group. */
  lemma PaddedLength(n: nat)
    ensures 4 * (n / 3) + (if n % 3 == 0 then 0 else n % 3 + 1) + |Padding(n)| == 4 * ((n + 2) / 3)
    ensures (4 * ((n + 2) / 3)) % 4 == 0
  {
    var q, m := n / 3, n % 3;
    assert n == 3 * q + m;
    if m == 0 {
      assert (n + 2) / 3 == q;
    } else {
      assert (n + 2) / 3 == q + 1;
    }
  }

  /** ASCII whitespace as the HTML standard defines it. */
  predicate IsAsciiWhitespace(c: char)
  {
    c == '\t' || c == '\n' || c == '\U{C}' || c == '\r' || c == ' '
  }

  function RemoveWhitespace(s: string): (r: string)
    ensures forall c :: c in r <==> c in s && !IsAsciiWhitespace(c)
  {
    if |s| == 0 then ""
    else (if IsAsciiWhitespace(s[0]) then "" else [s[0]]) + RemoveWhitespace(s[1..])
  }

  /** When the length is a multiple of four, one or two trailing `=` are dropped. */
  function StripPadding(s: string): (r: string)
    ensures |r| <= |s| && r == s[..|r|]
  {
    if |s| % 4 != 0 then s
    else if |s| >= 2 && s[|s| - 2] == '=' && s[|s| - 1] == '=' then s[..|s| - 2]
    else if |s| >= 1 && s[|s| - 1] == '=' then s[..|s| - 1]
    else s
  }

  /** Reads the sextets back into bytes; leftover bits of a short final group are discarded. */
  function DecodeUnpadded(t: string): (r: Bytes)
    requires AllAlphabet(t) && |t| % 4 != 1
    ensures |r| == 3 * (|t| / 4) + (if |t| % 4 == 0 then 0 else |t| % 4 - 1)
  {
    if |t| == 0 then []
    else if |t| == 2 then
      [ValueOf(t[0]) * 4 + ValueOf(t[1]) / 16]
    else if |t| == 3 then
      [ValueOf(t[0]) * 4 + ValueOf(t[1]) / 16, ValueOf(t[1]) % 16 * 16 + ValueOf(t[2]) / 4]
    else
      [ValueOf(t[0]) * 4 + ValueOf(t[1]) / 16, ValueOf(t[1]) % 16 * 16 + ValueOf(t[2]) / 4,
       ValueOf(t[2]) % 4 * 64 + ValueOf(t[3])]
      + DecodeUnpadded(t[4..])
  }

  /** The forgiving-base64 decode of the HTML standard; `None` is its "failure". */
  function ForgivingDecode(s: string): Option<Bytes>
  {
    var t := StripPadding(RemoveWhitespace(s));
    if |t| % 4 == 1 || !AllAlphabet(t) then None else Some(DecodeUnpadded(t))
  }

  /** The bytes of a string whose code units are all below 256 (a "binary string"). */
  function Latin1Bytes(s: seq<CodeUnit>): (r: Bytes)
    requires forall i :: 0 <= i < |s| ==> s[i] < 0x100
    ensures |r| == |s| && forall i :: 0 <= i < |s| ==> r[i] == s[i]
  {
    seq(|s|, i requires 0 <= i < |s| => s[i] as Byte)
  }

  /** `btoa`: throws when a code unit does not fit in a byte. */
  function Btoa(s: seq<CodeUnit>): (r: Result<string>)
    ensures r.Success? <==> forall i :: 0 <= i < |s| ==> s[i] < 0x100
    ensures r.Success? ==> Atob(r.value) == Success(Latin1Bytes(s))
    ensures r.Failure? ==> r.error == InvalidCharacterError
  {
    if forall i :: 0 <= i < |s| ==> s[i] < 0x100 then
      var d := Latin1Bytes(s);
      RoundTrip(d);
      Success(Encode(d))
    else
      Failure(InvalidCharacterError)
  }

  /**
   * `atob` followed by `charCodeAt` for every position: the result's code units
   * are all below 256, so it is given directly as bytes.
   */
  function Atob(s: string): (r: Result<Bytes>)
    ensures r.Failure? ==> r.error == InvalidCharacterError
    ensures r.Success? ==> forall c :: c in s ==> IsAlphabet(c) || IsAsciiWhitespace(c) || c == '='
    ensures AllAlphabet(s) ==> (r.Success? <==> |s| % 4 != 1)
    ensures r.Success? ==> |r.value| == 3 * |StripPadding(RemoveWhitespace(s))| / 4
  {
    DecodedCharacters(s);
    AlphabetOnly(s);
    match ForgivingDecode(s)
    case None => Failure(InvalidCharacterError)
    case Some(d) => Success(d)
  }

  /** Only alphabet characters, white space and `=` survive the forgiving decode. */
  lemma DecodedCharacters(s: string)
    ensures ForgivingDecode(s).Some? ==> forall c :: c in s ==> IsAlphabet(c) || IsAsciiWhitespace(c) || c == '='
  {
    if ForgivingDecode(s).Some? {
      var w := RemoveWhitespace(s);
      var t := StripPadding(w);
      forall c | c in s
        ensures IsAlphabet(c) || IsAsciiWhitespace(c) || c == '='
      {
        if !IsAsciiWhitespace(c) {
          assert c in w;
          var k :| 0 <= k < |w| && w[k] == c;
          if k < |t| {
            assert t[k] == c;
          } else {
            assert w[k] == '=';
          }
        }
      }
    }
  }

  /** Text made only of alphabet characters decodes exactly when its length is not one more than a multiple of four. */
  lemma AlphabetOnly(s: string)
    ensures AllAlphabet(s) ==> (ForgivingDecode(s).Some? <==> |s| % 4 != 1)
  {
    if AllAlphabet(s) {
      NoWhitespaceKept(s);
      if |s| > 0 {
        assert IsAlphabet(s[|s| - 1]);
      }
      assert StripPadding(s) == s;
    }
  }

  /**
   * The "binary string, then `btoa`" idiom of `toBase64` and `encryptChunk`:
   * it cannot throw on bytes, and `atob` gives the bytes back.
   */
  function ToBase64(d: Bytes): (r: string)
    ensures Btoa(BinaryString(d)) == Success(r)
    ensures Atob(r) == Success(d)
    ensures |r| == 4 * ((|d| + 2) / 3)
  {
    var s := BinaryString(d);
    assert Latin1Bytes(s) == d;
    RoundTrip(d);
    Encode(d)
  }

  lemma GroupRoundTrip(a: Byte, b: Byte, c: Byte)
    ensures a / 4 * 4 + (a % 4 * 16 + b / 16) / 16 == a
    ensures (a % 4 * 16 + b / 16) % 16 * 16 + (b % 16 * 4 + c / 64) / 4 == b
    ensures (b % 16 * 4 + c / 64) % 4 * 64 + c % 64 == c
  {
  }

  lemma {:induction false} DecodeEncodeUnpadded(d: Bytes)
    ensures |EncodeUnpadded(d)| % 4 != 1
    ensures DecodeUnpadded(EncodeUnpadded(d)) == d
  {
    var e := EncodeUnpadded(d);
    if |d| == 0 {
    } else if |d| == 1 {
      assert ValueOf(e[0]) == d[0] / 4 && ValueOf(e[1]) == d[0] % 4 * 16;
      GroupRoundTrip(d[0], 0, 0);
    } else if |d| == 2 {
      assert ValueOf(e[0]) == d[0] / 4 && ValueOf(e[1]) == d[0] % 4 * 16 + d[1] / 16;
      assert ValueOf(e[2]) == d[1] % 16 * 4;
      GroupRoundTrip(d[0], d[1], 0);
    } else {
      DecodeEncodeGroup(d);
      DecodeEncodeUnpadded(d[3..]);
      assert e[4..] == EncodeUnpadded(d[3..]);
      assert d == d[..3] + d[3..];
    }
  }

  lemma DecodeEncodeGroup(d: Bytes)
    requires |d| >= 3
    ensures |EncodeUnpadded(d)| >= 4
    ensures DecodeUnpadded(EncodeUnpadded(d))[..3] == d[..3]
  {
    var e := EncodeUnpadded(d);
    var s0, s1, s2, s3 := d[0] / 4, d[0] % 4 * 16 + d[1] / 16, d[1] % 16 * 4 + d[2] / 64, d[2] % 64;
    EncodeGroup(d, s0, s1, s2, s3);
    UnpaddedLength(|d|);
    DecodeGroup(e, s0, s1, s2, s3);
    SextetsRoundTrip(d[0], d[1], d[2], s0, s1, s2, s3);
    var r := DecodeUnpadded(e);
    assert r[0] == d[0] && r[1] == d[1] && r[2] == d[2];
  }

  /** No unpadded encoding leaves a single character in its last group. */
  lemma UnpaddedLength(n: nat)
    ensures (4 * (n / 3) + (if n % 3 == 0 then 0 else n % 3 + 1)) % 4 != 1
  {
    var k := n / 3;
    assert 4 * k % 4 == 0;
  }

  /** The first group of an encoding is the four sextets of the first three bytes. */
  lemma EncodeGroup(d: Bytes, s0: int, s1: int, s2: int, s3: int)
    requires |d| >= 3
    requires s0 == d[0] / 4 && s1 == d[0] % 4 * 16 + d[1] / 16
    requires s2 == d[1] % 16 * 4 + d[2] / 64 && s3 == d[2] % 64
    ensures |EncodeUnpadded(d)| >= 4
    ensures 0 <= s0 < 64 && 0 <= s1 < 64 && 0 <= s2 < 64 && 0 <= s3 < 64
    ensures var e := EncodeUnpadded(d);
            ValueOf(e[0]) == s0 && ValueOf(e[1]) == s1 && ValueOf(e[2]) == s2 && ValueOf(e[3]) == s3
  {
    var e := EncodeUnpadded(d);
    assert e[0] == CharOf(s0) && e[1] == CharOf(s1) && e[2] == CharOf(s2) && e[3] == CharOf(s3);
  }

  /** Splitting three bytes into four sextets and joining them again gives the bytes back. */
  lemma SextetsRoundTrip(a: Byte, b: Byte, c: Byte, s0: int, s1: int, s2: int, s3: int)
    requires s0 == a / 4 && s1 == a % 4 * 16 + b / 16
    requires s2 == b % 16 * 4 + c / 64 && s3 == c % 64
    ensures s0 * 4 + s1 / 16 == a
    ensures s1 % 16 * 16 + s2 / 4 == b
    ensures s2 % 4 * 64 + s3 == c
  {
    GroupRoundTrip(a, b, c);
  }

  /** The first group of a decode reads back the sextets of its first four characters. */
  lemma DecodeGroup(t: string, s0: int, s1: int, s2: int, s3: int)
    requires AllAlphabet(t) && |t| % 4 != 1 && |t| >= 4
    requires ValueOf(t[0]) == s0 && ValueOf(t[1]) == s1 && ValueOf(t[2]) == s2 && ValueOf(t[3]) == s3
    ensures |DecodeUnpadded(t)| >= 3
    ensures DecodeUnpadded(t)[0] == s0 * 4 + s1 / 16
    ensures DecodeUnpadded(t)[1] == s1 % 16 * 16 + s2 / 4
    ensures DecodeUnpadded(t)[2] == s2 % 4 * 64 + s3
  {
  }

  lemma NoWhitespaceKept(s: string)
    requires forall i :: 0 <= i < |s| ==> !IsAsciiWhitespace(s[i])
    ensures RemoveWhitespace(s) == s
  {
  }

  lemma StripPaddingOfEncode(d: Bytes)
    ensures StripPadding(Encode(d)) == EncodeUnpadded(d)
  {
    var u := EncodeUnpadded(d);
    var s := Encode(d);
    if |d| % 3 == 0 {
      assert s == u;
      if |u| > 0 {
        assert IsAlphabet(u[|u| - 1]);
      }
    } else if |d| % 3 == 1 {
      assert s == u + "==";
      assert s[..|s| - 2] == u;
    } else {
      assert s == u + "=";
      assert IsAlphabet(u[|u| - 1]);
      assert s[..|s| - 1] == u;
    }
  }

  /** `atob` inverts the encoding: RFC 4648 encoding, then forgiving decode, is the identity. */
  lemma RoundTrip(d: Bytes)
    ensures ForgivingDecode(Encode(d)) == Some(d)
  {
    var s := Encode(d);
    var u := EncodeUnpadded(d);
    assert forall i :: 0 <= i < |s| ==> IsAlphabet(s[i]) || s[i] == '=' by {
      forall i | 0 <= i < |s|
        ensures IsAlphabet(s[i]) || s[i] == '='
      {
        if i < |u| {
          assert s[i] == u[i];
        }
      }
    }
    NoWhitespaceKept(s);
    StripPaddingOfEncode(d);
    DecodeEncodeUnpadded(d);
  }

  /**
   * A character that is neither whitespace, `=`, nor in the alphabet can never
   * be decoded: `atob` throws.
   */
  lemma {:induction false} ForeignCharacterRejected(s: string, c: char)
    requires c in s && !IsAsciiWhitespace(c) && !IsAlphabet(c) && c != '='
    ensures Atob(s) == Failure(InvalidCharacterError)
  {
    var w := RemoveWhitespace(s);
    assert c in w;
    var t := StripPadding(w);
    var k :| 0 <= k < |w| && w[k] == c;
    assert k < |t|;
    assert t[k] == c;
  }
}
