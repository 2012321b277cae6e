/** The confirmation token of an RSVP: its id in the unpadded base64url
    encoding of section 5 of RFC 4648, and the decoder that turns a token back
    into an id. The decoder is the lenient one of the Node.js `Buffer`: it
    reads both base64 alphabets, skips every other character, stops at the
    first `=`, and drops a lone trailing character; so it never fails. */
module ConfirmationToken {
  import opened Records

  /** A six-bit value: one character of the encoding. */
  type sextet = x: int | 0 <= x < 64

  /** The "URL and Filename safe" alphabet of section 5 of RFC 4648. */
  predicate IsUrlSafe(c: char) {
    'A' <= c <= 'Z' || 'a' <= c <= 'z' || '0' <= c <= '9' || c == '-' || c == '_'
  }

  function SextetChar(v: sextet): (c: char)
    ensures IsUrlSafe(c)
  {
    if v < 26 then ('A' as int + v) as char
    else if v < 52 then ('a' as int + (v - 26)) as char
    else if v < 62 then ('0' as int + (v - 52)) as char
    else if v == 62 then '-'
    else '_'
  }

  /** The value a character carries when decoding; `+` and `/` of the
      standard alphabet are read like `-` and `_`. */
  function SextetOf(c: char): (v: Option<sextet>)
    ensures IsUrlSafe(c) ==> v.Some?
  {
    if 'A' <= c <= 'Z' then Some(c as int - 'A' as int)
    else if 'a' <= c <= 'z' then Some(c as int - 'a' as int + 26)
    else if '0' <= c <= '9' then Some(c as int - '0' as int + 52)
    else if c == '-' || c == '+' then Some(62)
    else if c == '_' || c == '/' then Some(63)
    else None
  }

  lemma SextetCharRoundTrip(v: sextet)
    ensures SextetOf(SextetChar(v)) == Some(v)
  {
  }

  /** The number of characters the unpadded encoding of `n` bytes takes. */
  function EncodedLength(n: nat): nat {
    4 * (n / 3) + (if n % 3 == 0 then 0 else n % 3 + 1)
  }

  /** The four sextets of a group of three bytes, high bits first. */
  function Sextet0(b0: byte): sextet { b0 / 4 }
  function Sextet1(b0: byte, b1: byte): sextet { (b0 % 4) * 16 + b1 / 16 }
  function Sextet2(b1: byte, b2: byte): sextet { (b1 % 16) * 4 + b2 / 64 }
  function Sextet3(b2: byte): sextet { b2 % 64 }

  /** Each group of three bytes becomes four sextets; a final group of one or
      two bytes becomes two or three, its unused low bits zero. */
  function EncodeSextets(b: seq<byte>): (s: seq<sextet>)
    ensures |s| == EncodedLength(|b|)
  {
    if |b| == 0 then []
    else if |b| == 1 then [Sextet0(b[0]), Sextet1(b[0], 0)]
    else if |b| == 2 then [Sextet0(b[0]), Sextet1(b[0], b[1]), Sextet2(b[1], 0)]
    else [Sextet0(b[0]), Sextet1(b[0], b[1]), Sextet2(b[1], b[2]), Sextet3(b[2])] + EncodeSextets(b[3..])
  }

  function Chars(s: seq<sextet>): (t: string)
    ensures |t| == |s|
    ensures forall k :: 0 <= k < |t| ==> t[k] == SextetChar(s[k])
  {
    seq(|s|, k requires 0 <= k < |s| => SextetChar(s[k]))
  }

  /** `generateConfirmationToken`: the unpadded base64url text of the id. It
      uses only the URL-safe alphabet (so no `=`), takes 4 characters per
      3 bytes plus 2 or 3 for a final partial group, and is empty only for
      the empty id. */
  function GenerateConfirmationToken(id: Id): (token: string)
    ensures forall k :: 0 <= k < |token| ==> IsUrlSafe(token[k])
    ensures |token| == EncodedLength(|id|)
    ensures token == [] <==> id == []
  {
    Chars(EncodeSextets(id))
  }

  /** The sextets the decoder reads: the values of the alphabet characters
      before the first `=`, other characters skipped. */
  function Sextets(t: string): (s: seq<sextet>)
    ensures |s| <= |t|
  {
    if t == [] || t[0] == '=' then []
    else
      match SextetOf(t[0])
      case None => Sextets(t[1..])
      case Some(v) => [v] + Sextets(t[1..])
  }

  /** The three bytes four sextets carry. */
  function Byte0(s0: sextet, s1: sextet): byte { s0 * 4 + s1 / 16 }
  function Byte1(s1: sextet, s2: sextet): byte { (s1 % 16) * 16 + s2 / 4 }
  function Byte2(s2: sextet, s3: sextet): byte { (s2 % 4) * 64 + s3 }

  /** Four sextets give three bytes; a final two or three give one or two;
      a final single sextet is dropped. */
  function DecodeSextets(s: seq<sextet>): (b: seq<byte>)
    ensures |b| == 3 * |s| / 4
  {
    if |s| < 2 then []
    else if |s| == 2 then [Byte0(s[0], s[1])]
    else if |s| == 3 then [Byte0(s[0], s[1]), Byte1(s[1], s[2])]
    else [Byte0(s[0], s[1]), Byte1(s[1], s[2]), Byte2(s[2], s[3])] + DecodeSextets(s[4..])
  }

  /** `decodeConfirmationToken`: the decoder accepts every string, so the
      `null` of the failure branch is never produced. */
  function DecodeConfirmationToken(token: string): (id: Option<Id>)
    ensures id.Some?
    ensures |id.value| <= 3 * |token| / 4
  {
    Some(DecodeSextets(Sextets(token)))
  }

  lemma {:induction false} SextetsOfChars(s: seq<sextet>)
    ensures Sextets(Chars(s)) == s
  {
    if s != [] {
      SextetsOfChars(s[1..]);
      SextetCharRoundTrip(s[0]);
      assert Chars(s)[1..] == Chars(s[1..]);
    }
  }

  /** Regrouping the four sextets of three bytes gives the bytes back. */
  lemma GroupRoundTrip(b0: byte, b1: byte, b2: byte)
    ensures Byte0(Sextet0(b0), Sextet1(b0, b1)) == b0
    ensures Byte1(Sextet1(b0, b1), Sextet2(b1, b2)) == b1
    ensures Byte2(Sextet2(b1, b2), Sextet3(b2)) == b2
  {
  }

  /** A final group of one byte decodes back to that byte. */
  lemma DecodeOneByte(x: byte)
    ensures DecodeSextets([Sextet0(x), Sextet1(x, 0)]) == [x]
  {
    GroupRoundTrip(x, 0, 0);
  }

  /** A final group of two bytes decodes back to those bytes. */
  lemma DecodeTwoBytes(x: byte, y: byte)
    ensures DecodeSextets([Sextet0(x), Sextet1(x, y), Sextet2(y, 0)]) == [x, y]
  {
    GroupRoundTrip(x, y, 0);
  }

  /** A full group in front of more sextets decodes to its three bytes in
      front of what the rest decodes to. */
  lemma DecodeFullGroup(x: byte, y: byte, z: byte, rest: seq<sextet>)
    ensures DecodeSextets([Sextet0(x), Sextet1(x, y), Sextet2(y, z), Sextet3(z)] + rest)
         == [x, y, z] + DecodeSextets(rest)
  {
    var s := [Sextet0(x), Sextet1(x, y), Sextet2(y, z), Sextet3(z)] + rest;
    assert s[4..] == rest;
    GroupRoundTrip(x, y, z);
  }

  lemma {:induction false} DecodeEncodeSextets(b: seq<byte>)
    ensures DecodeSextets(EncodeSextets(b)) == b
  {
    if |b| == 1 {
      DecodeOneByte(b[0]);
      assert b == [b[0]];
    } else if |b| == 2 {
      DecodeTwoBytes(b[0], b[1]);
      assert b == [b[0], b[1]];
    } else if |b| >= 3 {
      DecodeEncodeSextets(b[3..]);
      DecodeFullGroup(b[0], b[1], b[2], EncodeSextets(b[3..]));
      assert b == [b[0], b[1], b[2]] + b[3..];
    }
  }

  /** Decoding the token of an id gives the id back. */
  lemma TokenRoundTrip(id: Id)
    ensures DecodeConfirmationToken(GenerateConfirmationToken(id)) == Some(id)
  {
    SextetsOfChars(EncodeSextets(id));
    DecodeEncodeSextets(id);
  }

  /** Distinct ids have distinct tokens. */
  lemma TokenInjective(a: Id, b: Id)
    requires GenerateConfirmationToken(a) == GenerateConfirmationToken(b)
    ensures a == b
  {
    TokenRoundTrip(a);
    TokenRoundTrip(b);
  }
}
