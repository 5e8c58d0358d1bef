/**
 * `urlencoding::encode`: percent-encoding of the UTF-8 bytes of a string as section 2.1 of
 * RFC 3986 describes it (`%` and two upper-case hexadecimal digits), leaving the unreserved
 * characters of section 2.3 (`ALPHA / DIGIT / "-" / "." / "_" / "~"`) as they are.
 */
module PercentEncoding {
  import opened Wrappers
  import opened Text

  /** The unreserved set of section 2.3 of RFC 3986, as code points. */
  predicate UnreservedCode(n: int) {
    ('A' as int <= n <= 'Z' as int) || ('a' as int <= n <= 'z' as int) || ('0' as int <= n <= '9' as int)
    || n == '-' as int || n == '.' as int || n == '_' as int || n == '~' as int
  }

  /** A character that can appear in encoded output. */
  predicate EncodedChar(c: char) {
    UnreservedCode(c as int) || c == '%'
  }

  function HexDigit(d: nat): (c: char)
    requires d < 16
    ensures UnreservedCode(c as int)
  {
    "0123456789ABCDEF"[d]
  }

  predicate IsHex(c: char) {
    ('0' <= c <= '9') || ('A' <= c <= 'F')
  }

  function HexValue(c: char): (d: nat)
    requires IsHex(c)
    ensures d < 16
  {
    if c <= '9' then (c as int) - ('0' as int) else (c as int) - ('A' as int) + 10
  }

  lemma HexRoundTrip(d: nat)
    requires d < 16
    ensures IsHex(HexDigit(d)) && HexValue(HexDigit(d)) == d
  {
    var digits := "0123456789ABCDEF";
    assert digits[d] == HexDigit(d);
    if d < 10 {
      assert digits[d] as int == '0' as int + d by {
        assert digits[..10] == "0123456789";
      }
    } else {
      assert digits[d] as int == 'A' as int + d - 10 by {
        assert digits[10..] == "ABCDEF";
      }
    }
  }

  /** One byte: itself when unreserved, else `%XY`. */
  function EncodeByte(b: byte): (r: string)
    ensures |r| == 1 || |r| == 3
    ensures forall i | 0 <= i < |r| :: EncodedChar(r[i])
  {
    if UnreservedCode(b as int) then [b as int as char]
    else ['%', HexDigit(b as nat / 16), HexDigit(b as nat % 16)]
  }

  function EncodeBytes(bs: seq<byte>): (r: string)
    ensures forall i | 0 <= i < |r| :: EncodedChar(r[i])
    decreases |bs|
  {
    if |bs| == 0 then "" else EncodeByte(bs[0]) + EncodeBytes(bs[1..])
  }

  /** `urlencoding::encode(s)`. */
  function Encode(s: string): string {
    EncodeBytes(Utf8(s))
  }

  /** Encoded text never holds the delimiters `&`, `=`, `,` and `?`. */
  lemma EncodeDelimiterFree(s: string)
    ensures '&' !in Encode(s) && '=' !in Encode(s) && ',' !in Encode(s) && '?' !in Encode(s)
  {
    var r := Encode(s);
    forall i | 0 <= i < |r| ensures r[i] != '&' && r[i] != '=' && r[i] != ',' && r[i] != '?' {
      assert EncodedChar(r[i]);
    }
  }

  /** The inverse of `EncodeBytes`; `None` on text that no encoding produces. */
  function DecodeBytes(s: string): Option<seq<byte>>
    decreases |s|
  {
    if |s| == 0 then Some([])
    else if s[0] == '%' then
      if |s| >= 3 && IsHex(s[1]) && IsHex(s[2]) then
        match DecodeBytes(s[3..])
        case None => None
        case Some(rest) => Some([(HexValue(s[1]) * 16 + HexValue(s[2])) as byte] + rest)
      else None
    else if UnreservedCode(s[0] as int) then
      match DecodeBytes(s[1..])
      case None => None
      case Some(rest) => Some([s[0] as int as byte] + rest)
    else None
  }

  lemma DecodeUnreserved(b: byte, rest: string)
    requires UnreservedCode(b as int)
    ensures DecodeBytes(EncodeByte(b) + rest) ==
            match DecodeBytes(rest) case None => None case Some(tail) => Some([b] + tail)
  {
    var s := EncodeByte(b) + rest;
    assert s[0] == b as int as char && s[1..] == rest;
  }

  lemma DecodeEscaped(b: byte, rest: string)
    requires !UnreservedCode(b as int)
    ensures DecodeBytes(EncodeByte(b) + rest) ==
            match DecodeBytes(rest) case None => None case Some(tail) => Some([b] + tail)
  {
    var hi, lo := b as nat / 16, b as nat % 16;
    HexRoundTrip(hi);
    HexRoundTrip(lo);
    var s := EncodeByte(b) + rest;
    assert s[0] == '%' && s[1] == HexDigit(hi) && s[2] == HexDigit(lo) && s[3..] == rest;
    assert hi * 16 + lo == b as nat;
  }

  /** Decoding an encoding gives the bytes back, so the encoding loses nothing. */
  lemma {:induction false} DecodeEncode(bs: seq<byte>)
    ensures DecodeBytes(EncodeBytes(bs)) == Some(bs)
    decreases |bs|
  {
    if |bs| > 0 {
      DecodeEncode(bs[1..]);
      if UnreservedCode(bs[0] as int) {
        DecodeUnreserved(bs[0], EncodeBytes(bs[1..]));
      } else {
        DecodeEscaped(bs[0], EncodeBytes(bs[1..]));
      }
      assert [bs[0]] + bs[1..] == bs;
    }
  }

  /** Two strings with the same encoding are the same string. */
  lemma EncodeInjective(s: string, t: string)
    requires Encode(s) == Encode(t)
    ensures Utf8(s) == Utf8(t)
  {
    DecodeEncode(Utf8(s));
    DecodeEncode(Utf8(t));
  }

  /** Text made only of unreserved characters is left as it is. */
  lemma {:induction false} EncodeUnreserved(s: string)
    requires forall i | 0 <= i < |s| :: UnreservedCode(s[i] as int)
    ensures Encode(s) == s
    decreases |s|
  {
    if |s| > 0 {
      EncodeUnreserved(s[1..]);
      var b := Utf8Char(s[0]);
      assert |b| == 1 && b[0] as int == s[0] as int;
      var bs := b + Utf8(s[1..]);
      assert bs[0] == b[0] && bs[1..] == Utf8(s[1..]);
      assert [s[0]] + s[1..] == s;
    }
  }
}
