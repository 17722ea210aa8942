/**
 * `encodeURIComponent` (ECMAScript), which percent-encodes a string as in
 * section 2.1 of RFC 3986: every character outside a small safe set is
 * written as the `%XY` escapes (upper-case hexadecimal) of its UTF-8 bytes.
 * A decoder is given beside it so that the encoding can be shown lossless.
 */
module Uri {
  import opened Wrappers

  type Byte = b: int | 0 <= b < 256

  /**
   * The characters `encodeURIComponent` leaves as they are: ASCII letters and
   * digits, the marks of RFC 3986 section 2.3 (`-` `.` `_` `~`) and `!` `*` `'` `(` `)`.
   */
  predicate IsUnescaped(c: char) {
    || ('A' <= c <= 'Z') || ('a' <= c <= 'z') || ('0' <= c <= '9')
    || c == '-' || c == '_' || c == '.' || c == '!' || c == '~' || c == '*' || c == '\'' || c == '(' || c == ')'
  }

  predicate IsUpperHex(c: char) {
    ('0' <= c <= '9') || ('A' <= c <= 'F')
  }

  /** The UTF-8 encoding of one Unicode scalar value. */
  function Utf8(c: char): (bs: seq<Byte>)
    ensures 1 <= |bs| <= 4
  {
    var n := c as int;
    if n < 0x80 then [n]
    else if n < 0x800 then [0xC0 + n / 64, 0x80 + n % 64]
    else if n < 0x10000 then [0xE0 + n / 4096, 0x80 + (n / 64) % 64, 0x80 + n % 64]
    else [0xF0 + n / 262144, 0x80 + (n / 4096) % 64, 0x80 + (n / 64) % 64, 0x80 + n % 64]
  }

  function HexDigit(d: nat): (c: char)
    requires d < 16
    ensures IsUpperHex(c)
  {
    "0123456789ABCDEF"[d]
  }

  function PercentBytes(bs: seq<Byte>): (r: string)
    ensures |r| == 3 * |bs|
    ensures forall k :: 0 <= k < |r| ==> r[k] == '%' || IsUpperHex(r[k])
  {
    if bs == [] then [] else ['%', HexDigit(bs[0] / 16), HexDigit(bs[0] % 16)] + PercentBytes(bs[1..])
  }

  function EncodeChar(c: char): string {
    if IsUnescaped(c) then [c] else PercentBytes(Utf8(c))
  }

  /**
   * `encodeURIComponent(s)`. Every character of the result is a safe
   * character, `%` or an upper-case hexadecimal digit, so in particular the
   * result never contains `/`, `?` or `#` and stays within one path segment.
   */
  function EncodeURIComponent(s: string): (r: string)
    ensures |r| >= |s|
    ensures forall k :: 0 <= k < |r| ==> IsUnescaped(r[k]) || r[k] == '%' || IsUpperHex(r[k])
  {
    if s == [] then [] else EncodeChar(s[0]) + EncodeURIComponent(s[1..])
  }

  // ---------------------------------------------------------------------
  // The inverse: percent-decoding followed by UTF-8 decoding.

  function HexValue(c: char): (r: Option<nat>)
    ensures r.Some? ==> r.value < 16
  {
    if '0' <= c <= '9' then Some(c as int - '0' as int)
    else if 'A' <= c <= 'F' then Some(c as int - 'A' as int + 10)
    else if 'a' <= c <= 'f' then Some(c as int - 'a' as int + 10)
    else None
  }

  /** The byte spelled by an escape `%XY` at the front of `t`. */
  function EscapedByte(t: string): (r: Option<Byte>)
    ensures r.Some? ==> |t| >= 3
  {
    if |t| >= 3 && t[0] == '%' && HexValue(t[1]).Some? && HexValue(t[2]).Some? then
      Some(16 * HexValue(t[1]).value + HexValue(t[2]).value)
    else None
  }

  /** The bytes spelled by `count` escapes at the front of `t`. */
  function EscapedBytes(t: string, count: nat): (r: Option<seq<Byte>>)
    ensures r.Some? ==> |r.value| == count && |t| >= 3 * count
  {
    if count == 0 then Some([])
    else match EscapedByte(t)
      case None => None
      case Some(b) =>
        match EscapedBytes(t[3..], count - 1)
        case None => None
        case Some(bs) => Some([b] + bs)
  }

  /** How many bytes a UTF-8 sequence with this first byte has; 0 if it cannot start one. */
  function SequenceLength(lead: Byte): (n: nat)
    ensures n <= 4
  {
    if lead < 0x80 then 1
    else if 0xC0 <= lead < 0xE0 then 2
    else if 0xE0 <= lead < 0xF0 then 3
    else if 0xF0 <= lead < 0xF8 then 4
    else 0
  }

  predicate IsContinuation(b: Byte) {
    0x80 <= b < 0xC0
  }

  /** The scalar value of a well-formed, shortest-form UTF-8 sequence. */
  function DecodeUtf8(bs: seq<Byte>): Option<char>
    requires 1 <= |bs| <= 4
  {
    if |bs| != SequenceLength(bs[0]) || exists k :: 1 <= k < |bs| && !IsContinuation(bs[k]) then None
    else
      var n: int :=
        if |bs| == 1 then bs[0]
        else if |bs| == 2 then (bs[0] as int - 0xC0) * 64 + (bs[1] as int - 0x80)
        else if |bs| == 3 then (bs[0] as int - 0xE0) * 4096 + (bs[1] as int - 0x80) * 64 + (bs[2] as int - 0x80)
        else (bs[0] as int - 0xF0) * 262144 + (bs[1] as int - 0x80) * 4096 + (bs[2] as int - 0x80) * 64 + (bs[3] as int - 0x80);
      var least: int := if |bs| == 1 then 0 else if |bs| == 2 then 0x80 else if |bs| == 3 then 0x800 else 0x10000;
      if n < least || (0xD800 <= n < 0xE000) || n >= 0x110000 then None else Some(n as char)
  }

  /** `decodeURIComponent(t)`; None where that throws a URIError. */
  function DecodeURIComponent(t: string): Option<string>
    decreases |t|
  {
    if t == [] then Some([])
    else if t[0] != '%' then
      match DecodeURIComponent(t[1..])
      case None => None
      case Some(rest) => Some([t[0]] + rest)
    else
      match EscapedByte(t)
      case None => None
      case Some(lead) =>
        var n := SequenceLength(lead);
        if n == 0 then None
        else
          match EscapedBytes(t, n)
          case None => None
          case Some(bs) =>
            match DecodeUtf8(bs)
            case None => None
            case Some(c) =>
              match DecodeURIComponent(t[3 * n..])
              case None => None
              case Some(rest) => Some([c] + rest)
  }

  // ---------------------------------------------------------------------
  // The encoding is lossless.

  lemma Utf8RoundTrip(c: char)
    ensures SequenceLength(Utf8(c)[0]) == |Utf8(c)|
    ensures DecodeUtf8(Utf8(c)) == Some(c)
  {
    var n := c as int;
    var bs := Utf8(c);
    if n < 0x80 {
    } else if n < 0x800 {
      TwoBytes(n);
    } else if n < 0x10000 {
      ThreeBytes(n);
    } else {
      FourBytes(n);
    }
    assert forall k :: 1 <= k < |bs| ==> IsContinuation(bs[k]);
  }

  lemma TwoBytes(n: int)
    requires 0x80 <= n < 0x800
    ensures 0xC0 <= 0xC0 + n / 64 < 0xE0 && 0 <= n % 64 < 64
    ensures (n / 64) * 64 + n % 64 == n
  {
  }

  lemma ThreeBytes(n: int)
    requires 0x800 <= n < 0x10000
    ensures 0xE0 <= 0xE0 + n / 4096 < 0xF0 && 0 <= (n / 64) % 64 < 64 && 0 <= n % 64 < 64
    ensures (n / 4096) * 4096 + ((n / 64) % 64) * 64 + n % 64 == n
  {
    var q := n / 64;
    assert n == q * 64 + n % 64;
    assert q / 64 == n / 4096;
    assert q == (q / 64) * 64 + q % 64;
  }

  lemma FourBytes(n: int)
    requires 0x10000 <= n < 0x110000
    ensures 0xF0 <= 0xF0 + n / 262144 < 0xF8
    ensures 0 <= (n / 4096) % 64 < 64 && 0 <= (n / 64) % 64 < 64 && 0 <= n % 64 < 64
    ensures (n / 262144) * 262144 + ((n / 4096) % 64) * 4096 + ((n / 64) % 64) * 64 + n % 64 == n
  {
    var q := n / 64;
    var p := q / 64;
    assert n == q * 64 + n % 64;
    assert q == p * 64 + q % 64;
    assert p == n / 4096;
    assert p / 64 == n / 262144;
    assert p == (p / 64) * 64 + p % 64;
  }

  lemma HexRoundTrip(d: nat)
    requires d < 16
    ensures HexValue(HexDigit(d)) == Some(d)
  {
  }

  lemma {:induction false} EscapedBytesOfPercent(bs: seq<Byte>, rest: string)
    ensures EscapedBytes(PercentBytes(bs) + rest, |bs|) == Some(bs)
    ensures (PercentBytes(bs) + rest)[3 * |bs|..] == rest
  {
    var t := PercentBytes(bs) + rest;
    if bs != [] {
      var b := bs[0];
      HexRoundTrip(b / 16);
      HexRoundTrip(b % 16);
      assert t[0] == '%' && t[1] == HexDigit(b / 16) && t[2] == HexDigit(b % 16);
      assert EscapedByte(t) == Some(b);
      assert t[3..] == PercentBytes(bs[1..]) + rest;
      EscapedBytesOfPercent(bs[1..], rest);
      assert [b] + bs[1..] == bs;
    }
  }

  lemma DecodeEncodedChar(c: char, rest: string)
    ensures DecodeURIComponent(EncodeChar(c) + rest) ==
      match DecodeURIComponent(rest) case None => None case Some(r) => Some([c] + r)
  {
    var t := EncodeChar(c) + rest;
    if IsUnescaped(c) {
      assert t[0] == c && t[1..] == rest;
    } else {
      var bs := Utf8(c);
      Utf8RoundTrip(c);
      EscapedBytesOfPercent(bs, rest);
      HexRoundTrip(bs[0] / 16);
      HexRoundTrip(bs[0] % 16);
      assert t[0] == '%';
      assert EscapedByte(t) == Some(bs[0]);
    }
  }

  /** Decoding what `EncodeURIComponent` produced gives back the original string. */
  lemma {:induction false} DecodeEncode(s: string)
    ensures DecodeURIComponent(EncodeURIComponent(s)) == Some(s)
  {
    if s != [] {
      DecodeEncode(s[1..]);
      DecodeEncodedChar(s[0], EncodeURIComponent(s[1..]));
      assert [s[0]] + s[1..] == s;
    }
  }

  /** Distinct agent ids give distinct path segments. */
  lemma EncodeInjective(a: string, b: string)
    requires EncodeURIComponent(a) == EncodeURIComponent(b)
    ensures a == b
  {
    DecodeEncode(a);
    DecodeEncode(b);
  }

  /** A character is copied unchanged exactly when it is in the unescaped set; anything else becomes escapes. */
  lemma EncodeCharIdentity(c: char)
    ensures EncodeChar(c) == [c] <==> IsUnescaped(c)
    ensures !IsUnescaped(c) ==> |EncodeChar(c)| >= 3 && EncodeChar(c)[0] == '%'
  {
  }

  /** Every `%` of `s` starts an escape: two upper-case hexadecimal digits follow it. */
  predicate UpperEscapes(s: string) {
    forall k :: 0 <= k < |s| && s[k] == '%' ==> k + 2 < |s| && IsUpperHex(s[k + 1]) && IsUpperHex(s[k + 2])
  }

  lemma UpperEscapesConcat(a: string, b: string)
    requires UpperEscapes(a) && UpperEscapes(b)
    ensures UpperEscapes(a + b)
  {
    forall k | 0 <= k < |a + b| && (a + b)[k] == '%'
      ensures k + 2 < |a + b| && IsUpperHex((a + b)[k + 1]) && IsUpperHex((a + b)[k + 2])
    {
      if k < |a| {
        assert a[k] == '%';
      } else {
        assert b[k - |a|] == '%';
      }
    }
  }

  lemma {:induction false} PercentBytesUpper(bs: seq<Byte>)
    ensures UpperEscapes(PercentBytes(bs))
  {
    if bs != [] {
      PercentBytesUpper(bs[1..]);
      var head := ['%', HexDigit(bs[0] / 16), HexDigit(bs[0] % 16)];
      assert UpperEscapes(head);
      UpperEscapesConcat(head, PercentBytes(bs[1..]));
    }
  }

  /**
   * The escapes `encodeURIComponent` writes use upper-case digits: every `%`
   * of the result is followed by two of `0`-`9`, `A`-`F`.
   */
  lemma {:induction false} EncodeUpperEscapes(s: string)
    ensures UpperEscapes(EncodeURIComponent(s))
  {
    if s != [] {
      EncodeUpperEscapes(s[1..]);
      if !IsUnescaped(s[0]) {
        PercentBytesUpper(Utf8(s[0]));
      }
      UpperEscapesConcat(EncodeChar(s[0]), EncodeURIComponent(s[1..]));
    }
  }

  /** A space becomes `%20`. */
  lemma EncodeSpace()
    ensures EncodeChar(' ') == "%20"
  {
    assert !IsUnescaped(' ');
    var bs := Utf8(' ');
    assert bs == [32];
    assert PercentBytes(bs) == ['%', HexDigit(2), HexDigit(0)] + PercentBytes([]);
  }
}
