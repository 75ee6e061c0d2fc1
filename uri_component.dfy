/** `encodeURIComponent` and `decodeURIComponent` of ECMA-262 (section
    19.2.6, the URI Handling Functions): every character outside the
    unreserved set is written as the `%XX` escapes of its UTF-8 octets
    (section 2.1 of RFC 3986), upper-case hexadecimal. A Dafny `char` is a
    Unicode scalar value, so the URIError that JavaScript raises for a lone
    surrogate cannot arise here. */
module UriComponent {
  import opened Wrappers
  import Text

  type Octet = x: int | 0 <= x < 256

  /** The characters `encodeURIComponent` leaves alone: ASCII letters and
      digits and the marks `-_.!~*'()`. */
  predicate IsUnreserved(c: char) {
    || ('a' <= c <= 'z') || ('A' <= c <= 'Z') || ('0' <= c <= '9')
    || c == '-' || c == '_' || c == '.' || c == '!' || c == '~'
    || c == '*' || c == '\'' || c == '(' || c == ')'
  }

  /** The UTF-8 encoding of one scalar value (RFC 3629, section 3). */
  function Utf8(c: char): (octets: seq<Octet>)
    ensures |octets| == if c as int < 0x80 then 1 else if c as int < 0x800 then 2
                         else if c as int < 0x10000 then 3 else 4
  {
    var cp := c as int;
    if cp < 0x80 then [cp]
    else if cp < 0x800 then [0xC0 + cp / 0x40, 0x80 + cp % 0x40]
    else if cp < 0x10000 then
      [0xE0 + cp / 0x1000, 0x80 + (cp / 0x40) % 0x40, 0x80 + cp % 0x40]
    else
      [0xF0 + cp / 0x40000, 0x80 + (cp / 0x1000) % 0x40,
       0x80 + (cp / 0x40) % 0x40, 0x80 + cp % 0x40]
  }

  /** Upper-case hexadecimal digit, as the Encode operation writes it. */
  function HexDigit(d: nat): (c: char)
    requires d < 16
    ensures IsUnreserved(c)
  {
    if d < 10 then (('0' as int) + d) as char else (('A' as int) + d - 10) as char
  }

  /** The value of a hexadecimal digit of either case; None for any other
      character. */
  function HexValue(c: char): (v: Option<nat>)
    ensures v.Some? ==> v.value < 16
  {
    if '0' <= c <= '9' then Some((c as int) - ('0' as int))
    else if 'A' <= c <= 'F' then Some((c as int) - ('A' as int) + 10)
    else if 'a' <= c <= 'f' then Some((c as int) - ('a' as int) + 10)
    else None
  }

  lemma HexRoundTrip(d: nat)
    requires d < 16
    ensures HexValue(HexDigit(d)) == Some(d)
  {
  }

  function PercentOctet(b: Octet): (r: string)
    ensures |r| == 3 && r[0] == '%'
  {
    ['%', HexDigit(b / 16), HexDigit(b % 16)]
  }

  function PercentOctets(bs: seq<Octet>): (r: string)
    ensures |r| == 3 * |bs|
    decreases |bs|
  {
    if bs == [] then [] else PercentOctet(bs[0]) + PercentOctets(bs[1..])
  }

  function EncodeChar(c: char): (r: string)
    ensures 1 <= |r|
  {
    if IsUnreserved(c) then [c] else PercentOctets(Utf8(c))
  }

  /** `encodeURIComponent`: every character becomes one or more encoded
      characters, so the encoding is never shorter than the text. */
  function EncodeURIComponent(s: string): (r: string)
    ensures |s| <= |r|
    decreases |s|
  {
    if s == [] then [] else EncodeChar(s[0]) + EncodeURIComponent(s[1..])
  }

  /** The encoded alphabet: unreserved characters and `%`. */
  predicate IsEncoded(s: string) {
    forall i :: 0 <= i < |s| ==> IsUnreserved(s[i]) || s[i] == '%'
  }

  lemma ConcatEncoded(p: string, q: string)
    requires IsEncoded(p) && IsEncoded(q)
    ensures IsEncoded(p + q)
  {
    forall i | 0 <= i < |p + q| ensures IsUnreserved((p + q)[i]) || (p + q)[i] == '%' {
      if i >= |p| { assert (p + q)[i] == q[i - |p|]; }
    }
  }

  lemma {:induction false} PercentOctetsEncoded(bs: seq<Octet>)
    ensures IsEncoded(PercentOctets(bs))
    decreases |bs|
  {
    if bs != [] {
      PercentOctetsEncoded(bs[1..]);
      ConcatEncoded(PercentOctet(bs[0]), PercentOctets(bs[1..]));
    }
  }

  lemma CharEncoded(c: char)
    ensures IsEncoded(EncodeChar(c))
  {
    if !IsUnreserved(c) {
      PercentOctetsEncoded(Utf8(c));
    }
  }

  /** Encoded text is made of unreserved characters and `%` only. */
  lemma {:induction false} EncodedAlphabet(s: string)
    ensures IsEncoded(EncodeURIComponent(s))
    decreases |s|
  {
    if s != [] {
      EncodedAlphabet(s[1..]);
      CharEncoded(s[0]);
      ConcatEncoded(EncodeChar(s[0]), EncodeURIComponent(s[1..]));
    }
  }

  lemma EncodedExcludes(s: string, c: char)
    requires IsEncoded(s) && !IsUnreserved(c) && c != '%'
    ensures c !in s
  {
  }

  /** So encoded text never holds the query-string delimiters. */
  lemma NoDelimiters(s: string)
    ensures '&' !in EncodeURIComponent(s) && '=' !in EncodeURIComponent(s)
    ensures '?' !in EncodeURIComponent(s) && ' ' !in EncodeURIComponent(s)
    ensures '#' !in EncodeURIComponent(s)
  {
    var e := EncodeURIComponent(s);
    EncodedAlphabet(s);
    EncodedExcludes(e, '&');
    EncodedExcludes(e, '=');
    EncodedExcludes(e, '?');
    EncodedExcludes(e, ' ');
    EncodedExcludes(e, '#');
  }

  // ---- decoding ----------------------------------------------------------

  /** The octet written as `%XY` at position `i` of `s`, if there is one. */
  function OctetAt(s: string, i: nat): (b: Option<Octet>)
  {
    if i + 3 <= |s| && s[i] == '%' && HexValue(s[i + 1]).Some? && HexValue(s[i + 2]).Some?
    then Some(HexValue(s[i + 1]).value * 16 + HexValue(s[i + 2]).value)
    else None
  }

  predicate IsContinuation(b: Option<Octet>) {
    b.Some? && 0x80 <= b.value < 0xC0
  }

  /** Number of octets of the UTF-8 sequence that starts with `b0`; 0 when
      `b0` cannot start one. */
  function SequenceLength(b0: Octet): nat
  {
    if b0 < 0x80 then 1
    else if 0xC0 <= b0 < 0xE0 then 2
    else if 0xE0 <= b0 < 0xF0 then 3
    else if 0xF0 <= b0 < 0xF8 then 4
    else 0
  }

  /** Reads the scalar value encoded by the escapes at the front of `s`,
      returning it with the number of characters read. Fails, as the Decode
      operation throws URIError, on a malformed escape, a bad lead or
      continuation octet, an overlong form, a surrogate or a value beyond
      U+10FFFF. */
  function DecodeEscapes(s: string): (r: Option<(char, nat)>)
    ensures r.Some? ==> 3 <= r.value.1 <= |s|
  {
    var b0 := OctetAt(s, 0);
    if b0.None? then None
    else
      var n := SequenceLength(b0.value);
      if n == 0 then None
      else if n == 1 then Some((b0.value as char, 3))
      else if !IsContinuation(OctetAt(s, 3)) then None
      else if n == 2 then
        var cp := (b0.value - 0xC0) * 0x40 + (OctetAt(s, 3).value - 0x80);
        if cp < 0x80 then None else Some((cp as char, 6))
      else if !IsContinuation(OctetAt(s, 6)) then None
      else if n == 3 then
        var cp := (b0.value - 0xE0) * 0x1000 + (OctetAt(s, 3).value - 0x80) * 0x40
                  + (OctetAt(s, 6).value - 0x80);
        if cp < 0x800 || (0xD800 <= cp < 0xE000) then None else Some((cp as char, 9))
      else if !IsContinuation(OctetAt(s, 9)) then None
      else
        var cp := (b0.value - 0xF0) * 0x40000 + (OctetAt(s, 3).value - 0x80) * 0x1000
                  + (OctetAt(s, 6).value - 0x80) * 0x40 + (OctetAt(s, 9).value - 0x80);
        if cp < 0x10000 || cp > 0x10FFFF then None else Some((cp as char, 12))
  }

  /** `decodeURIComponent`: None where JavaScript throws URIError; a decoded
      text is never longer than its encoding. */
  function DecodeURIComponent(s: string): (r: Option<string>)
    ensures r.Some? ==> |r.value| <= |s|
    decreases |s|
  {
    if s == [] then Some([])
    else if s[0] != '%' then
      match DecodeURIComponent(s[1..])
      case None => None
      case Some(t) => Some([s[0]] + t)
    else
      match DecodeEscapes(s)
      case None => None
      case Some((c, n)) =>
        match DecodeURIComponent(s[n..])
        case None => None
        case Some(t) => Some([c] + t)
  }

  lemma {:induction false} OctetAtEncoded(bs: seq<Octet>, rest: string, k: nat)
    requires k < |bs|
    ensures OctetAt(PercentOctets(bs) + rest, 3 * k) == Some(bs[k])
    decreases k
  {
    var s := PercentOctets(bs) + rest;
    var t := PercentOctets(bs[1..]) + rest;
    Text.Regroup3(PercentOctet(bs[0]), PercentOctets(bs[1..]), rest);
    if k == 0 {
      OctetAtFront(bs[0], t);
    } else {
      OctetAtEncoded(bs[1..], rest, k - 1);
      OctetAtShift(PercentOctet(bs[0]), t, 3 * (k - 1));
    }
  }

  /** The escape of one octet reads back as that octet. */
  lemma OctetAtFront(b: Octet, t: string)
    ensures OctetAt(PercentOctet(b) + t, 0) == Some(b)
  {
    var s := PercentOctet(b) + t;
    assert s[0] == '%' && s[1] == HexDigit(b / 16) && s[2] == HexDigit(b % 16);
    HexRoundTrip(b / 16);
    HexRoundTrip(b % 16);
  }

  /** Three characters in front move every escape three places on. */
  lemma OctetAtShift(p: string, t: string, i: nat)
    requires |p| == 3
    ensures OctetAt(p + t, i + 3) == OctetAt(t, i)
  {
    if i + 3 <= |t| {
      assert (p + t)[i + 3] == t[i] && (p + t)[i + 4] == t[i + 1] && (p + t)[i + 5] == t[i + 2];
    }
  }

  /** The escapes of a character decode back to that character. */
  lemma EscapesRoundTrip(c: char, rest: string)
    ensures DecodeEscapes(PercentOctets(Utf8(c)) + rest) == Some((c, 3 * |Utf8(c)|))
  {
    var cp := c as int;
    if cp < 0x80 {
      EscapesOne(c, rest);
    } else if cp < 0x800 {
      EscapesTwo(c, rest);
    } else if cp < 0x10000 {
      EscapesThree(c, rest);
    } else {
      EscapesFour(c, rest);
    }
  }

  lemma EscapesOne(c: char, rest: string)
    requires c as int < 0x80
    ensures DecodeEscapes(PercentOctets(Utf8(c)) + rest) == Some((c, 3))
  {
    var bs: seq<Octet> := [c as int];
    assert Utf8(c) == bs;
    OctetAtEncoded(bs, rest, 0);
  }

  lemma EscapesTwo(c: char, rest: string)
    requires 0x80 <= c as int < 0x800
    ensures DecodeEscapes(PercentOctets(Utf8(c)) + rest) == Some((c, 6))
  {
    var cp := c as int;
    var b0, b1 := 0xC0 + cp / 0x40, 0x80 + cp % 0x40;
    TwoOctets(cp);
    var bs: seq<Octet> := [b0, b1];
    assert Utf8(c) == bs;
    OctetAtEncoded(bs, rest, 0);
    OctetAtEncoded(bs, rest, 1);
    DecodeTwo(PercentOctets(bs) + rest, b0, b1);
  }

  lemma EscapesThree(c: char, rest: string)
    requires 0x800 <= c as int < 0x10000
    ensures DecodeEscapes(PercentOctets(Utf8(c)) + rest) == Some((c, 9))
  {
    var cp := c as int;
    var b0, b1, b2 := 0xE0 + cp / 0x1000, 0x80 + (cp / 0x40) % 0x40, 0x80 + cp % 0x40;
    ThreeOctets(cp);
    var bs: seq<Octet> := [b0, b1, b2];
    assert Utf8(c) == bs;
    OctetAtEncoded(bs, rest, 0);
    OctetAtEncoded(bs, rest, 1);
    OctetAtEncoded(bs, rest, 2);
    DecodeThree(PercentOctets(bs) + rest, b0, b1, b2);
  }

  lemma EscapesFour(c: char, rest: string)
    requires 0x10000 <= c as int
    ensures DecodeEscapes(PercentOctets(Utf8(c)) + rest) == Some((c, 12))
  {
    var cp := c as int;
    var b0, b1, b2, b3 := 0xF0 + cp / 0x40000, 0x80 + (cp / 0x1000) % 0x40,
                          0x80 + (cp / 0x40) % 0x40, 0x80 + cp % 0x40;
    FourOctets(cp);
    var bs: seq<Octet> := [b0, b1, b2, b3];
    assert Utf8(c) == bs;
    OctetAtEncoded(bs, rest, 0);
    OctetAtEncoded(bs, rest, 1);
    OctetAtEncoded(bs, rest, 2);
    OctetAtEncoded(bs, rest, 3);
    DecodeFour(PercentOctets(bs) + rest, b0, b1, b2, b3);
  }

  lemma DecodeTwo(s: string, b0: Octet, b1: Octet)
    requires OctetAt(s, 0) == Some(b0) && OctetAt(s, 3) == Some(b1)
    requires 0xC0 <= b0 < 0xE0 && 0x80 <= b1 < 0xC0
    requires (b0 - 0xC0) * 0x40 + (b1 - 0x80) >= 0x80
    ensures DecodeEscapes(s) == Some((((b0 - 0xC0) * 0x40 + (b1 - 0x80)) as char, 6))
  {
  }

  lemma DecodeThree(s: string, b0: Octet, b1: Octet, b2: Octet)
    requires OctetAt(s, 0) == Some(b0) && OctetAt(s, 3) == Some(b1) && OctetAt(s, 6) == Some(b2)
    requires 0xE0 <= b0 < 0xF0 && 0x80 <= b1 < 0xC0 && 0x80 <= b2 < 0xC0
    requires var cp := (b0 - 0xE0) * 0x1000 + (b1 - 0x80) * 0x40 + (b2 - 0x80);
      cp >= 0x800 && !(0xD800 <= cp < 0xE000)
    ensures DecodeEscapes(s)
         == Some((((b0 - 0xE0) * 0x1000 + (b1 - 0x80) * 0x40 + (b2 - 0x80)) as char, 9))
  {
  }

  lemma DecodeFour(s: string, b0: Octet, b1: Octet, b2: Octet, b3: Octet)
    requires OctetAt(s, 0) == Some(b0) && OctetAt(s, 3) == Some(b1)
    requires OctetAt(s, 6) == Some(b2) && OctetAt(s, 9) == Some(b3)
    requires 0xF0 <= b0 < 0xF8 && 0x80 <= b1 < 0xC0 && 0x80 <= b2 < 0xC0 && 0x80 <= b3 < 0xC0
    requires var cp := (b0 - 0xF0) * 0x40000 + (b1 - 0x80) * 0x1000 + (b2 - 0x80) * 0x40 + (b3 - 0x80);
      0x10000 <= cp <= 0x10FFFF
    ensures DecodeEscapes(s) == Some(((
      (b0 - 0xF0) * 0x40000 + (b1 - 0x80) * 0x1000 + (b2 - 0x80) * 0x40 + (b3 - 0x80)) as char, 12))
  {
  }

  lemma TwoOctets(cp: int)
    requires 0x80 <= cp < 0x800
    ensures var b0, b1 := 0xC0 + cp / 0x40, 0x80 + cp % 0x40;
      0xC0 <= b0 < 0xE0 && 0x80 <= b1 < 0xC0 && (b0 - 0xC0) * 0x40 + (b1 - 0x80) == cp
  {
  }

  lemma ThreeOctets(cp: int)
    requires 0x800 <= cp < 0x10000
    ensures var b0, b1, b2 := 0xE0 + cp / 0x1000, 0x80 + (cp / 0x40) % 0x40, 0x80 + cp % 0x40;
      && 0xE0 <= b0 < 0xF0 && 0x80 <= b1 < 0xC0 && 0x80 <= b2 < 0xC0
      && (b0 - 0xE0) * 0x1000 + (b1 - 0x80) * 0x40 + (b2 - 0x80) == cp
  {
  }

  lemma FourOctets(cp: int)
    requires 0x10000 <= cp <= 0x10FFFF
    ensures var b0, b1, b2, b3 := 0xF0 + cp / 0x40000, 0x80 + (cp / 0x1000) % 0x40,
                                  0x80 + (cp / 0x40) % 0x40, 0x80 + cp % 0x40;
      && 0xF0 <= b0 < 0xF8 && 0x80 <= b1 < 0xC0 && 0x80 <= b2 < 0xC0 && 0x80 <= b3 < 0xC0
      && (b0 - 0xF0) * 0x40000 + (b1 - 0x80) * 0x1000 + (b2 - 0x80) * 0x40 + (b3 - 0x80) == cp
  {
    var q1, r1 := cp / 0x40, cp % 0x40;
    var q2, r2 := q1 / 0x40, q1 % 0x40;
    var q3, r3 := q2 / 0x40, q2 % 0x40;
    assert cp == q1 * 0x40 + r1 && q1 == q2 * 0x40 + r2 && q2 == q3 * 0x40 + r3;
    assert cp == q2 * 0x1000 + (r2 * 0x40 + r1);
    assert cp / 0x1000 == q2;
    assert cp == q3 * 0x40000 + (r3 * 0x1000 + r2 * 0x40 + r1);
    assert cp / 0x40000 == q3;
  }

  /** Decoding undoes encoding, so distinct texts encode differently. */
  lemma {:induction false} RoundTrip(s: string)
    ensures DecodeURIComponent(EncodeURIComponent(s)) == Some(s)
    decreases |s|
  {
    if s != [] {
      RoundTrip(s[1..]);
      DecodeChar(s[0], s[1..], EncodeURIComponent(s[1..]));
      assert [s[0]] + s[1..] == s;
    }
  }

  /** One step of the round trip: the encoding of `c` in front of text that
      decodes to `t` decodes to `c` in front of `t`. */
  lemma DecodeChar(c: char, t: string, tail: string)
    requires DecodeURIComponent(tail) == Some(t)
    ensures DecodeURIComponent(EncodeChar(c) + tail) == Some([c] + t)
  {
    var e := EncodeChar(c) + tail;
    if IsUnreserved(c) {
      assert e[0] == c && e[1..] == tail;
    } else {
      EscapesRoundTrip(c, tail);
      var n := 3 * |Utf8(c)|;
      assert e == PercentOctets(Utf8(c)) + tail;
      assert e[0] == '%';
      assert e[n..] == tail;
    }
  }

  lemma EncodeInjective(s: string, t: string)
    requires EncodeURIComponent(s) == EncodeURIComponent(t)
    ensures s == t
  {
    RoundTrip(s);
    RoundTrip(t);
  }

  lemma {:induction false} EncodeAppend(a: string, b: string)
    ensures EncodeURIComponent(a + b) == EncodeURIComponent(a) + EncodeURIComponent(b)
    decreases |a|
  {
    if a == [] {
      assert a + b == b;
    } else {
      assert (a + b)[0] == a[0] && (a + b)[1..] == a[1..] + b;
      EncodeAppend(a[1..], b);
    }
  }
}
