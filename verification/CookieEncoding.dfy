/** Percent-encoding as encodeURIComponent of ECMA-262 does it, undone by the gateway's decoder. */
module CookieEncoding {
  import opened Prelude
  import opened Cookies
  import opened CookieTheorems

  predicate Unreserved(c: char) {
    'A' <= c <= 'Z' || 'a' <= c <= 'z' || '0' <= c <= '9' || c in "-_.!~*'()"
  }

  function HexChar(n: int): char
    requires 0 <= n < 16
  {
    if n < 10 then ('0' as int + n) as char else ('A' as int + n - 10) as char
  }

  function Octet(b: int): (r: string)
    requires 0 <= b < 256
    ensures |r| == 3
  {
    ['%', HexChar(b / 16), HexChar(b % 16)]
  }

  /** The escaped UTF-8 octets of a character. */
  function Escaped(c: char): string {
    var v := c as int;
    if v < 0x80 then Octet(v)
    else if v < 0x800 then Octet(0xC0 + v / 64) + Octet(0x80 + v % 64)
    else if v < 0x1_0000 then Octet(0xE0 + v / 4096) + Octet(0x80 + v / 64 % 64) + Octet(0x80 + v % 64)
    else Octet(0xF0 + v / 262144) + Octet(0x80 + v / 4096 % 64) + Octet(0x80 + v / 64 % 64) + Octet(0x80 + v % 64)
  }

  function EncodeUriComponent(s: string): string {
    if |s| == 0 then ""
    else (if Unreserved(s[0]) then [s[0]] else Escaped(s[0])) + EncodeUriComponent(s[1..])
  }

  lemma HexReads(n: int)
    requires 0 <= n < 16
    ensures HexDigit(HexChar(n)) == Some(n)
  {
  }

  lemma OctetReads(s: string, i: nat, b: int)
    requires 0 <= b < 256 && i + 3 <= |s| && s[i..i + 3] == Octet(b)
    ensures OctetAt(s, i) == Some(b)
  {
    assert s[i] == s[i..i + 3][0] && s[i + 1] == s[i..i + 3][1] && s[i + 2] == s[i..i + 3][2];
    HexReads(b / 16);
    HexReads(b % 16);
  }

  lemma ContinuationReads(s: string, i: nat, b: int)
    requires 0 <= b < 64 && i + 3 <= |s| && s[i..i + 3] == Octet(0x80 + b)
    ensures ContinuationAt(s, i) == Some(b)
  {
    OctetReads(s, i, 0x80 + b);
  }

  lemma Recombine2(v: int)
    requires 0x80 <= v < 0x800
    ensures 0xC2 <= 0xC0 + v / 64 < 0xE0 && v / 64 * 64 + v % 64 == v
  {
  }

  lemma Recombine3(v: int)
    requires 0x800 <= v < 0x1_0000
    ensures 0xE0 <= 0xE0 + v / 4096 < 0xF0 && v / 4096 * 4096 + v / 64 % 64 * 64 + v % 64 == v
  {
    assert v / 4096 == v / 64 / 64;
  }

  lemma Recombine4(v: int)
    requires 0x1_0000 <= v < 0x11_0000
    ensures 0xF0 <= 0xF0 + v / 262144 < 0xF5
    ensures v / 262144 * 262144 + v / 4096 % 64 * 4096 + v / 64 % 64 * 64 + v % 64 == v
  {
    assert v / 4096 == v / 64 / 64 && v / 262144 == v / 64 / 64 / 64;
  }

  lemma EscapeReads2(c: char, rest: string)
    requires 0x80 <= c as int < 0x800
    ensures EscapeAt(Escaped(c) + rest) == Some(Escape(c, 6))
  {
    var v, s := c as int, Escaped(c) + rest;
    Recombine2(v);
    assert s[0..3] == Octet(0xC0 + v / 64);
    assert s[3..6] == Octet(0x80 + v % 64);
    OctetReads(s, 0, 0xC0 + v / 64);
    ContinuationReads(s, 3, v % 64);
  }

  lemma EscapeReads3(c: char, rest: string)
    requires 0x800 <= c as int < 0x1_0000
    ensures EscapeAt(Escaped(c) + rest) == Some(Escape(c, 9))
  {
    var v, s := c as int, Escaped(c) + rest;
    Recombine3(v);
    assert s[0..3] == Octet(0xE0 + v / 4096);
    assert s[3..6] == Octet(0x80 + v / 64 % 64);
    assert s[6..9] == Octet(0x80 + v % 64);
    OctetReads(s, 0, 0xE0 + v / 4096);
    ContinuationReads(s, 3, v / 64 % 64);
    ContinuationReads(s, 6, v % 64);
  }

  lemma FourOctetsRead(s: string, v: int)
    requires 0x1_0000 <= v < 0x11_0000 && |s| >= 12
    requires OctetAt(s, 0) == Some(0xF0 + v / 262144)
    requires ContinuationAt(s, 3) == Some(v / 4096 % 64)
    requires ContinuationAt(s, 6) == Some(v / 64 % 64) && ContinuationAt(s, 9) == Some(v % 64)
    ensures EscapeAt(s) == Some(Escape(v as char, 12))
  {
    Recombine4(v);
  }

  lemma InThrees(a: string, b: string, d: string, e: string, rest: string)
    requires |a| == |b| == |d| == |e| == 3
    ensures var s := a + b + d + e + rest; s[0..3] == a && s[3..6] == b && s[6..9] == d && s[9..12] == e
  {
  }

  lemma EscapeReads4(c: char, rest: string)
    requires 0x1_0000 <= c as int
    ensures EscapeAt(Escaped(c) + rest) == Some(Escape(c, 12))
  {
    var v := c as int;
    Recombine4(v);
    var a, b, d, e := Octet(0xF0 + v / 262144), Octet(0x80 + v / 4096 % 64), Octet(0x80 + v / 64 % 64), Octet(0x80 + v % 64);
    var s := a + b + d + e + rest;
    assert s == Escaped(c) + rest;
    InThrees(a, b, d, e, rest);
    OctetReads(s, 0, 0xF0 + v / 262144);
    ContinuationReads(s, 3, v / 4096 % 64);
    ContinuationReads(s, 6, v / 64 % 64);
    ContinuationReads(s, 9, v % 64);
    FourOctetsRead(s, v);
  }

  /** The decoder reads back the character it meets, whatever follows. */
  lemma EscapeReads(c: char, rest: string)
    ensures EscapeAt(Escaped(c) + rest) == Some(Escape(c, |Escaped(c)|))
  {
    var v := c as int;
    if v < 0x80 {
      var s := Escaped(c) + rest;
      assert s[0..3] == Octet(v);
      OctetReads(s, 0, v);
    } else if v < 0x800 {
      EscapeReads2(c, rest);
    } else if v < 0x1_0000 {
      EscapeReads3(c, rest);
    } else {
      EscapeReads4(c, rest);
    }
  }

  /** Decoding undoes encoding, for every string. */
  lemma {:induction false} DecodeEncode(s: string)
    ensures DecodeUriComponent(EncodeUriComponent(s)) == Some(s)
  {
    if |s| > 0 {
      var rest := EncodeUriComponent(s[1..]);
      DecodeEncode(s[1..]);
      assert s == [s[0]] + s[1..];
      if Unreserved(s[0]) {
        assert ([s[0]] + rest)[1..] == rest;
      } else {
        var e := Escaped(s[0]);
        EscapeReads(s[0], rest);
        assert (e + rest)[0] == '%' && (e + rest)[|e|..] == rest;
      }
    }
  }

  /** What encoding leaves in a string. */
  predicate Plain(c: char) {
    '!' <= c <= '~' && c != ';'
  }

  lemma OctetIsPlain(b: int)
    requires 0 <= b < 256
    ensures forall i :: 0 <= i < 3 ==> Plain(Octet(b)[i])
  {
  }

  lemma EscapedIsPlain(c: char)
    ensures forall i :: 0 <= i < |Escaped(c)| ==> Plain(Escaped(c)[i])
  {
    var v := c as int;
    if v < 0x80 {
      OctetIsPlain(v);
    } else if v < 0x800 {
      OctetIsPlain(0xC0 + v / 64);
      OctetIsPlain(0x80 + v % 64);
    } else if v < 0x1_0000 {
      OctetIsPlain(0xE0 + v / 4096);
      OctetIsPlain(0x80 + v / 64 % 64);
      OctetIsPlain(0x80 + v % 64);
    } else {
      OctetIsPlain(0xF0 + v / 262144);
      OctetIsPlain(0x80 + v / 4096 % 64);
      OctetIsPlain(0x80 + v / 64 % 64);
      OctetIsPlain(0x80 + v % 64);
    }
  }

  lemma {:induction false} EncodedIsPlain(s: string)
    ensures forall i :: 0 <= i < |EncodeUriComponent(s)| ==> Plain(EncodeUriComponent(s)[i])
  {
    if |s| > 0 {
      EncodedIsPlain(s[1..]);
      EscapedIsPlain(s[0]);
    }
  }

  /** Any token stored percent-encoded as the last cookie of its name is what the gateway reads. */
  lemma EncodedTokenIsRead(cookies: seq<Cookie>, name: string, token: string)
    requires Printable(cookies) && CookieName(name)
    ensures GatewayCookie(Print(cookies + [Cookie(name, EncodeUriComponent(token))]), name) == Some(token)
  {
    var value := EncodeUriComponent(token);
    EncodedIsPlain(token);
    assert CookieValue(value);
    var all := cookies + [Cookie(name, value)];
    assert all[..|all| - 1] == cookies;
    ParsePrinted(all);
    DecodeEncode(token);
  }

  // ----- exactly what is decoded

  /** The octets of a character, by the table of section 3 of RFC 3629. */
  function Utf8(c: char): seq<int> {
    var v := c as int;
    if v < 0x80 then [v]
    else if v < 0x800 then [192 + v / 64, 128 + v % 64]
    else if v < 0x1_0000 then [224 + v / 4096, 128 + v / 64 % 64, 128 + v % 64]
    else [240 + v / 262144, 128 + v / 4096 % 64, 128 + v / 64 % 64, 128 + v % 64]
  }

  /** The text begins with these octets, each escaped in either case. */
  ghost predicate BeginsWith(s: string, octets: seq<int>) {
    forall k :: 0 <= k < |octets| ==> OctetAt(s, 3 * k) == Some(octets[k])
  }

  lemma Split64(v: int, a: int, b: int)
    requires v == a * 64 + b && 0 <= b < 64
    ensures v / 64 == a && v % 64 == b
  {
  }

  lemma SplitTwice(v: int, a: int, b: int, c: int)
    requires v == a * 4096 + b * 64 + c && 0 <= b < 64 && 0 <= c < 64
    ensures v / 4096 == a && v / 64 % 64 == b && v % 64 == c
  {
    Split64(v, a * 64 + b, c);
    Split64(a * 64 + b, a, b);
    assert v / 4096 == v / 64 / 64;
  }

  lemma SplitThrice(v: int, a: int, b: int, c: int, d: int)
    requires v == a * 262144 + b * 4096 + c * 64 + d && 0 <= b < 64 && 0 <= c < 64 && 0 <= d < 64
    ensures v / 262144 == a && v / 4096 % 64 == b && v / 64 % 64 == c && v % 64 == d
  {
    Split64(v, a * 4096 + b * 64 + c, d);
    SplitTwice(a * 4096 + b * 64 + c, a, b, c);
    assert v / 262144 == v / 64 / 4096 && v / 4096 == v / 64 / 64;
  }

  ghost predicate IsUtf8(s: string, e: Escape) {
    e.length == 3 * |Utf8(e.c)| && BeginsWith(s, Utf8(e.c))
  }

  lemma TwoOctets(s: string)
    requires EscapeAt(s).Some? && 0x80 <= OctetAt(s, 0).value < 0xE0
    ensures IsUtf8(s, EscapeAt(s).value)
  {
    var e, a, b := EscapeAt(s).value, OctetAt(s, 0).value - 0xC0, ContinuationAt(s, 3).value;
    Split64(e.c as int, a, b);
    assert Utf8(e.c) == [192 + a, 128 + b];
  }

  lemma ThreeOctets(s: string)
    requires EscapeAt(s).Some? && 0xE0 <= OctetAt(s, 0).value < 0xF0
    ensures IsUtf8(s, EscapeAt(s).value)
  {
    var e, a, b, c := EscapeAt(s).value, OctetAt(s, 0).value - 0xE0, ContinuationAt(s, 3).value, ContinuationAt(s, 6).value;
    SplitTwice(e.c as int, a, b, c);
    assert Utf8(e.c) == [224 + a, 128 + b, 128 + c];
  }

  lemma FourOctets(s: string)
    requires EscapeAt(s).Some? && 0xF0 <= OctetAt(s, 0).value
    ensures IsUtf8(s, EscapeAt(s).value)
  {
    var e, a := EscapeAt(s).value, OctetAt(s, 0).value - 0xF0;
    var b, c, d := ContinuationAt(s, 3).value, ContinuationAt(s, 6).value, ContinuationAt(s, 9).value;
    SplitThrice(e.c as int, a, b, c, d);
    assert Utf8(e.c) == [240 + a, 128 + b, 128 + c, 128 + d];
  }

  /** What an escape decodes to is the character whose octets are escaped there: no overlong form, no
      surrogate and no stray octet gets through. */
  lemma EscapesAreUtf8(s: string)
    requires EscapeAt(s).Some?
    ensures var e := EscapeAt(s).value; e.length == 3 * |Utf8(e.c)| && BeginsWith(s, Utf8(e.c))
  {
    var o := OctetAt(s, 0).value;
    if o < 0x80 {
      assert Utf8(EscapeAt(s).value.c) == [o];
    } else if o < 0xE0 {
      TwoOctets(s);
    } else if o < 0xF0 {
      ThreeOctets(s);
    } else {
      FourOctets(s);
    }
  }
}
