/** The two cookie readers: the gateway's parser and the websocket gateway's token search. */
module Cookies {
  import opened Prelude
  import opened Text

  // ----- decodeURIComponent

  function HexDigit(c: char): Option<int> {
    if '0' <= c <= '9' then Some(c as int - '0' as int)
    else if 'a' <= c <= 'f' then Some(c as int - 'a' as int + 10)
    else if 'A' <= c <= 'F' then Some(c as int - 'A' as int + 10)
    else None
  }

  /** The octet written as %XX at position `i`. */
  function OctetAt(s: string, i: nat): (r: Option<int>)
    ensures r.Some? ==> 0 <= r.value < 256 && i + 3 <= |s|
  {
    if i + 3 <= |s| && s[i] == '%' && HexDigit(s[i + 1]).Some? && HexDigit(s[i + 2]).Some?
    then Some(16 * HexDigit(s[i + 1]).value + HexDigit(s[i + 2]).value)
    else None
  }

  /** The six payload bits of the continuation octet at position `i`. */
  function ContinuationAt(s: string, i: nat): (r: Option<int>)
    ensures r.Some? ==> 0 <= r.value < 64 && i + 3 <= |s|
  {
    var o := OctetAt(s, i);
    if o.Some? && 128 <= o.value < 192 then Some(o.value - 128) else None
  }

  datatype Escape = Escape(c: char, length: nat)

  predicate IsScalar(v: int) {
    0 <= v < 0xD800 || 0xE000 <= v < 0x11_0000
  }

  /** One UTF-8 sequence of escaped octets at the start of `s`: no overlong form, no surrogate. */
  function EscapeAt(s: string): (r: Option<Escape>)
    ensures r.Some? ==> 3 <= r.value.length <= |s|
  {
    var o := OctetAt(s, 0);
    if o.None? then None
    else if o.value < 0x80 then Some(Escape(o.value as char, 3))
    else
      var a, b, c := ContinuationAt(s, 3), ContinuationAt(s, 6), ContinuationAt(s, 9);
      if 0xC2 <= o.value < 0xE0 && a.Some? then
        Some(Escape(((o.value - 0xC0) * 64 + a.value) as char, 6))
      else if 0xE0 <= o.value < 0xF0 && a.Some? && b.Some? then
        var v := (o.value - 0xE0) * 4096 + a.value * 64 + b.value;
        if v >= 0x800 && IsScalar(v) then Some(Escape(v as char, 9)) else None
      else if 0xF0 <= o.value < 0xF5 && a.Some? && b.Some? && c.Some? then
        var v := (o.value - 0xF0) * 262144 + a.value * 4096 + b.value * 64 + c.value;
        if v >= 0x1_0000 && IsScalar(v) then Some(Escape(v as char, 12)) else None
      else None
  }

  /** `None` where decodeURIComponent throws. */
  function DecodeUriComponent(s: string): (r: Option<string>)
    ensures r.Some? ==> |r.value| <= |s|
    ensures r.Some? && '%' in s ==> |r.value| < |s|
    ensures '%' !in s ==> r == Some(s)
    decreases |s|
  {
    if |s| == 0 then Some("")
    else if s[0] != '%' then
      assert s == [s[0]] + s[1..];
      match DecodeUriComponent(s[1..])
      case None => None
      case Some(rest) => Some([s[0]] + rest)
    else
      match EscapeAt(s)
      case None => None
      case Some(e) =>
        match DecodeUriComponent(s[e.length..])
        case None => None
        case Some(rest) => Some([e.c] + rest)
  }

  function DecodeOrRaw(raw: string): string {
    match DecodeUriComponent(raw)
    case None => raw
    case Some(v) => v
  }

  /** Decoding leaves a value alone exactly when there is nothing to decode or it is malformed. */
  lemma DecodingKeepsIff(raw: string)
    ensures DecodeOrRaw(raw) == raw <==> ('%' !in raw || DecodeUriComponent(raw).None?)
  {
  }

  // ----- the gateway

  /** Name and raw value of one cookie, unless it has no `=` or an empty name. */
  function Pair(part: string): Option<(string, string)> {
    match IndexOf(part, '=')
    case None => None
    case Some(i) =>
      var name := Trim(part[..i]);
      if name == "" then None else Some((name, Trim(part[i + 1..])))
  }

  predicate GatewayHit(part: string, name: string) {
    Pair(part).Some? && Pair(part).value.0 == name
  }

  function Fold(parts: seq<string>): map<string, string> {
    if |parts| == 0 then map[]
    else
      var cookies := Fold(parts[..|parts| - 1]);
      match Pair(parts[|parts| - 1])
      case None => cookies
      case Some(p) => cookies[p.0 := DecodeOrRaw(p.1)]
  }

  function ParseCookies(header: string): map<string, string> {
    if header == "" then map[] else Fold(Split(header, ';'))
  }

  function GatewayCookie(header: string, name: string): Option<string> {
    var cookies := ParseCookies(header);
    if name in cookies then Some(cookies[name]) else None
  }

  method ParseCookieHeader(header: string) returns (cookies: map<string, string>)
    ensures cookies == ParseCookies(header)
  {
    cookies := map[];
    if header == "" { return; }
    var parts := Split(header, ';');
    var i := 0;
    while i < |parts|
      invariant i <= |parts|
      invariant cookies == Fold(parts[..i])
    {
      assert parts[..i + 1][..i] == parts[..i];
      var part := parts[i];
      i := i + 1;
      var separator := IndexOf(part, '=');
      if separator.None? { continue; }
      var name := Trim(part[..separator.value]);
      var raw := Trim(part[separator.value + 1..]);
      if name == "" { continue; }
      cookies := cookies[name := DecodeOrRaw(raw)];
    }
    assert parts[..i] == parts;
  }

  // ----- the websocket gateway

  predicate SocketHit(part: string, name: string) {
    name + "=" <= Trim(part)
  }

  function SocketValue(part: string, name: string): string
    requires SocketHit(part, name)
  {
    Trim(Trim(part)[|name| + 1..])
  }

  function Search(parts: seq<string>, name: string): Option<string> {
    if |parts| == 0 then None
    else if SocketHit(parts[0], name) then
      var v := SocketValue(parts[0], name);
      if v == "" then None else Some(v)
    else Search(parts[1..], name)
  }

  function SocketCookie(header: string, name: string): Option<string> {
    if header == "" then None else Search(Split(header, ';'), name)
  }

  method ExtractCookieToken(header: string, name: string) returns (token: Option<string>)
    ensures token == SocketCookie(header, name)
  {
    if header == "" { return None; }
    var parts := Split(header, ';');
    var i := 0;
    while i < |parts|
      invariant i <= |parts|
      invariant Search(parts, name) == Search(parts[i..], name)
    {
      var cookie := Trim(parts[i]);
      if name + "=" <= cookie {
        var raw := Trim(cookie[|name| + 1..]);
        return if raw == "" then None else Some(raw);
      }
      assert parts[i..][1..] == parts[i + 1..];
      i := i + 1;
    }
    return None;
  }

  /** The ten digits and the six letters in either case have their values, and nothing else has one. */
  lemma HexDigitIsExact(c: char)
    ensures '0' <= c <= '9' ==> HexDigit(c) == Some(c as int - 48)
    ensures 'A' <= c <= 'F' ==> HexDigit(c) == Some(c as int - 55)
    ensures 'a' <= c <= 'f' ==> HexDigit(c) == Some(c as int - 87)
    ensures HexDigit(c).Some? ==> '0' <= c <= '9' || 'A' <= c <= 'F' || 'a' <= c <= 'f'
  {
  }
}
