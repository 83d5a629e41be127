/** How the two cookie readers relate to what was printed and to each other. */
module CookieTheorems {
  import opened Prelude
  import opened Text
  import opened Cookies

  /** Names the readers can be asked for; every RFC 6265 cookie-name is one. */
  predicate CookieName(name: string) {
    name != "" && Tight(name) && '=' !in name && ';' !in name
  }

  /** Values that survive printing; every RFC 6265 cookie-value is one. */
  predicate CookieValue(value: string) {
    Tight(value) && ';' !in value
  }

  /** token of section 4.1.1 of RFC 6265: printable US-ASCII less the separators. */
  predicate Rfc6265Name(name: string) {
    name != "" && forall i :: 0 <= i < |name| ==>
      '!' <= name[i] <= '~' && name[i] !in "()<>@,;:\\\"/[]?={}"
  }

  /** cookie-value of section 4.1.1 of RFC 6265, with or without its double quotes. */
  predicate Rfc6265Value(value: string) {
    forall i :: 0 <= i < |value| ==> '!' <= value[i] <= '~' && value[i] !in ",;\\"
  }

  lemma Rfc6265Fits(name: string, value: string)
    ensures Rfc6265Name(name) ==> CookieName(name)
    ensures Rfc6265Value(value) ==> CookieValue(value)
  {
    if Rfc6265Name(name) {
      forall i | 0 <= i < |name| ensures name[i] != '=' && name[i] != ';' && !IsSpace(name[i]) {
        assert '=' in "()<>@,;:\\\"/[]?={}" && ';' in "()<>@,;:\\\"/[]?={}";
      }
    }
    if Rfc6265Value(value) {
      forall i | 0 <= i < |value| ensures value[i] != ';' && !IsSpace(value[i]) {
        assert ';' in ",;\\";
      }
    }
  }

  // ----- one cookie, seen by both

  /** Cutting `spaces + name + "=" + rest` at its first `=`. */
  lemma PairOf(part: string, lead: string, name: string, gap: string, rest: string)
    requires CookieName(name) && AllSpace(lead) && AllSpace(gap)
    requires part == lead + name + gap + "=" + rest
    ensures Pair(part) == Some((name, Trim(rest)))
  {
    var n := |lead| + |name| + |gap|;
    assert part[n] == '=' && part[n + 1..] == rest;
    assert part[..n] == lead + name + gap;
    forall i | 0 <= i < n ensures part[i] != '=' {
      assert part[i] == (lead + name + gap)[i];
    }
    IndexOfUnique(part, '=', n);
    TrimUnique(part[..n], lead, name, gap);
  }

  /** What the websocket reader takes for the cookie, the gateway takes for it too, with the same raw value. */
  lemma SocketHitIsGatewayHit(part: string, name: string)
    requires CookieName(name) && SocketHit(part, name)
    ensures Pair(part) == Some((name, SocketValue(part, name)))
  {
    var lead, tail := TrimSplits(part);
    var rest := Trim(part)[|name| + 1..];
    assert Trim(part) == name + "" + "=" + rest;
    Regrouped(part, lead, name, "", rest, tail);
    PairOf(part, lead, name, "", rest + tail);
    TrimIgnoresTail(rest, tail);
  }

  lemma Regrouped(part: string, lead: string, name: string, gap: string, rest: string, tail: string)
    requires part == lead + (name + gap + "=" + rest) + tail
    ensures part == lead + name + gap + "=" + (rest + tail)
  {
  }

  lemma TrimIgnoresTail(s: string, tail: string)
    requires AllSpace(tail)
    ensures Trim(s + tail) == Trim(s)
  {
    var a, b := TrimSplits(s);
    assert s + tail == a + Trim(s) + (b + tail);
    TrimUnique(s + tail, a, Trim(s), b + tail);
  }

  /** What stands before the `=` ends in white space exactly when there is some after the name. */
  lemma EndsInSpaceIff(lead: string, name: string, gap: string)
    requires CookieName(name) && AllSpace(gap)
    ensures var x := lead + name + gap; |x| > 0 && (IsSpace(x[|x| - 1]) <==> gap != "")
  {
    var x := lead + name + gap;
    if gap == "" {
      assert x[|x| - 1] == name[|name| - 1];
    } else {
      assert x[|x| - 1] == gap[|gap| - 1];
    }
  }

  /** The only cookies the gateway sees and the websocket reader does not have white space before `=`. */
  lemma GatewayHitIsSocketHitIff(part: string, name: string)
    requires CookieName(name) && GatewayHit(part, name)
    ensures var i := IndexOf(part, '=').value;
      i > 0 && (SocketHit(part, name) <==> !IsSpace(part[i - 1]))
  {
    var i := IndexOf(part, '=').value;
    var lead, gap := TrimSplits(part[..i]);
    assert part[..i] == lead + name + gap;
    assert part == part[..i] + "=" + part[i + 1..];
    EndsInSpaceIff(lead, name, gap);
    NameBeforeEquals(part, lead, name, gap, part[i + 1..]);
  }

  /** The websocket reader wants the name and the `=` side by side. */
  lemma NameBeforeEquals(part: string, lead: string, name: string, gap: string, rest: string)
    requires CookieName(name) && AllSpace(lead) && AllSpace(gap)
    requires part == lead + name + gap + "=" + rest
    ensures SocketHit(part, name) <==> gap == ""
  {
    var x := name + gap + "=";
    assert part == lead + x + rest;
    TrimKeepsPrefix(lead, x, rest);
    var c := Trim(part);
    if gap == "" {
      assert x == name + "=";
    } else {
      assert c[|name|] == x[|name|] == gap[0];
      assert (name + "=")[|name|] == '=';
    }
  }

  // ----- which occurrence each reader returns

  ghost predicate LastHit(parts: seq<string>, name: string, i: nat) {
    i < |parts| && GatewayHit(parts[i], name) && forall j :: i < j < |parts| ==> !GatewayHit(parts[j], name)
  }

  /** What the last part does to one name: sets it if it is a hit, else leaves it. */
  lemma FoldLast(parts: seq<string>, name: string)
    requires |parts| > 0
    ensures var init, last := Fold(parts[..|parts| - 1]), parts[|parts| - 1];
      if GatewayHit(last, name) then name in Fold(parts) && Fold(parts)[name] == DecodeOrRaw(Pair(last).value.1)
      else (name in Fold(parts) <==> name in init) && (name in init ==> Fold(parts)[name] == init[name])
  {
  }

  lemma {:induction false} FoldAtLastHit(parts: seq<string>, name: string, i: nat)
    requires LastHit(parts, name, i)
    ensures name in Fold(parts) && Fold(parts)[name] == DecodeOrRaw(Pair(parts[i]).value.1)
  {
    FoldLast(parts, name);
    if i < |parts| - 1 {
      assert !GatewayHit(parts[|parts| - 1], name);
      FoldAtLastHit(parts[..|parts| - 1], name, i);
    }
  }

  lemma {:induction false} FoldWithoutHit(parts: seq<string>, name: string)
    requires forall j :: 0 <= j < |parts| ==> !GatewayHit(parts[j], name)
    ensures name !in Fold(parts)
  {
    if |parts| > 0 {
      FoldLast(parts, name);
      FoldWithoutHit(parts[..|parts| - 1], name);
    }
  }

  /** The gateway reports the last occurrence, and nothing exactly when there is none. */
  lemma GatewayReadsLast(parts: seq<string>, name: string)
    ensures forall i: nat :: LastHit(parts, name, i) ==>
      name in Fold(parts) && Fold(parts)[name] == DecodeOrRaw(Pair(parts[i]).value.1)
    ensures (forall j :: 0 <= j < |parts| ==> !GatewayHit(parts[j], name)) ==> name !in Fold(parts)
  {
    forall i: nat | LastHit(parts, name, i)
      ensures name in Fold(parts) && Fold(parts)[name] == DecodeOrRaw(Pair(parts[i]).value.1)
    {
      FoldAtLastHit(parts, name, i);
    }
    if forall j :: 0 <= j < |parts| ==> !GatewayHit(parts[j], name) { FoldWithoutHit(parts, name); }
  }

  ghost predicate FirstHit(parts: seq<string>, name: string, i: nat) {
    i < |parts| && SocketHit(parts[i], name) && forall j :: 0 <= j < i ==> !SocketHit(parts[j], name)
  }

  /** The websocket reader reports the first occurrence, or nothing if that one is empty. */
  lemma {:induction false} SocketReadsFirst(parts: seq<string>, name: string)
    ensures forall i: nat :: FirstHit(parts, name, i) ==>
      Search(parts, name) == if SocketValue(parts[i], name) == "" then None else Some(SocketValue(parts[i], name))
    ensures (forall j :: 0 <= j < |parts| ==> !SocketHit(parts[j], name)) ==> Search(parts, name) == None
  {
    if |parts| > 0 && !SocketHit(parts[0], name) {
      var rest := parts[1..];
      SocketReadsFirst(rest, name);
      assert forall j :: 0 <= j < |rest| ==> rest[j] == parts[j + 1];
      forall i: nat | FirstHit(parts, name, i)
        ensures Search(parts, name) == if SocketValue(parts[i], name) == "" then None else Some(SocketValue(parts[i], name))
      {
        assert FirstHit(rest, name, i - 1);
      }
    }
  }

  /** On any header in which the gateway sees the name once, the two readers return the same token
      exactly when no white space precedes its `=`, its value is not empty, and decoding the value
      would not change it. */
  lemma ReadersAgreeIff(header: string, name: string, i: nat)
    requires CookieName(name) && header != ""
    requires var parts := Split(header, ';');
      && i < |parts| && GatewayHit(parts[i], name)
      && forall j :: 0 <= j < |parts| && j != i ==> !GatewayHit(parts[j], name)
    ensures var part := Split(header, ';')[i];
      var raw := Pair(part).value.1;
      GatewayCookie(header, name) == SocketCookie(header, name)
      <==> (&& !IsSpace(part[IndexOf(part, '=').value - 1]) && raw != ""
            && ('%' !in raw || DecodeUriComponent(raw).None?))
  {
    var parts := Split(header, ';');
    var raw := Pair(parts[i]).value.1;
    GatewayReadsLast(parts, name);
    assert LastHit(parts, name, i);
    SocketReadsFirst(parts, name);
    GatewayHitIsSocketHitIff(parts[i], name);
    DecodingKeepsIff(raw);
    forall j | 0 <= j < |parts| && SocketHit(parts[j], name) ensures j == i {
      SocketHitIsGatewayHit(parts[j], name);
    }
    if SocketHit(parts[i], name) {
      SocketHitIsGatewayHit(parts[i], name);
      assert FirstHit(parts, name, i);
    }
  }

  // ----- printing

  datatype Cookie = Cookie(name: string, value: string)

  predicate Printable(cookies: seq<Cookie>) {
    forall i :: 0 <= i < |cookies| ==> CookieName(cookies[i].name) && CookieValue(cookies[i].value)
  }

  /** Cookie-pairs separated by a semicolon and a space, as section 4.2.1 of RFC 6265 has them. */
  function Piece(cookies: seq<Cookie>, i: nat): string
    requires i < |cookies|
  {
    (if i == 0 then "" else " ") + cookies[i].name + "=" + cookies[i].value
  }

  function Pieces(cookies: seq<Cookie>): (r: seq<string>)
    ensures |r| == |cookies| && forall i :: 0 <= i < |r| ==> r[i] == Piece(cookies, i)
  {
    seq(|cookies|, i requires 0 <= i < |cookies| => Piece(cookies, i))
  }

  function Print(cookies: seq<Cookie>): string {
    if |cookies| == 0 then "" else Join(Pieces(cookies), ';')
  }

  /** The map a reader of the pairs would keep, later pairs replacing earlier ones. */
  function LastWins(cookies: seq<Cookie>): map<string, string> {
    if |cookies| == 0 then map[]
    else LastWins(cookies[..|cookies| - 1])[cookies[|cookies| - 1].name := DecodeOrRaw(cookies[|cookies| - 1].value)]
  }

  lemma PlainPair(part: string, lead: string, c: Cookie)
    requires AllSpace(lead) && CookieName(c.name) && CookieValue(c.value)
    requires part == lead + c.name + "=" + c.value
    ensures Pair(part) == Some((c.name, c.value))
  {
    assert lead + c.name + "" == lead + c.name;
    PairOf(part, lead, c.name, "", c.value);
    assert c.value == "" + c.value + "";
    TrimUnique(c.value, "", c.value, "");
  }

  lemma PiecePair(cookies: seq<Cookie>, i: nat)
    requires Printable(cookies) && i < |cookies|
    ensures Pair(Piece(cookies, i)) == Some((cookies[i].name, cookies[i].value))
  {
    PlainPair(Piece(cookies, i), if i == 0 then "" else " ", cookies[i]);
  }

  /** A piece printed for another name is no occurrence of this one. */
  lemma ForeignPiece(cookies: seq<Cookie>, i: nat, name: string)
    requires Printable(cookies) && i < |cookies| && cookies[i].name != name && CookieName(name)
    ensures !GatewayHit(Piece(cookies, i), name) && !SocketHit(Piece(cookies, i), name)
  {
    PiecePair(cookies, i);
    if SocketHit(Piece(cookies, i), name) { SocketHitIsGatewayHit(Piece(cookies, i), name); }
  }

  lemma PieceSocket(cookies: seq<Cookie>, i: nat)
    requires Printable(cookies) && i < |cookies|
    ensures SocketHit(Piece(cookies, i), cookies[i].name)
    ensures SocketValue(Piece(cookies, i), cookies[i].name) == cookies[i].value
  {
    var c := cookies[i];
    var lead := if i == 0 then "" else " ";
    assert Piece(cookies, i) == lead + (c.name + "=") + c.value;
    TrimKeepsPrefix(lead, c.name + "=", c.value);
    SocketHitIsGatewayHit(Piece(cookies, i), c.name);
    PiecePair(cookies, i);
  }

  lemma SplitPrinted(cookies: seq<Cookie>)
    requires Printable(cookies) && |cookies| > 0
    ensures Print(cookies) != "" && Split(Print(cookies), ';') == Pieces(cookies)
  {
    SplitJoin(Pieces(cookies), ';');
    assert |Pieces(cookies)[0]| > 0;
  }

  lemma {:induction false} FoldMatches(parts: seq<string>, cookies: seq<Cookie>)
    requires |parts| == |cookies|
    requires forall i :: 0 <= i < |parts| ==> Pair(parts[i]) == Some((cookies[i].name, cookies[i].value))
    ensures Fold(parts) == LastWins(cookies)
  {
    if |parts| > 0 {
      FoldMatches(parts[..|parts| - 1], cookies[..|cookies| - 1]);
    }
  }

  /** Parsing what was printed gives the last-wins map of the decoded values. */
  lemma ParsePrinted(cookies: seq<Cookie>)
    requires Printable(cookies)
    ensures ParseCookies(Print(cookies)) == LastWins(cookies)
  {
    if |cookies| > 0 {
      SplitPrinted(cookies);
      forall i | 0 <= i < |cookies| ensures Pair(Pieces(cookies)[i]) == Some((cookies[i].name, cookies[i].value)) {
        PiecePair(cookies, i);
      }
      FoldMatches(Pieces(cookies), cookies);
    }
  }

  /** The round trip as RFC 6265 states the syntax: any cookie-pairs of its section 4.1.1, printed as in
      its section 4.2.1, parse to their last-wins map. */
  lemma ParsePrintedRfc6265(cookies: seq<Cookie>)
    requires forall i :: 0 <= i < |cookies| ==> Rfc6265Name(cookies[i].name) && Rfc6265Value(cookies[i].value)
    ensures ParseCookies(Print(cookies)) == LastWins(cookies)
  {
    forall i | 0 <= i < |cookies| ensures CookieName(cookies[i].name) && CookieValue(cookies[i].value) {
      Rfc6265Fits(cookies[i].name, cookies[i].value);
    }
    ParsePrinted(cookies);
  }

  // ----- headers on which the readers differ

  lemma SplitWhole(header: string)
    requires ';' !in header
    ensures Split(header, ';') == [header]
  {
    assert Join([header], ';') == header;
    SplitJoin([header], ';');
  }

  /** A header of one cookie: the gateway decodes its value; the websocket reader sees it only without
      white space before the `=` and with a value, and returns that value as it stands. */
  lemma LoneCookie(header: string, name: string, gap: string, value: string)
    requires CookieName(name) && AllSpace(gap) && ';' !in gap && CookieValue(value) && header == name + gap + "=" + value
    ensures GatewayCookie(header, name) == Some(DecodeOrRaw(value))
    ensures SocketCookie(header, name) == if gap == "" && value != "" then Some(value) else None
  {
    assert header == "" + name + gap + "=" + value;
    SplitWhole(header);
    PairOf(header, "", name, gap, value);
    assert value == "" + value + "";
    TrimUnique(value, "", value, "");
    assert LastHit([header], name, 0);
    GatewayReadsLast([header], name);
    NameBeforeEquals(header, "", name, gap, value);
    if gap == "" {
      SocketHitIsGatewayHit(header, name);
      assert FirstHit([header], name, 0);
    }
    SocketReadsFirst([header], name);
  }

  lemma DecodeA()
    ensures DecodeUriComponent("%41") == Some("A")
  {
    assert OctetAt("%41", 0) == Some(0x41);
    assert EscapeAt("%41") == Some(Escape('A', 3));
    assert "%41"[3..] == "";
    assert DecodeUriComponent("") == Some("");
    assert ['A'] + "" == "A";
  }

  /** For every name: white space before the `=` hides a cookie from the websocket reader alone, */
  lemma SpaceHidesFromSocket(name: string)
    requires CookieName(name)
    ensures var header := name + " " + "=" + "v"; GatewayCookie(header, name) == Some("v") && SocketCookie(header, name) == None
  {
    LoneCookie(name + " " + "=" + "v", name, " ", "v");
    DecodingKeepsIff("v");
  }

  /** so does an empty value, */
  lemma EmptyHidesFromSocket(name: string)
    requires CookieName(name)
    ensures var header := name + "" + "=" + ""; GatewayCookie(header, name) == Some("") && SocketCookie(header, name) == None
  {
    LoneCookie(name + "" + "=" + "", name, "", "");
    DecodingKeepsIff("");
  }

  /** and a percent-encoded value is decoded by the gateway alone. */
  lemma EscapeSplitsTheReaders(name: string)
    requires CookieName(name)
    ensures var header := name + "" + "=" + "%41"; GatewayCookie(header, name) == Some("A") && SocketCookie(header, name) == Some("%41")
  {
    LoneCookie(name + "" + "=" + "%41", name, "", "%41");
    DecodeA();
  }

  // ----- duplicates

  /** With duplicates in a printed header the gateway returns the last and the websocket reader the first. */
  lemma DuplicatesSplitTheReaders(cookies: seq<Cookie>, name: string, first: nat, last: nat)
    requires Printable(cookies) && first <= last < |cookies|
    requires cookies[first].name == name && cookies[last].name == name
    requires forall j :: 0 <= j < |cookies| && (j < first || last < j) ==> cookies[j].name != name
    requires cookies[first].value != ""
    ensures GatewayCookie(Print(cookies), name) == Some(DecodeOrRaw(cookies[last].value))
    ensures SocketCookie(Print(cookies), name) == Some(cookies[first].value)
  {
    SplitPrinted(cookies);
    var parts := Pieces(cookies);
    assert LastHit(parts, name, last) by {
      PiecePair(cookies, last);
      forall j | last < j < |parts| ensures !GatewayHit(parts[j], name) { ForeignPiece(cookies, j, name); }
    }
    assert FirstHit(parts, name, first) by {
      PieceSocket(cookies, first);
      forall j | 0 <= j < first ensures !SocketHit(parts[j], name) { ForeignPiece(cookies, j, name); }
    }
    GatewayReadsLast(parts, name);
    PiecePair(cookies, last);
    SocketReadsFirst(parts, name);
    PieceSocket(cookies, first);
  }
}
