/** The string operations the services borrow from the language: `trim`, `indexOf` and `split`. */
module Text {
  import opened Prelude

  /** WhiteSpace and LineTerminator of ECMA-262, the characters `trim` removes. */
  predicate IsSpace(c: char) {
    || '\t' <= c <= '\r'
    || c == ' '
    || c == '\U{00A0}' || c == '\U{1680}'
    || '\U{2000}' <= c <= '\U{200A}'
    || c == '\U{2028}' || c == '\U{2029}' || c == '\U{202F}' || c == '\U{205F}'
    || c == '\U{3000}' || c == '\U{FEFF}'
  }

  function TrimStart(s: string): string {
    if |s| > 0 && IsSpace(s[0]) then TrimStart(s[1..]) else s
  }

  function TrimEnd(s: string): string {
    if |s| > 0 && IsSpace(s[|s| - 1]) then TrimEnd(s[..|s| - 1]) else s
  }

  function Trim(s: string): string {
    TrimEnd(TrimStart(s))
  }

  predicate AllSpace(s: string) {
    forall i :: 0 <= i < |s| ==> IsSpace(s[i])
  }

  /** Nothing left to trim. */
  predicate Tight(s: string) {
    |s| > 0 ==> !IsSpace(s[0]) && !IsSpace(s[|s| - 1])
  }

  lemma {:induction false} TrimStartSplits(s: string) returns (lead: string)
    ensures s == lead + TrimStart(s) && AllSpace(lead)
    ensures |TrimStart(s)| > 0 ==> !IsSpace(TrimStart(s)[0])
  {
    if |s| > 0 && IsSpace(s[0]) {
      var rest := TrimStartSplits(s[1..]);
      lead := [s[0]] + rest;
    } else {
      lead := "";
    }
  }

  lemma {:induction false} TrimEndSplits(s: string) returns (tail: string)
    ensures s == TrimEnd(s) + tail && AllSpace(tail)
    ensures |TrimEnd(s)| > 0 ==> !IsSpace(TrimEnd(s)[|TrimEnd(s)| - 1]) && TrimEnd(s)[0] == s[0]
  {
    if |s| > 0 && IsSpace(s[|s| - 1]) {
      var rest := TrimEndSplits(s[..|s| - 1]);
      tail := rest + [s[|s| - 1]];
    } else {
      tail := "";
    }
  }

  /** `trim` removes a run of spaces at each end and leaves nothing more to remove. */
  lemma TrimSplits(s: string) returns (lead: string, tail: string)
    ensures s == lead + Trim(s) + tail
    ensures AllSpace(lead) && AllSpace(tail) && Tight(Trim(s))
  {
    lead := TrimStartSplits(s);
    tail := TrimEndSplits(TrimStart(s));
    assert s == lead + (Trim(s) + tail);
  }

  /** A string has one tight middle: whatever decomposition exhibits it, `trim` finds it. */
  lemma TrimUnique(s: string, lead: string, mid: string, tail: string)
    requires s == lead + mid + tail
    requires AllSpace(lead) && AllSpace(tail) && Tight(mid)
    ensures Trim(s) == mid
  {
    var a, b := TrimSplits(s);
    var m := Trim(s);
    if |m| > 0 {
      assert !IsSpace(s[|a|]) && !IsSpace(s[|a| + |m| - 1]);
    }
    if |mid| > 0 {
      assert !IsSpace(s[|lead|]) && !IsSpace(s[|lead| + |mid| - 1]);
      assert |m| > 0;
      assert |a| == |lead| && |m| == |mid|;
      assert m == s[|a|..|a| + |m|] == mid;
    } else {
      assert AllSpace(s);
    }
  }

  /** Trimming takes nothing from a tight stretch that only spaces precede. */
  lemma TrimKeepsPrefix(lead: string, x: string, y: string)
    requires AllSpace(lead) && |x| > 0 && Tight(x)
    ensures x <= Trim(lead + x + y)
  {
    var m := x + y;
    var tail := TrimEndSplits(m);
    var c := TrimEnd(m);
    assert m[|x| - 1] == x[|x| - 1];
    assert |x| <= |c|;
    assert lead + x + y == lead + m == lead + (c + tail) == lead + c + tail;
    TrimUnique(lead + x + y, lead, c, tail);
    assert x == m[..|x|] == c[..|x|];
  }

  /** Index of the first `c` in `s`, if there is one. */
  function IndexOf(s: string, c: char): (r: Option<nat>)
    ensures r.None? <==> c !in s
    ensures r.Some? ==> r.value < |s| && s[r.value] == c && c !in s[..r.value]
  {
    if |s| == 0 then None
    else if s[0] == c then Some(0)
    else
      match IndexOf(s[1..], c)
      case None => None
      case Some(i) => assert s[..i + 1] == [s[0]] + s[1..][..i]; Some(i + 1)
  }

  lemma {:induction false} IndexOfUnique(s: string, c: char, n: nat)
    requires n < |s| && s[n] == c && c !in s[..n]
    ensures IndexOf(s, c) == Some(n)
  {
    if n > 0 {
      assert s[..n] == [s[0]] + s[1..][..n - 1];
      IndexOfUnique(s[1..], c, n - 1);
    }
  }

  /** `s.split(c)`: always at least one piece, none of which holds the separator. */
  function Split(s: string, c: char): (r: seq<string>)
    ensures |r| >= 1
    ensures forall i :: 0 <= i < |r| ==> c !in r[i]
    decreases |s|
  {
    match IndexOf(s, c)
    case None => [s]
    case Some(i) => [s[..i]] + Split(s[i + 1..], c)
  }

  /** Pieces printed with one separator between neighbours. */
  function Join(parts: seq<string>, c: char): string
    requires |parts| >= 1
  {
    if |parts| == 1 then parts[0]
    else parts[0] + [c] + Join(parts[1..], c)
  }

  lemma SplitFirst(s: string, c: char, a: string, rest: string)
    requires c !in a && s == a + [c] + rest
    ensures Split(s, c) == [a] + Split(rest, c)
  {
    assert s[..|a|] == a && s[|a|] == c && s[|a| + 1..] == rest;
    IndexOfUnique(s, c, |a|);
  }

  lemma {:induction false} SplitJoin(parts: seq<string>, c: char)
    requires |parts| >= 1
    requires forall i :: 0 <= i < |parts| ==> c !in parts[i]
    ensures Split(Join(parts, c), c) == parts
    decreases |parts|
  {
    if |parts| > 1 {
      SplitFirst(Join(parts, c), c, parts[0], Join(parts[1..], c));
      SplitJoin(parts[1..], c);
      assert parts == [parts[0]] + parts[1..];
    }
  }

  /** The characters `trim` removes, by their code points. */
  lemma IsSpaceIsExact(c: char)
    ensures IsSpace(c) <==>
      var v := c as int;
      || 9 <= v <= 13 || v == 32 || v == 160 || v == 5760 || 8192 <= v <= 8202
      || v == 8232 || v == 8233 || v == 8239 || v == 8287 || v == 12288 || v == 65279
  {
  }
}
