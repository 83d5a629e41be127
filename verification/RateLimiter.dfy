/** The gateway's rate limiter: fixed windows in an insertion-ordered map, a request handler that
    counts in place, and a background sweep that prunes expired entries and caps the map. */
module RateLimiter {
  import opened Prelude

  datatype Window = Window(count: int, resetAt: int)
  datatype Entry = Entry(key: string, window: Window)

  /** `maxOf` gives the limit of a key's path; a limit of zero or less means unlimited. */
  datatype Config = Config(windowMs: int, cap: int, maxOf: string -> int)

  // ----- the insertion-ordered map

  function Lookup(es: seq<Entry>, key: string): Option<Window> {
    if |es| == 0 then None
    else if es[0].key == key then Some(es[0].window)
    else Lookup(es[1..], key)
  }

  /** Setting a present key keeps its position; a new key goes to the end. */
  function Put(es: seq<Entry>, key: string, w: Window): seq<Entry> {
    if |es| == 0 then [Entry(key, w)]
    else if es[0].key == key then [Entry(key, w)] + es[1..]
    else [es[0]] + Put(es[1..], key, w)
  }

  predicate Distinct(es: seq<Entry>) {
    forall i, j :: 0 <= i < j < |es| ==> es[i].key != es[j].key
  }

  lemma {:induction false} LookupPut(es: seq<Entry>, key: string, w: Window, other: string)
    ensures Lookup(Put(es, key, w), other) == if other == key then Some(w) else Lookup(es, other)
  {
    if |es| > 0 {
      if es[0].key != key {
        LookupPut(es[1..], key, w, other);
        assert Put(es, key, w)[1..] == Put(es[1..], key, w);
      } else {
        assert Put(es, key, w)[1..] == es[1..];
      }
    }
  }

  lemma {:induction false} LookupAt(es: seq<Entry>, i: nat)
    requires Distinct(es) && i < |es|
    ensures Lookup(es, es[i].key) == Some(es[i].window)
  {
    if i > 0 { LookupAt(es[1..], i - 1); }
  }

  lemma {:induction false} LookupMissing(es: seq<Entry>, key: string)
    ensures Lookup(es, key).None? <==> forall i :: 0 <= i < |es| ==> es[i].key != key
  {
    if |es| > 0 {
      LookupMissing(es[1..], key);
      assert forall i :: 0 < i < |es| ==> es[i] == es[1..][i - 1];
    }
  }

  // ----- one request

  predicate Expired(w: Window, now: int) {
    w.resetAt <= now
  }

  /** The window after a request at `now`: a fresh one, or the running one counted up. */
  function Counted(cfg: Config, found: Option<Window>, now: int): Window {
    if found.None? || Expired(found.value, now) then Window(1, now + cfg.windowMs)
    else Window(found.value.count + 1, found.value.resetAt)
  }

  predicate Fresh(found: Option<Window>, now: int) {
    found.None? || Expired(found.value, now)
  }

  predicate Admits(cfg: Config, key: string, found: Option<Window>, now: int) {
    cfg.maxOf(key) <= 0 || Fresh(found, now) || found.value.count + 1 <= cfg.maxOf(key)
  }

  function AfterRequest(cfg: Config, es: seq<Entry>, key: string, now: int): seq<Entry> {
    if cfg.maxOf(key) <= 0 then es else Put(es, key, Counted(cfg, Lookup(es, key), now))
  }

  // ----- one sweep

  function Prune(es: seq<Entry>, now: int): seq<Entry> {
    if |es| == 0 then []
    else if Expired(es[0].window, now) then Prune(es[1..], now)
    else [es[0]] + Prune(es[1..], now)
  }

  function DropOldest(es: seq<Entry>, cap: int): seq<Entry> {
    if |es| > cap then es[|es| - Max(0, cap)..] else es
  }

  function AfterSweep(cfg: Config, es: seq<Entry>, now: int): seq<Entry> {
    DropOldest(Prune(es, now), cfg.cap)
  }

  lemma {:induction false} PruneLookup(es: seq<Entry>, now: int, key: string)
    requires Distinct(es)
    ensures Lookup(Prune(es, now), key)
         == if Fresh(Lookup(es, key), now) then None else Lookup(es, key)
    ensures forall e :: e in Prune(es, now) <==> e in es && !Expired(e.window, now)
    ensures Distinct(Prune(es, now))
  {
    if |es| > 0 {
      var rest := Prune(es[1..], now);
      PruneLookup(es[1..], now, key);
      LookupMissing(es[1..], es[0].key);
      assert es == [es[0]] + es[1..];
      if es[0].key == key {
        LookupMissing(rest, key);
        forall i | 0 <= i < |rest| ensures rest[i].key != key {
          assert rest[i] in es[1..];
        }
      }
      if !Expired(es[0].window, now) {
        assert ([es[0]] + rest)[1..] == rest;
        forall i | 0 <= i < |rest| ensures rest[i].key != es[0].key {
          assert rest[i] in es[1..];
        }
      }
    }
  }

  // ----- the limiter at work

  class Limiter {
    const cfg: Config
    var rateLimits: seq<Entry>

    constructor (cfg: Config)
      ensures this.cfg == cfg && rateLimits == []
    {
      this.cfg, rateLimits := cfg, [];
    }

    method Find(key: string) returns (i: nat)
      ensures i <= |rateLimits|
      ensures i < |rateLimits| ==> Lookup(rateLimits, key) == Some(rateLimits[i].window) && rateLimits[i].key == key
      ensures i == |rateLimits| ==> Lookup(rateLimits, key) == None
      ensures forall j :: 0 <= j < i ==> rateLimits[j].key != key
    {
      i := 0;
      while i < |rateLimits| && rateLimits[i].key != key
        invariant i <= |rateLimits|
        invariant Lookup(rateLimits, key) == Lookup(rateLimits[i..], key)
        invariant forall j :: 0 <= j < i ==> rateLimits[j].key != key
      {
        assert rateLimits[i..][1..] == rateLimits[i + 1..];
        i := i + 1;
      }
    }

    method EnforceRateLimit(key: string, now: int) returns (admitted: bool)
      modifies this
      ensures admitted <==> Admits(cfg, key, Lookup(old(rateLimits), key), now)
      ensures rateLimits == AfterRequest(cfg, old(rateLimits), key, now)
    {
      var max := cfg.maxOf(key);
      if max <= 0 { return true; }
      var i := Find(key);
      PutAt(rateLimits, i, key, Counted(cfg, Lookup(rateLimits, key), now));
      if i == |rateLimits| {
        rateLimits := rateLimits + [Entry(key, Window(1, now + cfg.windowMs))];
        return true;
      }
      var w := rateLimits[i].window;
      if w.resetAt <= now {
        rateLimits := rateLimits[i := Entry(key, Window(1, now + cfg.windowMs))];
        return true;
      }
      rateLimits := rateLimits[i := Entry(key, Window(w.count + 1, w.resetAt))];
      admitted := w.count + 1 <= max;
    }

    /** The first loop of the sweep: deletes expired entries while walking the map. */
    method PruneExpired(now: int)
      modifies this
      ensures rateLimits == Prune(old(rateLimits), now)
    {
      var i := 0;
      while i < |rateLimits|
        invariant i <= |rateLimits|
        invariant rateLimits[..i] + Prune(rateLimits[i..], now) == Prune(old(rateLimits), now)
        decreases |rateLimits| - i
      {
        assert rateLimits[i..][1..] == rateLimits[i + 1..];
        if rateLimits[i].window.resetAt <= now {
          ghost var was := rateLimits;
          rateLimits := rateLimits[..i] + rateLimits[i + 1..];
          assert rateLimits[..i] == was[..i] && rateLimits[i..] == was[i + 1..];
        } else {
          assert rateLimits[..i + 1] == rateLimits[..i] + [rateLimits[i]];
          i := i + 1;
        }
      }
      assert rateLimits[..i] + [] == rateLimits;
    }

    /** The second loop: drops the oldest entries beyond the cap, one at a time. */
    method DropExcess()
      modifies this
      ensures rateLimits == DropOldest(old(rateLimits), cfg.cap)
    {
      if |rateLimits| > cfg.cap {
        var excess := |rateLimits| - cfg.cap;
        ghost var all, drop := rateLimits, Min(excess, |rateLimits|);
        var i := 0;
        while i < excess
          invariant 0 <= i <= excess
          invariant rateLimits == all[Min(i, |all|)..]
        {
          if |rateLimits| > 0 {
            assert all[i..][1..] == all[i + 1..];
            rateLimits := rateLimits[1..];
          }
          i := i + 1;
        }
        assert drop == |all| - Max(0, cfg.cap);
      }
    }

    method Sweep(now: int)
      modifies this
      ensures rateLimits == AfterSweep(cfg, old(rateLimits), now)
    {
      PruneExpired(now);
      DropExcess();
    }
  }

  lemma {:induction false} PutAt(es: seq<Entry>, i: nat, key: string, w: Window)
    requires i <= |es| && (forall j :: 0 <= j < i ==> es[j].key != key) && (i < |es| ==> es[i].key == key)
    ensures Put(es, key, w) == if i < |es| then es[i := Entry(key, w)] else es + [Entry(key, w)]
  {
    if i > 0 {
      PutAt(es[1..], i - 1, key, w);
    }
  }

  /** Pruning keeps insertion order. */
  lemma {:induction false} PruneKeepsOrder(es: seq<Entry>, now: int, i: nat, j: nat)
    requires i < j < |Prune(es, now)|
    ensures exists a, b :: 0 <= a < b < |es| && es[a] == Prune(es, now)[i] && es[b] == Prune(es, now)[j]
  {
    var rest := Prune(es[1..], now);
    var dropped := Expired(es[0].window, now);
    if dropped || i > 0 {
      var k := if dropped then 0 else 1;
      PruneKeepsOrder(es[1..], now, i - k, j - k);
      var a, b :| 0 <= a < b < |es[1..]| && es[1..][a] == rest[i - k] && es[1..][b] == rest[j - k];
      assert es[a + 1] == Prune(es, now)[i] && es[b + 1] == Prune(es, now)[j];
    } else {
      PruneMember(es[1..], now, j - 1);
      var b :| 0 <= b < |es[1..]| && es[1..][b] == rest[j - 1];
      assert es[0] == Prune(es, now)[0] && es[b + 1] == Prune(es, now)[j];
    }
  }

  lemma {:induction false} PruneMember(es: seq<Entry>, now: int, j: nat)
    requires j < |Prune(es, now)|
    ensures Prune(es, now)[j] in es
  {
    if Expired(es[0].window, now) {
      PruneMember(es[1..], now, j);
    } else if j > 0 {
      PruneMember(es[1..], now, j - 1);
    }
  }

  /** A sweep over the cap leaves exactly the cap, all unexpired, having dropped only a prefix of
      insertion order; one under the cap drops exactly the expired entries. */
  lemma SweepCaps(cfg: Config, es: seq<Entry>, now: int)
    requires Distinct(es)
    ensures var live, kept := Prune(es, now), AfterSweep(cfg, es, now);
      && (forall e :: e in live <==> e in es && !Expired(e.window, now))
      && (|live| <= cfg.cap ==> kept == live)
      && (|live| > cfg.cap ==> |kept| == Max(0, cfg.cap) && kept == live[|live| - |kept|..])
      && (forall e :: e in kept ==> !Expired(e.window, now))
  {
    PruneLookup(es, now, "");
  }
}
