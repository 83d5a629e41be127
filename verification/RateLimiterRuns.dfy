/** Whole runs of the rate limiter, and exactly when its sweep can be observed. */
module RateLimiterRuns {
  import opened Prelude
  import opened RateLimiter

  datatype Op = Ask(key: string, now: int) | Tidy(now: int)

  /** What became of a request: whether it was let through, and its key's window with it counted. */
  datatype Hit = Hit(key: string, now: int, admitted: bool, window: Window)

  function End(cfg: Config, ops: seq<Op>): seq<Entry> {
    if |ops| == 0 then []
    else
      var es := End(cfg, ops[..|ops| - 1]);
      match ops[|ops| - 1]
      case Ask(key, now) => AfterRequest(cfg, es, key, now)
      case Tidy(now) => AfterSweep(cfg, es, now)
  }

  function HitOf(cfg: Config, es: seq<Entry>, key: string, now: int): Hit {
    var found := Lookup(es, key);
    Hit(key, now, Admits(cfg, key, found, now), Counted(cfg, found, now))
  }

  function Log(cfg: Config, ops: seq<Op>): seq<Hit> {
    if |ops| == 0 then []
    else
      var log := Log(cfg, ops[..|ops| - 1]);
      match ops[|ops| - 1]
      case Ask(key, now) => log + [HitOf(cfg, End(cfg, ops[..|ops| - 1]), key, now)]
      case Tidy(_) => log
  }

  /** A nondecreasing clock. */
  ghost predicate Timed(ops: seq<Op>) {
    forall i, j :: 0 <= i < j < |ops| ==> ops[i].now <= ops[j].now
  }

  /** No sweep of the run finds more live entries than the cap. */
  ghost predicate UnderCap(cfg: Config, ops: seq<Op>) {
    forall i :: 0 <= i < |ops| && ops[i].Tidy? ==> |Prune(End(cfg, ops[..i]), ops[i].now)| <= Max(0, cfg.cap)
  }

  function Requests(ops: seq<Op>): (asks: seq<Op>)
    ensures forall i :: 0 <= i < |asks| ==> asks[i].Ask?
  {
    if |ops| == 0 then []
    else
      var rest := Requests(ops[..|ops| - 1]);
      if ops[|ops| - 1].Ask? then rest + [ops[|ops| - 1]] else rest
  }

  // ----- the map keeps distinct keys

  lemma {:induction false} PutDistinct(es: seq<Entry>, key: string, w: Window)
    requires Distinct(es)
    ensures Distinct(Put(es, key, w))
    ensures forall e :: e in Put(es, key, w) ==> e.key == key || e in es
  {
    if |es| > 0 && es[0].key != key {
      var rest := Put(es[1..], key, w);
      PutDistinct(es[1..], key, w);
      forall i | 0 <= i < |rest| ensures rest[i].key != es[0].key {
        assert rest[i] in rest;
        if rest[i] in es[1..] {
          var j :| 0 <= j < |es[1..]| && es[1..][j] == rest[i];
          assert es[j + 1] == rest[i];
        }
      }
    }
  }

  lemma {:induction false} EndDistinct(cfg: Config, ops: seq<Op>)
    ensures Distinct(End(cfg, ops))
  {
    if |ops| > 0 {
      var es := End(cfg, ops[..|ops| - 1]);
      EndDistinct(cfg, ops[..|ops| - 1]);
      match ops[|ops| - 1]
      case Ask(key, now) => PutDistinct(es, key, Counted(cfg, Lookup(es, key), now));
      case Tidy(now) => PruneLookup(es, now, "");
    }
  }

  lemma {:induction false} EndCounted(cfg: Config, ops: seq<Op>, key: string)
    requires Lookup(End(cfg, ops), key).Some?
    ensures Lookup(End(cfg, ops), key).value.count >= 1 && cfg.maxOf(key) >= 1
  {
    if |ops| > 0 {
      var init := ops[..|ops| - 1];
      var es := End(cfg, init);
      if Lookup(es, key).Some? { EndCounted(cfg, init, key); }
      match ops[|ops| - 1]
      case Ask(asked, now) => LookupPut(es, asked, Counted(cfg, Lookup(es, asked), now), key);
      case Tidy(now) =>
        EndDistinct(cfg, init);
        SweepLookup(cfg, es, now, key);
    }
  }

  // ----- evictions

  /** The sweep drops a window of the key that is still running. */
  predicate Evicts(cfg: Config, es: seq<Entry>, now: int, key: string) {
    Lookup(Prune(es, now), key).Some? && Lookup(AfterSweep(cfg, es, now), key).None?
  }

  lemma {:induction false} SuffixLookup(es: seq<Entry>, k: nat, key: string)
    requires Distinct(es) && k <= |es|
    ensures Lookup(es[k..], key) == None || Lookup(es[k..], key) == Lookup(es, key)
  {
    if k > 0 {
      SuffixLookup(es[1..], k - 1, key);
      assert es[1..][k - 1..] == es[k..];
      LookupMissing(es[1..], key);
      LookupMissing(es[k..], key);
      if es[0].key == key {
        forall i | 0 <= i < |es[k..]| ensures es[k..][i].key != key { assert es[k..][i] == es[k + i]; }
      }
    } else {
      assert es[0..] == es;
    }
  }

  /** What a sweep leaves of a key: nothing if its window was over or is evicted, else the window. */
  lemma SweepLookup(cfg: Config, es: seq<Entry>, now: int, key: string)
    requires Distinct(es)
    ensures Lookup(AfterSweep(cfg, es, now), key)
         == if Evicts(cfg, es, now, key) || Fresh(Lookup(es, key), now) then None else Lookup(es, key)
    ensures Evicts(cfg, es, now, key) ==> !Fresh(Lookup(es, key), now)
  {
    PruneLookup(es, now, key);
    var live := Prune(es, now);
    SuffixLookup(live, if |live| > cfg.cap then |live| - Max(0, cfg.cap) else 0, key);
    assert live[0..] == live;
  }

  /** The running window a sweep took from the key, if no request of the key has come since. */
  function Lost(cfg: Config, ops: seq<Op>, key: string): Option<Window> {
    if |ops| == 0 then None
    else
      var init := ops[..|ops| - 1];
      match ops[|ops| - 1]
      case Ask(asked, _) => if asked == key then None else Lost(cfg, init, key)
      case Tidy(now) =>
        if Evicts(cfg, End(cfg, init), now, key) then Lookup(End(cfg, init), key) else Lost(cfg, init, key)
  }

  /** A request that comes while the window a sweep took from its key would still run. */
  predicate Misses(cfg: Config, ops: seq<Op>, i: nat)
    requires i < |ops|
  {
    ops[i].Ask? && !Fresh(Lost(cfg, ops[..i], ops[i].key), ops[i].now)
  }

  ghost predicate NoMiss(cfg: Config, ops: seq<Op>) {
    forall i :: 0 <= i < |ops| ==> !Misses(cfg, ops, i)
  }

  // ----- when sweeps can be observed

  /** How the swept and the unswept limiter stand on a key at `now`: alike, or the swept one has
      lost the running window that the other one still has. */
  ghost predicate Stands(swept: Option<Window>, unswept: Option<Window>, lost: Option<Window>, now: int) {
    if Fresh(lost, now) then swept == unswept || (Fresh(swept, now) && Fresh(unswept, now))
    else swept.None? && unswept == lost
  }

  ghost predicate Comparable(cfg: Config, ops: seq<Op>, now: int) {
    forall key :: Stands(Lookup(End(cfg, ops), key), Lookup(End(cfg, Requests(ops)), key), Lost(cfg, ops, key), now)
  }

  lemma {:induction false} RequestsTimed(ops: seq<Op>)
    requires Timed(ops)
    ensures Timed(Requests(ops))
    ensures forall i :: 0 <= i < |Requests(ops)| ==> Requests(ops)[i] in ops && Requests(ops)[i].Ask?
  {
    if |ops| > 0 {
      RequestsTimed(ops[..|ops| - 1]);
      assert ops == ops[..|ops| - 1] + [ops[|ops| - 1]];
    }
  }

  lemma NoMissInit(cfg: Config, ops: seq<Op>)
    requires |ops| > 0
    ensures NoMiss(cfg, ops) <==> NoMiss(cfg, ops[..|ops| - 1]) && !Misses(cfg, ops, |ops| - 1)
  {
    var init := ops[..|ops| - 1];
    forall i | 0 <= i < |init| ensures Misses(cfg, init, i) == Misses(cfg, ops, i) {
      assert init[..i] == ops[..i];
    }
  }

  lemma AskStands(cfg: Config, es: seq<Entry>, fs: seq<Entry>, key: string, t: int, other: string, lost: Option<Window>, now: int)
    requires Stands(Lookup(es, other), Lookup(fs, other), lost, t) && t <= now && (other == key ==> Fresh(lost, t))
    requires Counted(cfg, Lookup(es, key), t) == Counted(cfg, Lookup(fs, key), t)
    ensures Stands(Lookup(AfterRequest(cfg, es, key, t), other), Lookup(AfterRequest(cfg, fs, key, t), other),
                   if other == key then None else lost, now)
  {
    LookupPut(es, key, Counted(cfg, Lookup(es, key), t), other);
    LookupPut(fs, key, Counted(cfg, Lookup(fs, key), t), other);
  }

  /** A request that misses nothing leaves the two limiters comparable. */
  lemma AskComparable(cfg: Config, ops: seq<Op>, key: string, t: int, now: int)
    requires Comparable(cfg, ops, t) && Fresh(Lost(cfg, ops, key), t) && t <= now
    ensures Comparable(cfg, ops + [Ask(key, t)], now)
  {
    var all := ops + [Ask(key, t)];
    assert all[..|all| - 1] == ops;
    assert Requests(all)[..|Requests(all)| - 1] == Requests(ops);
    var es, fs := End(cfg, ops), End(cfg, Requests(ops));
    assert Stands(Lookup(es, key), Lookup(fs, key), Lost(cfg, ops, key), t);
    forall other ensures Stands(Lookup(End(cfg, all), other), Lookup(End(cfg, Requests(all)), other), Lost(cfg, all, other), now) {
      assert Stands(Lookup(es, other), Lookup(fs, other), Lost(cfg, ops, other), t);
      AskStands(cfg, es, fs, key, t, other, Lost(cfg, ops, other), now);
    }
  }

  /** A sweep leaves them comparable, whatever it evicts. */
  lemma TidyComparable(cfg: Config, ops: seq<Op>, t: int, now: int)
    requires Comparable(cfg, ops, t) && t <= now
    ensures Comparable(cfg, ops + [Tidy(t)], now)
  {
    var all := ops + [Tidy(t)];
    assert all[..|ops|] == ops;
    EndDistinct(cfg, ops);
    forall other ensures Stands(Lookup(End(cfg, all), other), Lookup(End(cfg, Requests(all)), other), Lost(cfg, all, other), now) {
      assert Stands(Lookup(End(cfg, ops), other), Lookup(End(cfg, Requests(ops)), other), Lost(cfg, ops, other), t);
      SweepLookup(cfg, End(cfg, ops), t, other);
    }
  }

  /** A request that misses a window is counted differently: the swept limiter starts over. */
  lemma SameHitIff(cfg: Config, ops: seq<Op>, key: string, t: int)
    requires Comparable(cfg, ops, t)
    ensures HitOf(cfg, End(cfg, ops), key, t) == HitOf(cfg, End(cfg, Requests(ops)), key, t)
       <==> Fresh(Lost(cfg, ops, key), t)
  {
    var a, b := Lookup(End(cfg, ops), key), Lookup(End(cfg, Requests(ops)), key);
    assert Stands(a, b, Lost(cfg, ops, key), t);
    if b.Some? { EndCounted(cfg, Requests(ops), key); }
  }

  lemma AppendSame<T>(s: seq<T>, x: T, t: seq<T>, y: T)
    ensures s + [x] == t + [y] <==> s == t && x == y
  {
    if s + [x] == t + [y] {
      assert (s + [x])[..|s|] == s && (t + [y])[..|t|] == t;
      assert (s + [x])[|s|] == x && (t + [y])[|t|] == y;
    }
  }

  lemma {:induction false} SweptRun(cfg: Config, ops: seq<Op>, now: int)
    requires Timed(ops) && (|ops| > 0 ==> ops[|ops| - 1].now <= now)
    ensures NoMiss(cfg, ops) ==> Comparable(cfg, ops, now)
    ensures Log(cfg, ops) == Log(cfg, Requests(ops)) <==> NoMiss(cfg, ops)
  {
    if |ops| > 0 {
      var init, last := ops[..|ops| - 1], ops[|ops| - 1];
      assert ops == init + [last];
      SweptRun(cfg, init, last.now);
      NoMissInit(cfg, ops);
      match last
      case Ask(key, t) =>
        assert Requests(ops)[..|Requests(ops)| - 1] == Requests(init);
        AppendSame(Log(cfg, init), HitOf(cfg, End(cfg, init), key, t),
                   Log(cfg, Requests(init)), HitOf(cfg, End(cfg, Requests(init)), key, t));
        if NoMiss(cfg, init) {
          SameHitIff(cfg, init, key, t);
          if NoMiss(cfg, ops) { AskComparable(cfg, init, key, t, now); }
        }
      case Tidy(t) =>
        if NoMiss(cfg, init) { TidyComparable(cfg, init, t, now); }
    }
  }

  /** A limiter that is swept at arbitrary times treats every request of a run as one that is never
      swept, with the same decision, count and window, exactly when no request comes while a window
      that a sweep took from its key would still run. */
  lemma SweptAsUnsweptIff(cfg: Config, ops: seq<Op>)
    requires Timed(ops)
    ensures Log(cfg, ops) == Log(cfg, Requests(ops)) <==> NoMiss(cfg, ops)
  {
    SweptRun(cfg, ops, if |ops| > 0 then ops[|ops| - 1].now else 0);
  }

  lemma {:induction false} UnderCapLosesNothing(cfg: Config, ops: seq<Op>, n: nat, key: string)
    requires UnderCap(cfg, ops) && n <= |ops|
    ensures Lost(cfg, ops[..n], key) == None
  {
    if n > 0 {
      UnderCapLosesNothing(cfg, ops, n - 1, key);
      assert ops[..n][..n - 1] == ops[..n - 1];
    }
  }

  /** Under the cap, a limiter swept at arbitrary times makes the same decision on every request as
      one that is never swept. */
  lemma SweepIsInvisible(cfg: Config, ops: seq<Op>)
    requires Timed(ops) && UnderCap(cfg, ops)
    ensures Log(cfg, ops) == Log(cfg, Requests(ops))
  {
    forall i | 0 <= i < |ops| ensures !Misses(cfg, ops, i) {
      if ops[i].Ask? { UnderCapLosesNothing(cfg, ops, i, ops[i].key); }
    }
    SweptAsUnsweptIff(cfg, ops);
  }

  // ----- counting admitted requests

  ghost function In(key: string, lo: int, hi: int): Hit -> bool {
    (h: Hit) => h.key == key && h.admitted && lo <= h.now < hi
  }

  ghost function InWindow(key: string, resetAt: int): Hit -> bool {
    (h: Hit) => h.key == key && h.admitted && h.window.resetAt == resetAt
  }

  /** Admitted requests of the key in [lo, hi). */
  ghost function Admitted(log: seq<Hit>, key: string, lo: int, hi: int): nat {
    Count(log, In(key, lo, hi))
  }

  /** Admitted requests of the key in the half-open interval of length `len` from `lo`. */
  ghost function Sliding(log: seq<Hit>, key: string, lo: int, len: int): nat {
    Admitted(log, key, lo, lo + len)
  }

  /** Sweeps in [lo, hi) that evict a running window of the key. */
  function Evictions(cfg: Config, ops: seq<Op>, key: string, lo: int, hi: int): nat {
    if |ops| == 0 then 0
    else
      var init, last := ops[..|ops| - 1], ops[|ops| - 1];
      Evictions(cfg, init, key, lo, hi)
        + (if last.Tidy? && lo <= last.now < hi && Evicts(cfg, End(cfg, init), last.now, key) then 1 else 0)
  }

  lemma AppendHit(log: seq<Hit>, h: Hit, key: string, lo: int, hi: int)
    ensures Admitted(log + [h], key, lo, hi) == Admitted(log, key, lo, hi) + (if In(key, lo, hi)(h) then 1 else 0)
  {
    CountAppend(log, h, In(key, lo, hi));
  }
}
