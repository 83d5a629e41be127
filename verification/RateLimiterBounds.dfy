/** How fixed windows bound every sliding interval, with evictions, with the sweep on its timer, and
    under the cap. */
module RateLimiterBounds {
  import opened Prelude
  import opened RateLimiter
  import opened RateLimiterRuns

  // ----- what an interval has seen of a key

  /** The key's window, and for the interval of one window length from an instant on: its admitted
      requests, the evictions of its running window, and those evictions at the first instant. */
  datatype Tally = Tally(found: Option<Window>, admitted: nat, evictions: nat, early: nat)

  ghost function TallyOf(cfg: Config, ops: seq<Op>, key: string, a: int): Tally {
    Tally(Lookup(End(cfg, ops), key), Sliding(Log(cfg, ops), key, a, cfg.windowMs),
          Evictions(cfg, ops, key, a, a + cfg.windowMs), Evictions(cfg, ops, key, a, a + 1))
  }

  function Asked(cfg: Config, key: string, y: Tally, a: int, t: int): Tally {
    y.(found := Some(Counted(cfg, y.found, t)),
       admitted := y.admitted + (if Admits(cfg, key, y.found, t) && a <= t < a + cfg.windowMs then 1 else 0))
  }

  function Swept(cfg: Config, y: Tally, a: int, t: int, evicted: bool): Tally {
    y.(found := if evicted || Fresh(y.found, t) then None else y.found,
       evictions := y.evictions + (if evicted && a <= t < a + cfg.windowMs then 1 else 0),
       early := y.early + (if evicted && a <= t < a + 1 then 1 else 0))
  }

  lemma AskTally(cfg: Config, init: seq<Op>, all: seq<Op>, asked: string, key: string, a: int, t: int)
    requires cfg.maxOf(key) >= 1 && all == init + [Ask(asked, t)]
    ensures TallyOf(cfg, all, key, a)
         == if asked == key then Asked(cfg, key, TallyOf(cfg, init, key, a), a, t) else TallyOf(cfg, init, key, a)
  {
    assert all[..|all| - 1] == init;
    var es := End(cfg, init);
    AppendHit(Log(cfg, init), HitOf(cfg, es, asked, t), key, a, a + cfg.windowMs);
    LookupPut(es, asked, Counted(cfg, Lookup(es, asked), t), key);
  }

  lemma TidyTally(cfg: Config, init: seq<Op>, all: seq<Op>, key: string, a: int, t: int) returns (evicted: bool)
    requires all == init + [Tidy(t)]
    ensures TallyOf(cfg, all, key, a) == Swept(cfg, TallyOf(cfg, init, key, a), a, t, evicted)
    ensures evicted ==> !Fresh(TallyOf(cfg, init, key, a).found, t)
  {
    assert all[..|all| - 1] == init;
    EndDistinct(cfg, init);
    SweepLookup(cfg, End(cfg, init), t, key);
    evicted := Evicts(cfg, End(cfg, init), t, key);
  }

  // ----- the bounds of one interval

  lemma Quotas(max: int, e: nat)
    requires max >= 1
    ensures (e + 1) * max == e * max + max && e * max >= 0 && (e >= 1 ==> e * max >= max)
  {
  }

  predicate Opened(cfg: Config, found: Option<Window>, now: int) {
    found.Some? ==> found.value.count >= 1 && found.value.resetAt - cfg.windowMs <= now
  }

  /** While the interval lasts, the windows before the current one gave one short of `e + 1` quotas for
      `e` evictions, and the request that opened the current window lies before the interval if its
      start does. */
  predicate Bounded(cfg: Config, key: string, y: Tally, now: int, a: int) {
    var max, W, n, e := cfg.maxOf(key), cfg.windowMs, y.admitted, y.evictions;
    && n <= (e + 2) * max - 1
    && (now < a ==> n == 0)
    && (now < a + W ==>
          if Fresh(y.found, now) then n <= (e + 1) * max - 1
          else if a <= y.found.value.resetAt - W then n <= (e + 1) * max - 1 + Min(y.found.value.count, max)
          else n <= Min(y.found.value.count, max) - 1)
  }

  /** Until the first eviction at the first instant only one window can have been used, and after it
      every window starts inside the interval. */
  predicate EarlyBounded(cfg: Config, key: string, y: Tally, now: int, a: int) {
    var max, W, n, e := cfg.maxOf(key), cfg.windowMs, y.admitted, y.evictions;
    var current := if Fresh(y.found, now) then 0 else Min(y.found.value.count, max);
    && y.early <= e
    && (now <= a && y.early == 0 ==> n <= current)
    && (now < a ==> n == 0)
    && (y.early >= 1 ==>
          && a <= now && n <= (e + 1) * max
          && (now < a + W ==> n <= e * max + current && (Fresh(y.found, now) || a <= y.found.value.resetAt - W)))
  }

  predicate Holds(cfg: Config, key: string, y: Tally, now: int, a: int) {
    Opened(cfg, y.found, now) && Bounded(cfg, key, y, now, a) && EarlyBounded(cfg, key, y, now, a)
  }

  lemma TimePasses(cfg: Config, key: string, y: Tally, now: int, t: int, a: int)
    requires cfg.windowMs >= 1 && cfg.maxOf(key) >= 1 && now <= t && Holds(cfg, key, y, now, a)
    ensures Holds(cfg, key, y, t, a)
  {
    Quotas(cfg.maxOf(key), y.evictions);
    Quotas(cfg.maxOf(key), y.evictions + 1);
  }

  lemma RequestHolds(cfg: Config, key: string, y: Tally, t: int, a: int)
    requires cfg.windowMs >= 1 && cfg.maxOf(key) >= 1 && Holds(cfg, key, y, t, a)
    ensures Holds(cfg, key, Asked(cfg, key, y, a, t), t, a)
  {
    Quotas(cfg.maxOf(key), y.evictions);
    Quotas(cfg.maxOf(key), y.evictions + 1);
  }

  lemma SweepHolds(cfg: Config, key: string, y: Tally, t: int, a: int, evicted: bool)
    requires cfg.windowMs >= 1 && cfg.maxOf(key) >= 1 && Holds(cfg, key, y, t, a) && (evicted ==> !Fresh(y.found, t))
    ensures Holds(cfg, key, Swept(cfg, y, a, t, evicted), t, a)
  {
    Quotas(cfg.maxOf(key), y.evictions);
    Quotas(cfg.maxOf(key), y.evictions + 1);
    Quotas(cfg.maxOf(key), y.evictions + 2);
  }

  lemma {:induction false} RunHolds(cfg: Config, ops: seq<Op>, key: string, a: int, now: int)
    requires cfg.windowMs >= 1 && cfg.maxOf(key) >= 1
    requires Timed(ops) && (|ops| > 0 ==> ops[|ops| - 1].now <= now)
    ensures Holds(cfg, key, TallyOf(cfg, ops, key, a), now, a)
  {
    if |ops| > 0 {
      var init, last := ops[..|ops| - 1], ops[|ops| - 1];
      assert ops == init + [last];
      var y := TallyOf(cfg, init, key, a);
      RunHolds(cfg, init, key, a, last.now);
      match last {
        case Ask(asked, t) =>
          AskTally(cfg, init, ops, asked, key, a, t);
          RequestHolds(cfg, key, y, t, a);
        case Tidy(t) =>
          var evicted := TidyTally(cfg, init, ops, key, a, t);
          SweepHolds(cfg, key, y, t, a, evicted);
      }
      TimePasses(cfg, key, TallyOf(cfg, ops, key, a), last.now, now, a);
    }
  }

  /** In every run, over the cap or under it, an interval of one window length in which sweeps evict
      a running window of the key `e` times admits at most (e + 2) max - 1 of its requests, and at most
      (e + 1) max if one of these evictions comes at its first instant. */
  lemma EvictionsLoosenTheBound(cfg: Config, ops: seq<Op>, key: string, a: int)
    requires Timed(ops) && cfg.windowMs >= 1 && cfg.maxOf(key) >= 1
    ensures var y := TallyOf(cfg, ops, key, a);
      && y.admitted <= (y.evictions + 2) * cfg.maxOf(key) - 1
      && (y.early >= 1 ==> y.admitted <= (y.evictions + 1) * cfg.maxOf(key))
  {
    RunHolds(cfg, ops, key, a, if |ops| > 0 then ops[|ops| - 1].now else a);
  }

  // ----- sweeps on a timer

  const SWEEP_EVERY_MS := 60_000

  /** The sweep runs from a timer: two sweeps are at least its period apart. */
  ghost predicate OnTimer(ops: seq<Op>) {
    forall i, j :: 0 <= i < j < |ops| && ops[i].Tidy? && ops[j].Tidy? ==> ops[j].now - ops[i].now >= SWEEP_EVERY_MS
  }

  lemma {:induction false} EvictionsBefore(cfg: Config, ops: seq<Op>, key: string, lo: int, hi: int, mid: int)
    requires forall i :: 0 <= i < |ops| && ops[i].Tidy? ==> ops[i].now < mid
    ensures Evictions(cfg, ops, key, lo, hi) <= Evictions(cfg, ops, key, lo, mid)
    ensures mid <= lo ==> Evictions(cfg, ops, key, lo, hi) == 0
  {
    if |ops| > 0 { EvictionsBefore(cfg, ops[..|ops| - 1], key, lo, hi, mid); }
  }

  lemma {:induction false} EvictionsOnTimer(cfg: Config, ops: seq<Op>, key: string, lo: int, hi: int)
    requires OnTimer(ops) && lo < hi
    ensures Evictions(cfg, ops, key, lo, hi) <= (hi - lo - 1) / SWEEP_EVERY_MS + 1
    decreases |ops|
  {
    if |ops| > 0 {
      var init, last := ops[..|ops| - 1], ops[|ops| - 1];
      assert ops[|ops| - 1] == last;
      if last.Tidy? && lo <= last.now < hi {
        var mid := last.now - SWEEP_EVERY_MS + 1;
        EvictionsBefore(cfg, init, key, lo, hi, mid);
        if lo < mid {
          EvictionsOnTimer(cfg, init, key, lo, mid);
          assert (mid - lo - 1) / SWEEP_EVERY_MS + 1 == (last.now - lo) / SWEEP_EVERY_MS;
        }
      } else {
        EvictionsOnTimer(cfg, init, key, lo, hi);
      }
    }
  }

  lemma MoreQuotas(m: int, n: int, max: int)
    requires m <= n && max >= 1
    ensures m * max <= n * max
  {
  }

  lemma {:induction false} EvictionsSplit(cfg: Config, ops: seq<Op>, key: string, lo: int, mid: int, hi: int)
    requires lo <= mid <= hi
    ensures Evictions(cfg, ops, key, lo, hi) == Evictions(cfg, ops, key, lo, mid) + Evictions(cfg, ops, key, mid, hi)
  {
    if |ops| > 0 { EvictionsSplit(cfg, ops[..|ops| - 1], key, lo, mid, hi); }
  }

  /** The most requests of a key that one window length can admit while the sweep is on its timer. */
  function TimerBound(W: int, max: int): int
    requires W >= 1
  {
    var m := (W - 1) / 60_000;
    if (W - 1) % 60_000 == 0 then (m + 2) * max else (m + 3) * max - 1
  }

  /** Sweeps that just span the interval must begin at its first instant. */
  lemma SpanningSweeps(cfg: Config, ops: seq<Op>, key: string, a: int, W: int)
    requires OnTimer(ops) && W >= 1 && (W - 1) % SWEEP_EVERY_MS == 0
    requires Evictions(cfg, ops, key, a, a + W) == (W - 1) / SWEEP_EVERY_MS + 1
    ensures Evictions(cfg, ops, key, a, a + 1) >= 1
  {
    EvictionsSplit(cfg, ops, key, a, a + 1, a + W);
    if W == 1 {
      EvictionsSplit(cfg, ops, key, a + 1, a + 1, a + 1);
    } else {
      EvictionsOnTimer(cfg, ops, key, a + 1, a + W);
    }
  }

  lemma WithinTimerBound(n: nat, e: nat, W: int, max: int)
    requires W >= 1 && max >= 1 && e <= (W - 1) / SWEEP_EVERY_MS + 1 && n <= (e + 2) * max - 1
    requires (W - 1) % SWEEP_EVERY_MS == 0 && e == (W - 1) / SWEEP_EVERY_MS + 1 ==> n <= (e + 1) * max
    ensures n <= TimerBound(W, max)
  {
    var m := (W - 1) / SWEEP_EVERY_MS;
    if e <= m {
      MoreQuotas(e + 2, m + 2, max);
      MoreQuotas(m + 2, m + 3, max);
    }
  }

  /** With the sweep on its timer, whatever the cap, any window length W admits at most
      (3 + (W - 1) / 60 000) max - 1 requests of a key, and if 60 000 divides W - 1 at most
      (2 + (W - 1) / 60 000) max: with the default window of a minute, 3 max - 1. */
  lemma TimerBoundsSlidingWindows(cfg: Config, ops: seq<Op>, key: string, a: int)
    requires Timed(ops) && OnTimer(ops) && cfg.windowMs >= 1 && cfg.maxOf(key) >= 1
    ensures Sliding(Log(cfg, ops), key, a, cfg.windowMs) <= TimerBound(cfg.windowMs, cfg.maxOf(key))
  {
    var W, y := cfg.windowMs, TallyOf(cfg, ops, key, a);
    EvictionsOnTimer(cfg, ops, key, a, a + W);
    EvictionsLoosenTheBound(cfg, ops, key, a);
    if (W - 1) % SWEEP_EVERY_MS == 0 && y.evictions == (W - 1) / SWEEP_EVERY_MS + 1 {
      SpanningSweeps(cfg, ops, key, a, W);
    }
    WithinTimerBound(y.admitted, y.evictions, W, cfg.maxOf(key));
  }

  // ----- windows under the cap

  /** Every hit of the key lies in its window; earlier windows end before the current one starts. */
  ghost predicate Placed(W: int, log: seq<Hit>, key: string, found: Option<Window>) {
    forall k :: 0 <= k < |log| && log[k].key == key ==>
      && found.Some?
      && log[k].window.resetAt - W <= log[k].now < log[k].window.resetAt
      && (log[k].window.resetAt == found.value.resetAt || log[k].window.resetAt <= found.value.resetAt - W)
  }

  ghost predicate WindowsApart(W: int, log: seq<Hit>, key: string) {
    forall i, j :: 0 <= i < j < |log| && log[i].key == key && log[j].key == key ==>
      log[i].window.resetAt == log[j].window.resetAt || log[i].window.resetAt <= log[j].window.resetAt - W
  }

  ghost predicate Quota(max: int, log: seq<Hit>, key: string, found: Option<Window>) {
    && (found.Some? ==> 1 <= found.value.count && Count(log, InWindow(key, found.value.resetAt)) <= found.value.count)
    && forall r :: Count(log, InWindow(key, r)) <= max
  }

  ghost predicate History(cfg: Config, log: seq<Hit>, key: string, found: Option<Window>, now: int) {
    && Opened(cfg, found, now) && Placed(cfg.windowMs, log, key, found)
    && WindowsApart(cfg.windowMs, log, key) && Quota(cfg.maxOf(key), log, key, found)
  }

  lemma ForeignHit(cfg: Config, log: seq<Hit>, h: Hit, key: string, found: Option<Window>, now: int)
    requires History(cfg, log, key, found, now) && h.key != key && now <= h.now
    ensures History(cfg, log + [h], key, found, h.now)
  {
    forall r ensures Count(log + [h], InWindow(key, r)) == Count(log, InWindow(key, r)) { CountAppend(log, h, InWindow(key, r)); }
  }

  lemma QuotaStep(cfg: Config, log: seq<Hit>, key: string, found: Option<Window>, t: int, h: Hit)
    requires cfg.windowMs >= 1 && cfg.maxOf(key) >= 1
    requires Quota(cfg.maxOf(key), log, key, found) && Placed(cfg.windowMs, log, key, found)
    requires h == Hit(key, t, Admits(cfg, key, found, t), Counted(cfg, found, t))
    ensures Quota(cfg.maxOf(key), log + [h], key, Some(Counted(cfg, found, t)))
  {
    var max := cfg.maxOf(key);
    forall r ensures Count(log + [h], InWindow(key, r)) <= max
                  && (r == h.window.resetAt ==> Count(log + [h], InWindow(key, r)) <= Counted(cfg, found, t).count)
    {
      CountAppend(log, h, InWindow(key, r));
      if Fresh(found, t) && r == h.window.resetAt {
        CountZero(log, InWindow(key, r));
      }
    }
  }

  lemma HistoryStep(cfg: Config, log: seq<Hit>, key: string, found: Option<Window>, now: int, t: int)
    requires cfg.windowMs >= 1 && cfg.maxOf(key) >= 1
    requires History(cfg, log, key, found, now) && now <= t
    ensures var h := Hit(key, t, Admits(cfg, key, found, t), Counted(cfg, found, t));
            History(cfg, log + [h], key, Some(Counted(cfg, found, t)), t)
  {
    QuotaStep(cfg, log, key, found, t, Hit(key, t, Admits(cfg, key, found, t), Counted(cfg, found, t)));
  }

  ghost predicate RunsWell(cfg: Config, ops: seq<Op>, key: string, now: int) {
    History(cfg, Log(cfg, ops), key, Lookup(End(cfg, ops), key), now)
  }

  lemma OwnHistory(cfg: Config, init: seq<Op>, all: seq<Op>, key: string, t: int)
    requires cfg.windowMs >= 1 && cfg.maxOf(key) >= 1 && all == init + [Ask(key, t)] && RunsWell(cfg, init, key, t)
    ensures RunsWell(cfg, all, key, t)
  {
    assert all[..|all| - 1] == init;
    var es := End(cfg, init);
    LookupPut(es, key, Counted(cfg, Lookup(es, key), t), key);
    HistoryStep(cfg, Log(cfg, init), key, Lookup(es, key), t, t);
  }

  lemma ForeignHistory(cfg: Config, init: seq<Op>, all: seq<Op>, asked: string, key: string, t: int)
    requires cfg.maxOf(key) >= 1 && asked != key && all == init + [Ask(asked, t)] && RunsWell(cfg, init, key, t)
    ensures RunsWell(cfg, all, key, t)
  {
    assert all[..|all| - 1] == init;
    var es := End(cfg, init);
    LookupPut(es, asked, Counted(cfg, Lookup(es, asked), t), key);
    ForeignHit(cfg, Log(cfg, init), HitOf(cfg, es, asked, t), key, Lookup(es, key), t);
  }

  lemma HistoryLater(cfg: Config, log: seq<Hit>, key: string, found: Option<Window>, now: int, t: int)
    requires now <= t
    ensures History(cfg, log, key, found, now) ==> History(cfg, log, key, found, t)
  {
  }

  lemma {:induction false} RunHistory(cfg: Config, ops: seq<Op>, key: string, now: int)
    requires cfg.windowMs >= 1 && cfg.maxOf(key) >= 1
    requires Timed(ops) && (forall i :: 0 <= i < |ops| ==> ops[i].Ask?) && (|ops| > 0 ==> ops[|ops| - 1].now <= now)
    ensures RunsWell(cfg, ops, key, now)
  {
    if |ops| > 0 {
      var init, last := ops[..|ops| - 1], ops[|ops| - 1];
      assert ops == init + [last];
      RunHistory(cfg, init, key, last.now);
      if last.key == key {
        OwnHistory(cfg, init, ops, key, last.now);
      } else {
        ForeignHistory(cfg, init, ops, last.key, key, last.now);
      }
      HistoryLater(cfg, Log(cfg, ops), key, Lookup(End(cfg, ops), key), last.now, now);
    }
  }

  lemma {:induction false} UnderCapEvictsNothing(cfg: Config, ops: seq<Op>, key: string, lo: int, hi: int, n: nat)
    requires UnderCap(cfg, ops) && n <= |ops|
    ensures Evictions(cfg, ops[..n], key, lo, hi) == 0
  {
    if n > 0 {
      UnderCapEvictsNothing(cfg, ops, key, lo, hi, n - 1);
      assert ops[..n][..n - 1] == ops[..n - 1];
    }
  }

  lemma NoEvictions(y: Tally, max: int)
    requires y.evictions == 0 && y.admitted <= (y.evictions + 2) * max - 1
    ensures y.admitted <= 2 * max - 1
  {
  }

  lemma UnderCapSliding(cfg: Config, ops: seq<Op>, key: string, a: int)
    requires Timed(ops) && UnderCap(cfg, ops) && cfg.windowMs >= 1 && cfg.maxOf(key) >= 1
    ensures Sliding(Log(cfg, ops), key, a, cfg.windowMs) <= 2 * cfg.maxOf(key) - 1
  {
    UnderCapEvictsNothing(cfg, ops, key, a, a + cfg.windowMs, |ops|);
    assert ops[..|ops|] == ops;
    EvictionsLoosenTheBound(cfg, ops, key, a);
    NoEvictions(TallyOf(cfg, ops, key, a), cfg.maxOf(key));
  }

  /** In every run under the cap, swept or not: windows of a key never overlap, each admits at most
      the limit, and any half-open interval of one window length admits at most 2 max - 1. */
  lemma FixedWindowsBoundSlidingOnes(cfg: Config, ops: seq<Op>, key: string)
    requires Timed(ops) && UnderCap(cfg, ops) && cfg.windowMs >= 1 && cfg.maxOf(key) >= 1
    ensures var log, max, W := Log(cfg, ops), cfg.maxOf(key), cfg.windowMs;
      && WindowsApart(W, log, key)
      && (forall r :: Count(log, InWindow(key, r)) <= max)
      && (forall a :: Sliding(log, key, a, W) <= 2 * max - 1)
  {
    SweepIsInvisible(cfg, ops);
    RequestsTimed(ops);
    var asks := Requests(ops);
    RunHistory(cfg, asks, key, if |asks| > 0 then asks[|asks| - 1].now else 0);
    forall a ensures Sliding(Log(cfg, ops), key, a, cfg.windowMs) <= 2 * cfg.maxOf(key) - 1 {
      UnderCapSliding(cfg, ops, key, a);
    }
  }
}
