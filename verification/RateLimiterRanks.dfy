/** Which requests the rate limiter lets through, by their rank in their window. */
module RateLimiterRanks {
  import opened Prelude
  import opened RateLimiter
  import opened RateLimiterRuns
  import opened RateLimiterBounds

  /** Requests of the key, let through or not, in the window that ends at `resetAt`. */
  ghost function InOneWindow(key: string, resetAt: int): Hit -> bool {
    (h: Hit) => h.key == key && h.window.resetAt == resetAt
  }

  ghost predicate OnlyAsks(ops: seq<Op>) {
    forall i :: 0 <= i < |ops| ==> ops[i].Ask?
  }

  /** A request of the key that came a window length before this end, and so opened the window. */
  ghost predicate OpenedBy(W: int, log: seq<Hit>, key: string, resetAt: int) {
    exists j :: 0 <= j < |log| && log[j].key == key && log[j].window.resetAt == resetAt && log[j].now + W == resetAt
  }

  /** The counter of a window is the number of its requests so far, and its first one opened it. */
  ghost predicate CountedRight(W: int, log: seq<Hit>, key: string, found: Option<Window>) {
    found.Some? ==>
      Count(log, InOneWindow(key, found.value.resetAt)) == found.value.count && OpenedBy(W, log, key, found.value.resetAt)
  }

  lemma OpenedStays(W: int, log: seq<Hit>, h: Hit, key: string, resetAt: int)
    requires OpenedBy(W, log, key, resetAt)
    ensures OpenedBy(W, log + [h], key, resetAt)
  {
    var j :| 0 <= j < |log| && log[j].key == key && log[j].window.resetAt == resetAt && log[j].now + W == resetAt;
    assert (log + [h])[j] == log[j];
  }

  /** One more request of the key: counted up in its window, or first in a new one. */
  lemma OwnHitCounts(cfg: Config, log: seq<Hit>, key: string, found: Option<Window>, t: int, h: Hit)
    requires cfg.windowMs >= 1 && Placed(cfg.windowMs, log, key, found) && CountedRight(cfg.windowMs, log, key, found)
    requires h == Hit(key, t, Admits(cfg, key, found, t), Counted(cfg, found, t))
    ensures CountedRight(cfg.windowMs, log + [h], key, Some(h.window))
  {
    var r := h.window.resetAt;
    CountAppend(log, h, InOneWindow(key, r));
    if Fresh(found, t) {
      CountZero(log, InOneWindow(key, r));
      assert (log + [h])[|log|] == h;
    } else {
      OpenedStays(cfg.windowMs, log, h, key, r);
    }
  }

  lemma ForeignHitCounts(W: int, log: seq<Hit>, key: string, found: Option<Window>, h: Hit)
    requires CountedRight(W, log, key, found) && h.key != key
    ensures CountedRight(W, log + [h], key, found)
  {
    if found.Some? {
      CountAppend(log, h, InOneWindow(key, found.value.resetAt));
      OpenedStays(W, log, h, key, found.value.resetAt);
    }
  }

  ghost predicate RunCounts(cfg: Config, ops: seq<Op>, key: string) {
    CountedRight(cfg.windowMs, Log(cfg, ops), key, Lookup(End(cfg, ops), key))
  }

  lemma AskCounts(cfg: Config, init: seq<Op>, all: seq<Op>, asked: string, key: string, t: int)
    requires cfg.windowMs >= 1 && cfg.maxOf(key) >= 1 && all == init + [Ask(asked, t)]
    requires RunsWell(cfg, init, key, t) && RunCounts(cfg, init, key)
    ensures RunCounts(cfg, all, key)
  {
    assert all[..|all| - 1] == init;
    var es, log := End(cfg, init), Log(cfg, init);
    LookupPut(es, asked, Counted(cfg, Lookup(es, asked), t), key);
    if asked == key {
      OwnHitCounts(cfg, log, key, Lookup(es, key), t, HitOf(cfg, es, key, t));
    } else {
      ForeignHitCounts(cfg.windowMs, log, key, Lookup(es, key), HitOf(cfg, es, asked, t));
    }
  }

  lemma {:induction false} RunsCount(cfg: Config, ops: seq<Op>, key: string)
    requires cfg.windowMs >= 1 && cfg.maxOf(key) >= 1 && Timed(ops) && OnlyAsks(ops)
    ensures RunCounts(cfg, ops, key)
  {
    if |ops| > 0 {
      var init, last := ops[..|ops| - 1], ops[|ops| - 1];
      assert ops == init + [last] && OnlyAsks(init);
      RunsCount(cfg, init, key);
      RunHistory(cfg, init, key, last.now);
      AskCounts(cfg, init, ops, last.key, key, last.now);
    }
  }

  /** Request number k of an unswept run, and the log before it. */
  lemma {:induction false} LogEntry(cfg: Config, ops: seq<Op>, k: nat)
    requires OnlyAsks(ops) && k < |ops|
    ensures |Log(cfg, ops)| == |ops| && Log(cfg, ops)[..k] == Log(cfg, ops[..k])
    ensures Log(cfg, ops)[k] == HitOf(cfg, End(cfg, ops[..k]), ops[k].key, ops[k].now)
  {
    var init := ops[..|ops| - 1];
    assert OnlyAsks(init);
    if k < |init| {
      LogEntry(cfg, init, k);
      assert init[..k] == ops[..k] && init[k] == ops[k];
    } else {
      LogLength(cfg, init);
      assert ops[..k] == init;
    }
  }

  lemma {:induction false} LogLength(cfg: Config, ops: seq<Op>)
    requires OnlyAsks(ops)
    ensures |Log(cfg, ops)| == |ops|
  {
    if |ops| > 0 { LogLength(cfg, ops[..|ops| - 1]); }
  }

  /** A request of a limited key, against the log before it. */
  lemma RankAt(cfg: Config, ops: seq<Op>, k: nat)
    requires cfg.windowMs >= 1 && Timed(ops) && OnlyAsks(ops) && k < |ops| && cfg.maxOf(ops[k].key) >= 1
    ensures var log := Log(cfg, ops);
      && |log| == |ops|
      && CountedRight(cfg.windowMs, log[..k] + [log[k]], ops[k].key, Some(log[k].window))
      && (log[k].admitted <==> log[k].window.count <= cfg.maxOf(ops[k].key))
      && log[k].now < log[k].window.resetAt
  {
    var before, key, t := ops[..k], ops[k].key, ops[k].now;
    LogEntry(cfg, ops, k);
    assert OnlyAsks(before) && Timed(before) && (k > 0 ==> before[k - 1].now <= t);
    RunsCount(cfg, before, key);
    RunHistory(cfg, before, key, t);
    OwnHitCounts(cfg, Log(cfg, before), key, Lookup(End(cfg, before), key), t, Log(cfg, ops)[k]);
  }

  /** Under the cap, swept or not, a request of an unlimited key is let through, and one of a limited key
      exactly if it is among the first `max` of its window, which a request opened one window length before
      the window's end. */
  lemma RankDecides(cfg: Config, ops: seq<Op>, k: nat)
    requires Timed(ops) && UnderCap(cfg, ops) && cfg.windowMs >= 1 && k < |Requests(ops)|
    ensures var log, key, now := Log(cfg, ops), Requests(ops)[k].key, Requests(ops)[k].now;
      && |log| == |Requests(ops)| && log[k].key == key && log[k].now == now
      && (cfg.maxOf(key) <= 0 ==> log[k].admitted)
      && (cfg.maxOf(key) >= 1 ==>
            var r := log[k].window.resetAt;
            && now < r && OpenedBy(cfg.windowMs, log[..k] + [log[k]], key, r)
            && (log[k].admitted <==> Count(log[..k] + [log[k]], InOneWindow(key, r)) <= cfg.maxOf(key)))
  {
    SweepIsInvisible(cfg, ops);
    RequestsTimed(ops);
    var asks := Requests(ops);
    LogEntry(cfg, asks, k);
    if cfg.maxOf(asks[k].key) >= 1 { RankAt(cfg, asks, k); }
  }
}
