/** Runs that reach the rate limiter's bounds, for every limit, cap and window length. */
module RateLimiterEvictions {
  import opened Prelude
  import opened RateLimiter
  import opened RateLimiterRuns
  import opened RateLimiterBounds

  // ----- building runs

  /** A timed run up to `t` whose sweeps allow the next one at `next`. */
  ghost predicate Orderly(ops: seq<Op>, t: int, next: int) {
    && Timed(ops) && OnTimer(ops) && (forall i :: 0 <= i < |ops| ==> ops[i].now <= t)
    && (forall i :: 0 <= i < |ops| && ops[i].Tidy? ==> ops[i].now + SWEEP_EVERY_MS <= next)
  }

  ghost predicate Unswept(ops: seq<Op>) {
    forall i :: 0 <= i < |ops| ==> ops[i].Ask?
  }

  /** The map holds the key and some of these others, and nobody else. */
  ghost predicate Among(es: seq<Entry>, key: string, others: seq<string>) {
    forall i :: 0 <= i < |es| ==> es[i].key == key || es[i].key in others
  }

  ghost predicate Stage(cfg: Config, ops: seq<Op>, key: string, others: seq<string>, t: int, next: int) {
    Orderly(ops, t, next) && Among(End(cfg, ops), key, others)
  }

  /** After `ops` the key's window is `w`, and `n` of its requests in [lo, hi) were admitted. */
  ghost predicate Reaches(cfg: Config, ops: seq<Op>, key: string, w: Option<Window>, lo: int, hi: int, n: nat) {
    Lookup(End(cfg, ops), key) == w && Admitted(Log(cfg, ops), key, lo, hi) == n
  }

  lemma AskIsOrderly(ops: seq<Op>, key: string, t: int, next: int)
    requires Orderly(ops, t, next)
    ensures Orderly(ops + [Ask(key, t)], t, next)
  {
  }

  lemma AskKeepsAmong(cfg: Config, ops: seq<Op>, all: seq<Op>, key: string, others: seq<string>, t: int)
    requires all == ops + [Ask(key, t)] && Among(End(cfg, ops), key, others)
    ensures Among(End(cfg, all), key, others)
  {
    assert all[..|all| - 1] == ops;
    var es := End(cfg, ops);
    EndDistinct(cfg, ops);
    PutDistinct(es, key, Counted(cfg, Lookup(es, key), t));
    forall i | 0 <= i < |End(cfg, all)| ensures End(cfg, all)[i].key == key || End(cfg, all)[i].key in others {
      assert End(cfg, all)[i] in End(cfg, all);
    }
  }

  lemma ReachesOneMore(cfg: Config, ops: seq<Op>, all: seq<Op>, key: string, w: Option<Window>, t: int, lo: int, hi: int, n: nat)
    requires cfg.maxOf(key) >= 1 && all == ops + [Ask(key, t)]
    requires Reaches(cfg, ops, key, w, lo, hi, n) && (Fresh(w, t) || w.value.count < cfg.maxOf(key))
    ensures Reaches(cfg, all, key, Some(Counted(cfg, w, t)), lo, hi, if lo <= t < hi then n + 1 else n)
  {
    assert all[..|all| - 1] == ops;
    LookupPut(End(cfg, ops), key, Counted(cfg, w, t), key);
    AppendHit(Log(cfg, ops), HitOf(cfg, End(cfg, ops), key, t), key, lo, hi);
  }

  /** One more request into a fresh window, or into a running one with room. */
  lemma ThenAsk(cfg: Config, ops: seq<Op>, key: string, others: seq<string>, w: Option<Window>, t: int, next: int, lo: int, hi: int, n: nat)
    returns (all: seq<Op>)
    requires cfg.maxOf(key) >= 1 && Stage(cfg, ops, key, others, t, next)
    requires Reaches(cfg, ops, key, w, lo, hi, n) && (Fresh(w, t) || w.value.count < cfg.maxOf(key))
    ensures Stage(cfg, all, key, others, t, next) && (Unswept(ops) ==> Unswept(all))
    ensures Reaches(cfg, all, key, Some(Counted(cfg, w, t)), lo, hi, if lo <= t < hi then n + 1 else n)
  {
    all := ops + [Ask(key, t)];
    AskIsOrderly(ops, key, t, next);
    AskKeepsAmong(cfg, ops, all, key, others, t);
    ReachesOneMore(cfg, ops, all, key, w, t, lo, hi, n);
  }

  /** The window after `k` requests into a fresh one (`base` zero) or into one that stands at `base`. */
  function Risen(w: Option<Window>, base: nat, resetAt: int, k: nat): Option<Window> {
    if base + k == 0 then w else Some(Window(base + k, resetAt))
  }

  predicate Starts(cfg: Config, w: Option<Window>, base: nat, resetAt: int, t: int) {
    t < resetAt && if base == 0 then Fresh(w, t) && resetAt == t + cfg.windowMs else w == Some(Window(base, resetAt))
  }

  lemma RisesByOne(cfg: Config, w: Option<Window>, base: nat, resetAt: int, t: int, k: nat)
    requires Starts(cfg, w, base, resetAt, t) && k >= 1
    ensures var v := Risen(w, base, resetAt, k - 1);
      Some(Counted(cfg, v, t)) == Risen(w, base, resetAt, k) && (Fresh(v, t) || v.value.count == base + k - 1)
  {
  }

  /** A burst into a window with room for all of it. */
  lemma {:induction false} ThenBurst(cfg: Config, ops: seq<Op>, key: string, others: seq<string>, w: Option<Window>, base: nat, resetAt: int,
                                     t: int, next: int, k: nat, lo: int, hi: int, n: nat)
    returns (all: seq<Op>)
    requires cfg.maxOf(key) >= 1 && base + k <= cfg.maxOf(key) && lo <= t < hi && Stage(cfg, ops, key, others, t, next)
    requires Reaches(cfg, ops, key, w, lo, hi, n) && Starts(cfg, w, base, resetAt, t)
    ensures Stage(cfg, all, key, others, t, next) && (Unswept(ops) ==> Unswept(all))
    ensures Reaches(cfg, all, key, Risen(w, base, resetAt, k), lo, hi, n + k)
  {
    all := ops;
    if k > 0 {
      var prev := ThenBurst(cfg, ops, key, others, w, base, resetAt, t, next, k - 1, lo, hi, n);
      RisesByOne(cfg, w, base, resetAt, t, k);
      all := ThenAsk(cfg, prev, key, others, Risen(w, base, resetAt, k - 1), t, next, lo, hi, n + k - 1);
    }
  }

  lemma Later(cfg: Config, ops: seq<Op>, key: string, others: seq<string>, t: int, next: int, t': int, next': int)
    requires Stage(cfg, ops, key, others, t, next) && t <= t' && next <= next'
    ensures Stage(cfg, ops, key, others, t', next')
  {
  }

  // ----- the bound under the cap is attained

  /** One request opens a window, the rest of its quota comes at its end, a full quota follows. */
  lemma Straddle(cfg: Config, key: string, lo: int, hi: int) returns (ops: seq<Op>)
    requires cfg.windowMs >= 2 && cfg.maxOf(key) >= 1
    requires 0 < lo <= cfg.windowMs - 1 && cfg.windowMs < hi
    ensures Stage(cfg, ops, key, [], cfg.windowMs, cfg.windowMs) && Unswept(ops)
    ensures var max, W := cfg.maxOf(key), cfg.windowMs; Reaches(cfg, ops, key, Some(Window(max, W + W)), lo, hi, 2 * max - 1)
  {
    var max, W := cfg.maxOf(key), cfg.windowMs;
    assert Reaches(cfg, [], key, None, lo, hi, 0) && Stage(cfg, [], key, [], 0, W);
    ops := ThenAsk(cfg, [], key, [], None, 0, W, lo, hi, 0);
    Later(cfg, ops, key, [], 0, W, W - 1, W);
    ops := ThenBurst(cfg, ops, key, [], Some(Window(1, W)), 1, W, W - 1, W, max - 1, lo, hi, 0);
    Later(cfg, ops, key, [], W - 1, W, W, W);
    ops := ThenBurst(cfg, ops, key, [], Some(Window(max, W)), 0, W + W, W, W, max, lo, hi, max - 1);
  }

  /** For every limit and every window of at least two milliseconds some run admits exactly
      2 max - 1 requests within one window length. */
  lemma SlidingBoundIsAttained(cfg: Config, key: string) returns (ops: seq<Op>)
    requires cfg.windowMs >= 2 && cfg.maxOf(key) >= 1
    ensures Timed(ops) && UnderCap(cfg, ops)
    ensures Sliding(Log(cfg, ops), key, cfg.windowMs - 1, cfg.windowMs) == 2 * cfg.maxOf(key) - 1
  {
    ops := Straddle(cfg, key, cfg.windowMs - 1, cfg.windowMs - 1 + cfg.windowMs);
  }

  // ----- each eviction costs one more quota, whatever the cap

  function CrowdEntries(others: seq<string>, resetAt: int): seq<Entry> {
    seq(|others|, i requires 0 <= i < |others| => Entry(others[i], Window(1, resetAt)))
  }

  ghost predicate Strangers(cfg: Config, key: string, others: seq<string>) {
    && (forall i :: 0 <= i < |others| ==> others[i] != key && cfg.maxOf(others[i]) >= 1)
    && (forall i, j :: 0 <= i < j < |others| ==> others[i] != others[j])
  }

  /** A newcomer gets a window of its own at the end of the line. */
  lemma NewEntry(cfg: Config, es: seq<Entry>, other: string, t: int)
    requires cfg.maxOf(other) >= 1 && forall i :: 0 <= i < |es| ==> es[i].key != other
    ensures AfterRequest(cfg, es, other, t) == es + [Entry(other, Window(1, t + cfg.windowMs))]
  {
    LookupMissing(es, other);
    PutAt(es, |es|, other, Window(1, t + cfg.windowMs));
  }

  lemma ReachesUnmoved(cfg: Config, ops: seq<Op>, all: seq<Op>, key: string, w: Option<Window>, other: string, t: int, lo: int, hi: int, n: nat)
    requires all == ops + [Ask(other, t)] && other != key && Reaches(cfg, ops, key, w, lo, hi, n)
    ensures Reaches(cfg, all, key, w, lo, hi, n) && End(cfg, all) == AfterRequest(cfg, End(cfg, ops), other, t)
  {
    assert all[..|all| - 1] == ops;
    LookupPut(End(cfg, ops), other, Counted(cfg, Lookup(End(cfg, ops), other), t), key);
    AppendHit(Log(cfg, ops), HitOf(cfg, End(cfg, ops), other, t), key, lo, hi);
  }

  lemma CrowdGrows(es: seq<Entry>, others: seq<string>, resetAt: int)
    requires |others| > 0
    ensures es + CrowdEntries(others, resetAt)
         == es + CrowdEntries(others[..|others| - 1], resetAt) + [Entry(others[|others| - 1], Window(1, resetAt))]
  {
  }

  ghost predicate Disjoint(a: seq<string>, b: seq<string>) {
    forall x :: x in a ==> x !in b
  }

  /** Newcomers line up behind everybody else, and leave what the key was admitted as it was. */
  lemma {:induction false} ThenCrowd(cfg: Config, ops: seq<Op>, key: string, w: Window, es: seq<Entry>, others: seq<string>,
                                     t: int, next: int, lo: int, hi: int, n: nat)
    returns (all: seq<Op>)
    requires Strangers(cfg, key, others) && Orderly(ops, t, next) && End(cfg, ops) == es
    requires (forall i :: 0 <= i < |es| ==> es[i].key !in others) && Reaches(cfg, ops, key, Some(w), lo, hi, n)
    ensures Orderly(all, t, next) && Reaches(cfg, all, key, Some(w), lo, hi, n)
    ensures End(cfg, all) == es + CrowdEntries(others, t + cfg.windowMs)
    decreases |others|
  {
    all := ops;
    if |others| > 0 {
      var front, last := others[..|others| - 1], others[|others| - 1];
      var prev := ThenCrowd(cfg, ops, key, w, es, front, t, next, lo, hi, n);
      all := prev + [Ask(last, t)];
      AskIsOrderly(prev, last, t, next);
      NewEntry(cfg, End(cfg, prev), last, t);
      ReachesUnmoved(cfg, prev, all, key, Some(w), last, t, lo, hi, n);
      CrowdGrows(es, others, t + cfg.windowMs);
    }
  }

  lemma {:induction false} PruneLive(es: seq<Entry>, now: int)
    requires forall i :: 0 <= i < |es| ==> !Expired(es[i].window, now)
    ensures Prune(es, now) == es
  {
    if |es| > 0 { PruneLive(es[1..], now); }
  }

  ghost predicate EndsIn(es: seq<Entry>, crowd: seq<Entry>) {
    |crowd| <= |es| && es[|es| - |crowd|..] == crowd
  }

  lemma EndsInLonger(e: Entry, es: seq<Entry>, crowd: seq<Entry>)
    requires EndsIn(es, crowd)
    ensures EndsIn([e] + es, crowd)
  {
    assert ([e] + es)[1 + |es| - |crowd|..] == es[|es| - |crowd|..];
  }

  lemma {:induction false} CrowdSurvives(es: seq<Entry>, crowd: seq<Entry>, now: int)
    requires EndsIn(es, crowd) && forall i :: 0 <= i < |crowd| ==> !Expired(crowd[i].window, now)
    ensures EndsIn(Prune(es, now), crowd)
    decreases |es|
  {
    if |es| == |crowd| {
      assert es == crowd;
      PruneLive(es, now);
    } else {
      assert es[1..][|es| - 1 - |crowd|..] == es[|es| - |crowd|..];
      CrowdSurvives(es[1..], crowd, now);
      EndsInLonger(es[0], Prune(es[1..], now), crowd);
    }
  }

  /** A sweep that finds a running window and `cap` newer ones keeps just those newer ones. */
  lemma OnlyCrowdStays(cfg: Config, es: seq<Entry>, crowd: seq<Entry>, key: string, t: int)
    requires |crowd| == Max(0, cfg.cap) && EndsIn(es, crowd) && Distinct(es) && !Fresh(Lookup(es, key), t)
    requires forall i :: 0 <= i < |crowd| ==> crowd[i].key != key && !Expired(crowd[i].window, t)
    ensures AfterSweep(cfg, es, t) == crowd
  {
    var live := Prune(es, t);
    CrowdSurvives(es, crowd, t);
    assert live[0..] == live;
    PruneLookup(es, t, key);
    LookupMissing(crowd, key);
    assert live != crowd;
  }

  lemma SweepIsOrderly(ops: seq<Op>, t: int)
    requires Orderly(ops, t, t)
    ensures Orderly(ops + [Tidy(t)], t, t + SWEEP_EVERY_MS)
  {
  }

  /** A sweep that leaves only the newcomers. */
  lemma ThenSweep(cfg: Config, ops: seq<Op>, key: string, w: Window, es: seq<Entry>, others: seq<string>, t: int, lo: int, hi: int, n: nat)
    returns (all: seq<Op>)
    requires Orderly(ops, t, t) && |others| == Max(0, cfg.cap) && Strangers(cfg, key, others) && cfg.windowMs >= 1
    requires End(cfg, ops) == es + CrowdEntries(others, t + cfg.windowMs)
    requires !Expired(w, t) && Reaches(cfg, ops, key, Some(w), lo, hi, n)
    ensures Stage(cfg, all, key, others, t, t + SWEEP_EVERY_MS) && Reaches(cfg, all, key, None, lo, hi, n)
  {
    var crowd := CrowdEntries(others, t + cfg.windowMs);
    all := ops + [Tidy(t)];
    assert all[..|all| - 1] == ops;
    SweepIsOrderly(ops, t);
    EndDistinct(cfg, ops);
    assert EndsIn(End(cfg, ops), crowd);
    OnlyCrowdStays(cfg, End(cfg, ops), crowd, key, t);
    LookupMissing(crowd, key);
  }

  /** Newcomers, a sweep and a full quota again, all at one instant. */
  lemma Round(cfg: Config, ops: seq<Op>, key: string, prior: seq<string>, w: Window, others: seq<string>, t: int, lo: int, hi: int, n: nat)
    returns (all: seq<Op>)
    requires cfg.maxOf(key) >= 1 && cfg.windowMs >= 1 && lo <= t < hi && Stage(cfg, ops, key, prior, t, t)
    requires |others| == Max(0, cfg.cap) && Strangers(cfg, key, others) && Disjoint(prior, others)
    requires !Expired(w, t) && Reaches(cfg, ops, key, Some(w), lo, hi, n)
    ensures Stage(cfg, all, key, others, t, t + SWEEP_EVERY_MS)
    ensures Reaches(cfg, all, key, Some(Window(cfg.maxOf(key), t + cfg.windowMs)), lo, hi, n + cfg.maxOf(key))
  {
    var es := End(cfg, ops);
    all := ThenCrowd(cfg, ops, key, w, es, others, t, t, lo, hi, n);
    all := ThenSweep(cfg, all, key, w, es, others, t, lo, hi, n);
    all := ThenBurst(cfg, all, key, others, None, 0, t + cfg.windowMs, t, t + SWEEP_EVERY_MS, cfg.maxOf(key), lo, hi, n);
  }

  /** Enough newcomers for each of a number of sweeps. */
  ghost predicate Lineup(cfg: Config, key: string, crowds: seq<seq<string>>) {
    && (forall i :: 0 <= i < |crowds| ==> |crowds[i]| == Max(0, cfg.cap) && Strangers(cfg, key, crowds[i]))
    && (forall i :: 0 < i < |crowds| ==> Disjoint(crowds[i - 1], crowds[i]))
  }

  lemma QuotasAdd(n: int, k: int, max: int)
    ensures n + max + k * max == n + (k + 1) * max
  {
  }

  lemma TwoMoreQuotas(k: int, max: int)
    ensures 2 * max - 1 + k * max == (k + 2) * max - 1
  {
  }

  /** A round at every tick of the timer. */
  lemma {:induction false} Rounds(cfg: Config, ops: seq<Op>, key: string, prior: seq<string>, w: Window, crowds: seq<seq<string>>,
                                  t: int, lo: int, hi: int, n: nat)
    returns (all: seq<Op>)
    requires cfg.maxOf(key) >= 1 && cfg.windowMs >= 1 && lo <= t && Stage(cfg, ops, key, prior, t, t)
    requires Lineup(cfg, key, crowds) && (|crowds| > 0 ==> Disjoint(prior, crowds[0]))
    requires |crowds| > 0 ==> t + SWEEP_EVERY_MS * (|crowds| - 1) < hi && !Expired(w, t)
    requires |crowds| > 1 ==> SWEEP_EVERY_MS < cfg.windowMs
    requires Reaches(cfg, ops, key, Some(w), lo, hi, n)
    ensures Timed(all) && OnTimer(all)
    ensures Admitted(Log(cfg, all), key, lo, hi) == n + |crowds| * cfg.maxOf(key)
    decreases |crowds|
  {
    all := ops;
    if |crowds| > 0 {
      var max, next := cfg.maxOf(key), t + SWEEP_EVERY_MS;
      all := Round(cfg, ops, key, prior, w, crowds[0], t, lo, hi, n);
      Later(cfg, all, key, crowds[0], t, next, next, next);
      assert Lineup(cfg, key, crowds[1..]) by {
        forall i | 0 < i < |crowds[1..]| ensures Disjoint(crowds[1..][i - 1], crowds[1..][i]) {
          assert Disjoint(crowds[i + 1 - 1], crowds[i + 1]);
        }
      }
      all := Rounds(cfg, all, key, crowds[0], Window(max, t + cfg.windowMs), crowds[1..], next, lo, hi, n + max);
      QuotasAdd(n, |crowds| - 1, max);
    }
  }

  /** Whatever the cap, for every number e of sweeps that fit a window length on the timer, with as
      many newcomers as the map holds before each, some run lets (e + 2) max - 1 requests through in
      one window length: the bound for e evictions is attained. */
  lemma EvictionBoundIsAttained(cfg: Config, key: string, crowds: seq<seq<string>>) returns (ops: seq<Op>)
    requires cfg.windowMs >= 2 && cfg.maxOf(key) >= 1 && Lineup(cfg, key, crowds)
    requires SWEEP_EVERY_MS * (|crowds| - 1) <= cfg.windowMs - 2
    ensures Timed(ops) && OnTimer(ops)
    ensures Sliding(Log(cfg, ops), key, cfg.windowMs - 1, cfg.windowMs) == (|crowds| + 2) * cfg.maxOf(key) - 1
  {
    var max, W := cfg.maxOf(key), cfg.windowMs;
    ops := Straddle(cfg, key, W - 1, W - 1 + W);
    ops := Rounds(cfg, ops, key, [], Window(max, W + W), crowds, W, W - 1, W - 1 + W, 2 * max - 1);
    TwoMoreQuotas(|crowds|, max);
  }

  /** A full quota at the first instant, and a round at it and at every further tick. */
  lemma SpanningRun(cfg: Config, key: string, crowds: seq<seq<string>>) returns (ops: seq<Op>)
    requires cfg.windowMs >= 1 && cfg.maxOf(key) >= 1 && Lineup(cfg, key, crowds) && |crowds| > 0
    requires SWEEP_EVERY_MS * (|crowds| - 1) == cfg.windowMs - 1
    ensures Timed(ops) && OnTimer(ops)
    ensures Sliding(Log(cfg, ops), key, 0, cfg.windowMs) == (|crowds| + 1) * cfg.maxOf(key)
  {
    var max, W := cfg.maxOf(key), cfg.windowMs;
    assert Reaches(cfg, [], key, None, 0, W, 0) && Stage(cfg, [], key, [], 0, 0);
    ops := ThenBurst(cfg, [], key, [], None, 0, W, 0, 0, max, 0, W, 0);
    ops := Rounds(cfg, ops, key, [], Window(max, W), crowds, 0, 0, W, max);
    QuotasAdd(0, |crowds|, max);
  }

  /** The bound with the sweep on its timer is attained, for every limit, cap and window length. */
  lemma TimerBoundIsAttained(cfg: Config, key: string, crowds: seq<seq<string>>) returns (ops: seq<Op>, a: int)
    requires cfg.windowMs >= 1 && cfg.maxOf(key) >= 1 && Lineup(cfg, key, crowds)
    requires |crowds| == (cfg.windowMs - 1) / SWEEP_EVERY_MS + 1
    ensures Timed(ops) && OnTimer(ops)
    ensures Sliding(Log(cfg, ops), key, a, cfg.windowMs) == TimerBound(cfg.windowMs, cfg.maxOf(key))
  {
    if (cfg.windowMs - 1) % SWEEP_EVERY_MS == 0 {
      a := 0;
      ops := SpanningRun(cfg, key, crowds);
    } else {
      a := cfg.windowMs - 1;
      ops := EvictionBoundIsAttained(cfg, key, crowds);
    }
  }
}
