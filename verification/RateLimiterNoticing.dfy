/** Whether a sweep changes any decision that is still to come. */
module RateLimiterNoticing {
  import opened Prelude
  import opened RateLimiter
  import opened RateLimiterRuns

  // ----- running on from a given state

  datatype State = State(entries: seq<Entry>, log: seq<Hit>)

  function Do(cfg: Config, s: State, op: Op): State {
    match op
    case Ask(key, now) => State(AfterRequest(cfg, s.entries, key, now), s.log + [HitOf(cfg, s.entries, key, now)])
    case Tidy(now) => s.(entries := AfterSweep(cfg, s.entries, now))
  }

  function Onward(cfg: Config, s: State, ops: seq<Op>): State {
    if |ops| == 0 then s else Do(cfg, Onward(cfg, s, ops[..|ops| - 1]), ops[|ops| - 1])
  }

  lemma {:induction false} OnwardFromNothing(cfg: Config, ops: seq<Op>)
    ensures Onward(cfg, State([], []), ops) == State(End(cfg, ops), Log(cfg, ops))
  {
    if |ops| > 0 { OnwardFromNothing(cfg, ops[..|ops| - 1]); }
  }

  lemma {:induction false} OnwardJoin(cfg: Config, s: State, a: seq<Op>, b: seq<Op>)
    ensures Onward(cfg, s, a + b) == Onward(cfg, Onward(cfg, s, a), b)
  {
    if |b| == 0 {
      assert a + b == a;
    } else {
      OnwardJoin(cfg, s, a, b[..|b| - 1]);
      assert (a + b)[..|a + b| - 1] == a + b[..|b| - 1];
    }
  }

  lemma OnwardOne(cfg: Config, s: State, op: Op)
    ensures Onward(cfg, s, [op]) == Do(cfg, s, op)
  {
    assert [op][..0] == [];
  }

  function Burst(key: string, t: int, n: nat): seq<Op> {
    seq(n, _ => Ask(key, t))
  }

  // ----- what the future holds

  function Verdicts(log: seq<Hit>): (v: seq<bool>)
    ensures |v| == |log| && forall i :: 0 <= i < |log| ==> v[i] == log[i].admitted
  {
    seq(|log|, i requires 0 <= i < |log| => log[i].admitted)
  }

  /** Requests from `t` on. */
  ghost predicate Future(more: seq<Op>, t: int) {
    Timed(more) && forall i :: 0 <= i < |more| ==> more[i].Ask? && t <= more[i].now
  }

  ghost predicate SameVerdicts(cfg: Config, ops: seq<Op>, others: seq<Op>) {
    Verdicts(Log(cfg, ops)) == Verdicts(Log(cfg, others))
  }

  // ----- without an eviction nobody ever notices

  /** Two maps that no request at `t` or later can tell apart. */
  ghost predicate Alike(es: seq<Entry>, fs: seq<Entry>, t: int) {
    forall key :: Stands(Lookup(es, key), Lookup(fs, key), None, t)
  }

  lemma AskAlike(cfg: Config, es: seq<Entry>, fs: seq<Entry>, key: string, t: int, now: int)
    requires Alike(es, fs, t) && t <= now
    ensures HitOf(cfg, es, key, now) == HitOf(cfg, fs, key, now)
    ensures Alike(AfterRequest(cfg, es, key, now), AfterRequest(cfg, fs, key, now), now)
  {
    assert Stands(Lookup(es, key), Lookup(fs, key), None, t);
    forall other
      ensures Stands(Lookup(AfterRequest(cfg, es, key, now), other), Lookup(AfterRequest(cfg, fs, key, now), other), None, now)
    {
      assert Stands(Lookup(es, other), Lookup(fs, other), None, t);
      AskStands(cfg, es, fs, key, now, other, None, now);
    }
  }

  lemma {:induction false} OnwardAlike(cfg: Config, s: State, u: State, more: seq<Op>, t: int)
    requires Alike(s.entries, u.entries, t) && s.log == u.log && Future(more, t)
    ensures var last := if |more| == 0 then t else more[|more| - 1].now;
      Alike(Onward(cfg, s, more).entries, Onward(cfg, u, more).entries, last)
    ensures Onward(cfg, s, more).log == Onward(cfg, u, more).log
  {
    if |more| > 0 {
      var init, last := more[..|more| - 1], more[|more| - 1];
      OnwardAlike(cfg, s, u, init, t);
      AskAlike(cfg, Onward(cfg, s, init).entries, Onward(cfg, u, init).entries, last.key,
               if |init| == 0 then t else init[|init| - 1].now, last.now);
    }
  }

  /** A sweep that finds no more running windows than the cap drops only what has expired. */
  lemma PruningIsAlike(cfg: Config, es: seq<Entry>, t: int)
    requires Distinct(es) && |Prune(es, t)| <= Max(0, cfg.cap)
    ensures Alike(AfterSweep(cfg, es, t), es, t)
  {
    assert AfterSweep(cfg, es, t) == Prune(es, t);
    forall key ensures Stands(Lookup(AfterSweep(cfg, es, t), key), Lookup(es, key), None, t) {
      PruneLookup(es, t, key);
    }
  }

  lemma NobodyNotices(cfg: Config, ops: seq<Op>, t: int, more: seq<Op>)
    requires |Prune(End(cfg, ops), t)| <= Max(0, cfg.cap) && Future(more, t)
    ensures SameVerdicts(cfg, ops + [Tidy(t)] + more, ops + more)
  {
    var swept := ops + [Tidy(t)];
    assert swept[..|swept| - 1] == ops;
    EndDistinct(cfg, ops);
    PruningIsAlike(cfg, End(cfg, ops), t);
    OnwardFrom(cfg, swept, more);
    OnwardFrom(cfg, ops, more);
    OnwardAlike(cfg, State(End(cfg, swept), Log(cfg, swept)), State(End(cfg, ops), Log(cfg, ops)), more, t);
  }

  // ----- whoever is evicted can notice

  /** A request into a running window counts it up, admitted or not. */
  lemma RequestCounts(cfg: Config, s: State, key: string, w: Window, t: int)
    requires cfg.maxOf(key) >= 1 && Lookup(s.entries, key) == Some(w) && t < w.resetAt
    ensures var u := Do(cfg, s, Ask(key, t));
      && Lookup(u.entries, key) == Some(Window(w.count + 1, w.resetAt))
      && |u.log| == |s.log| + 1 && (u.log[|s.log|].admitted <==> w.count + 1 <= cfg.maxOf(key))
  {
    LookupPut(s.entries, key, Window(w.count + 1, w.resetAt), key);
  }

  lemma {:induction false} BurstCounts(cfg: Config, s: State, key: string, w: Window, t: int, k: nat)
    requires cfg.maxOf(key) >= 1 && Lookup(s.entries, key) == Some(w) && t < w.resetAt
    ensures var u := Onward(cfg, s, Burst(key, t, k));
      && Lookup(u.entries, key) == Some(Window(w.count + k, w.resetAt)) && |u.log| == |s.log| + k
      && (k > 0 ==> (u.log[|u.log| - 1].admitted <==> w.count + k <= cfg.maxOf(key)))
  {
    if k > 0 {
      BurstCounts(cfg, s, key, w, t, k - 1);
      assert Burst(key, t, k)[..k - 1] == Burst(key, t, k - 1);
      RequestCounts(cfg, Onward(cfg, s, Burst(key, t, k - 1)), key, Window(w.count + k - 1, w.resetAt), t);
    }
  }

  lemma BurstOpens(cfg: Config, s: State, key: string, t: int, k: nat)
    ensures Onward(cfg, s, Burst(key, t, k + 1)) == Onward(cfg, Do(cfg, s, Ask(key, t)), Burst(key, t, k))
  {
    OnwardOne(cfg, s, Ask(key, t));
    OnwardJoin(cfg, s, [Ask(key, t)], Burst(key, t, k));
    assert Burst(key, t, k + 1) == [Ask(key, t)] + Burst(key, t, k);
  }

  lemma RequestOpens(cfg: Config, s: State, key: string, t: int)
    requires cfg.maxOf(key) >= 1 && Lookup(s.entries, key) == None
    ensures var u := Do(cfg, s, Ask(key, t));
      && Lookup(u.entries, key) == Some(Window(1, t + cfg.windowMs))
      && |u.log| == |s.log| + 1 && u.log[|s.log|].admitted
  {
    LookupPut(s.entries, key, Window(1, t + cfg.windowMs), key);
  }

  /** Windows of no length are always over: every request opens another. */
  lemma {:induction false} EmptyWindowBurst(cfg: Config, s: State, key: string, t: int, k: nat)
    requires cfg.windowMs <= 0 && Fresh(Lookup(s.entries, key), t)
    ensures var u := Onward(cfg, s, Burst(key, t, k));
      && Fresh(Lookup(u.entries, key), t) && |u.log| == |s.log| + k && (k > 0 ==> u.log[|u.log| - 1].admitted)
  {
    if k > 0 {
      EmptyWindowBurst(cfg, s, key, t, k - 1);
      assert Burst(key, t, k)[..k - 1] == Burst(key, t, k - 1);
      var v := Onward(cfg, s, Burst(key, t, k - 1));
      LookupPut(v.entries, key, Counted(cfg, Lookup(v.entries, key), t), key);
    }
  }

  /** The last of `max` requests at once: admitted by a limiter that has forgotten the key. */
  lemma FreshBurst(cfg: Config, s: State, key: string, t: int)
    requires cfg.maxOf(key) >= 1 && Lookup(s.entries, key) == None
    ensures var log := Onward(cfg, s, Burst(key, t, cfg.maxOf(key))).log;
      |log| == |s.log| + cfg.maxOf(key) && log[|log| - 1].admitted
  {
    var max, u := cfg.maxOf(key), Do(cfg, s, Ask(key, t));
    if cfg.windowMs <= 0 {
      EmptyWindowBurst(cfg, s, key, t, max);
    } else {
      RequestOpens(cfg, s, key, t);
      BurstOpens(cfg, s, key, t, max - 1);
      BurstCounts(cfg, u, key, Window(1, t + cfg.windowMs), t, max - 1);
    }
  }

  lemma OnwardFrom(cfg: Config, ops: seq<Op>, more: seq<Op>)
    ensures Onward(cfg, State(End(cfg, ops), Log(cfg, ops)), more) == State(End(cfg, ops + more), Log(cfg, ops + more))
  {
    OnwardFromNothing(cfg, ops);
    OnwardFromNothing(cfg, ops + more);
    OnwardJoin(cfg, State([], []), ops, more);
  }

  /** Whoever is evicted notices: a quota's worth of requests is treated differently. */
  lemma SomebodyNotices(cfg: Config, ops: seq<Op>, t: int, key: string)
    requires Evicts(cfg, End(cfg, ops), t, key)
    ensures cfg.maxOf(key) >= 1 && Future(Burst(key, t, cfg.maxOf(key)), t)
    ensures !SameVerdicts(cfg, ops + [Tidy(t)] + Burst(key, t, cfg.maxOf(key)), ops + Burst(key, t, cfg.maxOf(key)))
  {
    EndDistinct(cfg, ops);
    SweepLookup(cfg, End(cfg, ops), t, key);
    EndCounted(cfg, ops, key);
    var max, swept := cfg.maxOf(key), ops + [Tidy(t)];
    assert swept[..|swept| - 1] == ops;
    FreshBurst(cfg, State(End(cfg, swept), Log(cfg, swept)), key, t);
    BurstCounts(cfg, State(End(cfg, ops), Log(cfg, ops)), key, Lookup(End(cfg, ops), key).value, t, max);
    OnwardFrom(cfg, swept, Burst(key, t, max));
    OnwardFrom(cfg, ops, Burst(key, t, max));
    var x, y := Log(cfg, swept + Burst(key, t, max)), Log(cfg, ops + Burst(key, t, max));
    assert Verdicts(x)[|x| - 1] != Verdicts(y)[|y| - 1];
  }

  /** Over the cap the oldest running window is evicted. */
  lemma OldestIsEvicted(cfg: Config, es: seq<Entry>, t: int) returns (key: string)
    requires Distinct(es) && |Prune(es, t)| > Max(0, cfg.cap)
    ensures Evicts(cfg, es, t, key)
  {
    var live := Prune(es, t);
    key := live[0].key;
    PruneLookup(es, t, key);
    LookupAt(live, 0);
    LookupMissing(AfterSweep(cfg, es, t), key);
  }

  /** After any run, one more sweep leaves every decision on every future sequence of requests as it
      would have been exactly when it finds no more running windows than the cap. */
  lemma SweepUnnoticedIff(cfg: Config, ops: seq<Op>, t: int)
    ensures |Prune(End(cfg, ops), t)| <= Max(0, cfg.cap)
       <==> (forall more :: Future(more, t) ==> SameVerdicts(cfg, ops + [Tidy(t)] + more, ops + more))
  {
    if |Prune(End(cfg, ops), t)| <= Max(0, cfg.cap) {
      forall more | Future(more, t) ensures SameVerdicts(cfg, ops + [Tidy(t)] + more, ops + more) {
        NobodyNotices(cfg, ops, t, more);
      }
    } else {
      EndDistinct(cfg, ops);
      var key := OldestIsEvicted(cfg, End(cfg, ops), t);
      SomebodyNotices(cfg, ops, t, key);
    }
  }
}
