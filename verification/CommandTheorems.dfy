/** The promises of the command protocol, for every run, and where the tracker adapter breaks them. */
module CommandTheorems {
  import opened Prelude
  import opened CommandModel
  import opened CommandProofs
  import opened CommandTallies

  ghost predicate Allowed(level: Level, states: seq<Store>, steps: seq<Step>)
    requires |states| == |steps| + 1
  {
    forall k :: 0 <= k < |steps| ==> Allows(level, states[k], steps[k])
  }

  lemma {:induction false} RunKeeps(level: Level, ttl: int, states: seq<Store>, steps: seq<Step>, i: nat)
    requires IsRun(ttl, states, steps) && Allowed(level, states, steps) && i < |states|
    ensures Inv(level, ttl, states[i])
  {
    if i > 0 {
      RunKeeps(level, ttl, states, steps, i - 1);
      assert Follows(ttl, states[i - 1], steps[i - 1], states[i]);
      StepKeeps(level, ttl, states[i - 1], steps[i - 1]);
    }
  }

  lemma StepGrows(level: Level, ttl: int, states: seq<Store>, steps: seq<Step>, k: nat)
    requires IsRun(ttl, states, steps) && Allowed(level, states, steps) && k < |steps|
    ensures Grows(level, states[k], states[k + 1])
  {
    RunKeeps(level, ttl, states, steps, k);
    assert Follows(ttl, states[k], steps[k], states[k + 1]);
    StepKeeps(level, ttl, states[k], steps[k]);
  }

  lemma {:induction false} ChainGrows(level: Level, states: seq<Store>, i: nat, j: nat)
    requires forall k :: 0 < k < |states| ==> Grows(level, states[k - 1], states[k])
    requires i <= j < |states|
    ensures Grows(level, states[i], states[j])
    decreases j
  {
    if i < j {
      ChainGrows(level, states, i, j - 1);
      GrowsTransitive(level, states[i], states[j - 1], states[j]);
    }
  }

  lemma RunGrows(level: Level, ttl: int, states: seq<Store>, steps: seq<Step>, i: nat, j: nat)
    requires IsRun(ttl, states, steps) && Allowed(level, states, steps) && i <= j < |states|
    ensures Grows(level, states[i], states[j])
  {
    forall k | 0 < k < |states| ensures Grows(level, states[k - 1], states[k]) {
      StepGrows(level, ttl, states, steps, k - 1);
    }
    ChainGrows(level, states, i, j);
  }

  // ----- events, statuses, counters

  /** A client that applies every emitted event holds the status column, in every run whatsoever. */
  lemma EventsRebuildStatuses(ttl: int, states: seq<Store>, steps: seq<Step>, i: nat)
    requires IsRun(ttl, states, steps) && i < |states|
    ensures Replay(|states[i].rows|, states[i].events) == StatusColumn(states[i].rows)
  {
    RunKeeps(Any, ttl, states, steps, i);
  }

  /** In a run of the service's own steps each command emits at most one SENT and then at most one
      terminal status, each terminal counter equals the number of rows in that state, and the other
      columns fit the status. */
  lemma OwnRunTrailsAndCounters(ttl: int, states: seq<Store>, steps: seq<Step>, i: nat)
    requires OwnRun(ttl, states, steps) && i < |states|
    ensures forall id :: 0 <= id < |states[i].rows| ==>
              TrailShape(Trail(states[i].events, id), states[i].rows[id].status)
    ensures forall status, kind :: Terminal(status) ==>
              Counter(states[i].counters, status, kind) == Count(states[i].rows, InState(status, kind))
    ensures forall id :: 0 <= id < |states[i].rows| ==> RowShape(states[i].rows[id])
  {
    RunKeeps(Full, ttl, states, steps, i);
  }

  // ----- counters beside the adapter

  lemma {:induction false} PathKeepsGap(ttl: int, s: Store, ms: seq<Micro>, t: Store, status: Status, kind: Kind)
    requires CommandProofs.Path(Full, ttl, s, ms, t) && Terminal(status)
    ensures Gap(t, status, kind) == Gap(s, status, kind)
    decreases |ms|
  {
    if |ms| > 0 {
      TakeKeepsGap(ttl, s, ms[0], status, kind);
      PathKeepsGap(ttl, Take(s, ms[0]), ms[1..], t, status, kind);
    }
  }

  lemma FlushGap(s: Store, now: int, uid: string, status: Status, kind: Kind)
    requires Terminal(status)
    ensures Gap(FlushQueued(s, now, uid), status, kind)
         == Gap(s, status, kind) + (if Reopens(s, Flush(now, uid), status, kind) then 1 else 0)
  {
    if LiveQueued(s, now, uid) {
      var id := s.queued[uid].id;
      CountUpdate(s.rows, id, s.rows[id].(status := Sent, sentAt := Some(now), issue := Clear), InState(status, kind));
    }
  }

  lemma TcpAckGap(s: Store, now: int, device: string, pick: nat, status: Status, kind: Kind)
    requires Terminal(status) && pick < |s.rows| && !Terminal(s.rows[pick].status)
    ensures Gap(AckOverTcp(s, now, Some(pick)), status, kind)
         == Gap(s, status, kind) - (if AcksUncounted(s, TcpAck(now, device, Some(pick)), status, kind) then 1 else 0)
  {
    CountUpdate(s.rows, pick, s.rows[pick].(status := Acked, ackedAt := Some(now)), InState(status, kind));
  }

  lemma StepGap(ttl: int, s: Store, step: Step, status: Status, kind: Kind)
    requires Enabled(s, step) && Terminal(status)
    ensures Gap(Apply(ttl, s, step), status, kind) == Gap(s, status, kind)
              + (if Reopens(s, step, status, kind) then 1 else 0) - (if AcksUncounted(s, step, status, kind) then 1 else 0)
  {
    var u := s.(now := step.now);
    if step.Flush? {
      FlushGap(u, step.now, step.uid, status, kind);
    } else if step.TcpAck? {
      if step.pick.Some? { TcpAckGap(u, step.now, step.device, step.pick.value, status, kind); }
    } else {
      var ms := StepPath(Full, ttl, s, step);
      PathKeepsGap(ttl, s, ms, Apply(ttl, s, step), status, kind);
    }
  }

  /** In every run a terminal counter exceeds the rows in its state by exactly the flushes that
      reopened such a row, less the acknowledgements over TCP that nobody counted. */
  lemma {:induction false} CountersExact(ttl: int, states: seq<Store>, steps: seq<Step>, n: nat, status: Status, kind: Kind)
    requires IsRun(ttl, states, steps) && n < |states| && Terminal(status)
    ensures Counter(states[n].counters, status, kind) + Times(states, steps, n, UncountedAck(status, kind))
         == Count(states[n].rows, InState(status, kind)) + Times(states, steps, n, Reopening(status, kind))
  {
    if n > 0 {
      CountersExact(ttl, states, steps, n - 1, status, kind);
      assert Follows(ttl, states[n - 1], steps[n - 1], states[n]);
      StepGap(ttl, states[n - 1], steps[n - 1], status, kind);
    }
  }

  /** Once finished, finished for good: any two moments of a clean run agree on a finished command. */
  lemma TerminalForever(ttl: int, states: seq<Store>, steps: seq<Step>, i: nat, j: nat, id: nat)
    requires CleanRun(ttl, states, steps) && i <= j < |states|
    requires id < |states[i].rows| && Terminal(states[i].rows[id].status)
    ensures id < |states[j].rows| && states[j].rows[id].status == states[i].rows[id].status
  {
    RunGrows(Clean, ttl, states, steps, i, j);
  }

  ghost predicate Sticky(s: Store, t: Store) {
    && |s.rows| <= |t.rows|
    && forall id :: 0 <= id < |s.rows| && Terminal(s.rows[id].status) ==> t.rows[id].status == s.rows[id].status
  }

  /** Exactly the flush of a finished command breaks it: no step of a run changes a finished
      command if and only if no flush in it finds its queued command finished. */
  lemma StickyIffClean(ttl: int, states: seq<Store>, steps: seq<Step>)
    requires IsRun(ttl, states, steps)
    ensures (forall i :: 0 <= i < |steps| ==> Sticky(states[i], states[i + 1]))
       <==> (forall i :: 0 <= i < |steps| ==> CleanStep(states[i], steps[i]))
  {
    if forall i :: 0 <= i < |steps| ==> CleanStep(states[i], steps[i]) {
      forall i | 0 <= i < |steps| ensures Sticky(states[i], states[i + 1]) {
        RunGrows(Clean, ttl, states, steps, i, i + 1);
      }
    } else {
      var i :| 0 <= i < |steps| && !CleanStep(states[i], steps[i]);
      assert Follows(ttl, states[i], steps[i], states[i + 1]);
      var id := states[i].queued[steps[i].uid].id;
      assert states[i + 1].rows[id].status == Sent;
      assert !Sticky(states[i], states[i + 1]);
    }
  }

  // ----- debounce

  predicate Near(a: Row, b: Row) {
    InProgress(a, b.bike, b.kind) && -10_000 <= a.createdAt - b.createdAt <= 10_000
  }

  /** A flush that finds its queued command finished while another one of that bike and type, created
      within the debounce of it, is not. */
  ghost predicate Crowds(s: Store, step: Step) {
    && step.Flush? && LiveQueued(s, step.now, step.uid)
    && var row := s.rows[s.queued[step.uid].id];
       Terminal(row.status) && exists j :: 0 <= j < |s.rows| && Near(s.rows[j], row)
  }

  lemma DirtyFlushSpacing(ttl: int, s: Store, step: Step)
    requires Timeline(ttl, s) && Spaced(s.rows) && Enabled(s, step) && !CleanStep(s, step)
    ensures Spaced(Apply(ttl, s, step).rows) <==> !Crowds(s, step)
  {
    var id, t := s.queued[step.uid].id, Apply(ttl, s, step);
    var row := s.rows[id];
    if Crowds(s, step) {
      var j :| 0 <= j < |s.rows| && Near(s.rows[j], row);
      assert t.rows[j] == s.rows[j] && t.rows[id].status == Sent;
    } else {
      forall j | 0 <= j < |s.rows| ensures !Near(s.rows[j], row) {}
    }
  }

  lemma StepSpacing(ttl: int, s: Store, step: Step)
    requires Timeline(ttl, s) && Replays(s) && Spaced(s.rows) && Enabled(s, step)
    ensures Spaced(Apply(ttl, s, step).rows) <==> !Crowds(s, step)
  {
    if CleanStep(s, step) {
      StepKeeps(Clean, ttl, s, step);
    } else {
      DirtyFlushSpacing(ttl, s, step);
    }
  }

  ghost predicate Uncrowded(states: seq<Store>, steps: seq<Step>, n: nat)
    requires n <= |states| && n <= |steps|
  {
    forall k :: 0 <= k < n ==> !Crowds(states[k], steps[k])
  }

  lemma {:induction false} UncrowdedIsSpaced(ttl: int, states: seq<Store>, steps: seq<Step>, n: nat)
    requires IsRun(ttl, states, steps) && n < |states| && Uncrowded(states, steps, n)
    ensures Spaced(states[n].rows)
  {
    if n > 0 {
      UncrowdedIsSpaced(ttl, states, steps, n - 1);
      RunKeeps(Any, ttl, states, steps, n - 1);
      assert Follows(ttl, states[n - 1], steps[n - 1], states[n]);
      StepSpacing(ttl, states[n - 1], steps[n - 1]);
    }
  }

  /** The debounce holds throughout a run exactly when no flush in it crowds: whatever else the
      adapter does, unfinished commands of one bike and type are more than ten seconds apart. */
  lemma SpacedIffUncrowded(ttl: int, states: seq<Store>, steps: seq<Step>)
    requires IsRun(ttl, states, steps)
    ensures (forall n :: 0 <= n < |states| ==> Spaced(states[n].rows)) <==> Uncrowded(states, steps, |steps|)
  {
    if forall n :: 0 <= n < |states| ==> Spaced(states[n].rows) {
      forall k | 0 <= k < |steps| ensures !Crowds(states[k], steps[k]) {
        assert Follows(ttl, states[k], steps[k], states[k + 1]);
        RunKeeps(Any, ttl, states, steps, k);
        StepSpacing(ttl, states[k], steps[k]);
        assert Spaced(states[k + 1].rows);
      }
    }
    if Uncrowded(states, steps, |steps|) {
      forall n | 0 <= n < |states| ensures Spaced(states[n].rows) {
        UncrowdedIsSpaced(ttl, states, steps, n);
      }
    }
  }

  /** Two unfinished commands of one bike and type were created more than ten seconds apart, as
      long as no flush has crowded. */
  lemma DebounceSpacing(ttl: int, states: seq<Store>, steps: seq<Step>, n: nat, i: nat, j: nat)
    requires IsRun(ttl, states, steps) && n < |states| && Uncrowded(states, steps, n) && i < j < |states[n].rows|
    requires var a, b := states[n].rows[i], states[n].rows[j];
             !Terminal(a.status) && !Terminal(b.status) && a.bike == b.bike && a.kind == b.kind
    ensures states[n].rows[j].createdAt - states[n].rows[i].createdAt > 10_000
  {
    UncrowdedIsSpaced(ttl, states, steps, n);
  }

  ghost function Unexpired(bike: string, kind: Kind, now: int): Row -> bool {
    (r: Row) => InProgress(r, bike, kind) && r.expiresAt >= now
  }

  lemma {:induction false} SpacedCount(rows: seq<Row>, p: Row -> bool, lo: int, hi: int)
    requires lo <= hi
    requires forall i :: 0 <= i < |rows| && p(rows[i]) ==> lo <= rows[i].createdAt <= hi
    requires forall i, j :: 0 <= i < j < |rows| && p(rows[i]) && p(rows[j])
                            ==> rows[j].createdAt - rows[i].createdAt > DEBOUNCE_MS
    ensures Count(rows, p) <= (hi - lo) / (DEBOUNCE_MS + 1) + 1
  {
    if |rows| > 0 {
      var last := |rows| - 1;
      var init := rows[..last];
      if !p(rows[last]) {
        SpacedCount(init, p, lo, hi);
      } else {
        var t := rows[last].createdAt;
        forall i | 0 <= i < last && p(init[i]) ensures init[i].createdAt < t - DEBOUNCE_MS {
          assert rows[i] == init[i];
        }
        if lo <= t - DEBOUNCE_MS - 1 {
          SpacedCount(init, p, lo, t - DEBOUNCE_MS - 1);
          assert (t - DEBOUNCE_MS - 1 - lo) / (DEBOUNCE_MS + 1) + 1 == (t - lo) / (DEBOUNCE_MS + 1);
        } else {
          CountZero(init, p);
        }
      }
    }
  }

  /** With a lifetime of `ttl` milliseconds at most ttl/10001 + 1 commands of one bike and type
      are unfinished and unexpired at any moment, as long as no flush has crowded. */
  lemma UnexpiredBound(ttl: int, states: seq<Store>, steps: seq<Step>, n: nat, bike: string, kind: Kind)
    requires IsRun(ttl, states, steps) && n < |states| && Uncrowded(states, steps, n) && ttl >= 0
    ensures Count(states[n].rows, Unexpired(bike, kind, states[n].now)) <= ttl / 10_001 + 1
  {
    RunKeeps(Any, ttl, states, steps, n);
    UncrowdedIsSpaced(ttl, states, steps, n);
    var s := states[n];
    SpacedCount(s.rows, Unexpired(bike, kind, s.now), s.now - ttl, s.now);
  }

  // ----- sweep progress

  lemma SweepOneCounts(s: Store, now: int, item: SweepItem)
    requires item.id < |s.rows| && Stale(s.rows[item.id], now)
    ensures StaleCount(SweepOne(s, now, item), now) == StaleCount(s, now) - 1
  {
    CountUpdate(s.rows, item.id, SweptRow(s.rows[item.id], now, item), StaleAt(now));
  }

  lemma {:induction false} SweepCounts(s: Store, now: int, items: seq<SweepItem>)
    requires Batch(s, items) && forall i :: 0 <= i < |items| ==> Stale(s.rows[items[i].id], now)
    ensures StaleCount(SweepAll(s, now, items), now) == StaleCount(s, now) - |items|
  {
    if |items| > 0 {
      var init := items[..|items| - 1];
      var last := items[|items| - 1];
      SweepCounts(s, now, init);
      SweepAllExact(s, now, init);
      assert !Listed(init, last.id);
      SweepOneCounts(SweepAll(s, now, init), now, last);
    }
  }

  lemma SweepTouches(s: Store, now: int, items: seq<SweepItem>, j: nat)
    requires Batch(s, items) && j < |s.rows|
    ensures if Listed(items, j) then Terminal(SweepAll(s, now, items).rows[j].status)
            else SweepAll(s, now, items).rows[j] == s.rows[j]
  {
    SweepAllExact(s, now, items);
    if Listed(items, j) {
      var i :| 0 <= i < |items| && items[i].id == j;
      assert SweepAll(s, now, items).rows[items[i].id] == SweptRow(s.rows[items[i].id], now, items[i]);
    }
  }

  /** Whichever rows the query returns, a sweep makes exactly min(100, n) of the n stale commands
      terminal and touches no other row. */
  lemma SweepExact(ttl: int, s: Store, now: int, items: seq<SweepItem>)
    requires Enabled(s, Sweep(now, items, None))
    ensures var t := Apply(ttl, s, Sweep(now, items, None));
      && StaleCount(t, now) == StaleCount(s, now) - Min(100, StaleCount(s, now))
      && |items| == Min(100, StaleCount(s, now))
      && |t.rows| == |s.rows|
      && forall j :: 0 <= j < |s.rows| ==>
           if Listed(items, j) then Stale(s.rows[j], now) && Terminal(t.rows[j].status)
           else t.rows[j] == s.rows[j]
  {
    var u := s.(now := now);
    SweepCounts(u, now, items);
    forall j | 0 <= j < |s.rows|
      ensures if Listed(items, j) then Stale(s.rows[j], now) && Terminal(SweepAll(u, now, items).rows[j].status)
              else SweepAll(u, now, items).rows[j] == s.rows[j]
    {
      SweepTouches(u, now, items, j);
    }
  }

  /** Consecutive complete sweeps at one time, with nothing in between. */
  ghost predicate Sweeps(ttl: int, states: seq<Store>, steps: seq<Step>, now: int) {
    && |states| == |steps| + 1
    && forall i :: 0 <= i < |steps| ==>
         && steps[i].Sweep? && steps[i].now == now && steps[i].dying.None?
         && Follows(ttl, states[i], steps[i], states[i + 1])
  }

  /** After k such sweeps max(0, n - 100 k) stale commands remain; so ceil(n / 100) clear them. */
  lemma {:induction false} SweepsClear(ttl: int, states: seq<Store>, steps: seq<Step>, now: int, k: nat)
    requires Sweeps(ttl, states, steps, now) && k <= |steps|
    ensures StaleCount(states[k], now) == Max(0, StaleCount(states[0], now) - 100 * k)
    ensures k == (StaleCount(states[0], now) + 99) / 100 ==> StaleCount(states[k], now) == 0
  {
    if k > 0 {
      SweepsClear(ttl, states, steps, now, k - 1);
      assert Follows(ttl, states[k - 1], steps[k - 1], states[k]);
      SweepExact(ttl, states[k - 1], now, steps[k - 1].items);
    }
  }

  // ----- lock safety over history

  lemma {:induction false} LastMovingIsLatest(points: seq<Point>, device: string)
    ensures var last := LastMoving(points, device);
      && (last.None? <==> forall k :: 0 <= k < |points| ==> !Moving(points[k], device))
      && (last.Some? ==>
            && (forall k :: 0 <= k < |points| && Moving(points[k], device) ==> points[k].ts <= last.value)
            && exists k :: 0 <= k < |points| && Moving(points[k], device) && points[k].ts == last.value)
  {
    if |points| > 0 {
      var init := points[..|points| - 1];
      LastMovingIsLatest(init, device);
      var p := points[|points| - 1];
      var earlier := LastMoving(init, device);
      if earlier.Some? {
        var k :| 0 <= k < |init| && Moving(init[k], device) && init[k].ts == earlier.value;
        assert points[k] == init[k];
      }
      assert forall k :: 0 <= k < |init| ==> init[k] == points[k];
      assert points[|points| - 1] == p;
    }
  }

  /** Parked or offline, or: ignition not on, all but still, and every stored moving point old. */
  ghost predicate AtRest(points: seq<Point>, device: string, live: Option<Live>, now: int) {
    live.Some? ==>
      && live.value.ignition != Some(true)
      && -0.5 <= live.value.speed <= 0.5
      && forall k :: 0 <= k < |points| && points[k].device == device && points[k].speed > 0.01 ==> now - points[k].ts >= 15_000
  }

  lemma SafeToLockMeansAtRest(points: seq<Point>, device: string, live: Option<Live>, now: int)
    ensures SafeToLock(points, device, live, now) <==> AtRest(points, device, live, now)
  {
    LastMovingIsLatest(points, device);
  }

  /** The step that created row `j`, and what it knew. */
  ghost predicate CreatedAtRest(s: Store, step: Step, j: nat, row: Row) {
    && step.Ask? && |s.rows| == j && step.now == row.createdAt
    && step.request.kind == row.kind && step.request.device.Some? && step.request.device.value.id == row.device
    && AtRest(s.points, row.device, step.request.live, step.now)
  }

  lemma AskCreates(ttl: int, s: Store, now: int, r: Request)
    ensures var t := AskFor(ttl, s, now, r);
      if Judge(s, now, r) != Accepted then t == s
      else |t.rows| == |s.rows| + 1 && SameIdentity(NewRow(ttl, now, r), t.rows[|s.rows|])
  {
  }

  lemma OnlyRequestsCreate(ttl: int, s: Store, step: Step)
    requires Enabled(s, step)
    ensures var t := Apply(ttl, s, step);
      |t.rows| == |s.rows| ||
      (&& |t.rows| == |s.rows| + 1 && step.Ask? && Judge(s, step.now, step.request) == Accepted
       && SameIdentity(NewRow(ttl, step.now, step.request), t.rows[|s.rows|]))
  {
    if step.Ask? { AskCreates(ttl, s.(now := step.now), step.now, step.request); }
  }

  /** Every LOCK command there is was created, over either path, while its bike was at rest. */
  lemma {:induction false} EveryLockWasSafe(ttl: int, states: seq<Store>, steps: seq<Step>, n: nat, j: nat)
    requires IsRun(ttl, states, steps) && n < |states|
    requires j < |states[n].rows| && states[n].rows[j].kind == Lock
    ensures exists i :: 0 <= i < n && CreatedAtRest(states[i], steps[i], j, states[n].rows[j])
  {
    var s, step, t := states[n - 1], steps[n - 1], states[n];
    assert Follows(ttl, s, step, t);
    RunGrows(Any, ttl, states, steps, n - 1, n);
    OnlyRequestsCreate(ttl, s, step);
    if j < |s.rows| {
      EveryLockWasSafe(ttl, states, steps, n - 1, j);
      var i :| 0 <= i < n - 1 && CreatedAtRest(states[i], steps[i], j, s.rows[j]);
      assert CreatedAtRest(states[i], steps[i], j, t.rows[j]);
    } else {
      SafeToLockMeansAtRest(s.points, step.request.device.value.id, step.request.live, step.now);
      assert CreatedAtRest(states[n - 1], steps[n - 1], j, t.rows[j]);
    }
  }
}
