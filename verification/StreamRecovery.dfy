/** How the entries of dead workers come back: what one start of a worker claims, how many starts a
    backlog needs, and that so many suffice. */
module StreamRecovery {
  import opened Prelude
  import opened StreamModel
  import opened StreamProofs
  import opened StreamTheorems

  // ----- what one start claims

  ghost function Below(g: Group, id: nat): set<nat> {
    set x | x in g.pending && x < id
  }

  ghost function LapsedBelow(g: Group, id: nat, now: int): set<nat> {
    set x | x in g.pending && x < id && Lapsed(g.pending[x], now)
  }

  ghost function Elements(s: seq<nat>): set<nat> {
    set x | x in s
  }

  lemma {:induction false} AscendingCount(s: seq<nat>)
    requires Ascending(s)
    ensures |Elements(s)| == |s|
  {
    if |s| > 0 {
      var init, last := s[..|s| - 1], s[|s| - 1];
      AscendingCount(init);
      assert Elements(s) == Elements(init) + {last};
    }
  }

  ghost function Lower(s: seq<nat>, x: nat): set<nat> {
    set y | y in s && y < x
  }

  lemma {:induction false} AscendingRank(s: seq<nat>, i: nat)
    requires Ascending(s) && i < |s|
    ensures |Lower(s, s[i])| == i
  {
    if i == 0 {
      assert Lower(s, s[0]) == {};
    } else {
      AscendingRank(s, i - 1);
      assert Lower(s, s[i]) == Lower(s, s[i - 1]) + {s[i - 1]};
    }
  }

  /** An ascending list's first `n` are those of rank below `n`. */
  lemma InFirst(s: seq<nat>, n: nat, x: nat)
    requires Ascending(s)
    ensures x in First(s, n) <==> x in s && |Lower(s, x)| < n
  {
    if x in s {
      var i :| 0 <= i < |s| && s[i] == x;
      AscendingRank(s, i);
      if i < n { assert First(s, n)[i] == x; }
    }
  }

  lemma ScannedIff(g: Group, id: nat)
    requires Accounted(g)
    ensures id in Scanned(g) <==> id in g.pending && |Below(g, id)| < SCAN
  {
    var all := Listing(g.pending, g.next);
    assert forall x :: x in g.pending ==> Delivered(g, x);
    InFirst(all, SCAN, id);
    assert Lower(all, id) == Below(g, id);
  }

  /** What is older than a scanned entry has been scanned too. */
  lemma LowerLapsed(g: Group, now: int, id: nat)
    requires Accounted(g) && id in Scanned(g)
    ensures Lower(LapsedOf(g.pending, Scanned(g), now), id) == LapsedBelow(g, id, now)
  {
    var lapsed := LapsedOf(g.pending, Scanned(g), now);
    ScannedIff(g, id);
    forall x: nat ensures x in Lower(lapsed, id) <==> x in LapsedBelow(g, id, now) {
      LapsedOfMembers(g.pending, Scanned(g), now, x);
      ScannedIff(g, x);
      if x in LapsedBelow(g, id, now) { SmallerSet(Below(g, x), Below(g, id)); }
    }
  }

  /** A start claims an entry exactly when it is pending and lapsed, fewer than five hundred pending
      entries are older, and fewer than fifty of those have lapsed. */
  lemma ClaimedIff(g: Group, now: int, id: nat)
    requires Accounted(g)
    ensures id in Claimable(g, now) <==>
      && id in g.pending && now - g.pending[id].since >= 60_000
      && |Below(g, id)| < 500 && |LapsedBelow(g, id, now)| < 50
  {
    var lapsed := LapsedOf(g.pending, Scanned(g), now);
    LapsedFacts(g, now);
    InFirst(lapsed, BATCH, id);
    ScannedIff(g, id);
    LapsedOfMembers(g.pending, Scanned(g), now, id);
    if id in Scanned(g) { LowerLapsed(g, now, id); }
  }

  // ----- how many starts are needed

  /** Pending, and on no worker's desk: whoever held it died or failed. */
  ghost predicate Abandoned(g: Group, x: nat) {
    x in g.pending && forall w :: w in g.workers && g.workers[w].Working? ==> x !in g.workers[w].queue
  }

  /** Older abandoned entries that a start from `now` on can claim. */
  ghost function Ahead(g: Group, id: nat, now: int): set<nat> {
    set x | x in g.pending && x < id && Abandoned(g, x) && Lapsed(g.pending[x], now)
  }

  ghost predicate IsStart(step: Step) {
    step.Claim? || step.ClaimFailed?
  }

  ghost function Starts(steps: seq<Step>): nat {
    Count(steps, (step: Step) => IsStart(step))
  }

  /** Steps other than starts leave abandoned entries where they are. */
  lemma StaysAbandoned(parse: Parser, g: Group, step: Step, x: nat)
    requires Accounted(g) && Enabled(g, step) && !IsStart(step) && Abandoned(g, x)
    ensures var h := Apply(parse, g, step); Abandoned(h, x) && h.pending[x] == g.pending[x] && h.now >= g.now
  {
    var h := Apply(parse, g, step);
    assert Delivered(g, x);
    if step.Read? { IdsAre(g.next, Min(BATCH, |g.stream| - g.next), x); }
    if step.Operate? || step.Fail? { assert g.workers[step.worker].queue[0] != x; }
    forall w | w in h.workers && h.workers[w].Working? ensures x !in h.workers[w].queue {
      if w in g.workers && g.workers[w].Working? { assert x !in g.workers[w].queue; }
    }
  }

  /** A start leaves alone what it does not claim. */
  lemma UnclaimedStays(parse: Parser, g: Group, step: Step, x: nat)
    requires Enabled(g, step) && IsStart(step) && Abandoned(g, x) && x !in Claimable(g, step.now)
    ensures var h := Apply(parse, g, step); Abandoned(h, x) && h.pending[x] == g.pending[x] && h.now >= g.now
  {
    var h := Apply(parse, g, step);
    forall w | w in h.workers && h.workers[w].Working? ensures x !in h.workers[w].queue {
      if w != step.worker { assert w in g.workers && g.workers[w].Working?; }
    }
  }

  lemma TakeAway(a: set<nat>, taken: set<nat>, left: set<nat>)
    requires a - taken <= left
    ensures |left| >= |a| - |taken|
  {
    SmallerSet(a - taken, left);
    SmallerSet(a * taken, taken);
    assert a == (a - taken) + (a * taken);
  }

  /** No step but a start shortens the line, and a start shortens it by at most a batch. While a
      batch is ahead of it, an abandoned entry is not reached. */
  lemma StepAhead(parse: Parser, g: Group, step: Step, id: nat, now: int)
    requires Accounted(g) && Enabled(g, step) && Abandoned(g, id)
    requires IsStart(step) ==> now <= step.now && |Ahead(g, id, now)| >= BATCH
    ensures var h := Apply(parse, g, step);
      Abandoned(h, id) && |Ahead(h, id, now)| >= |Ahead(g, id, now)| - (if IsStart(step) then BATCH else 0)
  {
    var h := Apply(parse, g, step);
    if !IsStart(step) {
      forall x | x in Ahead(g, id, now) ensures x in Ahead(h, id, now) { StaysAbandoned(parse, g, step, x); }
      StaysAbandoned(parse, g, step, id);
      SmallerSet(Ahead(g, id, now), Ahead(h, id, now));
    } else {
      StartAhead(parse, g, step, id, now);
    }
  }

  /** With a batch ahead of it an entry is out of a start's reach. */
  lemma OutOfReach(g: Group, now: int, id: nat, t: int)
    requires Accounted(g) && now <= t && |Ahead(g, id, now)| >= BATCH
    ensures id !in Claimable(g, t)
  {
    SmallerSet(Ahead(g, id, now), LapsedBelow(g, id, t));
    ClaimedIff(g, t, id);
  }

  lemma StartAhead(parse: Parser, g: Group, step: Step, id: nat, now: int)
    requires Accounted(g) && Enabled(g, step) && Abandoned(g, id) && IsStart(step) && now <= step.now && |Ahead(g, id, now)| >= BATCH
    ensures var h := Apply(parse, g, step); Abandoned(h, id) && |Ahead(h, id, now)| >= |Ahead(g, id, now)| - BATCH
  {
    var h, taken := Apply(parse, g, step), Elements(Claimable(g, step.now));
    OutOfReach(g, now, id, step.now);
    UnclaimedStays(parse, g, step, id);
    forall x | x in Ahead(g, id, now) - taken ensures x in Ahead(h, id, now) { UnclaimedStays(parse, g, step, x); }
    AscendingCount(Claimable(g, step.now));
    TakeAway(Ahead(g, id, now), taken, Ahead(h, id, now));
  }

  lemma StartsSplit(steps: seq<Step>, n: nat)
    requires n < |steps|
    ensures Starts(steps[..n + 1]) == Starts(steps[..n]) + (if IsStart(steps[n]) then 1 else 0)
    ensures Starts(steps[..n + 1]) <= Starts(steps)
  {
    assert steps[..n + 1] == steps[..n] + [steps[n]];
    CountAppend(steps[..n], steps[n], (step: Step) => IsStart(step));
    assert steps == steps[..n + 1] + steps[n + 1..];
    CountConcat(steps[..n + 1], steps[n + 1..], (step: Step) => IsStart(step));
  }

  lemma {:induction false} LineShortens(parse: Parser, groups: seq<Group>, steps: seq<Step>, id: nat, now: int, n: nat)
    requires Continues(parse, groups, steps) && Inv(parse, groups[0]) && n <= |steps|
    requires forall k :: 0 <= k < |steps| && IsStart(steps[k]) ==> now <= steps[k].now
    requires Abandoned(groups[0], id) && |Ahead(groups[0], id, now)| >= BATCH * Starts(steps)
    ensures Abandoned(groups[n], id) && |Ahead(groups[n], id, now)| >= |Ahead(groups[0], id, now)| - BATCH * Starts(steps[..n])
  {
    if n > 0 {
      LineShortens(parse, groups, steps, id, now, n - 1);
      ContinuationKeeps(parse, groups, steps, n - 1);
      assert Follows(parse, groups[n - 1], steps[n - 1], groups[n]);
      StartsSplit(steps, n - 1);
      StepAhead(parse, groups[n - 1], steps[n - 1], id, now);
    }
  }

  /** However a reachable group goes on, with its starts at `now` or later, an abandoned entry that
      has fifty claimable ones before it per start is still pending: k starts never get past rank 50 k. */
  lemma StartsAreNeeded(parse: Parser, run: seq<Group>, past: seq<Step>, i: nat,
                        groups: seq<Group>, steps: seq<Step>, id: nat, now: int)
    requires IsRun(parse, run, past) && i < |run| && Continues(parse, groups, steps) && groups[0] == run[i]
    requires forall k :: 0 <= k < |steps| && IsStart(steps[k]) ==> now <= steps[k].now
    requires Abandoned(run[i], id) && |Ahead(run[i], id, now)| >= 50 * Starts(steps)
    ensures id in groups[|steps|].pending && id !in groups[|steps|].acked
  {
    RunKeeps(parse, run, past, i);
    LineShortens(parse, groups, steps, id, now, |steps|);
    ContinuationKeeps(parse, groups, steps, |steps|);
  }

  // ----- that so many suffice

  /** Groups and steps that lead from `g` to `h` with so many starts on the way. */
  ghost predicate Leads(parse: Parser, groups: seq<Group>, steps: seq<Step>, g: Group, h: Group, starts: nat) {
    Continues(parse, groups, steps) && groups[0] == g && groups[|steps|] == h && Starts(steps) == starts
  }

  lemma Chain(parse: Parser, gs: seq<Group>, ss: seq<Step>, hs: seq<Group>, ts: seq<Step>, g: Group, h: Group, u: Group, m: nat, n: nat)
    returns (groups: seq<Group>, steps: seq<Step>)
    requires Leads(parse, gs, ss, g, h, m) && Leads(parse, hs, ts, h, u, n)
    ensures Leads(parse, groups, steps, g, u, m + n)
  {
    groups, steps := gs + hs[1..], ss + ts;
    forall i | 0 <= i < |steps| ensures Follows(parse, groups[i], steps[i], groups[i + 1]) {
      if i < |ss| {
        assert Follows(parse, gs[i], ss[i], gs[i + 1]);
      } else {
        assert Follows(parse, hs[i - |ss|], ts[i - |ss|], hs[i - |ss| + 1]);
      }
    }
    CountConcat(ss, ts, (step: Step) => IsStart(step));
  }

  lemma Single(parse: Parser, g: Group, step: Step, h: Group)
    requires Follows(parse, g, step, h)
    ensures Leads(parse, [g, h], [step], g, h, if IsStart(step) then 1 else 0)
  {
    CountAppend([], step, (s: Step) => IsStart(s));
    assert [] + [step] == [step];
  }

  /** The group once `w` has worked through its queue. */
  ghost predicate WorkedOff(g: Group, h: Group, w: string, ids: set<nat>) {
    && h.pending == g.pending - ids && h.acked == g.acked + ids
    && h.now == g.now && h.next == g.next && h.stream == g.stream
    && h.workers == g.workers[w := Working([], 0)]
  }

  ghost predicate AtWork(g: Group, w: string) {
    && w in g.workers && g.workers[w].Working? && Ascending(g.workers[w].queue)
    && (forall i :: 0 <= i < |g.workers[w].queue| ==> g.workers[w].queue[i] in g.pending && g.workers[w].queue[i] < |g.stream|)
    && g.workers[w].done <= if g.workers[w].queue == [] then 0 else |Plan(PayloadOf(g, g.workers[w].queue[0]))|
  }

  function LeftToWrite(g: Group, w: string): nat
    requires w in g.workers && g.workers[w].Working? && (|g.workers[w].queue| > 0 ==> g.workers[w].queue[0] < |g.stream|)
  {
    var k := g.workers[w];
    if |k.queue| == 0 then 0 else Max(0, |Plan(PayloadOf(g, k.queue[0]))| - k.done)
  }

  /** One operation of a worker that meets no failure: a write, or the acknowledgement of its head. */
  lemma OperateWorks(parse: Parser, g: Group, w: string)
    requires AtWork(g, w) && Busy(g, w)
    ensures var h, k := Apply(parse, g, Operate(w, "")), g.workers[w]; var id := k.queue[0];
      && AtWork(h, w) && h.now == g.now && h.next == g.next && h.stream == g.stream
      && (if k.done < |Plan(PayloadOf(g, id))|
          then h.pending == g.pending && h.acked == g.acked && h.workers == g.workers[w := k.(done := k.done + 1)]
          else h.pending == g.pending - {id} && h.acked == g.acked + {id} && h.workers == g.workers[w := Working(k.queue[1..], 0)])
  {
  }

  /** Working off the rest of a queue after its head, or after one more write for its head. */
  lemma WorkedOffRest(g: Group, h: Group, u: Group, w: string, head: set<nat>, rest: set<nat>)
    requires w in g.workers && w in h.workers && h.workers == g.workers[w := h.workers[w]]
    requires h.pending == g.pending - head && h.acked == g.acked + head
    requires h.now == g.now && h.next == g.next && h.stream == g.stream && WorkedOff(h, u, w, rest)
    ensures WorkedOff(g, u, w, head + rest)
  {
  }

  /** A worker that meets no failure works off its queue. */
  lemma {:induction false} WorksOff(parse: Parser, g: Group, w: string)
    returns (groups: seq<Group>, steps: seq<Step>, h: Group)
    requires AtWork(g, w)
    ensures Leads(parse, groups, steps, g, h, 0) && WorkedOff(g, h, w, Elements(g.workers[w].queue))
    decreases |g.workers[w].queue|, LeftToWrite(g, w)
  {
    var queue := g.workers[w].queue;
    if queue == [] {
      groups, steps, h := [g], [], g;
      assert g.workers[w := Working([], 0)] == g.workers;
    } else {
      var u := Apply(parse, g, Operate(w, ""));
      OperateWorks(parse, g, w);
      var gs, ss, v := WorksOff(parse, u, w);
      Single(parse, g, Operate(w, ""), u);
      groups, steps := Chain(parse, [g, u], [Operate(w, "")], gs, ss, g, u, v, 0, 0);
      h := v;
      var acked := g.workers[w].done == |Plan(PayloadOf(g, queue[0]))|;
      assert Elements(queue) == {queue[0]} + Elements(queue[1..]);
      WorkedOffRest(g, u, v, w, if acked then {queue[0]} else {}, Elements(u.workers[w].queue));
    }
  }

  lemma {:induction false} AllLapsed(pending: map<nat, Holding>, ids: seq<nat>, now: int)
    requires Ascending(ids) && forall i :: 0 <= i < |ids| ==> ids[i] in pending && Lapsed(pending[ids[i]], now)
    ensures LapsedOf(pending, ids, now) == ids
  {
    if |ids| > 0 {
      AllLapsed(pending, ids[..|ids| - 1], now);
    }
  }

  /** Once everything pending has lapsed, a start claims a full batch, or all there is. */
  lemma BatchSize(g: Group, now: int)
    requires Accounted(g) && forall id :: id in g.pending ==> Lapsed(g.pending[id], now)
    ensures |Elements(Claimable(g, now))| == Min(BATCH, |g.pending|)
  {
    var all := Listing(g.pending, g.next);
    assert forall x :: x in g.pending ==> Delivered(g, x);
    assert Elements(all) == g.pending.Keys;
    AscendingCount(all);
    AllLapsed(g.pending, Scanned(g), now);
    AscendingCount(Claimable(g, now));
  }

  /** The group after a start of `w` that met no failure. */
  ghost predicate Recovered(g: Group, h: Group, w: string, now: int) {
    var ids := Elements(Claimable(g, now));
    && h.pending == g.pending - ids && h.acked == g.acked + ids && h.now == now
    && w in h.workers && h.workers[w].Starting?
  }

  lemma HandPutsToWork(g: Group, w: string, now: int, ids: seq<nat>)
    requires Ascending(ids) && forall i :: 0 <= i < |ids| ==> ids[i] < |g.stream|
    ensures AtWork(Hand(g, w, now, ids, ids), w)
  {
    var h := Hand(g, w, now, ids, ids);
    forall i | 0 <= i < |ids| ensures ids[i] in h.pending {}
  }

  lemma OwnedOutside(pending: map<nat, Holding>, ids: seq<nat>, h: Holding)
    ensures Owned(pending, ids, h) - Elements(ids) == pending - Elements(ids)
  {
  }

  /** A start of a worker that meets no failure, up to its next start. */
  lemma OneStart(parse: Parser, g: Group, w: string, now: int)
    returns (groups: seq<Group>, steps: seq<Step>, h: Group)
    requires Accounted(g) && w in g.workers && g.workers[w].Starting? && g.now <= now
    ensures Leads(parse, groups, steps, g, h, 1) && Recovered(g, h, w, now)
  {
    var ids := Claimable(g, now);
    var u := Hand(g, w, now, ids, ids);
    HandPutsToWork(g, w, now, ids);
    OwnedOutside(g.pending, ids, Holding(w, now));
    Single(parse, g, Claim(w, now), u);
    var gs, ss, v := WorksOff(parse, u, w);
    groups, steps := Chain(parse, [g, u], [Claim(w, now)], gs, ss, g, u, v, 1, 0);
    h := v.(workers := v.workers[w := Starting]);
    Single(parse, v, Die(w), h);
    groups, steps := Chain(parse, groups, steps, [v, h], [Die(w)], g, v, h, 1, 0);
  }

  function StartsFor(n: nat): nat {
    (n + 49) / 50
  }

  lemma OneStartLess(n: nat)
    requires n > 0
    ensures StartsFor(n) == 1 + StartsFor(n - Min(BATCH, n))
  {
  }

  lemma Reunite(acked: set<nat>, pending: map<nat, Holding>, ids: set<nat>)
    requires ids <= pending.Keys
    ensures acked + ids + (pending - ids).Keys == acked + pending.Keys
  {
  }

  /** What a start leaves, and how many more starts that takes. */
  lemma StartLeaves(g: Group, h: Group, w: string, now: int)
    requires Accounted(g) && |g.pending| > 0 && Recovered(g, h, w, now)
    requires forall id :: id in g.pending ==> Lapsed(g.pending[id], now)
    ensures |h.pending| < |g.pending| && StartsFor(|g.pending|) == 1 + StartsFor(|h.pending|)
    ensures h.acked + h.pending.Keys == g.acked + g.pending.Keys
  {
    var ids := Elements(Claimable(g, now));
    BatchSize(g, now);
    LessPending(g.pending, ids);
    OneStartLess(|g.pending|);
    Reunite(g.acked, g.pending, ids);
  }

  lemma {:induction false} StaysAccounted(parse: Parser, groups: seq<Group>, steps: seq<Step>, n: nat)
    requires Continues(parse, groups, steps) && Accounted(groups[0]) && n < |groups|
    ensures Accounted(groups[n])
  {
    if n > 0 {
      StaysAccounted(parse, groups, steps, n - 1);
      assert Follows(parse, groups[n - 1], steps[n - 1], groups[n]);
      StepAccounted(parse, groups[n - 1], steps[n - 1]);
    }
  }

  lemma {:induction false} Clears(parse: Parser, g: Group, w: string, now: int)
    returns (groups: seq<Group>, steps: seq<Step>, h: Group)
    requires Accounted(g) && w in g.workers && g.workers[w].Starting? && g.now <= now
    requires forall id :: id in g.pending ==> Lapsed(g.pending[id], now)
    ensures Leads(parse, groups, steps, g, h, StartsFor(|g.pending|))
    ensures h.pending == map[] && h.acked == g.acked + g.pending.Keys
    decreases |g.pending|
  {
    if |g.pending| == 0 {
      groups, steps, h := [g], [], g;
    } else {
      var gs, ss, u := OneStart(parse, g, w, now);
      StartLeaves(g, u, w, now);
      StaysAccounted(parse, gs, ss, |ss|);
      var hs, ts, v := Clears(parse, u, w, now);
      groups, steps := Chain(parse, gs, ss, hs, ts, g, u, v, 1, StartsFor(|u.pending|));
      h := v;
    }
  }

  lemma LessPending(pending: map<nat, Holding>, ids: set<nat>)
    requires ids <= pending.Keys
    ensures |pending - ids| == |pending| - |ids|
  {
    assert (pending - ids).Keys == pending.Keys - ids;
  }

  /** From every reachable state, once everything pending has lapsed, ceil(n / 50) starts of a worker
      that meets no failure get all n pending entries acknowledged, with every output in place,
      whatever became of the workers that held them. No fewer do (StartsAreNeeded). */
  lemma BacklogIsRecovered(parse: Parser, run: seq<Group>, past: seq<Step>, i: nat, w: string, now: int)
    returns (groups: seq<Group>, steps: seq<Step>)
    requires IsRun(parse, run, past) && i < |run| && w !in run[i].workers && run[i].now <= now
    requires forall id :: id in run[i].pending ==> Lapsed(run[i].pending[id], now)
    ensures Continues(parse, groups, steps) && groups[0] == run[i] && Starts(steps) == StartsFor(|run[i].pending|)
    ensures groups[|steps|].pending == map[]
    ensures forall id :: id in run[i].pending ==> id in groups[|steps|].acked && Complete(groups[|steps|], id)
  {
    var g, join := run[i], Join(w);
    RunKeeps(parse, run, past, i);
    var h := Apply(parse, g, join);
    StepKeeps(parse, g, join);
    Single(parse, g, join, h);
    var hs, ts, u := Clears(parse, h, w, now);
    groups, steps := Chain(parse, [g, h], [join], hs, ts, g, h, u, 0, StartsFor(|g.pending|));
    ContinuationKeeps(parse, groups, steps, |steps|);
  }
}
