/** Concrete runs of the command protocol, for every bike and tracker, that show where a promise stops. */
module CommandRuns {
  import opened Prelude
  import opened Text
  import opened CommandModel
  import opened CommandProofs
  import opened CommandSms

  /** An HQ lock of a parked bike. */
  function LockRequest(bike: string, fleet: string, tracker: Device, channels: Channels): Request {
    Request(HqAdmin, Lock, bike, Some(fleet), Some(tracker), None, channels)
  }

  const SmsOnly := Channels(false, true, SmsResult.Delivered, false, NoCrash)
  const NothingWorks := Channels(false, true, Refused, false, NoCrash)
  const OverTcp := Channels(true, true, Refused, false, NoCrash)
  const DiesAfterSms := Channels(false, true, SmsResult.Delivered, false, AfterSms)

  // ----- writing runs down

  /** The stores a list of steps goes through, each step taken as soon as it is enabled. */
  ghost predicate Leads(ttl: int, states: seq<Store>, steps: seq<Step>) {
    && |states| == |steps| + 1
    && forall i :: 0 <= i < |steps| ==> Follows(ttl, states[i], steps[i], states[i + 1])
  }

  lemma Then(ttl: int, states: seq<Store>, steps: seq<Step>, step: Step, t: Store)
    requires Leads(ttl, states, steps) && Follows(ttl, states[|steps|], step, t)
    ensures Leads(ttl, states + [t], steps + [step])
  {
    var ss, ts := states + [t], steps + [step];
    forall i | 0 <= i < |ts| ensures Follows(ttl, ss[i], ts[i], ss[i + 1]) {
      if i < |steps| { assert Follows(ttl, states[i], steps[i], states[i + 1]); }
    }
  }

  lemma First(ttl: int, s: Store, step: Step, states: seq<Store>, steps: seq<Step>)
    requires Leads(ttl, states, steps) && Follows(ttl, s, step, states[0])
    ensures Leads(ttl, [s] + states, [step] + steps)
  {
    var ss, ts := [s] + states, [step] + steps;
    forall i | 0 <= i < |ts| ensures Follows(ttl, ss[i], ts[i], ss[i + 1]) {
      if i > 0 { assert Follows(ttl, states[i - 1], steps[i - 1], states[i]); }
    }
  }

  lemma ThreeSteps(ttl: int, s: Store, a: Step, t: Store, b: Step, u: Store, c: Step, v: Store)
    requires Follows(ttl, s, a, t) && Follows(ttl, t, b, u) && Follows(ttl, u, c, v)
    ensures Leads(ttl, [s, t, u, v], [a, b, c])
  {
    Then(ttl, [s], [], a, t);
    Then(ttl, [s] + [t], [] + [a], b, u);
    Then(ttl, [s] + [t] + [u], [] + [a] + [b], c, v);
    assert [s] + [t] + [u] + [v] == [s, t, u, v] && [] + [a] + [b] + [c] == [a, b, c];
  }

  /** The first request of a run, for a bike that is not moving and a tracker that is not connected. */
  lemma FirstLock(ttl: int, r: Request, c: Channels, tracker: Device) returns (s: Store)
    requires r == LockRequest(r.bike, "fleet", tracker, c)
    requires tracker.sim != "" && !c.tcp && c.redis && (c.crash == NoCrash || c.crash == AfterSms)
    ensures Follows(ttl, Initial(0), Ask(0, r), s)
    ensures s.now == 0 && s.queued == map[tracker.uid := Queued(0, QUEUE_TTL_MS)]
    ensures s.sms == [SmsAttempt(0, c.sms == SmsResult.Delivered)]
    ensures |s.rows| == 1 && SameIdentity(NewRow(ttl, 0, r), s.rows[0])
    ensures s.rows[0].smsDispatched == (c.sms == SmsResult.Delivered && c.crash == NoCrash)
    ensures s.rows[0].status == if c.crash == AfterSms then Pending
                                else if c.sms == SmsResult.Delivered then Acked else Sent
  {
    s := Apply(ttl, Initial(0), Ask(0, r));
  }

  /** The tracker reconnects and the adapter flushes its queued command. */
  lemma Flushed(ttl: int, s: Store, now: int, uid: string) returns (t: Store)
    requires s.now <= now < QUEUE_TTL_MS && s.queued == map[uid := Queued(0, QUEUE_TTL_MS)] && 0 < |s.rows|
    ensures Follows(ttl, s, Flush(now, uid), t)
    ensures t.now == now && t.sms == s.sms
    ensures t.rows == s.rows[0 := s.rows[0].(status := Sent, sentAt := Some(now), issue := Clear)]
  {
    t := Apply(ttl, s, Flush(now, uid));
  }

  lemma CountOne<T>(x: T, p: T -> bool)
    ensures Count([x], p) == if p(x) then 1 else 0
  {
    CountAppend([], x, p);
    assert [] + [x] == [x];
  }

  lemma SweepSingle(s: Store, now: int, item: SweepItem)
    requires item.id < |s.rows|
    ensures SweepAll(s, now, [item]) == SweepOne(s, now, item)
  {
    assert [item][..0] == [];
    assert SweepAll(s, now, []) == s;
  }

  /** The only row there is, once stale, is the whole batch of the next sweep. */
  lemma SweptAlone(ttl: int, s: Store, now: int, item: SweepItem) returns (t: Store)
    requires |s.rows| == 1 && item.id == 0 && Stale(s.rows[0], now) && s.now <= now
    ensures Follows(ttl, s, Sweep(now, [item], None), t)
    ensures t.now == now && t.queued == s.queued && t.rows == [SweptRow(s.rows[0], now, item)]
    ensures t.sms == s.sms + if Escalates(s.rows[0], item) then [SmsAttempt(0, item.sms == SmsResult.Delivered)] else []
  {
    assert s.rows == [s.rows[0]];
    CountOne(s.rows[0], StaleAt(now));
    SweepSingle(s.(now := now), now, item);
    t := Apply(ttl, s, Sweep(now, [item], None));
  }

  lemma CountRepeats(a: SmsAttempt, n: nat, p: SmsAttempt -> bool)
    requires p(a)
    ensures Count(seq(n, _ => a), p) == n
  {
    if n > 0 {
      CountRepeats(a, n - 1, p);
      assert seq(n, _ => a) == seq(n - 1, _ => a) + [a];
      CountAppend(seq(n - 1, _ => a), a, p);
    }
  }

  // ----- the runs

  /** A flagged command is flushed, found stale with its SMS already sent, and expires as such. */
  lemma FlushedAndSwept(ttl: int, s: Store, tracker: Device) returns (states: seq<Store>, steps: seq<Step>)
    requires ttl >= 0 && |s.rows| == 1 && s.rows[0].smsDispatched && s.rows[0].expiresAt == ttl
    requires s.now <= 1 && s.queued == map[tracker.uid := Queued(0, QUEUE_TTL_MS)]
    ensures Leads(ttl, states, steps) && states[0] == s && |steps| == 2
    ensures |states[1].rows| == 1 && states[1].rows[0].status == Sent && AlreadySentAhead(states[1])
    ensures |states[2].rows| == 1 && states[2].rows[0].status == Expired && states[2].rows[0].issue == SmsUnacknowledged
    ensures forall k :: 0 <= k < |steps| ==> CrashFree(steps[k])
  {
    var item := SweepItem(0, tracker.sim, Refused);
    var t := Flushed(ttl, s, 1, tracker.uid);
    var u := SweptAlone(ttl, t, ttl + 1, item);
    var flush, sweep := Flush(1, tracker.uid), Sweep(ttl + 1, [item], None);
    AheadIffOpen(t);
    Then(ttl, [s], [], flush, t);
    Then(ttl, [s] + [t], [] + [flush], sweep, u);
    states, steps := [s] + [t] + [u], [] + [flush] + [sweep];
  }

  /** A lock acknowledged by SMS is turned back to SENT when the tracker reconnects, and the next
      sweep finds it stale with its SMS already sent: no process died. */
  lemma FlushRevivesFinishedCommand(ttl: int, bike: string, tracker: Device)
    returns (states: seq<Store>, steps: seq<Step>)
    requires tracker.sim != "" && ttl >= 0
    ensures IsRun(ttl, states, steps) && |steps| == 3 && forall k :: 0 <= k < |steps| ==> CrashFree(steps[k])
    ensures |states[1].rows| == 1 && states[1].rows[0].status == Acked
    ensures |states[2].rows| == 1 && states[2].rows[0].status == Sent && AlreadySentAhead(states[2])
    ensures |states[3].rows| == 1 && states[3].rows[0].status == Expired && states[3].rows[0].issue == SmsUnacknowledged
  {
    var r := LockRequest(bike, "fleet", tracker, SmsOnly);
    var s := FirstLock(ttl, r, SmsOnly, tracker);
    var ss, ts := FlushedAndSwept(ttl, s, tracker);
    First(ttl, Initial(0), Ask(0, r), ss, ts);
    states, steps := [Initial(0)] + ss, [Ask(0, r)] + ts;
  }

  /** A finished lock does not hold up the next one. */
  lemma SecondLock(ttl: int, s: Store, r: Request, tracker: Device) returns (t: Store)
    requires s.now <= 1 && |s.rows| == 1 && Terminal(s.rows[0].status)
    requires r == LockRequest(r.bike, "fleet", tracker, OverTcp)
    ensures Follows(ttl, s, Ask(1, r), t)
    ensures t.now == 1 && t.queued == s.queued && |t.rows| == 2 && t.rows[0] == s.rows[0]
    ensures SameIdentity(NewRow(ttl, 1, r), t.rows[1]) && t.rows[1].status == Sent
  {
    t := Apply(ttl, s, Ask(1, r));
  }

  /** The same flush leaves two unfinished locks of one bike one millisecond apart. */
  lemma FlushDefeatsDebounce(ttl: int, bike: string, tracker: Device)
    returns (states: seq<Store>, steps: seq<Step>)
    requires tracker.sim != ""
    ensures IsRun(ttl, states, steps) && |steps| == 3 && |states[3].rows| == 2
    ensures var a, b := states[3].rows[0], states[3].rows[1];
      !Terminal(a.status) && InProgress(b, a.bike, a.kind) && b.createdAt - a.createdAt == 1
  {
    var one, two := LockRequest(bike, "fleet", tracker, SmsOnly), LockRequest(bike, "fleet", tracker, OverTcp);
    var s := FirstLock(ttl, one, SmsOnly, tracker);
    var t := SecondLock(ttl, s, two, tracker);
    var u := Flushed(ttl, t, 2, tracker.uid);
    steps := [Ask(0, one), Ask(1, two), Flush(2, tracker.uid)];
    states := [Initial(0), s, t, u];
    ThreeSteps(ttl, Initial(0), steps[0], s, steps[1], t, steps[2], u);
  }

  /** An open command whose SMS is refused is tried once by the sweep that expires it, and once more
      by the sweep after a flush has revived it. */
  lemma ExpiredAndRevived(ttl: int, s: Store, now: int, tracker: Device) returns (states: seq<Store>, steps: seq<Step>)
    requires |s.rows| == 1 && Stale(s.rows[0], now) && !s.rows[0].smsDispatched && Trim(tracker.sim) != ""
    requires s.now <= now < QUEUE_TTL_MS && s.queued == map[tracker.uid := Queued(0, QUEUE_TTL_MS)]
    requires s.sms == [SmsAttempt(0, false)]
    ensures Leads(ttl, states, steps) && states[0] == s && |steps| == 3
    ensures states[3].sms == seq(3, _ => SmsAttempt(0, false))
    ensures forall k :: 0 <= k < |steps| ==> CrashFree(steps[k])
  {
    var item := SweepItem(0, tracker.sim, Refused);
    var t := SweptAlone(ttl, s, now, item);
    var u := Flushed(ttl, t, now, tracker.uid);
    var v := SweptAlone(ttl, u, now, item);
    steps := [Sweep(now, [item], None), Flush(now, tracker.uid), Sweep(now, [item], None)];
    states := [s, t, u, v];
    ThreeSteps(ttl, s, steps[0], t, steps[1], u, steps[2], v);
  }

  /** A crash-free run with three SMS attempts: refused at the request, refused by the sweep that
      expires the command, and tried again by the sweep after a flush revived it. */
  lemma RevivalCostsThirdAttempt(ttl: int, bike: string, tracker: Device)
    returns (states: seq<Store>, steps: seq<Step>)
    requires Trim(tracker.sim) != "" && tracker.sim != "" && 0 <= ttl < QUEUE_TTL_MS - 1
    ensures IsRun(ttl, states, steps) && |steps| == 4 && forall k :: 0 <= k < |steps| ==> CrashFree(steps[k])
    ensures Attempts(states[4], 0) == 3
  {
    var r := LockRequest(bike, "fleet", tracker, NothingWorks);
    var s := FirstLock(ttl, r, NothingWorks, tracker);
    var ss, ts := ExpiredAndRevived(ttl, s, ttl + 1, tracker);
    First(ttl, Initial(0), Ask(0, r), ss, ts);
    states, steps := [Initial(0)] + ss, [Ask(0, r)] + ts;
    CountRepeats(SmsAttempt(0, false), 3, AttemptFor(0));
  }

  /** A death between the provider call and the write costs a second delivered SMS. */
  lemma CrashCostsSecondDelivery(ttl: int, bike: string, tracker: Device)
    returns (states: seq<Store>, steps: seq<Step>)
    requires tracker.sim != "" && Trim(tracker.sim) != "" && ttl >= 0
    ensures OwnRun(ttl, states, steps) && |steps| == 2
    ensures Deliveries(states[2], 0) == 2
  {
    var r, item := LockRequest(bike, "fleet", tracker, DiesAfterSms), SweepItem(0, tracker.sim, SmsResult.Delivered);
    var s := FirstLock(ttl, r, DiesAfterSms, tracker);
    var t := SweptAlone(ttl, s, ttl + 1, item);
    var ask, sweep := Ask(0, r), Sweep(ttl + 1, [item], None);
    Then(ttl, [Initial(0)], [], ask, s);
    Then(ttl, [Initial(0)] + [s], [] + [ask], sweep, t);
    states, steps := [Initial(0)] + [s] + [t], [] + [ask] + [sweep];
    CountRepeats(SmsAttempt(0, true), 2, DeliveryFor(0));
    assert t.sms == seq(2, _ => SmsAttempt(0, true));
  }
}
