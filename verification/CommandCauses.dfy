/** Why a command is in the state it is in: every end has a cause earlier in the run. */
module CommandCauses {
  import opened Prelude
  import opened CommandModel
  import opened CommandProofs
  import opened CommandTheorems

  /** The device named by the row, in the row's fleet, answered for this command. */
  predicate Answered(row: Row, id: nat, a: Ack) {
    a.id == id && a.device == row.device && a.fleet == row.fleet
  }

  /** An item of the sweep for this command, which was past its expiry, escalated or not. */
  ghost predicate SweptAs(s: Store, now: int, items: seq<SweepItem>, id: nat, row: Row, escalated: bool) {
    exists i :: 0 <= i < |items| && items[i].id == id && row.expiresAt < now
      && id < |s.rows| && (escalated <==> Escalates(s.rows[id], items[i]) && items[i].sms == Delivered)
  }

  /** The step that gave command `id` the terminal status of `row`, taken in store `s`. */
  ghost predicate Causes(s: Store, step: Step, id: nat, row: Row) {
    match row.status
    case Failed =>
      step.DeviceAck? && Answered(row, id, step.ack) && !step.ack.ok && step.ack.ts <= row.expiresAt
    case Expired =>
      || (step.DeviceAck? && Answered(row, id, step.ack) && step.ack.ts > row.expiresAt)
      || (step.Sweep? && SweptAs(s, step.now, step.items, id, row, false))
    case Acked =>
      || (step.DeviceAck? && Answered(row, id, step.ack) && step.ack.ok && step.ack.ts <= row.expiresAt)
      || (step.Sweep? && SweptAs(s, step.now, step.items, id, row, true))
      || (step.Ask? && id == |s.rows| && !step.request.channels.tcp && step.request.channels.sms == Delivered
          && step.request.device.Some? && step.request.device.value.sim != "")
      || (step.TcpAck? && step.device == row.device && step.pick == Some(id) && row.expiresAt >= step.now)
    case _ => false
  }

  ghost predicate Ended(s: Store, t: Store, id: nat) {
    && id < |t.rows| && Terminal(t.rows[id].status)
    && (id < |s.rows| ==> s.rows[id].status != t.rows[id].status)
  }

  lemma SweepCause(s: Store, now: int, items: seq<SweepItem>, id: nat)
    requires Batch(s, items) && (forall i :: 0 <= i < |items| ==> Stale(s.rows[items[i].id], now))
    requires Ended(s, SweepAll(s, now, items), id)
    ensures var row := SweepAll(s, now, items).rows[id];
      (row.status == Acked || row.status == Expired) && SweptAs(s, now, items, id, row, row.status == Acked)
  {
    SweepAllExact(s, now, items);
    assert Listed(items, id);
    var i :| 0 <= i < |items| && items[i].id == id;
    assert SweepAll(s, now, items).rows[items[i].id] == SweptRow(s.rows[items[i].id], now, items[i]);
  }

  lemma AskCause(ttl: int, s: Store, now: int, r: Request, id: nat)
    requires Ended(s, AskFor(ttl, s, now, r), id)
    ensures id == |s.rows| && AskFor(ttl, s, now, r).rows[id].status == Acked
    ensures !r.channels.tcp && r.channels.sms == Delivered && r.device.Some? && r.device.value.sim != ""
  {
  }

  lemma StepCause(ttl: int, s: Store, step: Step, id: nat)
    requires Enabled(s, step) && Ended(s, Apply(ttl, s, step), id)
    ensures Causes(s, step, id, Apply(ttl, s, step).rows[id])
  {
    var u, t := s.(now := step.now), Apply(ttl, s, step);
    match step
    case Telemetry(_, _) =>
    case Ask(now, r) => AskCause(ttl, u, now, r, id);
    case DeviceAck(_, a) =>
    case Sweep(now, items, _) =>
      SweepCause(u, now, items, id);
      var row := t.rows[id];
      var i :| 0 <= i < |items| && items[i].id == id && row.expiresAt < now
        && (row.status == Acked <==> Escalates(u.rows[id], items[i]) && items[i].sms == Delivered);
      assert SweptAs(s, now, items, id, row, row.status == Acked);
    case Flush(_, _) =>
    case TcpAck(_, _, _) =>
  }

  /** Every finished command was finished by an earlier step with the right to do so: FAILED only by
      its own device's timely refusal, ACKED only by its own device's timely answer or a delivered
      SMS, EXPIRED only by a late answer or by a sweep after its expiry that had no SMS to fall back on. */
  lemma {:induction false} EveryEndHasACause(ttl: int, states: seq<Store>, steps: seq<Step>, n: nat, id: nat)
    requires IsRun(ttl, states, steps) && n < |states|
    requires id < |states[n].rows| && Terminal(states[n].rows[id].status)
    ensures exists i ::
      && 0 <= i < n && id < |states[i + 1].rows|
      && states[i + 1].rows[id].status == states[n].rows[id].status
      && Causes(states[i], steps[i], id, states[i + 1].rows[id])
  {
    var s, step, t := states[n - 1], steps[n - 1], states[n];
    assert Follows(ttl, s, step, t);
    if Ended(s, t, id) {
      StepCause(ttl, s, step, id);
      assert Causes(states[n - 1], steps[n - 1], id, states[n - 1 + 1].rows[id]);
    } else {
      EveryEndHasACause(ttl, states, steps, n - 1, id);
      var i :| 0 <= i < n - 1 && id < |states[i + 1].rows|
        && states[i + 1].rows[id].status == states[n - 1].rows[id].status
        && Causes(states[i], steps[i], id, states[i + 1].rows[id]);
    }
  }

  // ----- the queue read by the tracker adapter

  /** A queued entry names an existing command and lives ten minutes from its creation. */
  ghost predicate QueueSound(s: Store) {
    forall uid :: uid in s.queued ==>
      && s.queued[uid].id < |s.rows|
      && s.queued[uid].until == s.rows[s.queued[uid].id].createdAt + QUEUE_TTL_MS
  }

  lemma DispatchQueue(s: Store, now: int, r: Request, id: nat)
    requires id < |s.rows| && r.device.Some?
    ensures var queued := Dispatch(s, now, r, id).queued;
      queued == s.queued || queued == QueueCommand(s, now, r, id).queued
  {
  }

  lemma AskQueue(ttl: int, s: Store, now: int, r: Request)
    requires QueueSound(s) && Grows(Any, s, AskFor(ttl, s, now, r))
    ensures QueueSound(AskFor(ttl, s, now, r))
  {
    AskCreates(ttl, s, now, r);
    if Judge(s, now, r) == Accepted {
      DispatchQueue(s.(rows := s.rows + [NewRow(ttl, now, r)]), now, r, |s.rows|);
    }
  }

  lemma NothingQueued(s: Store, t: Store)
    requires QueueSound(s) && Grows(Any, s, t)
    requires forall uid :: uid in t.queued ==> uid in s.queued && t.queued[uid] == s.queued[uid]
    ensures QueueSound(t)
  {
  }

  lemma OnlyRequestsQueue(ttl: int, s: Store, step: Step, uid: string)
    requires Enabled(s, step) && !step.Ask?
    ensures var t := Apply(ttl, s, step); uid in t.queued ==> uid in s.queued && t.queued[uid] == s.queued[uid]
  {
    if step.Sweep? { SweepLeavesQueue(s.(now := step.now), step.now, step.items); }
  }

  lemma StepQueue(ttl: int, s: Store, step: Step)
    requires QueueSound(s) && Enabled(s, step) && Grows(Any, s, Apply(ttl, s, step))
    ensures QueueSound(Apply(ttl, s, step))
  {
    if step.Ask? {
      AskQueue(ttl, s.(now := step.now), step.now, step.request);
    } else {
      forall uid | uid in Apply(ttl, s, step).queued
        ensures uid in s.queued && Apply(ttl, s, step).queued[uid] == s.queued[uid]
      {
        OnlyRequestsQueue(ttl, s, step, uid);
      }
      NothingQueued(s, Apply(ttl, s, step));
    }
  }

  lemma {:induction false} SweepLeavesQueue(s: Store, now: int, items: seq<SweepItem>)
    requires forall i :: 0 <= i < |items| ==> items[i].id < |s.rows|
    ensures SweepAll(s, now, items).queued == s.queued
  {
    if |items| > 0 { SweepLeavesQueue(s, now, items[..|items| - 1]); }
  }

  /** In every run the queue only names existing commands, each for ten minutes from its creation;
      so a flush can revive a finished command only within ten minutes of the request. */
  lemma {:induction false} QueueNamesRecentCommands(ttl: int, states: seq<Store>, steps: seq<Step>, i: nat)
    requires IsRun(ttl, states, steps) && i < |states|
    ensures QueueSound(states[i])
    ensures forall now, uid :: LiveQueued(states[i], now, uid) ==>
      now - states[i].rows[states[i].queued[uid].id].createdAt < 600_000
  {
    if i > 0 {
      QueueNamesRecentCommands(ttl, states, steps, i - 1);
      assert Follows(ttl, states[i - 1], steps[i - 1], states[i]);
      StepGrows(Any, ttl, states, steps, i - 1);
      StepQueue(ttl, states[i - 1], steps[i - 1]);
    }
  }
}
