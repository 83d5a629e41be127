/** What commands cost in SMS, in every run: each attempt and each delivery is accounted for. */
module CommandSms {
  import opened Prelude
  import opened CommandModel
  import opened CommandProofs
  import opened CommandTallies
  import opened CommandTheorems
  import opened CommandCauses

  ghost function AttemptFor(id: nat): SmsAttempt -> bool {
    (a: SmsAttempt) => a.id == id
  }

  ghost function DeliveryFor(id: nat): SmsAttempt -> bool {
    (a: SmsAttempt) => a.id == id && a.delivered
  }

  ghost function Attempts(s: Store, id: nat): nat {
    Count(s.sms, AttemptFor(id))
  }

  ghost function Deliveries(s: Store, id: nat): nat {
    Count(s.sms, DeliveryFor(id))
  }

  predicate Flagged(s: Store, id: nat) {
    id < |s.rows| && s.rows[id].smsDispatched
  }

  predicate Open(s: Store, id: nat) {
    id < |s.rows| && !Terminal(s.rows[id].status)
  }

  function One(b: bool): nat {
    if b then 1 else 0
  }

  /** Deliveries the flag does not speak for. */
  ghost function Unrecorded(s: Store, id: nat): int {
    Deliveries(s, id) - One(Flagged(s, id))
  }

  // ----- requests

  lemma LogSmsCounts(s: Store, id: nat, r: SmsResult, other: nat)
    ensures Attempts(LogSms(s, id, r), other) == Attempts(s, other) + One(id == other)
    ensures Deliveries(LogSms(s, id, r), other) == Deliveries(s, other) + One(id == other && r == SmsResult.Delivered)
  {
    CountAppend(s.sms, SmsAttempt(id, r == SmsResult.Delivered), AttemptFor(other));
    CountAppend(s.sms, SmsAttempt(id, r == SmsResult.Delivered), DeliveryFor(other));
  }

  /** What the dispatch of a fresh row leaves behind, wherever it ends. */
  lemma DispatchOutcome(s: Store, now: int, r: Request, id: nat)
    requires id < |s.rows| && r.device.Some? && s.rows[id].status == Pending && !s.rows[id].smsDispatched
    ensures var t, c := Dispatch(s, now, r, id), r.channels;
      var bySms := !c.tcp && r.device.value.sim != "" && c.crash != AfterCreate && c.crash != AfterQueue;
      && t.rows == s.rows[id := t.rows[id]]
      && t.sms == (if bySms then LogSms(s, id, c.sms).sms else s.sms)
      && (t.rows[id].smsDispatched <==> bySms && c.sms == SmsResult.Delivered && c.crash != AfterSms)
      && (t.rows[id].smsDispatched ==> (Terminal(t.rows[id].status) <==> c.crash != AfterSmsRecorded))
  {
  }

  /** What an accepted request leaves behind. */
  lemma AskOutcome(ttl: int, s: Store, now: int, r: Request)
    requires Judge(s, now, r) == Accepted
    ensures var t, bySms := AskFor(ttl, s, now, r), AsksBySms(s, now, r);
      && |t.rows| == |s.rows| + 1 && (forall id :: 0 <= id < |s.rows| ==> t.rows[id] == s.rows[id])
      && t.sms == (if bySms then LogSms(s, |s.rows|, r.channels.sms).sms else s.sms)
      && (t.rows[|s.rows|].smsDispatched <==>
            bySms && r.channels.sms == SmsResult.Delivered && r.channels.crash != AfterSms)
      && (t.rows[|s.rows|].smsDispatched ==>
            (Terminal(t.rows[|s.rows|].status) <==> r.channels.crash != AfterSmsRecorded))
  {
    DispatchOutcome(s.(rows := s.rows + [NewRow(ttl, now, r)]), now, r, |s.rows|);
  }

  lemma AskBalance(ttl: int, s: Store, now: int, r: Request, id: nat)
    ensures var t, step := AskFor(ttl, s, now, r), Ask(now, r);
      && Unrecorded(t, id) == Unrecorded(s, id) + One(LosesDelivery(s, step, id))
      && Attempts(t, id) == Attempts(s, id) + One(RequestTries(s, step, id))
  {
    if Judge(s, now, r) == Accepted {
      AskOutcome(ttl, s, now, r);
      LogSmsCounts(s, |s.rows|, r.channels.sms, id);
    }
  }

  /** Moving the clock moves no account. */
  lemma ClockAside(s: Store, now: int, step: Step, id: nat)
    ensures var u := s.(now := now);
      && Unrecorded(u, id) == Unrecorded(s, id) && Attempts(u, id) == Attempts(s, id)
      && LosesDelivery(u, step, id) == LosesDelivery(s, step, id) && RequestTries(u, step, id) == RequestTries(s, step, id)
  {
  }

  lemma AskStepBalance(ttl: int, s: Store, now: int, r: Request, id: nat)
    requires Enabled(s, Ask(now, r))
    ensures var t, step := Apply(ttl, s, Ask(now, r)), Ask(now, r);
      && Unrecorded(t, id) == Unrecorded(s, id) + One(LosesDelivery(s, step, id))
      && Attempts(t, id) == Attempts(s, id) + One(RequestTries(s, step, id))
  {
    assert Apply(ttl, s, Ask(now, r)) == AskFor(ttl, s.(now := now), now, r);
    AskBalance(ttl, s.(now := now), now, r, id);
    ClockAside(s, now, Ask(now, r), id);
  }

  // ----- sweeps

  lemma SweepOneBalance(s: Store, now: int, item: SweepItem, id: nat)
    requires item.id < |s.rows|
    ensures var t := SweepOne(s, now, item);
      && Unrecorded(t, id) == Unrecorded(s, id)
      && Attempts(t, id) == Attempts(s, id) + One(item.id == id && Escalates(s.rows[item.id], item))
  {
    var row := s.rows[item.id];
    var u := if Escalates(row, item) then LogSms(s, item.id, item.sms) else s;
    LogSmsCounts(s, item.id, item.sms, id);
    assert SweepOne(s, now, item).sms == u.sms;
    assert SweepOne(s, now, item).rows == s.rows[item.id := SweptRow(row, now, item)];
  }

  lemma EscalatedLast(s: Store, items: seq<SweepItem>, id: nat)
    requires Batch(s, items) && |items| > 0
    ensures var init, last := items[..|items| - 1], items[|items| - 1];
      One(EscalatedIn(s, items, id)) == One(EscalatedIn(s, init, id)) + One(last.id == id && Escalates(s.rows[last.id], last))
  {
    var init, last := items[..|items| - 1], items[|items| - 1];
    if EscalatedIn(s, init, id) {
      var i :| 0 <= i < |init| && init[i].id == id && Escalates(s.rows[id], init[i]);
      assert items[i] == init[i] && items[i].id != last.id;
    }
    if EscalatedIn(s, items, id) {
      var i :| 0 <= i < |items| && items[i].id == id && Escalates(s.rows[id], items[i]);
      assert i == |init| || init[i] == items[i];
    }
    assert items[|items| - 1] == last;
  }

  lemma {:induction false} SweepAllBalance(s: Store, now: int, items: seq<SweepItem>, id: nat)
    requires Batch(s, items)
    ensures var t := SweepAll(s, now, items);
      && Unrecorded(t, id) == Unrecorded(s, id)
      && Attempts(t, id) == Attempts(s, id) + One(EscalatedIn(s, items, id))
  {
    if |items| > 0 {
      var init, last := items[..|items| - 1], items[|items| - 1];
      SweepAllBalance(s, now, init, id);
      SweepLeaves(s, now, init, last.id);
      SweepOneBalance(SweepAll(s, now, init), now, last, id);
      EscalatedLast(s, items, id);
    }
  }

  lemma DyingBalance(s: Store, d: SweepItem, id: nat)
    requires d.id < |s.rows|
    ensures var t, called := DyingSms(s, d), d.id == id && Escalates(s.rows[d.id], d);
      && Unrecorded(t, id) == Unrecorded(s, id) + One(called && d.sms == SmsResult.Delivered)
      && Attempts(t, id) == Attempts(s, id) + One(called)
  {
    LogSmsCounts(s, d.id, d.sms, id);
  }

  lemma SweepBalance(ttl: int, s: Store, now: int, items: seq<SweepItem>, dying: Option<SweepItem>, id: nat)
    requires Enabled(s, Sweep(now, items, dying))
    ensures var step := Sweep(now, items, dying); var t := Apply(ttl, s, step);
      && Unrecorded(t, id) == Unrecorded(s, id) + One(LosesDelivery(s, step, id))
      && Attempts(t, id) == Attempts(s, id) + One(SweepTries(s, step, id))
  {
    var u := s.(now := now);
    SweepAllBalance(u, now, items, id);
    assert EscalatedIn(u, items, id) == EscalatedIn(s, items, id);
    if dying.Some? {
      SweepLeaves(u, now, items, dying.value.id);
      DyingBalance(SweepAll(u, now, items), dying.value, id);
    }
  }

  /** A command for which a sweep calls the provider was open and, unless the sweep died over it, is
      so no more; no sweep opens one. */
  lemma SweepCloses(ttl: int, s: Store, now: int, items: seq<SweepItem>, dying: Option<SweepItem>, id: nat)
    requires Enabled(s, Sweep(now, items, dying))
    ensures var step := Sweep(now, items, dying); var t := Apply(ttl, s, step);
      && |t.rows| == |s.rows|
      && One(SweepTries(s, step, id)) + One(Open(t, id)) <= One(Open(s, id)) + One(LosesCall(s, step, id))
  {
    var u := s.(now := now);
    if id < |s.rows| {
      SweepTouches(u, now, items, id);
      if EscalatedIn(s, items, id) {
        var i :| 0 <= i < |items| && items[i].id == id && Escalates(s.rows[id], items[i]);
        assert Listed(items, id) && Stale(s.rows[items[i].id], now);
      }
    }
  }

  // ----- steps

  /** A step that calls no provider and changes no flag; if it opens anything, it is a revival. */
  lemma QuietBalance(ttl: int, s: Store, step: Step, id: nat)
    requires Enabled(s, step) && !step.Ask? && !step.Sweep?
    ensures var t := Apply(ttl, s, step);
      && t.sms == s.sms && Flagged(t, id) == Flagged(s, id) && |t.rows| == |s.rows|
      && One(Open(t, id)) <= One(Open(s, id)) + One(Revives(s, step, id))
  {
  }

  lemma StepBalance(ttl: int, s: Store, step: Step, id: nat)
    requires Enabled(s, step)
    ensures var t := Apply(ttl, s, step);
      && Unrecorded(t, id) == Unrecorded(s, id) + One(LosesDelivery(s, step, id))
      && Attempts(t, id) == Attempts(s, id) + One(RequestTries(s, step, id)) + One(SweepTries(s, step, id))
  {
    match step
    case Ask(now, r) => AskStepBalance(ttl, s, now, r, id);
    case Sweep(now, items, dying) => SweepBalance(ttl, s, now, items, dying, id);
    case _ => QuietBalance(ttl, s, step, id);
  }

  /** A command's one request creates it; a sweep that calls the provider for it closes it, and only
      a revival opens it again. */
  lemma StepTries(ttl: int, s: Store, step: Step, id: nat)
    requires Enabled(s, step)
    ensures var t := Apply(ttl, s, step);
      && One(id < |s.rows|) + One(RequestTries(s, step, id)) <= One(id < |t.rows|)
      && One(SweepTries(s, step, id)) + One(Open(t, id)) + One(id < |s.rows|)
           <= One(Open(s, id)) + One(id < |t.rows|) + One(Revives(s, step, id)) + One(LosesCall(s, step, id))
  {
    match step
    case Ask(now, r) =>
      AskCreates(ttl, s.(now := now), now, r);
      if Judge(s, now, r) == Accepted { AskOutcome(ttl, s.(now := now), now, r); }
    case Sweep(now, items, dying) => SweepCloses(ttl, s, now, items, dying, id);
    case _ => QuietBalance(ttl, s, step, id);
  }

  // ----- a command is revived at most once

  /** The trackers whose queue entry names the command. */
  ghost function Naming(s: Store, id: nat): set<string> {
    set uid | uid in s.queued && s.queued[uid].id == id
  }

  lemma AskNaming(ttl: int, s: Store, now: int, r: Request, id: nat)
    requires QueueSound(s)
    ensures var t := AskFor(ttl, s, now, r);
      if id == |s.rows| < |t.rows| then |Naming(t, id)| <= 1 else Naming(t, id) <= Naming(s, id)
  {
    var t := AskFor(ttl, s, now, r);
    AskCreates(ttl, s, now, r);
    if Judge(s, now, r) == Accepted {
      DispatchQueue(s.(rows := s.rows + [NewRow(ttl, now, r)]), now, r, |s.rows|);
      if id == |s.rows| {
        assert Naming(t, id) <= {r.device.value.uid};
        SmallerSet(Naming(t, id), {r.device.value.uid});
      }
    }
  }

  lemma FlushNaming(ttl: int, s: Store, step: Step, id: nat)
    requires Enabled(s, step) && Revives(s, step, id)
    ensures |Naming(Apply(ttl, s, step), id)| <= |Naming(s, id)| - 1
  {
    SmallerSet(Naming(Apply(ttl, s, step), id), Naming(s, id) - {step.uid});
  }

  lemma StepNaming(ttl: int, s: Store, step: Step, id: nat)
    requires QueueSound(s) && Enabled(s, step)
    ensures var t := Apply(ttl, s, step);
      |Naming(t, id)| + One(Revives(s, step, id)) <= |Naming(s, id)| + (if id == |s.rows| < |t.rows| then 1 else 0)
  {
    var t := Apply(ttl, s, step);
    if Revives(s, step, id) {
      FlushNaming(ttl, s, step, id);
    } else if step.Ask? {
      AskNaming(ttl, s.(now := step.now), step.now, step.request, id);
      if Naming(t, id) <= Naming(s, id) { SmallerSet(Naming(t, id), Naming(s, id)); }
    } else {
      forall uid | uid in Naming(t, id) ensures uid in Naming(s, id) { OnlyRequestsQueue(ttl, s, step, uid); }
      SmallerSet(Naming(t, id), Naming(s, id));
    }
  }

  /** A queue entry only ever names the command just created, and a flush removes it: so in every run
      a command is revived at most once. */
  lemma {:induction false} RevivedAtMostOnce(ttl: int, states: seq<Store>, steps: seq<Step>, n: nat, id: nat)
    requires IsRun(ttl, states, steps) && n < |states|
    ensures |Naming(states[n], id)| + Times(states, steps, n, Revival(id)) <= One(id < |states[n].rows|)
  {
    if n == 0 {
      assert Naming(states[0], id) == {};
    } else {
      RevivedAtMostOnce(ttl, states, steps, n - 1, id);
      assert Follows(ttl, states[n - 1], steps[n - 1], states[n]);
      QueueNamesRecentCommands(ttl, states, steps, n - 1);
      StepGrows(Any, ttl, states, steps, n - 1);
      StepNaming(ttl, states[n - 1], steps[n - 1], id);
    }
  }

  // ----- the accounts of whole runs

  lemma NextDelivery(ttl: int, s: Store, step: Step, t: Store, id: nat)
    requires Follows(ttl, s, step, t)
    ensures Unrecorded(t, id) == Unrecorded(s, id) + One(Marked(LostDelivery(id), s, step))
  {
    StepBalance(ttl, s, step, id);
  }

  lemma NextAttempt(ttl: int, s: Store, step: Step, t: Store, id: nat)
    requires Follows(ttl, s, step, t)
    ensures Attempts(t, id) == Attempts(s, id) + One(Marked(RequestTry(id), s, step)) + One(Marked(SweepTry(id), s, step))
  {
    StepBalance(ttl, s, step, id);
  }

  lemma NextTry(ttl: int, s: Store, step: Step, t: Store, id: nat)
    requires Follows(ttl, s, step, t)
    ensures One(id < |s.rows|) + One(Marked(RequestTry(id), s, step)) <= One(id < |t.rows|)
    ensures One(Marked(SweepTry(id), s, step)) + One(Open(t, id)) + One(id < |s.rows|)
         <= One(Open(s, id)) + One(id < |t.rows|) + One(Marked(Revival(id), s, step)) + One(Marked(LostCall(id), s, step))
  {
    StepTries(ttl, s, step, id);
  }

  lemma {:induction false} DeliveriesCounted(ttl: int, states: seq<Store>, steps: seq<Step>, n: nat, id: nat)
    requires IsRun(ttl, states, steps) && n < |states|
    ensures Unrecorded(states[n], id) == Times(states, steps, n, LostDelivery(id))
  {
    if n > 0 {
      DeliveriesCounted(ttl, states, steps, n - 1, id);
      NextDelivery(ttl, states[n - 1], steps[n - 1], states[n - 1 + 1], id);
    }
  }

  lemma {:induction false} AttemptsCounted(ttl: int, states: seq<Store>, steps: seq<Step>, n: nat, id: nat)
    requires IsRun(ttl, states, steps) && n < |states|
    ensures Attempts(states[n], id) == Times(states, steps, n, RequestTry(id)) + Times(states, steps, n, SweepTry(id))
  {
    if n > 0 {
      AttemptsCounted(ttl, states, steps, n - 1, id);
      NextAttempt(ttl, states[n - 1], steps[n - 1], states[n - 1 + 1], id);
    }
  }

  lemma {:induction false} TriesBounded(ttl: int, states: seq<Store>, steps: seq<Step>, n: nat, id: nat)
    requires IsRun(ttl, states, steps) && n < |states|
    ensures Times(states, steps, n, RequestTry(id)) <= One(id < |states[n].rows|)
    ensures Times(states, steps, n, SweepTry(id)) + One(Open(states[n], id))
         <= One(id < |states[n].rows|) + Times(states, steps, n, Revival(id)) + Times(states, steps, n, LostCall(id))
  {
    if n > 0 {
      TriesBounded(ttl, states, steps, n - 1, id);
      NextTry(ttl, states[n - 1], steps[n - 1], states[n - 1 + 1], id);
    }
  }

  /** The accounts of every run whatsoever. Deliveries: exactly the one the flag records and one for
      each death between a delivery and its record. Attempts: exactly the request that called the
      provider and the sweeps that did. There is at most one such request and one revival; sweeps,
      with one ahead while the command is open, are at most one, one per revival and one per death. */
  lemma SmsAccounts(ttl: int, states: seq<Store>, steps: seq<Step>, n: nat, id: nat)
    requires IsRun(ttl, states, steps) && n < |states|
    ensures Deliveries(states[n], id) == One(Flagged(states[n], id)) + Times(states, steps, n, LostDelivery(id))
    ensures Attempts(states[n], id) == Times(states, steps, n, RequestTry(id)) + Times(states, steps, n, SweepTry(id))
    ensures Times(states, steps, n, RequestTry(id)) <= 1 && Times(states, steps, n, Revival(id)) <= 1
    ensures Times(states, steps, n, SweepTry(id)) + One(Open(states[n], id))
         <= 1 + Times(states, steps, n, Revival(id)) + Times(states, steps, n, LostCall(id))
  {
    DeliveriesCounted(ttl, states, steps, n, id);
    AttemptsCounted(ttl, states, steps, n, id);
    TriesBounded(ttl, states, steps, n, id);
    RevivedAtMostOnce(ttl, states, steps, n, id);
  }

  /** Without a crash, the adapter included, a command is delivered at most one SMS and at most three
      are attempted. More than two are attempted exactly when its request and two sweeps called the
      provider, which takes a revival: so never if no flush finds its queued command finished. */
  lemma SmsEconomy(ttl: int, states: seq<Store>, steps: seq<Step>, n: nat, id: nat)
    requires IsRun(ttl, states, steps) && n < |states|
    requires forall k :: 0 <= k < |steps| ==> CrashFree(steps[k])
    ensures Deliveries(states[n], id) <= 1 && Attempts(states[n], id) <= 3
    ensures Attempts(states[n], id) > 2
       <==> Times(states, steps, n, RequestTry(id)) == 1 && Times(states, steps, n, SweepTry(id)) == 2
    ensures Attempts(states[n], id) > 2 ==> Times(states, steps, n, Revival(id)) == 1
    ensures CleanRun(ttl, states, steps) ==> Attempts(states[n], id) <= 2
  {
    SmsAccounts(ttl, states, steps, n, id);
    forall k | 0 <= k < n ensures !LosesDelivery(states[k], steps[k], id) && !LosesCall(states[k], steps[k], id) {
      assert CrashFree(steps[k]);
    }
    NeverMeansZero(states, steps, n, LostDelivery(id));
    NeverMeansZero(states, steps, n, LostCall(id));
    if CleanRun(ttl, states, steps) {
      forall k | 0 <= k < n ensures !Marked(Revival(id), states[k], steps[k]) {
        assert CleanStep(states[k], steps[k]);
      }
      NeverMeansZero(states, steps, n, Revival(id));
    }
  }

  // ----- the sweeper's "SMS fallback already sent" case

  /** Some sweep from here on would find a stale command whose SMS has already been sent. */
  ghost predicate AlreadySentAhead(s: Store) {
    exists id :: 0 <= id < |s.rows| && s.rows[id].smsDispatched && exists now :: s.now <= now && Stale(s.rows[id], now)
  }

  /** A request that dies after recording its SMS, or a flush that reopens a command with one. */
  ghost predicate Strands(s: Store, step: Step) {
    match step
    case Ask(now, r) => AsksBySms(s, now, r) && r.channels.sms == SmsResult.Delivered && r.channels.crash == AfterSmsRecorded
    case Flush(now, uid) =>
      LiveQueued(s, now, uid) && var row := s.rows[s.queued[uid].id]; Terminal(row.status) && row.smsDispatched
    case _ => false
  }

  ghost predicate FlaggedAreFinished(s: Store) {
    forall id :: 0 <= id < |s.rows| && s.rows[id].smsDispatched ==> Terminal(s.rows[id].status)
  }

  lemma AheadIffOpen(s: Store)
    ensures AlreadySentAhead(s) <==> !FlaggedAreFinished(s)
  {
    if !FlaggedAreFinished(s) {
      var id :| 0 <= id < |s.rows| && s.rows[id].smsDispatched && !Terminal(s.rows[id].status);
      assert Stale(s.rows[id], Max(s.now, s.rows[id].expiresAt + 1));
    }
  }

  lemma SweepKeepsFlagged(s: Store, now: int, items: seq<SweepItem>)
    requires FlaggedAreFinished(s) && Batch(s, items)
    ensures FlaggedAreFinished(SweepAll(s, now, items))
  {
    var t := SweepAll(s, now, items);
    forall id | 0 <= id < |t.rows| && t.rows[id].smsDispatched ensures Terminal(t.rows[id].status) {
      SweepTouches(s, now, items, id);
    }
  }

  lemma AskFlagged(ttl: int, s: Store, now: int, r: Request)
    requires FlaggedAreFinished(s)
    ensures FlaggedAreFinished(AskFor(ttl, s, now, r)) <==> !Strands(s, Ask(now, r))
  {
    if Judge(s, now, r) == Accepted {
      AskOutcome(ttl, s, now, r);
      assert Strands(s, Ask(now, r)) ==> AskFor(ttl, s, now, r).rows[|s.rows|].smsDispatched;
    }
  }

  lemma FlushFlagged(s: Store, now: int, uid: string)
    requires FlaggedAreFinished(s)
    ensures FlaggedAreFinished(FlushQueued(s, now, uid)) <==> !Strands(s, Flush(now, uid))
  {
    var t := FlushQueued(s, now, uid);
    assert LiveQueued(s, now, uid) ==> t.rows[s.queued[uid].id].status == Sent;
  }

  lemma StepFlagged(ttl: int, s: Store, step: Step)
    requires FlaggedAreFinished(s) && Enabled(s, step)
    ensures FlaggedAreFinished(Apply(ttl, s, step)) <==> !Strands(s, step)
  {
    var u := s.(now := step.now);
    match step
    case Ask(now, r) => AskFlagged(ttl, u, now, r);
    case Sweep(now, items, _) => SweepKeepsFlagged(u, now, items);
    case Flush(now, uid) => FlushFlagged(u, now, uid);
    case _ =>
  }

  lemma {:induction false} UnstrandedRun(ttl: int, states: seq<Store>, steps: seq<Step>, n: nat)
    requires IsRun(ttl, states, steps) && n < |states| && forall k :: 0 <= k < n ==> !Strands(states[k], steps[k])
    ensures FlaggedAreFinished(states[n])
  {
    if n > 0 {
      UnstrandedRun(ttl, states, steps, n - 1);
      assert Follows(ttl, states[n - 1], steps[n - 1], states[n]);
      StepFlagged(ttl, states[n - 1], steps[n - 1]);
    }
  }

  lemma {:induction false} StrandedRun(ttl: int, states: seq<Store>, steps: seq<Step>, k: nat)
    requires IsRun(ttl, states, steps) && k < |steps| && Strands(states[k], steps[k])
    ensures exists n :: 0 <= n < |states| && !FlaggedAreFinished(states[n])
  {
    if FlaggedAreFinished(states[k]) {
      assert Follows(ttl, states[k], steps[k], states[k + 1]);
      StepFlagged(ttl, states[k], steps[k]);
      assert !FlaggedAreFinished(states[k + 1]);
    }
  }

  /** The sweeper's already-sent case can come up in a run exactly when some request of it died
      right after recording its SMS or some flush reopened a command whose SMS was recorded. */
  lemma AlreadySentCaseIff(ttl: int, states: seq<Store>, steps: seq<Step>)
    requires IsRun(ttl, states, steps)
    ensures (exists n :: 0 <= n < |states| && AlreadySentAhead(states[n]))
       <==> (exists k :: 0 <= k < |steps| && Strands(states[k], steps[k]))
  {
    forall n | 0 <= n < |states| ensures AlreadySentAhead(states[n]) <==> !FlaggedAreFinished(states[n]) {
      AheadIffOpen(states[n]);
    }
    if k :| 0 <= k < |steps| && Strands(states[k], steps[k]) {
      StrandedRun(ttl, states, steps, k);
    } else {
      forall n | 0 <= n < |states| ensures FlaggedAreFinished(states[n]) { UnstrandedRun(ttl, states, steps, n); }
    }
  }
}
