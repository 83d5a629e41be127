/** What each step of the command protocol does to the table, column by column: the stores before and
    after it, without the functions the step is made of. */
module CommandEffects {
  import opened Prelude
  import opened Text
  import opened CommandModel
  import opened CommandProofs
  import opened CommandTheorems

  predicate Unfinished(r: Row) {
    r.status == Pending || r.status == Sent
  }

  /** The emitted event and the metric of one status write, and nothing else beside the table. */
  ghost predicate Announces(s: Store, t: Store, id: nat, status: Status, kind: Kind) {
    && t.events == s.events + [Event(id, status)]
    && (forall st, k :: Counter(t.counters, st, k) == Counter(s.counters, st, k) + (if st == status && k == kind then 1 else 0))
  }

  ghost predicate Silent(s: Store, t: Store) {
    t.events == s.events && t.counters == s.counters
  }

  ghost predicate OthersKept(s: Store, t: Store, id: nat) {
    |t.rows| == |s.rows| && forall j :: 0 <= j < |s.rows| && j != id ==> t.rows[j] == s.rows[j]
  }

  // ----- device acknowledgements

  /** The acknowledgement names a command of its own device and fleet that is still open. */
  predicate Answers(s: Store, a: Ack) {
    && a.id < |s.rows| && s.rows[a.id].device == a.device && s.rows[a.id].fleet == a.fleet
    && Unfinished(s.rows[a.id])
  }

  function EndOf(r: Row, a: Ack): Status {
    if a.ts > r.expiresAt then Expired else if a.ok then Acked else Failed
  }

  /** An acknowledgement ends a command exactly when it names one of its device and fleet that is PENDING
      or SENT: too late it is EXPIRED, in time ACKED or FAILED as the device says, with one event and one
      count of that status; otherwise nothing but the clock changes. */
  lemma AckIsExact(ttl: int, s: Store, now: int, a: Ack)
    requires Enabled(s, DeviceAck(now, a))
    ensures var t := Apply(ttl, s, DeviceAck(now, a));
      && (forall id :: 0 <= id < |s.rows| ==> (t.rows[id].status != s.rows[id].status <==> Answers(s, a) && id == a.id))
      && (!Answers(s, a) ==> t == s.(now := now))
      && (Answers(s, a) ==>
            var r, u := s.rows[a.id], t.rows[a.id];
            && u == r.(status := EndOf(r, a), ackedAt := Some(a.ts), issue := u.issue)
            && u.issue == (if u.status == Expired then AckAfterExpiry else if u.status == Failed then DeviceFailure else Clear)
            && OthersKept(s, t, a.id) && Announces(s, t, a.id, u.status, r.kind)
            && t.sms == s.sms && t.queued == s.queued && t.points == s.points && t.now == now)
  {
  }

  // ----- requests

  /** Why a request may be granted: its bike exists and is the user's, it has a tracker, a lock finds
      it parked or at rest, and no unfinished command of its kind is ten seconds old or younger. */
  ghost predicate Grantable(s: Store, now: int, r: Request) {
    && r.bikeFleet.Some?
    && (r.path.FleetUser? ==> r.path.fleet == r.bikeFleet.value)
    && r.device.Some?
    && (r.kind == Lock ==> AtRest(s.points, r.device.value.id, r.live, now))
    && (forall i :: 0 <= i < |s.rows| && Unfinished(s.rows[i]) && s.rows[i].bike == r.bike && s.rows[i].kind == r.kind
          ==> now - s.rows[i].createdAt > 10_000)
  }

  /** Each refusal has its own reason, and the first that applies is given. */
  lemma RefusalsAreExact(s: Store, now: int, r: Request)
    ensures Judge(s, now, r) == Accepted <==> Grantable(s, now, r)
    ensures Judge(s, now, r) == BikeNotFound <==> r.bikeFleet.None?
    ensures Judge(s, now, r) == FleetViolation
       <==> r.bikeFleet.Some? && r.path.FleetUser? && r.path.fleet != r.bikeFleet.value
    ensures Judge(s, now, r) == NoActiveDevice
       <==> r.bikeFleet.Some? && (r.path.HqAdmin? || r.path.fleet == r.bikeFleet.value) && r.device.None?
    ensures Judge(s, now, r) == UnsafeToLock
       <==> && r.bikeFleet.Some? && (r.path.HqAdmin? || r.path.fleet == r.bikeFleet.value) && r.device.Some?
            && r.kind == Lock && !AtRest(s.points, r.device.value.id, r.live, now)
  {
    if r.device.Some? { SafeToLockMeansAtRest(s.points, r.device.value.id, r.live, now); }
    if Debounced(s.rows, r.bike, r.kind, now) {
      var i :| 0 <= i < |s.rows| && InProgress(s.rows[i], r.bike, r.kind) && s.rows[i].createdAt >= now - DEBOUNCE_MS;
      assert Unfinished(s.rows[i]);
    } else {
      forall i | 0 <= i < |s.rows| && Unfinished(s.rows[i]) && s.rows[i].bike == r.bike && s.rows[i].kind == r.kind
        ensures now - s.rows[i].createdAt > 10_000
      {
        assert InProgress(s.rows[i], r.bike, r.kind);
      }
    }
  }

  /** The process dies somewhere the request gets to. */
  predicate Dies(r: Request)
    requires r.device.Some?
  {
    var c := r.channels;
    || c.crash == AfterCreate
    || (!c.tcp && c.crash == AfterQueue)
    || (!c.tcp && r.device.value.sim != "" && c.crash == AfterSms)
    || (!c.tcp && r.device.value.sim != "" && c.sms == Delivered && c.crash == AfterSmsRecorded)
  }

  /** A command delivered by SMS; without TCP, on a tracker that has a SIM. */
  predicate BySms(r: Request)
    requires r.device.Some?
  {
    !r.channels.tcp && r.device.value.sim != "" && r.channels.sms == Delivered
  }

  /** A request that is not granted changes nothing but the clock. */
  lemma RefusedChangesNothing(ttl: int, s: Store, now: int, r: Request)
    requires Enabled(s, Ask(now, r)) && !Grantable(s, now, r)
    ensures Apply(ttl, s, Ask(now, r)) == s.(now := now)
  {
    RefusalsAreExact(s, now, r);
    RefusalsAreExact(s.(now := now), now, r);
  }

  /** What becomes of the fresh row `blank` with the id `id`, and who hears of it. */
  ghost predicate DispatchedRow(s: Store, t: Store, now: int, r: Request, id: nat, blank: Row)
    requires r.device.Some?
  {
    && id < |t.rows| && SameIdentity(blank, t.rows[id])
    && if Dies(r)
       then t.rows[id] == blank.(smsDispatched := r.channels.crash == AfterSmsRecorded) && Silent(s, t)
       else
         var u := t.rows[id];
         && u.status == (if BySms(r) then Acked else Sent)
         && u.sentAt == Some(now) && u.ackedAt == (if BySms(r) then Some(now) else None)
         && u.issue == (if r.channels.tcp || BySms(r) || r.channels.mqtt then Clear else MqttUnavailable)
         && u.smsDispatched == BySms(r)
         && Announces(s, t, id, u.status, r.kind)
  }

  /** The SMS provider and the queue. */
  ghost predicate DispatchedAside(s: Store, t: Store, now: int, r: Request, id: nat)
    requires r.device.Some?
  {
    && t.sms == (if !r.channels.tcp && r.device.value.sim != "" && r.channels.crash != AfterCreate && r.channels.crash != AfterQueue
                 then s.sms + [SmsAttempt(id, r.channels.sms == Delivered)] else s.sms)
    && t.queued == (if !r.channels.tcp && r.channels.redis && r.channels.crash != AfterCreate
                    then s.queued[r.device.value.uid := Queued(id, now + 600_000)] else s.queued)
    && t.points == s.points && t.now == s.now
  }

  lemma DispatchDies(s: Store, now: int, r: Request, id: nat)
    requires id < |s.rows| && r.device.Some? && Dies(r) && !s.rows[id].smsDispatched
    ensures var t := Dispatch(s, now, r, id);
      t.rows == s.rows[id := s.rows[id].(smsDispatched := r.channels.crash == AfterSmsRecorded)] && Silent(s, t)
  {
  }

  /** The row of a request that lives to the end. */
  function FinalRow(r: Request, blank: Row, now: int): Row
    requires r.device.Some?
  {
    if BySms(r) then blank.(status := Acked, sentAt := Some(now), ackedAt := Some(now), issue := Clear, smsDispatched := true)
    else blank.(status := Sent, sentAt := Some(now), ackedAt := None,
                issue := if r.channels.tcp || r.channels.mqtt then Clear else MqttUnavailable)
  }

  lemma DispatchDelivered(s: Store, now: int, r: Request, id: nat)
    requires id < |s.rows| && r.device.Some? && !Dies(r) && BySms(r)
    ensures var t, u := Dispatch(s, now, r, id), FinalRow(r, s.rows[id], now);
      t.rows == s.rows[id := u] && t.events == s.events + [Event(id, u.status)] && t.counters == Bump(s.counters, u.status, u.kind)
  {
  }

  lemma DispatchSent(s: Store, now: int, r: Request, id: nat)
    requires id < |s.rows| && r.device.Some? && !Dies(r) && !BySms(r)
    ensures var t, u := Dispatch(s, now, r, id), FinalRow(r, s.rows[id], now);
      t.rows == s.rows[id := u] && t.events == s.events + [Event(id, u.status)] && t.counters == Bump(s.counters, u.status, u.kind)
  {
    assert FinalRow(r, s.rows[id], now) == SentRow(s.rows[id], now, r.channels.tcp || r.channels.mqtt);
  }

  lemma DispatchAside(s: Store, now: int, r: Request, id: nat)
    requires id < |s.rows| && r.device.Some?
    ensures DispatchedAside(s, Dispatch(s, now, r, id), now, r, id)
  {
  }

  lemma DispatchIsExact(s: Store, now: int, r: Request, id: nat)
    requires id < |s.rows| && r.device.Some? && s.rows[id].kind == r.kind && s.rows[id].status == Pending
    requires !s.rows[id].smsDispatched
    ensures var t := Dispatch(s, now, r, id);
      DispatchedRow(s, t, now, r, id, s.rows[id]) && DispatchedAside(s, t, now, r, id) && OthersKept(s, t, id)
  {
    DispatchAside(s, now, r, id);
    if Dies(r) { DispatchDies(s, now, r, id); }
    else if BySms(r) { DispatchDelivered(s, now, r, id); }
    else { DispatchSent(s, now, r, id); }
  }

  /** A granted request adds one row for its bike, tracker and kind, created now and expiring with its
      lifetime. Unless the process dies it is ACKED by a delivered SMS and SENT otherwise, noting MQTT
      only where MQTT was needed and failed, with one event and one count; the SMS provider is called
      exactly without TCP and with a SIM, and the queue is written exactly without TCP, for ten minutes. */
  lemma GrantIsExact(ttl: int, s: Store, now: int, r: Request)
    requires Enabled(s, Ask(now, r)) && Grantable(s, now, r)
    ensures var t, id := Apply(ttl, s, Ask(now, r)), |s.rows|;
      var blank := Row(r.bikeFleet.value, r.device.value.id, r.bike, r.kind, Pending, None, None, Clear, false, now, now + ttl);
      && |t.rows| == id + 1 && (forall j :: 0 <= j < id ==> t.rows[j] == s.rows[j])
      && DispatchedRow(s.(now := now), t, now, r, id, blank) && DispatchedAside(s.(now := now), t, now, r, id)
  {
    RefusalsAreExact(s, now, r);
    RefusalsAreExact(s.(now := now), now, r);
    var blank := NewRow(ttl, now, r);
    var u := s.(now := now, rows := s.rows + [blank]);
    DispatchIsExact(u, now, r, |s.rows|);
    assert Apply(ttl, s, Ask(now, r)) == Dispatch(u, now, r, |s.rows|);
  }

  // ----- sweeps

  /** The row a sweep leaves in place of `r`: acknowledged if it had no SMS yet, has a SIM and its SMS
      is delivered now, expired otherwise. */
  predicate SweptTo(r: Row, u: Row, now: int, item: SweepItem) {
    if !r.smsDispatched && Trim(item.sim) != "" && item.sms == Delivered
    then u == r.(status := Acked, ackedAt := Some(now), issue := Clear, smsDispatched := true)
    else u == r.(status := Expired, issue := if r.smsDispatched then SmsUnacknowledged else NoAcknowledgement)
  }

  lemma {:induction false} SweepEvents(s: Store, now: int, items: seq<SweepItem>)
    requires Batch(s, items)
    ensures var t := SweepAll(s, now, items);
      && |t.events| == |s.events| + |items| && t.events[..|s.events|] == s.events
      && forall i :: 0 <= i < |items| ==> t.events[|s.events| + i] == Event(items[i].id, t.rows[items[i].id].status)
  {
    if |items| > 0 {
      var init, last := items[..|items| - 1], items[|items| - 1];
      SweepEvents(s, now, init);
      var u, t := SweepAll(s, now, init), SweepAll(s, now, items);
      assert t.events == u.events + [Event(last.id, t.rows[last.id].status)];
      forall i | 0 <= i < |items| ensures t.events[|s.events| + i] == Event(items[i].id, t.rows[items[i].id].status) {
        if i < |init| { assert items[i] == init[i] && items[i].id != last.id; }
      }
    }
  }

  lemma SweptRowIsSo(r: Row, now: int, item: SweepItem)
    ensures SweptTo(r, SweptRow(r, now, item), now, item)
  {
  }

  ghost predicate SweptSo(s: Store, t: Store, now: int, items: seq<SweepItem>, i: nat)
    requires i < |items| && items[i].id < |s.rows|
  {
    && |t.rows| == |s.rows| && SweptTo(s.rows[items[i].id], t.rows[items[i].id], now, items[i])
    && |t.events| == |s.events| + |items|
    && t.events[|s.events| + i] == Event(items[i].id, t.rows[items[i].id].status)
    && (forall j :: 0 <= j < |s.rows| && !Listed(items, j) ==> t.rows[j] == s.rows[j])
  }

  lemma SweepAllEffects(s: Store, now: int, items: seq<SweepItem>, i: nat)
    requires Batch(s, items) && i < |items|
    ensures SweptSo(s, SweepAll(s, now, items), now, items, i)
  {
    SweepAllExact(s, now, items);
    SweptRowIsSo(s.rows[items[i].id], now, items[i]);
    SweepEvents(s, now, items);
  }

  /** A complete sweep treats each row it was given so, with one event each in their order, and no other. */
  lemma SweepIsExact(ttl: int, s: Store, now: int, items: seq<SweepItem>, i: nat)
    requires Enabled(s, Sweep(now, items, None)) && i < |items|
    ensures SweptSo(s, Apply(ttl, s, Sweep(now, items, None)), now, items, i)
  {
    SweepAllEffects(s.(now := now), now, items, i);
  }

  /** A complete sweep is given only open commands past their expiry, and as many as there are up to a
      hundred: if it was given fewer, none is left. */
  lemma SweepMissesNone(ttl: int, s: Store, now: int, items: seq<SweepItem>)
    requires Enabled(s, Sweep(now, items, None))
    ensures |items| <= 100
    ensures forall i :: 0 <= i < |items| ==> Unfinished(s.rows[items[i].id]) && s.rows[items[i].id].expiresAt < now
    ensures var t := Apply(ttl, s, Sweep(now, items, None));
      |items| < 100 ==> forall j :: 0 <= j < |t.rows| ==> !(Unfinished(t.rows[j]) && t.rows[j].expiresAt < now)
  {
    var t := Apply(ttl, s, Sweep(now, items, None));
    SweepExact(ttl, s, now, items);
    if |items| < 100 {
      assert StaleCount(t, now) == 0;
      CountPositive(t.rows, StaleAt(now));
      forall j | 0 <= j < |t.rows| ensures !(Unfinished(t.rows[j]) && t.rows[j].expiresAt < now) {
        assert !StaleAt(now)(t.rows[j]);
      }
    }
  }

  // ----- the adapter

  /** A flush finds a queue entry exactly for ten minutes; it removes it and makes its command SENT, with
      an event and no count, whatever it was before. */
  lemma FlushIsExact(ttl: int, s: Store, now: int, uid: string)
    requires Enabled(s, Flush(now, uid))
    ensures var t := Apply(ttl, s, Flush(now, uid));
      if uid !in s.queued || now >= s.queued[uid].until then t == s.(now := now)
      else
        var id := s.queued[uid].id;
        && t.queued == s.queued - {uid} && t.counters == s.counters && t.sms == s.sms && OthersKept(s, t, id)
        && (id < |s.rows| ==> t.rows[id] == s.rows[id].(status := Sent, sentAt := Some(now), issue := Clear)
                              && t.events == s.events + [Event(id, Sent)])
  {
  }

  /** An acknowledgement over TCP takes the device's latest open, unexpired command, if there is one. */
  lemma TcpAckIsExact(ttl: int, s: Store, now: int, device: string, pick: Option<nat>)
    requires Enabled(s, TcpAck(now, device, pick))
    ensures var t := Apply(ttl, s, TcpAck(now, device, pick));
      match pick
      case None =>
        && t == s.(now := now)
        && forall j :: 0 <= j < |s.rows| && s.rows[j].device == device && Unfinished(s.rows[j]) ==> s.rows[j].expiresAt < now
      case Some(id) =>
        && id < |s.rows| && s.rows[id].device == device && Unfinished(s.rows[id]) && s.rows[id].expiresAt >= now
        && (forall j :: 0 <= j < |s.rows| && s.rows[j].device == device && Unfinished(s.rows[j]) && s.rows[j].expiresAt >= now
              ==> s.rows[j].createdAt <= s.rows[id].createdAt)
        && t.rows[id] == s.rows[id].(status := Acked, ackedAt := Some(now)) && OthersKept(s, t, id)
        && t.events == s.events + [Event(id, Acked)] && t.counters == s.counters
  {
    forall j | 0 <= j < |s.rows| && s.rows[j].device == device && Unfinished(s.rows[j]) && s.rows[j].expiresAt >= now
      ensures Answerable(s.rows[j], now, device)
    {
    }
  }

  /** A telemetry point is stored, and nothing else happens. */
  lemma TelemetryIsExact(ttl: int, s: Store, now: int, p: Point)
    requires Enabled(s, Telemetry(now, p))
    ensures Apply(ttl, s, Telemetry(now, p)) == s.(now := now, points := s.points + [p])
  {
  }
}
