/** The command service as it works: handlers that write the table, the metric, the event stream and
    the queue one after another. Each is proved to do what the protocol's step function says. */
module CommandService {
  import opened Prelude
  import opened Text
  import opened CommandModel

  class CommandsService {
    const ttl: int
    var rows: seq<Row>
    var events: seq<Event>
    var counters: Counters
    var sms: seq<SmsAttempt>
    var queued: map<string, Queued>
    var points: seq<Point>

    constructor (ttl: int)
      ensures this.ttl == ttl
      ensures forall now :: View(now) == Initial(now)
    {
      this.ttl := ttl;
      rows, events, counters, sms, queued, points := [], [], map[], [], map[], [];
    }

    ghost function View(now: int): Store
      reads this
    {
      Store(now, rows, events, counters, sms, queued, points)
    }

    /** Writes the row as given, counts the status and tells the websocket clients. */
    method TransitionStatus(id: nat, row: Row, ghost now: int)
      requires id < |rows|
      modifies this
      ensures View(now) == Move(old(View(now)), id, row)
    {
      rows := rows[id := row];
      var n := if (row.status, row.kind) in counters then counters[(row.status, row.kind)] else 0;
      counters := counters[(row.status, row.kind) := n + 1];
      events := events + [Event(id, row.status)];
    }

    method SendSms(id: nat, result: SmsResult, ghost now: int) returns (delivered: bool)
      modifies this`sms
      ensures delivered <==> result == Delivered
      ensures View(now) == LogSms(old(View(now)), id, result)
    {
      delivered := result == Delivered;
      sms := sms + [SmsAttempt(id, delivered)];
    }

    /** The most recent stored moving point of the device, by one pass over the points. */
    method FindLastMoving(device: string) returns (last: Option<int>)
      ensures last == LastMoving(points, device)
    {
      last := None;
      var i := 0;
      while i < |points|
        invariant i <= |points|
        invariant last == LastMoving(points[..i], device)
      {
        var p := points[i];
        assert points[..i + 1][..i] == points[..i];
        if Moving(p, device) && (last.None? || last.value < p.ts) {
          last := Some(p.ts);
        }
        i := i + 1;
      }
      assert points[..i] == points;
    }

    method AssertSafeToLock(device: string, live: Option<Live>, now: int) returns (safe: bool)
      ensures safe <==> SafeToLock(points, device, live, now)
    {
      if live.None? { return true; }
      if live.value.ignition == Some(true) { return false; }
      if live.value.speed > 0.5 || live.value.speed < -0.5 { return false; }
      var last := FindLastMoving(device);
      safe := last.None? || now - last.value >= LOCK_MIN_STATIONARY_MS;
    }

    method RequestCommand(r: Request, now: int) returns (verdict: Verdict)
      modifies this
      ensures verdict == Judge(old(View(now)), now, r)
      ensures View(now) == AskFor(ttl, old(View(now)), now, r)
    {
      if r.bikeFleet.None? { return BikeNotFound; }
      if r.path.FleetUser? && r.path.fleet != r.bikeFleet.value { return FleetViolation; }
      if r.device.None? { return NoActiveDevice; }
      if r.kind == Lock {
        var safe := AssertSafeToLock(r.device.value.id, r.live, now);
        if !safe { return UnsafeToLock; }
      }
      if Debounced(rows, r.bike, r.kind, now) { return AlreadyInProgress; }
      verdict := Accepted;
      var id := |rows|;
      rows := rows + [Row(r.bikeFleet.value, r.device.value.id, r.bike, r.kind, Pending,
                          None, None, Clear, false, now, now + ttl)];
      DispatchCommand(r, now, id);
    }

    /** TCP first; otherwise queue for the tracker, try SMS, then MQTT. A crash point returns early. */
    method DispatchCommand(r: Request, now: int, id: nat)
      requires id < |rows| && r.device.Some?
      modifies this
      ensures View(now) == Dispatch(old(View(now)), now, r, id)
    {
      var c, row := r.channels, rows[id];
      if c.crash == AfterCreate { return; }
      if c.tcp {
        TransitionStatus(id, row.(status := Sent, sentAt := Some(now), ackedAt := None, issue := Clear), now);
        return;
      }
      if c.redis {
        queued := queued[r.device.value.uid := Queued(id, now + QUEUE_TTL_MS)];
      }
      if c.crash == AfterQueue { return; }
      if r.device.value.sim != "" {
        var delivered := SendSms(id, c.sms, now);
        if c.crash == AfterSms { return; }
        if delivered {
          row := row.(smsDispatched := true);
          rows := rows[id := row];
          if c.crash == AfterSmsRecorded { return; }
          assert rows[id := row.(status := Acked, sentAt := Some(now), ackedAt := Some(now), issue := Clear)]
              == old(rows)[id := row.(status := Acked, sentAt := Some(now), ackedAt := Some(now), issue := Clear)];
          TransitionStatus(id, row.(status := Acked, sentAt := Some(now), ackedAt := Some(now), issue := Clear), now);
          return;
        }
      }
      var issue := if c.mqtt then Clear else MqttUnavailable;
      TransitionStatus(id, row.(status := Sent, sentAt := Some(now), ackedAt := None, issue := issue), now);
    }

    method HandleCommandAck(a: Ack, ghost now: int)
      modifies this
      ensures View(now) == HandleAck(old(View(now)), a)
    {
      if a.id >= |rows| { return; }
      var row := rows[a.id];
      if row.device != a.device || row.fleet != a.fleet { return; }
      if Terminal(row.status) { return; }
      if a.ts > row.expiresAt {
        TransitionStatus(a.id, row.(status := Expired, ackedAt := Some(a.ts), issue := AckAfterExpiry), now);
      } else if a.ok {
        TransitionStatus(a.id, row.(status := Acked, ackedAt := Some(a.ts), issue := Clear), now);
      } else {
        TransitionStatus(a.id, row.(status := Failed, ackedAt := Some(a.ts), issue := DeviceFailure), now);
      }
    }

    method SweepStaleCommand(item: SweepItem, now: int)
      requires item.id < |rows|
      modifies this
      ensures View(now) == SweepOne(old(View(now)), now, item)
    {
      var row := rows[item.id];
      if !row.smsDispatched && Trim(item.sim) != "" {
        var delivered := SendSms(item.id, item.sms, now);
        if delivered {
          TransitionStatus(item.id, row.(status := Acked, ackedAt := Some(now), issue := Clear, smsDispatched := true), now);
          return;
        }
      }
      var why := if row.smsDispatched then SmsUnacknowledged else NoAcknowledgement;
      TransitionStatus(item.id, row.(status := Expired, issue := why), now);
    }

    /** The sweeper's loop over the rows its query returned. */
    method SweepExpired(items: seq<SweepItem>, now: int)
      requires forall i :: 0 <= i < |items| ==> items[i].id < |rows|
      modifies this
      ensures View(now) == SweepAll(old(View(now)), now, items)
    {
      var i := 0;
      while i < |items|
        invariant i <= |items|
        invariant View(now) == SweepAll(old(View(now)), now, items[..i])
      {
        assert items[..i + 1][..i] == items[..i];
        SweepStaleCommand(items[i], now);
        i := i + 1;
      }
      assert items[..i] == items;
    }
  }
}
