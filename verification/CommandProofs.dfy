/** What every run of the command protocol keeps. */
module CommandProofs {
  import opened Prelude
  import opened CommandModel

  // ----- invariants

  predicate SameIdentity(a: Row, b: Row) {
    a.(status := b.status, sentAt := b.sentAt, ackedAt := b.ackedAt, issue := b.issue,
       smsDispatched := b.smsDispatched) == b
  }

  ghost predicate Timeline(ttl: int, s: Store) {
    && (forall i :: 0 <= i < |s.rows| ==>
          s.rows[i].createdAt <= s.now && s.rows[i].expiresAt == s.rows[i].createdAt + ttl)
    && (forall i, j :: 0 <= i < j < |s.rows| ==> s.rows[i].createdAt <= s.rows[j].createdAt)
  }

  /** Statuses a client holds after applying the first events to `n` fresh commands. */
  ghost function Replay(n: nat, events: seq<Event>): (r: seq<Status>)
    ensures |r| == n
  {
    if |events| == 0 then seq(n, _ => Pending)
    else
      var e := events[|events| - 1];
      var r := Replay(n, events[..|events| - 1]);
      if e.id < n then r[e.id := e.status] else r
  }

  ghost function StatusColumn(rows: seq<Row>): (r: seq<Status>)
    ensures |r| == |rows| && forall i :: 0 <= i < |rows| ==> r[i] == rows[i].status
  {
    seq(|rows|, i requires 0 <= i < |rows| => rows[i].status)
  }

  ghost predicate Replays(s: Store) {
    && (forall k :: 0 <= k < |s.events| ==> s.events[k].id < |s.rows|)
    && Replay(|s.rows|, s.events) == StatusColumn(s.rows)
  }

  /** Unfinished commands of one bike and type, oldest first, are more than the debounce apart. */
  ghost predicate Spaced(rows: seq<Row>) {
    forall i, j :: 0 <= i < j < |rows| && !Terminal(rows[i].status)
                   && InProgress(rows[j], rows[i].bike, rows[i].kind)
                   ==> rows[j].createdAt - rows[i].createdAt > DEBOUNCE_MS
  }

  /** The statuses emitted for one command, in order. */
  ghost function Trail(events: seq<Event>, id: nat): seq<Status> {
    if |events| == 0 then []
    else
      var e := events[|events| - 1];
      var t := Trail(events[..|events| - 1], id);
      if e.id == id then t + [e.status] else t
  }

  /** At most one SENT, then at most one terminal status, ending at the row's status. */
  ghost predicate TrailShape(trail: seq<Status>, status: Status) {
    match status
    case Pending => trail == []
    case Sent => trail == [Sent]
    case _ => trail == [status] || trail == [Sent, status]
  }

  ghost predicate Trails(s: Store) {
    && (forall k :: 0 <= k < |s.events| ==> s.events[k].id < |s.rows|)
    && (forall id :: 0 <= id < |s.rows| ==> TrailShape(Trail(s.events, id), s.rows[id].status))
  }

  /** What the other columns say in each status. */
  predicate RowShape(r: Row) {
    match r.status
    case Pending => r.sentAt.None? && r.ackedAt.None? && r.issue == Clear
    case Sent => r.sentAt.Some? && r.sentAt.value >= r.createdAt && r.ackedAt.None? && (r.issue == Clear || r.issue == MqttUnavailable)
    case Acked => r.ackedAt.Some? && r.issue == Clear
    case Failed => r.ackedAt.Some? && r.ackedAt.value <= r.expiresAt && r.issue == DeviceFailure
    case Expired =>
      || (r.issue == AckAfterExpiry && r.ackedAt.Some? && r.ackedAt.value > r.expiresAt)
      || (r.issue == SmsUnacknowledged && r.smsDispatched)
      || (r.issue == NoAcknowledgement && !r.smsDispatched)
  }

  ghost predicate Shaped(s: Store) {
    forall i :: 0 <= i < |s.rows| ==> RowShape(s.rows[i])
  }

  ghost function InState(status: Status, kind: Kind): Row -> bool {
    (r: Row) => r.status == status && r.kind == kind
  }

  ghost predicate CountersAgree(s: Store) {
    forall status, kind :: Terminal(status) ==>
      Counter(s.counters, status, kind) == Count(s.rows, InState(status, kind))
  }

  // ----- row-level transitions

  /** How much a run promises: anything, no move of a finished row, or only the service's own moves. */
  datatype Level = Any | Clean | Full

  /** The writes a handler is made of. */
  datatype Micro =
    | Tick(now: int)
    | Side(sms: seq<SmsAttempt>, queued: map<string, Queued>, points: seq<Point>)
    | Create(row: Row)
    | Mark(id: nat)
    | Shift(id: nat, row: Row, counted: bool)

  ghost predicate Lawful(level: Level, ttl: int, s: Store, m: Micro) {
    match m
    case Tick(now) => s.now <= now
    case Side(_, _, _) => true
    case Create(row) =>
      && row.status == Pending && row.createdAt == s.now && row.expiresAt == s.now + ttl
      && !Debounced(s.rows, row.bike, row.kind, s.now)
      && (level == Full ==> RowShape(row))
    case Mark(id) => id < |s.rows| && s.rows[id].status == Pending
    case Shift(id, row, counted) =>
      && id < |s.rows| && SameIdentity(s.rows[id], row) && row.status != Pending
      && (level != Any ==> !Terminal(s.rows[id].status))
      && (level == Full ==> counted && RowShape(row) && (row.status == Sent ==> s.rows[id].status == Pending))
  }

  ghost function Take(s: Store, m: Micro): Store
    requires m.Mark? || m.Shift? ==> m.id < |s.rows|
  {
    match m
    case Tick(now) => s.(now := now)
    case Side(sms, queued, points) => s.(sms := sms, queued := queued, points := points)
    case Create(row) => s.(rows := s.rows + [row])
    case Mark(id) => s.(rows := s.rows[id := s.rows[id].(smsDispatched := true)])
    case Shift(id, row, counted) => if counted then Move(s, id, row) else MoveUncounted(s, id, row)
  }

  ghost predicate Path(level: Level, ttl: int, s: Store, ms: seq<Micro>, t: Store)
    decreases |ms|
  {
    if |ms| == 0 then s == t
    else Lawful(level, ttl, s, ms[0]) && Path(level, ttl, Take(s, ms[0]), ms[1..], t)
  }

  lemma {:induction false} Join(level: Level, ttl: int, s: Store, ms: seq<Micro>, t: Store, ns: seq<Micro>, u: Store)
    returns (all: seq<Micro>)
    requires Path(level, ttl, s, ms, t) && Path(level, ttl, t, ns, u)
    ensures Path(level, ttl, s, all, u)
    decreases |ms|
  {
    if |ms| == 0 {
      all := ns;
    } else {
      var rest := Join(level, ttl, Take(s, ms[0]), ms[1..], t, ns, u);
      all := [ms[0]] + rest;
      assert all[1..] == rest;
    }
  }

  lemma Extend(level: Level, ttl: int, s: Store, ms: seq<Micro>, t: Store, m: Micro) returns (ns: seq<Micro>)
    requires Path(level, ttl, s, ms, t) && Lawful(level, ttl, t, m)
    ensures Path(level, ttl, s, ns, Take(t, m))
  {
    assert Path(level, ttl, t, [m], Take(t, m)) by { assert [m][1..] == []; }
    ns := Join(level, ttl, s, ms, t, [m], Take(t, m));
  }

  // ----- each transition keeps the invariants

  lemma {:induction false} ReplayFresh(n: nat, events: seq<Event>)
    requires forall k :: 0 <= k < |events| ==> events[k].id < n
    ensures Replay(n + 1, events) == Replay(n, events) + [Pending]
  {
    if |events| > 0 {
      ReplayFresh(n, events[..|events| - 1]);
    }
  }

  lemma {:induction false} TrailFresh(events: seq<Event>, id: nat)
    requires forall k :: 0 <= k < |events| ==> events[k].id != id
    ensures Trail(events, id) == []
  {
    if |events| > 0 {
      TrailFresh(events[..|events| - 1], id);
    }
  }

  lemma TrailAppend(events: seq<Event>, e: Event, id: nat)
    ensures Trail(events + [e], id) == if e.id == id then Trail(events, id) + [e.status] else Trail(events, id)
  {
    assert (events + [e])[..|events + [e]| - 1] == events;
  }

  lemma TakeKeepsTimeline(level: Level, ttl: int, s: Store, m: Micro)
    requires Timeline(ttl, s) && Lawful(level, ttl, s, m)
    ensures Timeline(ttl, Take(s, m))
  {
  }

  lemma MoveReplays(s: Store, id: nat, row: Row)
    requires Replays(s) && id < |s.rows|
    ensures Replays(Move(s, id, row))
  {
    var t := Move(s, id, row);
    assert t.events[..|t.events| - 1] == s.events;
    assert Replay(|t.rows|, t.events) == Replay(|s.rows|, s.events)[id := row.status];
    assert StatusColumn(t.rows) == StatusColumn(s.rows)[id := row.status];
  }

  lemma CreateReplays(s: Store, t: Store, row: Row)
    requires Replays(s) && row.status == Pending && t.rows == s.rows + [row] && t.events == s.events
    ensures Replays(t)
  {
    ReplayFresh(|s.rows|, s.events);
    assert StatusColumn(t.rows) == StatusColumn(s.rows) + [Pending];
  }

  lemma TakeKeepsReplay(level: Level, ttl: int, s: Store, m: Micro)
    requires Replays(s) && Lawful(level, ttl, s, m)
    ensures Replays(Take(s, m))
  {
    match m
    case Tick(_) =>
    case Side(_, _, _) =>
    case Create(row) => CreateReplays(s, Take(s, m), row);
    case Mark(id) => assert StatusColumn(Take(s, m).rows) == StatusColumn(s.rows);
    case Shift(id, row, _) => MoveReplays(s, id, row);
  }

  lemma TakeKeepsSpaced(level: Level, ttl: int, s: Store, m: Micro)
    requires level != Any && Spaced(s.rows) && Lawful(level, ttl, s, m)
    ensures Spaced(Take(s, m).rows)
  {
  }

  lemma TakeKeepsTrails(ttl: int, s: Store, m: Micro)
    requires Trails(s) && Lawful(Full, ttl, s, m)
    ensures Trails(Take(s, m))
  {
    var t := Take(s, m);
    forall id | 0 <= id < |t.rows|
      ensures TrailShape(Trail(t.events, id), t.rows[id].status)
    {
      if id == |s.rows| {
        TrailFresh(s.events, id);
      } else {
        assert TrailShape(Trail(s.events, id), s.rows[id].status);
        if m.Shift? { TrailAppend(s.events, Event(m.id, m.row.status), id); }
      }
    }
  }

  /** By how much a counter exceeds the number of rows it should count. */
  ghost function Gap(s: Store, status: Status, kind: Kind): int {
    Counter(s.counters, status, kind) - Count(s.rows, InState(status, kind))
  }

  lemma MoveKeepsGap(s: Store, id: nat, row: Row, status: Status, kind: Kind)
    requires id < |s.rows| && !Terminal(s.rows[id].status) && row.kind == s.rows[id].kind && Terminal(status)
    ensures Gap(Move(s, id, row), status, kind) == Gap(s, status, kind)
  {
    CountUpdate(s.rows, id, row, InState(status, kind));
  }

  lemma TakeKeepsGap(ttl: int, s: Store, m: Micro, status: Status, kind: Kind)
    requires Lawful(Full, ttl, s, m) && Terminal(status)
    ensures Gap(Take(s, m), status, kind) == Gap(s, status, kind)
  {
    match m
    case Tick(_) =>
    case Side(_, _, _) =>
    case Create(row) => CountAppend(s.rows, row, InState(status, kind));
    case Mark(id) => CountUpdate(s.rows, id, s.rows[id].(smsDispatched := true), InState(status, kind));
    case Shift(id, row, _) => MoveKeepsGap(s, id, row, status, kind);
  }

  lemma TakeKeepsCounters(ttl: int, s: Store, m: Micro)
    requires CountersAgree(s) && Lawful(Full, ttl, s, m)
    ensures CountersAgree(Take(s, m))
  {
    forall status, kind | Terminal(status)
      ensures Counter(Take(s, m).counters, status, kind) == Count(Take(s, m).rows, InState(status, kind))
    {
      TakeKeepsGap(ttl, s, m, status, kind);
    }
  }

  lemma TakeKeepsShape(ttl: int, s: Store, m: Micro)
    requires Shaped(s) && Lawful(Full, ttl, s, m)
    ensures Shaped(Take(s, m))
  {
  }

  /** What a level of lawfulness keeps true of the store. */
  ghost predicate Inv(level: Level, ttl: int, s: Store) {
    && Timeline(ttl, s) && Replays(s)
    && (level != Any ==> Spaced(s.rows))
    && (level == Full ==> Trails(s) && CountersAgree(s) && Shaped(s))
  }

  /** Rows are never removed, never change who they are for, and (unless anything goes) stay finished. */
  ghost predicate Grows(level: Level, s: Store, t: Store) {
    && |s.rows| <= |t.rows| && s.now <= t.now
    && forall i :: 0 <= i < |s.rows| ==>
         && SameIdentity(s.rows[i], t.rows[i])
         && (level != Any && Terminal(s.rows[i].status) ==> t.rows[i].status == s.rows[i].status)
  }

  lemma TakeGrows(level: Level, ttl: int, s: Store, m: Micro)
    requires Lawful(level, ttl, s, m)
    ensures Grows(level, s, Take(s, m))
  {
  }

  lemma GrowsTransitive(level: Level, s: Store, t: Store, u: Store)
    requires Grows(level, s, t) && Grows(level, t, u)
    ensures Grows(level, s, u)
  {
  }

  lemma {:induction false} PathKeeps(level: Level, ttl: int, s: Store, ms: seq<Micro>, t: Store)
    requires Inv(level, ttl, s) && Path(level, ttl, s, ms, t)
    ensures Inv(level, ttl, t) && Grows(level, s, t)
    decreases |ms|
  {
    if |ms| > 0 {
      var m := ms[0];
      var u := Take(s, m);
      TakeKeepsTimeline(level, ttl, s, m);
      TakeKeepsReplay(level, ttl, s, m);
      if level != Any { TakeKeepsSpaced(level, ttl, s, m); }
      if level == Full { TakeKeepsTrails(ttl, s, m); TakeKeepsCounters(ttl, s, m); TakeKeepsShape(ttl, s, m); }
      TakeGrows(level, ttl, s, m);
      PathKeeps(level, ttl, u, ms[1..], t);
      GrowsTransitive(level, s, u, t);
    }
  }

  // ----- each step is a path of transitions

  ghost function Sides(s: Store): Micro {
    Side(s.sms, s.queued, s.points)
  }

  /** Side effects outside the table, then (perhaps) one write to the row. */
  lemma SidesThen(level: Level, ttl: int, s: Store, v: Store, m: Option<Micro>) returns (ms: seq<Micro>)
    requires v == s.(sms := v.sms, queued := v.queued, points := v.points)
    requires m.Some? ==> Lawful(level, ttl, v, m.value)
    ensures Path(level, ttl, s, ms, if m.Some? then Take(v, m.value) else v)
  {
    assert v == Take(s, Sides(v));
    ms := Extend(level, ttl, s, [], s, Sides(v));
    if m.Some? {
      ms := Extend(level, ttl, s, ms, v, m.value);
    }
  }

  lemma DispatchPath(level: Level, ttl: int, s: Store, now: int, r: Request, id: nat) returns (ms: seq<Micro>)
    requires id < |s.rows| && s.rows[id].status == Pending && s.rows[id].createdAt <= now && r.device.Some?
    ensures Path(level, ttl, s, ms, Dispatch(s, now, r, id))
  {
    var c, row := r.channels, s.rows[id];
    var q := QueueCommand(s, now, r, id);
    var t := LogSms(q, id, c.sms);
    if c.crash == AfterCreate {
      ms := [];
    } else if c.tcp {
      ms := SidesThen(level, ttl, s, s, Some(Shift(id, SentRow(row, now, true), true)));
    } else if c.crash == AfterQueue {
      ms := SidesThen(level, ttl, s, q, None);
    } else if r.device.value.sim == "" {
      ms := SidesThen(level, ttl, s, q, Some(Shift(id, SentRow(row, now, c.mqtt), true)));
    } else if c.crash == AfterSms {
      ms := SidesThen(level, ttl, s, t, None);
    } else if c.sms != Delivered {
      ms := SidesThen(level, ttl, s, t, Some(Shift(id, SentRow(row, now, c.mqtt), true)));
    } else if c.crash == AfterSmsRecorded {
      ms := SidesThen(level, ttl, s, t, Some(Mark(id)));
    } else {
      var final := row.(smsDispatched := true, status := Acked, sentAt := Some(now), ackedAt := Some(now), issue := Clear);
      ms := SidesThen(level, ttl, s, t, Some(Shift(id, final, true)));
    }
  }

  lemma AskPath(level: Level, ttl: int, s: Store, r: Request) returns (ms: seq<Micro>)
    ensures Path(level, ttl, s, ms, AskFor(ttl, s, s.now, r))
  {
    ms := [];
    if Judge(s, s.now, r) == Accepted {
      var row := NewRow(ttl, s.now, r);
      var u := Take(s, Create(row));
      ms := Extend(level, ttl, s, ms, s, Create(row));
      var more := DispatchPath(level, ttl, u, s.now, r, |s.rows|);
      ms := Join(level, ttl, s, ms, u, more, AskFor(ttl, s, s.now, r));
    }
  }

  lemma SweepOnePath(level: Level, ttl: int, u: Store, now: int, item: SweepItem) returns (ms: seq<Micro>)
    requires item.id < |u.rows| && !Terminal(u.rows[item.id].status)
    ensures Path(level, ttl, u, ms, SweepOne(u, now, item))
  {
    var t := SweepOne(u, now, item);
    var v := if Escalates(u.rows[item.id], item) then LogSms(u, item.id, item.sms) else u;
    ms := SidesThen(level, ttl, u, v, Some(Shift(item.id, t.rows[item.id], true)));
  }

  ghost predicate Batch(s: Store, items: seq<SweepItem>) {
    && (forall i :: 0 <= i < |items| ==> items[i].id < |s.rows| && !Terminal(s.rows[items[i].id].status))
    && (forall i, j :: 0 <= i < j < |items| ==> items[i].id != items[j].id)
  }

  ghost predicate Listed(items: seq<SweepItem>, id: nat) {
    exists i :: 0 <= i < |items| && items[i].id == id
  }

  lemma {:induction false} SweepLeaves(s: Store, now: int, items: seq<SweepItem>, j: nat)
    requires Batch(s, items) && j < |s.rows| && forall i :: 0 <= i < |items| ==> items[i].id != j
    ensures SweepAll(s, now, items).rows[j] == s.rows[j]
  {
    if |items| > 0 {
      SweepLeaves(s, now, items[..|items| - 1], j);
      assert items[|items| - 1].id != j;
    }
  }

  lemma {:induction false} SweepHandles(s: Store, now: int, items: seq<SweepItem>, i: nat)
    requires Batch(s, items) && i < |items|
    ensures SweepAll(s, now, items).rows[items[i].id] == SweptRow(s.rows[items[i].id], now, items[i])
  {
    var init, last := items[..|items| - 1], items[|items| - 1];
    if i < |init| {
      SweepHandles(s, now, init, i);
      assert items[i].id != last.id;
    } else {
      SweepLeaves(s, now, init, last.id);
    }
  }

  /** A sweep does its work on exactly the rows it was given and leaves every other row as it was. */
  lemma {:induction false} SweepAllExact(s: Store, now: int, items: seq<SweepItem>)
    requires Batch(s, items)
    ensures var t := SweepAll(s, now, items);
      && (forall i :: 0 <= i < |items| ==> t.rows[items[i].id] == SweptRow(s.rows[items[i].id], now, items[i]))
      && (forall j :: 0 <= j < |s.rows| && !Listed(items, j) ==> t.rows[j] == s.rows[j])
  {
    forall j | 0 <= j < |s.rows| && !Listed(items, j)
      ensures SweepAll(s, now, items).rows[j] == s.rows[j]
    {
      SweepLeaves(s, now, items, j);
    }
    forall i | 0 <= i < |items|
      ensures SweepAll(s, now, items).rows[items[i].id] == SweptRow(s.rows[items[i].id], now, items[i])
    {
      SweepHandles(s, now, items, i);
    }
  }

  lemma {:induction false} SweepAllPath(level: Level, ttl: int, u: Store, now: int, items: seq<SweepItem>)
    returns (ms: seq<Micro>)
    requires Batch(u, items)
    ensures Path(level, ttl, u, ms, SweepAll(u, now, items))
    decreases |items|
  {
    ms := [];
    if |items| > 0 {
      var init := items[..|items| - 1];
      var last := items[|items| - 1];
      var t := SweepAll(u, now, init);
      ms := SweepAllPath(level, ttl, u, now, init);
      SweepAllExact(u, now, init);
      assert !Listed(init, last.id);
      var more := SweepOnePath(level, ttl, t, now, last);
      ms := Join(level, ttl, u, ms, t, more, SweepAll(u, now, items));
    }
  }

  ghost predicate Allows(level: Level, s: Store, step: Step) {
    (level != Any ==> CleanStep(s, step)) && (level == Full ==> OwnStep(step))
  }

  /** The body of a step, once the clock has moved to its time. */
  lemma BodyPath(level: Level, ttl: int, s: Store, step: Step) returns (ms: seq<Micro>)
    requires s.now == step.now && Enabled(s, step) && Allows(level, s, step)
    ensures Path(level, ttl, s, ms, Apply(ttl, s, step))
  {
    assert s.(now := step.now) == s;
    match step
    case Telemetry(_, p) =>
      ms := SidesThen(level, ttl, s, s.(points := s.points + [p]), None);
    case Ask(_, r) =>
      ms := AskPath(level, ttl, s, r);
    case DeviceAck(_, a) =>
      ms := [];
      if HandleAck(s, a) != s {
        ms := SidesThen(level, ttl, s, s, Some(Shift(a.id, AckedRow(s.rows[a.id], a), true)));
      }
    case Sweep(now, items, dying) =>
      ms := SweepAllPath(level, ttl, s, now, items);
      if dying.Some? {
        var t := SweepAll(s, now, items);
        var v := DyingSms(t, dying.value);
        var more := SidesThen(level, ttl, t, v, None);
        ms := Join(level, ttl, s, ms, t, more, v);
      }
    case Flush(now, uid) =>
      ms := FlushPath(level, ttl, s, step);
    case TcpAck(now, _, pick) =>
      ms := [];
      if pick.Some? {
        var row := s.rows[pick.value].(status := Acked, ackedAt := Some(now));
        ms := SidesThen(level, ttl, s, s, Some(Shift(pick.value, row, false)));
      }
  }

  lemma FlushPath(level: Level, ttl: int, s: Store, step: Step) returns (ms: seq<Micro>)
    requires step.Flush? && s.now == step.now && Allows(level, s, step)
    ensures Path(level, ttl, s, ms, FlushQueued(s, step.now, step.uid))
  {
    ms := [];
    var now, uid := step.now, step.uid;
    if uid in s.queued && now < s.queued[uid].until {
      var id := s.queued[uid].id;
      var v := s.(queued := s.queued - {uid});
      if id < |s.rows| {
        var row := s.rows[id].(status := Sent, sentAt := Some(now), issue := Clear);
        ms := SidesThen(level, ttl, s, v, Some(Shift(id, row, false)));
      } else {
        ms := SidesThen(level, ttl, s, v, None);
      }
    }
  }

  /** Every step is a sequence of lawful row transitions. */
  lemma StepPath(level: Level, ttl: int, s: Store, step: Step) returns (ms: seq<Micro>)
    requires Enabled(s, step) && Allows(level, s, step)
    ensures Path(level, ttl, s, ms, Apply(ttl, s, step))
  {
    var u := s.(now := step.now);
    ms := Extend(level, ttl, s, [], s, Tick(step.now));
    var more := BodyPath(level, ttl, u, step);
    ms := Join(level, ttl, s, ms, u, more, Apply(ttl, s, step));
  }

  lemma StepKeeps(level: Level, ttl: int, s: Store, step: Step)
    requires Inv(level, ttl, s) && Enabled(s, step) && Allows(level, s, step)
    ensures Inv(level, ttl, Apply(ttl, s, step)) && Grows(level, s, Apply(ttl, s, step))
  {
    var ms := StepPath(level, ttl, s, step);
    PathKeeps(level, ttl, s, ms, Apply(ttl, s, step));
  }
}
