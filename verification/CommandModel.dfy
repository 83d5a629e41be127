/** The device-command protocol: LOCK/UNLOCK rows driven by requests, device acknowledgements,
    the expiry sweeper and the tracker adapter that shares the same table.

    One handler is one step. Everything a handler learns from outside (lookups, channel results,
    where the process dies) is carried by the step, so a step has exactly one outcome and
    nondeterminism is the choice of steps. Times are integer milliseconds of one server clock. */
module CommandModel {
  import opened Prelude
  import opened Text

  const DEBOUNCE_MS := 10_000
  const LOCK_MIN_STATIONARY_MS := 15_000
  const QUEUE_TTL_MS := 600_000
  const SWEEP_TAKE := 100

  datatype Kind = Lock | Unlock
  datatype Status = Pending | Sent | Acked | Failed | Expired

  predicate Terminal(s: Status) {
    s == Acked || s == Failed || s == Expired
  }

  /** The cases of the error message column. */
  datatype Issue =
    | Clear | MqttUnavailable | AckAfterExpiry | DeviceFailure | SmsUnacknowledged | NoAcknowledgement

  datatype Row = Row(
    fleet: string, device: string, bike: string, kind: Kind, status: Status,
    sentAt: Option<int>, ackedAt: Option<int>, issue: Issue,
    smsDispatched: bool, createdAt: int, expiresAt: int)

  datatype Event = Event(id: nat, status: Status)
  datatype SmsAttempt = SmsAttempt(id: nat, delivered: bool)
  datatype Queued = Queued(id: nat, until: int)
  datatype Point = Point(device: string, ts: int, speed: real)
  type Counters = map<(Status, Kind), nat>

  /** The command table (a row's index is its id) and everything hanging off it. */
  datatype Store = Store(
    now: int,
    rows: seq<Row>,
    events: seq<Event>,             // command_status websocket events, oldest first
    counters: Counters,             // the command metric, labelled by status and type
    sms: seq<SmsAttempt>,           // calls of the SMS provider
    queued: map<string, Queued>,    // Redis: pending command per device uid
    points: seq<Point>)             // stored telemetry

  function Initial(now: int): Store {
    Store(now, [], [], map[], [], map[], [])
  }

  // ----- what a step learns from outside

  datatype Path = FleetUser(fleet: string) | HqAdmin
  datatype Device = Device(id: string, uid: string, sim: string)
  datatype Live = Live(speed: real, ignition: Option<bool>)
  datatype SmsResult = Delivered | Refused | Threw

  /** Where the process dies inside a request, if it does. A death between two points named here
      leaves the same store as the earlier one. */
  datatype Crash = NoCrash | AfterCreate | AfterQueue | AfterSms | AfterSmsRecorded

  datatype Channels = Channels(tcp: bool, redis: bool, sms: SmsResult, mqtt: bool, crash: Crash)

  datatype Request = Request(
    path: Path, kind: Kind, bike: string,
    bikeFleet: Option<string>,      // the bike row, if it exists
    device: Option<Device>,         // its active device, if any
    live: Option<Live>,             // usable cached live state, if any
    channels: Channels)

  datatype Ack = Ack(id: nat, device: string, fleet: string, ts: int, ok: bool)
  datatype SweepItem = SweepItem(id: nat, sim: string, sms: SmsResult)

  datatype Step =
    | Telemetry(now: int, point: Point)
    | Ask(now: int, request: Request)
    | DeviceAck(now: int, ack: Ack)
    | Sweep(now: int, items: seq<SweepItem>, dying: Option<SweepItem>)
    | Flush(now: int, uid: string)
    | TcpAck(now: int, device: string, pick: Option<nat>)

  // ----- primitive writes

  function Counter(m: Counters, status: Status, kind: Kind): nat {
    if (status, kind) in m then m[(status, kind)] else 0
  }

  function Bump(m: Counters, status: Status, kind: Kind): Counters {
    m[(status, kind) := Counter(m, status, kind) + 1]
  }

  /** One status write with its metric and websocket event. */
  function Move(s: Store, id: nat, row: Row): Store
    requires id < |s.rows|
  {
    s.(rows := s.rows[id := row],
       events := s.events + [Event(id, row.status)],
       counters := Bump(s.counters, row.status, row.kind))
  }

  /** The adapter's writes: row and event, but no metric. */
  function MoveUncounted(s: Store, id: nat, row: Row): Store
    requires id < |s.rows|
  {
    Move(s, id, row).(counters := s.counters)
  }

  function LogSms(s: Store, id: nat, r: SmsResult): Store {
    s.(sms := s.sms + [SmsAttempt(id, r == Delivered)])
  }

  // ----- request

  predicate Moving(p: Point, device: string) {
    p.device == device && p.speed > 0.01
  }

  /** Timestamp of the most recent stored moving point of the device. */
  function LastMoving(points: seq<Point>, device: string): Option<int> {
    if |points| == 0 then None
    else
      var p := points[|points| - 1];
      var earlier := LastMoving(points[..|points| - 1], device);
      if !Moving(p, device) then earlier
      else if earlier.Some? && earlier.value >= p.ts then earlier
      else Some(p.ts)
  }

  predicate SafeToLock(points: seq<Point>, device: string, live: Option<Live>, now: int) {
    match live
    case None => true
    case Some(l) =>
      && l.ignition != Some(true)
      && -0.5 <= l.speed <= 0.5
      && (match LastMoving(points, device)
          case None => true
          case Some(ts) => now - ts >= LOCK_MIN_STATIONARY_MS)
  }

  predicate InProgress(r: Row, bike: string, kind: Kind) {
    !Terminal(r.status) && r.bike == bike && r.kind == kind
  }

  predicate Debounced(rows: seq<Row>, bike: string, kind: Kind, now: int) {
    exists i :: 0 <= i < |rows| && InProgress(rows[i], bike, kind)
                && rows[i].createdAt >= now - DEBOUNCE_MS
  }

  datatype Verdict =
    | Accepted | BikeNotFound | FleetViolation | NoActiveDevice | UnsafeToLock | AlreadyInProgress

  function Judge(s: Store, now: int, r: Request): Verdict {
    if r.bikeFleet.None? then BikeNotFound
    else if r.path.FleetUser? && r.path.fleet != r.bikeFleet.value then FleetViolation
    else if r.device.None? then NoActiveDevice
    else if r.kind == Lock && !SafeToLock(s.points, r.device.value.id, r.live, now) then UnsafeToLock
    else if Debounced(s.rows, r.bike, r.kind, now) then AlreadyInProgress
    else Accepted
  }

  function NewRow(ttl: int, now: int, r: Request): Row
    requires r.bikeFleet.Some? && r.device.Some?
  {
    Row(r.bikeFleet.value, r.device.value.id, r.bike, r.kind, Pending,
        None, None, Clear, false, now, now + ttl)
  }

  function SentRow(row: Row, now: int, mqtt: bool): Row {
    row.(status := Sent, sentAt := Some(now), ackedAt := None,
         issue := if mqtt then Clear else MqttUnavailable)
  }

  function QueueCommand(s: Store, now: int, r: Request, id: nat): Store
    requires r.device.Some?
  {
    if r.channels.redis
    then s.(queued := s.queued[r.device.value.uid := Queued(id, now + QUEUE_TTL_MS)])
    else s
  }

  /** TCP, then SMS, then MQTT, on a row that has just been created. */
  function Dispatch(s: Store, now: int, r: Request, id: nat): Store
    requires id < |s.rows| && r.device.Some?
  {
    var c := r.channels;
    var row := s.rows[id];
    if c.crash == AfterCreate then s
    else if c.tcp then Move(s, id, SentRow(row, now, true))
    else
      var q := QueueCommand(s, now, r, id);
      if c.crash == AfterQueue then q
      else if r.device.value.sim == "" then Move(q, id, SentRow(row, now, c.mqtt))
      else
        var t := LogSms(q, id, c.sms);
        if c.crash == AfterSms then t
        else if c.sms != Delivered then Move(t, id, SentRow(row, now, c.mqtt))
        else
          var marked := row.(smsDispatched := true);
          if c.crash == AfterSmsRecorded then t.(rows := t.rows[id := marked])
          else Move(t, id, marked.(status := Acked, sentAt := Some(now), ackedAt := Some(now), issue := Clear))
  }

  function AskFor(ttl: int, s: Store, now: int, r: Request): Store {
    if Judge(s, now, r) != Accepted then s
    else Dispatch(s.(rows := s.rows + [NewRow(ttl, now, r)]), now, r, |s.rows|)
  }

  // ----- device acknowledgement over MQTT

  function AckedRow(row: Row, a: Ack): Row {
    if a.ts > row.expiresAt then row.(status := Expired, ackedAt := Some(a.ts), issue := AckAfterExpiry)
    else if a.ok then row.(status := Acked, ackedAt := Some(a.ts), issue := Clear)
    else row.(status := Failed, ackedAt := Some(a.ts), issue := DeviceFailure)
  }

  function HandleAck(s: Store, a: Ack): Store {
    if a.id >= |s.rows| then s
    else
      var row := s.rows[a.id];
      if row.device != a.device || row.fleet != a.fleet || Terminal(row.status) then s
      else Move(s, a.id, AckedRow(row, a))
  }

  // ----- expiry sweeper

  predicate Stale(r: Row, now: int) {
    !Terminal(r.status) && r.expiresAt < now
  }

  predicate Escalates(row: Row, item: SweepItem) {
    !row.smsDispatched && Trim(item.sim) != ""
  }

  /** What the sweeper makes of a stale row: acknowledged if the SMS it falls back to is delivered. */
  function SweptRow(row: Row, now: int, item: SweepItem): Row {
    if Escalates(row, item) && item.sms == Delivered
    then row.(status := Acked, ackedAt := Some(now), issue := Clear, smsDispatched := true)
    else row.(status := Expired, issue := if row.smsDispatched then SmsUnacknowledged else NoAcknowledgement)
  }

  function SweepOne(s: Store, now: int, item: SweepItem): Store
    requires item.id < |s.rows|
  {
    var row := s.rows[item.id];
    var t := if Escalates(row, item) then LogSms(s, item.id, item.sms) else s;
    Move(t, item.id, SweptRow(row, now, item))
  }

  function SweepAll(s: Store, now: int, items: seq<SweepItem>): (t: Store)
    requires forall i :: 0 <= i < |items| ==> items[i].id < |s.rows|
    ensures |t.rows| == |s.rows|
  {
    if |items| == 0 then s
    else SweepOne(SweepAll(s, now, items[..|items| - 1]), now, items[|items| - 1])
  }

  /** The sweep dies after its provider call for `item` and before any write for it. */
  function DyingSms(s: Store, item: SweepItem): Store {
    if item.id < |s.rows| && Escalates(s.rows[item.id], item) then LogSms(s, item.id, item.sms) else s
  }

  ghost function StaleAt(now: int): Row -> bool {
    (r: Row) => Stale(r, now)
  }

  ghost function StaleCount(s: Store, now: int): nat {
    Count(s.rows, StaleAt(now))
  }

  /** The query may return any `take` stale rows; a dying sweep got through only some of them. */
  ghost predicate SweepBatch(s: Store, now: int, items: seq<SweepItem>, dying: Option<SweepItem>) {
    && (forall i :: 0 <= i < |items| ==> items[i].id < |s.rows| && Stale(s.rows[items[i].id], now))
    && (forall i, j :: 0 <= i < j < |items| ==> items[i].id != items[j].id)
    && match dying
       case None => |items| == Min(SWEEP_TAKE, StaleCount(s, now))
       case Some(d) =>
         && |items| < SWEEP_TAKE
         && d.id < |s.rows| && Stale(s.rows[d.id], now)
         && forall i :: 0 <= i < |items| ==> items[i].id != d.id
  }

  // ----- the tracker adapter

  ghost predicate LiveQueued(s: Store, now: int, uid: string) {
    uid in s.queued && now < s.queued[uid].until && s.queued[uid].id < |s.rows|
  }

  /** On reconnect the adapter sends the queued command and writes SENT, whatever the row's status. */
  function FlushQueued(s: Store, now: int, uid: string): Store {
    if uid !in s.queued || s.queued[uid].until <= now then s
    else
      var id := s.queued[uid].id;
      var t := s.(queued := s.queued - {uid});
      if id >= |s.rows| then t
      else MoveUncounted(t, id, s.rows[id].(status := Sent, sentAt := Some(now), issue := Clear))
  }

  ghost predicate Latest(s: Store, now: int, device: string, id: nat) {
    && id < |s.rows| && Answerable(s.rows[id], now, device)
    && forall j :: 0 <= j < |s.rows| && Answerable(s.rows[j], now, device)
                   ==> s.rows[j].createdAt <= s.rows[id].createdAt
  }

  predicate Answerable(r: Row, now: int, device: string) {
    r.device == device && !Terminal(r.status) && r.expiresAt >= now
  }

  function AckOverTcp(s: Store, now: int, pick: Option<nat>): Store {
    if pick.None? || pick.value >= |s.rows| then s
    else MoveUncounted(s, pick.value, s.rows[pick.value].(status := Acked, ackedAt := Some(now)))
  }

  // ----- runs

  ghost predicate Enabled(s: Store, step: Step) {
    && s.now <= step.now
    && match step
       case Sweep(now, items, dying) => SweepBatch(s, now, items, dying)
       case TcpAck(now, device, pick) =>
         if pick.Some? then Latest(s, now, device, pick.value)
         else forall j :: 0 <= j < |s.rows| ==> !Answerable(s.rows[j], now, device)
       case _ => true
  }

  ghost function Apply(ttl: int, before: Store, step: Step): Store
    requires Enabled(before, step)
  {
    var s := before.(now := step.now);
    match step
    case Telemetry(_, p) => s.(points := s.points + [p])
    case Ask(now, r) => AskFor(ttl, s, now, r)
    case DeviceAck(_, a) => HandleAck(s, a)
    case Sweep(now, items, dying) =>
      var t := SweepAll(s, now, items);
      if dying.Some? then DyingSms(t, dying.value) else t
    case Flush(now, uid) => FlushQueued(s, now, uid)
    case TcpAck(now, _, pick) => AckOverTcp(s, now, pick)
  }

  /** `states` is what a service with command lifetime `ttl` milliseconds goes through. */
  ghost predicate IsRun(ttl: int, states: seq<Store>, steps: seq<Step>) {
    && |states| == |steps| + 1
    && states[0] == Initial(states[0].now)
    && forall i :: 0 <= i < |steps| ==> Follows(ttl, states[i], steps[i], states[i + 1])
  }

  ghost predicate Follows(ttl: int, s: Store, step: Step, t: Store) {
    Enabled(s, step) && t == Apply(ttl, s, step)
  }

  // ----- classes of runs

  /** A step of the command service itself, as opposed to the tracker adapter. */
  predicate OwnStep(step: Step) {
    !step.Flush? && !step.TcpAck?
  }

  /** A flush that does not hit a finished command. Every other step is clean. */
  ghost predicate CleanStep(s: Store, step: Step) {
    step.Flush? && LiveQueued(s, step.now, step.uid)
    ==> !Terminal(s.rows[s.queued[step.uid].id].status)
  }

  predicate CrashFree(step: Step) {
    match step
    case Ask(_, r) => r.channels.crash == NoCrash
    case Sweep(_, _, dying) => dying.None?
    case _ => true
  }

  ghost predicate OwnRun(ttl: int, states: seq<Store>, steps: seq<Step>) {
    IsRun(ttl, states, steps) && forall i :: 0 <= i < |steps| ==> OwnStep(steps[i])
  }

  ghost predicate CleanRun(ttl: int, states: seq<Store>, steps: seq<Step>) {
    IsRun(ttl, states, steps) && forall i :: 0 <= i < |steps| ==> CleanStep(states[i], steps[i])
  }
}
