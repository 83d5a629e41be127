/** The telemetry stream processor as a consumer-group protocol. Any number of workers share one
    group: each is handed entries, performs the writes an entry calls for one at a time, and then
    acknowledges it. Between any two operations a worker may die, and any operation may fail with
    or without having taken effect. Output streams are taken untrimmed. */
module StreamModel {
  import opened Prelude

  const BATCH := 50               // COUNT of both the claim and the read
  const SCAN := 10 * BATCH        // pending entries one XAUTOCLAIM looks at, as Redis documents it
  const MIN_IDLE_MS := 60_000

  // ----- decoding an entry

  type Payload = map<string, string>

  /** Field list to record: later pairs win; a trailing name without a value reads as missing. */
  function FieldMap(fields: seq<string>): Payload {
    if |fields| == 0 then map[]
    else if |fields| % 2 == 1 then FieldMap(fields[..|fields| - 1]) - {fields[|fields| - 1]}
    else FieldMap(fields[..|fields| - 2])[fields[|fields| - 2] := fields[|fields| - 1]]
  }

  function Get(p: Payload, name: string, otherwise: string): string {
    if name in p then p[name] else otherwise
  }

  /** Number parsing is the language's; `None` stands for missing, empty or not finite. */
  type Parser = string -> Option<real>

  function AsNumber(parse: Parser, p: Payload, name: string): Option<real> {
    if name !in p || p[name] == "" then None else parse(p[name])
  }

  datatype Band = Unknown | Idle | Low | Medium | High

  function SpeedBand(speed: Option<real>): Band {
    match speed
    case None => Unknown
    case Some(v) => if v < 5.0 then Idle else if v < 30.0 then Low else if v < 60.0 then Medium else High
  }

  function Penalty(speed: Option<real>): nat {
    match speed
    case None => 0
    case Some(v) => if v >= 80.0 then 3 else if v >= 60.0 then 2 else if v >= 40.0 then 1 else 0
  }

  // ----- outputs

  datatype Target = ToEnriched | ToScore | ToWebhook

  datatype Body =
    | Enriched(speed: string, band: Band)
    | Score(delta: int)
    | Webhook(kind: string, severity: string, meta: string)

  /** One record of an output stream; the three streams are the records of each target, in order. */
  datatype Output = Output(target: Target, source: nat, device: string, fleet: string, bike: string, ts: string, body: Body)

  predicate Alarming(kind: string) {
    kind == "CRASH" || kind == "SOS" || kind == "THEFT_SUSPECTED"
  }

  /** The writes an entry calls for, in the order they are made. */
  function Plan(p: Payload): seq<Target> {
    var kind := Get(p, "kind", "telemetry");
    if kind == "telemetry" then [ToEnriched, ToScore]
    else if kind == "event" && Alarming(Get(p, "type", "")) then [ToWebhook]
    else []
  }

  /** The record written for an entry; `clock` is used only when the entry carries no time. */
  function Render(parse: Parser, target: Target, id: nat, p: Payload, clock: string): Output {
    var speed := AsNumber(parse, p, "speedKph");
    Output(target, id, Get(p, "deviceId", ""), Get(p, "fleetId", ""), Get(p, "bikeId", ""), Get(p, "ts", clock),
      match target
      case ToEnriched => Enriched(Get(p, "speedKph", ""), SpeedBand(speed))
      case ToScore => Score(0 - Penalty(speed))
      case ToWebhook => Webhook(Get(p, "type", ""), Get(p, "severity", ""), Get(p, "metaJson", "{}")))
  }

  // ----- group state

  /** A worker that has not yet reclaimed, or one working through a batch: `done` writes of the
      entry at the head of its queue are behind it. */
  datatype Worker = Starting | Working(queue: seq<nat>, done: nat)

  /** Who was last handed an entry, and when. */
  datatype Holding = Holding(owner: string, since: int)

  datatype Group = Group(
    now: int,
    stream: seq<seq<string>>,       // the source stream; an entry's id is its index
    first: nat,                     // the group was created here: earlier entries are not its business
    next: nat,                      // first entry not yet delivered
    pending: map<nat, Holding>,     // delivered and not acknowledged
    acked: set<nat>,
    outputs: seq<Output>,
    workers: map<string, Worker>)

  function Created(stream: seq<seq<string>>, now: int): Group {
    Group(now, stream, |stream|, |stream|, map[], {}, [], map[])
  }

  // ----- claiming

  /** Long enough since the entry was last handed to anyone. */
  predicate Lapsed(h: Holding, now: int) {
    now - h.since >= MIN_IDLE_MS
  }

  /** The pending entries below `n`, lowest first. */
  function Listing(pending: map<nat, Holding>, n: nat): (ids: seq<nat>)
    ensures forall i :: 0 <= i < |ids| ==> ids[i] in pending && ids[i] < n
    ensures forall i, j :: 0 <= i < j < |ids| ==> ids[i] < ids[j]
    ensures forall id: nat :: id < n && id in pending ==> id in ids
  {
    if n == 0 then []
    else Listing(pending, n - 1) + (if n - 1 in pending then [n - 1] else [])
  }

  predicate Ascending(ids: seq<nat>) {
    forall i, j :: 0 <= i < j < |ids| ==> ids[i] < ids[j]
  }

  function LapsedOf(pending: map<nat, Holding>, ids: seq<nat>, now: int): seq<nat>
    requires forall i :: 0 <= i < |ids| ==> ids[i] in pending
  {
    if |ids| == 0 then []
    else
      var front := LapsedOf(pending, ids[..|ids| - 1], now);
      if Lapsed(pending[ids[|ids| - 1]], now) then front + [ids[|ids| - 1]] else front
  }

  lemma {:induction false} LapsedOfMembers(pending: map<nat, Holding>, ids: seq<nat>, now: int, id: nat)
    requires forall i :: 0 <= i < |ids| ==> ids[i] in pending
    ensures id in LapsedOf(pending, ids, now) <==> id in ids && Lapsed(pending[id], now)
  {
    if |ids| > 0 {
      LapsedOfMembers(pending, ids[..|ids| - 1], now, id);
      assert ids == ids[..|ids| - 1] + [ids[|ids| - 1]];
    }
  }

  lemma {:induction false} LapsedOfAscends(pending: map<nat, Holding>, ids: seq<nat>, now: int)
    requires (forall i :: 0 <= i < |ids| ==> ids[i] in pending) && Ascending(ids)
    ensures Ascending(LapsedOf(pending, ids, now))
  {
    if |ids| > 0 {
      var init, last := ids[..|ids| - 1], ids[|ids| - 1];
      var front := LapsedOf(pending, init, now);
      LapsedOfAscends(pending, init, now);
      forall i | 0 <= i < |front| ensures front[i] < last {
        LapsedOfMembers(pending, init, now, front[i]);
        assert front[i] in front;
      }
    }
  }

  function First(ids: seq<nat>, n: nat): (first: seq<nat>)
    ensures |first| == Min(n, |ids|) && forall i :: 0 <= i < |first| ==> first[i] == ids[i]
  {
    ids[..Min(n, |ids|)]
  }

  /** The entries one XAUTOCLAIM looks at. */
  function Scanned(g: Group): (ids: seq<nat>)
    ensures forall i :: 0 <= i < |ids| ==> ids[i] in g.pending && ids[i] < g.next
    ensures Ascending(ids)
  {
    First(Listing(g.pending, g.next), SCAN)
  }

  /** What XAUTOCLAIM from the start of the pending list hands over: of the entries it scans, the
      lowest ones that have been idle long enough. The cursor it returns is dropped by the caller. */
  function Claimable(g: Group, now: int): (ids: seq<nat>)
    ensures |ids| <= BATCH && Ascending(ids)
    ensures forall i :: 0 <= i < |ids| ==> ids[i] in g.pending && ids[i] < g.next && Lapsed(g.pending[ids[i]], now)
  {
    LapsedFacts(g, now);
    First(LapsedOf(g.pending, Scanned(g), now), BATCH)
  }

  lemma LapsedFacts(g: Group, now: int)
    ensures var lapsed := LapsedOf(g.pending, Scanned(g), now);
      && Ascending(lapsed)
      && forall i :: 0 <= i < |lapsed| ==> lapsed[i] in g.pending && lapsed[i] < g.next && Lapsed(g.pending[lapsed[i]], now)
  {
    var ids: seq<nat>, lapsed: seq<nat> := Scanned(g), LapsedOf(g.pending, Scanned(g), now);
    LapsedOfAscends(g.pending, ids, now);
    forall i | 0 <= i < |lapsed| ensures lapsed[i] in g.pending && lapsed[i] < g.next && Lapsed(g.pending[lapsed[i]], now) {
      LapsedOfMembers(g.pending, ids, now, lapsed[i]);
      assert lapsed[i] in lapsed;
    }
  }

  // ----- steps

  datatype Step =
    | Append(fields: seq<string>)
    | Join(worker: string)
    | Claim(worker: string, now: int)
    | ClaimFailed(worker: string, now: int, effective: bool)
    | Read(worker: string, now: int)
    | Operate(worker: string, clock: string)
    | Fail(worker: string, clock: string, effective: bool)
    | Die(worker: string)

  predicate Busy(g: Group, w: string) {
    w in g.workers && g.workers[w].Working? && |g.workers[w].queue| > 0
  }

  predicate Enabled(g: Group, step: Step) {
    match step
    case Append(_) => true
    case Join(w) => w !in g.workers
    case Claim(w, now) => w in g.workers && g.workers[w].Starting? && g.now <= now
    case ClaimFailed(w, now, _) => w in g.workers && g.workers[w].Starting? && g.now <= now
    case Read(w, now) => w in g.workers && g.workers[w].Working? && g.workers[w].queue == [] && g.now <= now && g.next <= |g.stream|
    case Operate(w, _) => Busy(g, w)
    case Fail(w, _, _) => Busy(g, w)
    case Die(w) => w in g.workers
  }

  function Ids(from: nat, n: nat): seq<nat> {
    seq(n, i => from + i)
  }

  function Owned(pending: map<nat, Holding>, ids: seq<nat>, h: Holding): map<nat, Holding> {
    pending + (map id | id in ids :: h)
  }

  /** The given entries now belong to `w`, who works through `queue`. */
  function Hand(g: Group, w: string, now: int, ids: seq<nat>, queue: seq<nat>): Group {
    g.(now := now, pending := Owned(g.pending, ids, Holding(w, now)), workers := g.workers[w := Working(queue, 0)])
  }

  /** The effect on the streams of the next operation for the entry at the head of a queue: the
      next write of its plan, or the acknowledgement once all are done. */
  function Effect(parse: Parser, g: Group, id: nat, done: nat, clock: string): Group {
    if id >= |g.stream| then g
    else
      var p := FieldMap(g.stream[id]);
      if done < |Plan(p)| then g.(outputs := g.outputs + [Render(parse, Plan(p)[done], id, p, clock)])
      else if id in g.pending then g.(pending := g.pending - {id}, acked := g.acked + {id})
      else g
  }

  /** Where a worker stands after its next operation succeeded. */
  function Advance(g: Group, w: Worker): Worker
    requires w.Working? && |w.queue| > 0
  {
    var id := w.queue[0];
    if id < |g.stream| && w.done < |Plan(FieldMap(g.stream[id]))| then w.(done := w.done + 1)
    else Working(w.queue[1..], 0)
  }

  function Apply(parse: Parser, g: Group, step: Step): Group
    requires Enabled(g, step)
  {
    match step
    case Append(fields) => g.(stream := g.stream + [fields])
    case Join(w) => g.(workers := g.workers[w := Starting])
    case Claim(w, now) => Hand(g, w, now, Claimable(g, now), Claimable(g, now))
    case ClaimFailed(w, now, effective) => Hand(g, w, now, if effective then Claimable(g, now) else [], [])
    case Read(w, now) =>
      var ids := Ids(g.next, Min(BATCH, |g.stream| - g.next));
      Hand(g, w, now, ids, ids).(next := g.next + |ids|)
    case Operate(w, clock) =>
      var k := g.workers[w];
      Effect(parse, g, k.queue[0], k.done, clock).(workers := g.workers[w := Advance(g, k)])
    case Fail(w, clock, effective) =>
      var k := g.workers[w];
      (if effective then Effect(parse, g, k.queue[0], k.done, clock) else g)
        .(workers := g.workers[w := Working(k.queue[1..], 0)])
    case Die(w) => g.(workers := g.workers[w := Starting])
  }

  ghost predicate Follows(parse: Parser, g: Group, step: Step, h: Group) {
    Enabled(g, step) && h == Apply(parse, g, step)
  }

  ghost predicate IsRun(parse: Parser, groups: seq<Group>, steps: seq<Step>) {
    && |groups| == |steps| + 1
    && groups[0] == Created(groups[0].stream, groups[0].now)
    && forall i :: 0 <= i < |steps| ==> Follows(parse, groups[i], steps[i], groups[i + 1])
  }
}
