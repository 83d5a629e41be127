/** What the stream processor writes for an entry and hands to a worker, in terms of the entry's own
    fields and of the times at which entries were handed out. */
module StreamEffects {
  import opened Prelude
  import opened StreamModel
  import opened StreamProofs
  import opened StreamTheorems

  // ----- what an entry's fields call for

  /** Telemetry is what says so, and what does not say what it is. */
  predicate IsTelemetryRecord(p: Payload) {
    "kind" in p ==> p["kind"] == "telemetry"
  }

  predicate IsAlarmRecord(p: Payload) {
    && "kind" in p && p["kind"] == "event"
    && "type" in p && (p["type"] == "CRASH" || p["type"] == "SOS" || p["type"] == "THEFT_SUSPECTED")
  }

  function Field(p: Payload, name: string): string {
    if name in p then p[name] else ""
  }

  /** The speed, if the field is there, not empty and a finite number. */
  function SpeedOf(parse: Parser, p: Payload): Option<real> {
    if Field(p, "speedKph") == "" then None else parse(p["speedKph"])
  }

  predicate BandIs(speed: Option<real>, band: Band) {
    match band
    case Unknown => speed.None?
    case Idle => speed.Some? && speed.value < 5.0
    case Low => speed.Some? && 5.0 <= speed.value < 30.0
    case Medium => speed.Some? && 30.0 <= speed.value < 60.0
    case High => speed.Some? && 60.0 <= speed.value
  }

  /** Never a bonus: three points off from 80 on, two from 60, one from 40. */
  predicate DeltaIs(speed: Option<real>, delta: int) {
    && (delta == 0 <==> speed.None? || speed.value < 40.0)
    && (delta == -1 <==> speed.Some? && 40.0 <= speed.value < 60.0)
    && (delta == -2 <==> speed.Some? && 60.0 <= speed.value < 80.0)
    && (delta == -3 <==> speed.Some? && 80.0 <= speed.value)
  }

  /** The record says what the entry's fields say, and is of a kind they call for. */
  predicate SaysWhat(parse: Parser, o: Output, p: Payload) {
    && o.device == Field(p, "deviceId") && o.fleet == Field(p, "fleetId") && o.bike == Field(p, "bikeId")
    && ("ts" in p ==> o.ts == p["ts"])
    && match o.target
       case ToEnriched =>
         IsTelemetryRecord(p) && o.body.Enriched? && o.body.speed == Field(p, "speedKph") && BandIs(SpeedOf(parse, p), o.body.band)
       case ToScore =>
         IsTelemetryRecord(p) && o.body.Score? && DeltaIs(SpeedOf(parse, p), o.body.delta)
       case ToWebhook =>
         && IsAlarmRecord(p) && o.body.Webhook? && o.body.kind == p["type"] && o.body.severity == Field(p, "severity")
         && o.body.meta == if "metaJson" in p then p["metaJson"] else "{}"
  }

  lemma PlanIsExact(p: Payload)
    ensures ToEnriched in Plan(p) <==> IsTelemetryRecord(p)
    ensures ToScore in Plan(p) <==> IsTelemetryRecord(p)
    ensures ToWebhook in Plan(p) <==> IsAlarmRecord(p)
  {
  }

  lemma RenderSaysWhat(parse: Parser, target: Target, id: nat, p: Payload, clock: string)
    requires target in Plan(p)
    ensures SaysWhat(parse, Render(parse, target, id, p, clock), p)
  {
    PlanIsExact(p);
  }

  /** In every run, every record comes from an entry that was delivered and whose own fields call for it, and
      says what they say. */
  lemma RecordsSayWhat(parse: Parser, groups: seq<Group>, steps: seq<Step>, i: nat, k: nat)
    requires IsRun(parse, groups, steps) && i < |groups| && k < |groups[i].outputs|
    ensures var g, o := groups[i], groups[i].outputs[k];
      Delivered(g, o.source) && o.source < |g.stream| && SaysWhat(parse, o, FieldMap(g.stream[o.source]))
  {
    RunKeeps(parse, groups, steps, i);
    var g, o := groups[i], groups[i].outputs[k];
    assert Faithful(parse, g, o);
    RenderSaysWhat(parse, o.target, o.source, PayloadOf(g, o.source), o.ts);
  }

  /** In every run, an acknowledged entry whose kind is telemetry or not given has been enriched and scored,
      and an acknowledged crash, SOS or suspected theft has its webhook. */
  lemma AckedEntriesHaveOutputs(parse: Parser, groups: seq<Group>, steps: seq<Step>, i: nat, id: nat)
    requires IsRun(parse, groups, steps) && i < |groups| && id in groups[i].acked
    ensures var g := groups[i];
      && id < |g.stream|
      && (IsTelemetryRecord(FieldMap(g.stream[id])) ==> HasOutput(g, ToEnriched, id) && HasOutput(g, ToScore, id))
      && (IsAlarmRecord(FieldMap(g.stream[id])) ==> HasOutput(g, ToWebhook, id))
  {
    var g := groups[i];
    AtLeastOnce(parse, groups, steps, i, id);
    PlanIsExact(PayloadOf(g, id));
    var plan := Plan(PayloadOf(g, id));
    forall target | target in plan ensures HasOutput(g, target, id) {
      var k :| 0 <= k < |plan| && plan[k] == target;
      assert HasOutput(g, plan[k], id);
    }
  }

  // ----- what a worker is handed

  /** A start hands the worker the oldest pending entries idle for a minute, fifty at most, to work through in
      order; they are now its own, as of now, and nothing else changes. A start that fails leaves the worker
      nothing to do, whether or not the entries became its own. */
  lemma ClaimIsExact(parse: Parser, g: Group, w: string, now: int, id: nat)
    requires Enabled(g, Claim(w, now))
    ensures var h, ids := Apply(parse, g, Claim(w, now)), Claimable(g, now);
      && h.workers == g.workers[w := Working(ids, 0)] && h.acked == g.acked && h.outputs == g.outputs && h.next == g.next
      && |ids| <= 50 && (id in ids ==> id in g.pending && now - g.pending[id].since >= 60_000)
      && (id in h.pending <==> id in g.pending)
      && (id in g.pending ==> h.pending[id] == if id in ids then Holding(w, now) else g.pending[id])
      && (forall i, j :: 0 <= i < j < |ids| ==> ids[i] < ids[j])
    ensures forall effective :: Apply(parse, g, ClaimFailed(w, now, effective)).workers == g.workers[w := Working([], 0)]
  {
  }

  /** A read hands the worker the next entries, fifty or all there are, in order. */
  lemma ReadIsExact(parse: Parser, g: Group, w: string, now: int, k: nat)
    requires Enabled(g, Read(w, now)) && Accounted(g)
    ensures var h, n := Apply(parse, g, Read(w, now)), Min(50, |g.stream| - g.next);
      && h.next == g.next + n && h.acked == g.acked && h.outputs == g.outputs
      && h.workers[w].Working? && h.workers[w].done == 0 && |h.workers[w].queue| == n
      && (k < n ==> h.workers[w].queue[k] == g.next + k && g.next + k in h.pending && h.pending[g.next + k] == Holding(w, now))
  {
    var n := Min(50, |g.stream| - g.next);
    if k < n { IdsAre(g.next, n, g.next + k); }
  }

  // ----- what a worker does with an entry

  /** The records an entry calls for: two for telemetry, one for an alarm, none otherwise. */
  function Due(p: Payload): nat {
    if IsTelemetryRecord(p) then 2 else if IsAlarmRecord(p) then 1 else 0
  }

  lemma DueIsExact(p: Payload)
    ensures |Plan(p)| == Due(p)
    ensures IsTelemetryRecord(p) ==> Plan(p)[0] == ToEnriched && Plan(p)[1] == ToScore
    ensures IsAlarmRecord(p) ==> Plan(p)[0] == ToWebhook
  {
  }

  /** An operation that succeeds writes the next record the entry at the head of the queue calls for, first the
      enrichment and then the score; once all are written it acknowledges the entry and turns to the next. */
  lemma OperateIsExact(parse: Parser, g: Group, w: string, clock: string)
    requires Enabled(g, Operate(w, clock)) && Accounted(g)
    ensures var h, k := Apply(parse, g, Operate(w, clock)), g.workers[w];
      var id := k.queue[0]; var p := FieldMap(g.stream[id]);
      && h.stream == g.stream && h.next == g.next && h.now == g.now
      && (k.done < Due(p) ==>
            && h.pending == g.pending && h.acked == g.acked && h.workers == g.workers[w := Working(k.queue, k.done + 1)]
            && |h.outputs| == |g.outputs| + 1 && h.outputs[..|g.outputs|] == g.outputs
            && h.outputs[|g.outputs|].source == id && SaysWhat(parse, h.outputs[|g.outputs|], p)
            && (IsTelemetryRecord(p) ==> h.outputs[|g.outputs|].target == if k.done == 0 then ToEnriched else ToScore))
      && (k.done >= Due(p) ==>
            && h.outputs == g.outputs && h.pending == g.pending - {id}
            && h.acked == (if id in g.pending then g.acked + {id} else g.acked)
            && h.workers == g.workers[w := Working(k.queue[1..], 0)])
  {
    var k := g.workers[w];
    var p := PayloadOf(g, k.queue[0]);
    assert Delivered(g, k.queue[0]);
    DueIsExact(p);
    if k.done < |Plan(p)| { RenderSaysWhat(parse, Plan(p)[k.done], k.queue[0], p, clock); }
  }

  /** An operation that fails without effect only turns the worker to its next entry: the entry stays pending.
      Appending, joining and dying do just that. */
  lemma OtherStepsAreExact(parse: Parser, g: Group, w: string, clock: string, fields: seq<string>)
    ensures Enabled(g, Fail(w, clock, false)) ==>
      Apply(parse, g, Fail(w, clock, false)) == g.(workers := g.workers[w := Working(g.workers[w].queue[1..], 0)])
    ensures Apply(parse, g, Append(fields)) == g.(stream := g.stream + [fields])
    ensures w !in g.workers ==> Apply(parse, g, Join(w)) == g.(workers := g.workers[w := Starting])
    ensures w in g.workers ==> Apply(parse, g, Die(w)) == g.(workers := g.workers[w := Starting])
  {
  }
}
