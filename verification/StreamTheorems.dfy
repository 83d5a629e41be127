/** The stream processor's promises over every run, and its handler as written. */
module StreamTheorems {
  import opened Prelude
  import opened StreamModel
  import opened StreamProofs

  ghost predicate Inv(parse: Parser, g: Group) {
    Accounted(g) && Progress(g) && AllFaithful(parse, g) && Paid(g)
  }

  lemma StepKeeps(parse: Parser, g: Group, step: Step)
    requires Inv(parse, g) && Enabled(g, step)
    ensures Inv(parse, Apply(parse, g, step))
  {
    StepAccounted(parse, g, step);
    StepProgress(parse, g, step);
    StepFaithful(parse, g, step);
    StepPaid(parse, g, step);
  }

  lemma {:induction false} RunKeeps(parse: Parser, groups: seq<Group>, steps: seq<Step>, i: nat)
    requires IsRun(parse, groups, steps) && i < |groups|
    ensures Inv(parse, groups[i])
  {
    if i > 0 {
      RunKeeps(parse, groups, steps, i - 1);
      assert Follows(parse, groups[i - 1], steps[i - 1], groups[i]);
      StepKeeps(parse, groups[i - 1], steps[i - 1]);
    } else {
      var g := groups[0];
      forall id: nat ensures |HalfWay(g.workers, id)| == 0 {}
    }
  }

  /** Nothing delivered is lost: every delivered entry is pending or acknowledged, not both, and an
      acknowledged one has every output its own fields call for. */
  lemma AtLeastOnce(parse: Parser, groups: seq<Group>, steps: seq<Step>, i: nat, id: nat)
    requires IsRun(parse, groups, steps) && i < |groups|
    ensures var g := groups[i];
      && (Delivered(g, id) <==> (id in g.pending || id in g.acked))
      && !(id in g.pending && id in g.acked)
      && (id in g.acked ==> Complete(g, id))
  {
    RunKeeps(parse, groups, steps, i);
  }

  /** Per entry, enrichments are never fewer than scores. */
  lemma ScoresCovered(parse: Parser, g: Group, id: nat)
    requires AllFaithful(parse, g) && Paid(g)
    ensures Count(g.outputs, Copies(ToEnriched, id)) >= Count(g.outputs, Copies(ToScore, id))
  {
    if IsTelemetry(g, id) {
      assert PaidFor(g, id);
    } else {
      forall o | o in g.outputs ensures !Copies(ToScore, id)(o) {
        var k :| 0 <= k < |g.outputs| && g.outputs[k] == o;
        assert Faithful(parse, g, g.outputs[k]);
      }
      CountZero(g.outputs, Copies(ToScore, id));
    }
  }

  /** No output without a delivered source that calls for it; per entry, enrichments are never
      fewer than scores. */
  lemma OutputsAccounted(parse: Parser, groups: seq<Group>, steps: seq<Step>, i: nat, id: nat)
    requires IsRun(parse, groups, steps) && i < |groups|
    ensures var g := groups[i];
      && (forall k :: 0 <= k < |g.outputs| ==>
            && Delivered(g, g.outputs[k].source) && g.outputs[k].source < |g.stream|
            && g.outputs[k].target in Plan(PayloadOf(g, g.outputs[k].source)))
      && Count(g.outputs, Copies(ToEnriched, id)) >= Count(g.outputs, Copies(ToScore, id))
  {
    RunKeeps(parse, groups, steps, i);
    var g := groups[i];
    forall k | 0 <= k < |g.outputs|
      ensures Delivered(g, g.outputs[k].source) && g.outputs[k].source < |g.stream|
           && g.outputs[k].target in Plan(PayloadOf(g, g.outputs[k].source))
    {
      assert Faithful(parse, g, g.outputs[k]);
    }
    ScoresCovered(parse, g, id);
  }

  /** However often an entry that carries its own time is processed, its copies are identical. */
  lemma IdenticalCopies(parse: Parser, groups: seq<Group>, steps: seq<Step>, i: nat, j: nat, k: nat)
    requires IsRun(parse, groups, steps) && i < |groups|
    requires var g := groups[i];
      && j < |g.outputs| && k < |g.outputs|
      && g.outputs[j].source == g.outputs[k].source && g.outputs[j].target == g.outputs[k].target
      && (g.outputs[j].source < |g.stream| ==> "ts" in PayloadOf(g, g.outputs[j].source))
    ensures groups[i].outputs[j] == groups[i].outputs[k]
  {
    RunKeeps(parse, groups, steps, i);
    var g := groups[i];
    assert Faithful(parse, g, g.outputs[j]) && Faithful(parse, g, g.outputs[k]);
  }

  /** Two passes at different times write the same record exactly when the entry carries `ts`. */
  lemma ReplayIdenticalIffTimed(parse: Parser, target: Target, id: nat, p: Payload, c: string, d: string)
    requires c != d
    ensures Render(parse, target, id, p, c) == Render(parse, target, id, p, d) <==> "ts" in p
  {
  }

  // ----- continuing from any state

  ghost predicate Continues(parse: Parser, groups: seq<Group>, steps: seq<Step>) {
    && |groups| == |steps| + 1
    && forall i :: 0 <= i < |steps| ==> Follows(parse, groups[i], steps[i], groups[i + 1])
  }

  lemma {:induction false} ContinuationKeeps(parse: Parser, groups: seq<Group>, steps: seq<Step>, n: nat)
    requires Continues(parse, groups, steps) && Inv(parse, groups[0]) && n < |groups|
    ensures Inv(parse, groups[n])
  {
    if n > 0 {
      ContinuationKeeps(parse, groups, steps, n - 1);
      assert Follows(parse, groups[n - 1], steps[n - 1], groups[n]);
      StepKeeps(parse, groups[n - 1], steps[n - 1]);
    }
  }

  lemma Proceed(parse: Parser, groups: seq<Group>, steps: seq<Step>, step: Step, h: Group)
    requires Continues(parse, groups, steps) && Follows(parse, groups[|steps|], step, h)
    ensures Continues(parse, groups + [h], steps + [step])
  {
    var gs, ss := groups + [h], steps + [step];
    forall i | 0 <= i < |ss| ensures Follows(parse, gs[i], ss[i], gs[i + 1]) {
      if i < |steps| { assert Follows(parse, groups[i], steps[i], groups[i + 1]); }
    }
  }

  // ----- decoding

  /** Position of the last field pair (or trailing lone name) named `name`. */
  ghost predicate LastAt(fields: seq<string>, name: string, i: nat) {
    && i < |fields| && i % 2 == 0 && fields[i] == name
    && forall j :: i < j < |fields| && j % 2 == 0 ==> fields[j] != name
  }

  /** The record's value for a name is what follows its last occurrence, and there is none exactly
      when the name is absent or its last occurrence has no value. */
  lemma {:induction false} FieldMapLastWins(fields: seq<string>, name: string)
    ensures forall i: nat :: LastAt(fields, name, i) ==>
      (name in FieldMap(fields) <==> i + 1 < |fields|)
      && (i + 1 < |fields| ==> FieldMap(fields)[name] == fields[i + 1])
    ensures (forall i :: 0 <= i < |fields| && i % 2 == 0 ==> fields[i] != name) ==> name !in FieldMap(fields)
    decreases |fields|
  {
    if |fields| > 0 {
      var n := if |fields| % 2 == 1 then |fields| - 1 else |fields| - 2;
      var front := fields[..n];
      FieldMapLastWins(front, name);
      assert forall i :: 0 <= i < n ==> front[i] == fields[i];
      forall i: nat | LastAt(fields, name, i)
        ensures (name in FieldMap(fields) <==> i + 1 < |fields|)
             && (i + 1 < |fields| ==> FieldMap(fields)[name] == fields[i + 1])
      {
        assert i == n || LastAt(front, name, i);
      }
    }
  }

  /** A penalty is only ever given for speeds the band calls medium or high, and grows with speed. */
  lemma PenaltyFollowsBand(a: real, b: real)
    requires a <= b
    ensures Penalty(Some(a)) <= Penalty(Some(b)) <= 3
    ensures Penalty(Some(a)) > 0 ==> SpeedBand(Some(a)).Medium? || SpeedBand(Some(a)).High?
    ensures Penalty(Some(a)) >= 2 <==> SpeedBand(Some(a)).High?
  {
  }

  // ----- the handler

  /** The streams after the first `n` operations of one handler pass. */
  function Handled(parse: Parser, g: Group, id: nat, n: nat, clock: nat -> string): Group {
    if n == 0 then g
    else Effect(parse, Handled(parse, g, id, n - 1, clock), id, n - 1, clock(n - 1))
  }

  lemma {:induction false} HandledKeepsStream(parse: Parser, g: Group, id: nat, n: nat, clock: nat -> string)
    ensures var h := Handled(parse, g, id, n, clock); h.stream == g.stream && h.workers == g.workers && h.next == g.next && h.first == g.first
  {
    if n > 0 { HandledKeepsStream(parse, g, id, n - 1, clock); }
  }

  /** What one operation of the worker does, as a step of the protocol. */
  lemma OperateIsNext(parse: Parser, g: Group, h: Group, w: string, clock: string)
    requires Busy(h, w) && h.stream == g.stream && h.workers == g.workers[w := h.workers[w]]
    ensures var k := h.workers[w];
      Follows(parse, h, Operate(w, clock), Effect(parse, h, k.queue[0], k.done, clock).(workers := g.workers[w := Advance(h, k)]))
  {
  }

  lemma FailIsNext(parse: Parser, g: Group, h: Group, w: string, clock: string, effective: bool)
    requires Busy(h, w) && h.workers == g.workers[w := h.workers[w]]
    ensures var k := h.workers[w];
      Follows(parse, h, Fail(w, clock, effective),
        (if effective then Effect(parse, h, k.queue[0], k.done, clock) else h).(workers := g.workers[w := Working(k.queue[1..], 0)]))
  {
    var next := Working(h.workers[w].queue[1..], 0);
    assert h.workers[w := next] == g.workers[w := next];
  }

  /** Workers play no part in what an operation does to the streams. */
  lemma EffectAside(parse: Parser, g: Group, workers: map<string, Worker>, id: nat, done: nat, clock: string)
    ensures Effect(parse, g.(workers := workers), id, done, clock) == Effect(parse, g, id, done, clock).(workers := workers)
  {
  }

  /** The writes of a handler pass are a run of the worker's protocol steps: the same streams after
      each of them. */
  lemma {:induction false} WritesAreProtocol(parse: Parser, g: Group, w: string, n: nat, clock: nat -> string)
    returns (groups: seq<Group>, steps: seq<Step>)
    requires Busy(g, w) && g.workers[w].done == 0 && g.workers[w].queue[0] < |g.stream|
    requires n <= |Plan(PayloadOf(g, g.workers[w].queue[0]))|
    ensures Continues(parse, groups, steps) && |steps| == n && groups[0] == g
    ensures forall i :: 0 <= i < n ==> steps[i] == Operate(w, clock(i))
    ensures groups[n] == Handled(parse, g, g.workers[w].queue[0], n, clock)
                           .(workers := g.workers[w := g.workers[w].(done := n)])
  {
    var id := g.workers[w].queue[0];
    if n == 0 {
      groups, steps := [g], [];
      assert g.workers[w := g.workers[w].(done := 0)] == g.workers;
    } else {
      var gs, ss := WritesAreProtocol(parse, g, w, n - 1, clock);
      HandledKeepsStream(parse, g, id, n - 1, clock);
      OperateIsNext(parse, g, gs[n - 1], w, clock(n - 1));
      var h := Handled(parse, g, id, n, clock).(workers := g.workers[w := g.workers[w].(done := n)]);
      Proceed(parse, gs, ss, Operate(w, clock(n - 1)), h);
      groups, steps := gs + [h], ss + [Operate(w, clock(n - 1))];
    }
  }

  /** The operations of a pass over an entry that take effect when number `failsAt` throws. */
  function Effective(p: Payload, failsAt: nat, effective: bool): nat {
    Min(if effective then failsAt + 1 else failsAt, |Plan(p)| + 1)
  }

  /** Where a worker stands in the middle of a pass, `n` operations behind it. */
  ghost predicate MidPass(parse: Parser, g: Group, h: Group, w: string, n: nat, clock: nat -> string) {
    && Busy(g, w) && g.workers[w].queue[0] < |g.stream|
    && h == Handled(parse, g, g.workers[w].queue[0], n, clock).(workers := g.workers[w := g.workers[w].(done := n)])
  }

  /** Where it stands at the end, `n` operations having taken effect. */
  ghost function EndOfPass(parse: Parser, g: Group, w: string, n: nat, clock: nat -> string): Group
    requires Busy(g, w)
  {
    Handled(parse, g, g.workers[w].queue[0], n, clock).(workers := g.workers[w := Working(g.workers[w].queue[1..], 0)])
  }

  lemma AckEndsPass(parse: Parser, g: Group, h: Group, w: string, n: nat, clock: nat -> string)
    requires MidPass(parse, g, h, w, n, clock) && n == |Plan(PayloadOf(g, g.workers[w].queue[0]))|
    ensures Follows(parse, h, Operate(w, clock(n)), EndOfPass(parse, g, w, n + 1, clock))
  {
    var id := g.workers[w].queue[0];
    HandledKeepsStream(parse, g, id, n, clock);
    EffectAside(parse, Handled(parse, g, id, n, clock), h.workers, id, n, clock(n));
    OperateIsNext(parse, g, h, w, clock(n));
  }

  lemma FailureEndsPass(parse: Parser, g: Group, h: Group, w: string, n: nat, effective: bool, clock: nat -> string)
    requires MidPass(parse, g, h, w, n, clock)
    ensures Follows(parse, h, Fail(w, clock(n), effective), EndOfPass(parse, g, w, if effective then n + 1 else n, clock))
  {
    var id := g.workers[w].queue[0];
    EffectAside(parse, Handled(parse, g, id, n, clock), h.workers, id, n, clock(n));
    FailIsNext(parse, g, h, w, clock(n), effective);
  }

  /** A whole handler pass, from first write to acknowledgement or to the operation that throws, is
      a run of the worker's protocol steps. It ends in a failure step exactly when the pass throws,
      with the streams as the handler leaves them and the worker at its next entry. */
  lemma HandlerIsProtocol(parse: Parser, g: Group, w: string, failsAt: nat, effective: bool, clock: nat -> string)
    returns (groups: seq<Group>, steps: seq<Step>)
    requires Busy(g, w) && g.workers[w].done == 0 && g.workers[w].queue[0] < |g.stream|
    ensures var id := g.workers[w].queue[0]; var p := PayloadOf(g, id);
      && Continues(parse, groups, steps) && groups[0] == g && |steps| == Min(failsAt, |Plan(p)|) + 1
      && (steps[|steps| - 1] == if failsAt <= |Plan(p)| then Fail(w, clock(failsAt), effective) else Operate(w, clock(|Plan(p)|)))
      && (forall i :: 0 <= i < |steps| - 1 ==> steps[i] == Operate(w, clock(i)))
      && groups[|steps|] == EndOfPass(parse, g, w, Effective(p, failsAt, effective), clock)
  {
    var id := g.workers[w].queue[0];
    var due := |Plan(PayloadOf(g, id))|;
    var n := Min(failsAt, due);
    var gs, ss := WritesAreProtocol(parse, g, w, n, clock);
    var step := if failsAt <= due then Fail(w, clock(failsAt), effective) else Operate(w, clock(due));
    var h := EndOfPass(parse, g, w, Effective(PayloadOf(g, id), failsAt, effective), clock);
    if failsAt <= due {
      FailureEndsPass(parse, g, gs[n], w, n, effective, clock);
    } else {
      AckEndsPass(parse, g, gs[n], w, n, clock);
    }
    Proceed(parse, gs, ss, step, h);
    groups, steps := gs + [h], ss + [step];
  }

  /** One processor process: the streams it writes and its in-flight counter. */
  class StreamProcessor {
    const parse: Parser
    ghost const context: Group      // what the handler does not touch: stream and group bookkeeping
    var outputs: seq<Output>
    var pending: map<nat, Holding>
    var acked: set<nat>
    var inflightCount: int

    constructor (parse: Parser, ghost context: Group)
      ensures View() == context.(outputs := [], pending := map[], acked := {}) && inflightCount == 0
      ensures this.parse == parse && this.context == context
    {
      this.parse, this.context := parse, context;
      outputs, pending, acked, inflightCount := [], map[], {}, 0;
    }

    ghost function View(): Group
      reads this
    {
      context.(outputs := outputs, pending := pending, acked := acked)
    }

    /** Field array to record by one pass over the pairs. */
    method ToFieldMap(fields: seq<string>) returns (mapped: Payload)
      ensures mapped == FieldMap(fields)
    {
      mapped := map[];
      var index := 0;
      while index < |fields|
        invariant index % 2 == 0 || index == |fields| + 1
        invariant index <= |fields| + 1
        invariant mapped == FieldMap(if index <= |fields| then fields[..index] else fields)
      {
        if index + 1 < |fields| {
          assert fields[..index + 2][..index] == fields[..index];
          mapped := mapped[fields[index] := fields[index + 1]];
        } else {
          assert fields[..index + 1] == fields;
          mapped := mapped - {fields[index]};
        }
        index := index + 2;
      }
      assert index == |fields| ==> fields[..index] == fields;
    }

    /** The two writes of a telemetry entry, or as many of them as `limit` lets take effect. */
    method WriteTelemetry(id: nat, payload: Payload, limit: nat, clock: nat -> string) returns (done: nat)
      requires id < |context.stream| && payload == FieldMap(context.stream[id])
      requires Get(payload, "kind", "telemetry") == "telemetry"
      modifies this`outputs
      ensures done == Min(limit, 2)
      ensures View() == Handled(parse, old(View()), id, done, clock)
    {
      done := 0;
      var device, fleet, bike := Get(payload, "deviceId", ""), Get(payload, "fleetId", ""), Get(payload, "bikeId", "");
      var speed := AsNumber(parse, payload, "speedKph");
      if limit == 0 { return; }
      NextWrite(parse, old(View()), id, 0, clock);
      outputs := outputs + [Output(ToEnriched, id, device, fleet, bike, Get(payload, "ts", clock(0)),
                                   Enriched(Get(payload, "speedKph", ""), SpeedBand(speed)))];
      done := 1;
      if limit == 1 { return; }
      NextWrite(parse, old(View()), id, 1, clock);
      outputs := outputs + [Output(ToScore, id, device, fleet, bike, Get(payload, "ts", clock(1)), Score(0 - Penalty(speed)))];
      done := 2;
    }

    /** The write of an alarming event, unless `limit` forbids it. */
    method WriteWebhook(id: nat, payload: Payload, limit: nat, clock: nat -> string) returns (done: nat)
      requires id < |context.stream| && payload == FieldMap(context.stream[id]) && Plan(payload) == [ToWebhook]
      modifies this`outputs
      ensures done == Min(limit, 1)
      ensures View() == Handled(parse, old(View()), id, done, clock)
    {
      done := 0;
      if limit == 0 { return; }
      NextWrite(parse, old(View()), id, 0, clock);
      outputs := outputs + [Output(ToWebhook, id, Get(payload, "deviceId", ""), Get(payload, "fleetId", ""),
                                   Get(payload, "bikeId", ""), Get(payload, "ts", clock(0)),
                                   Webhook(Get(payload, "type", ""), Get(payload, "severity", ""), Get(payload, "metaJson", "{}")))];
      done := 1;
    }

    /** The writes an entry calls for, or as many of them as `limit` lets take effect. */
    method WriteOutputs(id: nat, payload: Payload, limit: nat, clock: nat -> string) returns (done: nat, due: nat)
      requires id < |context.stream| && payload == FieldMap(context.stream[id])
      modifies this`outputs
      ensures due == |Plan(payload)| && done == Min(limit, due)
      ensures View() == Handled(parse, old(View()), id, done, clock)
    {
      var kind := Get(payload, "kind", "telemetry");
      done, due := 0, 0;
      if kind == "telemetry" {
        due := 2;
        done := WriteTelemetry(id, payload, limit, clock);
      } else if kind == "event" {
        var what := Get(payload, "type", "");
        if what == "CRASH" || what == "SOS" || what == "THEFT_SUSPECTED" {
          due := 1;
          done := WriteWebhook(id, payload, limit, clock);
        }
      }
    }

    /** The acknowledgement, after `n` writes that complete the entry's plan. */
    method AckEntry(id: nat, ghost n: nat, ghost start: Group, ghost clock: nat -> string)
      requires id < |context.stream| && n == |Plan(FieldMap(context.stream[id]))| && start.stream == context.stream
      requires View() == Handled(parse, start, id, n, clock)
      modifies this`pending, this`acked
      ensures View() == Handled(parse, start, id, n + 1, clock)
    {
      HandledKeepsStream(parse, start, id, n, clock);
      if id in pending {
        pending, acked := pending - {id}, acked + {id};
      }
    }

    /** Handles one entry. Operation number `failsAt`, if the pass gets that far, throws, having
        taken effect or not; the error is swallowed and the entry stays unacknowledged unless the
        acknowledgement itself was the operation that took effect. */
    method HandleEntry(id: nat, fields: seq<string>, failsAt: nat, effective: bool, clock: nat -> string)
      requires id < |context.stream| && fields == context.stream[id]
      modifies this
      ensures inflightCount == old(inflightCount)
      ensures View() == Handled(parse, old(View()), id, Effective(FieldMap(fields), failsAt, effective), clock)
    {
      inflightCount := inflightCount + 1;
      var payload := ToFieldMap(fields);
      var limit := if effective then failsAt + 1 else failsAt;   // operations that take effect
      var done, due := WriteOutputs(id, payload, limit, clock);
      if done == due && due < limit {
        AckEntry(id, due, old(View()), clock);
      }
      inflightCount := inflightCount - 1;
    }
  }

  /** Operation `n` of a pass, while the plan lasts, appends exactly its record. */
  lemma NextWrite(parse: Parser, g: Group, id: nat, n: nat, clock: nat -> string)
    requires id < |g.stream| && n < |Plan(PayloadOf(g, id))|
    ensures var h := Handled(parse, g, id, n, clock);
      Handled(parse, g, id, n + 1, clock)
        == h.(outputs := h.outputs + [Render(parse, Plan(PayloadOf(g, id))[n], id, PayloadOf(g, id), clock(n))])
  {
    HandledKeepsStream(parse, g, id, n, clock);
  }
}
