/** At-least-once processing, for any number of workers, crashes, failures and claims. */
module StreamProofs {
  import opened Prelude
  import opened StreamModel

  predicate Delivered(g: Group, id: nat) {
    g.first <= id < g.next
  }

  function PayloadOf(g: Group, id: nat): Payload
    requires id < |g.stream|
  {
    FieldMap(g.stream[id])
  }

  // ----- invariants

  /** Every delivered entry is either pending or acknowledged, and nothing else is either. */
  ghost predicate Accounted(g: Group) {
    && g.first <= g.next <= |g.stream|
    && (forall id: nat :: Delivered(g, id) <==> (id in g.pending || id in g.acked))
    && (forall id :: id in g.pending ==> id !in g.acked)
    && (forall w, i :: w in g.workers && g.workers[w].Working? && 0 <= i < |g.workers[w].queue|
          ==> Delivered(g, g.workers[w].queue[i]))
  }

  ghost predicate HasOutput(g: Group, target: Target, id: nat) {
    exists k :: 0 <= k < |g.outputs| && g.outputs[k].target == target && g.outputs[k].source == id
  }

  /** The first `n` writes of the entry's plan have been made at least once. */
  ghost predicate Written(g: Group, id: nat, n: nat) {
    id < |g.stream| && n <= |Plan(PayloadOf(g, id))|
    && forall k :: 0 <= k < n ==> HasOutput(g, Plan(PayloadOf(g, id))[k], id)
  }

  ghost predicate Complete(g: Group, id: nat) {
    id < |g.stream| && Written(g, id, |Plan(PayloadOf(g, id))|)
  }

  /** What is behind a worker has been written, and acknowledged entries are complete. */
  ghost predicate Progress(g: Group) {
    && (forall id :: id in g.acked ==> Complete(g, id))
    && (forall w :: Busy(g, w) ==> Written(g, g.workers[w].queue[0], g.workers[w].done))
  }

  /** The record comes from a delivered entry that calls for it, and says what the entry says. */
  ghost predicate Faithful(parse: Parser, g: Group, o: Output) {
    && Delivered(g, o.source) && o.source < |g.stream|
    && o.target in Plan(PayloadOf(g, o.source))
    && o == Render(parse, o.target, o.source, PayloadOf(g, o.source), o.ts)
  }

  ghost predicate AllFaithful(parse: Parser, g: Group) {
    forall k :: 0 <= k < |g.outputs| ==> Faithful(parse, g, g.outputs[k])
  }

  ghost function Copies(target: Target, id: nat): Output -> bool {
    (o: Output) => o.target == target && o.source == id
  }

  /** Has enriched this entry and not yet scored it. */
  predicate BetweenWrites(k: Worker, id: nat) {
    k.Working? && |k.queue| > 0 && k.queue[0] == id && k.done == 1
  }

  ghost function HalfWay(workers: map<string, Worker>, id: nat): set<string> {
    set w | w in workers && BetweenWrites(workers[w], id)
  }

  ghost predicate PaidFor(g: Group, id: nat) {
    Count(g.outputs, Copies(ToEnriched, id)) >= Count(g.outputs, Copies(ToScore, id)) + |HalfWay(g.workers, id)|
  }

  ghost predicate IsTelemetry(g: Group, id: nat) {
    id < |g.stream| && Plan(PayloadOf(g, id)) == [ToEnriched, ToScore]
  }

  /** Each score is paid for by an enrichment, and so is each worker about to score. */
  ghost predicate Paid(g: Group) {
    forall id: nat :: IsTelemetry(g, id) ==> PaidFor(g, id)
  }

  // ----- each step keeps them

  lemma IdsAre(from: nat, n: nat, id: nat)
    ensures id in Ids(from, n) <==> from <= id < from + n
  {
    if from <= id < from + n {
      assert Ids(from, n)[id - from] == id;
    }
  }

  /** Handing delivered entries to a worker, new ones or old ones, loses nothing. */
  lemma HandAccounted(g: Group, h: Group, w: string, now: int, ids: seq<nat>, queue: seq<nat>)
    requires Accounted(g) && h == Hand(g, w, now, ids, queue).(next := h.next) && g.next <= h.next <= |g.stream|
    requires forall id: nat :: id in g.pending || id in ids <==> id in g.pending || g.next <= id < h.next
    requires forall i :: 0 <= i < |queue| ==> queue[i] in ids
    ensures Accounted(h)
  {
    forall id: nat ensures Delivered(h, id) <==> (id in h.pending || id in h.acked) {
      assert Delivered(g, id) <==> (id in g.pending || id in g.acked);
    }
    forall v, i | v in h.workers && h.workers[v].Working? && 0 <= i < |h.workers[v].queue|
      ensures Delivered(h, h.workers[v].queue[i])
    {
      if v != w { assert Delivered(g, g.workers[v].queue[i]); }
    }
  }

  /** An operation, a failure or a death leaves the group accounted for. */
  lemma WorkAccounted(parse: Parser, g: Group, step: Step)
    requires Accounted(g) && Enabled(g, step) && (step.Operate? || step.Fail?)
    ensures Accounted(Apply(parse, g, step))
  {
    var h := Apply(parse, g, step);
    forall id: nat ensures Delivered(h, id) <==> (id in h.pending || id in h.acked) {
      assert Delivered(g, id) <==> (id in g.pending || id in g.acked);
    }
    forall w, i | w in h.workers && h.workers[w].Working? && 0 <= i < |h.workers[w].queue|
      ensures Delivered(h, h.workers[w].queue[i])
    {
      if h.workers[w].queue == g.workers[w].queue {
        assert Delivered(g, g.workers[w].queue[i]);
      } else {
        assert h.workers[w].queue[i] == g.workers[w].queue[i + 1];
      }
    }
  }

  lemma StepAccounted(parse: Parser, g: Group, step: Step)
    requires Accounted(g) && Enabled(g, step)
    ensures Accounted(Apply(parse, g, step))
  {
    var h := Apply(parse, g, step);
    match step
    case Claim(w, now) => HandAccounted(g, h, w, now, Claimable(g, now), Claimable(g, now));
    case ClaimFailed(w, now, effective) =>
      HandAccounted(g, h, w, now, if effective then Claimable(g, now) else [], []);
    case Read(w, now) =>
      var ids := Ids(g.next, Min(BATCH, |g.stream| - g.next));
      forall id: nat ensures id in ids <==> g.next <= id < h.next { IdsAre(g.next, |ids|, id); }
      HandAccounted(g, h, w, now, ids, ids);
    case Operate(_, _) => WorkAccounted(parse, g, step);
    case Fail(_, _, _) => WorkAccounted(parse, g, step);
    case _ =>
      forall id: nat ensures Delivered(h, id) <==> (id in h.pending || id in h.acked) {
        assert Delivered(g, id) <==> (id in g.pending || id in g.acked);
      }
  }

  lemma OutputStays(g: Group, h: Group, target: Target, id: nat)
    requires HasOutput(g, target, id) && g.outputs <= h.outputs
    ensures HasOutput(h, target, id)
  {
    var k :| 0 <= k < |g.outputs| && g.outputs[k].target == target && g.outputs[k].source == id;
    assert h.outputs[k] == g.outputs[k];
  }

  lemma WrittenStays(g: Group, h: Group, id: nat, n: nat)
    requires Written(g, id, n) && g.outputs <= h.outputs && g.stream <= h.stream
    ensures Written(h, id, n)
  {
    forall k | 0 <= k < n ensures HasOutput(h, Plan(PayloadOf(h, id))[k], id) {
      OutputStays(g, h, Plan(PayloadOf(g, id))[k], id);
    }
  }

  lemma StepExtends(parse: Parser, g: Group, step: Step)
    requires Enabled(g, step)
    ensures var h := Apply(parse, g, step); g.outputs <= h.outputs && g.stream <= h.stream
  {
  }

  /** One more write of a plan, made by the operation just performed. */
  lemma EffectWrites(parse: Parser, g: Group, id: nat, done: nat, clock: string)
    requires Written(g, id, done) && done < |Plan(PayloadOf(g, id))|
    ensures Written(Effect(parse, g, id, done, clock), id, done + 1)
  {
    var h := Effect(parse, g, id, done, clock);
    var plan := Plan(PayloadOf(g, id));
    forall k | 0 <= k < done + 1 ensures HasOutput(h, plan[k], id) {
      if k < done {
        OutputStays(g, h, plan[k], id);
      } else {
        assert h.outputs[|g.outputs|].target == plan[k];
      }
    }
  }

  /** Acknowledged entries are complete: only the last operation of a pass acknowledges. */
  lemma AckedComplete(parse: Parser, g: Group, step: Step, id: nat)
    requires Progress(g) && Enabled(g, step)
    ensures id in Apply(parse, g, step).acked ==> Complete(Apply(parse, g, step), id)
  {
    var h := Apply(parse, g, step);
    StepExtends(parse, g, step);
    if id in g.acked {
      WrittenStays(g, h, id, |Plan(PayloadOf(g, id))|);
    } else if id in h.acked {
      var k := g.workers[step.worker];
      assert Busy(g, step.worker) && k.queue[0] == id;
      WrittenStays(g, h, id, k.done);
    }
  }

  /** What is behind a worker has been written. */
  lemma BehindWritten(parse: Parser, g: Group, step: Step, w: string)
    requires Accounted(g) && Progress(g) && Enabled(g, step) && Busy(Apply(parse, g, step), w)
    ensures var h := Apply(parse, g, step); Written(h, h.workers[w].queue[0], h.workers[w].done)
  {
    var h := Apply(parse, g, step);
    StepExtends(parse, g, step);
    if Busy(g, w) && h.workers[w] == g.workers[w] {
      WrittenStays(g, h, g.workers[w].queue[0], g.workers[w].done);
    } else if step.Operate? && step.worker == w && h.workers[w].done > 0 {
      var k := g.workers[w];
      EffectWrites(parse, g, k.queue[0], k.done, step.clock);
    } else {
      assert h.workers[w].done == 0;
      FreshHead(parse, g, step, w);
    }
  }

  lemma StepProgress(parse: Parser, g: Group, step: Step)
    requires Accounted(g) && Progress(g) && Enabled(g, step)
    ensures Progress(Apply(parse, g, step))
  {
    var h := Apply(parse, g, step);
    forall id | id in h.acked ensures Complete(h, id) { AckedComplete(parse, g, step, id); }
    forall w | Busy(h, w) ensures Written(h, h.workers[w].queue[0], h.workers[w].done) { BehindWritten(parse, g, step, w); }
  }

  /** A worker that has just turned to an entry owes nothing for it, and the entry exists. */
  lemma FreshHead(parse: Parser, g: Group, step: Step, w: string)
    requires Accounted(g) && Enabled(g, step)
    requires Busy(Apply(parse, g, step), w)
    ensures Written(Apply(parse, g, step), Apply(parse, g, step).workers[w].queue[0], 0)
  {
    StepAccounted(parse, g, step);
    var h := Apply(parse, g, step);
    assert Delivered(h, h.workers[w].queue[0]);
  }

  lemma FaithfulStays(parse: Parser, g: Group, h: Group, o: Output)
    requires Faithful(parse, g, o) && g.stream <= h.stream && g.first == h.first && g.next <= h.next
    ensures Faithful(parse, h, o)
  {
    assert h.stream[o.source] == g.stream[o.source];
  }

  lemma EffectFaithful(parse: Parser, g: Group, id: nat, done: nat, clock: string)
    requires AllFaithful(parse, g) && Delivered(g, id) && id < |g.stream|
    ensures AllFaithful(parse, Effect(parse, g, id, done, clock))
  {
    var h := Effect(parse, g, id, done, clock);
    var p := PayloadOf(g, id);
    forall k | 0 <= k < |h.outputs| ensures Faithful(parse, h, h.outputs[k]) {
      if k < |g.outputs| {
        FaithfulStays(parse, g, h, g.outputs[k]);
      } else {
        var o := Render(parse, Plan(p)[done], id, p, clock);
        assert h.outputs[k] == o && o == Render(parse, o.target, id, p, o.ts);
      }
    }
  }

  lemma StepFaithful(parse: Parser, g: Group, step: Step)
    requires Accounted(g) && AllFaithful(parse, g) && Enabled(g, step)
    ensures AllFaithful(parse, Apply(parse, g, step))
  {
    var h := Apply(parse, g, step);
    var u := g;
    if step.Operate? || (step.Fail? && step.effective) {
      var k := g.workers[step.worker];
      assert Delivered(g, k.queue[0]);
      EffectFaithful(parse, g, k.queue[0], k.done, step.clock);
      u := Effect(parse, g, k.queue[0], k.done, step.clock);
    }
    forall i | 0 <= i < |h.outputs| ensures Faithful(parse, h, h.outputs[i]) {
      FaithfulStays(parse, u, h, u.outputs[i]);
    }
  }

  lemma Without(s: set<string>, x: string)
    ensures |s| == |s - {x}| + (if x in s then 1 else 0)
  {
    if x in s { assert s == (s - {x}) + {x}; } else { assert s == s - {x}; }
  }

  lemma HalfWayUpdate(workers: map<string, Worker>, w: string, k: Worker, id: nat)
    ensures |HalfWay(workers[w := k], id)|
         == |HalfWay(workers, id)| - (if w in workers && BetweenWrites(workers[w], id) then 1 else 0)
              + (if BetweenWrites(k, id) then 1 else 0)
  {
    var before, after := HalfWay(workers, id), HalfWay(workers[w := k], id);
    forall v ensures v in after - {w} <==> v in before - {w} {}
    assert after - {w} == before - {w};
    Without(before, w);
    Without(after, w);
  }

  /** A new entry has no records yet; the others are as they were. */
  lemma AppendPaidFor(parse: Parser, g: Group, fields: seq<string>, id: nat)
    requires Accounted(g) && AllFaithful(parse, g) && (IsTelemetry(g, id) ==> PaidFor(g, id))
    requires IsTelemetry(Apply(parse, g, Append(fields)), id)
    ensures PaidFor(Apply(parse, g, Append(fields)), id)
  {
    var h := Apply(parse, g, Append(fields));
    if id == |g.stream| {
      forall k | 0 <= k < |g.outputs| ensures g.outputs[k].source < id {
        assert Faithful(parse, g, g.outputs[k]);
      }
      NewEntryUntouched(g, h, id);
    }
  }

  lemma StepPaid(parse: Parser, g: Group, step: Step)
    requires Accounted(g) && Progress(g) && AllFaithful(parse, g) && Paid(g) && Enabled(g, step)
    ensures Paid(Apply(parse, g, step))
  {
    var h := Apply(parse, g, step);
    forall id: nat | IsTelemetry(h, id) ensures PaidFor(h, id) {
      if step.Append? {
        AppendPaidFor(parse, g, step.fields, id);
      } else {
        assert h.stream == g.stream && IsTelemetry(g, id);
        StepPaidFor(parse, g, step, id);
      }
    }
  }

  /** Starting, reading, claiming or dying, a worker writes nothing and has nothing half done. */
  lemma TurnPaidFor(parse: Parser, g: Group, step: Step, id: nat)
    requires PaidFor(g, id) && Enabled(g, step) && !step.Append? && !step.Operate? && !step.Fail?
    ensures PaidFor(Apply(parse, g, step), id)
  {
    var h := Apply(parse, g, step);
    HalfWayUpdate(g.workers, step.worker, h.workers[step.worker], id);
    assert h.outputs == g.outputs && !BetweenWrites(h.workers[step.worker], id);
  }

  /** An operation pays for the score ahead of it, or spends what was paid. */
  lemma WorkPaidFor(parse: Parser, g: Group, step: Step, id: nat)
    requires Progress(g) && PaidFor(g, id) && Enabled(g, step) && (step.Operate? || step.Fail?)
    requires IsTelemetry(g, id)
    ensures PaidFor(Apply(parse, g, step), id)
  {
    var h, k := Apply(parse, g, step), g.workers[step.worker];
    HalfWayUpdate(g.workers, step.worker, h.workers[step.worker], id);
    assert Busy(g, step.worker) && Written(g, k.queue[0], k.done);
    EffectOutputs(parse, g, k.queue[0], k.done, step.clock, id);
  }

  /** The balance of one telemetry entry across a worker's step. */
  lemma StepPaidFor(parse: Parser, g: Group, step: Step, id: nat)
    requires Progress(g) && PaidFor(g, id) && Enabled(g, step) && !step.Append?
    requires IsTelemetry(g, id)
    ensures PaidFor(Apply(parse, g, step), id)
  {
    if step.Operate? || step.Fail? { WorkPaidFor(parse, g, step, id); } else { TurnPaidFor(parse, g, step, id); }
  }

  /** The next operation of a worker adds at most one record: the next one of its entry's plan. */
  lemma EffectOutputs(parse: Parser, g: Group, head: nat, done: nat, clock: string, id: nat)
    requires head < |g.stream| && id < |g.stream|
    ensures var h, plan := Effect(parse, g, head, done, clock), Plan(PayloadOf(g, head));
      && Count(h.outputs, Copies(ToEnriched, id)) == Count(g.outputs, Copies(ToEnriched, id))
           + (if head == id && done < |plan| && plan[done] == ToEnriched then 1 else 0)
      && Count(h.outputs, Copies(ToScore, id)) == Count(g.outputs, Copies(ToScore, id))
           + (if head == id && done < |plan| && plan[done] == ToScore then 1 else 0)
  {
    var p := PayloadOf(g, head);
    if done < |Plan(p)| {
      var o := Render(parse, Plan(p)[done], head, p, clock);
      CountAppend(g.outputs, o, Copies(ToEnriched, id));
      CountAppend(g.outputs, o, Copies(ToScore, id));
    }
  }

  lemma NewEntryUntouched(g: Group, h: Group, id: nat)
    requires Accounted(g) && id == |g.stream|
    requires h.outputs == g.outputs && h.workers == g.workers
    requires forall k :: 0 <= k < |g.outputs| ==> g.outputs[k].source < id
    ensures Count(h.outputs, Copies(ToScore, id)) == 0 && HalfWay(h.workers, id) == {}
  {
    CountZero(g.outputs, Copies(ToScore, id));
    forall w | w in h.workers ensures !BetweenWrites(h.workers[w], id) {
      if Busy(h, w) { assert Delivered(g, g.workers[w].queue[0]); }
    }
  }
}
