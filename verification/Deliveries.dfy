/** Delivery orders: the status machine, its timestamps and its audit log. A row's index is its id. */
module Deliveries {
  import opened Prelude
  import Pick = AutoAssign

  datatype Status = Pending | Assigned | PickedUp | InTransit | Delivered | Failed

  predicate Closed(s: Status) {
    s == Delivered || s == Failed
  }

  datatype Delivery = Delivery(
    fleet: string, rider: Option<string>, status: Status,
    assignedAt: Option<int>, pickedUpAt: Option<int>, inTransitAt: Option<int>,
    deliveredAt: Option<int>, failedAt: Option<int>)

  datatype Audit =
    | Created(id: nat)
    | GivenTo(id: nat, rider: string)
    | Changed(id: nat, oldStatus: Status, newStatus: Status)

  datatype Desk = Desk(now: int, rows: seq<Delivery>, audit: seq<Audit>)

  datatype Actor = Staff | Courier(id: string)

  datatype Step =
    | Create(now: int, fleet: string, deliveryFleet: bool)
    | Assign(now: int, fleet: string, id: nat, rider: string, riderInFleet: bool)
    | Update(now: int, fleet: string, id: nat, status: Status, actor: Actor)
    | AutoAssign(now: int, fleet: string, id: nat, best: Option<string>)

  /** The transition table. */
  function Allowed(s: Status): set<Status> {
    match s
    case Pending => {Assigned, Failed}
    case Assigned => {Pending, PickedUp, Failed}
    case PickedUp => {InTransit, Delivered, Failed}
    case InTransit => {Delivered, Failed}
    case Delivered => {}
    case Failed => {}
  }

  predicate Known(d: Desk, id: nat, fleet: string) {
    id < |d.rows| && d.rows[id].fleet == fleet
  }

  function Fresh(fleet: string): Delivery {
    Delivery(fleet, None, Pending, None, None, None, None, None)
  }

  function Given(row: Delivery, rider: string, now: int): Delivery {
    row.(rider := Some(rider), status := Assigned, assignedAt := Some(now))
  }

  function Stamped(row: Delivery, s: Status, now: int): Delivery {
    match s
    case PickedUp => row.(status := s, pickedUpAt := Some(now))
    case InTransit => row.(status := s, inTransitAt := Some(now))
    case Delivered => row.(status := s, deliveredAt := Some(now))
    case Failed => row.(status := s, failedAt := Some(now))
    case _ => row.(status := s)
  }

  /** A step is refused (and changes nothing) exactly where the service throws. */
  predicate Refused(d: Desk, step: Step) {
    match step
    case Create(_, _, deliveryFleet) => !deliveryFleet
    case Assign(_, fleet, id, _, riderInFleet) =>
      !Known(d, id, fleet) || Closed(d.rows[id].status) || !riderInFleet
    case Update(_, fleet, id, s, actor) =>
      || !Known(d, id, fleet)
      || (actor.Courier? && d.rows[id].rider != Some(actor.id))
      || (d.rows[id].status != s && s !in Allowed(d.rows[id].status))
    case AutoAssign(_, fleet, id, best) =>
      !Known(d, id, fleet) || d.rows[id].status != Pending || best.None?
  }

  function Apply(before: Desk, step: Step): Desk {
    var d := before.(now := step.now);
    if Refused(before, step) then d
    else
      match step
      case Create(_, fleet, _) =>
        d.(rows := d.rows + [Fresh(fleet)], audit := d.audit + [Created(|d.rows|)])
      case Assign(now, _, id, rider, _) =>
        d.(rows := d.rows[id := Given(d.rows[id], rider, now)], audit := d.audit + [GivenTo(id, rider)])
      case Update(now, _, id, s, _) =>
        d.(rows := d.rows[id := Stamped(d.rows[id], s, now)],
           audit := d.audit + [Changed(id, d.rows[id].status, s)])
      case AutoAssign(now, _, id, best) =>
        d.(rows := d.rows[id := Given(d.rows[id], best.value, now)], audit := d.audit + [GivenTo(id, best.value)])
  }

  ghost predicate IsRun(desks: seq<Desk>, steps: seq<Step>) {
    && |desks| == |steps| + 1 && desks[0].rows == [] && desks[0].audit == []
    && forall i :: 0 <= i < |steps| ==> Follows(desks[i], steps[i], desks[i + 1])
  }

  ghost predicate Follows(d: Desk, step: Step, e: Desk) {
    d.now <= step.now && e == Apply(d, step)
  }

  // ----- invariants

  ghost predicate WellStamped(row: Delivery, now: int) {
    && (row.deliveredAt.Some? <==> row.status == Delivered)
    && (row.failedAt.Some? <==> row.status == Failed)
    && (row.status == PickedUp || row.status == InTransit || row.status == Delivered ==> row.pickedUpAt.Some?)
    && (row.status == InTransit ==> row.inTransitAt.Some?)
    && (row.pickedUpAt.Some? ==> row.pickedUpAt.value <= now)
    && (row.status == Delivered ==> row.pickedUpAt.value <= row.deliveredAt.value)
  }

  datatype Seen = Seen(status: Status, rider: Option<string>)

  /** What the audit log alone says about every delivery, or `None` where it contradicts itself. */
  ghost function Replay(audit: seq<Audit>): Option<seq<Seen>> {
    if |audit| == 0 then Some([])
    else
      match Replay(audit[..|audit| - 1])
      case None => None
      case Some(seen) =>
        match audit[|audit| - 1]
        case Created(id) => if id == |seen| then Some(seen + [Seen(Pending, None)]) else None
        case GivenTo(id, rider) => if id < |seen| then Some(seen[id := Seen(Assigned, Some(rider))]) else None
        case Changed(id, from, to) =>
          if id < |seen| && seen[id].status == from then Some(seen[id := seen[id].(status := to)]) else None
  }

  ghost function Now(rows: seq<Delivery>): (r: seq<Seen>)
    ensures |r| == |rows| && forall i :: 0 <= i < |rows| ==> r[i] == Seen(rows[i].status, rows[i].rider)
  {
    seq(|rows|, i requires 0 <= i < |rows| => Seen(rows[i].status, rows[i].rider))
  }

  ghost predicate AllStamped(d: Desk) {
    forall i :: 0 <= i < |d.rows| ==> WellStamped(d.rows[i], d.now)
  }

  ghost predicate Inv(d: Desk) {
    AllStamped(d) && Replay(d.audit) == Some(Now(d.rows))
  }

  lemma StepStamps(d: Desk, step: Step)
    requires AllStamped(d) && d.now <= step.now
    ensures AllStamped(Apply(d, step))
  {
    var e := Apply(d, step);
    forall i | 0 <= i < |e.rows| ensures WellStamped(e.rows[i], e.now) {
      if i < |d.rows| { assert WellStamped(d.rows[i], d.now); }
    }
  }

  lemma StepReplays(d: Desk, step: Step)
    requires Replay(d.audit) == Some(Now(d.rows))
    ensures Replay(Apply(d, step).audit) == Some(Now(Apply(d, step).rows))
  {
    var e := Apply(d, step);
    if !Refused(d, step) {
      assert e.audit[..|e.audit| - 1] == d.audit;
      if step.Create? {
        assert Now(e.rows) == Now(d.rows) + [Seen(Pending, None)];
      } else {
        assert Now(e.rows) == Now(d.rows)[step.id := Seen(e.rows[step.id].status, e.rows[step.id].rider)];
      }
    }
  }

  lemma {:induction false} RunKeeps(desks: seq<Desk>, steps: seq<Step>, i: nat)
    requires IsRun(desks, steps) && i < |desks|
    ensures Inv(desks[i])
  {
    if i > 0 {
      RunKeeps(desks, steps, i - 1);
      assert Follows(desks[i - 1], steps[i - 1], desks[i]);
      StepStamps(desks[i - 1], steps[i - 1]);
      StepReplays(desks[i - 1], steps[i - 1]);
    }
  }

  /** Timestamps tell the status, in every run. */
  lemma StampsTellStatus(desks: seq<Desk>, steps: seq<Step>, i: nat, id: nat)
    requires IsRun(desks, steps) && i < |desks| && id < |desks[i].rows|
    ensures var row := desks[i].rows[id];
      && (row.deliveredAt.Some? <==> row.status == Delivered)
      && (row.failedAt.Some? <==> row.status == Failed)
      && (row.status == PickedUp || row.status == InTransit || row.status == Delivered ==> row.pickedUpAt.Some?)
      && (row.status == Delivered ==> row.pickedUpAt.value <= row.deliveredAt.value)
  {
    RunKeeps(desks, steps, i);
    assert WellStamped(desks[i].rows[id], desks[i].now);
  }

  /** Replaying the audit log gives every delivery's status and rider, and every old status it
      records was the status at the time. */
  lemma AuditRebuildsDeliveries(desks: seq<Desk>, steps: seq<Step>, i: nat)
    requires IsRun(desks, steps) && i < |desks|
    ensures Replay(desks[i].audit) == Some(Now(desks[i].rows))
  {
    RunKeeps(desks, steps, i);
  }

  /** Delivered or failed once is delivered or failed for good. */
  lemma {:induction false} ClosedForever(desks: seq<Desk>, steps: seq<Step>, i: nat, j: nat, id: nat)
    requires IsRun(desks, steps) && i <= j < |desks|
    requires id < |desks[i].rows| && Closed(desks[i].rows[id].status)
    ensures id < |desks[j].rows| && desks[j].rows[id].status == desks[i].rows[id].status
    decreases j
  {
    if i < j {
      ClosedForever(desks, steps, i, j - 1, id);
      assert Follows(desks[j - 1], steps[j - 1], desks[j]);
    }
  }

  /** A status update alone can put an order nobody was given into ASSIGNED. */
  lemma AssignedWithoutRider() returns (desks: seq<Desk>, steps: seq<Step>)
    ensures IsRun(desks, steps) && |steps| == 2
    ensures |desks[2].rows| == 1 && desks[2].rows[0].status == Assigned && desks[2].rows[0].rider == None
  {
    steps := [Create(0, "f", true), Update(0, "f", 0, Assigned, Staff)];
    var d := Desk(0, [], []);
    var e := Apply(d, steps[0]);
    desks := [d, e, Apply(e, steps[1])];
    forall i | 0 <= i < |steps| ensures Follows(desks[i], steps[i], desks[i + 1]) {
      if i == 0 {} else {}
    }
  }

  lemma {:induction false} GivenSomewhere(audit: seq<Audit>, id: nat)
    requires Replay(audit).Some? && id < |Replay(audit).value|
    ensures Replay(audit).value[id].rider.Some?
       <==> exists k :: 0 <= k < |audit| && audit[k].GivenTo? && audit[k].id == id
  {
    if |audit| > 0 {
      var init, last := audit[..|audit| - 1], audit[|audit| - 1];
      var seen := Replay(init).value;
      assert forall k :: 0 <= k < |init| ==> init[k] == audit[k];
      if id < |seen| {
        GivenSomewhere(init, id);
        if k :| 0 <= k < |init| && init[k].GivenTo? && init[k].id == id { assert audit[k].GivenTo?; }
      } else {
        NotYetCreated(init, id);
      }
      assert last.GivenTo? && last.id == id ==> audit[|audit| - 1].GivenTo?;
    }
  }

  lemma {:induction false} NotYetCreated(audit: seq<Audit>, id: nat)
    requires Replay(audit).Some? && |Replay(audit).value| <= id
    ensures forall k :: 0 <= k < |audit| && audit[k].GivenTo? ==> audit[k].id != id
  {
    if |audit| > 0 {
      NotYetCreated(audit[..|audit| - 1], id);
      assert forall k :: 0 <= k < |audit| - 1 ==> audit[k] == audit[..|audit| - 1][k];
    }
  }

  /** A delivery has a rider exactly when it was given to one, manually or automatically. */
  lemma RiderIffGiven(desks: seq<Desk>, steps: seq<Step>, i: nat, id: nat)
    requires IsRun(desks, steps) && i < |desks| && id < |desks[i].rows|
    ensures desks[i].rows[id].rider.Some?
       <==> exists k :: 0 <= k < |desks[i].audit| && desks[i].audit[k].GivenTo? && desks[i].audit[k].id == id
  {
    RunKeeps(desks, steps, i);
    GivenSomewhere(desks[i].audit, id);
  }

  // ----- when an order on its way has a rider

  predicate OnItsWay(s: Status) {
    s == Assigned || s == PickedUp || s == InTransit || s == Delivered
  }

  ghost predicate Carried(d: Desk) {
    forall id :: 0 <= id < |d.rows| && OnItsWay(d.rows[id].status) ==> d.rows[id].rider.Some?
  }

  /** An accepted status update to ASSIGNED of a pending order nobody was given. */
  predicate Orphans(d: Desk, step: Step) {
    && step.Update? && step.status == Assigned && !Refused(d, step)
    && d.rows[step.id].status == Pending && d.rows[step.id].rider.None?
  }

  lemma StepCarries(d: Desk, step: Step)
    requires Carried(d)
    ensures Carried(Apply(d, step)) <==> !Orphans(d, step)
  {
    var e := Apply(d, step);
    if Orphans(d, step) {
      assert e.rows[step.id].status == Assigned && e.rows[step.id].rider.None?;
    } else {
      forall id | 0 <= id < |e.rows| && OnItsWay(e.rows[id].status) ensures e.rows[id].rider.Some? {
        if id < |d.rows| { assert OnItsWay(d.rows[id].status) ==> d.rows[id].rider.Some?; }
      }
    }
  }

  lemma {:induction false} NoOrphansCarried(desks: seq<Desk>, steps: seq<Step>, n: nat)
    requires IsRun(desks, steps) && n < |desks| && forall k :: 0 <= k < n ==> !Orphans(desks[k], steps[k])
    ensures Carried(desks[n])
  {
    if n > 0 {
      NoOrphansCarried(desks, steps, n - 1);
      assert Follows(desks[n - 1], steps[n - 1], desks[n]);
      StepCarries(desks[n - 1], steps[n - 1]);
    }
  }

  /** Throughout a run every order that is assigned, picked up, in transit or delivered has a rider
      exactly when no status update of the run is accepted that puts a pending order without a rider
      to ASSIGNED. */
  lemma CarriedIffNoOrphans(desks: seq<Desk>, steps: seq<Step>)
    requires IsRun(desks, steps)
    ensures (forall n :: 0 <= n < |desks| ==> Carried(desks[n]))
       <==> (forall k :: 0 <= k < |steps| ==> !Orphans(desks[k], steps[k]))
  {
    if forall n :: 0 <= n < |desks| ==> Carried(desks[n]) {
      forall k | 0 <= k < |steps| ensures !Orphans(desks[k], steps[k]) {
        assert Follows(desks[k], steps[k], desks[k + 1]);
        assert Carried(desks[k]) && Carried(desks[k + 1]);
        StepCarries(desks[k], steps[k]);
      }
    } else {
      var n :| 0 <= n < |desks| && !Carried(desks[n]);
      if forall k :: 0 <= k < n ==> !Orphans(desks[k], steps[k]) {
        NoOrphansCarried(desks, steps, n);
      }
    }
  }

  // ----- what each call does, column by column

  /** The moves of the transition table, one by one. */
  predicate Move(a: Status, b: Status) {
    || (a == Pending && b == Assigned) || (a == Pending && b == Failed)
    || (a == Assigned && b == Pending) || (a == Assigned && b == PickedUp) || (a == Assigned && b == Failed)
    || (a == PickedUp && b == InTransit) || (a == PickedUp && b == Delivered) || (a == PickedUp && b == Failed)
    || (a == InTransit && b == Delivered) || (a == InTransit && b == Failed)
  }

  predicate OfFleet(d: Desk, id: nat, fleet: string) {
    id < |d.rows| && d.rows[id].fleet == fleet
  }

  ghost predicate OthersKept(d: Desk, e: Desk, id: nat) {
    |e.rows| == |d.rows| && forall j :: 0 <= j < |d.rows| && j != id ==> e.rows[j] == d.rows[j]
  }

  /** Staff may update any order of their fleet, a courier only one of their own; and only along the table
      or to the status it has. Then the status changes, the stamp of the new status is set to now, every
      other column stays, and the audit notes both statuses; otherwise nothing but the clock changes. */
  lemma UpdateIsExact(d: Desk, now: int, fleet: string, id: nat, to: Status, actor: Actor)
    ensures var e := Apply(d, Update(now, fleet, id, to, actor));
      if && OfFleet(d, id, fleet) && (actor.Courier? ==> d.rows[id].rider == Some(actor.id))
         && (d.rows[id].status == to || Move(d.rows[id].status, to))
      then
        var r, u := d.rows[id], e.rows[id];
        && u.status == to && u.fleet == r.fleet && u.rider == r.rider && u.assignedAt == r.assignedAt
        && u.pickedUpAt == (if to == PickedUp then Some(now) else r.pickedUpAt)
        && u.inTransitAt == (if to == InTransit then Some(now) else r.inTransitAt)
        && u.deliveredAt == (if to == Delivered then Some(now) else r.deliveredAt)
        && u.failedAt == (if to == Failed then Some(now) else r.failedAt)
        && OthersKept(d, e, id) && e.audit == d.audit + [Changed(id, r.status, to)] && e.now == now
      else e == d.(now := now)
  {
  }

  /** The fleet's staff may give an order of theirs to a rider of theirs until it is delivered or failed. */
  lemma AssignIsExact(d: Desk, now: int, fleet: string, id: nat, rider: string, riderInFleet: bool)
    ensures var e := Apply(d, Assign(now, fleet, id, rider, riderInFleet));
      if OfFleet(d, id, fleet) && d.rows[id].status != Delivered && d.rows[id].status != Failed && riderInFleet
      then && e.rows[id] == d.rows[id].(rider := Some(rider), status := Assigned, assignedAt := Some(now))
           && OthersKept(d, e, id) && e.audit == d.audit + [GivenTo(id, rider)] && e.now == now
      else e == d.(now := now)
  {
  }

  /** Automatic assignment takes only pending orders, and only if a rider was found. */
  lemma AutoAssignIsExact(d: Desk, now: int, fleet: string, id: nat, best: Option<string>)
    ensures var e := Apply(d, AutoAssign(now, fleet, id, best));
      if OfFleet(d, id, fleet) && d.rows[id].status == Pending && best.Some?
      then && e.rows[id] == d.rows[id].(rider := best, status := Assigned, assignedAt := Some(now))
           && OthersKept(d, e, id) && e.audit == d.audit + [GivenTo(id, best.value)] && e.now == now
      else e == d.(now := now)
  {
  }

  /** A new order of a delivery fleet is pending, without rider and without stamps. */
  lemma CreateIsExact(d: Desk, now: int, fleet: string, deliveryFleet: bool)
    ensures var e := Apply(d, Create(now, fleet, deliveryFleet));
      if deliveryFleet
      then && |e.rows| == |d.rows| + 1 && e.rows[..|d.rows|] == d.rows
           && e.rows[|d.rows|] == Delivery(fleet, None, Pending, None, None, None, None, None)
           && e.audit == d.audit + [Created(|d.rows|)] && e.now == now
      else e == d.(now := now)
  {
  }

  /** Whom the audit last gave the order to. */
  function LastGiven(audit: seq<Audit>, id: nat): Option<string> {
    if |audit| == 0 then None
    else
      var last := audit[|audit| - 1];
      if last.GivenTo? && last.id == id then Some(last.rider) else LastGiven(audit[..|audit| - 1], id)
  }

  lemma {:induction false} RiderIsLastGiven(audit: seq<Audit>, id: nat)
    requires Replay(audit).Some?
    ensures if id < |Replay(audit).value| then Replay(audit).value[id].rider == LastGiven(audit, id)
            else LastGiven(audit, id) == None
  {
    if |audit| > 0 { RiderIsLastGiven(audit[..|audit| - 1], id); }
  }

  /** In every run a courier's update leaves its mark only on orders last given to that courier. */
  lemma CouriersUpdateTheirOwn(desks: seq<Desk>, steps: seq<Step>, k: nat)
    requires IsRun(desks, steps) && k < |steps| && steps[k].Update? && steps[k].actor.Courier?
    ensures desks[k + 1].audit != desks[k].audit ==> LastGiven(desks[k].audit, steps[k].id) == Some(steps[k].actor.id)
    ensures desks[k + 1].rows != desks[k].rows ==> LastGiven(desks[k].audit, steps[k].id) == Some(steps[k].actor.id)
  {
    var d, u := desks[k], steps[k];
    assert Follows(desks[k], steps[k], desks[k + 1]);
    RunKeeps(desks, steps, k);
    UpdateIsExact(d, u.now, u.fleet, u.id, u.status, u.actor);
    RiderIsLastGiven(d.audit, u.id);
  }

  // ----- the service

  class DeliveriesService {
    var rows: seq<Delivery>
    var audit: seq<Audit>

    constructor ()
      ensures rows == [] && audit == []
    {
      rows, audit := [], [];
    }

    ghost function View(now: int): Desk
      reads this
    {
      Desk(now, rows, audit)
    }

    method CreateDelivery(fleet: string, deliveryFleet: bool, now: int) returns (ok: bool)
      modifies this
      ensures ok <==> !Refused(old(View(now)), Create(now, fleet, deliveryFleet))
      ensures View(now) == Apply(old(View(now)), Create(now, fleet, deliveryFleet))
    {
      if !deliveryFleet { return false; }
      audit := audit + [Created(|rows|)];
      rows := rows + [Delivery(fleet, None, Pending, None, None, None, None, None)];
      ok := true;
    }

    method AssignDelivery(fleet: string, id: nat, rider: string, riderInFleet: bool, now: int) returns (ok: bool)
      modifies this
      ensures ok <==> !Refused(old(View(now)), Assign(now, fleet, id, rider, riderInFleet))
      ensures View(now) == Apply(old(View(now)), Assign(now, fleet, id, rider, riderInFleet))
    {
      if id >= |rows| || rows[id].fleet != fleet { return false; }
      if rows[id].status == Delivered || rows[id].status == Failed { return false; }
      if !riderInFleet { return false; }
      rows := rows[id := rows[id].(rider := Some(rider), status := Assigned, assignedAt := Some(now))];
      audit := audit + [GivenTo(id, rider)];
      ok := true;
    }

    method UpdateDeliveryStatus(fleet: string, id: nat, next: Status, actor: Actor, now: int) returns (ok: bool)
      modifies this
      ensures ok <==> !Refused(old(View(now)), Update(now, fleet, id, next, actor))
      ensures View(now) == Apply(old(View(now)), Update(now, fleet, id, next, actor))
    {
      if id >= |rows| || rows[id].fleet != fleet { return false; }
      var row := rows[id];
      if actor.Courier? && row.rider != Some(actor.id) { return false; }
      if row.status != next && next !in Allowed(row.status) { return false; }
      var updated := row.(status := next);
      if next == PickedUp {
        updated := updated.(pickedUpAt := Some(now));
      } else if next == InTransit {
        updated := updated.(inTransitAt := Some(now));
      } else if next == Delivered {
        updated := updated.(deliveredAt := Some(now));
      } else if next == Failed {
        updated := updated.(failedAt := Some(now));
      }
      rows := rows[id := updated];
      audit := audit + [Changed(id, row.status, next)];
      ok := true;
    }

    /** From the choice of the rider to the row: the pending order goes to the first nearest
        qualifying rider, and the call fails, changing nothing, exactly when the order is unknown or
        not pending or nobody qualifies. */
    method AutoAssignDelivery(fleet: string, id: nat, world: Pick.World, riders: seq<Pick.Rider>, now: int) returns (ok: bool)
      modifies this
      ensures ok <==> && old(Known(View(now), id, fleet)) && old(rows)[id].status == Pending
                      && exists i :: 0 <= i < |riders| && Pick.Qualifies(world, fleet, riders[i])
      ensures ok ==> exists i: nat ::
        && Pick.Nearest(world, fleet, riders, i)
        && View(now) == Apply(old(View(now)), AutoAssign(now, fleet, id, Some(riders[i].id)))
      ensures !ok ==> View(now) == old(View(now)) && View(now) == Apply(old(View(now)), AutoAssign(now, fleet, id, None))
    {
      if id >= |rows| || rows[id].fleet != fleet || rows[id].status != Pending { return false; }
      var best := Pick.PickRider(world, fleet, riders);
      if best.None? { return false; }
      ghost var i: nat :| Pick.Nearest(world, fleet, riders, i) && best.value == riders[i].id;
      rows := rows[id := rows[id].(rider := best, status := Assigned, assignedAt := Some(now))];
      audit := audit + [GivenTo(id, best.value)];
      ok := true;
      assert Pick.Nearest(world, fleet, riders, i)
        && View(now) == Apply(old(View(now)), AutoAssign(now, fleet, id, Some(riders[i].id)));
    }
  }
}
