/** Rider payments: the per-day upsert ledger, lease arrears and the commission payout. Money is in
    integer minor units and times are integer milliseconds; a row's id is its index. */
module Payments {
  import opened Prelude

  const DAY_MS := 86_400_000
  const DEPOSIT := "UPFRONT-LEASE-DEPOSIT"
  const COMMISSION := "Delivery Commission"

  datatype Channel = Cash | MobileMoney | BankTransfer | OtherChannel
  datatype Status = Paid | Partial | Unpaid | Overdue

  datatype Payment = Payment(
    fleet: string, rider: string, amount: int, paidAt: int, channel: Channel, status: Status,
    isPartial: bool, partialReason: Option<string>, reference: Option<string>, notes: Option<string>)

  predicate CountsAsPaid(status: Status) {
    status == Paid || status == Partial
  }

  // ----- recording a payment

  /** A call of recordPayment, with what the service finds out about the rider. */
  datatype Record = Record(
    fleet: string, rider: string, amount: int, paidAt: int, channel: Channel, status: Status,
    isPartial: Option<bool>, partialReason: string, reference: string, notes: string,
    riderInFleet: bool, leaseToOwn: bool, hasBike: bool)

  function OrNull(s: string): Option<string> {
    if s == "" then None else Some(s)
  }

  predicate Accepted(r: Record) {
    r.riderInFleet && (r.leaseToOwn ==> r.hasBike)
  }

  function Row(r: Record): Payment {
    Payment(r.fleet, r.rider, r.amount, r.paidAt, r.channel, r.status,
            if r.isPartial.Some? then r.isPartial.value else r.status == Partial,
            OrNull(r.partialReason), OrNull(r.reference), OrNull(r.notes))
  }

  function DayStart(t: int): int {
    t - t % DAY_MS
  }

  function DayEnd(t: int): int {
    DayStart(t) + DAY_MS - 1
  }

  /** The UTC day an instant falls on. */
  function Day(t: int): int {
    t / DAY_MS
  }

  predicate SameSlot(p: Payment, r: Record) {
    p.fleet == r.fleet && p.rider == r.rider && DayStart(r.paidAt) <= p.paidAt <= DayEnd(r.paidAt)
  }

  /** The day's row the query may return: any one there is, or none (one past the end) if there is none. */
  ghost predicate Finds(rows: seq<Payment>, r: Record, i: nat) {
    if i < |rows| then SameSlot(rows[i], r)
    else i == |rows| && forall j :: 0 <= j < |rows| ==> !SameSlot(rows[j], r)
  }

  /** The table after a call for which the query returned row `i`. */
  function Recorded(rows: seq<Payment>, r: Record, i: nat): seq<Payment> {
    if !Accepted(r) then rows
    else if i < |rows| then rows[i := Row(r)]
    else rows + [Row(r)]
  }

  // ----- lease view

  function Counted(p: Payment, rider: string): int {
    if p.rider == rider && CountsAsPaid(p.status) then p.amount else 0
  }

  function CountedRent(p: Payment, rider: string): int {
    if p.reference == Some(DEPOSIT) then 0 else Counted(p, rider)
  }

  function Sum(rows: seq<Payment>, f: Payment -> int): int {
    if |rows| == 0 then 0 else Sum(rows[..|rows| - 1], f) + f(rows[|rows| - 1])
  }

  function TotalPaid(rows: seq<Payment>, rider: string): int {
    Sum(rows, p => Counted(p, rider))
  }

  function RentPaid(rows: seq<Payment>, rider: string): int {
    Sum(rows, p => CountedRent(p, rider))
  }

  datatype Lease = Lease(dailyRate: int, assignedAt: Option<int>, maintenance: bool, pendingFines: int)

  function Expected(l: Lease, now: int): int
    requires l.assignedAt.Some?
  {
    if l.maintenance then 0 else Max(0, (now - l.assignedAt.value) / DAY_MS) * l.dailyRate
  }

  function RentArrears(rows: seq<Payment>, rider: string, l: Lease, now: int): int {
    if l.assignedAt.None? then 0 else Max(0, Expected(l, now) - RentPaid(rows, rider))
  }

  function Arrears(rows: seq<Payment>, rider: string, l: Lease, now: int): int {
    RentArrears(rows, rider, l, now) + l.pendingFines
  }

  // ----- delivery commissions

  predicate IsCommission(p: Payment, fleet: string) {
    p.fleet == fleet && p.notes.Some? && COMMISSION <= p.notes.value
  }

  predicate Payable(p: Payment, fleet: string, rider: string) {
    IsCommission(p, fleet) && p.rider == rider && p.status == Unpaid
  }

  function PaidOut(p: Payment, now: int): Payment {
    p.(status := Paid, channel := MobileMoney, paidAt := now)
  }

  function PayOut(rows: seq<Payment>, fleet: string, rider: string, now: int): (r: seq<Payment>)
    ensures |r| == |rows|
    ensures forall i :: 0 <= i < |rows| ==>
      r[i] == if Payable(rows[i], fleet, rider) then PaidOut(rows[i], now) else rows[i]
  {
    seq(|rows|, i requires 0 <= i < |rows| =>
      if Payable(rows[i], fleet, rider) then PaidOut(rows[i], now) else rows[i])
  }

  function PendingPart(fleet: string): Payment -> int {
    (p: Payment) => if IsCommission(p, fleet) && p.status == Unpaid then p.amount else 0
  }

  function PaidPart(fleet: string): Payment -> int {
    (p: Payment) => if IsCommission(p, fleet) && p.status == Paid then p.amount else 0
  }

  function CountPart(fleet: string): Payment -> int {
    (p: Payment) => if IsCommission(p, fleet) then 1 else 0
  }

  function OwedPart(fleet: string, rider: string): Payment -> int {
    (p: Payment) => if Payable(p, fleet, rider) then p.amount else 0
  }

  datatype CommissionSummary = CommissionSummary(pending: int, paid: int, count: int, average: real)

  function Commissions(rows: seq<Payment>, fleet: string): CommissionSummary {
    var pending, paid, count := Sum(rows, PendingPart(fleet)), Sum(rows, PaidPart(fleet)), Sum(rows, CountPart(fleet));
    CommissionSummary(pending, paid, count,
      if count > 0 then (pending + paid) as real / count as real else 0.0)
  }

  // ----- the service

  class FinancialsService {
    var rows: seq<Payment>

    constructor ()
      ensures rows == []
    {
      rows := [];
    }

    /** Records a payment; `found` is the row of that day the query returned, if any. */
    method RecordPayment(r: Record, found: Option<nat>) returns (ok: bool)
      requires Accepted(r) ==> Finds(rows, r, if found.Some? then found.value else |rows|) && found != Some(|rows|)
      modifies this
      ensures ok <==> Accepted(r)
      ensures rows == Recorded(old(rows), r, if found.Some? then found.value else |old(rows)|)
    {
      if !r.riderInFleet { return false; }
      if r.leaseToOwn && !r.hasBike { return false; }
      ok := true;
      var isPartial := if r.isPartial.Some? then r.isPartial.value else r.status == Partial;
      var payment := Payment(r.fleet, r.rider, r.amount, r.paidAt, r.channel, r.status, isPartial,
                             if r.partialReason == "" then None else Some(r.partialReason),
                             if r.reference == "" then None else Some(r.reference),
                             if r.notes == "" then None else Some(r.notes));
      if found.Some? {
        rows := rows[found.value := payment];
      } else {
        rows := rows + [payment];
      }
    }

    /** The ids of the rider's unpaid commissions and what they add up to. */
    method FindUnpaid(fleet: string, rider: string) returns (ids: set<nat>, total: int)
      ensures forall i: nat :: i in ids <==> i < |rows| && Payable(rows[i], fleet, rider)
      ensures total == Sum(rows, OwedPart(fleet, rider))
    {
      ids, total := {}, 0;
      var i := 0;
      while i < |rows|
        invariant i <= |rows|
        invariant forall j: nat :: j in ids <==> j < i && Payable(rows[j], fleet, rider)
        invariant total == Sum(rows[..i], OwedPart(fleet, rider))
      {
        assert rows[..i + 1][..i] == rows[..i];
        if Payable(rows[i], fleet, rider) {
          ids, total := ids + {i}, total + rows[i].amount;
        }
        i := i + 1;
      }
      assert rows[..i] == rows;
    }

    /** Fails when nothing is owed; otherwise one bulk update of the rows found. */
    method RecordDeliveryPayout(fleet: string, rider: string, now: int) returns (ok: bool, total: int)
      modifies this
      ensures ok <==> exists i :: 0 <= i < |old(rows)| && Payable(old(rows)[i], fleet, rider)
      ensures total == Sum(old(rows), OwedPart(fleet, rider))
      ensures rows == PayOut(old(rows), fleet, rider, now)
    {
      var ids: set<nat>;
      ids, total := FindUnpaid(fleet, rider);
      if ids == {} {
        assert forall i: nat :: i < |rows| ==> i !in ids;
        return false, total;
      }
      ghost var id: nat :| id in ids;
      rows := seq(|rows|, i requires 0 <= i < |rows| reads this => if i in ids then PaidOut(rows[i], now) else rows[i]);
      ok := true;
    }

    method DeliveryFinancialSummary(fleet: string) returns (s: CommissionSummary)
      ensures s == Commissions(rows, fleet)
    {
      var pending, paid, count := 0, 0, 0;
      var i := 0;
      while i < |rows|
        invariant i <= |rows|
        invariant pending == Sum(rows[..i], PendingPart(fleet)) && paid == Sum(rows[..i], PaidPart(fleet))
        invariant count == Sum(rows[..i], CountPart(fleet))
      {
        assert rows[..i + 1][..i] == rows[..i];
        var p := rows[i];
        if IsCommission(p, fleet) {
          if p.status == Unpaid {
            pending := pending + p.amount;
          } else if p.status == Paid {
            paid := paid + p.amount;
          }
          count := count + 1;
        }
        i := i + 1;
      }
      assert rows[..i] == rows;
      s := CommissionSummary(pending, paid, count, if count > 0 then (pending + paid) as real / count as real else 0.0);
    }
  }
}
