/** What recording a payment and paying out do to the table, and what the lease and commission figures
    are, column by column and in so many words. */
module PaymentEffects {
  import opened Prelude
  import opened Payments

  // ----- recording

  /** A rider of the fleet who, on a lease, has a bike. */
  predicate MayPay(r: Record) {
    r.riderInFleet && (r.hasBike || !r.leaseToOwn)
  }

  /** The row holds exactly what the call says; empty texts are stored as none, and a payment whose call
      does not say so is partial exactly if its status is. */
  predicate Holds(p: Payment, r: Record) {
    && p.fleet == r.fleet && p.rider == r.rider && p.amount == r.amount && p.paidAt == r.paidAt
    && p.channel == r.channel && p.status == r.status
    && p.isPartial == (r.isPartial == Some(true) || (r.isPartial.None? && r.status == Partial))
    && p.partialReason == (if r.partialReason == "" then None else Some(r.partialReason))
    && p.reference == (if r.reference == "" then None else Some(r.reference))
    && p.notes == (if r.notes == "" then None else Some(r.notes))
  }

  /** The same fleet, rider and UTC day. */
  predicate SameDay(p: Payment, r: Record) {
    p.fleet == r.fleet && p.rider == r.rider && p.paidAt / 86_400_000 == r.paidAt / 86_400_000
  }

  /** A call that may not pay changes nothing. Otherwise it overwrites the row of the rider's day that the
      query returned, or adds one if there is none, with exactly what it says; every other row stays. */
  lemma RecordIsExact(rows: seq<Payment>, r: Record, i: nat)
    requires Finds(rows, r, i)
    ensures var t := Recorded(rows, r, i);
      if !MayPay(r) then t == rows
      else
        && i <= |rows| && i < |t| && Holds(t[i], r)
        && (i < |rows| ==> |t| == |rows| && SameDay(rows[i], r))
        && (i == |rows| ==> |t| == |rows| + 1 && forall j :: 0 <= j < |rows| ==> !SameDay(rows[j], r))
        && (forall j :: 0 <= j < |rows| && j != i ==> t[j] == rows[j])
  {
    forall j | 0 <= j < |rows| ensures SameSlot(rows[j], r) <==> SameDay(rows[j], r) {
      SlotIsDay(rows[j], r);
    }
  }

  lemma SlotIsDay(p: Payment, r: Record)
    ensures SameSlot(p, r) <==> SameDay(p, r)
  {
  }

  // ----- paying out

  /** An unpaid commission of the rider: its notes begin with the word for it. */
  predicate Due(p: Payment, fleet: string, rider: string) {
    p.fleet == fleet && p.rider == rider && p.status == Unpaid && p.notes.Some? && "Delivery Commission" <= p.notes.value
  }

  /** A payout makes exactly the rider's unpaid commissions PAID by mobile money, now, and changes nothing
      else about them or about any other row. */
  lemma PayOutIsExact(rows: seq<Payment>, fleet: string, rider: string, now: int, i: nat)
    requires i < |rows|
    ensures var t := PayOut(rows, fleet, rider, now);
      && |t| == |rows|
      && t[i] == if Due(rows[i], fleet, rider) then rows[i].(status := Paid, channel := MobileMoney, paidAt := now) else rows[i]
  {
  }

  // ----- commissions

  ghost function CommissionPart(fleet: string, status: Status): Payment -> int {
    (p: Payment) =>
      if p.fleet == fleet && p.notes.Some? && "Delivery Commission" <= p.notes.value && p.status == status then p.amount else 0
  }

  ghost function CommissionCount(fleet: string): Payment -> int {
    (p: Payment) => if p.fleet == fleet && p.notes.Some? && "Delivery Commission" <= p.notes.value then 1 else 0
  }

  lemma {:induction false} SameSums(rows: seq<Payment>, f: Payment -> int, g: Payment -> int)
    requires forall p :: f(p) == g(p)
    ensures Sum(rows, f) == Sum(rows, g)
  {
    if |rows| > 0 { SameSums(rows[..|rows| - 1], f, g); }
  }

  /** The commission summary: UNPAID amounts pending, PAID amounts paid, all of the fleet's commissions
      counted, and the average of the two sums over the count, zero if there is none. */
  lemma CommissionsAreExact(rows: seq<Payment>, fleet: string)
    ensures var c := Commissions(rows, fleet);
      && c.pending == Sum(rows, CommissionPart(fleet, Unpaid)) && c.paid == Sum(rows, CommissionPart(fleet, Paid))
      && c.count == Sum(rows, CommissionCount(fleet))
      && (c.count <= 0 ==> c.average == 0.0)
      && (c.count > 0 ==> c.average * c.count as real == (c.pending + c.paid) as real)
  {
    SameSums(rows, PendingPart(fleet), CommissionPart(fleet, Unpaid));
    SameSums(rows, PaidPart(fleet), CommissionPart(fleet, Paid));
    SameSums(rows, CountPart(fleet), CommissionCount(fleet));
  }

  // ----- the lease view

  ghost function PaidBy(rider: string): Payment -> int {
    (p: Payment) => if p.rider == rider && (p.status == Paid || p.status == Partial) then p.amount else 0
  }

  ghost function RentPaidBy(rider: string): Payment -> int {
    (p: Payment) =>
      if p.rider == rider && (p.status == Paid || p.status == Partial) && p.reference != Some("UPFRONT-LEASE-DEPOSIT")
      then p.amount else 0
  }

  /** The lease figures: what the rider paid, what of it is no deposit, and as arrears the daily rate of the
      whole days since the bike was assigned (none before it, none in maintenance) less the rent paid, never
      below zero and zero without a bike, plus the pending fines. */
  lemma LeaseIsExact(rows: seq<Payment>, rider: string, l: Lease, now: int, days: nat)
    requires l.assignedAt.Some? && l.assignedAt.value <= now ==>
      days * 86_400_000 <= now - l.assignedAt.value < (days + 1) * 86_400_000
    requires l.assignedAt.Some? && l.assignedAt.value > now ==> days == 0
    ensures TotalPaid(rows, rider) == Sum(rows, PaidBy(rider)) && RentPaid(rows, rider) == Sum(rows, RentPaidBy(rider))
    ensures l.assignedAt.None? ==> Arrears(rows, rider, l, now) == l.pendingFines
    ensures l.assignedAt.Some? && !l.maintenance ==>
      Arrears(rows, rider, l, now) == Max(0, days * l.dailyRate - Sum(rows, RentPaidBy(rider))) + l.pendingFines
    ensures l.assignedAt.Some? && l.maintenance ==>
      Arrears(rows, rider, l, now) == Max(0, 0 - Sum(rows, RentPaidBy(rider))) + l.pendingFines
  {
    SameSums(rows, p => Counted(p, rider), PaidBy(rider));
    SameSums(rows, p => CountedRent(p, rider), RentPaidBy(rider));
    if l.assignedAt.Some? { WholeDays(now - l.assignedAt.value, days); }
  }

  lemma WholeDays(ms: int, days: nat)
    requires ms >= 0 ==> days * 86_400_000 <= ms < (days + 1) * 86_400_000
    requires ms < 0 ==> days == 0
    ensures Max(0, ms / DAY_MS) == days
  {
  }
}
