/** The payment table refines a last-write-wins map, arrears follow payments, payouts conserve. */
module PaymentTheorems {
  import opened Prelude
  import opened Payments

  // ----- the ledger as a map

  type Key = (string, string, int)

  function KeyOf(p: Payment): Key {
    (p.fleet, p.rider, Day(p.paidAt))
  }

  /** What happens to the table: a payment, for which the query returned row `found`, or a payout. */
  datatype Move =
    | Pay(record: Record, found: nat)
    | Payout(fleet: string, rider: string, now: int)

  function After(rows: seq<Payment>, m: Move): seq<Payment> {
    match m
    case Pay(r, found) => Recorded(rows, r, found)
    case Payout(fleet, rider, now) => PayOut(rows, fleet, rider, now)
  }

  /** The table after a list of moves, starting empty. */
  function Table(moves: seq<Move>): seq<Payment> {
    if |moves| == 0 then [] else After(Table(moves[..|moves| - 1]), moves[|moves| - 1])
  }

  ghost predicate Answers(rows: seq<Payment>, m: Move) {
    m.Pay? && Accepted(m.record) ==> Finds(rows, m.record, m.found)
  }

  /** Every query of the run returned a row it could return. */
  ghost predicate Possible(moves: seq<Move>) {
    forall i :: 0 <= i < |moves| ==> Answers(Table(moves[..i]), moves[i])
  }

  ghost predicate OnlyPayments(moves: seq<Move>) {
    forall i :: 0 <= i < |moves| ==> moves[i].Pay?
  }

  /** What the payments amount to: per fleet, rider and day, the last accepted one. */
  function Ledger(moves: seq<Move>): map<Key, Payment> {
    if |moves| == 0 then map[]
    else
      var m := Ledger(moves[..|moves| - 1]);
      match moves[|moves| - 1]
      case Pay(r, _) => if Accepted(r) then m[KeyOf(Row(r)) := Row(r)] else m
      case Payout(_, _, _) => m
  }

  ghost predicate OneRowPerDay(rows: seq<Payment>) {
    forall i, j :: 0 <= i < j < |rows| ==> KeyOf(rows[i]) != KeyOf(rows[j])
  }

  ghost predicate Listed(rows: seq<Payment>, m: map<Key, Payment>) {
    forall i :: 0 <= i < |rows| ==> KeyOf(rows[i]) in m && m[KeyOf(rows[i])] == rows[i]
  }

  ghost predicate HasKey(rows: seq<Payment>, k: Key) {
    exists i :: 0 <= i < |rows| && KeyOf(rows[i]) == k
  }

  ghost predicate Represents(rows: seq<Payment>, m: map<Key, Payment>) {
    OneRowPerDay(rows) && Listed(rows, m) && forall k :: k in m ==> HasKey(rows, k)
  }

  lemma SameSlotIsSameKey(p: Payment, r: Record)
    ensures SameSlot(p, r) <==> KeyOf(p) == KeyOf(Row(r))
  {
  }

  /** The row the query returns is the one of that key, and it returns none only if there is none. */
  lemma FoundByKey(rows: seq<Payment>, r: Record, i: nat)
    requires Finds(rows, r, i)
    ensures if i < |rows| then KeyOf(rows[i]) == KeyOf(Row(r)) else !HasKey(rows, KeyOf(Row(r)))
  {
    if i < |rows| {
      SameSlotIsSameKey(rows[i], r);
    } else {
      forall j | 0 <= j < |rows| ensures KeyOf(rows[j]) != KeyOf(Row(r)) { SameSlotIsSameKey(rows[j], r); }
    }
  }

  lemma ReplaceKeepsKeys(rows: seq<Payment>, i: nat, p: Payment, k: Key)
    requires i < |rows| && KeyOf(rows[i]) == KeyOf(p)
    ensures HasKey(rows[i := p], k) <==> HasKey(rows, k)
  {
    var t := rows[i := p];
    if HasKey(rows, k) {
      var j :| 0 <= j < |rows| && KeyOf(rows[j]) == k;
      assert KeyOf(t[j]) == k;
    }
    if HasKey(t, k) {
      var j :| 0 <= j < |t| && KeyOf(t[j]) == k;
      assert KeyOf(rows[j]) == k;
    }
  }

  lemma ReplaceRepresents(rows: seq<Payment>, m: map<Key, Payment>, i: nat, p: Payment)
    requires Represents(rows, m) && i < |rows| && KeyOf(rows[i]) == KeyOf(p)
    ensures Represents(rows[i := p], m[KeyOf(p) := p])
  {
    var t, n := rows[i := p], m[KeyOf(p) := p];
    assert OneRowPerDay(t);
    assert Listed(t, n);
    forall k | k in n ensures HasKey(t, k) {
      ReplaceKeepsKeys(rows, i, p, k);
      assert k in m;
    }
  }

  lemma AppendRepresents(rows: seq<Payment>, m: map<Key, Payment>, p: Payment)
    requires Represents(rows, m) && !HasKey(rows, KeyOf(p))
    ensures Represents(rows + [p], m[KeyOf(p) := p])
  {
    var t, n := rows + [p], m[KeyOf(p) := p];
    assert forall j :: 0 <= j < |rows| ==> t[j] == rows[j] && KeyOf(rows[j]) != KeyOf(p);
    forall k | k in n ensures HasKey(t, k) {
      if k == KeyOf(p) {
        assert KeyOf(t[|rows|]) == k;
      } else {
        var j :| 0 <= j < |rows| && KeyOf(rows[j]) == k;
        assert KeyOf(t[j]) == k;
      }
    }
  }

  lemma RecordedRepresents(rows: seq<Payment>, m: map<Key, Payment>, r: Record, i: nat)
    requires Represents(rows, m) && Accepted(r) && Finds(rows, r, i)
    ensures Represents(Recorded(rows, r, i), m[KeyOf(Row(r)) := Row(r)])
  {
    FoundByKey(rows, r, i);
    if i < |rows| {
      ReplaceRepresents(rows, m, i, Row(r));
    } else {
      AppendRepresents(rows, m, Row(r));
    }
  }

  lemma PossibleInit(moves: seq<Move>)
    requires |moves| > 0 && Possible(moves)
    ensures Possible(moves[..|moves| - 1]) && Answers(Table(moves[..|moves| - 1]), moves[|moves| - 1])
  {
    var init := moves[..|moves| - 1];
    forall i | 0 <= i < |init| ensures Answers(Table(init[..i]), init[i]) {
      assert init[..i] == moves[..i] && init[i] == moves[i];
    }
  }

  /** Any run of payments keeps at most one row per fleet, rider and UTC day, and the table is exactly
      the last-write-wins map of the accepted calls. */
  lemma {:induction false} LedgerRefinement(calls: seq<Move>)
    requires Possible(calls) && OnlyPayments(calls)
    ensures Represents(Table(calls), Ledger(calls))
  {
    if |calls| > 0 {
      var init, last := calls[..|calls| - 1], calls[|calls| - 1];
      PossibleInit(calls);
      LedgerRefinement(init);
      if Accepted(last.record) {
        RecordedRepresents(Table(init), Ledger(init), last.record, last.found);
      }
    }
  }

  // ----- payments and payouts together

  /** A payout that moves an unpaid commission onto a day that then holds a second row of the rider:
      another commission it moves, or a row already there. */
  ghost predicate Merges(rows: seq<Payment>, m: Move) {
    m.Payout? && exists i, j :: 0 <= i < |rows| && 0 <= j < |rows| && i != j && Collide(rows[i], rows[j], m)
  }

  predicate Collide(p: Payment, q: Payment, m: Move)
    requires m.Payout?
  {
    Payable(p, m.fleet, m.rider) && (Payable(q, m.fleet, m.rider) || KeyOf(q) == (m.fleet, m.rider, Day(m.now)))
  }

  lemma PaymentKeepsDays(rows: seq<Payment>, r: Record, i: nat)
    requires OneRowPerDay(rows) && (Accepted(r) ==> Finds(rows, r, i))
    ensures OneRowPerDay(Recorded(rows, r, i))
  {
    if Accepted(r) {
      FoundByKey(rows, r, i);
      if i >= |rows| {
        assert forall j :: 0 <= j < |rows| ==> KeyOf(rows[j]) != KeyOf(Row(r));
      }
    }
  }

  lemma PayoutKeepsDaysIff(rows: seq<Payment>, m: Move)
    requires OneRowPerDay(rows) && m.Payout?
    ensures OneRowPerDay(After(rows, m)) <==> !Merges(rows, m)
  {
    var t := After(rows, m);
    if Merges(rows, m) {
      var i, j :| 0 <= i < |rows| && 0 <= j < |rows| && i != j && Collide(rows[i], rows[j], m);
      assert KeyOf(t[i]) == KeyOf(t[j]);
    } else {
      forall i, j | 0 <= i < j < |t| ensures KeyOf(t[i]) != KeyOf(t[j]) {
        assert !Collide(rows[i], rows[j], m) && !Collide(rows[j], rows[i], m);
      }
    }
  }

  /** Runs of payments and payouts keep one row per fleet, rider and day at every point exactly when
      no payout of the run merges days. */
  lemma {:induction false} OneRowPerDayIff(moves: seq<Move>)
    requires Possible(moves)
    ensures (forall n :: 0 <= n <= |moves| ==> OneRowPerDay(Table(moves[..n])))
       <==> (forall n :: 0 <= n < |moves| ==> !Merges(Table(moves[..n]), moves[n]))
  {
    if forall n :: 0 <= n <= |moves| ==> OneRowPerDay(Table(moves[..n])) {
      forall n | 0 <= n < |moves| ensures !Merges(Table(moves[..n]), moves[n]) {
        assert moves[..n + 1][..n] == moves[..n];
        assert OneRowPerDay(Table(moves[..n])) && OneRowPerDay(Table(moves[..n + 1]));
        if moves[n].Payout? { PayoutKeepsDaysIff(Table(moves[..n]), moves[n]); }
      }
    }
    if forall n :: 0 <= n < |moves| ==> !Merges(Table(moves[..n]), moves[n]) {
      forall n | 0 <= n <= |moves| ensures OneRowPerDay(Table(moves[..n])) { UnmergedDays(moves, n); }
    }
  }

  lemma {:induction false} UnmergedDays(moves: seq<Move>, n: nat)
    requires Possible(moves) && n <= |moves| && forall k :: 0 <= k < n ==> !Merges(Table(moves[..k]), moves[k])
    ensures OneRowPerDay(Table(moves[..n]))
  {
    if n > 0 {
      var rows, m := Table(moves[..n - 1]), moves[n - 1];
      UnmergedDays(moves, n - 1);
      assert moves[..n][..n - 1] == moves[..n - 1];
      assert Answers(rows, m);
      if m.Pay? { PaymentKeepsDays(rows, m.record, m.found); } else { PayoutKeepsDaysIff(rows, m); }
    }
  }

  // ----- sums over the map

  ghost function MapSum(m: map<Key, Payment>, f: Payment -> int): int {
    if m == map[] then 0 else var k :| k in m; f(m[k]) + MapSum(m - {k}, f)
  }

  /** The order in which a map is summed does not matter. */
  lemma {:induction false} MapSumTakes(m: map<Key, Payment>, f: Payment -> int, k: Key)
    requires k in m
    ensures MapSum(m, f) == f(m[k]) + MapSum(m - {k}, f)
    decreases |m|
  {
    var c :| c in m && MapSum(m, f) == f(m[c]) + MapSum(m - {c}, f);
    if c != k {
      MapSumTakes(m - {c}, f, k);
      assert (m - {c}) - {k} == (m - {k}) - {c};
      MapSumTakes(m - {k}, f, c);
    }
  }

  lemma RepresentsInit(rows: seq<Payment>, m: map<Key, Payment>)
    requires Represents(rows, m) && |rows| > 0
    ensures Represents(rows[..|rows| - 1], m - {KeyOf(rows[|rows| - 1])})
  {
    var init, k := rows[..|rows| - 1], KeyOf(rows[|rows| - 1]);
    assert forall i :: 0 <= i < |init| ==> init[i] == rows[i];
    var n := m - {k};
    forall key | key in n ensures HasKey(init, key) {
      assert HasKey(rows, key);
      var i :| 0 <= i < |rows| && KeyOf(rows[i]) == key;
      assert init[i] == rows[i];
    }
  }

  lemma {:induction false} SumIsMapSum(rows: seq<Payment>, m: map<Key, Payment>, f: Payment -> int)
    requires Represents(rows, m)
    ensures Sum(rows, f) == MapSum(m, f)
  {
    if |rows| == 0 {
      assert m == map[];
    } else {
      var k := KeyOf(rows[|rows| - 1]);
      RepresentsInit(rows, m);
      SumIsMapSum(rows[..|rows| - 1], m - {k}, f);
      MapSumTakes(m, f, k);
    }
  }

  /** The lease view's totals are the map's totals. */
  lemma TotalsComeFromTheLedger(calls: seq<Move>, rider: string)
    requires Possible(calls) && OnlyPayments(calls)
    ensures TotalPaid(Table(calls), rider) == MapSum(Ledger(calls), p => Counted(p, rider))
    ensures RentPaid(Table(calls), rider) == MapSum(Ledger(calls), p => CountedRent(p, rider))
  {
    LedgerRefinement(calls);
    SumIsMapSum(Table(calls), Ledger(calls), p => Counted(p, rider));
    SumIsMapSum(Table(calls), Ledger(calls), p => CountedRent(p, rider));
  }

  // ----- arrears

  lemma {:induction false} SumUpdate(rows: seq<Payment>, i: nat, p: Payment, f: Payment -> int)
    requires i < |rows|
    ensures Sum(rows[i := p], f) == Sum(rows, f) - f(rows[i]) + f(p)
  {
    var last := |rows| - 1;
    if i == last {
      assert rows[i := p][..last] == rows[..last];
    } else {
      assert rows[i := p][..last] == rows[..last][i := p];
      SumUpdate(rows[..last], i, p, f);
    }
  }

  /** A call replaces the contribution of the row found to every total; a new row replaces nothing. */
  lemma RecordMovesSum(rows: seq<Payment>, r: Record, i: nat, f: Payment -> int)
    requires Accepted(r) && i <= |rows|
    ensures Sum(Recorded(rows, r, i), f) == Sum(rows, f) - (if i < |rows| then f(rows[i]) else 0) + f(Row(r))
  {
    if i < |rows| {
      SumUpdate(rows, i, Row(r), f);
    } else {
      assert (rows + [Row(r)])[..|rows|] == rows;
    }
  }

  /** A counted payment that is no deposit, on a fresh day, lowers the rent part of the arrears by
      exactly the smaller of the two, for every rider and lease; fines are untouched. */
  lemma PaymentLowersRent(rows: seq<Payment>, r: Record, l: Lease, now: int)
    requires Accepted(r) && Finds(rows, r, |rows|)
    requires (r.status == Paid || r.status == Partial) && r.reference != "UPFRONT-LEASE-DEPOSIT" && r.amount >= 0
    ensures var before, after := RentArrears(rows, r.rider, l, now), Recorded(rows, r, |rows|);
      && RentArrears(after, r.rider, l, now) == before - Min(r.amount, before)
      && Arrears(after, r.rider, l, now) == Arrears(rows, r.rider, l, now) - Min(r.amount, before)
  {
    RecordMovesSum(rows, r, |rows|, p => CountedRent(p, r.rider));
  }

  /** On any table, however its rows came about and whichever row of the day the query returns, a
      counted payment adds its amount to the rider's total exactly when the row it replaces, if
      there is one, counted for nothing. */
  lemma PaymentAddsIff(rows: seq<Payment>, r: Record, i: nat)
    requires Accepted(r) && CountsAsPaid(r.status) && Finds(rows, r, i)
    ensures TotalPaid(Recorded(rows, r, i), r.rider) == TotalPaid(rows, r.rider) + r.amount
       <==> (i < |rows| ==> Counted(rows[i], r.rider) == 0)
  {
    RecordMovesSum(rows, r, i, p => Counted(p, r.rider));
  }

  /** A payment that is not itself a commission keeps the number of commissions exactly when the row
      it replaces is none: otherwise it overwrites the commission. */
  lemma PaymentKeepsCommissionsIff(rows: seq<Payment>, r: Record, i: nat)
    requires Accepted(r) && !(COMMISSION <= r.notes) && Finds(rows, r, i)
    ensures Commissions(Recorded(rows, r, i), r.fleet).count == Commissions(rows, r.fleet).count
       <==> (i < |rows| ==> !IsCommission(rows[i], r.fleet))
  {
    RecordMovesSum(rows, r, i, CountPart(r.fleet));
  }

  /** A payment for one rider leaves every other rider's totals and arrears alone, on any day. */
  lemma {:induction false} OthersUnaffected(rows: seq<Payment>, r: Record, i: nat, other: string, l: Lease, now: int)
    requires other != r.rider && (Accepted(r) ==> Finds(rows, r, i))
    ensures TotalPaid(Recorded(rows, r, i), other) == TotalPaid(rows, other)
    ensures RentArrears(Recorded(rows, r, i), other, l, now) == RentArrears(rows, other, l, now)
  {
    if Accepted(r) {
      RecordMovesSum(rows, r, i, p => Counted(p, other));
      RecordMovesSum(rows, r, i, p => CountedRent(p, other));
    }
  }

  // ----- payouts

  lemma {:induction false} PayOutMoves(rows: seq<Payment>, fleet: string, rider: string, now: int)
    ensures var t := PayOut(rows, fleet, rider, now);
      && Sum(t, PendingPart(fleet)) == Sum(rows, PendingPart(fleet)) - Sum(rows, OwedPart(fleet, rider))
      && Sum(t, PaidPart(fleet)) == Sum(rows, PaidPart(fleet)) + Sum(rows, OwedPart(fleet, rider))
      && Sum(t, CountPart(fleet)) == Sum(rows, CountPart(fleet))
  {
    if |rows| > 0 {
      var init := rows[..|rows| - 1];
      PayOutMoves(init, fleet, rider, now);
      var t := PayOut(rows, fleet, rider, now);
      assert t[..|t| - 1] == PayOut(init, fleet, rider, now);
    }
  }

  /** A payout moves exactly what the rider is owed from pending to paid, keeps their sum, the count
      and the average, touches no other row, and leaves nothing for a second payout. */
  lemma PayoutConserves(rows: seq<Payment>, fleet: string, rider: string, now: int)
    ensures var t, owed := PayOut(rows, fleet, rider, now), Sum(rows, OwedPart(fleet, rider));
      var before, after := Commissions(rows, fleet), Commissions(t, fleet);
      && after.pending == before.pending - owed && after.paid == before.paid + owed
      && after.count == before.count && after.average == before.average
      && (forall i :: 0 <= i < |rows| && !Payable(rows[i], fleet, rider) ==> t[i] == rows[i])
      && (forall i :: 0 <= i < |rows| ==> t[i].rider == rows[i].rider && t[i].amount == rows[i].amount)
      && (forall i :: 0 <= i < |t| ==> !Payable(t[i], fleet, rider))
      && Sum(t, OwedPart(fleet, rider)) == 0
  {
    PayOutMoves(rows, fleet, rider, now);
    NothingOwed(PayOut(rows, fleet, rider, now), fleet, rider);
  }

  lemma {:induction false} NothingOwed(rows: seq<Payment>, fleet: string, rider: string)
    requires forall i :: 0 <= i < |rows| ==> !Payable(rows[i], fleet, rider)
    ensures Sum(rows, OwedPart(fleet, rider)) == 0
  {
    if |rows| > 0 {
      NothingOwed(rows[..|rows| - 1], fleet, rider);
    }
  }

  /** Another rider's commissions, pending or paid, are the same after the payout. */
  lemma {:induction false} PayoutLeavesOthers(rows: seq<Payment>, fleet: string, rider: string, now: int, other: string)
    requires other != rider
    ensures Sum(PayOut(rows, fleet, rider, now), OwedPart(fleet, other)) == Sum(rows, OwedPart(fleet, other))
  {
    if |rows| > 0 {
      var init := rows[..|rows| - 1];
      var t := PayOut(rows, fleet, rider, now);
      PayoutLeavesOthers(init, fleet, rider, now, other);
      assert t[..|t| - 1] == PayOut(init, fleet, rider, now);
    }
  }

  // ----- a payout in the lease view

  /** What the rider is owed that does not go under the deposit's reference. */
  function OwedRentPart(fleet: string, rider: string): Payment -> int {
    (p: Payment) => if Payable(p, fleet, rider) && p.reference != Some(DEPOSIT) then p.amount else 0
  }

  lemma {:induction false} PayOutCounts(rows: seq<Payment>, fleet: string, rider: string, now: int, who: string)
    ensures var t := PayOut(rows, fleet, rider, now);
      && TotalPaid(t, who) == TotalPaid(rows, who) + (if who == rider then Sum(rows, OwedPart(fleet, rider)) else 0)
      && RentPaid(t, who) == RentPaid(rows, who) + (if who == rider then Sum(rows, OwedRentPart(fleet, rider)) else 0)
  {
    if |rows| > 0 {
      var init := rows[..|rows| - 1];
      var t := PayOut(rows, fleet, rider, now);
      PayOutCounts(init, fleet, rider, now, who);
      assert t[..|t| - 1] == PayOut(init, fleet, rider, now);
    }
  }

  /** A paid-out commission counts as rent: the payout adds what was owed to the rider's total, and
      lowers the rent part of the arrears by what was owed outside the deposit, as far as it reaches;
      no other rider's total or arrears move. */
  lemma PayoutCountsAsRent(rows: seq<Payment>, fleet: string, rider: string, paidAt: int, l: Lease, now: int, other: string)
    requires other != rider && Sum(rows, OwedRentPart(fleet, rider)) >= 0
    ensures var t, before := PayOut(rows, fleet, rider, paidAt), RentArrears(rows, rider, l, now);
      && TotalPaid(t, rider) == TotalPaid(rows, rider) + Sum(rows, OwedPart(fleet, rider))
      && RentPaid(t, rider) == RentPaid(rows, rider) + Sum(rows, OwedRentPart(fleet, rider))
      && RentArrears(t, rider, l, now) == before - Min(Sum(rows, OwedRentPart(fleet, rider)), before)
      && TotalPaid(t, other) == TotalPaid(rows, other) && RentArrears(t, other, l, now) == RentArrears(rows, other, l, now)
  {
    PayOutCounts(rows, fleet, rider, paidAt, rider);
    PayOutCounts(rows, fleet, rider, paidAt, other);
  }

  // ----- runs that show where one row per day and commissions are lost

  /** A commission recorded at `t`, still unpaid. */
  function CommissionAt(fleet: string, rider: string, t: int): Record {
    Record(fleet, rider, 1, t, OtherChannel, Unpaid, None, "", "", COMMISSION, true, false, false)
  }

  function RentAt(fleet: string, rider: string, t: int): Record {
    Record(fleet, rider, 1, t, Cash, Paid, None, "", "", "", true, false, false)
  }

  lemma FirstMoves(a: Move, b: Move)
    requires Answers([], a) && Answers(After([], a), b)
    ensures Possible([a, b]) && Table([a, b]) == After(After([], a), b) && Table([a]) == After([], a)
  {
    var moves := [a, b];
    assert moves[..0] == [] && moves[..1] == [a] && [a][..0] == [];
    forall i | 0 <= i < |moves| ensures Answers(Table(moves[..i]), moves[i]) {
      if i == 0 {} else {}
    }
  }

  lemma OneMoreMove(moves: seq<Move>, m: Move)
    requires Possible(moves) && Answers(Table(moves), m)
    ensures Possible(moves + [m]) && Table(moves + [m]) == After(Table(moves), m)
  {
    var all := moves + [m];
    assert all[..|moves|] == moves;
    forall i | 0 <= i < |all| ensures Answers(Table(all[..i]), all[i]) {
      if i < |moves| { assert all[..i] == moves[..i]; }
    }
  }

  /** Two commissions on two days and a payout: for every rider a run ends with two rows on one day. */
  lemma PayoutMergesDays(fleet: string, rider: string) returns (moves: seq<Move>)
    ensures Possible(moves) && |moves| == 3 && |Table(moves)| == 2 && !OneRowPerDay(Table(moves))
  {
    var a, b := CommissionAt(fleet, rider, 0), CommissionAt(fleet, rider, DAY_MS);
    var payout := Payout(fleet, rider, 2 * DAY_MS);
    assert After([], Pay(a, 0)) == [Row(a)];
    assert After([Row(a)], Pay(b, 1)) == [Row(a), Row(b)];
    FirstMoves(Pay(a, 0), Pay(b, 1));
    OneMoreMove([Pay(a, 0), Pay(b, 1)], payout);
    moves := [Pay(a, 0), Pay(b, 1)] + [payout];
    var t := Table(moves);
    assert Payable(Row(a), fleet, rider) && Payable(Row(b), fleet, rider);
    assert KeyOf(t[0]) == KeyOf(t[1]);
  }

  lemma CommissionsOfOne(p: Payment, fleet: string)
    ensures Commissions([p], fleet).count == if IsCommission(p, fleet) then 1 else 0
  {
    assert [p][..0] == [];
    assert Sum([p], CountPart(fleet)) == CountPart(fleet)(p);
  }

  lemma KindsOfRows(fleet: string, rider: string, t: int)
    ensures IsCommission(Row(CommissionAt(fleet, rider, t)), fleet) && !IsCommission(Row(RentAt(fleet, rider, t)), fleet)
  {
    assert Row(CommissionAt(fleet, rider, t)).notes == Some(COMMISSION);
  }

  /** A commission and a rent payment on one day: for every rider a run ends without the commission. */
  lemma PaymentErasesCommission(fleet: string, rider: string) returns (moves: seq<Move>)
    ensures Possible(moves) && |moves| == 2 && |Table(moves)| == 1
    ensures Commissions(Table(moves[..1]), fleet).count == 1 && Commissions(Table(moves), fleet).count == 0
  {
    var a, b := Row(CommissionAt(fleet, rider, 0)), Row(RentAt(fleet, rider, 1));
    var one, two := Pay(CommissionAt(fleet, rider, 0), 0), Pay(RentAt(fleet, rider, 1), 0);
    moves := [one, two];
    assert After([], one) == [a] && After([a], two) == [b];
    FirstMoves(one, two);
    assert moves[..1] == [one];
    KindsOfRows(fleet, rider, 0);
    KindsOfRows(fleet, rider, 1);
    CommissionsOfOne(a, fleet);
    CommissionsOfOne(b, fleet);
  }
}
