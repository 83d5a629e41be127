/** The fleet's financial summary: breakdowns by method, status and day of the payments in range. */
module Summaries {
  import opened Payments

  datatype Bucket<K> = Bucket(key: K, amount: int)

  /** Rows the summary loads: PAID and PARTIAL ones of the fleet. */
  function Loaded(rows: seq<Payment>, fleet: string): seq<Payment> {
    if |rows| == 0 then []
    else
      var front, p := Loaded(rows[..|rows| - 1], fleet), rows[|rows| - 1];
      if p.fleet == fleet && CountsAsPaid(p.status) then front + [p] else front
  }

  function InRange(ps: seq<Payment>, start: int, end: int): seq<Payment> {
    if |ps| == 0 then []
    else
      var front, p := InRange(ps[..|ps| - 1], start, end), ps[|ps| - 1];
      if start <= p.paidAt <= end then front + [p] else front
  }

  function Amount(p: Payment): int { p.amount }

  function Earned(ps: seq<Payment>): int {
    Sum(ps, Amount)
  }

  // ----- grouping: an insertion-ordered record of running sums

  function AddTo<K(==)>(bs: seq<Bucket<K>>, key: K, amount: int): seq<Bucket<K>> {
    if |bs| == 0 then [Bucket(key, amount)]
    else if bs[0].key == key then [Bucket(key, bs[0].amount + amount)] + bs[1..]
    else [bs[0]] + AddTo(bs[1..], key, amount)
  }

  function GroupBy<K(==)>(ps: seq<Payment>, key: Payment -> K): seq<Bucket<K>> {
    if |ps| == 0 then []
    else AddTo(GroupBy(ps[..|ps| - 1], key), key(ps[|ps| - 1]), ps[|ps| - 1].amount)
  }

  function Total<K>(bs: seq<Bucket<K>>): int {
    if |bs| == 0 then 0 else bs[0].amount + Total(bs[1..])
  }

  predicate DistinctKeys<K(==)>(bs: seq<Bucket<K>>) {
    forall i, j :: 0 <= i < j < |bs| ==> bs[i].key != bs[j].key
  }

  /** Earned by the payments of one group. */
  function Share<K(==)>(ps: seq<Payment>, key: Payment -> K, k: K): int {
    Sum(ps, p => if key(p) == k then p.amount else 0)
  }

  lemma {:induction false} AddToTotals<K>(bs: seq<Bucket<K>>, key: K, amount: int)
    ensures Total(AddTo(bs, key, amount)) == Total(bs) + amount
  {
    if |bs| > 0 {
      assert AddTo(bs, key, amount)[1..] == if bs[0].key == key then bs[1..] else AddTo(bs[1..], key, amount);
      if bs[0].key != key { AddToTotals(bs[1..], key, amount); }
    }
  }

  /** Value of a key's bucket, zero if it has none. */
  function ValueOf<K(==)>(bs: seq<Bucket<K>>, key: K): int {
    if |bs| == 0 then 0 else if bs[0].key == key then bs[0].amount else ValueOf(bs[1..], key)
  }

  lemma {:induction false} AddToValues<K>(bs: seq<Bucket<K>>, key: K, amount: int, other: K)
    requires DistinctKeys(bs)
    ensures var t := AddTo(bs, key, amount);
      && ValueOf(t, other) == ValueOf(bs, other) + (if other == key then amount else 0)
      && DistinctKeys(t)
      && (forall b :: b in t ==> b.key == key || b in bs)
  {
    if |bs| > 0 {
      var rest := AddTo(bs[1..], key, amount);
      if bs[0].key == key {
        assert AddTo(bs, key, amount)[1..] == bs[1..];
      } else {
        AddToValues(bs[1..], key, amount, other);
        assert AddTo(bs, key, amount)[1..] == rest;
        forall i | 0 <= i < |rest| ensures rest[i].key != bs[0].key {
          assert rest[i] in rest;
          if rest[i] in bs[1..] {
            var j :| 0 <= j < |bs[1..]| && bs[1..][j] == rest[i];
            assert bs[j + 1] == rest[i];
          }
        }
      }
    }
  }

  lemma {:induction false} ValueAt<K>(bs: seq<Bucket<K>>, i: nat)
    requires DistinctKeys(bs) && i < |bs|
    ensures ValueOf(bs, bs[i].key) == bs[i].amount
  {
    if i > 0 { ValueAt(bs[1..], i - 1); }
  }

  /** A breakdown has one bucket per group, each holding what the group earned, and together they
      hold everything earned. */
  lemma {:induction false} GroupByConserves<K>(ps: seq<Payment>, key: Payment -> K, k: K)
    ensures Total(GroupBy(ps, key)) == Earned(ps)
    ensures DistinctKeys(GroupBy(ps, key))
    ensures ValueOf(GroupBy(ps, key), k) == Share(ps, key, k)
  {
    if |ps| > 0 {
      var init, p := ps[..|ps| - 1], ps[|ps| - 1];
      GroupByConserves(init, key, k);
      AddToTotals(GroupBy(init, key), key(p), p.amount);
      AddToValues(GroupBy(init, key), key(p), p.amount, k);
    }
  }

  // ----- sorting the days

  function InsertByKey(bs: seq<Bucket<int>>, b: Bucket<int>): seq<Bucket<int>> {
    if |bs| == 0 then [b]
    else if b.key < bs[0].key then [b] + bs
    else [bs[0]] + InsertByKey(bs[1..], b)
  }

  function SortByKey(bs: seq<Bucket<int>>): seq<Bucket<int>> {
    if |bs| == 0 then [] else InsertByKey(SortByKey(bs[..|bs| - 1]), bs[|bs| - 1])
  }

  predicate Increasing(bs: seq<Bucket<int>>) {
    forall i, j :: 0 <= i < j < |bs| ==> bs[i].key < bs[j].key
  }

  lemma {:induction false} InsertKeeps(bs: seq<Bucket<int>>, b: Bucket<int>)
    ensures multiset(InsertByKey(bs, b)) == multiset(bs) + multiset{b}
    ensures Total(InsertByKey(bs, b)) == Total(bs) + b.amount
  {
    var t := InsertByKey(bs, b);
    if |bs| == 0 {
    } else if b.key < bs[0].key {
      assert t[1..] == bs;
    } else {
      InsertKeeps(bs[1..], b);
      assert t[1..] == InsertByKey(bs[1..], b);
      assert bs == [bs[0]] + bs[1..];
    }
  }

  lemma {:induction false} InsertIncreasing(bs: seq<Bucket<int>>, b: Bucket<int>)
    requires Increasing(bs) && forall i :: 0 <= i < |bs| ==> bs[i].key != b.key
    ensures Increasing(InsertByKey(bs, b))
    ensures forall c :: c in InsertByKey(bs, b) ==> c == b || c in bs
  {
    if |bs| > 0 && bs[0].key < b.key {
      var rest := InsertByKey(bs[1..], b);
      InsertIncreasing(bs[1..], b);
      forall i | 0 <= i < |rest| ensures bs[0].key < rest[i].key {
        assert rest[i] in rest;
      }
    }
  }

  lemma {:induction false} TotalInit(bs: seq<Bucket<int>>)
    requires |bs| > 0
    ensures Total(bs) == Total(bs[..|bs| - 1]) + bs[|bs| - 1].amount
  {
    if |bs| > 1 {
      TotalInit(bs[1..]);
      assert bs[1..][..|bs| - 2] == bs[..|bs| - 1][1..];
    }
  }

  lemma {:induction false} SortKeeps(bs: seq<Bucket<int>>)
    ensures multiset(SortByKey(bs)) == multiset(bs)
    ensures Total(SortByKey(bs)) == Total(bs)
  {
    if |bs| > 0 {
      var init, b := bs[..|bs| - 1], bs[|bs| - 1];
      SortKeeps(init);
      InsertKeeps(SortByKey(init), b);
      TotalInit(bs);
      assert bs == init + [b];
    }
  }

  lemma {:induction false} SortIncreasing(bs: seq<Bucket<int>>)
    requires DistinctKeys(bs)
    ensures Increasing(SortByKey(bs))
    ensures forall c :: c in SortByKey(bs) ==> c in bs
  {
    if |bs| > 0 {
      var init, b := bs[..|bs| - 1], bs[|bs| - 1];
      SortIncreasing(init);
      var sorted := SortByKey(init);
      forall i | 0 <= i < |sorted| ensures sorted[i].key != b.key {
        assert sorted[i] in init;
      }
      InsertIncreasing(sorted, b);
    }
  }

  // ----- the summary

  datatype Summary = Summary(
    earnedAllTime: int, earnedRange: int, unpaidSum: int, arrears: int, overdueCount: int, unpaidCount: int,
    byMethod: seq<Bucket<Channel>>, byStatus: seq<Bucket<Status>>, daily: seq<Bucket<int>>)

  function UnpaidAmount(p: Payment): int {
    if p.status == Unpaid || p.status == Overdue then p.amount else 0
  }

  function HasStatus(s: Status): Payment -> int {
    (p: Payment) => if p.status == s then 1 else 0
  }

  function ChannelOf(p: Payment): Channel { p.channel }
  function StatusOf(p: Payment): Status { p.status }
  function DayOf(p: Payment): int { Day(p.paidAt) }

  function Summarise(rows: seq<Payment>, fleet: string, start: int, end: int, arrears: int): Summary {
    var all := Loaded(rows, fleet);
    var range := InRange(all, start, end);
    var raw := Sum(all, UnpaidAmount);
    Summary(Earned(all), Earned(range), if raw > 0 then raw else arrears, arrears,
            Sum(all, HasStatus(Overdue)), Sum(all, HasStatus(Unpaid)),
            GroupBy(range, ChannelOf), GroupBy(range, StatusOf), SortByKey(GroupBy(range, DayOf)))
  }

  lemma {:induction false} LoadedAreCounted(rows: seq<Payment>, fleet: string)
    ensures forall p :: p in Loaded(rows, fleet) ==> CountsAsPaid(p.status) && p.fleet == fleet
    ensures Sum(Loaded(rows, fleet), UnpaidAmount) == 0
    ensures Sum(Loaded(rows, fleet), HasStatus(Overdue)) == 0 && Sum(Loaded(rows, fleet), HasStatus(Unpaid)) == 0
  {
    if |rows| > 0 {
      LoadedAreCounted(rows[..|rows| - 1], fleet);
      var front, p := Loaded(rows[..|rows| - 1], fleet), rows[|rows| - 1];
      assert (front + [p])[..|front|] == front;
    }
  }

  /** For every table and range each breakdown sums to what was earned in the range, days are
      strictly increasing, and the outstanding figure is always the lease arrears while the overdue
      and unpaid counts are always zero, because unpaid rows are never loaded. */
  lemma SummaryConserves(rows: seq<Payment>, fleet: string, start: int, end: int, arrears: int)
    ensures var s := Summarise(rows, fleet, start, end, arrears);
      && Total(s.byMethod) == s.earnedRange && Total(s.byStatus) == s.earnedRange && Total(s.daily) == s.earnedRange
      && DistinctKeys(s.byMethod) && DistinctKeys(s.byStatus) && Increasing(s.daily)
      && s.unpaidSum == s.arrears && s.overdueCount == 0 && s.unpaidCount == 0
  {
    var range := InRange(Loaded(rows, fleet), start, end);
    GroupByConserves(range, ChannelOf, Cash);
    GroupByConserves(range, StatusOf, Paid);
    GroupByConserves(range, DayOf, 0);
    SortKeeps(GroupBy(range, DayOf));
    SortIncreasing(GroupBy(range, DayOf));
    LoadedAreCounted(rows, fleet);
  }

  /** Each bucket of the daily list holds exactly what its day earned. */
  lemma DailyBucketsAreExact(rows: seq<Payment>, fleet: string, start: int, end: int, arrears: int, i: nat)
    requires i < |Summarise(rows, fleet, start, end, arrears).daily|
    ensures var b := Summarise(rows, fleet, start, end, arrears).daily[i];
      b.amount == Share(InRange(Loaded(rows, fleet), start, end), DayOf, b.key)
  {
    var range := InRange(Loaded(rows, fleet), start, end);
    var groups := GroupBy(range, DayOf);
    var b := SortByKey(groups)[i];
    SortKeeps(groups);
    assert b in multiset(SortByKey(groups));
    var j :| 0 <= j < |groups| && groups[j] == b;
    GroupByConserves(range, DayOf, b.key);
    ValueAt(groups, j);
  }

  // ----- the figures against the whole table

  /** A row's contribution: of the fleet, counted, paid in the range, and of the wanted group. */
  ghost function Earning(fleet: string, lo: int, hi: int, wanted: Payment -> bool): Payment -> int {
    (p: Payment) =>
      if p.fleet == fleet && (p.status == Paid || p.status == Partial) && lo <= p.paidAt <= hi && wanted(p) then p.amount else 0
  }

  ghost function EarningEver(fleet: string): Payment -> int {
    (p: Payment) => if p.fleet == fleet && (p.status == Paid || p.status == Partial) then p.amount else 0
  }

  lemma SumAppend(ps: seq<Payment>, p: Payment, f: Payment -> int)
    ensures Sum(ps + [p], f) == Sum(ps, f) + f(p)
  {
    assert (ps + [p])[..|ps|] == ps;
  }

  ghost function Part(wanted: Payment -> bool): Payment -> int {
    (p: Payment) => if wanted(p) then p.amount else 0
  }

  ghost function InRangePart(lo: int, hi: int, wanted: Payment -> bool): Payment -> int {
    (p: Payment) => if lo <= p.paidAt <= hi && wanted(p) then p.amount else 0
  }

  lemma {:induction false} RangeSum(ps: seq<Payment>, lo: int, hi: int, wanted: Payment -> bool)
    ensures Sum(InRange(ps, lo, hi), Part(wanted)) == Sum(ps, InRangePart(lo, hi, wanted))
  {
    if |ps| > 0 {
      var init, p := ps[..|ps| - 1], ps[|ps| - 1];
      RangeSum(init, lo, hi, wanted);
      SumAppend(InRange(init, lo, hi), p, Part(wanted));
    }
  }

  lemma {:induction false} LoadedSum(rows: seq<Payment>, fleet: string, f: Payment -> int, g: Payment -> int)
    requires forall p :: g(p) == if p.fleet == fleet && (p.status == Paid || p.status == Partial) then f(p) else 0
    ensures Sum(Loaded(rows, fleet), f) == Sum(rows, g)
  {
    if |rows| > 0 {
      var init, p := rows[..|rows| - 1], rows[|rows| - 1];
      LoadedSum(init, fleet, f, g);
      SumAppend(Loaded(init, fleet), p, f);
    }
  }

  lemma LoadedEarn(rows: seq<Payment>, fleet: string, lo: int, hi: int, wanted: Payment -> bool)
    ensures Sum(InRange(Loaded(rows, fleet), lo, hi), Part(wanted)) == Sum(rows, Earning(fleet, lo, hi, wanted))
    ensures Earned(Loaded(rows, fleet)) == Sum(rows, EarningEver(fleet))
  {
    RangeSum(Loaded(rows, fleet), lo, hi, wanted);
    LoadedSum(rows, fleet, InRangePart(lo, hi, wanted), Earning(fleet, lo, hi, wanted));
    LoadedSum(rows, fleet, Amount, EarningEver(fleet));
  }

  lemma {:induction false} SumCongruent(ps: seq<Payment>, f: Payment -> int, g: Payment -> int)
    requires forall p :: f(p) == g(p)
    ensures Sum(ps, f) == Sum(ps, g)
  {
    if |ps| > 0 { SumCongruent(ps[..|ps| - 1], f, g); }
  }

  /** A breakdown's bucket is what the whole table earned of that kind. */
  lemma BucketIsTableShare<K>(rows: seq<Payment>, fleet: string, lo: int, hi: int, key: Payment -> K, k: K, wanted: Payment -> bool)
    requires forall p :: wanted(p) <==> key(p) == k
    ensures ValueOf(GroupBy(InRange(Loaded(rows, fleet), lo, hi), key), k) == Sum(rows, Earning(fleet, lo, hi, wanted))
  {
    var range := InRange(Loaded(rows, fleet), lo, hi);
    GroupByConserves(range, key, k);
    LoadedEarn(rows, fleet, lo, hi, wanted);
    SumCongruent(range, p => if key(p) == k then p.amount else 0, Part(wanted));
  }

  /** Sorting moves no value. */
  lemma SortedValue(bs: seq<Bucket<int>>, k: int)
    requires DistinctKeys(bs)
    ensures ValueOf(SortByKey(bs), k) == ValueOf(bs, k)
  {
    var t := SortByKey(bs);
    SortKeeps(bs);
    SortIncreasing(bs);
    if i :| 0 <= i < |bs| && bs[i].key == k {
      ValueAt(bs, i);
      assert bs[i] in multiset(t);
      var j :| 0 <= j < |t| && t[j] == bs[i];
      ValueAt(t, j);
    } else {
      forall j | 0 <= j < |t| ensures t[j].key != k { assert t[j] in bs; }
      NoValue(bs, k);
      NoValue(t, k);
    }
  }

  lemma {:induction false} NoValue<K>(bs: seq<Bucket<K>>, k: K)
    requires forall i :: 0 <= i < |bs| ==> bs[i].key != k
    ensures ValueOf(bs, k) == 0
  {
    if |bs| > 0 { NoValue(bs[1..], k); }
  }

  ghost function Anything(): Payment -> bool {
    (p: Payment) => true
  }

  ghost function ByChannel(channel: Channel): Payment -> bool {
    (p: Payment) => p.channel == channel
  }

  ghost function ByStatus(status: Status): Payment -> bool {
    (p: Payment) => p.status == status
  }

  /** Paid on the UTC day of this number since 1970. */
  ghost function OnDay(day: int): Payment -> bool {
    (p: Payment) => day * 86_400_000 <= p.paidAt < (day + 1) * 86_400_000
  }

  /** Every figure of the summary is a sum over the whole table of PAID and PARTIAL rows of the fleet: ever,
      in the range, and in the range by method, by status and by UTC day. */
  lemma FiguresAreTableSums(rows: seq<Payment>, fleet: string, start: int, end: int, arrears: int,
                            channel: Channel, status: Status, day: int)
    ensures var s := Summarise(rows, fleet, start, end, arrears);
      && s.earnedAllTime == Sum(rows, EarningEver(fleet))
      && s.earnedRange == Sum(rows, Earning(fleet, start, end, Anything()))
      && ValueOf(s.byMethod, channel) == Sum(rows, Earning(fleet, start, end, ByChannel(channel)))
      && ValueOf(s.byStatus, status) == Sum(rows, Earning(fleet, start, end, ByStatus(status)))
      && ValueOf(s.daily, day) == Sum(rows, Earning(fleet, start, end, OnDay(day)))
      && s.arrears == arrears
  {
    var range := InRange(Loaded(rows, fleet), start, end);
    LoadedEarn(rows, fleet, start, end, Anything());
    SumCongruent(range, Amount, Part(Anything()));
    BucketIsTableShare(rows, fleet, start, end, ChannelOf, channel, ByChannel(channel));
    BucketIsTableShare(rows, fleet, start, end, StatusOf, status, ByStatus(status));
    BucketIsTableShare(rows, fleet, start, end, DayOf, day, OnDay(day));
    GroupByConserves(range, DayOf, day);
    SortedValue(GroupBy(range, DayOf), day);
  }
}
