/** Page parameters and page metadata, and what a client that walks the pages gets. */
module Pagination {
  import opened Prelude

  /** A query value after numeric conversion. */
  datatype Raw = Missing | NotFinite | Num(value: real)

  datatype Params = Params(page: int, pageSize: int, skip: int, take: int)

  function Normal(raw: Raw, default: int): int {
    match raw
    case Num(v) => if v > 0.0 then v.Floor else default
    case _ => default
  }

  function FirstPresent(a: Raw, b: Raw): Raw {
    if a.Missing? then b else a
  }

  function PaginationParams(page: Raw, pageSize: Raw, limit: Raw): Params {
    var p, size := Normal(page, 1), Normal(FirstPresent(pageSize, limit), 20);
    Params(p, size, (p - 1) * size, size)
  }

  /** The bare function's parameters are usable except for a value strictly between zero and one,
      which floors to zero; the validated query object lets no such value through. */
  lemma ParamsUsableIff(page: Raw, pageSize: Raw, limit: Raw)
    ensures var r, size := PaginationParams(page, pageSize, limit), FirstPresent(pageSize, limit);
      && (r.page >= 1 <==> !(page.Num? && 0.0 < page.value < 1.0))
      && (r.pageSize >= 1 <==> !(size.Num? && 0.0 < size.value < 1.0))
      && (r.page >= 1 && r.pageSize >= 1 ==> r.skip >= 0 && r.take >= 1)
      && (r.pageSize >= 1 && r.page < 1 ==> r.skip < 0)
  {
    var r := PaginationParams(page, pageSize, limit);
    assert r.page >= 1 && r.pageSize >= 1 ==> (r.page - 1) * r.pageSize >= 0;
  }

  function CeilDiv(n: nat, d: nat): nat
    requires d >= 1
  {
    (n + d - 1) / d
  }

  function TotalPages(total: nat, pageSize: nat): nat
    requires pageSize >= 1
  {
    Max(1, CeilDiv(total, pageSize))
  }

  /** What the database returns for `skip` and `take`. */
  function Slice<T>(xs: seq<T>, skip: nat, take: nat): seq<T> {
    xs[Min(skip, |xs|)..Min(skip + take, |xs|)]
  }

  /** Page number `page`, counted from one. */
  function Page<T>(xs: seq<T>, page: nat, pageSize: nat): seq<T>
    requires page >= 1
  {
    Slice(xs, (page - 1) * pageSize, pageSize)
  }

  function Pages<T>(xs: seq<T>, n: nat, pageSize: nat): seq<T> {
    if n == 0 then [] else Pages(xs, n - 1, pageSize) + Page(xs, n, pageSize)
  }

  lemma {:induction false} PagesArePrefix<T>(xs: seq<T>, n: nat, pageSize: nat)
    ensures Pages(xs, n, pageSize) == xs[..Min(n * pageSize, |xs|)]
  {
    if n > 0 {
      PagesArePrefix(xs, n - 1, pageSize);
      assert n * pageSize == (n - 1) * pageSize + pageSize;
    }
  }

  lemma CeilDivBounds(n: nat, d: nat)
    requires d >= 1
    ensures n <= CeilDiv(n, d) * d < n + d
  {
    var q := CeilDiv(n, d);
    assert n + d - 1 == q * d + (n + d - 1) % d;
  }

  lemma Scaled(a: nat, b: nat, d: nat)
    requires a <= b
    ensures a * d <= b * d
  {
  }

  /** The length of a page that starts at `lo`. */
  lemma SliceLength<T>(xs: seq<T>, lo: nat, size: nat)
    ensures |Slice(xs, lo, size)| == Min(lo + size, |xs|) - Min(lo, |xs|)
  {
  }

  lemma SliceCases<T>(xs: seq<T>, lo: nat, size: nat)
    ensures lo + size <= |xs| ==> |Slice(xs, lo, size)| == size
    ensures lo < |xs| <= lo + size ==> 0 < |Slice(xs, lo, size)| <= size
    ensures lo >= |xs| ==> Slice(xs, lo, size) == []
  {
    SliceLength(xs, lo, size);
  }

  /** Where a page starts and ends, against the last page `q` of a list of `n` items. */
  lemma PageBounds(n: nat, size: nat, page: nat)
    requires size >= 1 && page >= 1
    ensures var q, lo := CeilDiv(n, size), (page - 1) * size;
      && (page < q ==> lo + size <= n)
      && (page == q ==> lo < n <= lo + size)
      && (page > q ==> lo >= n)
  {
    var q, lo := CeilDiv(n, size), (page - 1) * size;
    CeilDivBounds(n, size);
    Predecessor(page, size);
    if page < q {
      Predecessor(q, size);
      Scaled(page, q - 1, size);
    } else if page > q {
      Scaled(q, page - 1, size);
    }
  }

  lemma PageLength<T>(xs: seq<T>, pageSize: nat, page: nat)
    requires pageSize >= 1 && page >= 1
    ensures var n := TotalPages(|xs|, pageSize);
      && (page < n ==> |Page(xs, page, pageSize)| == pageSize)
      && (page == n ==> |Page(xs, page, pageSize)| <= pageSize && (|xs| > 0 ==> |Page(xs, page, pageSize)| > 0))
      && (page > n ==> Page(xs, page, pageSize) == [])
  {
    SliceCases(xs, (page - 1) * pageSize, pageSize);
    PageBounds(|xs|, pageSize, page);
    NoPages(|xs|, pageSize);
  }

  lemma NoPages(n: nat, size: nat)
    requires size >= 1
    ensures CeilDiv(n, size) == 0 <==> n == 0
  {
    CeilDivBounds(n, size);
  }

  lemma Predecessor(a: nat, d: nat)
    requires a >= 1
    ensures (a - 1) * d == a * d - d
  {
  }

  /** Walking pages 1 to totalPages gives the list in order with nothing lost or repeated; every
      page but the last is full, the last is non-empty unless the list is, and later ones are empty. */
  lemma PagesPartition<T>(xs: seq<T>, pageSize: nat)
    requires pageSize >= 1
    ensures var n := TotalPages(|xs|, pageSize);
      && Pages(xs, n, pageSize) == xs
      && (forall page: nat :: 1 <= page < n ==> |Page(xs, page, pageSize)| == pageSize)
      && |Page(xs, n, pageSize)| <= pageSize && (|xs| > 0 ==> |Page(xs, n, pageSize)| > 0)
      && (forall page: nat :: page > n ==> Page(xs, page, pageSize) == [])
  {
    var n := TotalPages(|xs|, pageSize);
    CeilDivBounds(|xs|, pageSize);
    Scaled(CeilDiv(|xs|, pageSize), n, pageSize);
    PagesArePrefix(xs, n, pageSize);
    assert xs[..|xs|] == xs;
    forall page: nat | page >= 1
      ensures (page < n ==> |Page(xs, page, pageSize)| == pageSize)
           && (page == n ==> |Page(xs, page, pageSize)| <= pageSize && (|xs| > 0 ==> |Page(xs, page, pageSize)| > 0))
           && (page > n ==> Page(xs, page, pageSize) == [])
    {
      PageLength(xs, pageSize, page);
    }
  }

  // ----- parameters and pages together

  /** A finite positive value is rounded down; anything else gives the default: page 1, twenty a page. The
      page size is `pageSize`, and `limit` only where that is missing. */
  lemma ParamsAreExact(page: Raw, pageSize: Raw, limit: Raw)
    ensures var r, size := PaginationParams(page, pageSize, limit), if pageSize == Missing then limit else pageSize;
      && (page.Num? && page.value > 0.0 ==> r.page as real <= page.value < r.page as real + 1.0)
      && (!(page.Num? && page.value > 0.0) ==> r.page == 1)
      && (size.Num? && size.value > 0.0 ==> r.pageSize as real <= size.value < r.pageSize as real + 1.0)
      && (!(size.Num? && size.value > 0.0) ==> r.pageSize == 20)
      && r.take == r.pageSize
  {
  }

  lemma SliceItems<T>(xs: seq<T>, lo: nat, n: nat)
    ensures var items := Slice(xs, lo, n);
      |items| <= n && forall k :: 0 <= k < |items| ==> lo + k < |xs| && items[k] == xs[lo + k]
  {
  }

  lemma Product(a: nat, b: nat)
    ensures a * b >= 0
  {
  }

  /** What `skip` and `take` select from the database is the page asked for. */
  lemma SelectedIsPage<T>(xs: seq<T>, p: Params)
    requires p.page >= 1 && p.pageSize >= 1 && p.skip == (p.page - 1) * p.pageSize && p.take == p.pageSize
    ensures p.skip >= 0 && Slice(xs, p.skip, p.take) == Page(xs, p.page, p.pageSize)
  {
    Product(p.page - 1, p.pageSize);
  }

  /** So a query's `skip` and `take` select exactly its page, and item k of it is item `skip` + k of the list. */
  lemma ParamsSelectThePage<T>(xs: seq<T>, page: Raw, pageSize: Raw, limit: Raw)
    requires var r := PaginationParams(page, pageSize, limit); r.page >= 1 && r.pageSize >= 1
    ensures var r := PaginationParams(page, pageSize, limit);
      && r.skip >= 0 && Slice(xs, r.skip, r.take) == Page(xs, r.page, r.pageSize)
      && |Slice(xs, r.skip, r.take)| <= r.pageSize
      && forall k :: 0 <= k < |Slice(xs, r.skip, r.take)| ==>
           r.skip + k < |xs| && Slice(xs, r.skip, r.take)[k] == xs[r.skip + k]
  {
    var r := PaginationParams(page, pageSize, limit);
    SelectedIsPage(xs, r);
    SliceItems(xs, r.skip, r.take);
  }
}
