/**
 The page arithmetic shared by every listing endpoint
 (`GET /api/orders/my-orders`, `/wholesaler-orders`, `/api/admin/orders`,
 `/api/users`): skip `(page - 1) * limit` documents of the newest-first
 result, return at most `limit`, and report `ceil(total / limit)` pages.
 */
module Paging {
  import Seqs

  /** The number of documents in front of page `page`. */
  function Skip(page: int, limit: int): (n: nat)
    requires page >= 1 && limit >= 1
    ensures page == 1 ==> n == 0
    ensures n >= page - 1
  {
    assert (page - 1) * limit >= (page - 1) * 1;
    (page - 1) * limit
  }

  function Min(a: int, b: int): int
  {
    if a <= b then a else b
  }

  /** The documents of page `page`, `.skip((page - 1) * limit).limit(limit)`. */
  function Page<T>(xs: seq<T>, page: int, limit: int): (r: seq<T>)
    requires page >= 1 && limit >= 1
    ensures |r| <= limit
    ensures Skip(page, limit) >= |xs| ==> |r| == 0
    ensures Skip(page, limit) < |xs| ==> |r| == Min(limit, |xs| - Skip(page, limit))
    ensures forall i :: 0 <= i < |r| ==> Skip(page, limit) + i < |xs| && r[i] == xs[Skip(page, limit) + i]
  {
    var lo := Min(Skip(page, limit), |xs|);
    var hi := Min(lo + limit, |xs|);
    xs[lo..hi]
  }

  /** `Math.ceil(total / limit)`: the fewest pages of `limit` that hold `total`. */
  function TotalPages(total: nat, limit: int): (n: nat)
    requires limit >= 1
    ensures n * limit >= total
    ensures n == 0 || (n - 1) * limit < total
    ensures total == 0 <==> n == 0
  {
    if total % limit == 0 then total / limit else total / limit + 1
  }

  /** Every document lies on page `i / limit + 1`, at position `i % limit`, and that page is not past the last one. */
  lemma RecordOnItsPage<T>(xs: seq<T>, i: nat, limit: int)
    requires i < |xs| && limit >= 1
    ensures 1 <= i / limit + 1 <= TotalPages(|xs|, limit)
    ensures i % limit < |Page(xs, i / limit + 1, limit)|
    ensures Page(xs, i / limit + 1, limit)[i % limit] == xs[i]
  {
    var p := i / limit + 1;
    assert Skip(p, limit) == (i / limit) * limit;
    assert (i / limit) * limit + i % limit == i;
    var n := TotalPages(|xs|, limit);
    if n <= i / limit {
      MulMonotone(n, i / limit, limit);
      assert false;
    }
  }

  lemma MulMonotone(a: nat, b: nat, c: nat)
    requires a <= b
    ensures a * c <= b * c
  {
  }

  /** A page past the last one is empty. */
  lemma PageBeyondLastIsEmpty<T>(xs: seq<T>, page: int, limit: int)
    requires limit >= 1 && page > TotalPages(|xs|, limit) && page >= 1
    ensures Page(xs, page, limit) == []
  {
    var n := TotalPages(|xs|, limit);
    MulMonotone(n, page - 1, limit);
  }

  /** The last page holds the remainder: `total % limit` documents, or a full page when that is 0. */
  lemma LastPageHoldsRemainder<T>(xs: seq<T>, limit: int)
    requires limit >= 1 && |xs| > 0
    ensures |Page(xs, TotalPages(|xs|, limit), limit)| == if |xs| % limit == 0 then limit else |xs| % limit
  {
    var n := TotalPages(|xs|, limit);
    var q := |xs| / limit;
    assert q * limit + |xs| % limit == |xs|;
    if |xs| % limit == 0 {
      assert n == q;
      assert Skip(n, limit) == (q - 1) * limit == q * limit - limit;
    } else {
      assert n == q + 1;
      assert Skip(n, limit) == q * limit;
    }
  }

  /** One page of a listing with the pagination block of the response. */
  datatype Listing<T> = Listing(items: seq<T>, currentPage: int, totalPages: nat, total: nat)

  /** A page of the sorted documents is itself sorted and holds only documents of the original sequence. */
  lemma SortedPageDrawsFrom<T>(xs: seq<T>, at: T -> int, page: int, limit: int)
    requires page >= 1 && limit >= 1
    ensures var items := Page(Seqs.SortDesc(xs, at), page, limit);
            && Seqs.SortedDesc(items, at)
            && forall i :: 0 <= i < |items| ==> items[i] in xs
  {
    var sorted := Seqs.SortDesc(xs, at);
    var items := Page(sorted, page, limit);
    forall i | 0 <= i < |items|
      ensures items[i] in xs
    {
      assert items[i] == sorted[Skip(page, limit) + i];
      assert items[i] in multiset(sorted);
    }
  }

  /** A page of the sorted matching documents holds only stored documents the filter selects. */
  lemma MatchingPage<T>(store: seq<T>, keep: T -> bool, at: T -> int, page: int, limit: int)
    requires page >= 1 && limit >= 1
    ensures var items := Page(Seqs.SortDesc(Seqs.Filter(store, keep), at), page, limit);
            && Seqs.SortedDesc(items, at)
            && forall i :: 0 <= i < |items| ==> items[i] in store && keep(items[i])
  {
    var matching := Seqs.Filter(store, keep);
    var items := Page(Seqs.SortDesc(matching, at), page, limit);
    SortedPageDrawsFrom(matching, at, page, limit);
    forall i | 0 <= i < |items|
      ensures items[i] in store && keep(items[i])
    {
      var k :| 0 <= k < |matching| && matching[k] == items[i];
    }
  }

  /**
   The listing pattern `find(filter).sort({ createdAt: -1 }).skip(..).limit(..)`
   together with `countDocuments(filter)`.
   */
  function NewestFirstPage<T(==)>(store: seq<T>, keep: T -> bool, at: T -> int, page: int, limit: int): (r: Listing<T>)
    requires page >= 1 && limit >= 1
    ensures r.total == Seqs.Count(store, keep)
    ensures r.totalPages == TotalPages(r.total, limit)
    ensures r.currentPage == page
    ensures |r.items| <= limit
    ensures forall i :: 0 <= i < |r.items| ==> r.items[i] in store && keep(r.items[i])
    ensures Seqs.SortedDesc(r.items, at)
    ensures r.items == Page(Seqs.SortDesc(Seqs.Filter(store, keep), at), page, limit)
  {
    var matching := Seqs.Filter(store, keep);
    var sorted := Seqs.SortDesc(matching, at);
    var items := Page(sorted, page, limit);
    MatchingPage(store, keep, at, page, limit);
    var total := Seqs.Count(store, keep);
    Listing(items, page, TotalPages(total, limit), total)
  }
}
