/**
 Sequence operations that stand in for the document-store queries of the
 route handlers: a `find(filter)` is `Filter`, a `countDocuments(filter)` is
 `Count`, a `findById` is `IndexOf`, a `sort({ createdAt: -1 })` is
 `SortDesc` and a `$group` by key is `Dedup`. A collection is modelled as
 the sequence of its documents in insertion order.
 */
module Seqs {
  import opened Results

  /** The documents of `xs` that `keep` selects, in their stored order. */
  function Filter<T(==)>(xs: seq<T>, keep: T -> bool): (r: seq<T>)
    ensures |r| <= |xs|
    ensures forall i :: 0 <= i < |r| ==> r[i] in xs && keep(r[i])
    ensures forall i :: 0 <= i < |xs| && keep(xs[i]) ==> xs[i] in r
  {
    if |xs| == 0 then []
    else (if keep(xs[0]) then [xs[0]] else []) + Filter(xs[1..], keep)
  }

  /** Filtering distributes over concatenation, so it keeps the stored order. */
  lemma {:induction false} FilterAppend<T>(a: seq<T>, b: seq<T>, keep: T -> bool)
    ensures Filter(a + b, keep) == Filter(a, keep) + Filter(b, keep)
  {
    if |a| == 0 {
      assert a + b == b;
    } else {
      assert (a + b)[1..] == a[1..] + b;
      FilterAppend(a[1..], b, keep);
    }
  }

  /** `at` rises strictly along `xs`. */
  ghost predicate Increasing<T>(xs: seq<T>, at: T -> int)
  {
    forall i, j :: 0 <= i < j < |xs| ==> at(xs[i]) < at(xs[j])
  }

  /** A filter keeps a strictly rising order, which also makes its result free of repeats. */
  lemma {:induction false} FilterIncreasing<T>(xs: seq<T>, keep: T -> bool, at: T -> int)
    requires Increasing(xs, at)
    ensures Increasing(Filter(xs, keep), at)
  {
    if |xs| > 0 {
      var tail := Filter(xs[1..], keep);
      FilterIncreasing(xs[1..], keep, at);
      forall i | 0 <= i < |tail|
        ensures at(xs[0]) < at(tail[i])
      {
        var k :| 0 <= k < |xs[1..]| && xs[1..][k] == tail[i];
        assert xs[1..][k] == xs[k + 1];
      }
      if keep(xs[0]) {
        SortedConsIncreasing(xs[0], tail, at);
      }
    }
  }

  lemma SortedConsIncreasing<T>(x: T, xs: seq<T>, at: T -> int)
    requires Increasing(xs, at)
    requires forall i :: 0 <= i < |xs| ==> at(x) < at(xs[i])
    ensures Increasing([x] + xs, at)
  {
    forall i, j | 0 <= i < j < |[x] + xs|
      ensures at(([x] + xs)[i]) < at(([x] + xs)[j])
    {
      assert ([x] + xs)[j] == xs[j - 1];
      if i > 0 {
        assert ([x] + xs)[i] == xs[i - 1];
      }
    }
  }

  /** An element survives a filter exactly when it was there and is selected. */
  lemma {:induction false} FilterMember<T>(xs: seq<T>, keep: T -> bool, x: T)
    ensures x in Filter(xs, keep) <==> x in xs && keep(x)
  {
    if |xs| > 0 {
      FilterMember(xs[1..], keep, x);
      assert xs == [xs[0]] + xs[1..];
    }
  }

  /** The number of documents a filter matches. */
  function Count<T(==)>(xs: seq<T>, keep: T -> bool): (n: nat)
    ensures n <= |xs|
  {
    |Filter(xs, keep)|
  }

  /** Two filters that never both hold count at most the whole collection. */
  lemma {:induction false} CountExclusive<T>(xs: seq<T>, p: T -> bool, q: T -> bool)
    requires forall i :: 0 <= i < |xs| ==> !(p(xs[i]) && q(xs[i]))
    ensures Count(xs, p) + Count(xs, q) <= |xs|
  {
    if |xs| > 0 {
      CountExclusive(xs[1..], p, q);
    }
  }

  /** A narrower filter never counts more documents than a wider one. */
  lemma {:induction false} CountMonotone<T>(xs: seq<T>, p: T -> bool, q: T -> bool)
    requires forall i :: 0 <= i < |xs| ==> p(xs[i]) ==> q(xs[i])
    ensures Count(xs, p) <= Count(xs, q)
  {
    if |xs| > 0 {
      CountMonotone(xs[1..], p, q);
    }
  }

  /** Two filters that agree on every document count the same. */
  lemma {:induction false} CountSame<T>(xs: seq<T>, p: T -> bool, q: T -> bool)
    requires forall i :: 0 <= i < |xs| ==> (p(xs[i]) <==> q(xs[i]))
    ensures Filter(xs, p) == Filter(xs, q)
  {
    if |xs| > 0 {
      CountSame(xs[1..], p, q);
    }
  }

  /** The position of the first document whose key is `id`, as a lookup by id. */
  function IndexOf<T>(xs: seq<T>, key: T -> nat, id: nat): (r: Option<nat>)
    ensures r.Some? ==> r.value < |xs| && key(xs[r.value]) == id
    ensures r.Some? ==> forall j :: 0 <= j < r.value ==> key(xs[j]) != id
    ensures r.None? <==> forall j :: 0 <= j < |xs| ==> key(xs[j]) != id
  {
    IndexFrom(xs, key, id, 0)
  }

  function IndexFrom<T>(xs: seq<T>, key: T -> nat, id: nat, from: nat): (r: Option<nat>)
    requires from <= |xs|
    requires forall j :: 0 <= j < from ==> key(xs[j]) != id
    ensures r.Some? ==> from <= r.value < |xs| && key(xs[r.value]) == id
    ensures r.Some? ==> forall j :: 0 <= j < r.value ==> key(xs[j]) != id
    ensures r.None? <==> forall j :: 0 <= j < |xs| ==> key(xs[j]) != id
    decreases |xs| - from
  {
    if from == |xs| then None
    else if key(xs[from]) == id then Some(from)
    else IndexFrom(xs, key, id, from + 1)
  }

  /** `xs` is ordered by `at`, largest first (newest first for timestamps). */
  ghost predicate SortedDesc<T>(xs: seq<T>, at: T -> int)
  {
    forall i, j :: 0 <= i < j < |xs| ==> at(xs[i]) >= at(xs[j])
  }

  /** Putting an element that ranks at least as high as all of a sorted sequence in front keeps it sorted. */
  lemma SortedCons<T>(x: T, xs: seq<T>, at: T -> int)
    requires SortedDesc(xs, at)
    requires forall i :: 0 <= i < |xs| ==> at(xs[i]) <= at(x)
    ensures SortedDesc([x] + xs, at)
  {
    forall i, j | 0 <= i < j < |[x] + xs|
      ensures at(([x] + xs)[i]) >= at(([x] + xs)[j])
    {
      assert ([x] + xs)[j] == xs[j - 1];
      if i > 0 {
        assert ([x] + xs)[i] == xs[i - 1];
      }
    }
  }

  function InsertDesc<T(==)>(x: T, xs: seq<T>, at: T -> int): (r: seq<T>)
    requires SortedDesc(xs, at)
    ensures SortedDesc(r, at)
    ensures multiset(r) == multiset(xs) + multiset{x}
  {
    if |xs| == 0 then [x]
    else if at(x) >= at(xs[0]) then [x] + xs
    else
      var rest := InsertDesc(x, xs[1..], at);
      assert xs == [xs[0]] + xs[1..];
      assert forall k :: 0 <= k < |rest| ==> at(rest[k]) <= at(xs[0]) by {
        forall k | 0 <= k < |rest|
          ensures at(rest[k]) <= at(xs[0])
        {
          assert rest[k] in multiset(rest);
          assert rest[k] == x || rest[k] in multiset(xs[1..]);
        }
      }
      [xs[0]] + rest
  }

  /** The sort of `.sort({ createdAt: -1 })`: a permutation ordered largest first. */
  function SortDesc<T(==)>(xs: seq<T>, at: T -> int): (r: seq<T>)
    ensures SortedDesc(r, at)
    ensures multiset(r) == multiset(xs)
    ensures |r| == |xs|
  {
    if |xs| == 0 then []
    else
      assert xs == [xs[0]] + xs[1..];
      InsertDesc(xs[0], SortDesc(xs[1..], at), at)
  }

  /**
   The first `n` elements in descending order of `at` (`sort(..).limit(n)`):
   nothing left out ranks above anything kept.
   */
  function TopN<T(==)>(xs: seq<T>, at: T -> int, n: nat): (r: seq<T>)
    ensures |r| == if n <= |xs| then n else |xs|
    ensures forall i :: 0 <= i < |r| ==> r[i] in xs
    ensures SortedDesc(r, at)
    ensures multiset(r) <= multiset(xs)
    ensures forall j :: 0 <= j < |xs| && xs[j] !in r ==> forall i :: 0 <= i < |r| ==> at(r[i]) >= at(xs[j])
  {
    var sorted := SortDesc(xs, at);
    var r := sorted[..if n <= |xs| then n else |xs|];
    PrefixPart(sorted, |r|);
    assert forall i :: 0 <= i < |r| ==> r[i] in xs by {
      forall i | 0 <= i < |r|
        ensures r[i] in xs
      {
        assert r[i] == sorted[i];
        assert sorted[i] in multiset(sorted);
      }
    }
    assert forall j :: 0 <= j < |xs| && xs[j] !in r ==> forall i :: 0 <= i < |r| ==> at(r[i]) >= at(xs[j]) by {
      forall j, i | 0 <= j < |xs| && xs[j] !in r && 0 <= i < |r|
        ensures at(r[i]) >= at(xs[j])
      {
        assert xs[j] in multiset(sorted);
        var m :| 0 <= m < |sorted| && sorted[m] == xs[j];
        assert m >= |r|;
        assert at(sorted[i]) >= at(sorted[m]);
      }
    }
    r
  }

  /** No element occurs twice. */
  ghost predicate Distinct<T>(xs: seq<T>)
  {
    forall i, j :: 0 <= i < j < |xs| ==> xs[i] != xs[j]
  }

  /** The distinct elements of `xs` in order of first occurrence: the group keys. */
  function Dedup<T(==)>(xs: seq<T>): (r: seq<T>)
    ensures Distinct(r)
    ensures forall i :: 0 <= i < |r| ==> r[i] in xs
    ensures forall i :: 0 <= i < |xs| ==> xs[i] in r
    ensures |r| <= |xs|
  {
    if |xs| == 0 then []
    else
      var r := Dedup(xs[..|xs| - 1]);
      assert xs == xs[..|xs| - 1] + [xs[|xs| - 1]];
      if xs[|xs| - 1] in r then r else r + [xs[|xs| - 1]]
  }

  /** A prefix holds no element more often than the whole sequence. */
  lemma PrefixPart<T>(xs: seq<T>, k: nat)
    requires k <= |xs|
    ensures multiset(xs[..k]) <= multiset(xs)
  {
    assert xs == xs[..k] + xs[k..];
  }

  /** In a sequence without repetitions every element occurs at most once. */
  lemma {:induction false} DistinctOccursOnce<T>(xs: seq<T>)
    requires Distinct(xs)
    ensures forall x :: multiset(xs)[x] <= 1
  {
    if |xs| > 0 {
      var rest := xs[1..];
      assert xs == [xs[0]] + rest;
      assert Distinct(rest) by {
        forall i, j | 0 <= i < j < |rest|
          ensures rest[i] != rest[j]
        {
          assert rest[i] == xs[i + 1] && rest[j] == xs[j + 1];
        }
      }
      DistinctOccursOnce(rest);
      forall k | 0 <= k < |rest|
        ensures rest[k] != xs[0]
      {
        assert rest[k] == xs[k + 1];
      }
    }
  }

  /** A sequence in which every element occurs at most once has no repetitions. */
  lemma OnceIsDistinct<T>(xs: seq<T>)
    requires forall x :: multiset(xs)[x] <= 1
    ensures Distinct(xs)
  {
    forall i, j | 0 <= i < j < |xs|
      ensures xs[i] != xs[j]
    {
      var front, back := xs[..j], xs[j..];
      assert xs == front + back;
      assert xs[i] == front[i] && xs[j] == back[0];
      assert multiset(xs)[xs[i]] == multiset(front)[xs[i]] + multiset(back)[xs[i]];
      assert multiset(front)[xs[i]] >= 1 && multiset(back)[xs[j]] >= 1;
    }
  }

  /** Taking part of a sequence without repetitions, as a sub-multiset, gives one without repetitions. */
  lemma DistinctPart<T>(xs: seq<T>, r: seq<T>)
    requires Distinct(xs) && multiset(r) <= multiset(xs)
    ensures Distinct(r)
  {
    DistinctOccursOnce(xs);
    OnceIsDistinct(r);
  }
}
