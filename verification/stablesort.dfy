/** The ordering both stages use: JavaScript's stable `Array.prototype.sort`
    with a comparator that ranks by a major key and then a minor key, both
    descending. Insertion sort keeps equal-ranked elements in their input
    order, as the stable runtime sort does. */
module StableSort {

  /** A sort rank: higher `major` first, then higher `minor` first. */
  datatype Rank = Rank(major: int, minor: real)

  /** The comparator is negative: `a` goes strictly before `b`. */
  predicate Before(a: Rank, b: Rank) {
    a.major > b.major || (a.major == b.major && a.minor > b.minor)
  }

  ghost predicate SortedBy<T>(s: seq<T>, rank: T -> Rank) {
    forall i, j :: 0 <= i < j < |s| ==> !Before(rank(s[j]), rank(s[i]))
  }

  /** Places `x` after every element that does not rank strictly below it. */
  function Insert<T>(x: T, s: seq<T>, rank: T -> Rank): (r: seq<T>)
    requires SortedBy(s, rank)
    ensures multiset(r) == multiset(s) + multiset{x}
    ensures |r| == |s| + 1
    ensures SortedBy(r, rank)
  {
    if |s| == 0 then [x]
    else if Before(rank(x), rank(s[0])) then [x] + s
    else
      var tail := Insert(x, s[1..], rank);
      assert s == [s[0]] + s[1..];
      assert forall k :: 0 <= k < |tail| ==> !Before(rank(tail[k]), rank(s[0])) by {
        forall k | 0 <= k < |tail|
          ensures !Before(rank(tail[k]), rank(s[0]))
        {
          assert tail[k] in multiset(tail);
        }
      }
      [s[0]] + tail
  }

  /** Stable insertion sort, inserting the elements in input order. */
  function Sort<T>(s: seq<T>, rank: T -> Rank): (r: seq<T>)
    ensures multiset(r) == multiset(s)
    ensures |r| == |s|
    ensures SortedBy(r, rank)
  {
    if |s| == 0 then []
    else
      var init := Sort(s[..|s| - 1], rank);
      assert s == s[..|s| - 1] + [s[|s| - 1]];
      Insert(s[|s| - 1], init, rank)
  }

  /** The elements of `s` whose rank is exactly `k`, in input order. */
  function WithRank<T>(s: seq<T>, rank: T -> Rank, k: Rank): seq<T> {
    if |s| == 0 then []
    else (if rank(s[0]) == k then [s[0]] else []) + WithRank(s[1..], rank, k)
  }

  lemma {:induction false} WithRankSnoc<T>(s: seq<T>, x: T, rank: T -> Rank, k: Rank)
    ensures WithRank(s + [x], rank, k) == WithRank(s, rank, k) + (if rank(x) == k then [x] else [])
  {
    if |s| > 0 {
      assert (s + [x])[1..] == s[1..] + [x];
      WithRankSnoc(s[1..], x, rank, k);
    }
  }

  lemma {:induction false} NoneWithRank<T>(s: seq<T>, rank: T -> Rank, k: Rank)
    requires forall j :: 0 <= j < |s| ==> rank(s[j]) != k
    ensures WithRank(s, rank, k) == []
  {
    if |s| > 0 {
      NoneWithRank(s[1..], rank, k);
    }
  }

  lemma WithRankCons<T>(x: T, s: seq<T>, rank: T -> Rank, k: Rank)
    ensures WithRank([x] + s, rank, k) == (if rank(x) == k then [x] else []) + WithRank(s, rank, k)
  {
    assert ([x] + s)[1..] == s;
  }

  /** Inserting `x` puts it after every element of its own rank. */
  lemma {:induction false} InsertStable<T>(x: T, s: seq<T>, rank: T -> Rank, k: Rank)
    requires SortedBy(s, rank)
    ensures WithRank(Insert(x, s, rank), rank, k) == WithRank(s, rank, k) + (if rank(x) == k then [x] else [])
  {
    if |s| == 0 {
      WithRankCons(x, s, rank, k);
    } else if Before(rank(x), rank(s[0])) {
      WithRankCons(x, s, rank, k);
      if rank(x) == k {
        forall j | 0 <= j < |s|
          ensures rank(s[j]) != k
        {
          if j > 0 {
            assert !Before(rank(s[j]), rank(s[0]));
          }
        }
        NoneWithRank(s, rank, k);
      }
    } else {
      var tail := Insert(x, s[1..], rank);
      assert Insert(x, s, rank) == [s[0]] + tail;
      WithRankCons(s[0], tail, rank, k);
      InsertStable(x, s[1..], rank, k);
      assert s == [s[0]] + s[1..];
      WithRankCons(s[0], s[1..], rank, k);
    }
  }

  /** Stability: for every rank, the elements of that rank come out in the
      order they went in. */
  lemma {:induction false} SortIsStable<T>(s: seq<T>, rank: T -> Rank, k: Rank)
    ensures WithRank(Sort(s, rank), rank, k) == WithRank(s, rank, k)
  {
    if |s| > 0 {
      var init := s[..|s| - 1];
      assert s == init + [s[|s| - 1]];
      SortIsStable(init, rank, k);
      InsertStable(s[|s| - 1], Sort(init, rank), rank, k);
      WithRankSnoc(init, s[|s| - 1], rank, k);
    }
  }
}
