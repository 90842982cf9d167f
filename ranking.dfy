/** Rank arithmetic: the largest existing rank, the rank a new request gets,
    the listing order (a stable sort by rank) and the dense renumbering that
    follows a delete. */
module Ranking {
  import opened Requests

  /** The largest element of a non-empty list of numbers. */
  function Max(xs: seq<int>): (m: int)
    requires |xs| > 0
    ensures forall k :: 0 <= k < |xs| ==> xs[k] <= m
    ensures exists k :: 0 <= k < |xs| && xs[k] == m
  {
    if |xs| == 1 then xs[0]
    else
      var t := Max(xs[1..]);
      assert exists k :: 1 <= k < |xs| && xs[k] == t by {
        var k :| 0 <= k < |xs[1..]| && xs[1..][k] == t;
        assert xs[k + 1] == t;
      }
      if xs[0] >= t then xs[0] else t
  }

  function Ranks(rs: seq<Request>): (r: seq<int>)
    ensures |r| == |rs| && forall k :: 0 <= k < |rs| ==> r[k] == Rank(rs[k])
  {
    seq(|rs|, k requires 0 <= k < |rs| => Rank(rs[k]))
  }

  /** The sort order of a newly submitted request: one more than the largest
      existing rank (missing ranks read as 0), and 1 in an empty store. */
  function NextSortOrder(rs: seq<Request>): (n: int)
    ensures |rs| == 0 ==> n == 1
    ensures forall k :: 0 <= k < |rs| ==> Rank(rs[k]) < n
    ensures |rs| > 0 ==> exists k :: 0 <= k < |rs| && n == Rank(rs[k]) + 1
  {
    var maxOrder := if |rs| > 0 then Max(Ranks(rs)) else 0;
    maxOrder + 1
  }

  predicate SortedByRank(s: seq<Request>) {
    forall i, j :: 0 <= i < j < |s| ==> Rank(s[i]) <= Rank(s[j])
  }

  /** The records of `s` whose rank is `v`, in their order in `s`. */
  function WithRank(s: seq<Request>, v: int): seq<Request> {
    if s == [] then []
    else (if Rank(s[0]) == v then [s[0]] else []) + WithRank(s[1..], v)
  }

  /** Places `x` in front of the first record of `s` ranked at least as high. */
  function Insert(x: Request, s: seq<Request>): (r: seq<Request>)
    ensures |r| == |s| + 1
  {
    if s == [] || Rank(x) <= Rank(s[0]) then [x] + s
    else [s[0]] + Insert(x, s[1..])
  }

  /** The order `Array.prototype.sort` leaves a list in under the comparator
      `(a.sort_order || 0) - (b.sort_order || 0)`; that sort is stable. */
  function SortByRank(s: seq<Request>): (r: seq<Request>)
    ensures |r| == |s|
  {
    if s == [] then [] else Insert(s[0], SortByRank(s[1..]))
  }

  /** Renumbers the list densely: the record at position k gets sort order
      k+1, and nothing else about any record changes. */
  function Renumbered(s: seq<Request>): (r: seq<Request>)
    ensures |r| == |s| && RanksDense(r)
    ensures forall k :: 0 <= k < |s| ==> Unranked(r[k]) == Unranked(s[k])
  {
    seq(|s|, k requires 0 <= k < |s| => s[k].(sortOrder := Some(k + 1)))
  }

  lemma {:induction false} InsertPermutes(x: Request, s: seq<Request>)
    ensures multiset(Insert(x, s)) == multiset(s) + multiset{x}
  {
    if s != [] && Rank(x) > Rank(s[0]) {
      InsertPermutes(x, s[1..]);
      assert s == [s[0]] + s[1..];
    }
  }

  lemma {:induction false} InsertSorted(x: Request, s: seq<Request>)
    requires SortedByRank(s)
    ensures SortedByRank(Insert(x, s))
  {
    if s != [] && Rank(x) > Rank(s[0]) {
      var t := Insert(x, s[1..]);
      InsertSorted(x, s[1..]);
      InsertPermutes(x, s[1..]);
      forall k | 0 <= k < |t| ensures Rank(s[0]) <= Rank(t[k]) {
        assert t[k] in multiset(t);
        if t[k] != x {
          assert t[k] in multiset(s[1..]);
          var j :| 0 <= j < |s[1..]| && s[1..][j] == t[k];
          assert s[j + 1] == t[k];
        }
      }
      assert Insert(x, s) == [s[0]] + t;
    }
  }

  /** The listing is ordered by rank and holds exactly the stored records. */
  lemma {:induction false} SortByRankSorted(s: seq<Request>)
    ensures SortedByRank(SortByRank(s))
    ensures multiset(SortByRank(s)) == multiset(s)
  {
    if s != [] {
      SortByRankSorted(s[1..]);
      InsertSorted(s[0], SortByRank(s[1..]));
      SortByRankPermutes(s);
    }
  }

  lemma {:induction false} SortByRankPermutes(s: seq<Request>)
    ensures multiset(SortByRank(s)) == multiset(s)
  {
    if s != [] {
      SortByRankPermutes(s[1..]);
      InsertPermutes(s[0], SortByRank(s[1..]));
      assert s == [s[0]] + s[1..];
    }
  }

  lemma {:induction false} WithRankInsert(x: Request, s: seq<Request>, v: int)
    requires SortedByRank(s)
    ensures WithRank(Insert(x, s), v) == (if Rank(x) == v then [x] else []) + WithRank(s, v)
  {
    if s == [] || Rank(x) <= Rank(s[0]) {
      assert ([x] + s)[1..] == s;
    } else {
      var t := Insert(x, s[1..]);
      WithRankInsert(x, s[1..], v);
      assert ([s[0]] + t)[1..] == t;
    }
  }

  /** Stability: among records of equal rank the listing keeps their stored
      order. */
  lemma {:induction false} SortByRankStable(s: seq<Request>, v: int)
    ensures WithRank(SortByRank(s), v) == WithRank(s, v)
  {
    if s != [] {
      SortByRankStable(s[1..], v);
      SortByRankSorted(s[1..]);
      WithRankInsert(s[0], SortByRank(s[1..]), v);
    }
  }

  lemma {:induction false} InsertKeepsUnranked(x: Request, s: seq<Request>)
    ensures multiset(Unrankeds(Insert(x, s))) == multiset(Unrankeds(s)) + multiset{Unranked(x)}
  {
    if s == [] || Rank(x) <= Rank(s[0]) {
      assert Unrankeds([x] + s) == [Unranked(x)] + Unrankeds(s);
    } else {
      InsertKeepsUnranked(x, s[1..]);
      assert Unrankeds([s[0]] + Insert(x, s[1..])) == [Unranked(s[0])] + Unrankeds(Insert(x, s[1..]));
      assert Unrankeds(s) == [Unranked(s[0])] + Unrankeds(s[1..]);
    }
  }

  /** Sorting moves records around but drops, adds or alters none. */
  lemma {:induction false} SortByRankKeepsUnranked(s: seq<Request>)
    ensures multiset(Unrankeds(SortByRank(s))) == multiset(Unrankeds(s))
  {
    if s != [] {
      SortByRankKeepsUnranked(s[1..]);
      InsertKeepsUnranked(s[0], SortByRank(s[1..]));
      assert Unrankeds(s) == [Unranked(s[0])] + Unrankeds(s[1..]);
    }
  }

  /** A list already in rank order is left as it is. */
  lemma {:induction false} SortedIsFixed(s: seq<Request>)
    requires SortedByRank(s)
    ensures SortByRank(s) == s
  {
    if s != [] {
      SortedIsFixed(s[1..]);
      assert s == [s[0]] + s[1..];
    }
  }

  /** A store numbered 1..N in position order is already in rank order. */
  lemma DenseIsSorted(s: seq<Request>)
    requires RanksDense(s)
    ensures SortedByRank(s)
  {
  }
}
