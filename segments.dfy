/**
 * Segments of a sequence: the maximal stretches of equal values, given as
 * a list of inclusive starts and a list of inclusive stops. The frame
 * metrics build these lists by concatenating the run starts (and stops) of
 * several masks and sorting them with `np.sort`; this module holds the sort
 * and the argument that the sorted lists pair up into segments that tile
 * the whole sequence.
 */
module Segments {
  import opened LabelRuns

  // ---------------------------------------------------------------------
  // np.sort

  /** Non-decreasing order. */
  predicate Sorted(a: seq<int>)
  {
    forall j, k :: 0 <= j < k < |a| ==> a[j] <= a[k]
  }

  /** `x` placed before the first element larger than or equal to it. */
  function Insert(x: int, s: seq<int>): (r: seq<int>)
    ensures multiset(r) == multiset(s) + multiset{x}
    ensures |r| == |s| + 1
    decreases |s|
  {
    if |s| == 0 then [x]
    else if x <= s[0] then [x] + s
    else assert s == [s[0]] + s[1..]; [s[0]] + Insert(x, s[1..])
  }

  /** `np.sort` of a one-dimensional integer array: a sorted permutation. */
  function Sort(s: seq<int>): (r: seq<int>)
    ensures multiset(r) == multiset(s)
    ensures |r| == |s|
    decreases |s|
  {
    if |s| == 0 then [] else assert s == [s[0]] + s[1..]; Insert(s[0], Sort(s[1..]))
  }

  lemma {:induction false} InsertSorted(x: int, s: seq<int>)
    requires Sorted(s)
    ensures Sorted(Insert(x, s))
    decreases |s|
  {
    if |s| > 0 && x > s[0] {
      InsertSorted(x, s[1..]);
      var t := Insert(x, s[1..]);
      forall k | 0 <= k < |t|
        ensures s[0] <= t[k]
      {
        assert t[k] in multiset(t);
        assert t[k] == x || t[k] in multiset(s[1..]);
        if t[k] != x {
          var i :| 0 <= i < |s[1..]| && s[1..][i] == t[k];
          assert s[i + 1] == t[k];
        }
      }
    }
  }

  /** The sort's output is in non-decreasing order. */
  lemma {:induction false} SortSorted(s: seq<int>)
    ensures Sorted(Sort(s))
    decreases |s|
  {
    if |s| > 0 {
      SortSorted(s[1..]);
      InsertSorted(s[0], Sort(s[1..]));
    }
  }

  /** A strictly increasing sequence holds every value at most once. */
  lemma {:induction false} IncreasingOnce(s: seq<int>, v: int)
    requires Increasing(s)
    ensures multiset(s)[v] <= 1
    decreases |s|
  {
    if |s| > 0 {
      var p := s[..|s| - 1];
      assert s == p + [s[|s| - 1]];
      assert Increasing(p);
      IncreasingOnce(p, v);
      if v == s[|s| - 1] {
        assert v !in p;
      }
    }
  }

  /** Two different positions holding the same value make it occur twice. */
  lemma TwiceOccurs(s: seq<int>, j: nat, k: nat)
    requires j < k < |s| && s[j] == s[k]
    ensures multiset(s)[s[j]] >= 2
  {
    assert s == s[..k] + s[k..];
    assert s[j] in s[..k];
    assert s[k] in s[k..];
    assert multiset(s) == multiset(s[..k]) + multiset(s[k..]);
  }

  /** A sorted sequence without repeated values is strictly increasing. */
  lemma SortedDistinct(s: seq<int>)
    requires Sorted(s)
    requires forall v :: multiset(s)[v] <= 1
    ensures Increasing(s)
  {
    forall j, k | 0 <= j < k < |s|
      ensures s[j] < s[k]
    {
      if s[j] == s[k] {
        TwiceOccurs(s, j, k);
      }
    }
  }

  // ---------------------------------------------------------------------
  // Tiling

  /** `x` begins a segment: first position, or its predecessor differs. */
  predicate LeftBoundary<T(==)>(s: seq<T>, x: int)
  {
    0 <= x < |s| && (x == 0 || s[x - 1] != s[x])
  }

  /** `x` ends a segment: last position, or its successor differs. */
  predicate RightBoundary<T(==)>(s: seq<T>, x: int)
  {
    0 <= x < |s| && (x == |s| - 1 || s[x + 1] != s[x])
  }

  /**
   * `starts[k] .. stops[k]` are the maximal constant segments of `s`, in
   * order: back to back from position 0 to the last, each constant, each
   * different from the one before.
   */
  predicate Tiles<T(==)>(s: seq<T>, starts: seq<int>, stops: seq<int>)
  {
    |starts| == |stops| &&
    (|s| == 0 <==> |starts| == 0) &&
    (|starts| > 0 ==> starts[0] == 0 && stops[|stops| - 1] == |s| - 1) &&
    (forall k :: 0 <= k < |starts| ==> 0 <= starts[k] <= stops[k] < |s|) &&
    (forall j, k :: 0 <= j < |starts| && 0 <= k < |starts| && k == j + 1 ==> starts[k] == stops[j] + 1) &&
    (forall k :: 0 <= k < |starts| ==> ConstantOn(s, starts[k], stops[k])) &&
    (forall j, k :: 0 <= j < |starts| && 0 <= k < |starts| && k == j + 1 ==> s[starts[k]] != s[starts[j]])
  }

  /** Positions `a .. b` all hold the value at `a`. */
  predicate ConstantOn<T(==)>(s: seq<T>, a: int, b: int)
    requires 0 <= a <= b < |s|
  {
    forall x :: a <= x <= b ==> s[x] == s[a]
  }

  /** A sequence holding two different values is tiled by two segments or more. */
  lemma TwoValuesTwoSegments<T>(s: seq<T>, starts: seq<int>, stops: seq<int>, i: int, j: int)
    requires Tiles(s, starts, stops)
    requires 0 <= i < |s| && 0 <= j < |s| && s[i] != s[j]
    ensures |starts| >= 2
  {
    OneSegmentConstant(s, starts, stops, i, j);
  }

  /** A single segment holds one value throughout. */
  lemma OneSegmentConstant<T>(s: seq<T>, starts: seq<int>, stops: seq<int>, i: int, j: int)
    requires Tiles(s, starts, stops)
    requires 0 <= i < |s| && 0 <= j < |s|
    ensures |starts| == 1 ==> s[i] == s[j]
  {
    if |starts| == 1 {
      assert ConstantOn(s, starts[0], stops[0]);
      assert s[i] == s[0] && s[j] == s[0];
    }
  }

  /** The stop each start implies: one before the next start, or the last position. */
  function ImpliedStops(starts: seq<int>, n: int): (r: seq<int>)
    ensures |r| == |starts|
  {
    seq(|starts|, k requires 0 <= k < |starts| => if k + 1 < |starts| then starts[k + 1] - 1 else n - 1)
  }

  /**
   * The increasing enumeration of the left boundaries and the increasing
   * enumeration of the right boundaries pair up into the segments of `s`.
   */
  lemma BoundariesTile<T>(s: seq<T>, starts: seq<int>, stops: seq<int>)
    requires Increasing(starts) && Increasing(stops)
    requires forall x :: x in starts <==> LeftBoundary(s, x)
    requires forall x :: x in stops <==> RightBoundary(s, x)
    ensures Tiles(s, starts, stops)
  {
    var n, m := |s|, |starts|;
    if m > 0 {
      assert starts[0] in starts;
    }
    if |stops| > 0 {
      assert stops[0] in stops;
    }
    if n == 0 {
      return;
    }
    StartsAreBoundaries(s, starts);
    ImpliedStopsAreRightBoundaries(s, starts);
    var implied := ImpliedStops(starts, n);
    IncreasingUnique(implied, stops);
    assert stops == implied;
    SegmentsConstant(s, starts, stops);
  }

  /** Each implied segment is constant and differs from the one before. */
  lemma SegmentsConstant<T>(s: seq<T>, starts: seq<int>, stops: seq<int>)
    requires |s| > 0 && Increasing(starts) && stops == ImpliedStops(starts, |s|)
    requires forall x :: x in starts <==> LeftBoundary(s, x)
    requires forall k :: 0 <= k < |starts| ==> 0 <= starts[k] < |s| && LeftBoundary(s, starts[k])
    ensures forall k :: 0 <= k < |starts| ==> 0 <= starts[k] <= stops[k] < |s|
    ensures forall k :: 0 <= k < |starts| ==> ConstantOn(s, starts[k], stops[k])
    ensures forall j, k :: 0 <= j < |starts| && 0 <= k < |starts| && k == j + 1 ==> s[starts[k]] != s[starts[j]]
  {
    SegmentsInside(s, starts, stops);
    SegmentsEachConstant(s, starts, stops);
    SegmentsAlternate(s, starts, stops);
  }

  lemma SegmentsInside<T>(s: seq<T>, starts: seq<int>, stops: seq<int>)
    requires |s| > 0 && Increasing(starts) && stops == ImpliedStops(starts, |s|)
    requires forall x :: x in starts <==> LeftBoundary(s, x)
    requires forall k :: 0 <= k < |starts| ==> 0 <= starts[k] < |s| && LeftBoundary(s, starts[k])
    ensures forall k :: 0 <= k < |starts| ==> 0 <= starts[k] <= stops[k] < |s|
  {
    forall k | 0 <= k < |starts|
      ensures 0 <= starts[k] <= stops[k] < |s|
    {
      if k + 1 < |starts| {
        assert starts[k] < starts[k + 1] < |s|;
      }
    }
  }

  lemma SegmentsEachConstant<T>(s: seq<T>, starts: seq<int>, stops: seq<int>)
    requires |s| > 0 && Increasing(starts) && stops == ImpliedStops(starts, |s|)
    requires forall x :: x in starts <==> LeftBoundary(s, x)
    requires forall k :: 0 <= k < |starts| ==> 0 <= starts[k] < |s| && LeftBoundary(s, starts[k])
    ensures forall k :: 0 <= k < |starts| ==> ConstantOn(s, starts[k], stops[k])
  {
    forall k | 0 <= k < |starts|
      ensures ConstantOn(s, starts[k], stops[k])
    {
      forall x | starts[k] <= x <= stops[k]
        ensures s[x] == s[starts[k]]
      {
        SegmentConstant(s, starts, stops, k, x);
      }
    }
  }

  lemma SegmentsAlternate<T>(s: seq<T>, starts: seq<int>, stops: seq<int>)
    requires |s| > 0 && Increasing(starts) && stops == ImpliedStops(starts, |s|)
    requires forall x :: x in starts <==> LeftBoundary(s, x)
    requires forall k :: 0 <= k < |starts| ==> 0 <= starts[k] < |s| && LeftBoundary(s, starts[k])
    ensures forall j, k :: 0 <= j < |starts| && 0 <= k < |starts| && k == j + 1 ==> s[starts[k]] != s[starts[j]]
  {
    forall j, k | 0 <= j < |starts| && 0 <= k < |starts| && k == j + 1
      ensures s[starts[k]] != s[starts[j]]
    {
      assert LeftBoundary(s, starts[k]) && LeftBoundary(s, starts[j]);
      assert starts[k] - 1 == stops[j];
      SegmentConstant(s, starts, stops, j, stops[j]);
    }
  }

  /** Every listed start is a left boundary, and the first is position 0. */
  lemma StartsAreBoundaries<T>(s: seq<T>, starts: seq<int>)
    requires |s| > 0 && Increasing(starts)
    requires forall x :: x in starts <==> LeftBoundary(s, x)
    ensures forall k :: 0 <= k < |starts| ==> 0 <= starts[k] < |s| && LeftBoundary(s, starts[k])
    ensures |starts| > 0 && starts[0] == 0
  {
    forall k | 0 <= k < |starts| ensures LeftBoundary(s, starts[k]) {
      assert starts[k] in starts;
    }
    assert LeftBoundary(s, 0);
    assert 0 in starts;
    var k :| 0 <= k < |starts| && starts[k] == 0;
    assert LeftBoundary(s, starts[0]);
  }

  /** The implied stops are increasing and are exactly the right boundaries. */
  lemma ImpliedStopsAreRightBoundaries<T>(s: seq<T>, starts: seq<int>)
    requires |s| > 0 && Increasing(starts)
    requires forall x :: x in starts <==> LeftBoundary(s, x)
    requires forall k :: 0 <= k < |starts| ==> 0 <= starts[k] < |s| && LeftBoundary(s, starts[k])
    requires |starts| > 0 && starts[0] == 0
    ensures Increasing(ImpliedStops(starts, |s|))
    ensures forall y :: y in ImpliedStops(starts, |s|) <==> RightBoundary(s, y)
  {
    var implied := ImpliedStops(starts, |s|);
    forall j, k | 0 <= j < k < |starts|
      ensures implied[j] < implied[k]
    {
      assert implied[j] == starts[j + 1] - 1;
    }
    forall y
      ensures y in implied <==> RightBoundary(s, y)
    {
      ImpliedStopIsRightBoundary(s, starts, y);
      RightBoundaryIsImpliedStop(s, starts, y);
    }
  }

  lemma ImpliedStopIsRightBoundary<T>(s: seq<T>, starts: seq<int>, y: int)
    requires |s| > 0 && Increasing(starts)
    requires forall x :: x in starts <==> LeftBoundary(s, x)
    requires forall k :: 0 <= k < |starts| ==> 0 <= starts[k] < |s| && LeftBoundary(s, starts[k])
    requires |starts| > 0 && starts[0] == 0
    ensures y in ImpliedStops(starts, |s|) ==> RightBoundary(s, y)
  {
    var implied := ImpliedStops(starts, |s|);
    if y in implied {
      var k :| 0 <= k < |starts| && implied[k] == y;
      if k + 1 < |starts| {
        assert LeftBoundary(s, starts[k + 1]) && starts[k + 1] > 0;
      }
    }
  }

  lemma RightBoundaryIsImpliedStop<T>(s: seq<T>, starts: seq<int>, y: int)
    requires |s| > 0 && Increasing(starts)
    requires forall x :: x in starts <==> LeftBoundary(s, x)
    requires forall k :: 0 <= k < |starts| ==> 0 <= starts[k] < |s| && LeftBoundary(s, starts[k])
    requires |starts| > 0 && starts[0] == 0
    ensures RightBoundary(s, y) ==> y in ImpliedStops(starts, |s|)
  {
    var n, m := |s|, |starts|;
    var implied := ImpliedStops(starts, n);
    if RightBoundary(s, y) {
      if y == n - 1 {
        assert implied[m - 1] == y;
      } else {
        assert LeftBoundary(s, y + 1);
        assert y + 1 in starts;
        var k :| 0 <= k < m && starts[k] == y + 1;
        assert k > 0;
        assert implied[k - 1] == y;
      }
    }
  }

  /** Inside a segment no left boundary occurs, so every frame repeats the segment's first. */
  lemma {:induction false} SegmentConstant<T>(s: seq<T>, starts: seq<int>, stops: seq<int>, k: nat, x: int)
    requires Increasing(starts) && |stops| == |starts| && stops == ImpliedStops(starts, |s|)
    requires forall x :: x in starts <==> LeftBoundary(s, x)
    requires k < |starts| && 0 <= starts[k] <= x <= stops[k] && x < |s|
    requires forall k :: 0 <= k < |starts| ==> 0 <= starts[k] < |s| && LeftBoundary(s, starts[k])
    ensures s[x] == s[starts[k]]
    decreases x - starts[k]
  {
    if x > starts[k] {
      SegmentConstant(s, starts, stops, k, x - 1);
      forall j | 0 <= j < |starts|
        ensures starts[j] != x
      {
        if j <= k {
          assert starts[j] <= starts[k];
        } else {
          assert starts[k + 1] <= starts[j];
        }
      }
      assert x !in starts;
    }
  }

  // ---------------------------------------------------------------------
  // Frame counts of segments

  /** How many positions of `s` hold `c`. */
  function Count<T(==)>(s: seq<T>, c: T): (n: nat)
    ensures n <= |s|
    decreases |s|
  {
    if |s| == 0 then 0 else Count(s[..|s| - 1], c) + (if s[|s| - 1] == c then 1 else 0)
  }

  /** `(stops[mask] - starts[mask] + 1).sum()`: the frames of the selected segments. */
  function SumWhere(starts: seq<int>, stops: seq<int>, mask: seq<bool>): int
    requires |starts| == |stops| == |mask|
  {
    SumUpTo(starts, stops, mask, |mask|)
  }

  /** The frames of the selected segments among the first `m`. */
  function SumUpTo(starts: seq<int>, stops: seq<int>, mask: seq<bool>, m: nat): int
    requires |starts| == |stops| == |mask| && m <= |mask|
    decreases m
  {
    if m == 0 then 0
    else SumUpTo(starts, stops, mask, m - 1) + (if mask[m - 1] then stops[m - 1] - starts[m - 1] + 1 else 0)
  }

  lemma {:induction false} CountAppend<T>(s: seq<T>, t: seq<T>, c: T)
    ensures Count(s + t, c) == Count(s, c) + Count(t, c)
    decreases |t|
  {
    if |t| > 0 {
      var n := |t| - 1;
      assert (s + t)[..|s + t| - 1] == s + t[..n];
      assert (s + t)[|s + t| - 1] == t[n];
      CountAppend(s, t[..n], c);
    } else {
      assert s + t == s;
    }
  }

  /** A stretch of positions all holding `v` counts fully for `v` and not at all otherwise. */
  lemma {:induction false} CountConstant<T>(t: seq<T>, v: T, c: T)
    requires forall i :: 0 <= i < |t| ==> t[i] == v
    ensures Count(t, c) == if v == c then |t| else 0
    decreases |t|
  {
    if |t| > 0 {
      CountConstant(t[..|t| - 1], v, c);
    }
  }

  /**
   * Summing the lengths of the segments whose value is `c` counts the
   * positions that hold `c`.
   */
  lemma SegmentFrames<T>(s: seq<T>, starts: seq<int>, stops: seq<int>, mask: seq<bool>, c: T)
    requires Tiles(s, starts, stops) && |mask| == |starts|
    requires forall k :: 0 <= k < |mask| ==> (mask[k] <==> s[starts[k]] == c)
    ensures SumWhere(starts, stops, mask) == Count(s, c)
  {
    if |starts| > 0 {
      SegmentFramesUpTo(s, starts, stops, mask, c, |starts|);
      assert s[..stops[|starts| - 1] + 1] == s;
    }
  }

  lemma {:induction false} SegmentFramesUpTo<T>(s: seq<T>, starts: seq<int>, stops: seq<int>, mask: seq<bool>, c: T, m: nat)
    requires Tiles(s, starts, stops) && |mask| == |starts|
    requires forall k :: 0 <= k < |mask| ==> (mask[k] <==> s[starts[k]] == c)
    requires 0 < m <= |starts|
    ensures SumUpTo(starts, stops, mask, m) == Count(s[..stops[m - 1] + 1], c)
    decreases m
  {
    var k := m - 1;
    BlockCount(s, starts[k], stops[k], c);
    if k == 0 {
      assert Count(s[..starts[0]], c) == 0;
    } else {
      SegmentFramesUpTo(s, starts, stops, mask, c, k);
      assert starts[k] == stops[k - 1] + 1 by {
        var j := k - 1;
        assert starts[j + 1] == stops[j] + 1;
      }
    }
  }

  /** Extending a prefix by a constant stretch adds its length to the count of its value. */
  lemma BlockCount<T>(s: seq<T>, a: int, b: int, c: T)
    requires 0 <= a <= b < |s|
    requires ConstantOn(s, a, b)
    ensures Count(s[..b + 1], c) == Count(s[..a], c) + (if s[a] == c then b - a + 1 else 0)
  {
    var block := s[a..b + 1];
    forall i | 0 <= i < |block|
      ensures block[i] == s[a]
    {
      assert block[i] == s[a + i];
    }
    CountConstant(block, s[a], c);
    assert s[..b + 1] == s[..a] + block;
    CountAppend(s[..a], block, c);
  }

  /**
   * When every selected segment is selected by exactly one of four masks,
   * the four frame sums add up to the frames of the selected segments.
   */
  lemma SumWhereSplit(starts: seq<int>, stops: seq<int>, all: seq<bool>,
                       a: seq<bool>, b: seq<bool>, c: seq<bool>, d: seq<bool>)
    requires |starts| == |stops| == |all| == |a| == |b| == |c| == |d|
    requires forall k :: 0 <= k < |all| ==>
               (if a[k] then 1 else 0) + (if b[k] then 1 else 0) + (if c[k] then 1 else 0) + (if d[k] then 1 else 0) ==
               (if all[k] then 1 else 0)
    ensures SumWhere(starts, stops, a) + SumWhere(starts, stops, b) + SumWhere(starts, stops, c) + SumWhere(starts, stops, d) ==
            SumWhere(starts, stops, all)
  {
    SumUpToSplit(starts, stops, all, a, b, c, d, |all|);
  }

  lemma {:induction false} SumUpToSplit(starts: seq<int>, stops: seq<int>, all: seq<bool>,
                                        a: seq<bool>, b: seq<bool>, c: seq<bool>, d: seq<bool>, m: nat)
    requires |starts| == |stops| == |all| == |a| == |b| == |c| == |d| && m <= |all|
    requires forall k :: 0 <= k < |all| ==>
               (if a[k] then 1 else 0) + (if b[k] then 1 else 0) + (if c[k] then 1 else 0) + (if d[k] then 1 else 0) ==
               (if all[k] then 1 else 0)
    ensures SumUpTo(starts, stops, a, m) + SumUpTo(starts, stops, b, m) + SumUpTo(starts, stops, c, m) + SumUpTo(starts, stops, d, m) ==
            SumUpTo(starts, stops, all, m)
    decreases m
  {
    if m > 0 {
      SumUpToSplit(starts, stops, all, a, b, c, d, m - 1);
    }
  }
}
