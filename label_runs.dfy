/**
 * Extraction of maximal runs from a label sequence, as the repository does
 * it in three ways:
 *
 *  - `scipy.ndimage.label` followed by `np.unique(..., return_index=True,
 *    return_counts=True)` and `[1:]` (`get_start_stop`, and inline in
 *    `DataLoad`, the inference script and the metrics): inclusive starts and
 *    stops of the runs of non-zero entries. `[1:]` is meant to drop the
 *    background label 0, but when the input holds no zero at all the first
 *    unique label is the one run itself, so that run is dropped.
 *  - `np.diff` with a 0 prepended and appended, then `np.where` for `1` and
 *    `-1` (`get_stacks`): starts and exclusive ends.
 *
 * `RunsOf` is the one reference definition of "the maximal runs", and the
 * lemmas here tie each extraction to it.
 */
module LabelRuns {
  import opened PyOps

  /** A run of a sequence: first and last index, both inclusive. */
  datatype Span = Span(start: int, stop: int)

  /** The maximal runs of entries equal to `v`, in order, built frame by frame. */
  function RunsOf<T(==)>(s: seq<T>, v: T): seq<Span>
    decreases |s|
  {
    if |s| == 0 then []
    else
      var prev := RunsOf(s[..|s| - 1], v);
      if s[|s| - 1] != v then prev
      else if |s| > 1 && s[|s| - 2] == v && |prev| > 0 then
        prev[..|prev| - 1] + [Span(prev[|prev| - 1].start, |s| - 1)]
      else prev + [Span(|s| - 1, |s| - 1)]
  }

  /** Every run is a non-empty interval of indices of a sequence of length `n`. */
  predicate InBounds(r: seq<Span>, n: int)
  {
    forall j :: 0 <= j < |r| ==> 0 <= r[j].start <= r[j].stop < n
  }

  /** The runs come in order, and at least one index separates consecutive runs. */
  predicate Separated(r: seq<Span>)
  {
    forall j, k :: 0 <= j < k < |r| ==> r[j].stop + 1 < r[k].start
  }

  /** Index `i` lies in one of the runs. */
  predicate Covered(r: seq<Span>, i: int)
  {
    exists j :: 0 <= j < |r| && r[j].start <= i <= r[j].stop
  }

  /** Every run holds only `v`. */
  predicate AllValue<T(==)>(s: seq<T>, v: T, r: seq<Span>)
  {
    forall j, i :: 0 <= j < |r| && r[j].start <= i <= r[j].stop && 0 <= i < |s| ==> s[i] == v
  }

  /** No run can be extended to the left. */
  predicate LeftMaximal<T(==)>(s: seq<T>, v: T, r: seq<Span>)
  {
    forall j :: 0 <= j < |r| && 0 < r[j].start <= |s| ==> s[r[j].start - 1] != v
  }

  /** No run can be extended to the right. */
  predicate RightMaximal<T(==)>(s: seq<T>, v: T, r: seq<Span>)
  {
    forall j :: 0 <= j < |r| && -1 <= r[j].stop < |s| - 1 ==> s[r[j].stop + 1] != v
  }

  /** Every occurrence of `v` lies in a run. */
  predicate CoversAll<T(==)>(s: seq<T>, v: T, r: seq<Span>)
  {
    forall i :: 0 <= i < |s| && s[i] == v ==> Covered(r, i)
  }

  /**
   * `r` is the run decomposition of `v` in `s`: in-bounds, ordered and
   * separated runs holding only `v`, that cannot be extended on either side,
   * and that together cover every occurrence of `v`.
   */
  predicate IsRuns<T(==)>(s: seq<T>, v: T, r: seq<Span>)
  {
    InBounds(r, |s|) && Separated(r) && AllValue(s, v, r) &&
    LeftMaximal(s, v, r) && RightMaximal(s, v, r) && CoversAll(s, v, r)
  }

  /** Whether the last run of `r` ends at index `last`. */
  predicate EndsAt(r: seq<Span>, last: int)
  {
    |r| > 0 && r[|r| - 1].stop == last
  }

  /** `RunsOf` is the run decomposition, and its last run reaches the end exactly when the last entry is `v`. */
  lemma {:induction false} RunsOfCorrect<T>(s: seq<T>, v: T)
    ensures IsRuns(s, v, RunsOf(s, v))
    ensures (|s| > 0 && s[|s| - 1] == v) <==> EndsAt(RunsOf(s, v), |s| - 1)
    decreases |s|
  {
    if |s| > 0 {
      var n := |s|;
      var p := s[..n - 1];
      var prev := RunsOf(p, v);
      RunsOfCorrect(p, v);
      if s[n - 1] != v {
        RunsExtendNot(s, v, p, prev);
      } else if n > 1 && s[n - 2] == v && |prev| > 0 {
        RunsExtendLast(s, v, p, prev);
      } else {
        RunsExtendNew(s, v, p, prev);
      }
    }
  }

  /** Step of RunsOfCorrect when the new entry is not `v`. */
  lemma RunsExtendNot<T>(s: seq<T>, v: T, p: seq<T>, prev: seq<Span>)
    requires |s| > 0 && p == s[..|s| - 1] && s[|s| - 1] != v
    requires IsRuns(p, v, prev)
    requires (|p| > 0 && p[|p| - 1] == v) <==> EndsAt(prev, |p| - 1)
    ensures IsRuns(s, v, prev)
    ensures !EndsAt(prev, |s| - 1)
  {
    var n := |s|;
    assert forall i :: 0 <= i < n - 1 ==> s[i] == p[i];
    assert RightMaximal(s, v, prev) by {
      forall j | 0 <= j < |prev| && -1 <= prev[j].stop < n - 1
        ensures s[prev[j].stop + 1] != v
      {
        if prev[j].stop + 1 < n - 1 {
          assert p[prev[j].stop + 1] != v;
        }
      }
    }
    assert CoversAll(s, v, prev) by {
      forall i | 0 <= i < n && s[i] == v
        ensures Covered(prev, i)
      {
        assert i < n - 1 && p[i] == v;
      }
    }
  }

  /** Step of RunsOfCorrect when the new entry is `v` and extends the last run. */
  lemma RunsExtendLast<T>(s: seq<T>, v: T, p: seq<T>, prev: seq<Span>)
    requires |s| > 1 && p == s[..|s| - 1] && s[|s| - 1] == v && s[|s| - 2] == v && |prev| > 0
    requires IsRuns(p, v, prev)
    requires (|p| > 0 && p[|p| - 1] == v) <==> EndsAt(prev, |p| - 1)
    ensures IsRuns(s, v, prev[..|prev| - 1] + [Span(prev[|prev| - 1].start, |s| - 1)])
    ensures EndsAt(prev[..|prev| - 1] + [Span(prev[|prev| - 1].start, |s| - 1)], |s| - 1)
  {
    var n, m := |s|, |prev|;
    var r := prev[..m - 1] + [Span(prev[m - 1].start, n - 1)];
    assert Extended(s, p);
    assert p[n - 2] == v;
    assert LastStretched(prev, r, n - 1);
    StretchedSeparated(prev, r, n - 1);
    StretchedAllValue(s, v, p, prev, r);
    StretchedLeftMaximal(s, v, p, prev, r);
    StretchedRightMaximal(s, v, p, prev, r);
    StretchedCoversAll(s, v, p, prev, r);
  }

  /** `s` is `p` with one more entry. */
  predicate Extended<T(==)>(s: seq<T>, p: seq<T>)
  {
    |s| == |p| + 1 && forall i :: 0 <= i < |p| ==> s[i] == p[i]
  }

  /** `r` is `prev` with its last run stretched to end at `stop`. */
  predicate LastStretched(prev: seq<Span>, r: seq<Span>, stop: int)
  {
    |r| == |prev| > 0 && (forall j :: 0 <= j < |prev| - 1 ==> r[j] == prev[j]) &&
    r[|r| - 1] == Span(prev[|prev| - 1].start, stop)
  }

  lemma StretchedSeparated(prev: seq<Span>, r: seq<Span>, stop: int)
    requires LastStretched(prev, r, stop) && Separated(prev)
    ensures Separated(r)
  {
    forall j, k | 0 <= j < k < |r|
      ensures r[j].stop + 1 < r[k].start
    {
      assert prev[j].stop + 1 < prev[k].start;
    }
  }

  lemma StretchedAllValue<T>(s: seq<T>, v: T, p: seq<T>, prev: seq<Span>, r: seq<Span>)
    requires Extended(s, p) && s[|p|] == v && LastStretched(prev, r, |p|) && AllValue(p, v, prev)
    requires prev[|prev| - 1].stop == |p| - 1
    ensures AllValue(s, v, r)
  {
    forall j, i | 0 <= j < |r| && r[j].start <= i <= r[j].stop && 0 <= i < |s|
      ensures s[i] == v
    {
      if i < |p| {
        assert prev[j].start <= i <= prev[j].stop;
        assert p[i] == v;
      }
    }
  }

  lemma StretchedLeftMaximal<T>(s: seq<T>, v: T, p: seq<T>, prev: seq<Span>, r: seq<Span>)
    requires Extended(s, p) && LastStretched(prev, r, |p|)
    requires LeftMaximal(p, v, prev) && InBounds(prev, |p|)
    ensures LeftMaximal(s, v, r)
  {
    forall j | 0 <= j < |r| && 0 < r[j].start <= |s|
      ensures s[r[j].start - 1] != v
    {
      assert r[j].start == prev[j].start;
      assert p[prev[j].start - 1] != v;
    }
  }

  lemma StretchedRightMaximal<T>(s: seq<T>, v: T, p: seq<T>, prev: seq<Span>, r: seq<Span>)
    requires Extended(s, p) && LastStretched(prev, r, |p|)
    requires RightMaximal(p, v, prev) && Separated(prev) && InBounds(prev, |p|)
    ensures RightMaximal(s, v, r)
  {
    var m := |prev|;
    forall j | 0 <= j < m && -1 <= r[j].stop < |s| - 1
      ensures s[r[j].stop + 1] != v
    {
      assert j < m - 1;
      assert prev[j].stop + 1 < prev[m - 1].start;
      assert p[prev[j].stop + 1] != v;
    }
  }

  lemma StretchedCoversAll<T>(s: seq<T>, v: T, p: seq<T>, prev: seq<Span>, r: seq<Span>)
    requires Extended(s, p) && LastStretched(prev, r, |p|) && CoversAll(p, v, prev)
    requires prev[|prev| - 1].stop == |p| - 1 && InBounds(prev, |p|)
    ensures CoversAll(s, v, r)
  {
    var m := |prev|;
    forall i | 0 <= i < |s| && s[i] == v
      ensures Covered(r, i)
    {
      if i == |p| {
        assert r[m - 1].start <= i <= r[m - 1].stop;
      } else {
        assert p[i] == v && Covered(prev, i);
        var j :| 0 <= j < m && prev[j].start <= i <= prev[j].stop;
        assert r[j].start <= i <= r[j].stop;
      }
    }
  }

  /** When the entry before the last is not `v`, every earlier run ends at least two before the end. */
  lemma NewRunGap<T>(s: seq<T>, v: T, p: seq<T>, prev: seq<Span>)
    requires |s| > 0 && p == s[..|s| - 1]
    requires !(|s| > 1 && s[|s| - 2] == v && |prev| > 0)
    requires IsRuns(p, v, prev)
    requires (|p| > 0 && p[|p| - 1] == v) <==> EndsAt(prev, |p| - 1)
    ensures |s| == 1 || s[|s| - 2] != v
    ensures forall j :: 0 <= j < |prev| ==> prev[j].stop + 1 < |s| - 1
  {
    var n := |s|;
    assert forall i :: 0 <= i < n - 1 ==> s[i] == p[i];
    assert n == 1 || s[n - 2] != v;
    forall j | 0 <= j < |prev|
      ensures prev[j].stop + 1 < n - 1
    {
      if j < |prev| - 1 {
        assert prev[j].stop + 1 < prev[|prev| - 1].start;
      }
    }
  }

  /** Step of RunsOfCorrect when the new entry is `v` and starts a new run. */
  lemma RunsExtendNew<T>(s: seq<T>, v: T, p: seq<T>, prev: seq<Span>)
    requires |s| > 0 && p == s[..|s| - 1] && s[|s| - 1] == v
    requires !(|s| > 1 && s[|s| - 2] == v && |prev| > 0)
    requires IsRuns(p, v, prev)
    requires (|p| > 0 && p[|p| - 1] == v) <==> EndsAt(prev, |p| - 1)
    ensures IsRuns(s, v, prev + [Span(|s| - 1, |s| - 1)])
    ensures EndsAt(prev + [Span(|s| - 1, |s| - 1)], |s| - 1)
  {
    var n := |s|;
    var r := prev + [Span(n - 1, n - 1)];
    assert Extended(s, p);
    NewRunGap(s, v, p, prev);
    assert RunAppended(prev, r, n - 1);
    AppendedSeparated(prev, r, n - 1);
    AppendedAllValue(s, v, p, prev, r);
    AppendedLeftMaximal(s, v, p, prev, r);
    AppendedRightMaximal(s, v, p, prev, r);
    AppendedCoversAll(s, v, p, prev, r);
  }

  /** `r` is `prev` with the one-entry run `i` appended. */
  predicate RunAppended(prev: seq<Span>, r: seq<Span>, i: int)
  {
    |r| == |prev| + 1 && (forall j :: 0 <= j < |prev| ==> r[j] == prev[j]) && r[|prev|] == Span(i, i)
  }

  lemma AppendedSeparated(prev: seq<Span>, r: seq<Span>, i: int)
    requires RunAppended(prev, r, i) && Separated(prev)
    requires forall j :: 0 <= j < |prev| ==> prev[j].stop + 1 < i
    ensures Separated(r)
  {
    forall j, k | 0 <= j < k < |r|
      ensures r[j].stop + 1 < r[k].start
    {
      if k < |prev| {
        assert prev[j].stop + 1 < prev[k].start;
      }
    }
  }

  lemma AppendedAllValue<T>(s: seq<T>, v: T, p: seq<T>, prev: seq<Span>, r: seq<Span>)
    requires Extended(s, p) && s[|p|] == v && RunAppended(prev, r, |p|) && AllValue(p, v, prev)
    ensures AllValue(s, v, r)
  {
    forall j, i | 0 <= j < |r| && r[j].start <= i <= r[j].stop && 0 <= i < |s|
      ensures s[i] == v
    {
      if j < |prev| && i < |p| {
        assert prev[j].start <= i <= prev[j].stop;
        assert p[i] == v;
      }
    }
  }

  lemma AppendedLeftMaximal<T>(s: seq<T>, v: T, p: seq<T>, prev: seq<Span>, r: seq<Span>)
    requires Extended(s, p) && RunAppended(prev, r, |p|)
    requires LeftMaximal(p, v, prev) && InBounds(prev, |p|)
    requires |p| == 0 || p[|p| - 1] != v
    ensures LeftMaximal(s, v, r)
  {
    forall j | 0 <= j < |r| && 0 < r[j].start <= |s|
      ensures s[r[j].start - 1] != v
    {
      if j < |prev| {
        assert p[prev[j].start - 1] != v;
      }
    }
  }

  lemma AppendedRightMaximal<T>(s: seq<T>, v: T, p: seq<T>, prev: seq<Span>, r: seq<Span>)
    requires Extended(s, p) && RunAppended(prev, r, |p|)
    requires RightMaximal(p, v, prev)
    requires forall j :: 0 <= j < |prev| ==> prev[j].stop + 1 < |p|
    ensures RightMaximal(s, v, r)
  {
    forall j | 0 <= j < |r| && -1 <= r[j].stop < |s| - 1
      ensures s[r[j].stop + 1] != v
    {
      assert j < |prev|;
      assert p[prev[j].stop + 1] != v;
    }
  }

  lemma AppendedCoversAll<T>(s: seq<T>, v: T, p: seq<T>, prev: seq<Span>, r: seq<Span>)
    requires Extended(s, p) && RunAppended(prev, r, |p|) && CoversAll(p, v, prev)
    ensures CoversAll(s, v, r)
  {
    forall i | 0 <= i < |s| && s[i] == v
      ensures Covered(r, i)
    {
      if i == |p| {
        assert r[|prev|].start <= i <= r[|prev|].stop;
      } else {
        assert p[i] == v && Covered(prev, i);
        var j :| 0 <= j < |prev| && prev[j].start <= i <= prev[j].stop;
        assert r[j].start <= i <= r[j].stop;
      }
    }
  }

  /** The run starts are exactly the occurrences of `v` not preceded by `v`. */
  lemma StartsOfRuns<T>(s: seq<T>, v: T, r: seq<Span>, x: int)
    requires IsRuns(s, v, r)
    ensures x in Starts(r) <==> (0 <= x < |s| && s[x] == v && (x == 0 || s[x - 1] != v))
  {
    if x in Starts(r) {
      var j :| 0 <= j < |r| && Starts(r)[j] == x;
      assert r[j].start == x;
    }
    if 0 <= x < |s| && s[x] == v && (x == 0 || s[x - 1] != v) {
      assert Covered(r, x);
      var j :| 0 <= j < |r| && r[j].start <= x <= r[j].stop;
      assert r[j].start == x;
      assert Starts(r)[j] == x;
    }
  }

  /** The run stops are exactly the occurrences of `v` not followed by `v`. */
  lemma StopsOfRuns<T>(s: seq<T>, v: T, r: seq<Span>, x: int)
    requires IsRuns(s, v, r)
    ensures x in Stops(r) <==> (0 <= x < |s| && s[x] == v && (x == |s| - 1 || s[x + 1] != v))
    ensures x + 1 in Ends(r) <==> x in Stops(r)
  {
    if x in Stops(r) {
      var j :| 0 <= j < |r| && Stops(r)[j] == x;
      assert r[j].stop == x;
      assert Ends(r)[j] == x + 1;
    }
    if x + 1 in Ends(r) {
      var j :| 0 <= j < |r| && Ends(r)[j] == x + 1;
      assert Stops(r)[j] == x;
    }
    if 0 <= x < |s| && s[x] == v && (x == |s| - 1 || s[x + 1] != v) {
      assert Covered(r, x);
      var j :| 0 <= j < |r| && r[j].start <= x <= r[j].stop;
      assert r[j].stop == x;
      assert Stops(r)[j] == x;
    }
  }

  /** Strictly increasing. */
  predicate Increasing(a: seq<int>)
  {
    forall j, k :: 0 <= j < k < |a| ==> a[j] < a[k]
  }

  /** The two sequences hold the same elements. */
  ghost predicate SameElements(a: seq<int>, b: seq<int>)
  {
    forall x :: x in a <==> x in b
  }

  /** Two strictly increasing sequences with the same elements are equal. */
  lemma {:induction false} IncreasingUnique(a: seq<int>, b: seq<int>)
    requires Increasing(a) && Increasing(b)
    ensures SameElements(a, b) ==> a == b
    decreases |a|
  {
    if |a| == 0 {
      if |b| > 0 {
        assert b[0] in b;
      }
    } else if |b| == 0 {
      assert a[0] in a;
    } else if SameElements(a, b) {
      assert a[0] in a && a[0] in b;
      assert b[0] in b && b[0] in a;
      assert a[0] == b[0];
      forall x
        ensures x in a[1..] <==> x in b[1..]
      {
        if x in a[1..] {
          assert x in a && x > a[0];
        }
        if x in b[1..] {
          assert x in b && x > b[0];
        }
        if x in a && x > a[0] {
          var k :| 0 <= k < |a| && a[k] == x;
          assert k > 0 && x == a[1..][k - 1];
        }
        if x in b && x > b[0] {
          var k :| 0 <= k < |b| && b[k] == x;
          assert k > 0 && x == b[1..][k - 1];
        }
      }
      IncreasingUnique(a[1..], b[1..]);
    }
  }

  /** Starts of a run list. */
  function Starts(r: seq<Span>): (xs: seq<int>)
    ensures |xs| == |r| && forall j :: 0 <= j < |r| ==> xs[j] == r[j].start
  {
    seq(|r|, j requires 0 <= j < |r| => r[j].start)
  }

  /** (Inclusive) stops of a run list. */
  function Stops(r: seq<Span>): (xs: seq<int>)
    ensures |xs| == |r| && forall j :: 0 <= j < |r| ==> xs[j] == r[j].stop
  {
    seq(|r|, j requires 0 <= j < |r| => r[j].stop)
  }

  // ---------------------------------------------------------------------
  // scipy.ndimage.label + np.unique

  /** `s != 0`, the foreground `scipy.ndimage.label` sees. */
  function NonZero(s: seq<int>): (m: seq<bool>)
    ensures |m| == |s| && forall k :: 0 <= k < |s| ==> (m[k] <==> s[k] != 0)
  {
    seq(|s|, k requires 0 <= k < |s| => s[k] != 0)
  }

  /** Whether background label 0 occurs, so that it is the first value `np.unique` reports. */
  predicate HasZero(s: seq<int>)
  {
    exists k :: 0 <= k < |s| && s[k] == 0
  }

  /** What `get_start_stop` returns: starts, inclusive stops, and `group_num`. */
  datatype StartStop = StartStop(starts: seq<int>, stops: seq<int>, groupNum: nat)

  /**
   * The runs that survive `labels_j[1:]`: all runs of non-zero entries when
   * a zero is present; none otherwise, since without a zero the first
   * unique label is the single run covering everything.
   */
  function LabelledRuns(labels: seq<int>): seq<Span>
  {
    if HasZero(labels) then RunsOf(NonZero(labels), true) else []
  }

  /** `get_start_stop(ref_kicks)`. */
  function GetStartStop(labels: seq<int>): (r: StartStop)
    ensures |r.starts| == |r.stops|
  {
    var runs := LabelledRuns(labels);
    StartStop(Starts(runs), Stops(runs), |RunsOf(NonZero(labels), true)|)
  }

  /**
   * When the labels contain a zero, `get_start_stop` lists the maximal runs of
   * non-zero labels, ordered and separated, each from a non-zero label not
   * preceded by one to a non-zero label not followed by one; the count is
   * the number of runs.
   */
  lemma GetStartStopWithZero(labels: seq<int>)
    requires HasZero(labels)
    ensures IsRuns(NonZero(labels), true, LabelledRuns(labels))
    ensures GetStartStop(labels).starts == Starts(LabelledRuns(labels))
    ensures GetStartStop(labels).stops == Stops(LabelledRuns(labels))
    ensures GetStartStop(labels).groupNum == |GetStartStop(labels).starts|
    ensures forall j :: 0 <= j < |LabelledRuns(labels)| ==>
              var sp := LabelledRuns(labels)[j];
              0 <= sp.start <= sp.stop < |labels| &&
              (forall i :: sp.start <= i <= sp.stop ==> labels[i] != 0) &&
              (sp.start == 0 || labels[sp.start - 1] == 0) &&
              (sp.stop == |labels| - 1 || labels[sp.stop + 1] == 0)
    ensures forall i :: 0 <= i < |labels| && labels[i] != 0 ==> Covered(LabelledRuns(labels), i)
  {
    RunsOfCorrect(NonZero(labels), true);
  }

  /** Without a zero the labels form at most one run, and `labels_j[1:]` drops it: no start is reported, although `group_num` counts it. */
  lemma GetStartStopWithoutZero(labels: seq<int>)
    requires !HasZero(labels)
    ensures GetStartStop(labels).starts == [] && GetStartStop(labels).stops == []
    ensures GetStartStop(labels).groupNum == (if |labels| == 0 then 0 else 1)
  {
    SingleRun(NonZero(labels), true);
  }

  /** A sequence holding only `v` is one run, from the first index to the last. */
  lemma {:induction false} SingleRun<T>(s: seq<T>, v: T)
    requires forall k :: 0 <= k < |s| ==> s[k] == v
    ensures RunsOf(s, v) == (if |s| == 0 then [] else [Span(0, |s| - 1)])
    decreases |s|
  {
    if |s| > 0 {
      SingleRun(s[..|s| - 1], v);
    }
  }

  /** A sequence without `v` has no run of `v`. */
  lemma {:induction false} NoRuns<T>(s: seq<T>, v: T)
    requires forall k :: 0 <= k < |s| ==> s[k] != v
    ensures RunsOf(s, v) == []
    decreases |s|
  {
    if |s| > 0 {
      NoRuns(s[..|s| - 1], v);
    }
  }

  /** A non-empty all-kick input, e.g. `[1, 1, 1]`, is reported with one run but no start. */
  lemma AllOnesLosesItsRun()
    ensures GetStartStop([1, 1, 1]) == StartStop([], [], 1)
  {
    GetStartStopWithoutZero([1, 1, 1]);
  }

  // ---------------------------------------------------------------------
  // np.diff / np.where (get_stacks)

  /** `np.diff(data, prepend=0, append=0)`: `n + 1` entries. */
  function Diff(data: seq<int>): (d: seq<int>)
    ensures |d| == |data| + 1
  {
    seq(|data| + 1, k requires 0 <= k <= |data| =>
      (if k < |data| then data[k] else 0) - (if k > 0 then data[k - 1] else 0))
  }

  /** `np.where(d == c)[0]`: the indices holding `c`, in increasing order. */
  function Where(d: seq<int>, c: int): seq<int>
    decreases |d|
  {
    if |d| == 0 then []
    else Where(d[..|d| - 1], c) + (if d[|d| - 1] == c then [|d| - 1] else [])
  }

  /** `Where` lists exactly the positions of `c`, strictly increasing. */
  lemma {:induction false} WhereCorrect(d: seq<int>, c: int)
    ensures Increasing(Where(d, c))
    ensures forall x :: x in Where(d, c) <==> 0 <= x < |d| && d[x] == c
    decreases |d|
  {
    if |d| > 0 {
      var p := d[..|d| - 1];
      WhereCorrect(p, c);
      WhereMembersStep(d, p, c);
      var w := Where(p, c);
      forall j | 0 <= j < |w|
        ensures w[j] < |d| - 1
      {
        assert w[j] in w;
      }
      IncreasingAppend(w, if d[|d| - 1] == c then [|d| - 1] else []);
    }
  }

  /** The members of `Where` grow by the last position exactly when it holds `c`. */
  lemma WhereMembersStep(d: seq<int>, p: seq<int>, c: int)
    requires |d| > 0 && p == d[..|d| - 1]
    requires forall x :: x in Where(p, c) <==> 0 <= x < |p| && p[x] == c
    ensures forall x :: x in Where(d, c) <==> 0 <= x < |d| && d[x] == c
  {
    var n := |d| - 1;
    var w, tail := Where(p, c), if d[n] == c then [n] else [];
    assert Where(d, c) == w + tail;
    forall x
      ensures x in Where(d, c) <==> 0 <= x < |d| && d[x] == c
    {
      assert x in w + tail <==> x in w || x in tail;
      if x == n {
        assert x !in w;
        assert x in tail <==> d[n] == c;
      } else if 0 <= x < n {
        assert p[x] == d[x];
        assert x !in tail;
      } else {
        assert x !in w && x !in tail;
      }
    }
  }

  /** Appending at most one index above every entry keeps a list increasing. */
  lemma IncreasingAppend(w: seq<int>, tail: seq<int>)
    requires Increasing(w) && |tail| <= 1
    requires forall j, k :: 0 <= j < |w| && 0 <= k < |tail| ==> w[j] < tail[k]
    ensures Increasing(w + tail)
  {
  }

  /** `np.stack((starts, ends), axis=1)` of `get_stacks`; stacking arrays of different lengths raises ValueError. */
  function GetStacks(data: seq<int>): (r: Result<seq<(int, int)>>)
    ensures r.Err? <==> |Where(Diff(data), 1)| != |Where(Diff(data), -1)|
    ensures r.Err? ==> r.error == ValueError
  {
    var starts, ends := Where(Diff(data), 1), Where(Diff(data), -1);
    if |starts| != |ends| then Err(ValueError)
    else Ok(seq(|starts|, k requires 0 <= k < |starts| => (starts[k], ends[k])))
  }

  /** Entries are 0 or 1. */
  predicate Binary(data: seq<int>)
  {
    forall k :: 0 <= k < |data| ==> data[k] == 0 || data[k] == 1
  }

  /** The stack of a run: its start and its exclusive end. */
  function Stack(sp: Span): (int, int)
  {
    (sp.start, sp.stop + 1)
  }

  /** Exclusive ends of a run list. */
  function Ends(r: seq<Span>): (xs: seq<int>)
    ensures |xs| == |r| && forall j :: 0 <= j < |r| ==> xs[j] == r[j].stop + 1
  {
    seq(|r|, j requires 0 <= j < |r| => r[j].stop + 1)
  }

  /** On 0/1 data the difference is 1 exactly at a run start and -1 exactly one past a run stop. */
  lemma DiffMarks(data: seq<int>, x: int)
    requires Binary(data) && 0 <= x <= |data|
    ensures Diff(data)[x] == 1 <==> x < |data| && data[x] == 1 && (x == 0 || data[x - 1] != 1)
    ensures Diff(data)[x] == -1 <==> 0 < x && data[x - 1] == 1 && (x == |data| || data[x] != 1)
  {
  }

  /** `np.where(diff == 1)` lists the starts of the runs of ones. */
  lemma WhereIsStarts(data: seq<int>)
    requires Binary(data)
    ensures Where(Diff(data), 1) == Starts(RunsOf(data, 1))
  {
    var r := RunsOf(data, 1);
    var d := Diff(data);
    RunsOfCorrect(data, 1);
    WhereCorrect(d, 1);
    RunsIncreaseOf(data, r);
    forall x
      ensures x in Where(d, 1) <==> x in Starts(r)
    {
      StartsOfRuns(data, 1, r, x);
      if 0 <= x <= |data| {
        DiffMarks(data, x);
      }
    }
    IncreasingUnique(Where(d, 1), Starts(r));
  }

  /** `np.where(diff == -1)` lists the exclusive ends of the runs of ones. */
  lemma WhereIsEnds(data: seq<int>)
    requires Binary(data)
    ensures Where(Diff(data), -1) == Ends(RunsOf(data, 1))
  {
    var r := RunsOf(data, 1);
    var d := Diff(data);
    RunsOfCorrect(data, 1);
    WhereCorrect(d, -1);
    RunsIncreaseOf(data, r);
    forall x
      ensures x in Where(d, -1) <==> x in Ends(r)
    {
      StopsOfRuns(data, 1, r, x - 1);
      if 0 <= x <= |data| {
        DiffMarks(data, x);
      }
    }
    IncreasingUnique(Where(d, -1), Ends(r));
  }

  /** The runs of a sequence have increasing starts, stops and ends. */
  lemma RunsIncreaseOf<T>(s: seq<T>, r: seq<Span>)
    requires Separated(r) && InBounds(r, |s|)
    ensures Increasing(Starts(r)) && Increasing(Stops(r)) && Increasing(Ends(r))
  {
    forall j, k | 0 <= j < k < |r|
      ensures r[j].start < r[k].start && r[j].stop < r[k].stop
    {
      assert r[j].stop + 1 < r[k].start;
    }
  }

  /**
   * On 0/1 data, `get_stacks` succeeds and lists, in order, `(start, end)`
   * with `end` exclusive for each maximal run of ones.
   */
  lemma GetStacksOfBinary(data: seq<int>)
    requires Binary(data)
    ensures GetStacks(data).Ok?
    ensures |GetStacks(data).value| == |RunsOf(data, 1)|
    ensures forall k :: 0 <= k < |RunsOf(data, 1)| ==> GetStacks(data).value[k] == Stack(RunsOf(data, 1)[k])
  {
    WhereIsStarts(data);
    WhereIsEnds(data);
  }

  /** Where a zero is present, the two extractions agree: each stack is a `get_start_stop` run with its stop made exclusive. */
  lemma StacksMatchStartStop(data: seq<int>)
    requires Binary(data) && HasZero(data)
    ensures GetStacks(data).Ok?
    ensures |GetStacks(data).value| == |GetStartStop(data).starts|
    ensures forall k :: 0 <= k < |GetStacks(data).value| ==>
              GetStacks(data).value[k] == (GetStartStop(data).starts[k], GetStartStop(data).stops[k] + 1)
  {
    GetStacksOfBinary(data);
    assert NonZero(data) == seq(|data|, k requires 0 <= k < |data| => data[k] == 1);
    BinaryRunsAgree(data);
  }

  /** On 0/1 data, the runs of non-zero entries are the runs of ones. */
  lemma BinaryRunsAgree(data: seq<int>)
    requires Binary(data)
    ensures RunsOf(NonZero(data), true) == RunsOf(data, 1)
  {
    var m := NonZero(data);
    var a, b := RunsOf(m, true), RunsOf(data, 1);
    RunsOfCorrect(m, true);
    RunsOfCorrect(data, 1);
    RunsUnique(data, 1, m, true, a, b);
  }

  /**
   * Runs are determined by where the value occurs: two sequences of the same
   * length whose occurrences of `v` and `w` coincide have the same runs.
   */
  lemma RunsUnique<T, U>(s: seq<T>, v: T, t: seq<U>, w: U, a: seq<Span>, b: seq<Span>)
    requires |s| == |t| && forall k :: 0 <= k < |s| ==> (s[k] == v <==> t[k] == w)
    requires IsRuns(t, w, a) && IsRuns(s, v, b)
    ensures a == b
  {
    RunsTransfer(s, v, t, w, a);
    RunsDetermined(s, v, a, b);
  }

  /** Runs of `w` in `t` are runs of `v` in any `s` with the same occurrences. */
  lemma RunsTransfer<T, U>(s: seq<T>, v: T, t: seq<U>, w: U, a: seq<Span>)
    requires |s| == |t| && forall k :: 0 <= k < |s| ==> (s[k] == v <==> t[k] == w)
    requires IsRuns(t, w, a)
    ensures IsRuns(s, v, a)
  {
    forall i | 0 <= i < |s| && s[i] == v ensures Covered(a, i) {
      assert t[i] == w;
    }
  }

  /** A sequence has only one list of runs of a value. */
  lemma RunsDetermined<T>(s: seq<T>, v: T, a: seq<Span>, b: seq<Span>)
    requires IsRuns(s, v, a) && IsRuns(s, v, b)
    ensures a == b
  {
    RunsIncreaseOf(s, a);
    RunsIncreaseOf(s, b);
    forall x
      ensures x in Starts(a) <==> x in Starts(b)
    {
      StartsOfRuns(s, v, a, x);
      StartsOfRuns(s, v, b, x);
    }
    forall x
      ensures x in Stops(a) <==> x in Stops(b)
    {
      StopsOfRuns(s, v, a, x);
      StopsOfRuns(s, v, b, x);
    }
    IncreasingUnique(Starts(a), Starts(b));
    IncreasingUnique(Stops(a), Stops(b));
    assert |a| == |b|;
    forall j | 0 <= j < |a| ensures a[j] == b[j] {
      assert Starts(a)[j] == Starts(b)[j] && Stops(a)[j] == Stops(b)[j];
    }
  }
}
