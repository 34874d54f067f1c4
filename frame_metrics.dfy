/**
 * `frame_event_metrics` of `benchmarking/tests/fixtures/metric.py`, up to
 * its frame counts: the input checks, the four frame classes, the segments
 * built from the run starts and stops of the four class masks, the
 * insertion / merge / overfill and deletion / fragmenting / underfill
 * subcases and the frame counts and rates derived from them.
 *
 * The reference labels arrive already closed (the morphological closing is
 * not part of this model).
 */
module FrameMetrics {
  import opened PyOps
  import opened LabelRuns
  import opened Segments

  // ---------------------------------------------------------------------
  // Input checks

  /**
   * The checks as written: the second `isinstance` test looks at
   * `app_kicks` again, so a reference that is not an array only fails at
   * `ref_kicks.ndim`, with an `AttributeError`. On success the frame count.
   */
  function CheckInputsAsWritten(app: Arg, ref: Arg): (r: Result<int>)
    ensures r.Ok? <==> app.NdArray? && ref.NdArray? && |app.shape| == 1 && |ref.shape| == 1 && app.shape == ref.shape
  {
    if !app.NdArray? then Err(TypeError)
    else if !app.NdArray? then Err(TypeError)
    else if |app.shape| != 1 then Err(ValueError)
    else if !ref.NdArray? then Err(AttributeError)
    else if |ref.shape| != 1 then Err(ValueError)
    else if app.shape != ref.shape then Err(ValueError)
    else Ok(app.shape[0])
  }

  /** The checks with the second `isinstance` test applied to `ref_kicks`. */
  function CheckInputs(app: Arg, ref: Arg): (r: Result<int>)
    ensures r.Ok? <==> app.NdArray? && ref.NdArray? && |app.shape| == 1 && |ref.shape| == 1 && app.shape == ref.shape
    ensures r.Ok? ==> r.value == app.shape[0]
    ensures r.Err? ==> (r.error == TypeError <==> !app.NdArray? || !ref.NdArray?)
    ensures r.Err? ==> r.error in {TypeError, ValueError}
  {
    if !app.NdArray? then Err(TypeError)
    else if !ref.NdArray? then Err(TypeError)
    else if |app.shape| != 1 then Err(ValueError)
    else if |ref.shape| != 1 then Err(ValueError)
    else if app.shape != ref.shape then Err(ValueError)
    else Ok(app.shape[0])
  }

  /**
   * The two versions agree whenever the reference is an array; a
   * one-dimensional prediction array with a reference that is not an array
   * shows the difference: `AttributeError` instead of `TypeError`.
   */
  lemma SecondTypeCheckRetestsApp(app: Arg, ref: Arg)
    ensures ref.NdArray? ==> CheckInputsAsWritten(app, ref) == CheckInputs(app, ref)
    ensures CheckInputsAsWritten(NdArray([5]), NotAnArray) == Err(AttributeError)
    ensures CheckInputs(NdArray([5]), NotAnArray) == Err(TypeError)
  {
  }

  // ---------------------------------------------------------------------
  // Frame classes

  datatype FrameClass = TP | TN | FP | FN

  /** The masks `tp = (ref == 1) & (app == 1)`, `tn`, `fp` and `fn`. */
  predicate InClass(app: int, ref: int, c: FrameClass)
  {
    match c
    case TP => ref == 1 && app == 1
    case TN => ref == 0 && app == 0
    case FP => ref == 0 && app == 1
    case FN => ref == 1 && app == 0
  }

  /** The class of a frame whose prediction and label are both 0 or 1. */
  function ClassOf(app: int, ref: int): (c: FrameClass)
    requires (app == 0 || app == 1) && (ref == 0 || ref == 1)
    ensures InClass(app, ref, c)
  {
    if ref == 1 then (if app == 1 then TP else FN) else (if app == 1 then FP else TN)
  }

  /**
   * A frame lies in some class exactly when both its values are 0 or 1,
   * and then in only one.
   */
  lemma ExactlyOneClass(app: int, ref: int)
    ensures (exists c :: InClass(app, ref, c)) <==> (app == 0 || app == 1) && (ref == 0 || ref == 1)
    ensures forall c, d :: InClass(app, ref, c) && InClass(app, ref, d) ==> c == d
  {
    if (app == 0 || app == 1) && (ref == 0 || ref == 1) {
      assert InClass(app, ref, ClassOf(app, ref));
    }
  }

  /** The class of every frame. */
  function Classes(app: seq<int>, ref: seq<int>): (cls: seq<FrameClass>)
    requires |app| == |ref| && Binary(app) && Binary(ref)
    ensures |cls| == |app|
    ensures forall i :: 0 <= i < |app| ==> InClass(app[i], ref[i], cls[i])
  {
    seq(|app|, i requires 0 <= i < |app| => ClassOf(app[i], ref[i]))
  }

  /** One class mask as the integer array `scipy.ndimage.label` receives. */
  function Mask(app: seq<int>, ref: seq<int>, c: FrameClass): (m: seq<int>)
    requires |app| == |ref|
    ensures |m| == |app|
  {
    seq(|app|, i requires 0 <= i < |app| => if InClass(app[i], ref[i], c) then 1 else 0)
  }

  // ---------------------------------------------------------------------
  // Segments

  /** `tp_segment_start` and its three siblings: run starts of one class mask. */
  function ClassStarts(app: seq<int>, ref: seq<int>, c: FrameClass): seq<int>
    requires |app| == |ref|
  {
    GetStartStop(Mask(app, ref, c)).starts
  }

  /** `tp_segment_stop` and its three siblings: (inclusive) run stops of one class mask. */
  function ClassStops(app: seq<int>, ref: seq<int>, c: FrameClass): seq<int>
    requires |app| == |ref|
  {
    GetStartStop(Mask(app, ref, c)).stops
  }

  /** `segment_starts`: all run starts, concatenated and sorted. */
  function SegmentStarts(app: seq<int>, ref: seq<int>): seq<int>
    requires |app| == |ref|
  {
    Sort(ClassStarts(app, ref, TP) + ClassStarts(app, ref, TN) + ClassStarts(app, ref, FP) + ClassStarts(app, ref, FN))
  }

  /** `segment_stops`: all run stops, concatenated and sorted separately. */
  function SegmentStops(app: seq<int>, ref: seq<int>): seq<int>
    requires |app| == |ref|
  {
    Sort(ClassStops(app, ref, TP) + ClassStops(app, ref, TN) + ClassStops(app, ref, FP) + ClassStops(app, ref, FN))
  }

  /** Run starts and stops of a label array lie inside it. */
  lemma RunsInRange(labels: seq<int>)
    ensures forall x :: x in GetStartStop(labels).starts ==> 0 <= x < |labels|
    ensures forall x :: x in GetStartStop(labels).stops ==> 0 <= x < |labels|
  {
    if HasZero(labels) {
      GetStartStopWithZero(labels);
    } else {
      GetStartStopWithoutZero(labels);
    }
  }

  /** Sorting a list of indices below `n` gives a list of indices below `n`. */
  lemma SortInRange(s: seq<int>, n: int)
    requires forall x :: x in s ==> 0 <= x < n
    ensures forall k :: 0 <= k < |Sort(s)| ==> 0 <= Sort(s)[k] < n
  {
    forall k | 0 <= k < |Sort(s)|
      ensures 0 <= Sort(s)[k] < n
    {
      var x := Sort(s)[k];
      assert x in multiset(Sort(s));
      assert x in multiset(s);
      assert x in s;
    }
  }

  /** Every segment start and stop is a frame index, and there are as many stops as starts. */
  lemma SegmentsInRange(app: seq<int>, ref: seq<int>)
    requires |app| == |ref|
    ensures |SegmentStarts(app, ref)| == |SegmentStops(app, ref)|
    ensures forall k :: 0 <= k < |SegmentStarts(app, ref)| ==> 0 <= SegmentStarts(app, ref)[k] < |app|
    ensures forall k :: 0 <= k < |SegmentStops(app, ref)| ==> 0 <= SegmentStops(app, ref)[k] < |app|
  {
    RunsInRange(Mask(app, ref, TP));
    RunsInRange(Mask(app, ref, TN));
    RunsInRange(Mask(app, ref, FP));
    RunsInRange(Mask(app, ref, FN));
    SortInRange(ClassStarts(app, ref, TP) + ClassStarts(app, ref, TN) + ClassStarts(app, ref, FP) + ClassStarts(app, ref, FN), |app|);
    SortInRange(ClassStops(app, ref, TP) + ClassStops(app, ref, TN) + ClassStops(app, ref, FP) + ClassStops(app, ref, FN), |app|);
  }

  /** `tp_segment_index` and its siblings: the class of each segment, read at its start. */
  function SegmentIndex(app: seq<int>, ref: seq<int>, starts: seq<int>, c: FrameClass): (v: seq<bool>)
    requires |app| == |ref|
    requires forall k :: 0 <= k < |starts| ==> 0 <= starts[k] < |app|
    ensures |v| == |starts|
  {
    seq(|starts|, k requires 0 <= k < |starts| => InClass(app[starts[k]], ref[starts[k]], c))
  }

  /** Two frames of different classes. */
  ghost predicate TwoClasses(cls: seq<FrameClass>)
  {
    exists i, j :: 0 <= i < |cls| && 0 <= j < |cls| && cls[i] != cls[j]
  }

  /**
   * With frames of two classes every mask has a zero, so `label` and
   * `np.unique` see all its runs: the runs of the class in the frame
   * classes.
   */
  lemma ClassRunsAreRuns(app: seq<int>, ref: seq<int>, c: FrameClass)
    requires |app| == |ref| && Binary(app) && Binary(ref) && TwoClasses(Classes(app, ref))
    ensures HasZero(Mask(app, ref, c))
    ensures LabelledRuns(Mask(app, ref, c)) == RunsOf(Classes(app, ref), c)
    ensures ClassStarts(app, ref, c) == Starts(RunsOf(Classes(app, ref), c))
    ensures ClassStops(app, ref, c) == Stops(RunsOf(Classes(app, ref), c))
  {
    var cls, m := Classes(app, ref), Mask(app, ref, c);
    var i, j :| 0 <= i < |cls| && 0 <= j < |cls| && cls[i] != cls[j];
    forall k | 0 <= k < |cls|
      ensures cls[k] == c <==> NonZero(m)[k] == true
    {
      ExactlyOneClass(app[k], ref[k]);
    }
    if cls[i] != c {
      assert m[i] == 0;
    } else {
      assert m[j] == 0;
    }
    GetStartStopWithZero(m);
    RunsOfCorrect(cls, c);
    RunsUnique(cls, c, NonZero(m), true, LabelledRuns(m), RunsOf(cls, c));
  }

  /** `x` starts a run of class `c`. */
  predicate StartsClass(cls: seq<FrameClass>, x: int, c: FrameClass)
  {
    0 <= x < |cls| && cls[x] == c && (x == 0 || cls[x - 1] != c)
  }

  /** `x` ends a run of class `c`. */
  predicate StopsClass(cls: seq<FrameClass>, x: int, c: FrameClass)
  {
    0 <= x < |cls| && cls[x] == c && (x == |cls| - 1 || cls[x + 1] != c)
  }

  /**
   * With frames of two classes, one class's starts are the increasing
   * list of the frames that begin a run of the class, and its stops those
   * that end one.
   */
  lemma ClassStartsStops(app: seq<int>, ref: seq<int>, c: FrameClass)
    requires |app| == |ref| && Binary(app) && Binary(ref) && TwoClasses(Classes(app, ref))
    ensures forall x :: x in ClassStarts(app, ref, c) <==> StartsClass(Classes(app, ref), x, c)
    ensures forall x :: x in ClassStops(app, ref, c) <==> StopsClass(Classes(app, ref), x, c)
    ensures Increasing(ClassStarts(app, ref, c)) && Increasing(ClassStops(app, ref, c))
  {
    ClassRunsAreRuns(app, ref, c);
    RunBoundaries(Classes(app, ref), c);
  }

  /** The runs of one class begin and end exactly at that class's run boundaries, in increasing order. */
  lemma RunBoundaries(cls: seq<FrameClass>, c: FrameClass)
    ensures forall x :: x in Starts(RunsOf(cls, c)) <==> StartsClass(cls, x, c)
    ensures forall x :: x in Stops(RunsOf(cls, c)) <==> StopsClass(cls, x, c)
    ensures Increasing(Starts(RunsOf(cls, c))) && Increasing(Stops(RunsOf(cls, c)))
  {
    var r := RunsOf(cls, c);
    RunsOfCorrect(cls, c);
    forall x
      ensures x in Starts(r) <==> StartsClass(cls, x, c)
      ensures x in Stops(r) <==> StopsClass(cls, x, c)
    {
      StartsOfRuns(cls, c, r, x);
      StopsOfRuns(cls, c, r, x);
    }
    RunsIncreaseOf(cls, r);
  }

  /** At most one of four disjoint lists without repeats holds `v`. */
  lemma DisjointOnce(a: seq<int>, b: seq<int>, c: seq<int>, d: seq<int>, v: int)
    requires multiset(a)[v] <= 1 && multiset(b)[v] <= 1 && multiset(c)[v] <= 1 && multiset(d)[v] <= 1
    requires (v in a ==> v !in b && v !in c && v !in d) && (v in b ==> v !in c && v !in d) && (v in c ==> v !in d)
    ensures multiset(a + b + c + d)[v] <= 1
  {
    assert multiset(a + b + c + d) == multiset(a) + multiset(b) + multiset(c) + multiset(d);
    assert v in a <==> v in multiset(a);
    assert v in b <==> v in multiset(b);
    assert v in c <==> v in multiset(c);
    assert v in d <==> v in multiset(d);
  }

  /** Four increasing lists of run starts, one per class, hold the left boundaries once each. */
  lemma OnceEach(cls: seq<FrameClass>, a: seq<int>, b: seq<int>, c: seq<int>, d: seq<int>)
    requires forall x :: (x in a <==> StartsClass(cls, x, TP)) && (x in b <==> StartsClass(cls, x, TN))
    requires forall x :: (x in c <==> StartsClass(cls, x, FP)) && (x in d <==> StartsClass(cls, x, FN))
    requires Increasing(a) && Increasing(b) && Increasing(c) && Increasing(d)
    ensures forall x :: x in a + b + c + d <==> LeftBoundary(cls, x)
    ensures forall v :: multiset(a + b + c + d)[v] <= 1
  {
    forall v
      ensures multiset(a + b + c + d)[v] <= 1
    {
      IncreasingOnce(a, v);
      IncreasingOnce(b, v);
      IncreasingOnce(c, v);
      IncreasingOnce(d, v);
      DisjointOnce(a, b, c, d, v);
    }
  }

  /** Four increasing lists of run stops, one per class, hold the right boundaries once each. */
  lemma OnceEachStop(cls: seq<FrameClass>, a: seq<int>, b: seq<int>, c: seq<int>, d: seq<int>)
    requires forall x :: (x in a <==> StopsClass(cls, x, TP)) && (x in b <==> StopsClass(cls, x, TN))
    requires forall x :: (x in c <==> StopsClass(cls, x, FP)) && (x in d <==> StopsClass(cls, x, FN))
    requires Increasing(a) && Increasing(b) && Increasing(c) && Increasing(d)
    ensures forall x :: x in a + b + c + d <==> RightBoundary(cls, x)
    ensures forall v :: multiset(a + b + c + d)[v] <= 1
  {
    forall v
      ensures multiset(a + b + c + d)[v] <= 1
    {
      IncreasingOnce(a, v);
      IncreasingOnce(b, v);
      IncreasingOnce(c, v);
      IncreasingOnce(d, v);
      DisjointOnce(a, b, c, d, v);
    }
  }

  /** Sorting a list without repeats gives the increasing list of the same elements. */
  lemma SortDistinct(s: seq<int>)
    requires forall v :: multiset(s)[v] <= 1
    ensures Increasing(Sort(s))
    ensures forall x :: x in Sort(s) <==> x in s
  {
    SortSorted(s);
    SortedDistinct(Sort(s));
    forall x
      ensures x in Sort(s) <==> x in s
    {
      assert x in Sort(s) <==> x in multiset(Sort(s));
      assert x in s <==> x in multiset(s);
    }
  }

  /**
   * With frames of two classes, the sorted starts and the separately
   * sorted stops pair up into the maximal same-class segments, which tile
   * all frames, and the segment masks give each segment its class.
   */
  lemma SegmentsTile(app: seq<int>, ref: seq<int>)
    requires |app| == |ref| && Binary(app) && Binary(ref) && TwoClasses(Classes(app, ref))
    ensures Tiles(Classes(app, ref), SegmentStarts(app, ref), SegmentStops(app, ref))
    ensures |SegmentStarts(app, ref)| >= 2
  {
    var cls := Classes(app, ref);
    SegmentStartsAreLeftBoundaries(app, ref);
    SegmentStopsAreRightBoundaries(app, ref);
    BoundariesTile(cls, SegmentStarts(app, ref), SegmentStops(app, ref));
    var i, j :| 0 <= i < |cls| && 0 <= j < |cls| && cls[i] != cls[j];
    TwoValuesTwoSegments(cls, SegmentStarts(app, ref), SegmentStops(app, ref), i, j);
  }

  /** The sorted run starts of the four classes are the left segment boundaries, in increasing order. */
  lemma SegmentStartsAreLeftBoundaries(app: seq<int>, ref: seq<int>)
    requires |app| == |ref| && Binary(app) && Binary(ref) && TwoClasses(Classes(app, ref))
    ensures Increasing(SegmentStarts(app, ref))
    ensures forall x :: x in SegmentStarts(app, ref) <==> LeftBoundary(Classes(app, ref), x)
  {
    ClassStartsStops(app, ref, TP);
    ClassStartsStops(app, ref, TN);
    ClassStartsStops(app, ref, FP);
    ClassStartsStops(app, ref, FN);
    var a, b, c, d := ClassStarts(app, ref, TP), ClassStarts(app, ref, TN), ClassStarts(app, ref, FP), ClassStarts(app, ref, FN);
    OnceEach(Classes(app, ref), a, b, c, d);
    SortDistinct(a + b + c + d);
  }

  /** The sorted run stops of the four classes are the right segment boundaries, in increasing order. */
  lemma SegmentStopsAreRightBoundaries(app: seq<int>, ref: seq<int>)
    requires |app| == |ref| && Binary(app) && Binary(ref) && TwoClasses(Classes(app, ref))
    ensures Increasing(SegmentStops(app, ref))
    ensures forall x :: x in SegmentStops(app, ref) <==> RightBoundary(Classes(app, ref), x)
  {
    ClassStartsStops(app, ref, TP);
    ClassStartsStops(app, ref, TN);
    ClassStartsStops(app, ref, FP);
    ClassStartsStops(app, ref, FN);
    var e, f, g, h := ClassStops(app, ref, TP), ClassStops(app, ref, TN), ClassStops(app, ref, FP), ClassStops(app, ref, FN);
    OnceEachStop(Classes(app, ref), e, f, g, h);
    SortDistinct(e + f + g + h);
  }

  /** The segment masks name each segment's class. */
  lemma SegmentIndexIsClass(app: seq<int>, ref: seq<int>, starts: seq<int>, c: FrameClass)
    requires |app| == |ref| && Binary(app) && Binary(ref)
    requires forall k :: 0 <= k < |starts| ==> 0 <= starts[k] < |app|
    ensures forall k :: 0 <= k < |starts| ==> (SegmentIndex(app, ref, starts, c)[k] <==> Classes(app, ref)[starts[k]] == c)
  {
    forall k | 0 <= k < |starts|
      ensures SegmentIndex(app, ref, starts, c)[k] <==> Classes(app, ref)[starts[k]] == c
    {
      ExactlyOneClass(app[starts[k]], ref[starts[k]]);
    }
  }

  // ---------------------------------------------------------------------
  // Subcases

  /** `a | b`, element by element. */
  function Or(a: seq<bool>, b: seq<bool>): (r: seq<bool>)
    requires |a| == |b|
    ensures |r| == |a|
  {
    seq(|a|, k requires 0 <= k < |a| => a[k] || b[k])
  }

  /**
   * Insertion (for FP) and deletion (for FN): a segment of the class whose
   * neighbours (one at either end of the list) are both of the `other`
   * classes.
   */
  function Isolated(x: seq<bool>, other: seq<bool>): (r: seq<bool>)
    requires |x| == |other| >= 2
    ensures |r| == |x|
  {
    var m := |x|;
    [x[0] && other[1]] +
    seq(m - 2, k requires 0 <= k < m - 2 => x[k + 1] && other[k] && other[k + 2]) +
    [x[m - 1] && other[m - 2]]
  }

  /** Merge (for FP) and fragmenting (for FN): an inner segment between two TP segments. */
  function Between(x: seq<bool>, tp: seq<bool>): (r: seq<bool>)
    requires |x| == |tp| >= 2
    ensures |r| == |x|
  {
    var m := |x|;
    [false] + seq(m - 2, k requires 0 <= k < m - 2 => x[k + 1] && tp[k] && tp[k + 2]) + [false]
  }

  /** Overfill / underfill alpha: a segment just before a TP segment, not after one. */
  function Leading(x: seq<bool>, other: seq<bool>, tp: seq<bool>): (r: seq<bool>)
    requires |x| == |other| == |tp| >= 2
    ensures |r| == |x|
  {
    var m := |x|;
    [x[0] && tp[1]] + seq(m - 2, k requires 0 <= k < m - 2 => x[k + 1] && other[k] && tp[k + 2]) + [false]
  }

  /** Overfill / underfill omega: a segment just after a TP segment, not before one. */
  function Trailing(x: seq<bool>, other: seq<bool>, tp: seq<bool>): (r: seq<bool>)
    requires |x| == |other| == |tp| >= 2
    ensures |r| == |x|
  {
    var m := |x|;
    [false] + seq(m - 2, k requires 0 <= k < m - 2 => x[k + 1] && tp[k] && other[k + 2]) + [x[m - 1] && tp[m - 2]]
  }

  /** The mask of the segments of class `c`. */
  function IsClass(segs: seq<FrameClass>, c: FrameClass): (v: seq<bool>)
    ensures |v| == |segs|
  {
    seq(|segs|, k requires 0 <= k < |segs| => segs[k] == c)
  }

  function B(b: bool): int
  {
    if b then 1 else 0
  }

  /** Neighbouring segments have different classes. */
  predicate Alternating(segs: seq<FrameClass>)
  {
    forall j, k :: 0 <= j < |segs| && 0 <= k < |segs| && k == j + 1 ==> segs[j] != segs[k]
  }

  /**
   * With at least two segments and neighbours of different classes, every
   * FP segment is exactly one of insertion, merge, overfill alpha and
   * overfill omega, and no other segment is any of them.
   */
  lemma FpSubcasesPartition(segs: seq<FrameClass>)
    requires |segs| >= 2 && Alternating(segs)
    ensures var tp, tn, fp, fn := IsClass(segs, TP), IsClass(segs, TN), IsClass(segs, FP), IsClass(segs, FN);
            var other := Or(tn, fn);
            forall k :: 0 <= k < |segs| ==>
              B(Isolated(fp, other)[k]) + B(Between(fp, tp)[k]) + B(Leading(fp, other, tp)[k]) + B(Trailing(fp, other, tp)[k]) ==
              B(segs[k] == FP)
  {
    var tp, tn, fp, fn := IsClass(segs, TP), IsClass(segs, TN), IsClass(segs, FP), IsClass(segs, FN);
    var other := Or(tn, fn);
    forall k | 0 <= k < |segs|
      ensures B(Isolated(fp, other)[k]) + B(Between(fp, tp)[k]) + B(Leading(fp, other, tp)[k]) + B(Trailing(fp, other, tp)[k]) ==
              B(segs[k] == FP)
    {
      SubcaseAt(segs, fp, other, tp, FP, k);
    }
  }

  /**
   * The same for FN segments: exactly one of deletion, fragmenting,
   * underfill alpha and underfill omega.
   */
  lemma FnSubcasesPartition(segs: seq<FrameClass>)
    requires |segs| >= 2 && Alternating(segs)
    ensures var tp, tn, fp, fn := IsClass(segs, TP), IsClass(segs, TN), IsClass(segs, FP), IsClass(segs, FN);
            var other := Or(tn, fp);
            forall k :: 0 <= k < |segs| ==>
              B(Isolated(fn, other)[k]) + B(Between(fn, tp)[k]) + B(Leading(fn, other, tp)[k]) + B(Trailing(fn, other, tp)[k]) ==
              B(segs[k] == FN)
  {
    var tp, tn, fp, fn := IsClass(segs, TP), IsClass(segs, TN), IsClass(segs, FP), IsClass(segs, FN);
    var other := Or(tn, fp);
    forall k | 0 <= k < |segs|
      ensures B(Isolated(fn, other)[k]) + B(Between(fn, tp)[k]) + B(Leading(fn, other, tp)[k]) + B(Trailing(fn, other, tp)[k]) ==
              B(segs[k] == FN)
    {
      SubcaseAt(segs, fn, other, tp, FN, k);
    }
  }

  /** One position of the subcase partition, for class `c` with `other` the two classes that are neither `c` nor TP. */
  lemma SubcaseAt(segs: seq<FrameClass>, x: seq<bool>, other: seq<bool>, tp: seq<bool>, c: FrameClass, k: nat)
    requires |segs| >= 2 && Alternating(segs) && c != TP && k < |segs|
    requires x == IsClass(segs, c) && tp == IsClass(segs, TP) && |other| == |segs|
    requires forall i :: 0 <= i < |segs| ==> (other[i] <==> segs[i] != c && segs[i] != TP)
    ensures B(Isolated(x, other)[k]) + B(Between(x, tp)[k]) + B(Leading(x, other, tp)[k]) + B(Trailing(x, other, tp)[k]) ==
            B(segs[k] == c)
  {
    if 0 < k < |segs| - 1 {
      InnerSubcaseAt(segs, x, other, tp, c, k);
    } else {
      assert segs[0] != segs[1] && segs[|segs| - 2] != segs[|segs| - 1];
    }
  }

  /** `SubcaseAt` away from both ends: the neighbours decide the one subcase. */
  lemma InnerSubcaseAt(segs: seq<FrameClass>, x: seq<bool>, other: seq<bool>, tp: seq<bool>, c: FrameClass, k: nat)
    requires |segs| >= 2 && Alternating(segs) && c != TP && 0 < k < |segs| - 1
    requires x == IsClass(segs, c) && tp == IsClass(segs, TP) && |other| == |segs|
    requires forall i :: 0 <= i < |segs| ==> (other[i] <==> segs[i] != c && segs[i] != TP)
    ensures B(Isolated(x, other)[k]) + B(Between(x, tp)[k]) + B(Leading(x, other, tp)[k]) + B(Trailing(x, other, tp)[k]) ==
            B(segs[k] == c)
  {
    assert segs[k - 1] != segs[k] && segs[k] != segs[k + 1];
    InnerNeighbours(x, other, tp, k);
  }

  /** Away from both ends, each subcase mask looks at the segment and its two neighbours. */
  lemma InnerNeighbours(x: seq<bool>, other: seq<bool>, tp: seq<bool>, k: int)
    requires |x| == |other| == |tp| >= 2 && 0 < k < |x| - 1
    ensures Isolated(x, other)[k] == (x[k] && other[k - 1] && other[k + 1])
    ensures Between(x, tp)[k] == (x[k] && tp[k - 1] && tp[k + 1])
    ensures Leading(x, other, tp)[k] == (x[k] && other[k - 1] && tp[k + 1])
    ensures Trailing(x, other, tp)[k] == (x[k] && tp[k - 1] && other[k + 1])
  {
  }

  // ---------------------------------------------------------------------
  // Frame counts

  /** The `"Conf"` frame counts. */
  datatype FrameCounts = FrameCounts(
    tp: int, tn: int,
    insertion: int, merge: int, overfillBegin: int, overfillEnd: int,
    deletion: int, fragmenting: int, underfillBegin: int, underfillEnd: int)

  /** `negatives_count`. */
  function Negatives(c: FrameCounts): int
  {
    c.insertion + c.merge + c.overfillBegin + c.overfillEnd + c.tn
  }

  /** `positives_count`. */
  function Positives(c: FrameCounts): int
  {
    c.deletion + c.fragmenting + c.underfillBegin + c.underfillEnd + c.tp
  }

  /** `tpr = 1 - (dr + fr + u_alpha + u_omega)`; NaN (`None`) when there are no positives. */
  function Tpr(c: FrameCounts): Option<real>
  {
    var p := Positives(c) as real;
    if Positives(c) == 0 then None
    else Some(1.0 - (c.deletion as real / p + c.fragmenting as real / p + c.underfillBegin as real / p + c.underfillEnd as real / p))
  }

  /** `fpr = ir + mr + o_alpha + o_omega`; NaN (`None`) when there are no negatives. */
  function Fpr(c: FrameCounts): Option<real>
  {
    var n := Negatives(c) as real;
    if Negatives(c) == 0 then None
    else Some(c.insertion as real / n + c.merge as real / n + c.overfillBegin as real / n + c.overfillEnd as real / n)
  }

  /** Some segment mask holds anywhere: `np.any(tp | tn | fp | fn)`. */
  predicate AnySegment(tp: seq<bool>, tn: seq<bool>, fp: seq<bool>, fn: seq<bool>)
    requires |tp| == |tn| == |fp| == |fn|
  {
    exists k :: 0 <= k < |tp| && (tp[k] || tn[k] || fp[k] || fn[k])
  }

  /**
   * The frame and segment part of `frame_event_metrics` for prediction
   * `app` and closed labels `ref` of the same length: `None` for the
   * warned-about empty case, `IndexError` when the subcase formulas read
   * past a single segment.
   */
  function FrameEventCounts(app: seq<int>, ref: seq<int>): (r: Result<Option<FrameCounts>>)
    requires |app| == |ref|
    ensures r.Err? ==> r.error == IndexError && |SegmentStarts(app, ref)| < 2
    ensures Binary(app) && Binary(ref) && r.Ok? && r.value.Some? ==>
            r.value.value.tp == Count(Classes(app, ref), TP) && r.value.value.tn == Count(Classes(app, ref), TN)
  {
    SegmentsInRange(app, ref);
    var _ := if Binary(app) && Binary(ref) then MaskCounts(app, ref, TP); MaskCounts(app, ref, TN); 0 else 0;
    var starts, stops := SegmentStarts(app, ref), SegmentStops(app, ref);
    var tp, tn := SegmentIndex(app, ref, starts, TP), SegmentIndex(app, ref, starts, TN);
    var fp, fn := SegmentIndex(app, ref, starts, FP), SegmentIndex(app, ref, starts, FN);
    if !AnySegment(tp, tn, fp, fn) then Ok(None)
    else if |starts| < 2 then Err(IndexError)
    else Ok(Some(Tally(IntSum(Mask(app, ref, TP)), IntSum(Mask(app, ref, TN)), starts, stops, tp, tn, fp, fn)))
  }

  /**
   * The counts from the TP and TN frame sums and the four segment masks:
   * each subcase sums the frames of its segments.
   */
  function Tally(tpFrames: int, tnFrames: int, starts: seq<int>, stops: seq<int>,
                 tp: seq<bool>, tn: seq<bool>, fp: seq<bool>, fn: seq<bool>): FrameCounts
    requires |starts| == |stops| == |tp| == |tn| == |fp| == |fn| >= 2
  {
    var fpOther, fnOther := Or(tn, fn), Or(tn, fp);
    FrameCounts(
      tpFrames, tnFrames,
      SumWhere(starts, stops, Isolated(fp, fpOther)), SumWhere(starts, stops, Between(fp, tp)),
      SumWhere(starts, stops, Leading(fp, fpOther, tp)), SumWhere(starts, stops, Trailing(fp, fpOther, tp)),
      SumWhere(starts, stops, Isolated(fn, fnOther)), SumWhere(starts, stops, Between(fn, tp)),
      SumWhere(starts, stops, Leading(fn, fnOther, tp)), SumWhere(starts, stops, Trailing(fn, fnOther, tp)))
  }

  // ---------------------------------------------------------------------
  // What the counts mean

  /** A 0/1 indicator array sums to the number of positions it marks. */
  lemma {:induction false} IndicatorSum<T>(m: seq<int>, s: seq<T>, c: T)
    requires |m| == |s|
    requires forall k :: 0 <= k < |m| ==> m[k] == (if s[k] == c then 1 else 0)
    ensures IntSum(m) == Count(s, c)
    decreases |m|
  {
    if |m| > 0 {
      var n := |m| - 1;
      assert m == m[..n] + [m[n]];
      IntSumAppend(m[..n], [m[n]]);
      assert IntSum([m[n]]) == m[n] + IntSum([]);
      IndicatorSum(m[..n], s[..n], c);
      assert s[..n] == s[..|s| - 1];
    }
  }

  /** `np.sum` of a class mask is the number of frames of that class. */
  lemma MaskCounts(app: seq<int>, ref: seq<int>, c: FrameClass)
    requires |app| == |ref| && Binary(app) && Binary(ref)
    ensures IntSum(Mask(app, ref, c)) == Count(Classes(app, ref), c)
  {
    forall k | 0 <= k < |app|
      ensures Mask(app, ref, c)[k] == (if Classes(app, ref)[k] == c then 1 else 0)
    {
      ExactlyOneClass(app[k], ref[k]);
    }
    IndicatorSum(Mask(app, ref, c), Classes(app, ref), c);
  }

  /** FP and TN frames are the labels' zeros, TP and FN frames their ones. */
  lemma {:induction false} ClassesSplitRef(cls: seq<FrameClass>, ref: seq<int>)
    requires |cls| == |ref|
    requires forall k :: 0 <= k < |cls| ==>
               (ref[k] == 0 <==> cls[k] == FP || cls[k] == TN) && (ref[k] == 1 <==> cls[k] == TP || cls[k] == FN)
    ensures Count(cls, FP) + Count(cls, TN) == Count(ref, 0)
    ensures Count(cls, TP) + Count(cls, FN) == Count(ref, 1)
    decreases |cls|
  {
    if |cls| > 0 {
      var n := |cls| - 1;
      ClassesSplitRef(cls[..n], ref[..n]);
    }
  }

  /** The class of each segment, read at its start. */
  function SegmentClasses(cls: seq<FrameClass>, starts: seq<int>): (segs: seq<FrameClass>)
    requires forall k :: 0 <= k < |starts| ==> 0 <= starts[k] < |cls|
    ensures |segs| == |starts|
  {
    seq(|starts|, k requires 0 <= k < |starts| => cls[starts[k]])
  }

  /** If all frames share one class, no class mask reports a run start. */
  lemma UniformNoStarts(app: seq<int>, ref: seq<int>, c: FrameClass)
    requires |app| == |ref| && Binary(app) && Binary(ref) && !TwoClasses(Classes(app, ref))
    ensures ClassStarts(app, ref, c) == []
  {
    var cls, m := Classes(app, ref), Mask(app, ref, c);
    if HasZero(m) {
      var i :| 0 <= i < |m| && m[i] == 0;
      forall k | 0 <= k < |m|
        ensures NonZero(m)[k] != true
      {
        assert cls[k] == cls[i];
        ExactlyOneClass(app[k], ref[k]);
      }
      NoRuns(NonZero(m), true);
    } else {
      GetStartStopWithoutZero(m);
    }
  }

  /**
   * For 0/1 inputs the frame part never fails: it reports nothing exactly
   * when all frames share one class (an empty input included), and counts
   * otherwise.
   */
  lemma FrameEventCountsCases(app: seq<int>, ref: seq<int>)
    requires |app| == |ref| && Binary(app) && Binary(ref)
    ensures FrameEventCounts(app, ref).Ok?
    ensures FrameEventCounts(app, ref).value.None? <==> !TwoClasses(Classes(app, ref))
  {
    var cls := Classes(app, ref);
    SegmentsInRange(app, ref);
    var starts := SegmentStarts(app, ref);
    var tp, tn := SegmentIndex(app, ref, starts, TP), SegmentIndex(app, ref, starts, TN);
    var fp, fn := SegmentIndex(app, ref, starts, FP), SegmentIndex(app, ref, starts, FN);
    if TwoClasses(cls) {
      SegmentsTile(app, ref);
      SegmentIndexIsClass(app, ref, starts, TP);
      SegmentIndexIsClass(app, ref, starts, TN);
      SegmentIndexIsClass(app, ref, starts, FP);
      SegmentIndexIsClass(app, ref, starts, FN);
      assert tp[0] || tn[0] || fp[0] || fn[0];
      assert AnySegment(tp, tn, fp, fn);
    } else {
      UniformNoStarts(app, ref, TP);
      UniformNoStarts(app, ref, TN);
      UniformNoStarts(app, ref, FP);
      UniformNoStarts(app, ref, FN);
      assert starts == [];
    }
  }

  /**
   * Over any tiling into at least two segments whose neighbours differ in
   * class, the four FP subcases share out the FP frames and the four FN
   * subcases the FN frames, with no frame counted twice.
   */
  lemma TallyPartition(cls: seq<FrameClass>, starts: seq<int>, stops: seq<int>, tpFrames: int, tnFrames: int)
    requires Tiles(cls, starts, stops) && |starts| >= 2
    ensures var segs := SegmentClasses(cls, starts);
            var fc := Tally(tpFrames, tnFrames, starts, stops, IsClass(segs, TP), IsClass(segs, TN), IsClass(segs, FP), IsClass(segs, FN));
            fc.insertion + fc.merge + fc.overfillBegin + fc.overfillEnd == Count(cls, FP) &&
            fc.deletion + fc.fragmenting + fc.underfillBegin + fc.underfillEnd == Count(cls, FN)
  {
    var segs := SegmentClasses(cls, starts);
    var tp, tn, fp, fn := IsClass(segs, TP), IsClass(segs, TN), IsClass(segs, FP), IsClass(segs, FN);
    assert Alternating(segs);
    FpSubcasesPartition(segs);
    FnSubcasesPartition(segs);
    var fpOther, fnOther := Or(tn, fn), Or(tn, fp);
    SumWhereSplit(starts, stops, fp, Isolated(fp, fpOther), Between(fp, tp), Leading(fp, fpOther, tp), Trailing(fp, fpOther, tp));
    SumWhereSplit(starts, stops, fn, Isolated(fn, fnOther), Between(fn, tp), Leading(fn, fnOther, tp), Trailing(fn, fnOther, tp));
    SegmentFrames(cls, starts, stops, fp, FP);
    SegmentFrames(cls, starts, stops, fn, FN);
  }

  /** With frames of two classes, the counts are the tally over the segments' classes. */
  lemma FrameEventCountsTally(app: seq<int>, ref: seq<int>)
    requires |app| == |ref| && Binary(app) && Binary(ref) && TwoClasses(Classes(app, ref))
    ensures Tiles(Classes(app, ref), SegmentStarts(app, ref), SegmentStops(app, ref)) && |SegmentStarts(app, ref)| >= 2
    ensures var segs := SegmentClasses(Classes(app, ref), SegmentStarts(app, ref));
            FrameEventCounts(app, ref) ==
              Ok(Some(Tally(IntSum(Mask(app, ref, TP)), IntSum(Mask(app, ref, TN)), SegmentStarts(app, ref), SegmentStops(app, ref),
                            IsClass(segs, TP), IsClass(segs, TN), IsClass(segs, FP), IsClass(segs, FN))))
  {
    FrameEventCountsCases(app, ref);
    SegmentsInRange(app, ref);
    SegmentsTile(app, ref);
    SegmentMask(app, ref, TP);
    SegmentMask(app, ref, TN);
    SegmentMask(app, ref, FP);
    SegmentMask(app, ref, FN);
  }

  /** The segment mask of a class is the mask of the segments of that class. */
  lemma SegmentMask(app: seq<int>, ref: seq<int>, c: FrameClass)
    requires |app| == |ref| && Binary(app) && Binary(ref)
    requires forall k :: 0 <= k < |SegmentStarts(app, ref)| ==> 0 <= SegmentStarts(app, ref)[k] < |app|
    ensures SegmentIndex(app, ref, SegmentStarts(app, ref), c) ==
              IsClass(SegmentClasses(Classes(app, ref), SegmentStarts(app, ref)), c)
  {
    var starts := SegmentStarts(app, ref);
    SegmentIndexIsClass(app, ref, starts, c);
    var segs := SegmentClasses(Classes(app, ref), starts);
    assert forall k :: 0 <= k < |starts| ==> segs[k] == Classes(app, ref)[starts[k]];
  }

  /**
   * For 0/1 inputs with frames of two classes: `tp` and `tn` are the TP
   * and TN frame counts; the four FP subcases share out the FP frames and
   * the four FN subcases the FN frames, with no frame counted twice; so
   * the negatives are the labels' zeros and the positives their ones.
   */
  lemma FrameCountsMeaning(app: seq<int>, ref: seq<int>)
    requires |app| == |ref| && Binary(app) && Binary(ref) && TwoClasses(Classes(app, ref))
    ensures FrameEventCounts(app, ref).Ok? && FrameEventCounts(app, ref).value.Some?
    ensures var fc, cls := FrameEventCounts(app, ref).value.value, Classes(app, ref);
            fc.tp == Count(cls, TP) && fc.tn == Count(cls, TN) &&
            fc.insertion + fc.merge + fc.overfillBegin + fc.overfillEnd == Count(cls, FP) &&
            fc.deletion + fc.fragmenting + fc.underfillBegin + fc.underfillEnd == Count(cls, FN) &&
            Negatives(fc) == Count(ref, 0) && Positives(fc) == Count(ref, 1)
  {
    var cls := Classes(app, ref);
    FrameCountsClasses(app, ref);
    RefSplit(app, ref);
    var fc := FrameEventCounts(app, ref).value.value;
    CountsTotals(fc, Count(cls, TP), Count(cls, TN), Count(cls, FP), Count(cls, FN), Count(ref, 0), Count(ref, 1));
  }

  /** The counts per frame class, before they are added up. */
  lemma FrameCountsClasses(app: seq<int>, ref: seq<int>)
    requires |app| == |ref| && Binary(app) && Binary(ref) && TwoClasses(Classes(app, ref))
    ensures FrameEventCounts(app, ref).Ok? && FrameEventCounts(app, ref).value.Some?
    ensures var fc, cls := FrameEventCounts(app, ref).value.value, Classes(app, ref);
            fc.tp == Count(cls, TP) && fc.tn == Count(cls, TN) &&
            fc.insertion + fc.merge + fc.overfillBegin + fc.overfillEnd == Count(cls, FP) &&
            fc.deletion + fc.fragmenting + fc.underfillBegin + fc.underfillEnd == Count(cls, FN)
  {
    var cls := Classes(app, ref);
    FrameEventCountsTally(app, ref);
    TallyPartition(cls, SegmentStarts(app, ref), SegmentStops(app, ref), IntSum(Mask(app, ref, TP)), IntSum(Mask(app, ref, TN)));
    MaskCounts(app, ref, TP);
    MaskCounts(app, ref, TN);
  }

  lemma CountsTotals(fc: FrameCounts, tp: int, tn: int, fp: int, fn: int, zeros: int, ones: int)
    requires fc.tp == tp && fc.tn == tn
    requires fc.insertion + fc.merge + fc.overfillBegin + fc.overfillEnd == fp
    requires fc.deletion + fc.fragmenting + fc.underfillBegin + fc.underfillEnd == fn
    requires fp + tn == zeros && tp + fn == ones
    ensures Negatives(fc) == zeros && Positives(fc) == ones
  {
  }

  /** The label's zeros are the FP and TN frames, and its ones the TP and FN frames. */
  lemma RefSplit(app: seq<int>, ref: seq<int>)
    requires |app| == |ref| && Binary(app) && Binary(ref)
    ensures Count(Classes(app, ref), FP) + Count(Classes(app, ref), TN) == Count(ref, 0)
    ensures Count(Classes(app, ref), TP) + Count(Classes(app, ref), FN) == Count(ref, 1)
  {
    var cls := Classes(app, ref);
    forall k | 0 <= k < |cls|
      ensures (ref[k] == 0 <==> cls[k] == FP || cls[k] == TN) && (ref[k] == 1 <==> cls[k] == TP || cls[k] == FN)
    {
      assert cls[k] == ClassOf(app[k], ref[k]);
    }
    ClassesSplitRef(cls, ref);
  }

  /** Fractions over one denominator add up as their numerators. */
  lemma FractionSum(a: real, b: real, c: real, d: real, p: real)
    requires p != 0.0
    ensures a / p + b / p + c / p + d / p == (a + b + c + d) / p
  {
  }

  /** `x / p` lies in `[0, 1]` for `0 <= x <= p`. */
  lemma UnitFraction(x: real, p: real)
    requires 0.0 <= x <= p && p > 0.0
    ensures 0.0 <= x / p <= 1.0
  {
  }

  /** `1 - q / p` over a common denominator. */
  lemma OneMinusFraction(q: real, p: real)
    requires p != 0.0
    ensures 1.0 - q / p == (p - q) / p
  {
    FractionSum(q, p - q, 0.0, 0.0, p);
    assert p / p == 1.0;
  }

  /**
   * The rates in closed form: the true-positive rate is the TP share of the
   * positives and the false-positive rate the share of the negatives that
   * the FP subcases take.
   */
  lemma RatesClosedForm(fc: FrameCounts)
    ensures Positives(fc) != 0 ==> Tpr(fc) == Some(fc.tp as real / Positives(fc) as real)
    ensures Negatives(fc) != 0 ==>
              Fpr(fc) == Some((fc.insertion + fc.merge + fc.overfillBegin + fc.overfillEnd) as real / Negatives(fc) as real)
  {
    if Positives(fc) != 0 {
      var p := Positives(fc) as real;
      FractionSum(fc.deletion as real, fc.fragmenting as real, fc.underfillBegin as real, fc.underfillEnd as real, p);
      var q := (fc.deletion + fc.fragmenting + fc.underfillBegin + fc.underfillEnd) as real;
      assert q == fc.deletion as real + fc.fragmenting as real + fc.underfillBegin as real + fc.underfillEnd as real;
      assert p - q == fc.tp as real;
      OneMinusFraction(q, p);
    }
    if Negatives(fc) != 0 {
      var n := Negatives(fc) as real;
      var hit := fc.insertion as real / n + fc.merge as real / n + fc.overfillBegin as real / n + fc.overfillEnd as real / n;
      assert Fpr(fc) == Some(hit);
      FractionSum(fc.insertion as real, fc.merge as real, fc.overfillBegin as real, fc.overfillEnd as real, n);
      assert hit == (fc.insertion + fc.merge + fc.overfillBegin + fc.overfillEnd) as real / n;
    }
  }

  /**
   * Rates of counts whose TP frames are `tpc` of `p` positives and whose
   * FP subcases take `fpc` of `n` negatives.
   */
  lemma RatesOf(fc: FrameCounts, tpc: int, fpc: int, p: int, n: int)
    requires Positives(fc) == p && Negatives(fc) == n && fc.tp == tpc
    requires fc.insertion + fc.merge + fc.overfillBegin + fc.overfillEnd == fpc
    requires 0 <= tpc <= p && 0 <= fpc <= n
    ensures Tpr(fc).None? <==> p == 0
    ensures Tpr(fc).Some? ==> Tpr(fc).value == tpc as real / p as real && 0.0 <= Tpr(fc).value <= 1.0
    ensures Fpr(fc).None? <==> n == 0
    ensures Fpr(fc).Some? ==> Fpr(fc).value == fpc as real / n as real && 0.0 <= Fpr(fc).value <= 1.0
  {
    RatesClosedForm(fc);
    if p != 0 {
      UnitFraction(tpc as real, p as real);
    }
    if n != 0 {
      UnitFraction(fpc as real, n as real);
    }
  }

  /**
   * For 0/1 inputs with frames of two classes: the true-positive rate is
   * the fraction of label-1 frames predicted 1, the false-positive rate
   * the fraction of label-0 frames predicted 1, both in `[0, 1]`, and NaN
   * exactly when there are no label-1 (label-0) frames.
   */
  lemma RatesMeaning(app: seq<int>, ref: seq<int>)
    requires |app| == |ref| && Binary(app) && Binary(ref) && TwoClasses(Classes(app, ref))
    ensures FrameEventCounts(app, ref).Ok? && FrameEventCounts(app, ref).value.Some?
    ensures var fc, cls := FrameEventCounts(app, ref).value.value, Classes(app, ref);
            (Tpr(fc).None? <==> Count(ref, 1) == 0) &&
            (Tpr(fc).Some? ==> Tpr(fc).value == Count(cls, TP) as real / Count(ref, 1) as real && 0.0 <= Tpr(fc).value <= 1.0) &&
            (Fpr(fc).None? <==> Count(ref, 0) == 0) &&
            (Fpr(fc).Some? ==> Fpr(fc).value == Count(cls, FP) as real / Count(ref, 0) as real && 0.0 <= Fpr(fc).value <= 1.0)
  {
    FrameCountsMeaning(app, ref);
    var fc, cls := FrameEventCounts(app, ref).value.value, Classes(app, ref);
    RatesOf(fc, Count(cls, TP), Count(cls, FP), Count(ref, 1), Count(ref, 0));
  }
}
