/**
 * The label rules of the training data loader (`DataLoader` in
 * `traininng/utils.py`): the overlap test used while placing augmented
 * segments, the label update after they are placed, the argument checks of
 * `UpDownSample`, and the rule that labels each sliding window of a
 * recording in `DataLoad`.
 *
 * `get_start_stop` itself is `LabelRuns.GetStartStop`.
 */
module TrainingLabels {
  import opened PyOps
  import opened LabelRuns

  /** A placed segment `(segment_start, segment_end)`, both inclusive. */
  datatype Segment = Segment(start: int, end: int)

  // ---------------------------------------------------------------------
  // IsOverlapping

  /** The test inside `IsOverlapping`'s loop: `seg` reaches within `midBuffer` frames of `prev`. */
  predicate Near(seg: Segment, prev: Segment, midBuffer: int)
  {
    seg.start <= prev.end + midBuffer && seg.end >= prev.start - midBuffer
  }

  /** `IsOverlapping`: true as soon as one previous segment is near, false for none (and for an empty history). */
  method IsOverlapping(seg: Segment, previous: seq<Segment>, midBuffer: int) returns (overlap: bool)
    ensures overlap <==> exists k :: 0 <= k < |previous| && Near(seg, previous[k], midBuffer)
  {
    overlap := false;
    for k := 0 to |previous|
      invariant forall j :: 0 <= j < k ==> !Near(seg, previous[j], midBuffer)
    {
      var prev := previous[k];
      if seg.start <= prev.end + midBuffer && seg.end >= prev.start - midBuffer {
        overlap := true;
        return;
      }
    }
  }

  /** The larger start minus the smaller end: the frames strictly between two intervals, plus one; at most 0 when they intersect. */
  function Gap(a: Segment, b: Segment): int
  {
    (if a.start >= b.start then a.start else b.start) - (if a.end <= b.end then a.end else b.end)
  }

  /**
   * For proper segments and a non-negative margin, "near" means the two
   * segments intersect or leave at most `midBuffer - 1` frames between them;
   * in particular it is symmetric.
   */
  lemma NearIsSmallGap(a: Segment, b: Segment, midBuffer: int)
    requires a.start <= a.end && b.start <= b.end && midBuffer >= 0
    ensures Near(a, b, midBuffer) <==> Gap(a, b) <= midBuffer
    ensures Near(a, b, midBuffer) <==> Near(b, a, midBuffer)
  {
  }

  /** Two segments that share a frame are always near. */
  lemma IntersectingIsNear(a: Segment, b: Segment, midBuffer: int, f: int)
    requires a.start <= f <= a.end && b.start <= f <= b.end && midBuffer >= 0
    ensures Near(a, b, midBuffer)
  {
  }

  // ---------------------------------------------------------------------
  // AddAugmentedDataToBackground: the label update

  /** Frame `f` of an array of length `n` lies in `out_labels[s : e + 1]` for one of the first `m` segments. */
  predicate PaintedBy(times: seq<Segment>, m: int, f: int, n: nat)
    requires 0 <= m <= |times|
  {
    exists k :: 0 <= k < m && SliceBound(times[k].start, n) <= f < SliceBound(times[k].end + 1, n)
  }

  /**
   * The label half of `AddAugmentedDataToBackground`: a copy of `labels`
   * with `out_labels[s : e + 1] = 1` for every placed segment. The random
   * placement is the parameter `times`; `labels` itself is not modified.
   */
  method AddAugmentedLabels(labels: array<int>, times: seq<Segment>) returns (outLabels: array<int>)
    ensures fresh(outLabels) && outLabels.Length == labels.Length
    ensures forall f :: 0 <= f < outLabels.Length ==>
              outLabels[f] == (if PaintedBy(times, |times|, f, labels.Length) then 1 else labels[f])
  {
    var n := labels.Length;
    outLabels := new int[n](f requires 0 <= f < n reads labels => labels[f]);
    for k := 0 to |times|
      invariant forall f :: 0 <= f < n ==>
                  outLabels[f] == (if PaintedBy(times, k, f, n) then 1 else labels[f])
    {
      var lo, hi := SliceBound(times[k].start, n), SliceBound(times[k].end + 1, n);
      forall f | lo <= f < hi {
        outLabels[f] := 1;
      }
      forall f | 0 <= f < n
        ensures PaintedBy(times, k + 1, f, n) <==> PaintedBy(times, k, f, n) || lo <= f < hi
      {
        if lo <= f < hi {
          assert SliceBound(times[k].start, n) <= f < SliceBound(times[k].end + 1, n);
        }
      }
    }
  }

  /** For segments inside the array, a frame is painted exactly when some segment's `[start, end]` holds it. */
  lemma InRangePainting(times: seq<Segment>, f: int, n: nat)
    requires forall k :: 0 <= k < |times| ==> 0 <= times[k].start <= times[k].end < n
    ensures PaintedBy(times, |times|, f, n) <==> exists k :: 0 <= k < |times| && times[k].start <= f <= times[k].end
  {
    forall k | 0 <= k < |times|
      ensures (SliceBound(times[k].start, n) <= f < SliceBound(times[k].end + 1, n)) <==> times[k].start <= f <= times[k].end
    {
      SliceBoundCases(times[k].start, n);
      SliceBoundCases(times[k].end + 1, n);
    }
  }

  // ---------------------------------------------------------------------
  // UpDownSample: argument checks

  /** An `N x 2 x 2 x 32` raw-data shape. */
  predicate RawShapeOk(shape: seq<int>)
  {
    |shape| == 4 && shape[1] == 2 && shape[2] == 2 && shape[3] == 32
  }

  /**
   * The checks at the top of `UpDownSample`, in order. On success the
   * result is the number of frames `N`. The labels' `shape[0]` raises
   * IndexError for a zero-dimensional label array.
   */
  function UpDownSampleChecks(rawData: Arg, refKicks: Arg, kind: string): (r: Result<int>)
    ensures r.Ok? <==> rawData.NdArray? && refKicks.NdArray? && RawShapeOk(rawData.shape) &&
                       |refKicks.shape| > 0 && refKicks.shape[0] == rawData.shape[0] &&
                       (kind == "up" || kind == "down")
    ensures r.Ok? ==> r.value == rawData.shape[0]
    ensures r.Err? ==> (r.error == TypeError <==> !rawData.NdArray? || !refKicks.NdArray?)
    ensures r.Err? && r.error != TypeError ==>
              r.error == (if RawShapeOk(rawData.shape) && |refKicks.shape| == 0 then IndexError else ValueError)
  {
    if !rawData.NdArray? then Err(TypeError)
    else if !refKicks.NdArray? then Err(TypeError)
    else
      var s := rawData.shape;
      if |s| != 4 || s[1] != 2 || s[2] != 2 || s[|s| - 1] != 32 then Err(ValueError)
      else if |refKicks.shape| == 0 then Err(IndexError)
      else if s[0] != refKicks.shape[0] then Err(ValueError)
      else if kind != "up" && kind != "down" then Err(ValueError)
      else Ok(s[0])
  }

  // ---------------------------------------------------------------------
  // DataLoad: the window-labelling rule

  /** What happens to one sliding window: dropped, or kept with a label. */
  datatype WindowLabel = Dropped | Labelled(kick: int)

  /**
   * The rule applied to window `i` of length `split`, given the runs found
   * in it: a window with runs, other than the first and the last, is
   * labelled 1 if it holds exactly one run, the frames just outside it are
   * unlabelled and `stop - start >= min_duration`, and dropped otherwise;
   * every other window is kept with label 0.
   */
  function VerdictFrom(runs: seq<Span>, labels: seq<int>, i: int, split: nat, minDuration: int): (r: WindowLabel)
    requires 0 <= i && i + split <= |labels|
    ensures r.Labelled? ==> r.kick == 0 || r.kick == 1
    ensures r != Labelled(0) ==> |runs| > 0 && 0 < i < |labels| - split
  {
    if |runs| > 0 && i != 0 && i != |labels| - split then
      if |runs| > 1 || labels[i - 1] != 0 || labels[i + split] != 0 || runs[0].stop - runs[0].start < minDuration
      then Dropped
      else Labelled(1)
    else Labelled(0)
  }

  /** The window as written: its runs come from the `label`/`np.unique` idiom, which reports none for a window without a zero. */
  function WindowVerdictAsWritten(labels: seq<int>, i: int, split: nat, minDuration: int): (r: WindowLabel)
    requires 0 <= i && i + split <= |labels|
    ensures !HasZero(labels[i..i + split]) ==> r == Labelled(0)
  {
    VerdictFrom(LabelledRuns(labels[i..i + split]), labels, i, split, minDuration)
  }

  /** The window with its actual runs of labelled frames. */
  function WindowVerdict(labels: seq<int>, i: int, split: nat, minDuration: int): (r: WindowLabel)
    requires 0 <= i && i + split <= |labels|
    ensures r == Labelled(1) ==> 0 < i < |labels| - split && labels[i - 1] == 0 && labels[i + split] == 0
  {
    VerdictFrom(RunsOf(NonZero(labels[i..i + split]), true), labels, i, split, minDuration)
  }

  /** Ones of length `n`. */
  function Ones(n: nat): (s: seq<int>)
    ensures |s| == n && forall k :: 0 <= k < n ==> s[k] == 1
  {
    seq(n, k => 1)
  }

  /**
   * A kick of exactly `split` frames with unlabelled frames on both sides:
   * its window (the second one) holds no zero, so as written it is kept
   * with label 0 although it contains the whole kick; with the kick's run
   * it is labelled 1.
   */
  lemma WholeKickWindowAsWritten(split: nat, minDuration: int)
    requires split >= 1 && minDuration <= split - 1
    ensures WindowVerdictAsWritten([0] + Ones(split) + [0], 1, split, minDuration) == Labelled(0)
    ensures WindowVerdict([0] + Ones(split) + [0], 1, split, minDuration) == Labelled(1)
  {
    var labels := [0] + Ones(split) + [0];
    var w := labels[1..1 + split];
    assert w == Ones(split);
    assert !HasZero(w);
    SingleRun(NonZero(w), true);
  }

  /** The first and the last window are never dropped and always labelled 0, whatever they hold, under either rule. */
  lemma EdgeWindowsUnlabelled(labels: seq<int>, i: int, split: nat, minDuration: int)
    requires 0 <= i && i + split <= |labels|
    requires i == 0 || i == |labels| - split
    ensures WindowVerdictAsWritten(labels, i, split, minDuration) == Labelled(0)
    ensures WindowVerdict(labels, i, split, minDuration) == Labelled(0)
  {
  }

  /**
   * The interior of a longer kick: window `[1, 1]` of `[0, 1, 1, 1, 1, 0]`
   * has labelled frames on both sides, so its run does not lie inside it.
   * As written it holds no zero, loses its run and is kept as a window
   * without a kick; with its run it is dropped.
   */
  lemma KickInteriorAsWritten()
    ensures WindowVerdictAsWritten([0, 1, 1, 1, 1, 0], 2, 2, 1) == Labelled(0)
    ensures WindowVerdict([0, 1, 1, 1, 1, 0], 2, 2, 1) == Dropped
  {
    var labels := [0, 1, 1, 1, 1, 0];
    var w := labels[2..4];
    assert w == [1, 1];
    assert !HasZero(w);
    SingleRun(NonZero(w), true);
  }

  /** Frames `i .. i + split - 1` are all unlabelled. */
  predicate NoKickIn(labels: seq<int>, i: int, split: nat)
    requires 0 <= i && i + split <= |labels|
  {
    forall f :: i <= f < i + split ==> labels[f] == 0
  }

  /** Frames `i .. i + split - 1` are all labelled. */
  predicate AllKick(labels: seq<int>, i: int, split: nat)
    requires 0 <= i && i + split <= |labels|
  {
    forall f :: i <= f < i + split ==> labels[f] != 0
  }

  /** The window's own frames, read through the recording's indices. */
  lemma WindowFrames(labels: seq<int>, i: int, split: nat, w: seq<int>)
    requires 0 <= i && i + split <= |labels| && w == labels[i..i + split]
    ensures HasZero(w) <==> !AllKick(labels, i, split)
    ensures (forall k :: 0 <= k < |w| ==> w[k] == 0) <==> NoKickIn(labels, i, split)
  {
    assert forall k :: 0 <= k < split ==> w[k] == labels[i + k];
    if HasZero(w) {
      var k :| 0 <= k < |w| && w[k] == 0;
      assert labels[i + k] == 0;
    }
  }

  /**
   * Any other window as written: it is labelled 0 exactly when it holds no
   * labelled frame or no unlabelled one; labelled 1 exactly when it holds
   * an unlabelled frame and one maximal run of labelled frames, the frames
   * just before and after the window are unlabelled, and the run's
   * `stop - start` is at least `min_duration`; otherwise it is dropped.
   * When the window holds an unlabelled frame both rules agree.
   */
  lemma MiddleWindowVerdict(labels: seq<int>, i: int, split: nat, minDuration: int)
    requires 0 < i < |labels| - split
    ensures var w := labels[i..i + split];
            var runs := RunsOf(NonZero(w), true);
            IsRuns(NonZero(w), true, runs) &&
            (WindowVerdictAsWritten(labels, i, split, minDuration) == Labelled(1) <==>
               HasZero(w) && |runs| == 1 && labels[i - 1] == 0 && labels[i + split] == 0 &&
               runs[0].stop - runs[0].start >= minDuration)
    ensures WindowVerdictAsWritten(labels, i, split, minDuration) == Labelled(0) <==>
              NoKickIn(labels, i, split) || AllKick(labels, i, split)
    ensures WindowVerdictAsWritten(labels, i, split, minDuration) != Labelled(0) ==>
              WindowVerdictAsWritten(labels, i, split, minDuration) in {Dropped, Labelled(1)}
    ensures HasZero(labels[i..i + split]) ==>
              WindowVerdictAsWritten(labels, i, split, minDuration) == WindowVerdict(labels, i, split, minDuration)
  {
    MiddleWindowKick(labels, i, split, minDuration);
    MiddleWindowUnlabelled(labels, i, split, minDuration);
  }

  /** The labelled-1 half of MiddleWindowVerdict. */
  lemma MiddleWindowKick(labels: seq<int>, i: int, split: nat, minDuration: int)
    requires 0 < i < |labels| - split
    ensures var w := labels[i..i + split];
            var runs := RunsOf(NonZero(w), true);
            IsRuns(NonZero(w), true, runs) &&
            (WindowVerdictAsWritten(labels, i, split, minDuration) == Labelled(1) <==>
               HasZero(w) && |runs| == 1 && labels[i - 1] == 0 && labels[i + split] == 0 &&
               runs[0].stop - runs[0].start >= minDuration)
  {
    RunsOfCorrect(NonZero(labels[i..i + split]), true);
  }

  /** The labelled-0 half of MiddleWindowVerdict. */
  lemma MiddleWindowUnlabelled(labels: seq<int>, i: int, split: nat, minDuration: int)
    requires 0 < i < |labels| - split
    ensures WindowVerdictAsWritten(labels, i, split, minDuration) == Labelled(0) <==>
              NoKickIn(labels, i, split) || AllKick(labels, i, split)
  {
    var w := labels[i..i + split];
    NoRunsIffUnlabelled(w);
    WindowFrames(labels, i, split, w);
  }

  /**
   * Any other window under the intended rule: it is labelled 0 exactly when
   * it holds no labelled frame; labelled 1 exactly when it holds one
   * maximal run of labelled frames, the frames just before and after the
   * window are unlabelled, and the run's `stop - start` is at least
   * `min_duration`; otherwise it is dropped.
   */
  lemma MiddleWindowVerdictCorrected(labels: seq<int>, i: int, split: nat, minDuration: int)
    requires 0 < i < |labels| - split
    ensures var runs := RunsOf(NonZero(labels[i..i + split]), true);
            IsRuns(NonZero(labels[i..i + split]), true, runs) &&
            (WindowVerdict(labels, i, split, minDuration) == Labelled(1) <==>
               |runs| == 1 && labels[i - 1] == 0 && labels[i + split] == 0 &&
               runs[0].stop - runs[0].start >= minDuration)
    ensures WindowVerdict(labels, i, split, minDuration) == Labelled(0) <==> NoKickIn(labels, i, split)
    ensures WindowVerdict(labels, i, split, minDuration) != Labelled(0) ==>
              WindowVerdict(labels, i, split, minDuration) in {Dropped, Labelled(1)}
  {
    var w := labels[i..i + split];
    RunsOfCorrect(NonZero(w), true);
    NoRunsIffUnlabelled(w);
    WindowFrames(labels, i, split, w);
  }

  /** A sequence of labels has no run of labelled frames exactly when all its labels are 0. */
  lemma NoRunsIffUnlabelled(w: seq<int>)
    ensures |RunsOf(NonZero(w), true)| == 0 <==> forall k :: 0 <= k < |w| ==> w[k] == 0
  {
    var m := NonZero(w);
    var runs := RunsOf(m, true);
    RunsOfCorrect(m, true);
    if forall k :: 0 <= k < |w| ==> w[k] == 0 {
      NoRuns(m, true);
    } else {
      var k :| 0 <= k < |w| && w[k] != 0;
      assert m[k] && Covered(runs, k);
    }
  }

  /** The windows `DataLoad` keeps: their start frames and, separately, their labels. */
  datatype Windows = Windows(starts: seq<int>, labels: seq<int>)

  /** Which window rule a scan applies: the code's, or the one with the window's actual runs. */
  datatype Rule = AsWritten | Corrected

  /** The verdict of window `i` under `rule`. */
  function RuleVerdict(rule: Rule, labels: seq<int>, i: int, split: nat, minDuration: int): WindowLabel
    requires 0 <= i && i + split <= |labels|
  {
    if rule.AsWritten? then WindowVerdictAsWritten(labels, i, split, minDuration)
    else WindowVerdict(labels, i, split, minDuration)
  }

  /** The verdicts of the first `m` windows of a recording. */
  function VerdictsUpTo(rule: Rule, labels: seq<int>, split: nat, minDuration: int, m: nat): (vs: seq<WindowLabel>)
    requires m <= |labels| - split + 1
    ensures |vs| == m
    decreases m
  {
    if m == 0 then []
    else VerdictsUpTo(rule, labels, split, minDuration, m - 1) + [RuleVerdict(rule, labels, m - 1, split, minDuration)]
  }

  /** The verdict of every window of a recording; `DataLoad` applies `AsWritten`. */
  function Verdicts(rule: Rule, labels: seq<int>, split: nat, minDuration: int): (vs: seq<WindowLabel>)
    requires split <= |labels| + 1
    ensures |vs| == |labels| - split + 1
  {
    VerdictsUpTo(rule, labels, split, minDuration, |labels| - split + 1)
  }

  /** Entry `j` of the verdicts is the verdict of window `j` under the same rule. */
  lemma {:induction false} VerdictAt(rule: Rule, labels: seq<int>, split: nat, minDuration: int, m: nat, j: nat)
    requires j < m <= |labels| - split + 1
    ensures VerdictsUpTo(rule, labels, split, minDuration, m)[j] == RuleVerdict(rule, labels, j, split, minDuration)
    ensures rule.AsWritten? ==>
              VerdictsUpTo(rule, labels, split, minDuration, m)[j] == WindowVerdictAsWritten(labels, j, split, minDuration)
    ensures rule.Corrected? ==>
              VerdictsUpTo(rule, labels, split, minDuration, m)[j] == WindowVerdict(labels, j, split, minDuration)
    decreases m
  {
    if j < m - 1 {
      VerdictAt(rule, labels, split, minDuration, m - 1, j);
    }
  }

  /** Indices of the windows that are not dropped, in order. */
  function KeptStarts(vs: seq<WindowLabel>): seq<int>
    decreases |vs|
  {
    if |vs| == 0 then []
    else KeptStarts(vs[..|vs| - 1]) + (if vs[|vs| - 1].Dropped? then [] else [|vs| - 1])
  }

  /** Labels of the windows that are not dropped, in order. */
  function KeptLabels(vs: seq<WindowLabel>): seq<int>
    decreases |vs|
  {
    if |vs| == 0 then []
    else KeptLabels(vs[..|vs| - 1]) + (if vs[|vs| - 1].Dropped? then [] else [vs[|vs| - 1].kick])
  }

  /** One more verdict extends the kept starts by its index unless it is dropped, and leaves the earlier verdicts in place. */
  lemma KeptStartsStep(vs: seq<WindowLabel>, v: WindowLabel)
    ensures KeptStarts(vs + [v]) == KeptStarts(vs) + (if v.Dropped? then [] else [|vs|])
    ensures forall j :: 0 <= j < |vs| ==> (vs + [v])[j] == vs[j]
  {
    assert (vs + [v])[..|vs|] == vs;
  }

  /** One window of the scan keeps the dropped indices and the label array in step with the verdicts. */
  lemma ScanStep(vs: seq<WindowLabel>, vs': seq<WindowLabel>, v: WindowLabel, i: int,
                 delIdx: seq<int>, delIdx': seq<int>, curr: seq<int>, curr': seq<int>)
    requires |vs| == i < |curr| == |curr'| && vs' == vs + [v]
    requires delIdx' == if v.Dropped? then delIdx + [i] else delIdx
    requires forall j :: 0 <= j < |curr| ==> (j in delIdx <==> j < i && vs[j].Dropped?)
    requires forall j :: 0 <= j < |curr| ==> curr[j] == (if j < i && vs[j].Labelled? then vs[j].kick else 0)
    requires forall j :: 0 <= j < |curr| ==> curr'[j] == (if j == i && v.Labelled? then v.kick else curr[j])
    ensures forall j :: 0 <= j < |curr| ==> (j in delIdx' <==> j < i + 1 && vs'[j].Dropped?)
    ensures forall j :: 0 <= j < |curr| ==> curr'[j] == (if j < i + 1 && vs'[j].Labelled? then vs'[j].kick else 0)
  {
  }

  /** A dropped window loses both its data and its label: the two lists have the same length, the starts increase, and each label is its window's. */
  lemma {:induction false} KeptAgree(vs: seq<WindowLabel>)
    ensures |KeptStarts(vs)| == |KeptLabels(vs)|
    ensures Increasing(KeptStarts(vs))
    ensures forall k :: 0 <= k < |KeptStarts(vs)| ==>
              0 <= KeptStarts(vs)[k] < |vs| && vs[KeptStarts(vs)[k]] == Labelled(KeptLabels(vs)[k])
    ensures forall j :: 0 <= j < |vs| && !vs[j].Dropped? ==> j in KeptStarts(vs)
    decreases |vs|
  {
    if |vs| > 0 {
      var p := vs[..|vs| - 1];
      KeptAgree(p);
      assert forall j :: 0 <= j < |p| ==> p[j] == vs[j];
    }
  }

  /** The labels `DataLoad` keeps are 0 or 1, under either rule. */
  lemma KeptLabelsBinary(rule: Rule, labels: seq<int>, split: nat, minDuration: int)
    requires split <= |labels| + 1
    ensures forall k :: 0 <= k < |KeptLabels(Verdicts(rule, labels, split, minDuration))| ==>
              KeptLabels(Verdicts(rule, labels, split, minDuration))[k] in {0, 1}
  {
    var vs := Verdicts(rule, labels, split, minDuration);
    KeptAgree(vs);
    forall k | 0 <= k < |KeptLabels(vs)|
      ensures KeptLabels(vs)[k] in {0, 1}
    {
      var j := KeptStarts(vs)[k];
      VerdictAt(rule, labels, split, minDuration, |labels| - split + 1, j);
    }
  }

  /**
   * Under the intended rule a window kept with label 0, other than the
   * first and the last, holds no labelled frame, and one kept with label 1
   * has unlabelled frames just outside it. As written the first half fails
   * (`KickInteriorAsWritten`).
   */
  lemma CorrectedKeptWindows(labels: seq<int>, split: nat, minDuration: int)
    requires split <= |labels| + 1
    ensures var vs := Verdicts(Corrected, labels, split, minDuration);
            |KeptStarts(vs)| == |KeptLabels(vs)| &&
            forall k :: 0 <= k < |KeptStarts(vs)| && 0 < KeptStarts(vs)[k] < |labels| - split ==>
              (KeptLabels(vs)[k] == 0 ==> NoKickIn(labels, KeptStarts(vs)[k], split)) &&
              (KeptLabels(vs)[k] == 1 ==> !NoKickIn(labels, KeptStarts(vs)[k], split) &&
                                          labels[KeptStarts(vs)[k] - 1] == 0 && labels[KeptStarts(vs)[k] + split] == 0)
  {
    var vs := Verdicts(Corrected, labels, split, minDuration);
    KeptAgree(vs);
    forall k | 0 <= k < |KeptStarts(vs)| && 0 < KeptStarts(vs)[k] < |labels| - split
      ensures KeptLabels(vs)[k] == 0 ==> NoKickIn(labels, KeptStarts(vs)[k], split)
      ensures KeptLabels(vs)[k] == 1 ==> !NoKickIn(labels, KeptStarts(vs)[k], split) &&
                                         labels[KeptStarts(vs)[k] - 1] == 0 && labels[KeptStarts(vs)[k] + split] == 0
    {
      CorrectedKeptWindow(labels, split, minDuration, vs, KeptStarts(vs)[k], KeptLabels(vs)[k]);
    }
  }

  /** Middle window `j`, kept by the intended rule with label `kick`. */
  lemma CorrectedKeptWindow(labels: seq<int>, split: nat, minDuration: int, vs: seq<WindowLabel>, j: int, kick: int)
    requires split <= |labels| + 1 && vs == Verdicts(Corrected, labels, split, minDuration)
    requires 0 < j < |labels| - split && vs[j] == Labelled(kick)
    ensures kick == 0 ==> NoKickIn(labels, j, split)
    ensures kick == 1 ==> !NoKickIn(labels, j, split) && labels[j - 1] == 0 && labels[j + split] == 0
  {
    VerdictAt(Corrected, labels, split, minDuration, |labels| - split + 1, j);
    MiddleWindowVerdictCorrected(labels, j, split, minDuration);
  }

  /** `np.delete(s, idx)`: the entries of `s` whose index is not listed, in order. */
  function Delete(s: seq<int>, idx: seq<int>): (r: seq<int>)
    ensures |r| <= |s|
    decreases |s|
  {
    if |s| == 0 then []
    else Delete(s[..|s| - 1], idx) + (if |s| - 1 in idx then [] else [s[|s| - 1]])
  }

  /** Deleting the dropped windows from the label array leaves the labels of the kept ones. */
  lemma {:induction false} DeleteDropped(c: seq<int>, idx: seq<int>, vs: seq<WindowLabel>)
    requires |c| == |vs|
    requires forall j :: 0 <= j < |vs| ==> (j in idx <==> vs[j].Dropped?)
    requires forall j :: 0 <= j < |vs| && vs[j].Labelled? ==> c[j] == vs[j].kick
    ensures Delete(c, idx) == KeptLabels(vs)
    decreases |vs|
  {
    if |vs| > 0 {
      var n := |vs|;
      assert forall j :: 0 <= j < n - 1 ==> vs[..n - 1][j] == vs[j] && c[..n - 1][j] == c[j];
      DeleteDropped(c[..n - 1], idx, vs[..n - 1]);
    }
  }

  /** `np.delete` with no index returns the array unchanged (the code skips the call then). */
  lemma {:induction false} NothingDeleted(s: seq<int>)
    ensures Delete(s, []) == s
    decreases |s|
  {
    if |s| > 0 {
      NothingDeleted(s[..|s| - 1]);
    }
  }

  /**
   * The labelling loop of `DataLoad` for one recording: for each of the
   * `N - split + 1` windows, drop it (recording its index in `del_idx`) or
   * keep its data window and leave its label in `interval_labels_curr`;
   * finally delete the dropped indices from the label array. A recording
   * shorter than `split - 1` frames makes `np.zeros` raise ValueError.
   * The data windows are represented by their start frames.
   */
  method DataLoadWindows(labels: seq<int>, split: nat, minDuration: int) returns (r: Result<Windows>)
    ensures r.Err? <==> |labels| - split + 1 < 0
    ensures r.Err? ==> r.error == ValueError
    ensures r.Ok? ==> r.value.starts == KeptStarts(Verdicts(AsWritten, labels, split, minDuration))
    ensures r.Ok? ==> r.value.labels == KeptLabels(Verdicts(AsWritten, labels, split, minDuration))
  {
    if |labels| - split + 1 < 0 {
      return Err(ValueError);
    }
    var curr, delIdx, starts := ScanWindows(labels, split, minDuration);
    var kept := curr[..];
    if |delIdx| > 0 {
      kept := Delete(kept, delIdx);
    } else {
      NothingDeleted(kept);
    }
    DeleteDropped(curr[..], delIdx, Verdicts(AsWritten, labels, split, minDuration));
    r := Ok(Windows(starts, kept));
  }

  /** Window `i` of the scan with verdict `v`: drop its index, or keep its start and write its label. */
  method ScanWindow(curr: array<int>, i: int, v: WindowLabel, ghost vs: seq<WindowLabel>, delIdx: seq<int>, starts: seq<int>)
    returns (delIdx': seq<int>, starts': seq<int>)
    requires |vs| == i < curr.Length && (v.Labelled? ==> v.kick == 0 || v.kick == 1)
    requires forall j :: 0 <= j < curr.Length ==> (j in delIdx <==> j < i && vs[j].Dropped?)
    requires forall j :: 0 <= j < curr.Length ==> curr[j] == (if j < i && vs[j].Labelled? then vs[j].kick else 0)
    requires starts == KeptStarts(vs)
    modifies curr
    ensures forall j :: 0 <= j < curr.Length ==> (j in delIdx' <==> j < i + 1 && (vs + [v])[j].Dropped?)
    ensures forall j :: 0 <= j < curr.Length ==> curr[j] == (if j < i + 1 && (vs + [v])[j].Labelled? then (vs + [v])[j].kick else 0)
    ensures starts' == KeptStarts(vs + [v])
  {
    ghost var before := curr[..];
    KeptStartsStep(vs, v);
    delIdx', starts' := delIdx, starts;
    if v.Dropped? {
      delIdx' := delIdx + [i];
    } else {
      if v.kick == 1 {
        curr[i] := 1;
      }
      starts' := starts + [i];
    }
    ScanStep(vs, vs + [v], v, i, delIdx, delIdx', before, curr[..]);
  }

  /** The loop of `DataLoad` over the windows: the label array, the dropped indices and the kept starts. */
  method ScanWindows(labels: seq<int>, split: nat, minDuration: int) returns (curr: array<int>, delIdx: seq<int>, starts: seq<int>)
    requires split <= |labels| + 1
    ensures fresh(curr) && curr.Length == |labels| - split + 1
    ensures forall j :: 0 <= j < curr.Length ==> (j in delIdx <==> Verdicts(AsWritten, labels, split, minDuration)[j].Dropped?)
    ensures forall j :: 0 <= j < curr.Length ==>
              curr[j] == (if Verdicts(AsWritten, labels, split, minDuration)[j].Labelled? then Verdicts(AsWritten, labels, split, minDuration)[j].kick else 0)
    ensures starts == KeptStarts(Verdicts(AsWritten, labels, split, minDuration))
  {
    var count: nat := |labels| - split + 1;
    ghost var vs: seq<WindowLabel> := [];
    curr := new int[count](j => 0);
    delIdx, starts := [], [];
    for i := 0 to count
      invariant vs == VerdictsUpTo(AsWritten, labels, split, minDuration, i)
      invariant forall j :: 0 <= j < count ==> (j in delIdx <==> j < i && vs[j].Dropped?)
      invariant forall j :: 0 <= j < count ==> curr[j] == (if j < i && vs[j].Labelled? then vs[j].kick else 0)
      invariant starts == KeptStarts(vs)
    {
      var v := WindowVerdictAsWritten(labels, i, split, minDuration);
      delIdx, starts := ScanWindow(curr, i, v, vs, delIdx, starts);
      vs := vs + [v];
    }
    assert vs == Verdicts(AsWritten, labels, split, minDuration);
  }
}
