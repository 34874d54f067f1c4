/**
 * The `metrics` fixture of `benchmarking/tests/fixtures/metric.py`: the
 * precision/recall/F1 decision table for empty label or prediction arrays,
 * the optional delay shift of the Matlab algorithm, and the
 * Intersection-over-Union matching of reference runs against predicted
 * runs.
 *
 * The morphological closing of the reference labels is a parameter
 * (`closing`); runs are found with `LabelRuns.GetStartStop`, including its
 * behaviour on arrays without any zero. NaN (a `0 / 0` IoU) is `None`.
 */
module EventScores {
  import opened PyOps
  import opened LabelRuns

  /** `iou_threshold`. */
  const IoUThreshold: real := 0.1

  /** `delay_frame_count` of the Matlab algorithm. */
  const MatlabDelay: int := 21

  datatype Scores = Scores(precision: real, recall: real, f1: real)

  // ---------------------------------------------------------------------
  // Intersection over union

  /** `stop - start` of an inclusive run, as the fixture computes it. */
  function Area(s: Span): int
  {
    s.stop - s.start
  }

  /** `(min(stops) - max(starts)).clip(min=0)`. */
  function Inter(a: Span, b: Span): int
  {
    var lt := if a.start >= b.start then a.start else b.start;
    var rb := if a.stop <= b.stop then a.stop else b.stop;
    if rb - lt < 0 then 0 else rb - lt
  }

  /** `inter / union` with `union = area1 + area2 - inter`; `None` when the union is 0. */
  function IoU(a: Span, b: Span): Option<real>
  {
    var union := Area(a) + Area(b) - Inter(a, b);
    if union == 0 then None else Some(Inter(a, b) as real / union as real)
  }

  /**
   * For runs (`start <= stop`) the union is 0 exactly when both runs are
   * single frames, and then the intersection is 0 too, so the IoU is the
   * NaN of `0 / 0`; otherwise it lies in `[0, 1]`, and it is 1 exactly for
   * identical runs.
   */
  lemma IoUOfRuns(a: Span, b: Span)
    requires a.start <= a.stop && b.start <= b.stop
    ensures IoU(a, b).None? <==> Area(a) == 0 && Area(b) == 0
    ensures IoU(a, b).None? ==> Inter(a, b) == 0
    ensures IoU(a, b).Some? ==> 0.0 <= IoU(a, b).value <= 1.0
    ensures IoU(a, b) == Some(1.0) <==> a == b && Area(a) > 0
  {
    var i, u := Inter(a, b), Area(a) + Area(b) - Inter(a, b);
    assert 0 <= i <= Area(a) && i <= Area(b);
    if u != 0 {
      assert u > 0 && i <= u;
      UnitRatio(i, u);
      assert Ratio(i, u) == i as real / u as real;
    }
  }

  /** Two single-frame runs never match: their IoU is NaN, whether they coincide or not. */
  lemma SingleFrameRunsNeverMatch(x: int, y: int)
    ensures IoU(Span(x, x), Span(y, y)).None?
  {
  }

  /** Runs of the same labelling that do not coincide have IoU 0 when it is defined. */
  lemma SeparatedRunsDoNotOverlap(a: Span, b: Span)
    requires a.start <= a.stop && b.start <= b.stop
    requires a.stop + 1 < b.start || b.stop + 1 < a.start
    ensures Inter(a, b) == 0
    ensures IoU(a, b).None? || IoU(a, b) == Some(0.0)
  {
  }

  // ---------------------------------------------------------------------
  // The IoU matrix

  /** The runs of a `GetStartStop` result, as `(start, stop)` rows. */
  function Pairs(ss: StartStop): seq<Span>
    requires |ss.starts| == |ss.stops|
  {
    seq(|ss.starts|, k requires 0 <= k < |ss.starts| => Span(ss.starts[k], ss.stops[k]))
  }

  /** Row `g` of the IoU matrix. */
  function Row(g: Span, preds: seq<Span>): (row: seq<Option<real>>)
    ensures |row| == |preds|
  {
    seq(|preds|, j requires 0 <= j < |preds| => IoU(g, preds[j]))
  }

  /** Column `p` of the IoU matrix. */
  function Column(gts: seq<Span>, p: Span): (col: seq<Option<real>>)
    ensures |col| == |gts|
  {
    seq(|gts|, i requires 0 <= i < |gts| => IoU(gts[i], p))
  }

  /** Entries of `np.where(iou > iou_threshold)` in one row or column: NaN compares false. */
  function CountAbove(v: seq<Option<real>>): (c: nat)
    ensures c <= |v|
    decreases |v|
  {
    if |v| == 0 then 0
    else CountAbove(v[..|v| - 1]) + (if v[|v| - 1].Some? && v[|v| - 1].value > IoUThreshold then 1 else 0)
  }

  /** `v.max() <= iou_threshold`: a NaN anywhere makes the maximum NaN and the test false. */
  predicate Unmatched(v: seq<Option<real>>)
  {
    forall k :: 0 <= k < |v| ==> v[k].Some? && v[k].value <= IoUThreshold
  }

  /** `tp = ground_truth_index.shape[0]`: matrix entries above the threshold. */
  function TruePositives(gts: seq<Span>, preds: seq<Span>): nat
    decreases |gts|
  {
    if |gts| == 0 then 0
    else TruePositives(gts[..|gts| - 1], preds) + CountAbove(Row(gts[|gts| - 1], preds))
  }

  /** `fn = np.sum(iou.max(axis=1) <= iou_threshold)`: unmatched reference runs. */
  function FalseNegatives(gts: seq<Span>, preds: seq<Span>): (c: nat)
    ensures c <= |gts|
    decreases |gts|
  {
    if |gts| == 0 then 0
    else FalseNegatives(gts[..|gts| - 1], preds) + (if Unmatched(Row(gts[|gts| - 1], preds)) then 1 else 0)
  }

  /** `fp = np.sum(iou.max(axis=0) <= iou_threshold)`: unmatched predicted runs. */
  function FalsePositives(gts: seq<Span>, preds: seq<Span>): (c: nat)
    ensures c <= |preds|
    decreases |preds|
  {
    if |preds| == 0 then 0
    else FalsePositives(gts, preds[..|preds| - 1]) + (if Unmatched(Column(gts, preds[|preds| - 1])) then 1 else 0)
  }

  // ---------------------------------------------------------------------
  // Scores

  /** `a / b if b > 0 else 0`. */
  function Ratio(a: nat, b: nat): real
  {
    if b > 0 then a as real / b as real else 0.0
  }

  /** Precision, recall and F1 from the three counts, each 0 when its denominator is 0. */
  function Scored(tp: nat, fp: nat, fn: nat): Scores
  {
    var p := Ratio(tp, tp + fp);
    var r := Ratio(tp, tp + fn);
    Scores(p, r, if p + r > 0.0 then 2.0 * (p * r) / (p + r) else 0.0)
  }

  /**
   * The three scores always lie in `[0, 1]`, and all three are 1 exactly
   * when there is a match and neither an unmatched prediction nor an
   * unmatched reference run.
   */
  lemma {:induction false} ScoredBounds(tp: nat, fp: nat, fn: nat)
    ensures var s := Scored(tp, fp, fn);
            0.0 <= s.precision <= 1.0 && 0.0 <= s.recall <= 1.0 && 0.0 <= s.f1 <= 1.0
    ensures Scored(tp, fp, fn) == Scores(1.0, 1.0, 1.0) <==> tp > 0 && fp == 0 && fn == 0
  {
    ScoresInUnit(tp, fp, fn);
    PerfectScoresIff(tp, fp, fn);
  }

  /** Precision, recall and F1 lie in `[0, 1]`. */
  lemma ScoresInUnit(tp: nat, fp: nat, fn: nat)
    ensures var s := Scored(tp, fp, fn);
            0.0 <= s.precision <= 1.0 && 0.0 <= s.recall <= 1.0 && 0.0 <= s.f1 <= 1.0
  {
    var p := Ratio(tp, tp + fp);
    var r := Ratio(tp, tp + fn);
    UnitRatio(tp, tp + fp);
    UnitRatio(tp, tp + fn);
    var f1 := if p + r > 0.0 then 2.0 * (p * r) / (p + r) else 0.0;
    assert Scored(tp, fp, fn) == Scores(p, r, f1);
    if p + r > 0.0 {
      HarmonicUnit(p, r);
      assert 0.0 <= f1 <= 1.0;
    }
  }

  /** All three scores are 1 exactly for a match with no unmatched run on either side. */
  lemma PerfectScoresIff(tp: nat, fp: nat, fn: nat)
    ensures Scored(tp, fp, fn) == Scores(1.0, 1.0, 1.0) <==> tp > 0 && fp == 0 && fn == 0
  {
    UnitRatio(tp, tp + fp);
    UnitRatio(tp, tp + fn);
    if tp > 0 && fp == 0 && fn == 0 {
      assert Ratio(tp, tp + fp) == 1.0 && Ratio(tp, tp + fn) == 1.0;
      assert Scored(tp, fp, fn) == Scores(1.0, 1.0, 2.0 * (1.0 * 1.0) / (1.0 + 1.0));
    }
  }

  /** The harmonic mean of two values in `[0, 1]` lies in `[0, 1]` and is 1 when both are. */
  lemma HarmonicUnit(p: real, r: real)
    requires 0.0 <= p <= 1.0 && 0.0 <= r <= 1.0 && p + r > 0.0
    ensures 0.0 <= 2.0 * (p * r) / (p + r) <= 1.0
    ensures p == 1.0 && r == 1.0 ==> 2.0 * (p * r) / (p + r) == 1.0
  {
    TwiceProductBelow(p, r);
    QuotientUnit(2.0 * (p * r), p + r);
  }

  /** Twice the product of two values in `[0, 1]` is at most their sum. */
  lemma TwiceProductBelow(p: real, r: real)
    requires 0.0 <= p <= 1.0 && 0.0 <= r <= 1.0
    ensures 0.0 <= 2.0 * (p * r) <= p + r
  {
    NonNegProduct(p, r);
    NonNegProduct(p, 1.0 - r);
    NonNegProduct(r, 1.0 - p);
    assert p + r - 2.0 * (p * r) == p * (1.0 - r) + r * (1.0 - p);
  }

  /** `q / d` for `0 <= q <= d` lies in `[0, 1]`. */
  lemma QuotientUnit(q: real, d: real)
    requires 0.0 <= q <= d && d > 0.0
    ensures 0.0 <= q / d <= 1.0
  {
    var x := q / d;
    assert x * d == q;
    if x < 0.0 {
      ScaleStrict(0.0, x, d);
    }
    if x > 1.0 {
      ScaleStrict(x, 1.0, d);
    }
  }

  /** Scaling by a positive factor keeps a strict order. */
  lemma ScaleStrict(x: real, y: real, d: real)
    requires x > y && d > 0.0
    ensures x * d > y * d
  {
    assert x * d - y * d == (x - y) * d;
  }

  /** `a / b` for `0 <= a <= b` lies in `[0, 1]` and is 1 exactly when `a == b > 0`. */
  lemma UnitRatio(a: nat, b: nat)
    requires a <= b
    ensures 0.0 <= Ratio(a, b) <= 1.0
    ensures Ratio(a, b) == 1.0 <==> a == b && b > 0
  {
    if b > 0 {
      var x := a as real / b as real;
      QuotientUnit(a as real, b as real);
      assert x * b as real == a as real;
      if x == 1.0 {
        assert a as real == b as real;
      }
    }
  }

  lemma NonNegProduct(x: real, y: real)
    requires 0.0 <= x && 0.0 <= y
    ensures 0.0 <= x * y
  {
  }

  // ---------------------------------------------------------------------
  // The fixture

  /** `x[delay:]` / `x[:-delay]`: the shift applied to the Matlab algorithm's output and the labels. */
  function Delayed(ref: seq<int>, app: seq<int>, isMatlab: bool): (seq<int>, seq<int>)
  {
    if isMatlab then (Slice(ref, 0, -MatlabDelay), Slice(app, MatlabDelay, |app|))
    else (ref, app)
  }

  /** The scores `metrics` returns for labels `ref` and predictions `app`; each lies in `[0, 1]`. */
  function Metrics(ref: seq<int>, app: seq<int>, isMatlab: bool, closing: seq<int> -> seq<int>): (s: Scores)
    ensures 0.0 <= s.precision <= 1.0 && 0.0 <= s.recall <= 1.0 && 0.0 <= s.f1 <= 1.0
  {
    if IntSum(ref) == 0 && IntSum(app) == 0 then Scores(1.0, 1.0, 1.0)
    else if IntSum(ref) == 0 || IntSum(app) == 0 then Scores(0.0, 0.0, 0.0)
    else
      var (r, a) := Delayed(ref, app, isMatlab);
      var gts := Pairs(GetStartStop(closing(r)));
      var preds := Pairs(GetStartStop(a));
      if |gts| == 0 || |preds| == 0 then Scores(0.0, 0.0, 0.0)
      else
        var tp, fp, fn := TruePositives(gts, preds), FalsePositives(gts, preds), FalseNegatives(gts, preds);
        ScoredBounds(tp, fp, fn);
        Scored(tp, fp, fn)
  }

  /**
   * The decision table: no labels and no predictions score 1, exactly one
   * of the two empty scores 0, and so does a side on which no run is
   * found; every score lies in `[0, 1]`.
   */
  lemma MetricsCases(ref: seq<int>, app: seq<int>, isMatlab: bool, closing: seq<int> -> seq<int>)
    ensures IntSum(ref) == 0 && IntSum(app) == 0 ==> Metrics(ref, app, isMatlab, closing) == Scores(1.0, 1.0, 1.0)
    ensures (IntSum(ref) == 0) != (IntSum(app) == 0) ==> Metrics(ref, app, isMatlab, closing) == Scores(0.0, 0.0, 0.0)
    ensures var (r, a) := Delayed(ref, app, isMatlab);
            IntSum(ref) != 0 && IntSum(app) != 0 &&
            (|GetStartStop(closing(r)).starts| == 0 || |GetStartStop(a).starts| == 0) ==>
            Metrics(ref, app, isMatlab, closing) == Scores(0.0, 0.0, 0.0)
    ensures var s := Metrics(ref, app, isMatlab, closing);
            0.0 <= s.precision <= 1.0 && 0.0 <= s.recall <= 1.0 && 0.0 <= s.f1 <= 1.0
  {
  }

  // ---------------------------------------------------------------------
  // A prediction identical to the reference

  /** The IoU matrix of a run list against itself: 1 on the diagonal, 0 elsewhere, for runs of two frames or more. */
  lemma IdenticalIoU(runs: seq<Span>, i: nat, j: nat)
    requires i < |runs| && j < |runs| && Separated(runs)
    requires forall k :: 0 <= k < |runs| ==> runs[k].start < runs[k].stop
    ensures IoU(runs[i], runs[j]) == if i == j then Some(1.0) else Some(0.0)
  {
    if i != j {
      SeparatedRunsDoNotOverlap(runs[i], runs[j]);
      assert Area(runs[i]) + Area(runs[j]) - Inter(runs[i], runs[j]) > 0;
    } else {
      var a := Area(runs[i]);
      assert Inter(runs[i], runs[i]) == a > 0;
      assert a as real / a as real == 1.0;
    }
  }

  /** Exactly one entry above the threshold, and none NaN, gives a count of 1. */
  lemma {:induction false} CountAboveSingle(v: seq<Option<real>>, i: nat)
    requires i < |v| && v[i].Some? && v[i].value > IoUThreshold
    requires forall k :: 0 <= k < |v| && k != i ==> v[k].Some? && v[k].value <= IoUThreshold
    ensures CountAbove(v) == 1
    decreases |v|
  {
    var n := |v| - 1;
    if i < n {
      CountAboveSingle(v[..n], i);
    } else {
      CountAboveNone(v[..n]);
    }
  }

  /** No entry above the threshold gives a count of 0. */
  lemma {:induction false} CountAboveNone(v: seq<Option<real>>)
    requires forall k :: 0 <= k < |v| ==> v[k].Some? && v[k].value <= IoUThreshold
    ensures CountAbove(v) == 0
    decreases |v|
  {
    if |v| > 0 {
      CountAboveNone(v[..|v| - 1]);
    }
  }

  /** Against itself, every run matches exactly once and no reference run is unmatched. */
  lemma {:induction false} IdenticalRows(runs: seq<Span>, m: nat)
    requires m <= |runs| && Separated(runs)
    requires forall k :: 0 <= k < |runs| ==> runs[k].start < runs[k].stop
    ensures TruePositives(runs[..m], runs) == m
    ensures FalseNegatives(runs[..m], runs) == 0
    decreases m
  {
    if m > 0 {
      IdenticalRows(runs, m - 1);
      assert runs[..m][..m - 1] == runs[..m - 1];
      var row := Row(runs[m - 1], runs);
      forall k | 0 <= k < |runs|
        ensures row[k] == if k == m - 1 then Some(1.0) else Some(0.0)
      {
        IdenticalIoU(runs, m - 1, k);
      }
      CountAboveSingle(row, m - 1);
      assert !Unmatched(row) by { assert row[m - 1] == Some(1.0); }
    }
  }

  /** Against itself, no predicted run is unmatched. */
  lemma {:induction false} IdenticalColumns(runs: seq<Span>, m: nat)
    requires m <= |runs| && Separated(runs)
    requires forall k :: 0 <= k < |runs| ==> runs[k].start < runs[k].stop
    ensures FalsePositives(runs, runs[..m]) == 0
    decreases m
  {
    if m > 0 {
      IdenticalColumns(runs, m - 1);
      assert runs[..m][..m - 1] == runs[..m - 1];
      ColumnMatched(runs, m - 1);
    }
  }

  /** Run `j` overlaps itself completely, so its column is matched. */
  lemma ColumnMatched(runs: seq<Span>, j: nat)
    requires j < |runs| && Separated(runs)
    requires forall k :: 0 <= k < |runs| ==> runs[k].start < runs[k].stop
    ensures !Unmatched(Column(runs, runs[j]))
  {
    var col := Column(runs, runs[j]);
    IdenticalIoU(runs, j, j);
    assert col[j] == Some(1.0);
  }

  /**
   * A prediction whose runs are exactly the (closed) reference runs, each
   * at least two frames long, scores 1 on all three metrics.
   */
  lemma IdenticalRunsScorePerfectly(ref: seq<int>, app: seq<int>, isMatlab: bool, closing: seq<int> -> seq<int>)
    requires IntSum(ref) != 0 && IntSum(app) != 0
    requires var (r, a) := Delayed(ref, app, isMatlab);
             HasZero(a) && LabelledRuns(closing(r)) == LabelledRuns(a) && |LabelledRuns(a)| > 0 &&
             forall k :: 0 <= k < |LabelledRuns(a)| ==> LabelledRuns(a)[k].start < LabelledRuns(a)[k].stop
    ensures Metrics(ref, app, isMatlab, closing) == Scores(1.0, 1.0, 1.0)
  {
    var (r, a) := Delayed(ref, app, isMatlab);
    var runs := LabelledRuns(a);
    GetStartStopWithZero(a);
    PairsAreRuns(a);
    PairsAreRuns(closing(r));
    IdenticalCounts(runs);
    PerfectScored(|runs|);
  }

  /** The pairs of `get_start_stop` are the labelled runs. */
  lemma PairsAreRuns(labels: seq<int>)
    ensures Pairs(GetStartStop(labels)) == LabelledRuns(labels)
  {
    var runs := LabelledRuns(labels);
    assert forall k :: 0 <= k < |runs| ==> Pairs(GetStartStop(labels))[k] == runs[k];
  }

  /** A separated run list of runs of two frames or more, against itself. */
  lemma IdenticalCounts(runs: seq<Span>)
    requires Separated(runs)
    requires forall k :: 0 <= k < |runs| ==> runs[k].start < runs[k].stop
    ensures TruePositives(runs, runs) == |runs|
    ensures FalsePositives(runs, runs) == 0 && FalseNegatives(runs, runs) == 0
  {
    IdenticalRows(runs, |runs|);
    IdenticalColumns(runs, |runs|);
    assert runs[..|runs|] == runs;
  }

  /** Matches only, and at least one, score 1 on all three metrics. */
  lemma PerfectScored(n: nat)
    requires n > 0
    ensures Scored(n, 0, 0) == Scores(1.0, 1.0, 1.0)
  {
    assert n as real / n as real == 1.0;
    assert Ratio(n, n) == 1.0;
  }
}
