/**
 * The non-network parts of the inference script `tf_net/tf_inference.py`:
 * the column layout `load_target_data` gives a decoded frame, the sliding
 * windows fed to the network, and how the network's per-window classes are
 * turned into printed kick events.
 *
 * The decode itself is `TargetCodec.Decode`; the network is a parameter:
 * its softmax output, one pair of class probabilities per window.
 */
module TfInference {
  import opened PyOps
  import opened LabelRuns
  import TargetCodec

  // ---------------------------------------------------------------------
  // load_target_data

  /**
   * One frame of `load_target_data`: `np.hstack((amps, bins))` with the four
   * amplitudes and four bins in `[channel][rank]` order, the bins divided
   * by 31, then columns `[0, 4, 1, 5, 2, 6, 3, 7]`. Column `2k` ends up as
   * amplitude `k` and column `2k + 1` as bin `k` over 31, where `k` is
   * `2 * channel + rank`.
   */
  function TargetColumns(d: TargetCodec.DecodedFrame): (row: seq<real>)
    requires TargetCodec.IsDecodedFrame(d)
    ensures |row| == 8
    ensures ColumnsAt(row, d, 0, 0) && ColumnsAt(row, d, 0, 1)
    ensures ColumnsAt(row, d, 1, 0) && ColumnsAt(row, d, 1, 1)
  {
    var stacked := [d.amps[0][0] as int as real, d.amps[0][1] as int as real,
                    d.amps[1][0] as int as real, d.amps[1][1] as int as real,
                    d.bins[0][0] as int as real / 31.0, d.bins[0][1] as int as real / 31.0,
                    d.bins[1][0] as int as real / 31.0, d.bins[1][1] as int as real / 31.0];
    [stacked[0], stacked[4], stacked[1], stacked[5], stacked[2], stacked[6], stacked[3], stacked[7]]
  }

  /** Columns `2k` and `2k + 1`, for `k = 2 * c + r`, hold target `(c, r)`'s amplitude and its bin over 31. */
  predicate ColumnsAt(row: seq<real>, d: TargetCodec.DecodedFrame, c: nat, r: nat)
    requires |row| == 8 && TargetCodec.IsDecodedFrame(d) && c < 2 && r < 2
  {
    row[2 * (2 * c + r)] == d.amps[c][r] as int as real &&
    row[2 * (2 * c + r) + 1] == d.bins[c][r] as int as real / 31.0
  }

  /** `load_target_data` for one record: decode, then lay out the columns; a record without eight fields fails the decode's reshape. */
  function LoadTargetRow(rec: seq<bv16>): (r: Result<seq<real>>)
    ensures r.Ok? <==> |rec| == 8
    ensures r.Err? ==> r.error == ValueError
    ensures r.Ok? ==> |r.value| == 8
  {
    match TargetCodec.Decode(rec)
    case Err(e) => Err(e)
    case Ok(d) => Ok(TargetColumns(d))
  }

  /**
   * A record packed from targets whose bins fit a byte loads as amplitude,
   * bin pairs: column `2k + 1` is target `k`'s bin over 31 and column `2k`
   * the amplitude the codec gives back.
   */
  lemma LoadPackedFrame(ts: seq<seq<TargetCodec.Target>>, c: nat, r: nat)
    requires TargetCodec.IsFrame(ts) && c < 2 && r < 2 && ts[c][r].bin < 256
    ensures LoadTargetRow(TargetCodec.PackFrame(ts)).Ok?
    ensures LoadTargetRow(TargetCodec.PackFrame(ts)).value[2 * (2 * c + r) + 1] == ts[c][r].bin as int as real / 31.0
    ensures LoadTargetRow(TargetCodec.PackFrame(ts)).value[2 * (2 * c + r)] ==
              ((ts[c][r].amp & 0x00FF) + (ts[c][r].amp & 0x0FF0)) as int as real
  {
    var rec := TargetCodec.PackFrame(ts);
    TargetCodec.EntryRoundTrip(ts, c, r);
    LoadedColumns(rec, c, r);
  }

  /** A record of eight fields loads as the decoded targets' columns. */
  lemma LoadedColumns(rec: seq<bv16>, c: nat, r: nat)
    requires |rec| == 8 && c < 2 && r < 2
    ensures LoadTargetRow(rec).Ok? && TargetCodec.Decode(rec).Ok?
    ensures ColumnsAt(LoadTargetRow(rec).value, TargetCodec.Decode(rec).value, c, r)
  {
  }

  // ---------------------------------------------------------------------
  // Windows

  /**
   * `target_data[mask]` with `mask = np.arange(split_len) +
   * np.arange(N - split_len)[..., None]`: row `j` holds frames
   * `j .. j + split_len - 1`, for `j` from 0 to `N - split_len - 1`; no row
   * when `N <= split_len`.
   */
  function Windows<T>(frames: seq<T>, split: nat): (w: seq<seq<T>>)
    ensures |w| == (if |frames| > split then |frames| - split else 0)
  {
    if |frames| <= split then []
    else seq(|frames| - split, j requires 0 <= j < |frames| - split => frames[j..j + split])
  }

  /**
   * Every row is a full window of consecutive frames starting at its row
   * index; the final frame is in no row, so the last full window (starting
   * at `N - split_len`) is never formed.
   */
  lemma WindowsCover<T>(frames: seq<T>, split: nat)
    requires split >= 1
    ensures forall j :: 0 <= j < |Windows(frames, split)| ==>
              |Windows(frames, split)[j]| == split &&
              j + split <= |frames| - 1 &&
              forall k :: 0 <= k < split ==> Windows(frames, split)[j][k] == frames[j + k]
  {
    var w := Windows(frames, split);
    forall j | 0 <= j < |w|
      ensures |w[j]| == split && j + split <= |frames| - 1
      ensures forall k :: 0 <= k < split ==> w[j][k] == frames[j + k]
    {
      assert w[j] == frames[j..j + split];
    }
  }

  // ---------------------------------------------------------------------
  // From probabilities to kicks

  /**
   * `np.where(pred > confidence)[1]`: going through the softmax rows in
   * order, the class index (0 or 1) of every entry above the confidence. A row with
   * no confident class contributes nothing, so later classes move earlier.
   */
  function ConfidentClasses(probs: seq<(real, real)>, confidence: real): (cs: seq<int>)
    ensures |cs| <= 2 * |probs|
    ensures forall k :: 0 <= k < |cs| ==> cs[k] == 0 || cs[k] == 1
    decreases |probs|
  {
    if |probs| == 0 then []
    else
      var p := probs[|probs| - 1];
      ConfidentClasses(probs[..|probs| - 1], confidence) +
      (if p.0 > confidence then [0] else []) + (if p.1 > confidence then [1] else [])
  }

  /** A softmax row: two non-negative probabilities summing to 1. */
  predicate Softmax(p: (real, real))
  {
    p.0 >= 0.0 && p.1 >= 0.0 && p.0 + p.1 == 1.0
  }

  /**
   * With a confidence of at least 1/2 and softmax rows, and when every row
   * has a confident class, the classes are exactly one per window, in
   * window order: 1 where class 1 is confident, 0 otherwise.
   */
  lemma {:induction false} ConfidentClassesPerWindow(probs: seq<(real, real)>, confidence: real)
    requires confidence >= 1.0 / 2.0
    requires forall j :: 0 <= j < |probs| ==> Softmax(probs[j]) && (probs[j].0 > confidence || probs[j].1 > confidence)
    ensures |ConfidentClasses(probs, confidence)| == |probs|
    ensures forall j :: 0 <= j < |probs| ==>
              ConfidentClasses(probs, confidence)[j] == (if probs[j].1 > confidence then 1 else 0)
    decreases |probs|
  {
    if |probs| > 0 {
      var p := probs[..|probs| - 1];
      ConfidentClassesPerWindow(p, confidence);
      assert forall j :: 0 <= j < |p| ==> p[j] == probs[j];
    }
  }

  /** With a confidence of at least 1/2, each softmax row contributes at most one class. */
  lemma {:induction false} ConfidentClassesAtMostOne(probs: seq<(real, real)>, confidence: real)
    requires confidence >= 1.0 / 2.0
    requires forall j :: 0 <= j < |probs| ==> Softmax(probs[j])
    ensures |ConfidentClasses(probs, confidence)| <= |probs|
    ensures forall k :: 0 <= k < |ConfidentClasses(probs, confidence)| ==> ConfidentClasses(probs, confidence)[k] in {0, 1}
    decreases |probs|
  {
    if |probs| > 0 {
      ConfidentClassesAtMostOne(probs[..|probs| - 1], confidence);
    }
  }

  /** `np.concatenate((np.zeros(split_len), pred))`, which undoes the network's delay. */
  function Prefixed(pred: seq<int>, split: nat): (s: seq<int>)
    ensures |s| == split + |pred|
    ensures forall k :: 0 <= k < split ==> s[k] == 0
    ensures forall k :: 0 <= k < |pred| ==> s[split + k] == pred[k]
  {
    seq(split, k => 0) + pred
  }

  /** What one printed line reports: `"frame"` and `"kick_start"`. */
  datatype InferenceEvent = InferenceEvent(frame: int, kickStart: int)

  /**
   * The printing loop over the runs: for run `i`, `start = kick_stop[i] -
   * split_len` and `stop = kick_start[i]`; the run is skipped when
   * `start >= stop`, otherwise it reports `frame = stop` and
   * `kick_start = start`.
   */
  function Emit(starts: seq<int>, stops: seq<int>, split: nat): (es: seq<InferenceEvent>)
    requires |starts| == |stops|
    ensures |es| <= |starts|
    ensures forall k :: 0 <= k < |es| ==> es[k].kickStart < es[k].frame
    decreases |starts|
  {
    if |starts| == 0 then []
    else
      var n := |starts| - 1;
      var start, stop := stops[n] - split, starts[n];
      Emit(starts[..n], stops[..n], split) + (if start >= stop then [] else [InferenceEvent(stop, start)])
  }

  /**
   * A line is printed for run `i` exactly when its `stop - start` is below
   * `split_len`, and then it reports the run's first frame with the run's
   * last frame moved back by `split_len`; lines come in run order.
   */
  lemma EmitMeaning(starts: seq<int>, stops: seq<int>, split: nat)
    requires |starts| == |stops|
    ensures forall e :: e in Emit(starts, stops, split) <==>
              exists i :: 0 <= i < |starts| && stops[i] - starts[i] < split &&
                          e == InferenceEvent(starts[i], stops[i] - split)
    ensures forall e :: e in Emit(starts, stops, split) ==> e.kickStart < e.frame
  {
    EmitSound(starts, stops, split);
    EmitComplete(starts, stops, split);
    forall e | exists i :: 0 <= i < |starts| && stops[i] - starts[i] < split &&
                           e == InferenceEvent(starts[i], stops[i] - split)
      ensures e in Emit(starts, stops, split)
    {
      var i :| 0 <= i < |starts| && stops[i] - starts[i] < split && e == InferenceEvent(starts[i], stops[i] - split);
      assert InferenceEvent(starts[i], stops[i] - split) in Emit(starts, stops, split);
    }
  }

  /** Every printed line comes from a run shorter than `split_len`, and reports a start before its frame. */
  lemma {:induction false} EmitSound(starts: seq<int>, stops: seq<int>, split: nat)
    requires |starts| == |stops|
    ensures forall e :: e in Emit(starts, stops, split) ==>
              e.kickStart < e.frame &&
              exists i :: 0 <= i < |starts| && stops[i] - starts[i] < split &&
                          e == InferenceEvent(starts[i], stops[i] - split)
    decreases |starts|
  {
    if |starts| > 0 {
      var n := |starts| - 1;
      EmitSound(starts[..n], stops[..n], split);
      forall e | e in Emit(starts, stops, split)
        ensures e.kickStart < e.frame &&
                exists i :: 0 <= i < |starts| && stops[i] - starts[i] < split &&
                            e == InferenceEvent(starts[i], stops[i] - split)
      {
        if e in Emit(starts[..n], stops[..n], split) {
          var i :| 0 <= i < n && stops[..n][i] - starts[..n][i] < split &&
                   e == InferenceEvent(starts[..n][i], stops[..n][i] - split);
          assert stops[i] - starts[i] < split && e == InferenceEvent(starts[i], stops[i] - split);
        } else {
          assert stops[n] - starts[n] < split && e == InferenceEvent(starts[n], stops[n] - split);
        }
      }
    }
  }

  /** Every run shorter than `split_len` gets its line. */
  lemma {:induction false} EmitComplete(starts: seq<int>, stops: seq<int>, split: nat)
    requires |starts| == |stops|
    ensures forall i :: 0 <= i < |starts| && stops[i] - starts[i] < split ==>
              InferenceEvent(starts[i], stops[i] - split) in Emit(starts, stops, split)
    decreases |starts|
  {
    if |starts| > 0 {
      var n := |starts| - 1;
      EmitComplete(starts[..n], stops[..n], split);
      forall i | 0 <= i < n && stops[i] - starts[i] < split
        ensures InferenceEvent(starts[i], stops[i] - split) in Emit(starts, stops, split)
      {
        assert starts[..n][i] == starts[i] && stops[..n][i] == stops[i];
      }
    }
  }

  /** The events `inference` prints for the network's softmax rows, each with its start before its frame. */
  function InferenceEvents(probs: seq<(real, real)>, confidence: real, split: nat): (es: seq<InferenceEvent>)
    ensures forall k :: 0 <= k < |es| ==> es[k].kickStart < es[k].frame
  {
    var runs := GetStartStop(Prefixed(ConfidentClasses(probs, confidence), split));
    Emit(runs.starts, runs.stops, split)
  }

  /**
   * Thanks to the zero prefix, `label`/`np.unique` finds every run of kick
   * classes, and every printed event has `split_len <= frame` and
   * `0 <= kick_start < frame`: the reported start is never before the
   * recording.
   */
  lemma InferenceEventsBounds(probs: seq<(real, real)>, confidence: real, split: nat)
    requires split >= 1
    ensures var s := Prefixed(ConfidentClasses(probs, confidence), split);
            GetStartStop(s).starts == Starts(RunsOf(NonZero(s), true))
    ensures forall e :: e in InferenceEvents(probs, confidence, split) ==>
              split <= e.frame && 0 <= e.kickStart < e.frame
  {
    var s := Prefixed(ConfidentClasses(probs, confidence), split);
    assert s[0] == 0;
    assert HasZero(s);
    GetStartStopWithZero(s);
    var r := GetStartStop(s);
    var runs := LabelledRuns(s);
    forall i | 0 <= i < |r.starts|
      ensures split <= r.starts[i] <= r.stops[i]
    {
      var sp := runs[i];
      assert s[sp.start] != 0;
    }
    EmitBounds(r.starts, r.stops, split);
  }

  /** Runs that start at `split_len` or later report events with `split_len <= frame` and `0 <= kick_start < frame`. */
  lemma EmitBounds(starts: seq<int>, stops: seq<int>, split: nat)
    requires |starts| == |stops|
    requires forall i :: 0 <= i < |starts| ==> split <= starts[i] <= stops[i]
    ensures forall e :: e in Emit(starts, stops, split) ==> split <= e.frame && 0 <= e.kickStart < e.frame
  {
    EmitMeaning(starts, stops, split);
  }
}
