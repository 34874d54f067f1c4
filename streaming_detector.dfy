/**
 * The bounded-buffer kick detector of `kick_detection_recording_optimized.py`.
 *
 * Every frame's velocity pair is pushed into a 50-row buffer; two staggered
 * moving averages (velocity, then acceleration) are written into their own
 * 50-row buffers at fixed negative offsets; a two-pointer state machine on
 * the yagi channel's smoothed velocity arms on motion and, once the motion
 * has stopped, validates the candidate on both channels. Buffers are
 * `(50, 2)` arrays in the source; here each is an array of 50 rows of two
 * channels. Python's negative offset `k` into a buffer stands for `50 + k`.
 */
module StreamingDetector {
  import opened PyOps
  import Velocity

  const BufferSize: nat := 50
  /** `time_avg_len`. */
  const TimeAvgLen: int := 10
  /** `FrameTime = 40e-3` seconds, as an exact rational. */
  const FrameTime: real := 1.0 / 25.0
  /** `detection_speed = 1 / 40` m/s. */
  const DetectionSpeed: real := 1.0 / 40.0
  const Th: int := 100
  const NFFT: int := 32
  /** `lambda_ / 2 / PRT / (N_FFT - 1)` with `lambda_ = 3e8 / 24.2e9` and `PRT = 0.5e-3`. */
  const VelocityScale: real := 300000000.0 / 24200000000.0 / 2.0 / 0.0005 / 31.0
  /** `local_index` of the velocity stage, `-1 - time_avg_len // 2`. */
  const VelocitySkip: int := -1 - TimeAvgLen / 2
  /** `local_index` of the detection stage, `-1 - time_avg_len`. */
  const LocalIndex: int := -1 - TimeAvgLen

  /** One buffer row: channel 0 (PC0, patch antenna) and channel 1 (PC1, yagi antenna). */
  datatype Row = Row(patch: real, yagi: real)

  /** Column `ch` of a buffer, `buffer[:, ch]`. */
  function Column(rows: seq<Row>, ch: nat): (col: seq<real>)
    requires ch < 2
    ensures |col| == |rows|
    ensures forall k :: 0 <= k < |rows| ==> col[k] == (if ch == 0 then rows[k].patch else rows[k].yagi)
  {
    seq(|rows|, k requires 0 <= k < |rows| => if ch == 0 then rows[k].patch else rows[k].yagi)
  }

  /** `np.mean(rows, axis=0)` of a non-empty block of rows. */
  function MeanRows(rows: seq<Row>): Row
    requires |rows| > 0
  {
    Row(Mean(Column(rows, 0)), Mean(Column(rows, 1)))
  }

  /** The velocity pair of `convrtAveVelocity` as a buffer row. */
  function VelocityRow(fields: seq<bv16>): Row
    requires |fields| == 8
  {
    Row(Velocity.VelocityOf(fields, 0, Th, NFFT, VelocityScale),
        Velocity.VelocityOf(fields, 1, Th, NFFT, VelocityScale))
  }

  // ---------------------------------------------------------------------
  // Buffer shifts

  /** The buffer after `shift_vector_left`: every row moves one slot left and `value` is written last. */
  function ShiftedLeft<T>(s: seq<T>, value: T): (r: seq<T>)
    requires |s| > 0
    ensures |r| == |s|
    ensures forall k :: 0 <= k < |s| - 1 ==> r[k] == s[k + 1]
    ensures r[|s| - 1] == value
  {
    s[1..] + [value]
  }

  /**
   * The buffer after `shift_vector_left_skip` with `-n < skip < 0` and
   * `p = n + skip`: slots `[0, p - 1)` take their right neighbour, slot
   * `p - 1` takes `value`, and slots from `p` on are unchanged.
   */
  function ShiftedLeftSkip<T>(s: seq<T>, value: T, skip: int): (r: seq<T>)
    requires -|s| < skip < 0
    ensures |r| == |s|
    ensures forall k :: 0 <= k < |s| + skip - 1 ==> r[k] == s[k + 1]
    ensures r[|s| + skip - 1] == value
    ensures forall k :: |s| + skip <= k < |s| ==> r[k] == s[k]
  {
    var p := |s| + skip;
    s[1..p] + [value] + s[p..]
  }

  /** `shift_vector_left(vec, value)`: `vec[:-1] = vec[1:]; vec[-1] = value`, in place. */
  method ShiftVectorLeft<T>(vec: array<T>, value: T)
    requires vec.Length > 0
    modifies vec
    ensures vec[..] == ShiftedLeft(old(vec[..]), value)
  {
    var n := vec.Length;
    for k := 0 to n - 1
      invariant forall m :: 0 <= m < k ==> vec[m] == old(vec[m + 1])
      invariant forall m :: k <= m < n ==> vec[m] == old(vec[m])
    {
      vec[k] := vec[k + 1];
    }
    vec[n - 1] := value;
  }

  /** `shift_vector_left_skip(vec, value, skip)`: `vec[:skip - 1] = vec[1:skip]; vec[skip - 1] = value`, in place. */
  method ShiftVectorLeftSkip<T>(vec: array<T>, value: T, skip: int)
    requires -vec.Length < skip < 0
    modifies vec
    ensures vec[..] == ShiftedLeftSkip(old(vec[..]), value, skip)
  {
    var p := vec.Length + skip;
    for k := 0 to p - 1
      invariant forall m :: 0 <= m < k ==> vec[m] == old(vec[m + 1])
      invariant forall m :: k <= m < vec.Length ==> vec[m] == old(vec[m])
    {
      vec[k] := vec[k + 1];
    }
    vec[p - 1] := value;
  }

  // ---------------------------------------------------------------------
  // Validation

  /** First third of the candidate, `vel[start - 1 : (stop - start) // 3 + start]`. */
  function ApproachSlice(vel: seq<real>, start: int, stop: int): seq<real>
  {
    Slice(vel, start - 1, (stop - start) / 3 + start)
  }

  /** Last third of the candidate, `vel[stop - (stop - start) // 3 - 1 : stop]`. */
  function DepartSlice(vel: seq<real>, start: int, stop: int): seq<real>
  {
    Slice(vel, stop - (stop - start) / 3 - 1, stop)
  }

  /** Last sixth of the widened candidate in the acceleration buffer. */
  function BrakeSlice(acc: seq<real>, start: int, stop: int): seq<real>
  {
    var ksa, kso := start - TimeAvgLen / 2, stop + TimeAvgLen / 2;
    Slice(acc, kso - (kso - ksa + 1) / 6 - 1, kso)
  }

  /** `left` of the middle window: `round(ksa + (kso - ksa) * 3.9 / 8) - 1`. */
  function MiddleLeft(start: int, stop: int): int
  {
    var ksa, kso := start - TimeAvgLen / 2, stop + TimeAvgLen / 2;
    RoundHalfEven(ksa as real + (kso - ksa) as real * 39.0 / 80.0) - 1
  }

  /** `right` of the middle window: `round(kso - (kso - ksa + 1) * 3.9 / 8)`. */
  function MiddleRight(start: int, stop: int): int
  {
    var ksa, kso := start - TimeAvgLen / 2, stop + TimeAvgLen / 2;
    RoundHalfEven(kso as real - (kso - ksa + 1) as real * 39.0 / 80.0)
  }

  /** The middle window of the acceleration buffer, `acc[left:right]`. */
  function MiddleSlice(acc: seq<real>, start: int, stop: int): seq<real>
  {
    Slice(acc, MiddleLeft(start, stop), MiddleRight(start, stop))
  }

  /** The whole candidate, `vel[start - 1 : stop]`. */
  function SpanSlice(vel: seq<real>, start: int, stop: int): seq<real>
  {
    Slice(vel, start - 1, stop)
  }

  /** Duration check: `(stop - start) * FrameTime` lies in [0.5, 2] seconds. */
  predicate DurationOk(start: int, stop: int)
  {
    0.5 <= (stop - start) as real * FrameTime <= 2.0
  }

  /**
   * The shape a valid kick has, stated element-wise: its duration is in range;
   * each examined window is non-empty; the first third approaches (no
   * negative velocity); the last third departs (no positive velocity); the
   * last sixth brakes (no negative acceleration); the middle accelerates away
   * (no positive acceleration); and at least 80% of `stop - start - 1`
   * velocity samples of the candidate are non-zero.
   */
  predicate KickShape(vel: seq<real>, acc: seq<real>, start: int, stop: int)
  {
    DurationOk(start, stop) &&
    |ApproachSlice(vel, start, stop)| > 0 && (forall k :: 0 <= k < |ApproachSlice(vel, start, stop)| ==> ApproachSlice(vel, start, stop)[k] >= 0.0) &&
    |DepartSlice(vel, start, stop)| > 0 && (forall k :: 0 <= k < |DepartSlice(vel, start, stop)| ==> DepartSlice(vel, start, stop)[k] <= 0.0) &&
    |BrakeSlice(acc, start, stop)| > 0 && (forall k :: 0 <= k < |BrakeSlice(acc, start, stop)| ==> BrakeSlice(acc, start, stop)[k] >= 0.0) &&
    |MiddleSlice(acc, start, stop)| > 0 && (forall k :: 0 <= k < |MiddleSlice(acc, start, stop)| ==> MiddleSlice(acc, start, stop)[k] <= 0.0) &&
    CountNonZero(SpanSlice(vel, start, stop)) as real >= 0.8 * (stop - start - 1) as real
  }

  /**
   * `validateKick` of one channel. The checks run in order and the first one
   * that fails returns False; `.min()` or `.max()` of an empty window raises
   * ValueError instead.
   */
  function Validate(vel: seq<real>, acc: seq<real>, start: int, stop: int): (r: Result<bool>)
    ensures r.Err? ==> r.error == ValueError
    ensures !DurationOk(start, stop) ==> r == Ok(false)
  {
    var duration := (stop - start) as real * FrameTime;
    if duration < 0.5 then Ok(false)
    else if duration > 2.0 then Ok(false)
    else
      var approach := PyMin(ApproachSlice(vel, start, stop));
      if approach.Err? then Err(approach.error)
      else if approach.value < 0.0 then Ok(false)
      else
        var depart := PyMax(DepartSlice(vel, start, stop));
        if depart.Err? then Err(depart.error)
        else if depart.value > 0.0 then Ok(false)
        else
          var brake := PyMin(BrakeSlice(acc, start, stop));
          if brake.Err? then Err(brake.error)
          else if brake.value < 0.0 then Ok(false)
          else
            var middle := PyMax(MiddleSlice(acc, start, stop));
            if middle.Err? then Err(middle.error)
            else if middle.value > 0.0 then Ok(false)
            else if (CountNonZero(SpanSlice(vel, start, stop)) as real) < 0.8 * (stop - start - 1) as real then Ok(false)
            else Ok(true)
  }

  /** `validateKick` returns True exactly for candidates of the shape KickShape describes. */
  lemma ValidateMeansKickShape(vel: seq<real>, acc: seq<real>, start: int, stop: int)
    ensures Validate(vel, acc, start, stop) == Ok(true) <==> KickShape(vel, acc, start, stop)
  {
    var approach, depart := ApproachSlice(vel, start, stop), DepartSlice(vel, start, stop);
    var brake, middle := BrakeSlice(acc, start, stop), MiddleSlice(acc, start, stop);
    var counted := CountNonZero(SpanSlice(vel, start, stop)) as real >= 0.8 * (stop - start - 1) as real;
    var approachOk := |approach| > 0 && forall k :: 0 <= k < |approach| ==> approach[k] >= 0.0;
    var departOk := |depart| > 0 && forall k :: 0 <= k < |depart| ==> depart[k] <= 0.0;
    var brakeOk := |brake| > 0 && forall k :: 0 <= k < |brake| ==> brake[k] >= 0.0;
    var middleOk := |middle| > 0 && forall k :: 0 <= k < |middle| ==> middle[k] <= 0.0;
    assert approachOk <==> PyMin(approach).Ok? && !(PyMin(approach).value < 0.0) by {
      if |approach| > 0 { PyMinBelow(approach, 0.0); }
    }
    assert departOk <==> PyMax(depart).Ok? && !(PyMax(depart).value > 0.0) by {
      if |depart| > 0 { PyMaxAbove(depart, 0.0); }
    }
    assert brakeOk <==> PyMin(brake).Ok? && !(PyMin(brake).value < 0.0) by {
      if |brake| > 0 { PyMinBelow(brake, 0.0); }
    }
    assert middleOk <==> PyMax(middle).Ok? && !(PyMax(middle).value > 0.0) by {
      if |middle| > 0 { PyMaxAbove(middle, 0.0); }
    }
    assert KickShape(vel, acc, start, stop) ==
      (DurationOk(start, stop) && approachOk && departOk && brakeOk && middleOk && counted);
  }

  /** The duration check in frames: a kick spans between 13 and 50 frames. */
  lemma DurationInFrames(start: int, stop: int)
    ensures DurationOk(start, stop) <==> 13 <= stop - start <= 50
  {
    var d := stop - start;
    if 13 <= d <= 50 {
      assert 0.5 <= d as real * FrameTime <= 2.0;
    }
    if DurationOk(start, stop) {
      assert d as real >= 12.5 && d as real <= 50.0;
    }
  }

  /**
   * Where the detector calls it (`stop = -14`, `start < -14`, 50-row buffers),
   * validation never reaches an empty window, so it never raises.
   */
  lemma ValidateNeverRaises(vel: seq<real>, acc: seq<real>, start: int)
    requires |vel| == BufferSize && |acc| == BufferSize && start < -14
    ensures Validate(vel, acc, start, -14).Ok?
  {
    var stop := -14;
    DurationInFrames(start, stop);
    if DurationOk(start, stop) {
      var d := stop - start;
      assert 13 <= d <= 50;
      assert |ApproachSlice(vel, start, stop)| > 0;
      assert |DepartSlice(vel, start, stop)| > 0;
      assert |BrakeSlice(acc, start, stop)| > 0;
      MiddleNonEmpty(acc, start);
    }
  }

  /** The middle window is non-empty for every duration the first two checks let through. */
  lemma MiddleNonEmpty(acc: seq<real>, start: int)
    requires |acc| == BufferSize && 13 <= -14 - start <= 50
    ensures |MiddleSlice(acc, start, -14)| > 0
  {
    var d := -14 - start;
    var ksa, kso := start - TimeAvgLen / 2, -14 + TimeAvgLen / 2;
    var fl := ksa as real + (kso - ksa) as real * 39.0 / 80.0;
    var fr := kso as real - (kso - ksa + 1) as real * 39.0 / 80.0;
    assert fl <= fr;
    RoundMonotone(fl, fr);
    RoundMonotone(-40.0, fl);
    RoundOfInteger(-40);
    RoundMonotone(fr, -20.0);
    RoundOfInteger(-20);
    var left, right := MiddleLeft(start, -14), MiddleRight(start, -14);
    assert -41 <= left && left < right && right <= -20;
  }

  // ---------------------------------------------------------------------
  // The frame loop

  /** One printed detection line: `frame`, `yagi_kick`, `patch_kick`, `kick_start`. */
  datatype Event = Event(frame: int, yagiKick: bool, patchKick: bool, kickStart: int)

  /** Everything the frame loop carries from one frame to the next. */
  datatype DetectorState = DetectorState(
    frame: int,
    vel: seq<Row>, movVel: seq<Row>, acc: seq<Row>, movAcc: seq<Row>,
    kickStart: int, kickStop: int,
    startIndex: seq<int>, stopIndex: seq<int>,
    events: seq<Event>)

  predicate Shaped(st: DetectorState)
  {
    |st.vel| == BufferSize && |st.movVel| == BufferSize &&
    |st.acc| == BufferSize && |st.movAcc| == BufferSize
  }

  function Zeros(): (rows: seq<Row>)
    ensures |rows| == BufferSize
  {
    seq(BufferSize, _ => Row(0.0, 0.0))
  }

  /** The state before the first frame: zero buffers, sentinels 1 and 0, nothing recorded. */
  function Initial(): (st: DetectorState)
    ensures Shaped(st)
  {
    DetectorState(0, Zeros(), Zeros(), Zeros(), Zeros(), 1, 0, [], [], [])
  }

  /** `(movVel[local_index - 1] - movVel[local_index - 2]) / FrameTime`, per channel. */
  function Acceleration(movVel: seq<Row>): Row
    requires |movVel| == BufferSize
  {
    var now, before := At(movVel, VelocitySkip - 1), At(movVel, VelocitySkip - 2);
    Row((now.patch - before.patch) / FrameTime, (now.yagi - before.yagi) / FrameTime)
  }

  /** The acceleration rows averaged by the acceleration stage: offsets -16 .. -7. */
  function AccelerationWindow(acc: seq<Row>): (w: seq<Row>)
    requires |acc| == BufferSize
    ensures |w| == TimeAvgLen
  {
    Slice(acc, -1 - 3 * TimeAvgLen / 2, -1 - 3 * TimeAvgLen / 2 + TimeAvgLen)
  }

  /** Number of entries of `s` whose magnitude is below the detection speed. */
  function CountQuiet(s: seq<real>): (c: nat)
    ensures c <= |s|
  {
    if |s| == 0 then 0 else (if Abs(s[0]) < DetectionSpeed then 1 else 0) + CountQuiet(s[1..])
  }

  /** The five yagi velocities `movVel[-arange(5) + local_index - 1, 1]`. */
  function StopWindow(movVel: seq<Row>): (w: seq<real>)
    requires |movVel| == BufferSize
    ensures |w| == 5
  {
    seq(5, k requires 0 <= k < 5 => At(movVel, LocalIndex - 1 - k).yagi)
  }

  /** The velocity stage, once `i >= time_avg_len - 1`: the smoothed velocity, then the acceleration. */
  function SmoothVelocity(st: DetectorState): (r: DetectorState)
    requires Shaped(st)
    ensures Shaped(r)
  {
    var movVel := ShiftedLeftSkip(st.movVel, MeanRows(Slice(st.vel, -TimeAvgLen, -1)), VelocitySkip);
    st.(movVel := movVel, acc := ShiftedLeftSkip(st.acc, Acceleration(movVel), VelocitySkip))
  }

  /** The smoothed acceleration of the detection stage, once `i > 2 * time_avg_len - 1`. */
  function SmoothAcceleration(st: DetectorState): (r: DetectorState)
    requires Shaped(st)
    ensures Shaped(r)
  {
    st.(movAcc := ShiftedLeftSkip(st.movAcc, MeanRows(AccelerationWindow(st.acc)), LocalIndex + 1))
  }

  /** Whether the stop rule fires for a start pointer already shifted left: `> 3` quiet samples and `local_index - start > 3`. */
  predicate StopFires(st: DetectorState, start: int)
    requires Shaped(st)
  {
    st.kickStop == 0 && CountQuiet(StopWindow(st.movVel)) > 3 && LocalIndex - start > 3
  }

  /** The outcomes of `validateKick` on the yagi channel (1) and the patch channel (0). */
  datatype Verdict = Verdict(yagi: bool, patch: bool)

  /** Both channels validated for a candidate from `start` to `stop = local_index - 3`. */
  function Verdicts(movVel: seq<Row>, movAcc: seq<Row>, start: int): (v: Verdict)
    requires |movVel| == BufferSize && |movAcc| == BufferSize && start < LocalIndex - 3
  {
    var stop := LocalIndex - 3;
    ValidateNeverRaises(Column(movVel, 1), Column(movAcc, 1), start);
    ValidateNeverRaises(Column(movVel, 0), Column(movAcc, 0), start);
    Verdict(Validate(Column(movVel, 1), Column(movAcc, 1), start, stop).value,
            Validate(Column(movVel, 0), Column(movAcc, 0), start, stop).value)
  }

  /**
   * A stop has fired for the candidate starting at `start`: both channels are
   * validated, the event is printed, the kick is recorded as `(i + start, i)`
   * when both pass, and the pointers go back to the sentinels 1 and 0.
   */
  function Resolve(st: DetectorState, start: int, verdict: Verdict): (r: DetectorState)
    requires Shaped(st)
    ensures Shaped(r)
  {
    var kept := verdict.yagi && verdict.patch;
    st.(kickStart := 1, kickStop := 0,
        startIndex := if kept then st.startIndex + [st.frame + start] else st.startIndex,
        stopIndex := if kept then st.stopIndex + [st.frame] else st.stopIndex,
        events := st.events + [Event(st.frame, verdict.yagi, verdict.patch, st.frame + start)])
  }

  /** The two-pointer state machine on the smoothed buffers. */
  function Detect(st: DetectorState): (r: DetectorState)
    requires Shaped(st)
    ensures Shaped(r)
  {
    if st.kickStart == 1 then
      if Abs(At(st.movVel, LocalIndex - 1).yagi) > DetectionSpeed then st.(kickStart := LocalIndex) else st
    else
      var start := st.kickStart - 1;
      if StopFires(st, start) then Resolve(st, start, Verdicts(st.movVel, st.movAcc, start))
      else
        st.(kickStart := start)
  }

  /** The buffers after the smoothing stages of frame `st.frame`; nothing but the buffers changes. */
  function Smoothed(st: DetectorState, fields: seq<bv16>): (r: DetectorState)
    requires Shaped(st) && |fields| == 8
    ensures Shaped(r) && SamePointers(r, st)
  {
    var pushed := st.(vel := ShiftedLeft(st.vel, VelocityRow(fields)));
    var smoothed := if st.frame >= TimeAvgLen - 1 then SmoothVelocity(pushed) else pushed;
    if st.frame > 2 * TimeAvgLen - 1 then SmoothAcceleration(smoothed) else smoothed
  }

  /** One iteration of the frame loop of `kick_detection` for the record `fields` of frame `st.frame`. */
  function Advance(st: DetectorState, fields: seq<bv16>): (r: DetectorState)
    requires Shaped(st) && |fields| == 8
    ensures Shaped(r)
    ensures r.frame == st.frame + 1
  {
    var ready := Smoothed(st, fields);
    (if st.frame > 2 * TimeAvgLen - 1 then Detect(ready) else ready).(frame := st.frame + 1)
  }

  /** The state after a whole recording. */
  function Run(st: DetectorState, frames: seq<seq<bv16>>): (r: DetectorState)
    requires Shaped(st)
    requires forall k :: 0 <= k < |frames| ==> |frames[k]| == 8
    ensures Shaped(r)
    decreases |frames|
  {
    if |frames| == 0 then st else Run(Advance(st, frames[0]), frames[1..])
  }

  // ---------------------------------------------------------------------
  // Properties of the frame loop

  /**
   * Resolving a candidate resets the pointers to the sentinels, appends one
   * printed event, and records the kick exactly when both channels pass;
   * the buffers and the frame counter are untouched.
   */
  lemma ResolveRecords(st: DetectorState, start: int, verdict: Verdict)
    requires Shaped(st)
    ensures var r := Resolve(st, start, verdict);
            r.kickStart == 1 && r.kickStop == 0 &&
            r.frame == st.frame && r.vel == st.vel && r.movVel == st.movVel && r.acc == st.acc && r.movAcc == st.movAcc &&
            st.events <= r.events && |r.events| == |st.events| + 1 &&
            st.startIndex <= r.startIndex && st.stopIndex <= r.stopIndex &&
            |r.startIndex| == |st.startIndex| + (if verdict.yagi && verdict.patch then 1 else 0) &&
            |r.stopIndex| == |st.stopIndex| + (if verdict.yagi && verdict.patch then 1 else 0)
  {
  }

  /**
   * The comparison step of a frame changes no buffer and not the frame
   * counter; it prints at most one event, after the earlier ones, and
   * never takes back a recorded kick.
   */
  lemma DetectKeepsBuffers(st: DetectorState)
    requires Shaped(st)
    ensures var r := Detect(st);
            r.frame == st.frame && r.vel == st.vel && r.movVel == st.movVel && r.acc == st.acc && r.movAcc == st.movAcc &&
            st.events <= r.events && |r.events| <= |st.events| + 1 &&
            st.startIndex <= r.startIndex && st.stopIndex <= r.stopIndex
  {
    if st.kickStart != 1 && StopFires(st, st.kickStart - 1) {
      ResolveRecords(st, st.kickStart - 1, Verdicts(st.movVel, st.movAcc, st.kickStart - 1));
    }
  }

  /** A frame never takes back a printed event or a recorded kick. */
  lemma AdvanceExtends(st: DetectorState, fields: seq<bv16>)
    requires Shaped(st) && |fields| == 8
    ensures var r := Advance(st, fields);
            st.events <= r.events && st.startIndex <= r.startIndex && st.stopIndex <= r.stopIndex
  {
    var ready := Smoothed(st, fields);
    if st.frame > 2 * TimeAvgLen - 1 {
      DetectKeepsBuffers(ready);
    }
  }

  /**
   * Over a run of frames the counter advances once per frame, and the
   * printed events and recorded kicks only grow: what was printed before
   * stays a prefix of what is printed after.
   */
  lemma {:induction false} RunExtends(st: DetectorState, frames: seq<seq<bv16>>)
    requires Shaped(st)
    requires forall k :: 0 <= k < |frames| ==> |frames[k]| == 8
    ensures var r := Run(st, frames);
            r.frame == st.frame + |frames| &&
            st.events <= r.events && st.startIndex <= r.startIndex && st.stopIndex <= r.stopIndex
    decreases |frames|
  {
    if |frames| > 0 {
      var next := Advance(st, frames[0]);
      AdvanceExtends(st, frames[0]);
      RunExtends(next, frames[1..]);
      PrefixTransitive(st.events, next.events, Run(next, frames[1..]).events);
      PrefixTransitive(st.startIndex, next.startIndex, Run(next, frames[1..]).startIndex);
      PrefixTransitive(st.stopIndex, next.stopIndex, Run(next, frames[1..]).stopIndex);
    }
  }

  lemma PrefixTransitive<T>(a: seq<T>, b: seq<T>, c: seq<T>)
    requires a <= b && b <= c
    ensures a <= c
  {
    assert a == b[..|a|] && b == c[..|b|];
    assert c[..|b|][..|a|] == c[..|a|];
  }

  /**
   * Before frame `time_avg_len - 1` only the raw buffer moves; before frame
   * `2 * time_avg_len` the acceleration average, the pointers and everything
   * recorded stay as they are.
   */
  lemma WarmUp(st: DetectorState, fields: seq<bv16>)
    requires Shaped(st) && |fields| == 8
    ensures st.frame < TimeAvgLen - 1 ==>
              Advance(st, fields).movVel == st.movVel && Advance(st, fields).acc == st.acc
    ensures st.frame <= 2 * TimeAvgLen - 1 ==>
              var r := Advance(st, fields);
              r.movAcc == st.movAcc && r.kickStart == st.kickStart && r.kickStop == st.kickStop &&
              r.startIndex == st.startIndex && r.stopIndex == st.stopIndex && r.events == st.events
  {
  }

  /** Two states that agree on everything but the buffers. */
  predicate SamePointers(a: DetectorState, b: DetectorState)
  {
    a.frame == b.frame && a.kickStart == b.kickStart && a.kickStop == b.kickStop &&
    a.startIndex == b.startIndex && a.stopIndex == b.stopIndex && a.events == b.events
  }

  /** The pointers and the recorded kicks as the loop keeps them between frames. */
  predicate PointersOk(st: DetectorState)
  {
    st.kickStop == 0 &&
    (st.kickStart == 1 || st.kickStart <= LocalIndex) &&
    |st.startIndex| == |st.stopIndex| &&
    (forall k :: 0 <= k < |st.stopIndex| ==> 27 <= st.stopIndex[k] - st.startIndex[k] <= 64) &&
    (forall k :: 0 <= k < |st.stopIndex| ==> st.stopIndex[k] < st.frame) &&
    (forall j, k :: 0 <= j < k < |st.stopIndex| ==> st.stopIndex[j] < st.stopIndex[k]) &&
    (forall j, k :: 0 <= j < k < |st.stopIndex| ==> st.stopIndex[j] - 10 <= st.startIndex[k]) &&
    (st.kickStart != 1 && |st.stopIndex| > 0 ==> st.stopIndex[|st.stopIndex| - 1] - 9 <= st.frame + st.kickStart)
  }

  predicate Inv(st: DetectorState)
  {
    Shaped(st) && PointersOk(st)
  }

  lemma InitialInv()
    ensures Inv(Initial())
  {
  }

  /** A kick that the yagi channel accepts spans `-start` frames, between 27 and 64. */
  lemma AcceptedSpan(st: DetectorState, start: int)
    requires Shaped(st) && start < LocalIndex - 3
    requires Verdicts(st.movVel, st.movAcc, start).yagi
    ensures 27 <= -start <= 64
  {
    ValidateMeansKickShape(Column(st.movVel, 1), Column(st.movAcc, 1), start, LocalIndex - 3);
    DurationInFrames(start, LocalIndex - 3);
  }

  /** Appending a kick `(b, e)` that follows the recorded ones keeps the recorded-kick part of the invariant. */
  lemma AppendKick(starts: seq<int>, stops: seq<int>, b: int, e: int, frame: int)
    requires |starts| == |stops|
    requires forall k :: 0 <= k < |stops| ==> 27 <= stops[k] - starts[k] <= 64
    requires forall k :: 0 <= k < |stops| ==> stops[k] < frame
    requires forall j, k :: 0 <= j < k < |stops| ==> stops[j] < stops[k]
    requires forall j, k :: 0 <= j < k < |stops| ==> stops[j] - 10 <= starts[k]
    requires 27 <= e - b <= 64 && e == frame
    requires |stops| > 0 ==> stops[|stops| - 1] - 10 <= b
    ensures var starts', stops' := starts + [b], stops + [e];
      (forall k :: 0 <= k < |stops'| ==> 27 <= stops'[k] - starts'[k] <= 64) &&
      (forall k :: 0 <= k < |stops'| ==> stops'[k] < frame + 1) &&
      (forall j, k :: 0 <= j < k < |stops'| ==> stops'[j] < stops'[k]) &&
      (forall j, k :: 0 <= j < k < |stops'| ==> stops'[j] - 10 <= starts'[k])
  {
    var starts', stops' := starts + [b], stops + [e];
    assert forall k :: 0 <= k < |stops| ==> stops'[k] == stops[k] && starts'[k] == starts[k];
  }

  /** `Resolve` overwrites both pointers, so their values beforehand do not matter. */
  lemma ResolveOverwritesPointers(st: DetectorState, start: int, stop: int, verdict: Verdict)
    requires Shaped(st)
    ensures Resolve(st.(kickStart := start, kickStop := stop), start, verdict) == Resolve(st, start, verdict)
  {
  }

  /** Resolving a candidate keeps the pointer invariant, given that an accepted kick spans 27 to 64 frames. */
  lemma ResolveKeepsPointers(st: DetectorState, verdict: Verdict)
    requires Shaped(st) && PointersOk(st) && st.kickStart <= LocalIndex
    requires verdict.yagi && verdict.patch ==> 27 <= -(st.kickStart - 1) <= 64
    ensures PointersOk(Resolve(st, st.kickStart - 1, verdict).(frame := st.frame + 1))
  {
    if verdict.yagi && verdict.patch {
      KeptKickKeepsPointers(st, verdict);
    } else {
      DroppedKickKeepsPointers(st, verdict);
    }
  }

  /** A kick both channels accept is appended to the recorded kicks. */
  lemma KeptKickKeepsPointers(st: DetectorState, verdict: Verdict)
    requires Shaped(st) && PointersOk(st) && st.kickStart <= LocalIndex
    requires verdict.yagi && verdict.patch && 27 <= -(st.kickStart - 1) <= 64
    ensures PointersOk(Resolve(st, st.kickStart - 1, verdict).(frame := st.frame + 1))
  {
    var r := Resolve(st, st.kickStart - 1, verdict).(frame := st.frame + 1);
    AppendKick(st.startIndex, st.stopIndex, st.frame + st.kickStart - 1, st.frame, st.frame);
    SentinelPointersOk(r);
  }

  /** A rejected kick leaves the recorded kicks as they were. */
  lemma DroppedKickKeepsPointers(st: DetectorState, verdict: Verdict)
    requires Shaped(st) && PointersOk(st) && !(verdict.yagi && verdict.patch)
    ensures PointersOk(Resolve(st, st.kickStart - 1, verdict).(frame := st.frame + 1))
  {
    var r := Resolve(st, st.kickStart - 1, verdict).(frame := st.frame + 1);
    assert r.startIndex == st.startIndex && r.stopIndex == st.stopIndex;
    SentinelPointersOk(r);
  }

  /** With both pointers at their sentinels, the invariant is about the recorded kicks alone. */
  lemma SentinelPointersOk(r: DetectorState)
    requires r.kickStart == 1 && r.kickStop == 0 && |r.startIndex| == |r.stopIndex|
    requires forall k :: 0 <= k < |r.stopIndex| ==> 27 <= r.stopIndex[k] - r.startIndex[k] <= 64
    requires forall k :: 0 <= k < |r.stopIndex| ==> r.stopIndex[k] < r.frame
    requires forall j, k :: 0 <= j < k < |r.stopIndex| ==> r.stopIndex[j] < r.stopIndex[k]
    requires forall j, k :: 0 <= j < k < |r.stopIndex| ==> r.stopIndex[j] - 10 <= r.startIndex[k]
    ensures PointersOk(r)
  {
  }

  /** A fired stop keeps the pointer invariant. */
  lemma FiredStopKeepsPointers(st: DetectorState)
    requires Shaped(st) && PointersOk(st) && st.kickStart <= LocalIndex && st.kickStart - 1 < LocalIndex - 3
    ensures PointersOk(Resolve(st, st.kickStart - 1, Verdicts(st.movVel, st.movAcc, st.kickStart - 1)).(frame := st.frame + 1))
  {
    var start := st.kickStart - 1;
    var verdict := Verdicts(st.movVel, st.movAcc, start);
    if verdict.yagi {
      AcceptedSpan(st, start);
    }
    ResolveKeepsPointers(st, verdict);
  }

  /** The state machine keeps the pointer invariant, counting the frame it runs in. */
  lemma DetectKeepsPointers(st: DetectorState)
    requires Shaped(st) && PointersOk(st)
    ensures PointersOk(Detect(st).(frame := st.frame + 1))
  {
    if st.kickStart != 1 && StopFires(st, st.kickStart - 1) {
      FiredDetectKeepsPointers(st);
    } else {
      QuietDetectKeepsPointers(st);
    }
  }

  /** A fired stop keeps the pointer invariant, counting the frame it fires in. */
  lemma FiredDetectKeepsPointers(st: DetectorState)
    requires Shaped(st) && PointersOk(st) && st.kickStart != 1 && StopFires(st, st.kickStart - 1)
    ensures PointersOk(Detect(st).(frame := st.frame + 1))
  {
    var start := st.kickStart - 1;
    assert Detect(st) == Resolve(st, start, Verdicts(st.movVel, st.movAcc, start));
    FiredStopKeepsPointers(st);
  }

  /** Arming, waiting or counting down the live start keeps the pointer invariant. */
  lemma QuietDetectKeepsPointers(st: DetectorState)
    requires Shaped(st) && PointersOk(st) && !(st.kickStart != 1 && StopFires(st, st.kickStart - 1))
    ensures PointersOk(Detect(st).(frame := st.frame + 1))
  {
    var ks := if st.kickStart != 1 then st.kickStart - 1
      else if Abs(At(st.movVel, LocalIndex - 1).yagi) > DetectionSpeed then LocalIndex else 1;
    assert Detect(st).(frame := st.frame + 1) == st.(kickStart := ks, frame := st.frame + 1);
    MovedStartKeepsPointers(st, ks);
  }

  /** Moving only the live start, within the range the invariant allows, keeps the pointer invariant for the next frame. */
  lemma MovedStartKeepsPointers(st: DetectorState, ks: int)
    requires PointersOk(st) && (ks == 1 || ks <= LocalIndex)
    requires ks != 1 && |st.stopIndex| > 0 ==> st.stopIndex[|st.stopIndex| - 1] - 9 <= st.frame + 1 + ks
    ensures PointersOk(st.(kickStart := ks, frame := st.frame + 1))
  {
  }

  /**
   * Every frame keeps the invariant: a recorded kick spans 27 to 64 frames,
   * recorded stops strictly increase and lie in the past, and a kick starts
   * at most 10 frames before the previous one stopped.
   */
  lemma AdvanceKeepsInv(st: DetectorState, fields: seq<bv16>)
    requires Inv(st) && |fields| == 8
    ensures Inv(Advance(st, fields))
  {
    if st.frame > 2 * TimeAvgLen - 1 {
      DetectingFrameKeepsPointers(st, fields);
    } else {
      EarlyFrameKeepsPointers(st, fields);
    }
  }

  lemma DetectingFrameKeepsPointers(st: DetectorState, fields: seq<bv16>)
    requires Inv(st) && |fields| == 8 && st.frame > 2 * TimeAvgLen - 1
    ensures PointersOk(Advance(st, fields))
  {
    AdvanceCases(st, fields);
    var ready := Smoothed(st, fields);
    SamePointersOk(ready, st);
    DetectKeepsPointers(ready);
  }

  lemma EarlyFrameKeepsPointers(st: DetectorState, fields: seq<bv16>)
    requires Inv(st) && |fields| == 8 && st.frame <= 2 * TimeAvgLen - 1
    ensures PointersOk(Advance(st, fields))
  {
    AdvanceCases(st, fields);
    NextFramePointersOk(st);
    SamePointersOk(Advance(st, fields), st.(frame := st.frame + 1));
  }

  /** A frame before detection starts leaves the pointers alone; after that, it runs the detection on the smoothed state. */
  lemma AdvanceCases(st: DetectorState, fields: seq<bv16>)
    requires Shaped(st) && |fields| == 8
    ensures st.frame <= 2 * TimeAvgLen - 1 ==> SamePointers(Advance(st, fields), st.(frame := st.frame + 1))
    ensures st.frame > 2 * TimeAvgLen - 1 ==> Advance(st, fields) == Detect(Smoothed(st, fields)).(frame := st.frame + 1)
  {
  }

  lemma SamePointersOk(a: DetectorState, b: DetectorState)
    requires SamePointers(a, b) && PointersOk(b)
    ensures PointersOk(a)
  {
  }

  /** The pointers stay valid when a frame without a detection goes by. */
  lemma NextFramePointersOk(st: DetectorState)
    requires PointersOk(st)
    ensures PointersOk(st.(frame := st.frame + 1))
  {
  }

  /** The invariant holds after any prefix of a recording. */
  lemma {:induction false} RunKeepsInv(st: DetectorState, frames: seq<seq<bv16>>)
    requires Inv(st)
    requires forall k :: 0 <= k < |frames| ==> |frames[k]| == 8
    ensures Inv(Run(st, frames))
    decreases |frames|
  {
    if |frames| > 0 {
      AdvanceKeepsInv(st, frames[0]);
      RunKeepsInv(Advance(st, frames[0]), frames[1..]);
    }
  }

  /**
   * What the state machine does to the printed events and the recorded
   * kicks: either nothing, or exactly one event for this frame, whose start is
   * the armed pointer shifted once more; the kick `(start, frame)` is recorded
   * exactly when both channels passed, and the pointers return to idle.
   */
  predicate EventStep(st: DetectorState, r: DetectorState)
  {
    (r.events == st.events && r.startIndex == st.startIndex && r.stopIndex == st.stopIndex) ||
    (st.kickStart <= LocalIndex && r.kickStart == 1 &&
     |r.events| == |st.events| + 1 && r.events[..|st.events|] == st.events &&
     var e := r.events[|st.events|];
     e.frame == st.frame && e.kickStart == st.frame + st.kickStart - 1 &&
     (e.yagiKick && e.patchKick ==>
        r.startIndex == st.startIndex + [e.kickStart] && r.stopIndex == st.stopIndex + [e.frame]) &&
     (!(e.yagiKick && e.patchKick) ==> r.startIndex == st.startIndex && r.stopIndex == st.stopIndex))
  }

  lemma DetectEvents(st: DetectorState)
    requires Shaped(st) && PointersOk(st)
    ensures EventStep(st, Detect(st))
  {
    if st.kickStart != 1 && StopFires(st, st.kickStart - 1) {
      var start := st.kickStart - 1;
      assert Detect(st) == Resolve(st, start, Verdicts(st.movVel, st.movAcc, start));
      ResolveEvents(st, Verdicts(st.movVel, st.movAcc, start));
    } else {
      var r := Detect(st);
      assert r.events == st.events && r.startIndex == st.startIndex && r.stopIndex == st.stopIndex;
    }
  }

  /** A fired stop prints one event for the live candidate and records it exactly when both channels pass. */
  lemma ResolveEvents(st: DetectorState, verdict: Verdict)
    requires Shaped(st) && st.kickStart <= LocalIndex
    ensures EventStep(st, Resolve(st, st.kickStart - 1, verdict))
  {
    var r := Resolve(st, st.kickStart - 1, verdict);
    assert r.events[..|st.events|] == st.events;
  }

  /** Each frame prints at most one event, and records a kick only together with an event that accepts it. */
  lemma AdvanceEvents(st: DetectorState, fields: seq<bv16>)
    requires Inv(st) && |fields| == 8
    ensures EventStep(st, Advance(st, fields))
  {
    if st.frame > 2 * TimeAvgLen - 1 {
      DetectEvents(Smoothed(st, fields));
    }
  }

  /**
   * While a candidate stays armed, `i + buffer_kick_start` does not move: the
   * pointer is shifted left exactly as the frame index advances.
   */
  lemma ArmedStartIsFixed(st: DetectorState, fields: seq<bv16>)
    requires Inv(st) && |fields| == 8 && st.kickStart != 1 && st.frame > 2 * TimeAvgLen - 1
    requires Advance(st, fields).kickStart != 1
    ensures Advance(st, fields).frame + Advance(st, fields).kickStart == st.frame + st.kickStart
  {
  }

  /** Arming happens only from the idle sentinel, sets the pointer to `local_index`, and prints nothing. */
  lemma ArmingSetsLocalIndex(st: DetectorState, fields: seq<bv16>)
    requires Inv(st) && |fields| == 8 && st.kickStart == 1
    ensures Advance(st, fields).kickStart == 1 || Advance(st, fields).kickStart == LocalIndex
    ensures Advance(st, fields).events == st.events && Advance(st, fields).stopIndex == st.stopIndex
  {
  }

  /** From idle, the state machine arms exactly when `|movavg_vel[local_index - 1, 1]|` exceeds the detection speed, and prints nothing. */
  lemma IdleDetect(st: DetectorState)
    requires Shaped(st) && st.kickStart == 1
    ensures Detect(st).events == st.events && Detect(st).startIndex == st.startIndex && Detect(st).stopIndex == st.stopIndex
    ensures Detect(st).kickStart == LocalIndex <==> Abs(At(st.movVel, LocalIndex - 1).yagi) > DetectionSpeed
    ensures Detect(st).kickStart == 1 <==> Abs(At(st.movVel, LocalIndex - 1).yagi) <= DetectionSpeed
  {
  }

  /** While armed, an event is printed exactly when the stop rule fires; otherwise the start pointer moves one place left. */
  lemma ArmedDetect(st: DetectorState)
    requires Shaped(st) && st.kickStart != 1
    ensures |Detect(st).events| == |st.events| + 1 <==> StopFires(st, st.kickStart - 1)
    ensures !StopFires(st, st.kickStart - 1) ==>
              Detect(st).events == st.events && Detect(st).kickStart == st.kickStart - 1 &&
              Detect(st).startIndex == st.startIndex && Detect(st).stopIndex == st.stopIndex
  {
  }

  /**
   * The verdicts of a candidate are `validateKick`'s results on the yagi
   * (column 1) and the patch (column 0) channel, neither of which raises.
   */
  lemma VerdictsValidate(movVel: seq<Row>, movAcc: seq<Row>, start: int)
    requires |movVel| == BufferSize && |movAcc| == BufferSize && start < LocalIndex - 3
    ensures var yagi := Validate(Column(movVel, 1), Column(movAcc, 1), start, LocalIndex - 3);
            var patch := Validate(Column(movVel, 0), Column(movAcc, 0), start, LocalIndex - 3);
            yagi.Ok? && patch.Ok? && Verdicts(movVel, movAcc, start) == Verdict(yagi.value, patch.value)
  {
    ValidateNeverRaises(Column(movVel, 1), Column(movAcc, 1), start);
    ValidateNeverRaises(Column(movVel, 0), Column(movAcc, 0), start);
  }

  /** When the stop rule fires, the printed event carries the candidate's verdicts and the pointers return to idle. */
  lemma FiredDetect(st: DetectorState)
    requires Shaped(st) && st.kickStart != 1 && StopFires(st, st.kickStart - 1)
    ensures var v := Verdicts(st.movVel, st.movAcc, st.kickStart - 1);
            Detect(st).events == st.events + [Event(st.frame, v.yagi, v.patch, st.frame + st.kickStart - 1)] &&
            Detect(st).kickStart == 1 && Detect(st).kickStop == 0
  {
    var start := st.kickStart - 1;
    assert Detect(st) == Resolve(st, start, Verdicts(st.movVel, st.movAcc, start));
  }

  /**
   * Arming on a detecting frame (`i > 2 * time_avg_len - 1`): an idle
   * detector arms at `local_index` exactly when the yagi velocity at
   * `local_index - 1`, after this frame's smoothing, exceeds the detection
   * speed, and stays idle otherwise; it prints nothing.
   */
  lemma AdvanceArms(st: DetectorState, fields: seq<bv16>)
    requires Shaped(st) && |fields| == 8 && st.frame > 2 * TimeAvgLen - 1 && st.kickStart == 1
    ensures var ready := Smoothed(st, fields);
            Advance(st, fields).events == st.events &&
            (Advance(st, fields).kickStart == LocalIndex <==> Abs(At(ready.movVel, LocalIndex - 1).yagi) > DetectionSpeed) &&
            (Advance(st, fields).kickStart == 1 <==> Abs(At(ready.movVel, LocalIndex - 1).yagi) <= DetectionSpeed)
  {
    AdvanceCases(st, fields);
    IdleDetect(Smoothed(st, fields));
  }

  /**
   * An armed detector on a detecting frame prints an event exactly when the
   * stop rule fires for the shifted start on the smoothed buffers;
   * otherwise it prints nothing and the start moves one place left.
   */
  lemma AdvanceStops(st: DetectorState, fields: seq<bv16>)
    requires Shaped(st) && |fields| == 8 && st.frame > 2 * TimeAvgLen - 1 && st.kickStart != 1
    ensures var ready := Smoothed(st, fields);
            (|Advance(st, fields).events| == |st.events| + 1 <==> StopFires(ready, st.kickStart - 1)) &&
            (!StopFires(ready, st.kickStart - 1) ==>
               Advance(st, fields).events == st.events && Advance(st, fields).kickStart == st.kickStart - 1)
  {
    AdvanceCases(st, fields);
    ArmedDetect(Smoothed(st, fields));
  }

  /**
   * The event of a fired stop: for this frame, from the shifted start,
   * with the candidate's verdicts on the smoothed buffers as its flags
   * (`validateKick`'s results on the two channels, `VerdictsValidate`);
   * the detector returns to idle. The smoothed state still carries this
   * frame's pointers and printed events.
   */
  lemma AdvanceFiredEvent(st: DetectorState, fields: seq<bv16>)
    requires Shaped(st) && |fields| == 8 && st.frame > 2 * TimeAvgLen - 1 && st.kickStart != 1
    requires StopFires(Smoothed(st, fields), st.kickStart - 1)
    ensures var ready := Smoothed(st, fields);
            var v := Verdicts(ready.movVel, ready.movAcc, ready.kickStart - 1);
            SamePointers(ready, st) &&
            Advance(st, fields).events == ready.events + [Event(ready.frame, v.yagi, v.patch, ready.frame + ready.kickStart - 1)] &&
            Advance(st, fields).kickStart == 1
  {
    AdvanceCases(st, fields);
    FiredDetect(Smoothed(st, fields));
  }

  /** A frame in which no target of either channel exceeds the threshold. */
  predicate QuietFrame(fields: seq<bv16>)
    requires |fields| == 8
  {
    forall c, j :: 0 <= c < 2 && 0 <= j < 2 ==> Velocity.ReadingAt(fields, c, j).amp <= Th
  }

  predicate ZeroRows(rows: seq<Row>)
  {
    forall k :: 0 <= k < |rows| ==> rows[k] == Row(0.0, 0.0)
  }

  /** The detector has seen nothing: all buffers zero, idle, nothing printed or recorded. */
  predicate Silent(st: DetectorState)
  {
    Shaped(st) && ZeroRows(st.vel) && ZeroRows(st.movVel) && ZeroRows(st.acc) && ZeroRows(st.movAcc) &&
    st.kickStart == 1 && st.kickStop == 0 && st.startIndex == [] && st.stopIndex == [] && st.events == []
  }

  lemma MeanOfZeroRows(rows: seq<Row>)
    requires |rows| > 0 && ZeroRows(rows)
    ensures MeanRows(rows) == Row(0.0, 0.0)
  {
    SumOfZeros(Column(rows, 0));
    SumOfZeros(Column(rows, 1));
  }

  /** A quiet frame leaves a silent detector silent. */
  lemma QuietFrameKeepsSilence(st: DetectorState, fields: seq<bv16>)
    requires Silent(st) && |fields| == 8 && QuietFrame(fields)
    ensures Silent(Advance(st, fields))
  {
    var pushed := st.(vel := ShiftedLeft(st.vel, VelocityRow(fields)));
    QuietPushKeepsSilence(st, fields);
    var smoothed := if st.frame >= TimeAvgLen - 1 then SmoothVelocity(pushed) else pushed;
    if st.frame >= TimeAvgLen - 1 {
      SmoothVelocityKeepsSilence(pushed);
    }
    var ready := if st.frame > 2 * TimeAvgLen - 1 then SmoothAcceleration(smoothed) else smoothed;
    if st.frame > 2 * TimeAvgLen - 1 {
      SmoothAccelerationKeepsSilence(smoothed);
      DetectKeepsSilence(ready);
    }
    assert ready == Smoothed(st, fields);
  }

  /** Pushing a quiet frame's velocity row keeps the buffers zero. */
  lemma QuietPushKeepsSilence(st: DetectorState, fields: seq<bv16>)
    requires Silent(st) && |fields| == 8 && QuietFrame(fields)
    ensures Silent(st.(vel := ShiftedLeft(st.vel, VelocityRow(fields))))
  {
    Velocity.QuietChannelIsStill(Velocity.ReadingAt(fields, 0, 0), Velocity.ReadingAt(fields, 0, 1), Th, NFFT, VelocityScale);
    Velocity.QuietChannelIsStill(Velocity.ReadingAt(fields, 1, 0), Velocity.ReadingAt(fields, 1, 1), Th, NFFT, VelocityScale);
    assert ZeroRows(ShiftedLeft(st.vel, VelocityRow(fields)));
  }

  lemma SmoothVelocityKeepsSilence(st: DetectorState)
    requires Silent(st)
    ensures Silent(SmoothVelocity(st))
  {
    MeanOfZeroRows(Slice(st.vel, -TimeAvgLen, -1));
    var r := SmoothVelocity(st);
    assert ZeroRows(r.movVel) && ZeroRows(r.acc);
  }

  lemma SmoothAccelerationKeepsSilence(st: DetectorState)
    requires Silent(st)
    ensures Silent(SmoothAcceleration(st))
  {
    MeanOfZeroRows(AccelerationWindow(st.acc));
    assert ZeroRows(SmoothAcceleration(st).movAcc);
  }

  /** An idle detector whose buffers are zero does not arm. */
  lemma DetectKeepsSilence(st: DetectorState)
    requires Silent(st)
    ensures Silent(Detect(st))
  {
    assert At(st.movVel, LocalIndex - 1) == Row(0.0, 0.0);
  }

  /** A recording in which no frame has a target above the threshold never prints or records a kick. */
  lemma {:induction false} SilenceDetectsNothing(st: DetectorState, frames: seq<seq<bv16>>)
    requires Silent(st)
    requires forall k :: 0 <= k < |frames| ==> |frames[k]| == 8 && QuietFrame(frames[k])
    ensures Silent(Run(st, frames))
    decreases |frames|
  {
    if |frames| > 0 {
      QuietFrameKeepsSilence(st, frames[0]);
      SilenceDetectsNothing(Advance(st, frames[0]), frames[1..]);
    }
  }

  /** The stages of one frame, run one after the other, make up `Advance`. */
  lemma StagesAdvance(st: DetectorState, fields: seq<bv16>, pushed: DetectorState, smoothed: DetectorState, detected: DetectorState)
    requires Shaped(st) && |fields| == 8
    requires pushed == st.(vel := ShiftedLeft(st.vel, VelocityRow(fields)))
    requires smoothed == if st.frame >= TimeAvgLen - 1 then SmoothVelocity(pushed) else pushed
    requires detected == if st.frame > 2 * TimeAvgLen - 1 then Detect(SmoothAcceleration(smoothed)) else smoothed
    ensures detected.frame == st.frame
    ensures detected.(frame := detected.frame + 1) == Advance(st, fields)
  {
  }

  /** The detector: its four buffers, the two pointers and what it has recorded. */
  class Detector {
    var frame: int
    const vel: array<Row>
    const movVel: array<Row>
    const acc: array<Row>
    const movAcc: array<Row>
    var kickStart: int
    var kickStop: int
    var startIndex: seq<int>
    var stopIndex: seq<int>
    var events: seq<Event>

    ghost predicate Valid()
      reads this
    {
      vel.Length == BufferSize && movVel.Length == BufferSize &&
      acc.Length == BufferSize && movAcc.Length == BufferSize &&
      vel != movVel && vel != acc && vel != movAcc &&
      movVel != acc && movVel != movAcc && acc != movAcc
    }

    /** The loop state these fields hold. */
    function State(): DetectorState
      reads this, vel, movVel, acc, movAcc
    {
      DetectorState(frame, vel[..], movVel[..], acc[..], movAcc[..],
                    kickStart, kickStop, startIndex, stopIndex, events)
    }

    /** The set-up before the frame loop. */
    constructor()
      ensures Valid() && State() == Initial()
      ensures fresh(vel) && fresh(movVel) && fresh(acc) && fresh(movAcc)
    {
      frame := 0;
      vel := new Row[BufferSize](_ => Row(0.0, 0.0));
      movVel := new Row[BufferSize](_ => Row(0.0, 0.0));
      acc := new Row[BufferSize](_ => Row(0.0, 0.0));
      movAcc := new Row[BufferSize](_ => Row(0.0, 0.0));
      kickStart := 1;
      kickStop := 0;
      startIndex := [];
      stopIndex := [];
      events := [];
      new;
      assert vel[..] == Zeros() && movVel[..] == Zeros() && acc[..] == Zeros() && movAcc[..] == Zeros();
    }

    /** One iteration of the frame loop. */
    method Step(fields: seq<bv16>)
      requires Valid() && |fields| == 8
      modifies this, vel, movVel, acc, movAcc
      ensures Valid()
      ensures State() == Advance(old(State()), fields)
    {
      ghost var st := State();
      PushVelocity(fields);
      ghost var pushed := State();
      if frame >= TimeAvgLen - 1 {
        SmoothVelocityStage();
      }
      ghost var smoothed := State();
      if frame > 2 * TimeAvgLen - 1 {
        SmoothAccelerationStage();
        DetectStage();
      }
      ghost var detected := State();
      NextFrame();
      StagesAdvance(st, fields, pushed, smoothed, detected);
    }

    /** `i += 1`: only the frame number changes. */
    method NextFrame()
      requires Valid()
      modifies this
      ensures Valid()
      ensures State() == old(State()).(frame := old(frame) + 1)
    {
      frame := frame + 1;
    }

    /** `shift_vector_left(buffer_average_vel, convrtAveVelocity(...))`. */
    method PushVelocity(fields: seq<bv16>)
      requires Valid() && |fields| == 8
      modifies vel
      ensures Valid()
      ensures State() == old(State()).(vel := ShiftedLeft(old(vel[..]), VelocityRow(fields)))
    {
      var v := Velocity.ConvertAveVelocity(fields, Th, NFFT, VelocityScale);
      ShiftVectorLeft(vel, Row(v[0], v[1]));
    }

    /** The velocity stage: the moving average (the source scales it by 1.0) and the acceleration. */
    method SmoothVelocityStage()
      requires Valid()
      modifies movVel, acc
      ensures Valid()
      ensures State() == SmoothVelocity(old(State()))
    {
      ShiftVectorLeftSkip(movVel, MeanRows(Slice(vel[..], -TimeAvgLen, -1)), VelocitySkip);
      ShiftVectorLeftSkip(acc, Acceleration(movVel[..]), VelocitySkip);
    }

    /** The moving average of the acceleration. */
    method SmoothAccelerationStage()
      requires Valid()
      modifies movAcc
      ensures Valid()
      ensures State() == SmoothAcceleration(old(State()))
    {
      ShiftVectorLeftSkip(movAcc, MeanRows(AccelerationWindow(acc[..])), LocalIndex + 1);
    }

    /** The pointer state machine, validation and recording. */
    method DetectStage()
      requires Valid()
      modifies this
      ensures Valid()
      ensures State() == Detect(old(State()))
    {
      ghost var st := State();
      if kickStart == 1 {
        if Abs(movVel[BufferSize + LocalIndex - 1].yagi) > DetectionSpeed {
          kickStart := LocalIndex;
        }
      } else {
        kickStart := kickStart - 1;
        if kickStop == 0 && CountQuiet(StopWindow(movVel[..])) > 3 && LocalIndex - kickStart > 3 {
          assert StopFires(st, kickStart);
          kickStop := LocalIndex - 3;
          var verdict := Verdicts(movVel[..], movAcc[..], kickStart);
          assert verdict == Verdicts(st.movVel, st.movAcc, st.kickStart - 1);
          ghost var start := kickStart;
          assert State() == st.(kickStart := start, kickStop := LocalIndex - 3);
          ResolveOverwritesPointers(st, start, LocalIndex - 3, verdict);
          Record(verdict);
        } else {
          assert !StopFires(st, kickStart);
        }
      }
    }

    /** Prints the event, records the kick when both channels passed, and resets the pointers. */
    method Record(verdict: Verdict)
      requires Valid()
      modifies this
      ensures Valid()
      ensures State() == Resolve(old(State()), old(kickStart), verdict)
    {
      events := events + [Event(frame, verdict.yagi, verdict.patch, frame + kickStart)];
      if verdict.yagi && verdict.patch {
        startIndex := startIndex + [frame + kickStart];
        stopIndex := stopIndex + [frame];
      }
      kickStart := 1;
      kickStop := 0;
    }
  }

  /** `kick_detection` over a whole recording: the events it prints and the kicks it keeps. */
  method KickDetection(target: seq<seq<bv16>>) returns (events: seq<Event>, startIndex: seq<int>, stopIndex: seq<int>)
    requires forall k :: 0 <= k < |target| ==> |target[k]| == 8
    ensures events == Run(Initial(), target).events
    ensures startIndex == Run(Initial(), target).startIndex && stopIndex == Run(Initial(), target).stopIndex
  {
    var d := new Detector();
    for i := 0 to |target|
      invariant d.Valid() && fresh(d) && fresh(d.vel) && fresh(d.movVel) && fresh(d.acc) && fresh(d.movAcc)
      invariant Run(d.State(), target[i..]) == Run(Initial(), target)
    {
      d.Step(target[i]);
      assert target[i..][0] == target[i] && target[i..][1..] == target[i + 1..];
    }
    assert target[|target|..] == [];
    events, startIndex, stopIndex := d.events, d.startIndex, d.stopIndex;
  }
}
