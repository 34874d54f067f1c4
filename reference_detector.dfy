/**
 * The reference kick detector of `kick_detection_recording.py`, the
 * unbounded-array original the bounded-buffer detector was derived from.
 *
 * Its four `(frame_count, 2)` arrays are indexed by absolute frame number:
 * frame `i` (Python's `count = i + 1`) writes its raw velocity at `i`, the
 * 12-sample moving average of the velocity (times 1.5) at `count - 7`, the
 * acceleration there too, and the moving average of the acceleration at
 * `count - 13`. The pointers are the last entries of the growing arrays
 * `kick_start` and `kick_stop`; each resolved candidate appends the
 * sentinels 1 and 0, so only the last entry is live. The validator clears
 * a flag check by check and never returns early, and the patch channel is
 * validated only when the yagi channel passed.
 */
module ReferenceDetector {
  import opened PyOps
  import Velocity
  import S = StreamingDetector

  /** `time_avg_len`. */
  const TimeAvgLen: int := 12
  /** `round(0.5 * time_avg_len)`, also `round(time_avg_len / 2)`. */
  const HalfLen: int := 6
  /** `round(1.5 * time_avg_len)`. */
  const AccLead: int := 18
  /** `FrameTime = 40e-3` seconds, as an exact rational. */
  const FrameTime: real := 1.0 / 25.0
  /** `detection_speed = 1 / 40` m/s. */
  const DetectionSpeed: real := 1.0 / 40.0
  const Th: int := 100
  const NFFT: int := 32
  /** `lambda_ / 2 / PRT / (N_FFT - 1)` with `lambda_ = 3e8 / 24.125e9` and `PRT = 0.5e-3`. */
  const VelocityScale: real := 300000000.0 / 24125000000.0 / 2.0 / 0.0005 / 31.0

  /** The offsets are the Python-rounded values they are written as. */
  lemma OffsetsAreRounded()
    ensures HalfLen == RoundHalfEven(0.5 * TimeAvgLen as real)
    ensures HalfLen == RoundHalfEven(TimeAvgLen as real / 2.0)
    ensures AccLead == RoundHalfEven(1.5 * TimeAvgLen as real)
  {
    RoundOfInteger(6);
    RoundOfInteger(18);
  }

  /** `round(x)` of a number strictly nearer to `k` than half a unit is `k`. */
  lemma RoundNear(x: real, k: int)
    requires k as real - 1.0 / 2.0 < x < k as real + 1.0 / 2.0
    ensures RoundHalfEven(x) == k
  {
  }

  /** The velocity pair of `convrtAveVelocity` as a row of `AveVelocities`. */
  function VelocityRow(fields: seq<bv16>): S.Row
    requires |fields| == 8
  {
    S.Row(Velocity.VelocityOf(fields, 0, Th, NFFT, VelocityScale),
          Velocity.VelocityOf(fields, 1, Th, NFFT, VelocityScale))
  }

  /** `1.5 * row`, per channel. */
  function Boosted(r: S.Row): S.Row
  {
    S.Row(1.5 * r.patch, 1.5 * r.yagi)
  }

  // ---------------------------------------------------------------------
  // Validation

  /** A window bound `round(x)` into one of the arrays. */
  function Rounded(x: real): int
  {
    RoundHalfEven(x)
  }

  /** First third: `avg_speeds[start - 1 : round((stop - start) / 3 + start)]`. */
  function ApproachSlice(vel: seq<real>, start: int, stop: int): seq<real>
  {
    Slice(vel, start - 1, Rounded((stop - start) as real / 3.0 + start as real))
  }

  /** Last third: `avg_speeds[round(stop - (stop - start) / 3) - 1 : stop]`. */
  function DepartSlice(vel: seq<real>, start: int, stop: int): seq<real>
  {
    Slice(vel, Rounded(stop as real - (stop - start) as real / 3.0) - 1, stop)
  }

  /** Last sixth of the widened candidate, `ksa = start - 6`, `kso = stop + 6`. */
  function BrakeSlice(acc: seq<real>, start: int, stop: int): seq<real>
  {
    var ksa, kso := start - HalfLen, stop + HalfLen;
    Slice(acc, Rounded(kso as real - (kso - ksa + 1) as real / 6.0) - 1, kso)
  }

  /** `round(ksa + (kso - ksa) * 3.9 / 8) - 1`. */
  function MiddleLeft(start: int, stop: int): int
  {
    var ksa, kso := start - HalfLen, stop + HalfLen;
    Rounded(ksa as real + (kso - ksa) as real * 39.0 / 80.0) - 1
  }

  /** `round(kso - (kso - ksa + 1) * 3.9 / 8)`. */
  function MiddleRight(start: int, stop: int): int
  {
    var ksa, kso := start - HalfLen, stop + HalfLen;
    Rounded(kso as real - (kso - ksa + 1) as real * 39.0 / 80.0)
  }

  function MiddleSlice(acc: seq<real>, start: int, stop: int): seq<real>
  {
    Slice(acc, MiddleLeft(start, stop), MiddleRight(start, stop))
  }

  /** The whole candidate, `avg_speeds[start - 1 : stop]`. */
  function SpanSlice(vel: seq<real>, start: int, stop: int): seq<real>
  {
    Slice(vel, start - 1, stop)
  }

  /** Both time stamps `t[stop - 1]` and `t[start - 1]` exist. */
  predicate StampsExist(t: seq<real>, start: int, stop: int)
  {
    -|t| <= stop - 1 < |t| && -|t| <= start - 1 < |t|
  }

  /** `t[stop - 1] - t[start - 1]`. */
  function Duration(t: seq<real>, start: int, stop: int): real
    requires StampsExist(t, start, stop)
  {
    At(t, stop - 1) - At(t, start - 1)
  }

  /** All four windows are non-empty, so none of `min`/`max` raises. */
  predicate WindowsNonEmpty(vel: seq<real>, acc: seq<real>, start: int, stop: int)
  {
    |ApproachSlice(vel, start, stop)| > 0 && |DepartSlice(vel, start, stop)| > 0 &&
    |BrakeSlice(acc, start, stop)| > 0 && |MiddleSlice(acc, start, stop)| > 0
  }

  /**
   * The outcome of the reference `validateKick`: an IndexError when a time
   * stamp is missing; otherwise every window is evaluated, so an empty one
   * raises ValueError whatever the checks before it found; otherwise True
   * exactly when no check cleared the flag.
   */
  function KickValid(vel: seq<real>, acc: seq<real>, t: seq<real>, start: int, stop: int): (r: Result<bool>)
    ensures r.Err? <==> !StampsExist(t, start, stop) || !WindowsNonEmpty(vel, acc, start, stop)
    ensures r.Err? ==> (r.error == IndexError <==> !StampsExist(t, start, stop))
    ensures r.Err? ==> r.error == IndexError || r.error == ValueError
  {
    if !StampsExist(t, start, stop) then Err(IndexError)
    else
      var duration := Duration(t, start, stop);
      var approach := PyMin(ApproachSlice(vel, start, stop));
      var depart := PyMax(DepartSlice(vel, start, stop));
      var brake := PyMin(BrakeSlice(acc, start, stop));
      var middle := PyMax(MiddleSlice(acc, start, stop));
      if approach.Err? then Err(approach.error)
      else if depart.Err? then Err(depart.error)
      else if brake.Err? then Err(brake.error)
      else if middle.Err? then Err(middle.error)
      else
        Ok(!(duration < 0.5) && !(duration > 2.0) &&
           !(approach.value < 0.0) && !(depart.value > 0.0) &&
           !(brake.value < 0.0) && !(middle.value > 0.0) &&
           !((CountNonZero(SpanSlice(vel, start, stop)) as real) < 0.8 * (stop - start - 1) as real))
  }

  /** The shape a valid candidate has, stated element-wise, with the duration read from the time stamps. */
  predicate KickShape(vel: seq<real>, acc: seq<real>, t: seq<real>, start: int, stop: int)
  {
    StampsExist(t, start, stop) && WindowsNonEmpty(vel, acc, start, stop) &&
    0.5 <= Duration(t, start, stop) <= 2.0 &&
    (forall k :: 0 <= k < |ApproachSlice(vel, start, stop)| ==> ApproachSlice(vel, start, stop)[k] >= 0.0) &&
    (forall k :: 0 <= k < |DepartSlice(vel, start, stop)| ==> DepartSlice(vel, start, stop)[k] <= 0.0) &&
    (forall k :: 0 <= k < |BrakeSlice(acc, start, stop)| ==> BrakeSlice(acc, start, stop)[k] >= 0.0) &&
    (forall k :: 0 <= k < |MiddleSlice(acc, start, stop)| ==> MiddleSlice(acc, start, stop)[k] <= 0.0) &&
    CountNonZero(SpanSlice(vel, start, stop)) as real >= 0.8 * (stop - start - 1) as real
  }

  /** The reference validator accepts exactly the candidates of the shape KickShape describes. */
  lemma KickValidMeansKickShape(vel: seq<real>, acc: seq<real>, t: seq<real>, start: int, stop: int)
    ensures KickValid(vel, acc, t, start, stop) == Ok(true) <==> KickShape(vel, acc, t, start, stop)
  {
    if StampsExist(t, start, stop) && WindowsNonEmpty(vel, acc, start, stop) {
      KickValidChecks(vel, acc, t, start, stop);
      WindowChecks(ApproachSlice(vel, start, stop), DepartSlice(vel, start, stop), BrakeSlice(acc, start, stop), MiddleSlice(acc, start, stop));
    }
  }

  /** The four `min`/`max` checks of the validator, stated element-wise. */
  lemma WindowChecks(ap: seq<real>, de: seq<real>, br: seq<real>, mi: seq<real>)
    requires |ap| > 0 && |de| > 0 && |br| > 0 && |mi| > 0
    ensures PyMin(ap).value >= 0.0 <==> forall k :: 0 <= k < |ap| ==> ap[k] >= 0.0
    ensures PyMax(de).value <= 0.0 <==> forall k :: 0 <= k < |de| ==> de[k] <= 0.0
    ensures PyMin(br).value >= 0.0 <==> forall k :: 0 <= k < |br| ==> br[k] >= 0.0
    ensures PyMax(mi).value <= 0.0 <==> forall k :: 0 <= k < |mi| ==> mi[k] <= 0.0
  {
    PyMinBelow(ap, 0.0);
    PyMaxAbove(de, 0.0);
    PyMinBelow(br, 0.0);
    PyMaxAbove(mi, 0.0);
  }

  /** With the stamps present and the windows non-empty, the validator's verdict is the conjunction of its checks. */
  lemma KickValidChecks(vel: seq<real>, acc: seq<real>, t: seq<real>, start: int, stop: int)
    requires StampsExist(t, start, stop) && WindowsNonEmpty(vel, acc, start, stop)
    ensures KickValid(vel, acc, t, start, stop) ==
      Ok(0.5 <= Duration(t, start, stop) <= 2.0 &&
         PyMin(ApproachSlice(vel, start, stop)).value >= 0.0 && PyMax(DepartSlice(vel, start, stop)).value <= 0.0 &&
         PyMin(BrakeSlice(acc, start, stop)).value >= 0.0 && PyMax(MiddleSlice(acc, start, stop)).value <= 0.0 &&
         CountNonZero(SpanSlice(vel, start, stop)) as real >= 0.8 * (stop - start - 1) as real)
  {
  }

  /**
   * Unlike the bounded-buffer validator, a duration out of range does not
   * settle the outcome: the windows are still evaluated, so the result is
   * False when they are all non-empty and an error otherwise.
   */
  lemma NoEarlyReturn(vel: seq<real>, acc: seq<real>, t: seq<real>, start: int, stop: int)
    requires StampsExist(t, start, stop) && !(0.5 <= Duration(t, start, stop) <= 2.0)
    ensures KickValid(vel, acc, t, start, stop) == Ok(false) <==> WindowsNonEmpty(vel, acc, start, stop)
    ensures !WindowsNonEmpty(vel, acc, start, stop) ==> KickValid(vel, acc, t, start, stop) == Err(ValueError)
  {
  }

  /**
   * `validateKick(kick_start, kick_stop, t, avg_speeds, avg_acceleration, 12)`:
   * `isKick_valid` starts set and each failing check clears it.
   */
  method ValidateKick(vel: seq<real>, acc: seq<real>, t: seq<real>, start: int, stop: int)
    returns (r: Result<bool>)
    ensures r == KickValid(vel, acc, t, start, stop)
  {
    var isKickValid := true;
    if !StampsExist(t, start, stop) {
      return Err(IndexError);
    }
    if At(t, stop - 1) - At(t, start - 1) < 0.5 {
      isKickValid := false;
    }
    if At(t, stop - 1) - At(t, start - 1) > 2.0 {
      isKickValid := false;
    }
    var approach := PyMin(ApproachSlice(vel, start, stop));
    if approach.Err? {
      return Err(approach.error);
    }
    if approach.value < 0.0 {
      isKickValid := false;
    }
    var depart := PyMax(DepartSlice(vel, start, stop));
    if depart.Err? {
      return Err(depart.error);
    }
    if depart.value > 0.0 {
      isKickValid := false;
    }
    var brake := PyMin(BrakeSlice(acc, start, stop));
    if brake.Err? {
      return Err(brake.error);
    }
    if brake.value < 0.0 {
      isKickValid := false;
    }
    var middle := PyMax(MiddleSlice(acc, start, stop));
    if middle.Err? {
      return Err(middle.error);
    }
    if middle.value > 0.0 {
      isKickValid := false;
    }
    if (CountNonZero(SpanSlice(vel, start, stop)) as real) < 0.8 * (stop - start - 1) as real {
      isKickValid := false;
    }
    r := Ok(isKickValid);
  }

  /** For a candidate at least one frame long and starting at frame 13 or later, the middle window is non-empty. */
  lemma MiddleNonEmpty(acc: seq<real>, start: int, stop: int)
    requires 13 <= start < stop && stop + HalfLen <= |acc|
    ensures |MiddleSlice(acc, start, stop)| > 0
  {
    MiddleOrdered(start, stop);
    SliceBoundCases(MiddleLeft(start, stop), |acc|);
    SliceBoundCases(MiddleRight(start, stop), |acc|);
  }

  /** The middle window's bounds lie inside `[ksa - 1, kso]` and the left one is the smaller. */
  lemma MiddleOrdered(start: int, stop: int)
    requires 13 <= start < stop
    ensures start - HalfLen - 1 <= MiddleLeft(start, stop) < MiddleRight(start, stop) <= stop + HalfLen
  {
    var ksa, kso := start - HalfLen, stop + HalfLen;
    var d := kso - ksa;
    var fl := ksa as real + d as real * 39.0 / 80.0;
    var fr := kso as real - (d + 1) as real * 39.0 / 80.0;
    if d >= 20 {
      RoundMonotone(fl, fr);
    } else {
      MiddleShort(ksa, d, fl, fr);
    }
    RoundMonotone(ksa as real, fl);
    RoundOfInteger(ksa);
    RoundMonotone(fr, kso as real);
    RoundOfInteger(kso);
  }

  /** For spans of 13 to 19 frames both rounded bounds of the middle window are the same frame. */
  lemma MiddleShort(ksa: int, d: int, fl: real, fr: real)
    requires 13 <= d < 20
    requires fl == ksa as real + d as real * 39.0 / 80.0 && fr == (ksa + d) as real - (d + 1) as real * 39.0 / 80.0
    ensures RoundHalfEven(fl) == RoundHalfEven(fr)
  {
    var k := ksa + (if d == 13 then 6 else if d <= 15 then 7 else if d <= 17 then 8 else 9);
    RoundNear(fl, k);
    RoundNear(fr, k);
  }

  /** Under the same conditions the other three windows are non-empty. */
  lemma OuterWindowsNonEmpty(vel: seq<real>, acc: seq<real>, start: int, stop: int)
    requires 13 <= start < stop && stop + HalfLen <= |vel| && |acc| == |vel|
    ensures |ApproachSlice(vel, start, stop)| > 0
    ensures |DepartSlice(vel, start, stop)| > 0
    ensures |BrakeSlice(acc, start, stop)| > 0
  {
    var d := stop - start;
    var a := (stop - start) as real / 3.0 + start as real;
    RoundMonotone(start as real, a);
    RoundOfInteger(start);
    SliceBoundCases(start - 1, |vel|);
    SliceBoundCases(Rounded(a), |vel|);
    var b := stop as real - (stop - start) as real / 3.0;
    RoundMonotone(start as real, b);
    RoundMonotone(b, stop as real);
    RoundOfInteger(stop);
    SliceBoundCases(Rounded(b) - 1, |vel|);
    SliceBoundCases(stop, |vel|);
    var ksa, kso := start - HalfLen, stop + HalfLen;
    var c := kso as real - (kso - ksa + 1) as real / 6.0;
    RoundMonotone(1.0, c);
    RoundOfInteger(1);
    RoundMonotone(c, kso as real);
    RoundOfInteger(kso);
    SliceBoundCases(Rounded(c) - 1, |acc|);
    SliceBoundCases(kso, |acc|);
  }

  /**
   * Where the detector calls it (a start pointer at frame 13 or later, a stop
   * after it and six frames of room behind the stop), the reference validator
   * never raises.
   */
  lemma KickValidNeverRaises(vel: seq<real>, acc: seq<real>, t: seq<real>, start: int, stop: int)
    requires 13 <= start < stop && stop + HalfLen <= |vel| && |acc| == |vel| && |t| == |vel|
    ensures KickValid(vel, acc, t, start, stop).Ok?
  {
    OuterWindowsNonEmpty(vel, acc, start, stop);
    MiddleNonEmpty(acc, start, stop);
  }

  // ---------------------------------------------------------------------
  // The frame loop

  /** Everything the frame loop carries from one frame to the next; `count` frames have been processed. */
  datatype RefState = RefState(
    count: nat,
    t: seq<real>,
    aveVel: seq<S.Row>, movVel: seq<S.Row>, accel: seq<S.Row>, movAcc: seq<S.Row>,
    kickStart: seq<int>, kickStop: seq<int>,
    events: seq<S.Event>)

  /** The arrays all have the recording's length, and the pointer arrays are non-empty and of equal length. */
  predicate Shaped(st: RefState)
  {
    |st.aveVel| == |st.t| && |st.movVel| == |st.t| && |st.accel| == |st.t| && |st.movAcc| == |st.t| &&
    |st.kickStart| > 0 && |st.kickStop| == |st.kickStart|
  }

  /** The live entry, `a[-1]`. */
  function Last(a: seq<int>): int
    requires |a| > 0
  {
    a[|a| - 1]
  }

  function Zeros(n: nat): (rows: seq<S.Row>)
    ensures |rows| == n
  {
    seq(n, _ => S.Row(0.0, 0.0))
  }

  /** Before the loop over a recording of `n` frames: zero arrays, `kick_start = [1]`, `kick_stop = [0]`. */
  function Initial(n: nat): (st: RefState)
    ensures Shaped(st) && |st.t| == n
  {
    RefState(0, seq(n, _ => 0.0), Zeros(n), Zeros(n), Zeros(n), Zeros(n), [1], [0], [])
  }

  /** Frame `i = count - 1` stores its time stamp and its raw velocity pair. */
  function Recorded(st: RefState, fields: seq<bv16>): (r: RefState)
    requires Shaped(st) && st.count < |st.t| && |fields| == 8
    ensures Shaped(r)
  {
    var i := st.count;
    st.(t := st.t[i := i as real * FrameTime], aveVel := st.aveVel[i := VelocityRow(fields)])
  }

  /** `(movVel - previous) / FrameTime`, per channel. */
  function Difference(now: S.Row, before: S.Row): S.Row
  {
    S.Row((now.patch - before.patch) / FrameTime, (now.yagi - before.yagi) / FrameTime)
  }

  /**
   * Once `count >= time_avg_len`: at `localIndex - 1 = count - 7` the moving
   * average is 1.5 times the mean of the last 12 raw velocities, and the
   * acceleration is its difference with the slot before.
   */
  function SmoothVelocity(st: RefState, count: int): (r: RefState)
    requires Shaped(st) && TimeAvgLen <= count <= |st.t|
    ensures Shaped(r)
    ensures r.t == st.t && r.aveVel == st.aveVel && r.movAcc == st.movAcc
  {
    var li := count - HalfLen;
    var movVel := st.movVel[li - 1 := Boosted(S.MeanRows(Slice(st.aveVel, count - TimeAvgLen, count)))];
    st.(movVel := movVel, accel := st.accel[li - 1 := Difference(movVel[li - 1], movVel[li - 2])])
  }

  /** The acceleration samples averaged once `count > 2 * time_avg_len`: indices `count - 18 .. count - 7`. */
  function AccelerationWindow(accel: seq<S.Row>, count: int): (w: seq<S.Row>)
    requires 2 * TimeAvgLen < count <= |accel|
    ensures |w| == TimeAvgLen
  {
    Slice(accel, count - AccLead, count - AccLead + TimeAvgLen)
  }

  /** At `localIndex - 1 = count - 13`: 1.5 times the mean of the acceleration window. */
  function SmoothAcceleration(st: RefState, count: int): (r: RefState)
    requires Shaped(st) && 2 * TimeAvgLen < count <= |st.t|
    ensures Shaped(r)
    ensures r.t == st.t && r.aveVel == st.aveVel && r.movVel == st.movVel && r.accel == st.accel
  {
    st.(movAcc := st.movAcc[count - TimeAvgLen - 1 := Boosted(S.MeanRows(AccelerationWindow(st.accel, count)))])
  }

  /** The five yagi velocities `MovAveVelocities[-arange(5) + localIndex - 1, 1]`. */
  function StopWindow(movVel: seq<S.Row>, li: int): (w: seq<real>)
    requires 5 <= li <= |movVel|
    ensures |w| == 5
  {
    seq(5, k requires 0 <= k < 5 => movVel[li - 1 - k].yagi)
  }

  /** The yagi channel is validated first; the patch channel only when the yagi channel passed. */
  function Verdicts(st: RefState, start: int, stop: int): (v: S.Verdict)
    requires Shaped(st) && 13 <= start < stop && stop + HalfLen <= |st.t|
    ensures v.patch ==> v.yagi
  {
    KickValidNeverRaises(S.Column(st.movVel, 1), S.Column(st.movAcc, 1), st.t, start, stop);
    KickValidNeverRaises(S.Column(st.movVel, 0), S.Column(st.movAcc, 0), st.t, start, stop);
    var yagi := KickValid(S.Column(st.movVel, 1), S.Column(st.movAcc, 1), st.t, start, stop).value;
    S.Verdict(yagi, yagi && KickValid(S.Column(st.movVel, 0), S.Column(st.movAcc, 0), st.t, start, stop).value)
  }

  /**
   * A fired stop: `kick_stop[-1] = stop`, the event of frame `i` is printed
   * with start `kick_start[-1] - 1`, and the sentinels 1 and 0 are appended.
   */
  function Resolve(st: RefState, stop: int, verdict: S.Verdict): (r: RefState)
    requires Shaped(st)
    ensures Shaped(r)
  {
    var start := Last(st.kickStart);
    st.(kickStart := st.kickStart + [1],
        kickStop := st.kickStop[|st.kickStop| - 1 := stop] + [0],
        events := st.events + [S.Event(st.count, verdict.yagi, verdict.patch, start - 1)])
  }

  /** The pointer state machine of frame `count - 1`, with `localIndex = count - 12`. */
  predicate Fires(st: RefState, li: int)
    requires Shaped(st) && 5 <= li <= |st.t|
  {
    Last(st.kickStop) == 0 && S.CountQuiet(StopWindow(st.movVel, li)) > 3 && li - Last(st.kickStart) > 3
  }

  /** An armed pointer is a frame at least 13 and at most the current `localIndex`. */
  predicate LiveOk(st: RefState)
    requires Shaped(st)
  {
    Last(st.kickStart) == 1 || 13 <= Last(st.kickStart) <= st.count - TimeAvgLen
  }

  function Detect(st: RefState, count: int): (r: RefState)
    requires Shaped(st) && LiveOk(st) && count == st.count + 1 && 2 * TimeAvgLen < count <= |st.t|
    ensures Shaped(r)
    ensures r.t == st.t && r.aveVel == st.aveVel && r.movVel == st.movVel && r.accel == st.accel && r.movAcc == st.movAcc
  {
    var li := count - TimeAvgLen;
    var start := Last(st.kickStart);
    if start == 1 then
      if Abs(st.movVel[li - 1].yagi) > DetectionSpeed
      then st.(kickStart := st.kickStart[|st.kickStart| - 1 := li])
      else st
    else if Fires(st, li) then Resolve(st, li - 3, Verdicts(st, start, li - 3))
    else st
  }

  /** The three outcomes of the state machine: arming from idle, a fired stop, or nothing. */
  lemma DetectCases(st: RefState, count: int)
    requires Shaped(st) && LiveOk(st) && count == st.count + 1 && 2 * TimeAvgLen < count <= |st.t|
    ensures var li, start := count - TimeAvgLen, Last(st.kickStart);
      (start == 1 && Abs(st.movVel[li - 1].yagi) > DetectionSpeed ==>
         Detect(st, count) == st.(kickStart := st.kickStart[|st.kickStart| - 1 := li])) &&
      (start == 1 && Abs(st.movVel[li - 1].yagi) <= DetectionSpeed ==> Detect(st, count) == st) &&
      (start != 1 && Fires(st, li) ==> Detect(st, count) == Resolve(st, li - 3, Verdicts(st, start, li - 3))) &&
      (start != 1 && !Fires(st, li) ==> Detect(st, count) == st)
  {
  }

  /** Frame `st.count` up to the state machine: time stamp, raw velocity and both moving averages. */
  function Smoothed(st: RefState, fields: seq<bv16>): (r: RefState)
    requires Shaped(st) && st.count < |st.t| && |fields| == 8
    ensures Shaped(r) && r.count == st.count && r.kickStart == st.kickStart && r.kickStop == st.kickStop
    ensures r.events == st.events && |r.t| == |st.t|
    ensures r.t == st.t[st.count := st.count as real * FrameTime] && r.aveVel == st.aveVel[st.count := VelocityRow(fields)]
  {
    var count := st.count + 1;
    var recorded := Recorded(st, fields);
    var smoothed := if count >= TimeAvgLen then SmoothVelocity(recorded, count) else recorded;
    if count > 2 * TimeAvgLen then SmoothAcceleration(smoothed, count) else smoothed
  }

  /** One iteration of the frame loop of `kick_detection` for the record `fields` of frame `st.count`. */
  function Advance(st: RefState, fields: seq<bv16>): (r: RefState)
    requires Shaped(st) && LiveOk(st) && st.count < |st.t| && |fields| == 8
    ensures Shaped(r) && r.count == st.count + 1 && |r.t| == |st.t|
  {
    Stage(Smoothed(st, fields), st.count + 1)
  }

  /** The second half of a frame: the state machine once `count > 24`, then the frame counter. */
  function Stage(ready: RefState, count: int): (r: RefState)
    requires Shaped(ready) && LiveOk(ready) && count == ready.count + 1 <= |ready.t|
    ensures Shaped(r) && r.count == count && |r.t| == |ready.t|
  {
    (if count > 2 * TimeAvgLen then Detect(ready, count) else ready).(count := count)
  }

  /** The state after the frames of a recording, in order. */
  function Run(st: RefState, frames: seq<seq<bv16>>): (r: RefState)
    requires Inv(st) && st.count + |frames| <= |st.t|
    requires forall k :: 0 <= k < |frames| ==> |frames[k]| == 8
    ensures Inv(r) && r.count == st.count + |frames|
    decreases |frames|
  {
    if |frames| == 0 then st
    else
      AdvanceKeepsInv(st, frames[0]);
      Run(Advance(st, frames[0]), frames[1..])
  }

  // ---------------------------------------------------------------------
  // Properties of the frame loop

  /**
   * Resolved candidate `j`: it started at frame 13 or later and stopped after
   * it started; its event was printed at frame `stop + 14`, before now, with
   * start `kick_start[j] - 1`; the patch channel passed only if the yagi
   * channel did; and a yagi pass means 13 to 50 frames between start and stop.
   */
  predicate Resolved(st: RefState, j: int)
    requires 0 <= j < |st.events| && j < |st.kickStart| && |st.kickStop| == |st.kickStart|
  {
    var e := st.events[j];
    13 <= st.kickStart[j] < st.kickStop[j] &&
    e.kickStart == st.kickStart[j] - 1 && e.frame == st.kickStop[j] + 14 && e.frame < st.count &&
    (e.patchKick ==> e.yagiKick) &&
    (e.yagiKick ==> 13 <= st.kickStop[j] - st.kickStart[j] <= 50)
  }

  /**
   * What the loop keeps between frames: the time stamps written so far are
   * `k * FrameTime`; the live stop is the sentinel 0 and the live start is
   * the sentinel 1 or an armed frame; and there is one printed event per
   * resolved candidate, that is per entry before the live one.
   */
  predicate Inv(st: RefState)
  {
    Shaped(st) && st.count <= |st.t| &&
    (forall k :: 0 <= k < st.count ==> st.t[k] == k as real * FrameTime) &&
    Last(st.kickStop) == 0 && LiveOk(st) &&
    |st.events| == |st.kickStart| - 1 &&
    (forall j :: 0 <= j < |st.events| ==> Resolved(st, j))
  }

  lemma InitialInv(n: nat)
    ensures Inv(Initial(n))
  {
  }

  /** A candidate the validator accepts spans 13 to 50 frames, read from the time stamps written so far. */
  lemma AcceptedDuration(vel: seq<real>, acc: seq<real>, t: seq<real>, count: int, start: int, stop: int)
    requires 13 <= start < stop <= count <= |t|
    requires forall k :: 0 <= k < count ==> t[k] == k as real * FrameTime
    requires KickValid(vel, acc, t, start, stop) == Ok(true)
    ensures 13 <= stop - start <= 50
  {
    KickValidMeansKickShape(vel, acc, t, start, stop);
    assert t[stop - 1] == (stop - 1) as real * FrameTime && t[start - 1] == (start - 1) as real * FrameTime;
    assert Duration(t, start, stop) == (stop - start) as real * FrameTime;
    S.DurationInFrames(start, stop);
  }

  /** The invariant does not depend on how far the loop has got, once the time stamps up to there are written. */
  lemma InvLater(st: RefState, count: int)
    requires Inv(st) && st.count <= count <= |st.t|
    requires forall k :: 0 <= k < count ==> st.t[k] == k as real * FrameTime
    ensures Inv(st.(count := count))
  {
    forall j | 0 <= j < |st.events|
      ensures Resolved(st.(count := count), j)
    {
      assert Resolved(st, j);
    }
  }

  /** Arming at `localIndex = count - 12` keeps the invariant. */
  lemma ArmKeepsInv(st: RefState, count: int)
    requires Inv(st) && count == st.count + 1 && 2 * TimeAvgLen < count <= |st.t|
    requires forall k :: 0 <= k < count ==> st.t[k] == k as real * FrameTime
    ensures Inv(st.(kickStart := st.kickStart[|st.kickStart| - 1 := count - TimeAvgLen], count := count))
  {
    var r := st.(kickStart := st.kickStart[|st.kickStart| - 1 := count - TimeAvgLen], count := count);
    forall j | 0 <= j < |st.events|
      ensures Resolved(r, j)
    {
      assert r.kickStart[j] == st.kickStart[j];
      assert Resolved(st, j);
    }
  }

  /** Resolving the candidate of frame `count - 1`, stopped at `count - 15`, keeps the invariant. */
  lemma ResolveKeepsInv(st: RefState, count: int, verdict: S.Verdict)
    requires Inv(st) && count == st.count + 1 && 2 * TimeAvgLen < count <= |st.t|
    requires forall k :: 0 <= k < count ==> st.t[k] == k as real * FrameTime
    requires 13 <= Last(st.kickStart) < count - TimeAvgLen - 3
    requires verdict.patch ==> verdict.yagi
    requires verdict.yagi ==> 13 <= count - TimeAvgLen - 3 - Last(st.kickStart) <= 50
    ensures Inv(Resolve(st, count - TimeAvgLen - 3, verdict).(count := count))
  {
    var start, stop := Last(st.kickStart), count - TimeAvgLen - 3;
    var r := Resolve(st, stop, verdict).(count := count);
    var n := |st.events|;
    assert r.kickStart[n] == start && r.kickStop[n] == stop;
    forall j | 0 <= j < n
      ensures Resolved(r, j)
    {
      assert r.events[j] == st.events[j] && r.kickStart[j] == st.kickStart[j] && r.kickStop[j] == st.kickStop[j];
      assert Resolved(st, j);
    }
    assert Resolved(r, n);
  }

  /** A candidate the yagi channel accepts spans 13 to 50 frames. */
  lemma VerdictSpan(st: RefState, count: int, start: int, stop: int)
    requires Shaped(st) && 13 <= start < stop && stop + HalfLen <= count <= |st.t|
    requires forall k :: 0 <= k < count ==> st.t[k] == k as real * FrameTime
    ensures Verdicts(st, start, stop).yagi ==> 13 <= stop - start <= 50
  {
    var vel, acc := S.Column(st.movVel, 1), S.Column(st.movAcc, 1);
    KickValidNeverRaises(vel, acc, st.t, start, stop);
    if KickValid(vel, acc, st.t, start, stop).value {
      AcceptedDuration(vel, acc, st.t, count, start, stop);
    }
  }

  /** A fired stop keeps the invariant: an accepted candidate spans 13 to 50 frames. */
  lemma FiredKeepsInv(st: RefState, count: int)
    requires Inv(st) && count == st.count + 1 && 2 * TimeAvgLen < count <= |st.t|
    requires forall k :: 0 <= k < count ==> st.t[k] == k as real * FrameTime
    requires Last(st.kickStart) != 1 && Fires(st, count - TimeAvgLen)
    ensures Inv(Resolve(st, count - TimeAvgLen - 3, Verdicts(st, Last(st.kickStart), count - TimeAvgLen - 3)).(count := count))
  {
    var start, stop := Last(st.kickStart), count - TimeAvgLen - 3;
    assert 13 <= start < stop by {
      assert LiveOk(st);
      assert count - TimeAvgLen - start > 3;
    }
    VerdictSpan(st, count, start, stop);
    ResolveKeepsInv(st, count, Verdicts(st, start, stop));
  }

  /** The state machine keeps the invariant, counting the frame it runs in. */
  lemma DetectKeepsInv(st: RefState, count: int)
    requires Inv(st) && count == st.count + 1 && 2 * TimeAvgLen < count <= |st.t|
    requires forall k :: 0 <= k < count ==> st.t[k] == k as real * FrameTime
    ensures Inv(Detect(st, count).(count := count))
  {
    var li := count - TimeAvgLen;
    var start := Last(st.kickStart);
    if start != 1 && Fires(st, li) {
      FiredKeepsInv(st, count);
    } else if start == 1 && Abs(st.movVel[li - 1].yagi) > DetectionSpeed {
      ArmKeepsInv(st, count);
    } else {
      InvLater(st, count);
    }
  }

  /** Every frame keeps the invariant. */
  lemma AdvanceKeepsInv(st: RefState, fields: seq<bv16>)
    requires Inv(st) && st.count < |st.t| && |fields| == 8
    ensures Inv(Advance(st, fields))
  {
    SmoothedKeepsInv(st, fields);
    StageKeepsInv(Smoothed(st, fields), st.count + 1);
  }

  /** The state machine and the frame counter keep the invariant, once the frame's time stamp is written. */
  lemma StageKeepsInv(ready: RefState, count: int)
    requires Inv(ready) && count == ready.count + 1 <= |ready.t|
    requires forall k :: 0 <= k < count ==> ready.t[k] == k as real * FrameTime
    ensures Inv(Stage(ready, count))
  {
    if count > 2 * TimeAvgLen {
      DetectKeepsInv(ready, count);
    } else {
      InvLater(ready, count);
    }
  }


  /** The smoothing stages keep the invariant and stamp the frame's time. */
  lemma SmoothedKeepsInv(st: RefState, fields: seq<bv16>)
    requires Inv(st) && st.count < |st.t| && |fields| == 8
    ensures Inv(Smoothed(st, fields))
    ensures forall k :: 0 <= k < st.count + 1 ==> Smoothed(st, fields).t[k] == k as real * FrameTime
  {
    var ready := Smoothed(st, fields);
    forall j | 0 <= j < |ready.events|
      ensures Resolved(ready, j)
    {
      assert Resolved(st, j);
    }
  }

  /**
   * From `a` to `b` only the live entry moved: the entries of `kick_start`
   * and `kick_stop` before it and the events already printed are as they
   * were, and at most one event was added.
   */
  predicate EntriesFinal(a: RefState, b: RefState)
    requires Shaped(a) && Shaped(b)
  {
    var m := |a.kickStart| - 1;
    |b.kickStart| >= |a.kickStart| && b.kickStart[..m] == a.kickStart[..m] && b.kickStop[..m] == a.kickStop[..m] &&
    |a.events| <= |b.events| <= |a.events| + 1 && b.events[..|a.events|] == a.events
  }

  /** Only the live entry moves, and a frame prints at most one event. */
  lemma ResolvedEntriesAreFinal(st: RefState, fields: seq<bv16>)
    requires Shaped(st) && LiveOk(st) && st.count < |st.t| && |fields| == 8
    ensures EntriesFinal(st, Advance(st, fields))
  {
    var ready := Smoothed(st, fields);
    StageEntriesFinal(ready, st.count + 1);
    SamePointersFinal(st, ready, Stage(ready, st.count + 1));
  }

  /** The state machine appends to the pointer arrays and the events, and rewrites only the live entry. */
  lemma StageEntriesFinal(ready: RefState, count: int)
    requires Shaped(ready) && LiveOk(ready) && count == ready.count + 1 <= |ready.t|
    ensures EntriesFinal(ready, Stage(ready, count))
  {
    var r, m := Stage(ready, count), |ready.kickStart| - 1;
    assert r.events[..|ready.events|] == ready.events;
    assert r.kickStart[..m] == ready.kickStart[..m];
    assert r.kickStop[..m] == ready.kickStop[..m];
  }

  /** `EntriesFinal` reads only the pointer arrays and the events of the earlier state. */
  lemma SamePointersFinal(a: RefState, b: RefState, c: RefState)
    requires Shaped(a) && Shaped(b) && Shaped(c)
    requires a.kickStart == b.kickStart && a.kickStop == b.kickStop && a.events == b.events
    requires EntriesFinal(b, c)
    ensures EntriesFinal(a, c)
  {
  }

  /**
   * What frame `count - 1` writes, at absolute indices: its time stamp and raw
   * velocity at `count - 1`; once `count >= 12`, at `count - 7` 1.5 times the
   * mean of the raw velocities of frames `count - 12 .. count - 1` and the
   * acceleration from the slot before; once `count > 24`, at `count - 13`
   * 1.5 times the mean of the accelerations at `count - 18 .. count - 7`.
   * Every other entry is left as it was.
   */
  predicate FrameWritten(st: RefState, r: RefState, fields: seq<bv16>)
    requires Shaped(st) && Shaped(r) && |r.t| == |st.t| && st.count < |st.t| && |fields| == 8
  {
    var count := st.count + 1;
    r.t == st.t[count - 1 := (count - 1) as real * FrameTime] &&
    r.aveVel == st.aveVel[count - 1 := VelocityRow(fields)] &&
    (count < TimeAvgLen ==> r.movVel == st.movVel && r.accel == st.accel) &&
    (count >= TimeAvgLen ==>
       r.movVel == st.movVel[count - 7 := Boosted(S.MeanRows(r.aveVel[count - TimeAvgLen..count]))] &&
       r.accel == st.accel[count - 7 := Difference(r.movVel[count - 7], r.movVel[count - 8])]) &&
    (count <= 2 * TimeAvgLen ==> r.movAcc == st.movAcc) &&
    (count > 2 * TimeAvgLen ==>
       r.movAcc == st.movAcc[count - 13 := Boosted(S.MeanRows(r.accel[count - 18..count - 6]))])
  }

  /** Each frame of the loop writes the arrays exactly as `FrameWritten` describes. */
  lemma FrameWrites(st: RefState, fields: seq<bv16>)
    requires Shaped(st) && LiveOk(st) && st.count < |st.t| && |fields| == 8
    ensures FrameWritten(st, Advance(st, fields), fields)
  {
    var r, ready := Advance(st, fields), Smoothed(st, fields);
    assert r.t == ready.t && r.aveVel == ready.aveVel && r.movVel == ready.movVel && r.accel == ready.accel && r.movAcc == ready.movAcc;
    SmoothedWrites(st, fields);
    SameBuffersWritten(st, ready, r, fields);
  }

  /** The smoothing stages write what `FrameWritten` describes. */
  lemma SmoothedWrites(st: RefState, fields: seq<bv16>)
    requires Shaped(st) && st.count < |st.t| && |fields| == 8
    ensures FrameWritten(st, Smoothed(st, fields), fields)
  {
    SmoothedVelocity(st, fields);
    SmoothedAcceleration(st, fields);
    WrittenParts(st, Smoothed(st, fields), fields);
  }

  /** `FrameWritten` from its parts: the time stamp and raw velocity, and the two smoothing stages. */
  lemma WrittenParts(st: RefState, r: RefState, fields: seq<bv16>)
    requires Shaped(st) && Shaped(r) && |r.t| == |st.t| && st.count < |st.t| && |fields| == 8
    requires r.t == st.t[st.count := st.count as real * FrameTime] && r.aveVel == st.aveVel[st.count := VelocityRow(fields)]
    requires var count := st.count + 1;
      (count < TimeAvgLen ==> r.movVel == st.movVel && r.accel == st.accel) &&
      (count >= TimeAvgLen ==>
         r.movVel == st.movVel[count - 7 := Boosted(S.MeanRows(r.aveVel[count - TimeAvgLen..count]))] &&
         r.accel == st.accel[count - 7 := Difference(r.movVel[count - 7], r.movVel[count - 8])])
    requires var count := st.count + 1;
      (count <= 2 * TimeAvgLen ==> r.movAcc == st.movAcc) &&
      (count > 2 * TimeAvgLen ==>
         r.movAcc == st.movAcc[count - 13 := Boosted(S.MeanRows(r.accel[count - 18..count - 6]))])
    ensures FrameWritten(st, r, fields)
  {
  }

  /** `FrameWritten` reads only the five arrays of the later state. */
  lemma SameBuffersWritten(st: RefState, a: RefState, b: RefState, fields: seq<bv16>)
    requires Shaped(st) && Shaped(a) && Shaped(b) && |a.t| == |st.t| && st.count < |st.t| && |fields| == 8
    requires a.t == b.t && a.aveVel == b.aveVel && a.movVel == b.movVel && a.accel == b.accel && a.movAcc == b.movAcc
    requires FrameWritten(st, a, fields)
    ensures FrameWritten(st, b, fields)
  {
  }

  /** The velocity stage writes the boosted mean of the last 12 raw velocities and its difference at `count - 7`, once `count >= 12`. */
  lemma SmoothedVelocity(st: RefState, fields: seq<bv16>)
    requires Shaped(st) && st.count < |st.t| && |fields| == 8
    ensures var r, count := Smoothed(st, fields), st.count + 1;
      (count < TimeAvgLen ==> r.movVel == st.movVel && r.accel == st.accel) &&
      (count >= TimeAvgLen ==>
         r.movVel == st.movVel[count - 7 := Boosted(S.MeanRows(r.aveVel[count - TimeAvgLen..count]))] &&
         r.accel == st.accel[count - 7 := Difference(r.movVel[count - 7], r.movVel[count - 8])])
  {
    var count := st.count + 1;
    var recorded := Recorded(st, fields);
    SliceIs(recorded.aveVel, count - TimeAvgLen, count);
  }

  /** The acceleration stage writes the boosted mean of the accelerations at `count - 18 .. count - 7` at `count - 13`, once `count > 24`. */
  lemma SmoothedAcceleration(st: RefState, fields: seq<bv16>)
    requires Shaped(st) && st.count < |st.t| && |fields| == 8
    ensures var r, count := Smoothed(st, fields), st.count + 1;
      (count <= 2 * TimeAvgLen ==> r.movAcc == st.movAcc) &&
      (count > 2 * TimeAvgLen ==>
         r.movAcc == st.movAcc[count - 13 := Boosted(S.MeanRows(r.accel[count - 18..count - 6]))])
  {
    var count := st.count + 1;
    if count > 2 * TimeAvgLen {
      var smoothed := SmoothVelocity(Recorded(st, fields), count);
      SliceIs(smoothed.accel, count - AccLead, count - AccLead + TimeAvgLen);
    }
  }

  /** Arming happens only from the idle sentinel, sets the live start to `localIndex = count - 12`, and prints nothing. */
  lemma ArmingSetsLocalIndex(st: RefState, fields: seq<bv16>)
    requires Inv(st) && st.count < |st.t| && |fields| == 8 && Last(st.kickStart) == 1
    ensures var r := Advance(st, fields);
      r.kickStart == st.kickStart[|st.kickStart| - 1 := 1] ||
      r.kickStart == st.kickStart[|st.kickStart| - 1 := st.count + 1 - TimeAvgLen]
    ensures Advance(st, fields).events == st.events && Advance(st, fields).kickStop == st.kickStop
  {
  }

  /** The detector: its time axis, its four arrays, the pointer arrays and what it has printed. */
  class RefDetector {
    var count: nat
    const t: array<real>
    const aveVel: array<S.Row>
    const movVel: array<S.Row>
    const accel: array<S.Row>
    const movAcc: array<S.Row>
    var kickStart: seq<int>
    var kickStop: seq<int>
    var events: seq<S.Event>

    ghost predicate Valid()
      reads this
    {
      aveVel.Length == t.Length && movVel.Length == t.Length &&
      accel.Length == t.Length && movAcc.Length == t.Length &&
      aveVel != movVel && aveVel != accel && aveVel != movAcc &&
      movVel != accel && movVel != movAcc && accel != movAcc &&
      |kickStart| > 0 && |kickStop| == |kickStart|
    }

    /** The loop state these fields hold. */
    function State(): RefState
      reads this, t, aveVel, movVel, accel, movAcc
    {
      RefState(count, t[..], aveVel[..], movVel[..], accel[..], movAcc[..], kickStart, kickStop, events)
    }

    /** The set-up before the loop over a recording of `frameCount` frames. */
    constructor(frameCount: nat)
      ensures Valid() && State() == Initial(frameCount)
      ensures fresh(t) && fresh(aveVel) && fresh(movVel) && fresh(accel) && fresh(movAcc)
    {
      count := 0;
      t := new real[frameCount](_ => 0.0);
      aveVel := new S.Row[frameCount](_ => S.Row(0.0, 0.0));
      movVel := new S.Row[frameCount](_ => S.Row(0.0, 0.0));
      accel := new S.Row[frameCount](_ => S.Row(0.0, 0.0));
      movAcc := new S.Row[frameCount](_ => S.Row(0.0, 0.0));
      kickStart := [1];
      kickStop := [0];
      events := [];
      new;
      assert t[..] == seq(frameCount, _ => 0.0);
      assert aveVel[..] == Zeros(frameCount) && movVel[..] == Zeros(frameCount);
      assert accel[..] == Zeros(frameCount) && movAcc[..] == Zeros(frameCount);
    }

    /** One iteration of the frame loop, `i = count`. */
    method Step(fields: seq<bv16>)
      requires Valid() && Inv(State()) && count < t.Length && |fields| == 8
      modifies this, t, aveVel, movVel, accel, movAcc
      ensures Valid()
      ensures State() == Advance(old(State()), fields)
    {
      var c := count + 1;
      RecordStage(fields);
      if c >= TimeAvgLen {
        SmoothVelocityStage(c);
      }
      if c > 2 * TimeAvgLen {
        SmoothAccelerationStage(c);
        DetectStage(c);
      }
      count := c;
    }

    /** `t[count - 1]` and `AveVelocities[count - 1]`. */
    method RecordStage(fields: seq<bv16>)
      requires Valid() && count < t.Length && |fields| == 8
      modifies t, aveVel
      ensures Valid()
      ensures State() == Recorded(old(State()), fields)
    {
      var v := Velocity.ConvertAveVelocity(fields, Th, NFFT, VelocityScale);
      t[count] := count as real * FrameTime;
      aveVel[count] := S.Row(v[0], v[1]);
    }

    /** `MovAveVelocities[localIndex - 1]` and `acceleration[localIndex - 1]`, `localIndex = count - 6`. */
    method SmoothVelocityStage(c: int)
      requires Valid() && TimeAvgLen <= c <= t.Length
      modifies movVel, accel
      ensures Valid()
      ensures State() == SmoothVelocity(old(State()), c)
    {
      var li := c - HalfLen;
      movVel[li - 1] := Boosted(S.MeanRows(Slice(aveVel[..], c - TimeAvgLen, c)));
      accel[li - 1] := Difference(movVel[li - 1], movVel[li - 2]);
    }

    /** `MovAveAcc[localIndex - 1]`, `localIndex = count - 12`. */
    method SmoothAccelerationStage(c: int)
      requires Valid() && 2 * TimeAvgLen < c <= t.Length
      modifies movAcc
      ensures Valid()
      ensures State() == SmoothAcceleration(old(State()), c)
    {
      movAcc[c - TimeAvgLen - 1] := Boosted(S.MeanRows(AccelerationWindow(accel[..], c)));
    }

    /** The pointer state machine, validation and printing. */
    method DetectStage(c: int)
      requires Valid() && LiveOk(State()) && c == count + 1 && 2 * TimeAvgLen < c <= t.Length
      modifies this
      ensures Valid()
      ensures State() == Detect(old(State()), c)
    {
      ghost var st := State();
      DetectCases(st, c);
      var li := c - TimeAvgLen;
      var last := |kickStart| - 1;
      if kickStart[last] == 1 {
        if Abs(movVel[li - 1].yagi) > DetectionSpeed {
          kickStart := kickStart[last := li];
        }
      } else if kickStop[last] == 0 {
        if S.CountQuiet(StopWindow(movVel[..], li)) > 3 && li - kickStart[last] > 3 {
          assert Fires(st, li) && kickStart[last] == Last(st.kickStart);
          var verdict := Validation(kickStart[last], li - 3);
          assert State() == st;
          Record(li - 3, verdict);
        }
      }
    }

    /**
     * `kick_stop[-1] = stop` (validation does not read it, so it is written
     * here, after the verdict), the printed event, and the appended sentinels.
     */
    method Record(stop: int, verdict: S.Verdict)
      requires Valid()
      modifies this
      ensures Valid()
      ensures State() == Resolve(old(State()), stop, verdict)
    {
      var last := |kickStart| - 1;
      kickStop := kickStop[last := stop] + [0];
      events := events + [S.Event(count, verdict.yagi, verdict.patch, kickStart[last] - 1)];
      kickStart := kickStart + [1];
    }

    /** `validateKick` on the yagi channel, and on the patch channel only if the yagi channel passed. */
    method Validation(start: int, stop: int) returns (verdict: S.Verdict)
      requires Valid() && 13 <= start < stop && stop + HalfLen <= t.Length
      ensures verdict == Verdicts(State(), start, stop)
    {
      var vel1, acc1 := S.Column(movVel[..], 1), S.Column(movAcc[..], 1);
      KickValidNeverRaises(vel1, acc1, t[..], start, stop);
      var yagi := ValidateKick(vel1, acc1, t[..], start, stop);
      var patch := false;
      if yagi.value {
        var vel0, acc0 := S.Column(movVel[..], 0), S.Column(movAcc[..], 0);
        KickValidNeverRaises(vel0, acc0, t[..], start, stop);
        var p := ValidateKick(vel0, acc0, t[..], start, stop);
        patch := p.value;
      }
      verdict := S.Verdict(yagi.value, patch);
    }
  }

  /** Running the frames from `i` on is running frame `i`, then the rest. */
  lemma RunFirst(st: RefState, frames: seq<seq<bv16>>, i: int)
    requires Inv(st) && 0 <= i < |frames| && st.count + |frames| - i <= |st.t|
    requires forall k :: 0 <= k < |frames| ==> |frames[k]| == 8
    ensures Inv(Advance(st, frames[i]))
    ensures Run(st, frames[i..]) == Run(Advance(st, frames[i]), frames[i + 1..])
  {
    AdvanceKeepsInv(st, frames[i]);
    assert frames[i..][0] == frames[i] && frames[i..][1..] == frames[i + 1..];
  }

  /** Iteration `i` of `kick_detection`: the frames still to run lead to the same final state. */
  method StepFrame(d: RefDetector, target: seq<seq<bv16>>, i: int)
    requires forall k :: 0 <= k < |target| ==> |target[k]| == 8
    requires d.Valid() && d.t.Length == |target| && d.count == i < |target| && Inv(d.State())
    modifies d, d.t, d.aveVel, d.movVel, d.accel, d.movAcc
    ensures d.Valid() && d.count == i + 1 && Inv(d.State())
    ensures Run(d.State(), target[i + 1..]) == Run(old(d.State()), target[i..])
  {
    ghost var before := d.State();
    d.Step(target[i]);
    RunFirst(before, target, i);
  }

  /** `kick_detection` over a whole recording: the events it prints. */
  method KickDetection(target: seq<seq<bv16>>) returns (events: seq<S.Event>)
    requires forall k :: 0 <= k < |target| ==> |target[k]| == 8
    ensures events == Run(Initial(|target|), target).events
  {
    InitialInv(|target|);
    var d := new RefDetector(|target|);
    ghost var goal := Run(Initial(|target|), target);
    assert target[0..] == target;
    for i := 0 to |target|
      invariant d.Valid() && fresh(d) && fresh(d.t) && fresh(d.aveVel) && fresh(d.movVel) && fresh(d.accel) && fresh(d.movAcc)
      invariant d.t.Length == |target| && d.count == i && Inv(d.State())
      invariant Run(d.State(), target[i..]) == goal
    {
      StepFrame(d, target, i);
    }
    assert target[|target|..] == [];
    events := d.events;
  }
}
