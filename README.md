# Kick detection from two-antenna radar frames: a verified model

The repository detects a "kick" gesture (a foot swung towards a car's
rear and back) from a 24 GHz radar with two antennas, the patch antenna
(channel 0) and the yagi antenna (channel 1). Every radar frame is
reduced to the two strongest spectral components of each channel. Each
component is an (FFT bin, amplitude) pair, and the four pairs are packed
into an 8-field uint16 target record. Four consumers read the records:

- two detectors: a reference detector with unbounded arrays, and a version
  with 50-row buffers;
- a training-data loader;
- a network-inference script.

A benchmark scores predicted kicks against reference labels, event by
event (IoU matching) and frame by frame (insertion, merge, overfill,
deletion, fragmenting and underfill). A labelling tool lets a person
shift the labelled kicks, and a PDF report wraps the recordings'
meta-data text.

The project models these rules in Dafny and proves what they do. Each
module follows one source file:

| module | file | source |
|---|---|---|
| `PyOps` | py_ops.dfy | Python/NumPy semantics the code relies on: slices with negative bounds, half-to-even `round`, `min`/`max` raising ValueError on empty input, sums |
| `TargetCodec` | target_codec.dfy | the 8-field target record and its decoder (`FFT/raw_to_target_converter.py`; the same decode in `traininng/utils.py` and `tf_net/tf_inference.py`) |
| `DataRecorder` | data_recorder.dfy | `ifxdaq/data_recorder.py`: packing a recording, `to_json` |
| `Velocity` | velocity.dfy | `convrtAveVelocity`, identical in both detectors |
| `StreamingDetector` | streaming_detector.dfy | `kick_detection_recording_optimized.py`: a class with four 50-row buffers, shift methods, the validator and a `Step` method |
| `ReferenceDetector` | reference_detector.dfy | `kick_detection_recording.py`: arrays as long as the recording, the flag-clearing validator, growing pointer arrays |
| `LabelRuns` | label_runs.dfy | the `scipy.ndimage.label` + `np.unique` run idiom (`get_start_stop`) and the diff/where idiom (`get_stacks`) |
| `TrainingLabels` | training_labels.dfy | `traininng/utils.py`: `IsOverlapping`, the label update of `AddAugmentedDataToBackground`, the `UpDownSample` checks and the `DataLoad` window rule |
| `TfInference` | tf_inference.dfy | `tf_net/tf_inference.py`: column layout, windows, and turning window classes into events |
| `EventScores` | event_scores.dfy | the `metrics` fixture: decision table and IoU matching |
| `Segments` | segments.dfy | `np.sort`, maximal constant segments, and frame sums over segment masks |
| `FrameMetrics` | frame_metrics.dfy | the frame and segment part of `frame_event_metrics` |
| `Labeling` | labeling.dfy | `LabelFixer` of `labeling/labeling_app.py`, as a class |
| `Report` | report.dfy | the meta-data word wrap and the table row styles of `report.py` |

## Modelling conventions

- **Integers and floats.**
  - Record fields are `bv16`, so they wrap exactly as NumPy's `uint16` does.
  - Python integers are `int`.
  - Floating-point values are exact `real`s. For example `FrameTime = 40e-3` is `1/25` and `3.9 / 8` is `39/80`.
  - Python's `round` is half-to-even, as in `PyOps.RoundHalfEven`.
- **Errors.** A function returns a `Result`, so an exception the code raises is a value: `ValueError` for `min`/`max` of an empty slice, `IndexError`, `TypeError`, `AttributeError`. NaN, the result of `0/0`, is `None`.
- **Events.** The detectors' printed lines are modelled as an `Event(frame, yagiKick, patchKick, kickStart)` datatype, not as text. The printed text has unquoted keys (`yagi_kick:`), so it is not valid JSON. The benchmark's `json.loads` of these lines is not part of this model.
- **Where the code differs from its documented design, the model follows the code:**
  - `convrtAveVelocity` averages both slots of `Target_MaxLocations[:counter + 1]` whenever any target exceeds the threshold. A single exceeding target is therefore halved (`Velocity.SingleTargetIsHalved`). It is not averaged only over the exceeding targets.
  - The decoded amplitude does not keep the original low byte: bits 4..7 are counted twice (`TargetCodec.LowByteNotKept`).
  - The reference detector uses `fc = 24.125e9`, the bounded-buffer detector `24.2e9`. Their velocity scales therefore differ slightly.
  - Without any zero in its input, the `label`/`np.unique` idiom reports no run at all (`LabelRuns.GetStartStopWithoutZero`). Every user of `get_start_stop` inherits this.
  - A single-frame run has IoU NaN against any single-frame run. Such a run never matches, and it is never an unmatched run either (`EventScores.SingleFrameRunsNeverMatch`).
  - `frame_event_metrics` returns `None` whenever all frames share one class. This includes a perfect all-zero or all-one prediction (`FrameMetrics.FrameEventCountsCases`).
  - `DataLoad` finds a window's runs with the `label`/`np.unique` idiom, so a middle window without a zero frame is kept with label 0. This holds for a window holding exactly a whole kick (`TrainingLabels.WholeKickWindowAsWritten`) and for one inside a longer kick (`TrainingLabels.KickInteriorAsWritten`, `TrainingLabels.MiddleWindowVerdict`). `DataLoadWindows` follows this rule; the intended rule is `TrainingLabels.WindowVerdict`.
  - `np.where(pred > confidence)[1]` drops windows with no confident class. Later windows' classes then move earlier (`TfInference.ConfidentClasses`).

## Model

| member | source | states |
|---|---|---|
| PyOps.RoundHalfEven | matlab/matlab2python/kick_detection_recording_optimized.py:304-305 | `round` gives an integer within 1/2 of the argument, and the even one at an exact half |
| PyOps.RoundMonotone | matlab/matlab2python/kick_detection_recording_optimized.py:304-305 | a larger argument never rounds to a smaller integer |
| PyOps.PyMinBelow | matlab/matlab2python/kick_detection_recording_optimized.py:275-283 | `min` of a non-empty slice is below a bound exactly when some element is |
| PyOps.PyMaxAbove | matlab/matlab2python/kick_detection_recording_optimized.py:285-293 | `max` of a non-empty slice is above a bound exactly when some element is |
| PyOps.PyMin | matlab/matlab2python/kick_detection_recording_optimized.py:275-283 | `.min()` raises ValueError exactly on an empty slice |
| PyOps.SliceIs | matlab/matlab2python/kick_detection_recording_optimized.py:275-302 | a slice with negative or out-of-range bounds is the run between the normalised bounds, or empty when they cross |
| TargetCodec.PackFrame | FFT/raw_to_target_converter.py:54-70 | the eight fields are (index, amplitude) of channel 0 rank 0, channel 0 rank 1, channel 1 rank 0, channel 1 rank 1, each packed as `bin + ((amp & 0xFF) << 8)` and `(amp & 0xFF0) >> 4` (the recorder, `ifxdaq/data_recorder.py` lines 57-73, packs with the same arithmetic and field order) |
| TargetCodec.Decode | FFT/raw_to_target_converter.py:75-93 | a record decodes exactly when it has eight fields (ValueError otherwise); target (c, r) is read from the two fields `PackFrame` writes it to, bins from the even field, amplitudes from both (the training loader, `traininng/utils.py` lines 25-45, and the inference script, `tf_net/tf_inference.py` lines 35-55, decode with the same arithmetic and reshape) |
| TargetCodec.PackedFieldBounds | ifxdaq/data_recorder.py:57-58 | the packed amplitude field is at most 0xFF; the index field's low byte is the bin when the bin is below 256 |
| TargetCodec.BinRoundTrip | FFT/raw_to_target_converter.py:87 | decoding a packed pair gives back the bin's low byte, so the bin itself when it is below 256 |
| TargetCodec.AmpRoundTrip | FFT/raw_to_target_converter.py:88 | for a bin below 256, decoding a packed pair gives amplitude `(a & 0xFF) + (a & 0xFF0)`, equivalently `(a mod 4096) + (a & 0xF0)` |
| TargetCodec.AmpExactIff | FFT/raw_to_target_converter.py:54-55 | the amplitude survives the round trip exactly when it is below 4096 and bits 4..7 are clear |
| TargetCodec.DecodeBounds | FFT/raw_to_target_converter.py:87-88 | for any two fields, a decoded bin is at most 255 and a decoded amplitude at most 4335 |
| TargetCodec.FrameRoundTrip | FFT/raw_to_target_converter.py:54-93 | decoding a packed frame returns, for every channel and rank, the bin (when it fits a byte) and the lossy amplitude |
| TargetCodec.LowByteNotKept | FFT/raw_to_target_converter.py:54-55 | counterexample: amplitude 0x10 comes back as 0x20 |
| TargetCodec.WideBinCorruptsAmp | FFT/raw_to_target_converter.py:54 | a bin of 256 carries into the amplitude: (0x100, 0) decodes as bin 0, amplitude 1 |
| DataRecorder.PackRecording | ifxdaq/data_recorder.py:57-73 | one 8-field record per frame |
| DataRecorder.RecordingRoundTrip | ifxdaq/data_recorder.py:57-73 | every frame of a packed recording decodes to its bins and lossy amplitudes |
| DataRecorder.ToJson | ifxdaq/data_recorder.py:76-91 | one `{"kick": v}` entry per label value, and reading the entries back gives the label array in input order |
| DataRecorder.KicksAt | ifxdaq/data_recorder.py:86-89 | entry `i` holds label `i` |
| Velocity.InlineNoWrap | matlab/matlab2python/kick_detection_recording_optimized.py:228-230 | the detectors' inline amplitude never wraps 16 bits: it is at least either addend and at most 0x10EF |
| Velocity.InlineDecodeAgrees | matlab/matlab2python/kick_detection_recording_optimized.py:228-233 | the inline amplitude and bin are the decoder's amplitude and bin of the same two fields (the same holds for the reference detector's copy, `matlab/matlab2python/kick_detection_recording.py` lines 207-212) |
| Velocity.ReadingAt | matlab/matlab2python/kick_detection_recording_optimized.py:221-233 | channel `c` reads fields `4c .. 4c+3` and gets a bin in [0, 255] and an amplitude in [0, 4335] |
| Velocity.ReadingDecodes | matlab/matlab2python/kick_detection_recording_optimized.py:228-233 | reading `j` of channel `c` is the decoder's (bin, amplitude) of fields `4c+2j` and `4c+2j+1` |
| Velocity.VelocityOf | matlab/matlab2python/kick_detection_recording_optimized.py:213-248 | from the two decoded readings of a channel: 0 when neither amplitude exceeds TH, half the folded bin times the scale when exactly one does, the mean of both folded bins times the scale when both do |
| Velocity.ChannelCases | matlab/matlab2python/kick_detection_recording_optimized.py:237-246 | the same four cases on a channel's two readings |
| Velocity.ConvertAveVelocity | matlab/matlab2python/kick_detection_recording_optimized.py:213-248 | the loop computes, per channel, 0 when no amplitude is strictly above TH, otherwise the mean of both slots (a folded bin for an exceeding target, 0 otherwise) times the scale (the reference detector's copy, `matlab/matlab2python/kick_detection_recording.py` lines 191-228, computes the same) |
| Velocity.QuietChannelIsStill | matlab/matlab2python/kick_detection_recording_optimized.py:237-246 | no amplitude above TH gives velocity exactly 0 |
| Velocity.SingleTargetIsHalved | matlab/matlab2python/kick_detection_recording_optimized.py:237-244 | one exceeding target gives half its folded bin times the scale, whichever slot it is in |
| Velocity.BothTargetsAveraged | matlab/matlab2python/kick_detection_recording_optimized.py:237-244 | two exceeding targets give the mean of both folded bins times the scale |
| Velocity.WrappedRange | matlab/matlab2python/kick_detection_recording_optimized.py:234-235 | a bin of a 32-point spectrum folds into [-15, 16] |
| Velocity.VelocityBound | matlab/matlab2python/kick_detection_recording_optimized.py:231-246 | for 32-point bins the velocity magnitude is at most 16 times the scale |
| StreamingDetector.ShiftedLeft | matlab/matlab2python/kick_detection_recording_optimized.py:201-204 | same length; every slot takes its right neighbour and the last slot the value |
| StreamingDetector.ShiftedLeftSkip | matlab/matlab2python/kick_detection_recording_optimized.py:207-210 | same length; for `-n < skip < 0` slots `[0, n+skip-1)` take their right neighbour, slot `n+skip-1` the value, and slots from `n+skip` on are unchanged |
| StreamingDetector.ShiftVectorLeft | matlab/matlab2python/kick_detection_recording_optimized.py:201-204 | the in-place array shift leaves the buffer as `ShiftedLeft` of its old contents |
| StreamingDetector.ShiftVectorLeftSkip | matlab/matlab2python/kick_detection_recording_optimized.py:207-210 | the in-place array shift leaves the buffer as `ShiftedLeftSkip` of its old contents |
| StreamingDetector.Validate | matlab/matlab2python/kick_detection_recording_optimized.py:251-315 | an out-of-range duration gives False before any window is read; the only error is ValueError from an empty window |
| StreamingDetector.ValidateMeansKickShape | matlab/matlab2python/kick_detection_recording_optimized.py:265-315 | True exactly when the duration is in [0.5, 2] s, the first third has no negative velocity, the last third no positive velocity, the last sixth no negative acceleration, the middle no positive acceleration (each window non-empty), and at least 80% of the `stop - start - 1` samples are non-zero |
| StreamingDetector.DurationInFrames | matlab/matlab2python/kick_detection_recording_optimized.py:265-273 | the duration check holds exactly for 13 to 50 frames |
| StreamingDetector.ValidateNeverRaises | matlab/matlab2python/kick_detection_recording_optimized.py:122-144 | with the detector's arguments (stop -14, start before it, 50-row buffers) no window is empty, so validation never raises |
| StreamingDetector.MiddleNonEmpty | matlab/matlab2python/kick_detection_recording_optimized.py:304-308 | the rounded middle window is non-empty for every duration the first checks let through |
| StreamingDetector.SmoothVelocity | matlab/matlab2python/kick_detection_recording_optimized.py:69-89 | the velocity stage keeps the buffer shapes |
| StreamingDetector.Advance | matlab/matlab2python/kick_detection_recording_optimized.py:56-157 | one loop iteration keeps the buffer shapes and advances the frame by one |
| StreamingDetector.Resolve | matlab/matlab2python/kick_detection_recording_optimized.py:146-157 | resolving a candidate keeps the buffer shapes (its effect is `ResolveRecords`) |
| StreamingDetector.ResolveRecords | matlab/matlab2python/kick_detection_recording_optimized.py:146-157 | the pointers return to 1 and 0, one event is appended after the earlier ones, the kick is recorded exactly when both channels pass, and the buffers and the frame counter are untouched |
| StreamingDetector.Detect | matlab/matlab2python/kick_detection_recording_optimized.py:104-157 | the state machine keeps the buffer shapes (its cases are `IdleDetect`, `ArmedDetect` and `FiredDetect`) |
| StreamingDetector.DetectKeepsBuffers | matlab/matlab2python/kick_detection_recording_optimized.py:104-157 | the state machine changes no buffer and not the frame counter, prints at most one event after the earlier ones, and never drops a recorded kick |
| StreamingDetector.IdleDetect | matlab/matlab2python/kick_detection_recording_optimized.py:104-106 | from idle: the start pointer becomes `local_index` exactly when `abs(movavg_vel[local_index - 1, 1])` exceeds the detection speed and stays 1 otherwise; nothing is printed or recorded |
| StreamingDetector.ArmedDetect | matlab/matlab2python/kick_detection_recording_optimized.py:107-122 | while armed an event is printed exactly when the stop rule fires; otherwise nothing is printed or recorded and the start moves one place left |
| StreamingDetector.VerdictsValidate | matlab/matlab2python/kick_detection_recording_optimized.py:122-144 | the event flags are `validateKick` on the yagi (column 1) and the patch (column 0) channel, and neither call raises |
| StreamingDetector.FiredDetect | matlab/matlab2python/kick_detection_recording_optimized.py:122-157 | when the stop rule fires the printed event carries the frame, both verdicts and `i + start`, and the pointers return to 1 and 0 |
| StreamingDetector.AdvanceArms | matlab/matlab2python/kick_detection_recording_optimized.py:56-106 | on a frame after `2T - 1` an idle detector arms exactly when the yagi velocity at `local_index - 1`, after this frame's smoothing, exceeds the detection speed; nothing is printed |
| StreamingDetector.AdvanceStops | matlab/matlab2python/kick_detection_recording_optimized.py:56-122 | on such a frame an armed detector prints exactly when the stop rule fires on the smoothed buffers, and otherwise moves its start one place left |
| StreamingDetector.AdvanceFiredEvent | matlab/matlab2python/kick_detection_recording_optimized.py:56-157 | the event printed on such a frame has this frame, start `i + buffer_kick_start - 1` and the validator's verdicts on the smoothed buffers as flags, and the detector returns to idle |
| StreamingDetector.AdvanceExtends | matlab/matlab2python/kick_detection_recording_optimized.py:56-157 | a frame never takes back a printed event or a recorded kick |
| StreamingDetector.Run | matlab/matlab2python/kick_detection_recording_optimized.py:56-157 | a whole recording keeps the buffer shapes |
| StreamingDetector.RunExtends | matlab/matlab2python/kick_detection_recording_optimized.py:56-157 | over a recording the frame counter advances once per frame, and the events and kicks printed before stay a prefix of those printed after |
| StreamingDetector.WarmUp | matlab/matlab2python/kick_detection_recording_optimized.py:69-91 | before frame `T-1` only the raw buffer moves; up to frame `2T-1` the acceleration average, the pointers and the record stay as they are |
| StreamingDetector.InitialInv | matlab/matlab2python/kick_detection_recording_optimized.py:33-43 | the set-up state (zero buffers, sentinels 1 and 0) satisfies the loop invariant |
| StreamingDetector.AcceptedSpan | matlab/matlab2python/kick_detection_recording_optimized.py:122-133 | a candidate the yagi channel accepts spans 27 to 64 frames |
| StreamingDetector.AdvanceKeepsInv | matlab/matlab2python/kick_detection_recording_optimized.py:104-157 | every frame keeps the invariant: stop pointer 0, start idle (1) or at most `local_index`, each recorded kick 27 to 64 frames long, recorded stops strictly increasing and in the past, each kick starting at most 10 frames before the previous one stopped |
| StreamingDetector.RunKeepsInv | matlab/matlab2python/kick_detection_recording_optimized.py:56-157 | the invariant holds after any prefix of a recording |
| StreamingDetector.DetectEvents | matlab/matlab2python/kick_detection_recording_optimized.py:104-157 | the state machine either records nothing, or prints exactly one event for this frame with start `i + start - 1`, records `(start, i)` exactly when both channels pass, and returns to idle |
| StreamingDetector.AdvanceEvents | matlab/matlab2python/kick_detection_recording_optimized.py:104-157 | each frame prints at most one event, and records a kick only together with an event accepting it on both channels |
| StreamingDetector.ArmedStartIsFixed | matlab/matlab2python/kick_detection_recording_optimized.py:107-108 | while armed, `i + buffer_kick_start` does not move |
| StreamingDetector.ArmingSetsLocalIndex | matlab/matlab2python/kick_detection_recording_optimized.py:104-106 | from idle the start pointer either stays 1 or becomes `local_index`, and nothing is printed or recorded |
| StreamingDetector.QuietFrameKeepsSilence | matlab/matlab2python/kick_detection_recording_optimized.py:56-102 | a frame with no target above TH leaves an all-zero idle detector all-zero and idle |
| StreamingDetector.SilenceDetectsNothing | matlab/matlab2python/kick_detection_recording_optimized.py:56-157 | a recording with no target above TH never prints or records a kick |
| StreamingDetector.Detector.Step | matlab/matlab2python/kick_detection_recording_optimized.py:56-157 | one iteration on the four arrays and the pointers leaves exactly the state `Advance` describes |
| StreamingDetector.Detector.PushVelocity | matlab/matlab2python/kick_detection_recording_optimized.py:57-67 | the raw buffer shifts left with the frame's velocity pair; nothing else changes |
| StreamingDetector.Detector.SmoothVelocityStage | matlab/matlab2python/kick_detection_recording_optimized.py:69-89 | the in-place stage leaves the state `SmoothVelocity` describes: the mean of the raw rows `[-T:-1]` goes in at offset -7 (`local_index - 1`, the last six rows untouched), then the acceleration from offsets -7 and -8 goes in at the same offset |
| StreamingDetector.Detector.SmoothAccelerationStage | matlab/matlab2python/kick_detection_recording_optimized.py:91-102 | the in-place stage leaves the state `SmoothAcceleration` describes: the mean of acceleration offsets -16 .. -7 goes in at offset -11, the last ten rows untouched |
| StreamingDetector.Detector.DetectStage | matlab/matlab2python/kick_detection_recording_optimized.py:104-157 | the pointer state machine on the fields is the `Detect` function on the state |
| StreamingDetector.Detector.Record | matlab/matlab2python/kick_detection_recording_optimized.py:146-157 | prints the event, records `(i + start, i)` when both channels passed, resets to 1 and 0 |
| StreamingDetector.KickDetection | matlab/matlab2python/kick_detection_recording_optimized.py:56-198 | the loop over a recording returns the events and kicks of `Run` from the initial state |
| ReferenceDetector.OffsetsAreRounded | matlab/matlab2python/kick_detection_recording.py:70 | `round(0.5 * 12)` and `round(12 / 2)` are 6, and `round(1.5 * 12)` is 18 |
| ReferenceDetector.KickValid | matlab/matlab2python/kick_detection_recording.py:231-295 | IndexError when a time stamp is missing; otherwise every window is evaluated, so an empty one raises ValueError whatever the earlier checks found |
| ReferenceDetector.KickValidMeansKickShape | matlab/matlab2python/kick_detection_recording.py:231-295 | the reference validator accepts exactly the candidates whose time-stamp duration is in [0.5, 2] and whose five windows have the kick shape |
| ReferenceDetector.NoEarlyReturn | matlab/matlab2python/kick_detection_recording.py:237-246 | an out-of-range duration does not settle the outcome: the result is False when all windows are non-empty and an error otherwise |
| ReferenceDetector.ValidateKick | matlab/matlab2python/kick_detection_recording.py:231-295 | the flag-clearing method returns what `KickValid` states |
| ReferenceDetector.MiddleNonEmpty | matlab/matlab2python/kick_detection_recording.py:276-287 | for a candidate at least one frame long starting at frame 13 or later, the middle window is non-empty |
| ReferenceDetector.KickValidNeverRaises | matlab/matlab2python/kick_detection_recording.py:116-135 | with the detector's arguments the reference validator never raises |
| ReferenceDetector.InitialInv | matlab/matlab2python/kick_detection_recording.py:35-53 | the set-up (zero arrays, `kick_start = [1]`, `kick_stop = [0]`) satisfies the invariant |
| ReferenceDetector.AcceptedDuration | matlab/matlab2python/kick_detection_recording.py:237-246 | an accepted candidate spans 13 to 50 frames, read from the time stamps written so far |
| ReferenceDetector.AdvanceKeepsInv | matlab/matlab2python/kick_detection_recording.py:55-163 | every frame keeps the invariant: time stamps are `k * FrameTime`, the live stop is 0, the live start is 1 or an armed frame, and there is one printed event per resolved candidate, each started at frame 13 or later, patch-accepted only if yagi-accepted, and 13 to 50 frames long when the yagi channel accepted it |
| ReferenceDetector.ResolvedEntriesAreFinal | matlab/matlab2python/kick_detection_recording.py:148-163 | entries before the live one and printed events never change again, and a frame prints at most one event |
| ReferenceDetector.FrameWrites | matlab/matlab2python/kick_detection_recording.py:56-96 | frame `count - 1` writes its raw velocity at `count - 1`, once `count >= 12` 1.5 times the mean of the last 12 raw velocities at `count - 7` with the acceleration beside it, once `count > 24` 1.5 times the mean acceleration over `count - 18 .. count - 7` at `count - 13`, and nothing else |
| ReferenceDetector.ArmingSetsLocalIndex | matlab/matlab2python/kick_detection_recording.py:98-100 | arming happens only from 1, sets the live start to `count - 12`, and prints nothing |
| ReferenceDetector.Verdicts | matlab/matlab2python/kick_detection_recording.py:118-146 | the patch channel is validated only when the yagi channel passed |
| ReferenceDetector.Resolve | matlab/matlab2python/kick_detection_recording.py:148-163 | resolving a candidate keeps the array shapes |
| ReferenceDetector.Detect | matlab/matlab2python/kick_detection_recording.py:98-163 | the state machine writes none of the time-stamp, velocity or acceleration arrays |
| ReferenceDetector.Smoothed | matlab/matlab2python/kick_detection_recording.py:56-96 | the first half of a frame writes the time stamp `count * 0.04` and the raw velocity at `count`, and leaves the counter, the pointers and the events alone |
| ReferenceDetector.Advance | matlab/matlab2python/kick_detection_recording.py:55-163 | one iteration keeps the array shapes and moves the frame counter on by one |
| ReferenceDetector.Run | matlab/matlab2python/kick_detection_recording.py:55-163 | after any prefix of a recording the invariant of `AdvanceKeepsInv` holds and the counter has moved on once per frame |
| ReferenceDetector.RefDetector.Step | matlab/matlab2python/kick_detection_recording.py:55-163 | one iteration on the arrays and pointer lists leaves exactly the state `Advance` describes |
| ReferenceDetector.RefDetector.Validation | matlab/matlab2python/kick_detection_recording.py:118-146 | the yagi verdict, and the patch verdict only after a yagi pass |
| ReferenceDetector.KickDetection | matlab/matlab2python/kick_detection_recording.py:55-163 | the loop over a recording prints the events of `Run` from the initial state |
| LabelRuns.RunsOfCorrect | traininng/utils.py:377-388 | the runs found frame by frame are the run decomposition: in bounds, ordered, separated, holding only the value, maximal on both sides, covering every occurrence |
| LabelRuns.GetStartStopWithZero | traininng/utils.py:377-388 | with a zero present, `get_start_stop` lists the inclusive start and stop of each maximal run of non-zero labels, ascending, and the count is the number of runs |
| LabelRuns.GetStartStopWithoutZero | traininng/utils.py:382-386 | without a zero no start or stop is reported, although `group_num` is 1 for a non-empty input |
| LabelRuns.GetStartStop | traininng/utils.py:377-388 | as many starts as stops (what they are: `GetStartStopWithZero` and `GetStartStopWithoutZero`) |
| LabelRuns.AllOnesLosesItsRun | traininng/utils.py:382-386 | counterexample: `[1, 1, 1]` gives no start, no stop and count 1 |
| LabelRuns.StartsOfRuns | traininng/utils.py:386 | run starts are exactly the occurrences not preceded by the value |
| LabelRuns.StopsOfRuns | traininng/utils.py:386 | run stops are exactly the occurrences not followed by the value |
| LabelRuns.IncreasingUnique | benchmarking/tests/fixtures/metric.py:250-260 | two strictly increasing sequences with the same elements are equal |
| LabelRuns.RunsUnique | traininng/utils.py:377-388 | runs depend only on where the value occurs |
| LabelRuns.WhereCorrect | labeling/labeling_app.py:170-171 | `np.where(d == c)[0]` lists exactly the positions holding `c`, increasing |
| LabelRuns.GetStacks | labeling/labeling_app.py:168-173 | ValueError exactly when the start and end lists have different lengths |
| LabelRuns.GetStacksOfBinary | labeling/labeling_app.py:168-173 | on 0/1 data `get_stacks` succeeds and lists `(start, end)`, end exclusive, for each maximal run of ones, in order |
| LabelRuns.StacksMatchStartStop | labeling/labeling_app.py:168-173 | where a zero is present, each stack is the `get_start_stop` run with its stop made exclusive |
| TrainingLabels.IsOverlapping | traininng/utils.py:643-664 | true exactly when some previous segment has `start <= pe + mid_buffer` and `end >= ps - mid_buffer`; false for an empty history |
| TrainingLabels.NearIsSmallGap | traininng/utils.py:657-660 | for proper segments, "near" means they intersect or leave fewer than `mid_buffer` frames between them, so it is symmetric |
| TrainingLabels.IntersectingIsNear | traininng/utils.py:657-660 | segments sharing a frame are near |
| TrainingLabels.AddAugmentedLabels | traininng/utils.py:690-709 | a fresh copy of the labels, 1 on each placed segment's `out_labels[s:e+1]` clipped to the array, the input otherwise |
| TrainingLabels.InRangePainting | traininng/utils.py:707 | for segments inside the array, a frame is set exactly when some segment's `[start, end]` holds it |
| TrainingLabels.UpDownSampleChecks | traininng/utils.py:399-423 | Ok (the frame count) exactly for two arrays with raw shape N×2×2×32, N labels and kind "up" or "down"; TypeError exactly for a non-array argument; IndexError for 0-d labels; ValueError otherwise |
| TrainingLabels.VerdictFrom | traininng/utils.py:770-780 | given a window's runs: labels are 0 or 1, and anything but label 0 needs a run in a window other than the first and the last |
| TrainingLabels.WindowVerdictAsWritten | traininng/utils.py:758-780 | the window's runs as `label`/`np.unique` finds them: a window without a zero frame is kept with label 0 |
| TrainingLabels.WindowVerdict | traininng/utils.py:770-780 | with the window's actual runs: label 1 only for a middle window whose neighbouring frames are unlabelled |
| TrainingLabels.WholeKickWindowAsWritten | traininng/utils.py:762-780 | counterexample: a kick exactly one window long, between unlabelled frames (`[0, 1, 1, 0]` with `split_len` 2), is kept with label 0 as written but labelled 1 when its run is seen |
| TrainingLabels.EdgeWindowsUnlabelled | traininng/utils.py:771 | the first and last window are never dropped and always label 0 |
| TrainingLabels.KickInteriorAsWritten | traininng/utils.py:762-780 | counterexample: window 2 of `[0, 1, 1, 1, 1, 0]` with `split_len` 2 lies inside the kick, so it is kept with label 0 as written and dropped when its run is seen |
| TrainingLabels.MiddleWindowVerdict | traininng/utils.py:762-780 | as written, another window is label 1 exactly when it holds a zero, one maximal run with `stop - start >= min_duration`, and unlabelled frames just before and after it; label 0 exactly when all its frames are unlabelled or all are labelled; dropped otherwise; with a zero it agrees with the intended rule |
| TrainingLabels.MiddleWindowVerdictCorrected | traininng/utils.py:770-780 | under the intended rule another window is label 0 exactly when it holds no labelled frame, label 1 exactly when it holds one run with `stop - start >= min_duration` and unlabelled neighbours, and dropped otherwise |
| TrainingLabels.NoRunsIffUnlabelled | traininng/utils.py:770-771 | no run of labelled frames exactly when all labels are 0 |
| TrainingLabels.VerdictAt | traininng/utils.py:758-780 | entry `j` of the verdicts is window `j`'s verdict under the same rule; for the rule `DataLoad` applies, the as-written one |
| TrainingLabels.Verdicts | traininng/utils.py:753-758 | one verdict for each of the `N - split_len + 1` windows |
| TrainingLabels.KeptAgree | traininng/utils.py:777-798 | kept data windows and kept labels have the same length, the kept windows increase, and each label is its window's |
| TrainingLabels.KeptLabelsBinary | traininng/utils.py:753-780 | the kept labels are 0 or 1 |
| TrainingLabels.CorrectedKeptWindows | traininng/utils.py:770-780 | under the intended rule a kept middle window with label 0 holds no labelled frame, and one with label 1 holds some and has unlabelled frames just outside it |
| TrainingLabels.DeleteDropped | traininng/utils.py:796-798 | deleting the dropped indices from the label array leaves exactly the kept windows' labels |
| TrainingLabels.DataLoadWindows | traininng/utils.py:753-798 | ValueError exactly when the recording is shorter than `split_len - 1`; otherwise the kept window starts and their labels under the as-written window rule |
| TrainingLabels.ScanWindows | traininng/utils.py:753-780 | the loop leaves label `v.kick` at each kept window and 0 elsewhere, lists exactly the dropped windows in `del_idx`, and collects the kept starts in order |
| TfInference.TargetColumns | tf_net/tf_inference.py:66-72 | column `2k` is amplitude `k` and column `2k+1` is bin `k` over 31, for `k = 2c + r` |
| TfInference.LoadTargetRow | tf_net/tf_inference.py:58-74 | a record loads exactly when it has eight fields (ValueError otherwise) |
| TfInference.LoadPackedFrame | tf_net/tf_inference.py:58-74 | a packed record whose bins fit a byte loads as (lossy amplitude, bin / 31) pairs |
| TfInference.Windows | tf_net/tf_inference.py:117-118 | `N - split_len` rows for `N > split_len`, none otherwise |
| TfInference.WindowsCover | tf_net/tf_inference.py:117-118 | row `j` holds frames `j .. j+split_len-1` and never the final frame, so the last full window is not formed |
| TfInference.ConfidentClassesPerWindow | tf_net/tf_inference.py:129 | with confidence at least 1/2 and a confident class in every softmax row, one class per window in order: 1 where class 1 is confident |
| TfInference.ConfidentClassesAtMostOne | tf_net/tf_inference.py:129 | with confidence at least 1/2 each softmax row gives at most one class, 0 or 1 |
| TfInference.ConfidentClasses | tf_net/tf_inference.py:129 | at most two classes per softmax row, each 0 or 1 |
| TfInference.Prefixed | tf_net/tf_inference.py:130 | exactly `split_len` zeros, then the predictions |
| TfInference.EmitMeaning | tf_net/tf_inference.py:137-142 | an event is printed for run `i` exactly when `stop - start < split_len`, with frame = run start and kick_start = run stop minus `split_len` |
| TfInference.Emit | tf_net/tf_inference.py:137-142 | at most one line per run, each with `kick_start` before `frame` |
| TfInference.InferenceEventsBounds | tf_net/tf_inference.py:129-142 | thanks to the zero prefix every run is found, and every event has `split_len <= frame` and `0 <= kick_start < frame` |
| TfInference.InferenceEvents | tf_net/tf_inference.py:129-142 | every printed event has its start before its frame |
| EventScores.IoUOfRuns | benchmarking/tests/fixtures/metric.py:111-118 | IoU is NaN exactly when both runs are single frames; otherwise it lies in [0, 1] and is 1 exactly for identical runs |
| EventScores.SingleFrameRunsNeverMatch | benchmarking/tests/fixtures/metric.py:112-118 | two single-frame runs have IoU NaN even when they coincide |
| EventScores.SeparatedRunsDoNotOverlap | benchmarking/tests/fixtures/metric.py:114-116 | separated runs have intersection 0 |
| EventScores.ScoredBounds | benchmarking/tests/fixtures/metric.py:135-141 | precision, recall and F1 lie in [0, 1] and are all 1 exactly when tp > 0, fp = 0, fn = 0 |
| EventScores.UnitRatio | benchmarking/tests/fixtures/metric.py:135-136 | `a / b if b > 0 else 0` lies in [0, 1] and is 1 exactly when `a == b > 0` |
| EventScores.MetricsCases | benchmarking/tests/fixtures/metric.py:49-126 | no labels and no predictions score 1; exactly one side empty scores 0; a side with no run scores 0; every score is in [0, 1] |
| EventScores.Metrics | benchmarking/tests/fixtures/metric.py:42-148 | precision, recall and F1 each lie in [0, 1] |
| EventScores.IdenticalRows | benchmarking/tests/fixtures/metric.py:128-133 | against itself every run matches once and no reference run is unmatched |
| EventScores.IdenticalColumns | benchmarking/tests/fixtures/metric.py:132 | against itself no predicted run is unmatched |
| EventScores.IdenticalRunsScorePerfectly | benchmarking/tests/fixtures/metric.py:73-148 | predictions whose runs are the closed reference runs, each at least two frames, score 1 on all three metrics |
| Segments.Sort | benchmarking/tests/fixtures/metric.py:250-260 | `np.sort` returns a permutation |
| Segments.SortSorted | benchmarking/tests/fixtures/metric.py:250-260 | the result is in non-decreasing order |
| Segments.SortedDistinct | benchmarking/tests/fixtures/metric.py:250-260 | a sorted sequence without repeats is strictly increasing |
| Segments.BoundariesTile | benchmarking/tests/fixtures/metric.py:250-260 | increasing left boundaries and increasing right boundaries pair up into the maximal constant segments, back to back from the first frame to the last |
| Segments.SegmentFrames | benchmarking/tests/fixtures/metric.py:374-399 | summing `stop - start + 1` over the segments of one value counts the frames holding it |
| Segments.SumWhereSplit | benchmarking/tests/fixtures/metric.py:374-399 | four masks that share out the selected segments share out their frame sum |
| FrameMetrics.CheckInputsAsWritten | benchmarking/tests/fixtures/metric.py:157-178 | as written the checks pass exactly for two 1-D arrays of the same shape |
| FrameMetrics.CheckInputs | benchmarking/tests/fixtures/metric.py:157-178 | with the second test on `ref_kicks`: passes exactly for two 1-D arrays of equal shape and returns the frame count; TypeError exactly for a non-array, ValueError otherwise |
| FrameMetrics.SecondTypeCheckRetestsApp | benchmarking/tests/fixtures/metric.py:160-161 | the two versions agree when the reference is an array; a 1-D prediction with a non-array reference gives AttributeError as written, TypeError corrected |
| FrameMetrics.ClassOf | benchmarking/tests/fixtures/metric.py:198-201 | the class of a 0/1 frame satisfies its mask |
| FrameMetrics.ExactlyOneClass | benchmarking/tests/fixtures/metric.py:198-201 | a frame is in some class exactly when both values are 0 or 1, and then in exactly one |
| FrameMetrics.ClassRunsAreRuns | benchmarking/tests/fixtures/metric.py:209-247 | when a class mask has a zero, its starts and stops are the maximal runs of that class |
| FrameMetrics.ClassStartsStops | benchmarking/tests/fixtures/metric.py:209-247 | a class's starts are exactly that class's left boundaries and its stops its right boundaries, both increasing |
| FrameMetrics.SegmentsTile | benchmarking/tests/fixtures/metric.py:249-260 | with frames of two classes, the sorted starts and stops are the maximal same-class segments tiling all frames, at least two of them |
| FrameMetrics.SegmentIndexIsClass | benchmarking/tests/fixtures/metric.py:263-274 | segment mask `c` holds exactly for segments whose first frame is of class `c` |
| FrameMetrics.FpSubcasesPartition | benchmarking/tests/fixtures/metric.py:285-323 | with at least two segments, each FP segment is exactly one of insertion, merge, overfill-begin, overfill-end, and no other segment is any |
| FrameMetrics.FnSubcasesPartition | benchmarking/tests/fixtures/metric.py:327-367 | each FN segment is exactly one of deletion, fragmenting, underfill-begin, underfill-end, and no other segment is any |
| FrameMetrics.FrameEventCountsCases | benchmarking/tests/fixtures/metric.py:277-281 | for 0/1 inputs the frame part never raises, and returns None exactly when all frames share one class |
| FrameMetrics.FrameEventCounts | benchmarking/tests/fixtures/metric.py:151-432 | the only error is IndexError, raised only with fewer than two segments; for 0/1 inputs tp and tn are the TP and TN frame counts |
| FrameMetrics.MaskCounts | benchmarking/tests/fixtures/metric.py:370-371 | the sum of a class mask is the number of frames of that class |
| FrameMetrics.TallyPartition | benchmarking/tests/fixtures/metric.py:373-399 | over a tiling into at least two segments, the FP subcase counts add up to the FP frames and the FN ones to the FN frames |
| FrameMetrics.FrameCountsMeaning | benchmarking/tests/fixtures/metric.py:370-416 | tp and tn are the TP and TN frame counts; the FP subcases share out the FP frames and the FN subcases the FN frames; `negatives_count` is the number of label-0 frames and `positives_count` the number of label-1 frames |
| FrameMetrics.RatesClosedForm | benchmarking/tests/fixtures/metric.py:419-432 | with positives, TPR = 1 - (D + F + Ualpha + Uomega) is the TP share of the positives; with negatives, FPR is the share the FP subcases take |
| FrameMetrics.RatesMeaning | benchmarking/tests/fixtures/metric.py:402-432 | TPR is the fraction of label-1 frames predicted 1 and FPR the fraction of label-0 frames predicted 1, both in [0, 1], NaN exactly when there are no such frames |
| Labeling.Clip | labeling/labeling_app.py:162-163 | the clipped value lies in the range and is the value itself when inside it |
| Labeling.PaintedStep | labeling/labeling_app.py:161-165 | painting one more kick adds exactly the frames it covers |
| Labeling.ZeroShiftsReproduceLabels | labeling/labeling_app.py:155-173 | with all shifts zero, as `get_data` sets them, painting the kicks `get_stacks` finds in 0/1 labels gives back the labels |
| Labeling.LabelFixer.constructor | labeling/labeling_app.py:20-40 | data `[0]`, no kicks or shifts, kick 0 selected, not in modify-all mode |
| Labeling.LabelFixer.ShiftKickLabels | labeling/labeling_app.py:155-166 | an array as long as `data`; frame `f` is 1 exactly when some kick `k` has `clip(s_k + left_k, 0, n) <= f < clip(e_k + right_k, 0, n)`, 0 otherwise |
| Labeling.LabelFixer.LoadData | labeling/labeling_app.py:305-314 | keeps the loaded labels; either ValueError with kicks and shifts unchanged, or the kicks `get_stacks` finds, each with a zero shift |
| Labeling.LabelFixer.Update | labeling/labeling_app.py:343-354 | in modify-all mode every shift becomes the slider pair; otherwise IndexError exactly when `stack_configs[current_stack]` is out of Python's index range, leaving shifts and labels as they were, and else only that kick's shift (negative indices counting from the end) is set; then the labels are repainted |
| Labeling.LabelFixer.DeleteKick | labeling/labeling_app.py:231-240 | nothing in modify-all mode; otherwise the sliders go to zero, then IndexError exactly when `kick_stacks[current_stack]` is out of Python's index range, and else that kick's end is set to its start so it paints no frame, its shift is zeroed and the labels are repainted |
| Labeling.LabelFixer.ChangeKick | labeling/labeling_app.py:179-186 | selects kick `k`; IndexError exactly when `stack_configs[k]` is out of Python's index range, with sliders, shifts and labels unchanged; otherwise the sliders move to kick `k`'s shift, outside modify-all mode no shift changes, in it every shift becomes kick `k`'s, and the labels are repainted |
| Report.SplitSpaceJoin | benchmarking/tests/utils/report.py:356 | joining the pieces of `value.split(" ")` with spaces gives back the value |
| Report.SplitSpacePieces | benchmarking/tests/utils/report.py:356 | no piece holds a space, and no piece holds a character the value lacks |
| Report.WrapText | benchmarking/tests/utils/report.py:354-363 | the loop builds exactly the wrap of the value's words from counter 0 |
| Report.WrapOnlyAddsBreaks | benchmarking/tests/utils/report.py:356-363 | deleting the inserted newlines leaves every word in order, each followed by one space |
| Report.WrapKeepsText | benchmarking/tests/utils/report.py:354-363 | for a value without newlines, removing the breaks gives the value plus one trailing space |
| Report.WrapStep | benchmarking/tests/utils/report.py:357-363 | a word starts a new line exactly when the current line's non-space characters plus the word reach 60 |
| Report.CounterIsLineLetters | benchmarking/tests/utils/report.py:357-363 | the counter is the number of non-space characters on the current line, which holds fewer than 60 of them or just one word |
| Report.ShortTextUnbroken | benchmarking/tests/utils/report.py:357-359 | words whose lengths sum to less than 60 are never broken apart |
| Report.WrapMetaData | benchmarking/tests/utils/report.py:352-364 | keys and order are kept, text values are replaced by their wrap and other values are left unchanged |
| Report.TableRowStyles | benchmarking/tests/utils/report.py:250-278 | border "LR" for every row but the last, "LRB" for it; row `i` filled exactly when `i` is odd; key height 6 per line of the value; multi-line cell exactly for values over 60 characters |

## Left out

- FFT, windowing and ranking (`gauss`, complex FFT, `torch.topk`, the float-to-uint16 cast) are floating-point library computations. The codec starts from integer (bin, amplitude) pairs.
- The network (`model_seq`, `model.predict`) and the 3-tap convolution normalisation, in both inference and `DataLoad`, are foreign numeric code. The network's softmax rows are a parameter of `TfInference`. `DataLoad`'s data windows are represented by their start frames.
- The morphological closing (`binary_dilation`/`binary_erosion`) of the reference labels in `metrics` and `frame_event_metrics` is library semantics. It is a function parameter of `EventScores.Metrics`, and `FrameMetrics` takes the already-closed labels as input.
- FrameMetrics.FrameEventCounts: the event-level bitmask tally of `frame_event_metrics` (benchmarking/tests/fixtures/metric.py:476-599) and the returned dictionaries are not modelled; only the frame and segment counts and the rates are.
- `frame_event_metrics` also computes `accuracy`, `tpr` and `fpr` at metric.py:203-205. They are never used, so they are not modelled; the rates that are returned are.
- Training augmentation (noise, synthetic data, resampling, random placement) is random and float-heavy. Only the label update and the argument checks are modelled. The random placement is the parameter `times` of `AddAugmentedLabels`.
- I/O is not modelled: `np.load`/`np.save`, device recording, keyboard polling, argparse, file copies (`shutil.copy`, save/reset of labels), folder navigation (`next_prev`) and the report's FPDF rendering and float formatting (`f"{item:.3f}"`).
- Console printing is modelled as the detectors' `Event` lists. Plotting is not modelled.
- In the labelling tool, the slider widgets, key handlers, `change_mode`, `fix_limits` and plotting are UI. The sliders are the fields `left` and `right`. `kick_labels`, which starts as `None`, is the empty sequence before the first repaint.
- Labeling.LabelFixer.Update, Labeling.LabelFixer.DeleteKick, Labeling.LabelFixer.ChangeKick: the `changing_kick` flag is not modelled. It only silences the slider callbacks, and after an IndexError in `change_kick` the source leaves it True.
- ReferenceDetector.KickValid, ReferenceDetector.KickValidMeansKickShape: the time stamps `k * 0.04` are exact reals, so the duration test `t[kick_stop - 1] - t[kick_start - 1] > 2` is exact. In float64 `108 * 0.04 - 58 * 0.04` is 2.0000000000000004, so the source rejects the 50-frame candidate with time stamps `t[58]` and `t[108]` (`kick_stop` 109) that the model accepts. Of the 50-frame candidates whose later time stamp is `t[50]` to `t[398]`, 33 behave like this.
- Velocity and acceleration are exact reals, not float64. `lambda_ / 2 / PRT / (N_FFT - 1)` is an exact rational for each detector.

## Findings

| source | as written | input that shows it | evidently intended | confidence | as-written member | corrected member |
|---|---|---|---|---|---|---|
| traininng/utils.py:762-780 | a window's runs come from `label` + `np.unique`, which reports none when the window holds no zero | labels `[0] + [1]*split_len + [0]`, window 1: the whole kick is in the window and the frames around it are unlabelled, yet it is kept with label 0 | the window that holds exactly the whole kick is labelled 1 | not executed | TrainingLabels.WholeKickWindowAsWritten | TrainingLabels.WindowVerdict |
| benchmarking/tests/fixtures/metric.py:160-161 | the second `isinstance` test re-tests `app_kicks` | `app_kicks = np.array([0,0,0,0,0])`, `ref_kicks` a list: AttributeError at `ref_kicks.ndim` instead of the TypeError the message announces | reject a non-array `ref_kicks` with TypeError | not executed | FrameMetrics.SecondTypeCheckRetestsApp | FrameMetrics.CheckInputs |
