/**
 * `convrtAveVelocity`, the per-frame conversion from one target record to
 * one velocity per channel. Both detectors carry the same routine: it
 * decodes each pair inline with Python integer arithmetic, keeps the pairs
 * whose amplitude is strictly above the threshold, folds bins above
 * `N_FFT / 2` to negative frequencies, and scales the mean location.
 *
 * The mean is taken over `Target_MaxLocations[:counter + 1]`; with two
 * targets per channel that slice always holds both slots, so a single
 * exceeding target is averaged with the 0 left in the other slot.
 */
module Velocity {
  import opened PyOps
  import TargetCodec

  /** Targets per channel, `numofTarget` and `numofTargetfromATR22` at both call sites. */
  const TargetsPerChannel: nat := 2

  /** A decoded target as the detectors compare it: Python integers. */
  datatype Reading = Reading(bin: int, amp: int)

  /**
   * The detectors' inline amplitude, `((0x00FF & f1) << 4) + ((0xFF00 & f0) >> 8)`.
   * The code applies it to Python integers below 2^16; no intermediate value
   * reaches 2^16 (see InlineNoWrap), so the `bv16` operations here compute the
   * same numbers.
   */
  function InlineAmp(f0: bv16, f1: bv16): bv16
  {
    ((0x00FF & f1) << 4) + ((0xFF00 & f0) >> 8)
  }

  /** The detectors' inline bin, `0x00FF & f0`. */
  function InlineBin(f0: bv16): bv16
  {
    0x00FF & f0
  }

  /** The two addends of the inline amplitude fit in 12 and 8 bits, so their sum never wraps: it is at least either addend and at most 0x10EF. */
  lemma InlineNoWrap(f0: bv16, f1: bv16)
    ensures (0x00FF & f1) << 4 <= 0x0FF0 && (0xFF00 & f0) >> 8 <= 0x00FF
    ensures (0x00FF & f1) << 4 <= InlineAmp(f0, f1) <= 0x10EF
    ensures (0xFF00 & f0) >> 8 <= InlineAmp(f0, f1)
  {
  }

  /** The inline amplitude and bin are the codec's decoded amplitude and bin of the same pair. */
  lemma InlineDecodeAgrees(f0: bv16, f1: bv16)
    ensures InlineAmp(f0, f1) == TargetCodec.DecodePair(f0, f1).amp
    ensures InlineBin(f0) == TargetCodec.DecodePair(f0, f1).bin
  {
  }

  /** The reading of rank `j` of channel `c`. Channel `c` reads fields `4c .. 4c+3`. */
  function ReadingAt(fields: seq<bv16>, c: nat, j: nat): (r: Reading)
    requires |fields| == 8 && c < 2 && j < 2
    ensures 0 <= r.bin <= 255 && 0 <= r.amp <= 4335
  {
    var f0, f1 := fields[4 * c + 2 * j], fields[4 * c + 2 * j + 1];
    InlineDecodeAgrees(f0, f1);
    TargetCodec.DecodeBounds(f0, f1);
    Reading(InlineBin(f0) as int, InlineAmp(f0, f1) as int)
  }

  /** A bin above `N_FFT / 2` stands for a negative frequency. */
  function Wrapped(bin: int, nFFT: int): int
  {
    if bin as real > nFFT as real / 2.0 then bin - nFFT else bin
  }

  /** Whether a reading counts: its amplitude is strictly above `th`. */
  predicate Exceeds(r: Reading, th: int)
  {
    r.amp > th
  }

  /** The slot of `Target_MaxLocations` a reading leaves behind: its folded bin, or the initial 0. */
  function Slot(r: Reading, th: int, nFFT: int): real
  {
    if Exceeds(r, th) then Wrapped(r.bin, nFFT) as real else 0.0
  }

  /** The mean of both slots, which the code takes whenever at least one reading exceeds the threshold. */
  function MeanLocation(r0: Reading, r1: Reading, th: int, nFFT: int): real
  {
    (Slot(r0, th, nFFT) + Slot(r1, th, nFFT)) / 2.0
  }

  /** A mean bin location converted to a velocity: `* lambda_ / 2 / PRT / (N_FFT - 1)`. */
  function Scaled(location: real, scale: real): real
  {
    location * scale
  }

  /**
   * The velocity of a channel with readings `r0`, `r1`: 0 when neither
   * exceeds the threshold, otherwise the mean of both slots times the scale.
   */
  function ChannelVelocity(r0: Reading, r1: Reading, th: int, nFFT: int, scale: real): real
  {
    if Exceeds(r0, th) || Exceeds(r1, th) then Scaled(MeanLocation(r0, r1, th, nFFT), scale)
    else 0.0
  }

  /**
   * The velocity the record gives channel `c`, from the channel's two
   * readings (the codec's decoded targets, see ReadingDecodes): 0 when
   * neither amplitude is above `th`, half the folded bin of the only one
   * that is, or the mean of both folded bins, times the scale.
   */
  function VelocityOf(fields: seq<bv16>, c: nat, th: int, nFFT: int, scale: real): (v: real)
    requires |fields| == 8 && c < 2
    ensures var r0, r1 := ReadingAt(fields, c, 0), ReadingAt(fields, c, 1);
            (!Exceeds(r0, th) && !Exceeds(r1, th) ==> v == 0.0) &&
            (Exceeds(r0, th) && !Exceeds(r1, th) ==> v == Scaled(Wrapped(r0.bin, nFFT) as real / 2.0, scale)) &&
            (!Exceeds(r0, th) && Exceeds(r1, th) ==> v == Scaled(Wrapped(r1.bin, nFFT) as real / 2.0, scale)) &&
            (Exceeds(r0, th) && Exceeds(r1, th) ==> v == Scaled((Wrapped(r0.bin, nFFT) + Wrapped(r1.bin, nFFT)) as real / 2.0, scale))
  {
    var r0, r1 := ReadingAt(fields, c, 0), ReadingAt(fields, c, 1);
    ChannelCases(r0, r1, th, nFFT, scale);
    ChannelVelocity(r0, r1, th, nFFT, scale)
  }

  /** Rank `j` of channel `c` reads the codec's decoded bin and amplitude of fields `4c + 2j` and `4c + 2j + 1`. */
  lemma ReadingDecodes(fields: seq<bv16>, c: nat, j: nat)
    requires |fields| == 8 && c < 2 && j < 2
    ensures ReadingAt(fields, c, j).bin == TargetCodec.DecodePair(fields[4 * c + 2 * j], fields[4 * c + 2 * j + 1]).bin as int
    ensures ReadingAt(fields, c, j).amp == TargetCodec.DecodePair(fields[4 * c + 2 * j], fields[4 * c + 2 * j + 1]).amp as int
  {
    InlineDecodeAgrees(fields[4 * c + 2 * j], fields[4 * c + 2 * j + 1]);
  }

  /** The four cases of a channel's velocity by which readings exceed the threshold. */
  lemma ChannelCases(r0: Reading, r1: Reading, th: int, nFFT: int, scale: real)
    ensures !Exceeds(r0, th) && !Exceeds(r1, th) ==> ChannelVelocity(r0, r1, th, nFFT, scale) == 0.0
    ensures Exceeds(r0, th) && !Exceeds(r1, th) ==>
              ChannelVelocity(r0, r1, th, nFFT, scale) == Scaled(Wrapped(r0.bin, nFFT) as real / 2.0, scale)
    ensures !Exceeds(r0, th) && Exceeds(r1, th) ==>
              ChannelVelocity(r0, r1, th, nFFT, scale) == Scaled(Wrapped(r1.bin, nFFT) as real / 2.0, scale)
    ensures Exceeds(r0, th) && Exceeds(r1, th) ==>
              ChannelVelocity(r0, r1, th, nFFT, scale) == Scaled((Wrapped(r0.bin, nFFT) + Wrapped(r1.bin, nFFT)) as real / 2.0, scale)
  {
    if Exceeds(r0, th) && !Exceeds(r1, th) {
      SingleTargetIsHalved(r0, r1, th, nFFT, scale);
    } else if !Exceeds(r0, th) && Exceeds(r1, th) {
      SingleTargetIsHalved(r1, r0, th, nFFT, scale);
    } else if Exceeds(r0, th) && Exceeds(r1, th) {
      BothTargetsAveraged(r0, r1, th, nFFT, scale);
    }
  }

  /**
   * `convrtAveVelocity(TargetData, 2, TH, N_FFT, PRT, lambda_, 2)`, where
   * `scale` stands for `lambda_ / 2 / PRT / (N_FFT - 1)`.
   */
  method ConvertAveVelocity(fields: seq<bv16>, th: int, nFFT: int, scale: real)
    returns (averageVelocity: seq<real>)
    requires |fields| == 8
    ensures |averageVelocity| == 2
    ensures averageVelocity[0] == VelocityOf(fields, 0, th, nFFT, scale)
    ensures averageVelocity[1] == VelocityOf(fields, 1, th, nFFT, scale)
  {
    averageVelocity := [0.0, 0.0];
    for i := 0 to 2
      invariant |averageVelocity| == 2
      invariant forall c :: 0 <= c < i ==> averageVelocity[c] == VelocityOf(fields, c, th, nFFT, scale)
    {
      var locations := [0.0, 0.0];
      var counter := 0;
      for j := 0 to TargetsPerChannel
        invariant |locations| == 2
        invariant counter == (if 0 < j && Exceeds(ReadingAt(fields, i, 0), th) then 1 else 0)
                           + (if 1 < j && Exceeds(ReadingAt(fields, i, 1), th) then 1 else 0)
        invariant forall k :: 0 <= k < j ==> locations[k] == Slot(ReadingAt(fields, i, k), th, nFFT)
        invariant forall k :: j <= k < 2 ==> locations[k] == 0.0
      {
        var target := ReadingAt(fields, i, j);
        if target.amp > th {
          counter := counter + 1;
          var location := target.bin as real;
          if location > nFFT as real / 2.0 {
            location := location - nFFT as real;
          }
          locations := locations[j := location];
        }
      }
      var velocity := 0.0;
      if counter != 0 {
        var kept := Slice(locations, 0, counter + 1);
        assert kept == locations;
        assert Sum(kept) == locations[0] + locations[1] by {
          assert Sum(kept[1..][1..]) == 0.0;
          assert Sum(kept[1..]) == locations[1];
        }
        assert Mean(kept) == MeanLocation(ReadingAt(fields, i, 0), ReadingAt(fields, i, 1), th, nFFT);
        velocity := Scaled(Mean(kept), scale);
      }
      assert velocity == VelocityOf(fields, i, th, nFFT, scale);
      averageVelocity := averageVelocity[i := velocity];
    }
  }

  /** With no amplitude strictly above the threshold, the velocity is exactly 0. */
  lemma QuietChannelIsStill(r0: Reading, r1: Reading, th: int, nFFT: int, scale: real)
    requires r0.amp <= th && r1.amp <= th
    ensures ChannelVelocity(r0, r1, th, nFFT, scale) == 0.0
  {
  }

  /**
   * When only one of the two readings exceeds the threshold, its folded bin is
   * halved: the other slot's 0 takes part in the mean.
   */
  lemma SingleTargetIsHalved(r0: Reading, r1: Reading, th: int, nFFT: int, scale: real)
    requires Exceeds(r0, th) && !Exceeds(r1, th)
    ensures ChannelVelocity(r0, r1, th, nFFT, scale) == Wrapped(r0.bin, nFFT) as real / 2.0 * scale
    ensures ChannelVelocity(r1, r0, th, nFFT, scale) == Wrapped(r0.bin, nFFT) as real / 2.0 * scale
  {
  }

  /** When both readings exceed the threshold, the velocity is the mean of both folded bins. */
  lemma BothTargetsAveraged(r0: Reading, r1: Reading, th: int, nFFT: int, scale: real)
    requires Exceeds(r0, th) && Exceeds(r1, th)
    ensures ChannelVelocity(r0, r1, th, nFFT, scale)
            == (Wrapped(r0.bin, nFFT) + Wrapped(r1.bin, nFFT)) as real / 2.0 * scale
  {
  }

  /** A bin of a 32-point spectrum folds into [-15, 16]. */
  lemma WrappedRange(bin: int)
    requires 0 <= bin < 32
    ensures -15 <= Wrapped(bin, 32) <= 16
  {
  }

  /** For bins of a 32-point spectrum, the velocity magnitude is at most 16 times the scale. */
  lemma VelocityBound(r0: Reading, r1: Reading, th: int, scale: real)
    requires 0 <= r0.bin < 32 && 0 <= r1.bin < 32 && scale >= 0.0
    ensures -16.0 * scale <= ChannelVelocity(r0, r1, th, 32, scale) <= 16.0 * scale
  {
    var s0, s1 := Slot(r0, th, 32), Slot(r1, th, 32);
    assert -15.0 <= s0 <= 16.0 by { WrappedRange(r0.bin); }
    assert -15.0 <= s1 <= 16.0 by { WrappedRange(r1.bin); }
    if Exceeds(r0, th) || Exceeds(r1, th) {
      var m := (s0 + s1) / 2.0;
      assert -16.0 <= m <= 16.0;
      assert ChannelVelocity(r0, r1, th, 32, scale) == m * scale;
      ScaledWithin(m, scale);
    }
  }

  /** Scaling by a non-negative factor keeps a value in `[-16, 16]` within the scaled interval. */
  lemma ScaledWithin(m: real, scale: real)
    requires -16.0 <= m <= 16.0 && scale >= 0.0
    ensures -16.0 * scale <= m * scale <= 16.0 * scale
  {
    ProductNonNegative(m + 16.0, scale);
    ProductNonNegative(16.0 - m, scale);
    assert (m + 16.0) * scale == m * scale + 16.0 * scale;
    assert (16.0 - m) * scale == 16.0 * scale - m * scale;
  }

  lemma ProductNonNegative(a: real, b: real)
    requires a >= 0.0 && b >= 0.0
    ensures a * b >= 0.0
  {
  }
}
