/**
 * The per-frame target record: the two strongest spectral components of
 * each of the two antenna channels, each an (FFT bin, amplitude) pair that
 * has already been cast to uint16, packed into eight uint16 fields, and the
 * decoder that reads those fields back.
 *
 * All arithmetic is on `bv16`, which wraps exactly as NumPy's uint16 does.
 * The code is lossy: only the low twelve bits of the amplitude are stored,
 * and bits 4..7 are stored twice, so decoding adds them in twice.
 */
module TargetCodec {
  import opened PyOps

  /** One ranked target of one channel: `bins[c, r]` and `values[c, r]` after `astype(np.uint16)`. */
  datatype Target = Target(bin: bv16, amp: bv16)

  /** The two record fields one target is packed into. */
  datatype Packed = Packed(index: bv16, ampField: bv16)

  /** What the decoder recovers from one pair of fields. */
  datatype Decoded = Decoded(bin: bv16, amp: bv16)

  /** The four targets of a frame, as `[channel][rank]`. */
  predicate IsFrame(ts: seq<seq<Target>>)
  {
    |ts| == 2 && |ts[0]| == 2 && |ts[1]| == 2
  }

  /** Decoded amplitudes and bins of a frame, both as `[channel][rank]`. */
  datatype DecodedFrame = DecodedFrame(amps: seq<seq<bv16>>, bins: seq<seq<bv16>>)

  predicate IsDecodedFrame(d: DecodedFrame)
  {
    |d.amps| == 2 && |d.amps[0]| == 2 && |d.amps[1]| == 2 &&
    |d.bins| == 2 && |d.bins[0]| == 2 && |d.bins[1]| == 2
  }

  /** `d_bins = bins + ((values & 0x00FF) << 8)` and `d_amps = (values & 0x0FF0) >> 4`. */
  function Pack(t: Target): Packed
  {
    Packed(t.bin + ((t.amp & 0x00FF) << 8), (t.amp & 0x0FF0) >> 4)
  }

  /** The decoder's arithmetic on one (index field, amplitude field) pair. */
  function DecodePair(index: bv16, ampField: bv16): Decoded
  {
    Decoded(index & 0x00FF, ((index & 0xFF00) >> 8) + ((ampField & 0x00FF) << 4))
  }

  /** Field position of the index field of target (channel `c`, rank `r`). */
  function FieldOf(c: nat, r: nat): nat
  {
    2 * (2 * c + r)
  }

  /** Fields `FieldOf(c, r)` and the one after it hold the packed target (c, r). */
  predicate PackedAt(rec: seq<bv16>, ts: seq<seq<Target>>, c: nat, r: nat)
    requires |rec| == 8 && IsFrame(ts) && c < 2 && r < 2
  {
    rec[FieldOf(c, r)] == Pack(ts[c][r]).index && rec[FieldOf(c, r) + 1] == Pack(ts[c][r]).ampField
  }

  /** Entry (c, r) of the decoded frame is the decoded field pair at `FieldOf(c, r)`. */
  predicate DecodedAt(d: DecodedFrame, rec: seq<bv16>, c: nat, r: nat)
    requires |rec| == 8 && IsDecodedFrame(d) && c < 2 && r < 2
  {
    d.bins[c][r] == DecodePair(rec[FieldOf(c, r)], rec[FieldOf(c, r) + 1]).bin &&
    d.amps[c][r] == DecodePair(rec[FieldOf(c, r)], rec[FieldOf(c, r) + 1]).amp
  }

  /**
   * `np.stack` of the packed fields: (index, amplitude) of channel 0 rank 0,
   * channel 0 rank 1, channel 1 rank 0, channel 1 rank 1.
   */
  function PackFrame(ts: seq<seq<Target>>): (rec: seq<bv16>)
    requires IsFrame(ts)
    ensures |rec| == 8
    ensures PackedAt(rec, ts, 0, 0) && PackedAt(rec, ts, 0, 1)
    ensures PackedAt(rec, ts, 1, 0) && PackedAt(rec, ts, 1, 1)
  {
    [Pack(ts[0][0]).index, Pack(ts[0][0]).ampField,
     Pack(ts[0][1]).index, Pack(ts[0][1]).ampField,
     Pack(ts[1][0]).index, Pack(ts[1][0]).ampField,
     Pack(ts[1][1]).index, Pack(ts[1][1]).ampField]
  }

  /**
   * `decode` for one record: bins from the even fields, amplitudes from the
   * odd fields, each reshaped to `[channel][rank]`. A record that does not
   * hold eight fields makes the reshape raise ValueError.
   */
  function Decode(rec: seq<bv16>): (r: Result<DecodedFrame>)
    ensures r.Ok? <==> |rec| == 8
    ensures r.Err? ==> r.error == ValueError
    ensures r.Ok? ==> IsDecodedFrame(r.value)
    ensures r.Ok? ==> DecodedAt(r.value, rec, 0, 0) && DecodedAt(r.value, rec, 0, 1)
    ensures r.Ok? ==> DecodedAt(r.value, rec, 1, 0) && DecodedAt(r.value, rec, 1, 1)
  {
    if |rec| != 8 then Err(ValueError)
    else
      var d := seq(4, k requires 0 <= k < 4 => DecodePair(rec[2 * k], rec[2 * k + 1]));
      Ok(DecodedFrame([[d[0].amp, d[1].amp], [d[2].amp, d[3].amp]],
                      [[d[0].bin, d[1].bin], [d[2].bin, d[3].bin]]))
  }

  /** The packed amplitude field never exceeds one byte; the index field's low byte is the bin when the bin fits a byte. */
  lemma PackedFieldBounds(t: Target)
    ensures Pack(t).ampField <= 0xFF
    ensures t.bin < 256 ==> Pack(t).index & 0x00FF == t.bin
  {
  }

  /** Decoding the packed pair gives the bin's low byte, hence the bin itself when it fits a byte. */
  lemma BinRoundTrip(t: Target)
    ensures DecodePair(Pack(t).index, Pack(t).ampField).bin == t.bin & 0x00FF
    ensures t.bin < 256 ==> DecodePair(Pack(t).index, Pack(t).ampField).bin == t.bin
  {
  }

  /**
   * Decoding the packed pair of a target whose bin fits a byte gives
   * `(a & 0xFF) + (a & 0xFF0)`: bits 4..7 are counted twice, and everything
   * above bit 11 is lost. Equivalently, `(a mod 4096) + (a & 0xF0)`.
   */
  lemma AmpRoundTrip(t: Target)
    requires t.bin < 256
    ensures DecodePair(Pack(t).index, Pack(t).ampField).amp == (t.amp & 0x00FF) + (t.amp & 0x0FF0)
    ensures DecodePair(Pack(t).index, Pack(t).ampField).amp == (t.amp & 0x0FFF) + (t.amp & 0x00F0)
  {
  }

  /** The amplitude survives the round trip exactly iff it is below 4096 and has bits 4..7 clear. */
  lemma AmpExactIff(t: Target)
    requires t.bin < 256
    ensures DecodePair(Pack(t).index, Pack(t).ampField).amp == t.amp <==>
              (t.amp < 4096 && t.amp & 0x00F0 == 0)
  {
  }

  /** Whatever the two fields hold, a decoded bin is at most 255 and a decoded amplitude at most 4335. */
  lemma DecodeBounds(index: bv16, ampField: bv16)
    ensures DecodePair(index, ampField).bin <= 255
    ensures DecodePair(index, ampField).amp <= 4335
  {
  }

  /** Round trip of one entry (c, r) of a whole frame. */
  lemma EntryRoundTrip(ts: seq<seq<Target>>, c: nat, r: nat)
    requires IsFrame(ts) && c < 2 && r < 2 && ts[c][r].bin < 256
    ensures Decode(PackFrame(ts)).Ok?
    ensures Decode(PackFrame(ts)).value.bins[c][r] == ts[c][r].bin
    ensures Decode(PackFrame(ts)).value.amps[c][r] == (ts[c][r].amp & 0x00FF) + (ts[c][r].amp & 0x0FF0)
  {
    var rec := PackFrame(ts);
    PackedAtAny(rec, ts, c, r);
    EntryDecoded(rec, ts[c][r], c, r);
  }

  /** The four packing facts of `PackFrame` give the one for any entry. */
  lemma PackedAtAny(rec: seq<bv16>, ts: seq<seq<Target>>, c: nat, r: nat)
    requires |rec| == 8 && IsFrame(ts) && c < 2 && r < 2
    requires PackedAt(rec, ts, 0, 0) && PackedAt(rec, ts, 0, 1) && PackedAt(rec, ts, 1, 0) && PackedAt(rec, ts, 1, 1)
    ensures rec[FieldOf(c, r)] == Pack(ts[c][r]).index && rec[FieldOf(c, r) + 1] == Pack(ts[c][r]).ampField
  {
    assert PackedAt(rec, ts, c, r) by {
      if c == 0 && r == 0 { } else if c == 0 { } else if r == 0 { } else { }
    }
  }

  /** The entry decoded at (c, r) from a record holding the packed fields of `t` there. */
  lemma EntryDecoded(rec: seq<bv16>, t: Target, c: nat, r: nat)
    requires |rec| == 8 && c < 2 && r < 2 && t.bin < 256
    requires rec[FieldOf(c, r)] == Pack(t).index && rec[FieldOf(c, r) + 1] == Pack(t).ampField
    ensures Decode(rec).Ok?
    ensures Decode(rec).value.bins[c][r] == t.bin
    ensures Decode(rec).value.amps[c][r] == (t.amp & 0x00FF) + (t.amp & 0x0FF0)
  {
    var d := Decode(rec).value;
    assert DecodedAt(d, rec, c, r) by {
      if c == 0 && r == 0 { } else if c == 0 { } else if r == 0 { } else { }
    }
    BinRoundTrip(t);
    AmpRoundTrip(t);
  }

  /** Whole-frame round trip: each target's bin comes back, and its amplitude as in AmpRoundTrip. */
  lemma FrameRoundTrip(ts: seq<seq<Target>>)
    requires IsFrame(ts)
    requires forall c, r :: 0 <= c < 2 && 0 <= r < 2 ==> ts[c][r].bin < 256
    ensures Decode(PackFrame(ts)).Ok?
    ensures forall c, r :: 0 <= c < 2 && 0 <= r < 2 ==>
              Decode(PackFrame(ts)).value.bins[c][r] == ts[c][r].bin &&
              Decode(PackFrame(ts)).value.amps[c][r] == (ts[c][r].amp & 0x00FF) + (ts[c][r].amp & 0x0FF0)
  {
    forall c, r | 0 <= c < 2 && 0 <= r < 2
      ensures Decode(PackFrame(ts)).value.bins[c][r] == ts[c][r].bin
      ensures Decode(PackFrame(ts)).value.amps[c][r] == (ts[c][r].amp & 0x00FF) + (ts[c][r].amp & 0x0FF0)
    {
      EntryRoundTrip(ts, c, r);
    }
  }

  /**
   * The decoded amplitude does not in general keep the original amplitude's
   * low byte: amplitude 0x10 comes back as 0x20.
   */
  lemma LowByteNotKept()
    ensures DecodePair(Pack(Target(3, 0x10)).index, Pack(Target(3, 0x10)).ampField).amp == 0x20
  {
  }

  /**
   * A bin of 256 or more carries into the index field's high byte, which
   * the decoder reads as part of the amplitude.
   */
  lemma WideBinCorruptsAmp()
    ensures DecodePair(Pack(Target(0x100, 0)).index, Pack(Target(0x100, 0)).ampField) == Decoded(0, 1)
  {
  }
}
