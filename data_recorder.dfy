/**
 * The recorder script `ifxdaq/data_recorder.py`: the packing of a whole
 * recording into 8-field records (one per frame, the same arithmetic as
 * `TargetCodec.PackFrame`) and `to_json`, which turns a reference label
 * array into the list of `{"kick": v}` entries written to `kick.json`.
 */
module DataRecorder {
  import opened TargetCodec

  /** `np.stack(..., axis=-1)` over all frames: row `f` is frame `f`'s record. */
  function PackRecording(frames: seq<seq<seq<Target>>>): (rows: seq<seq<bv16>>)
    requires forall f :: 0 <= f < |frames| ==> IsFrame(frames[f])
    ensures |rows| == |frames|
    ensures forall f :: 0 <= f < |rows| ==> |rows[f]| == 8
  {
    seq(|frames|, f requires 0 <= f < |frames| => PackFrame(frames[f]))
  }

  /**
   * Every frame of a packed recording decodes back to its bins (when they
   * fit a byte) and to the lossy amplitude `(a & 0xFF) + (a & 0xFF0)`.
   */
  lemma RecordingRoundTrip(frames: seq<seq<seq<Target>>>, f: nat, c: nat, r: nat)
    requires forall g :: 0 <= g < |frames| ==> IsFrame(frames[g])
    requires f < |frames| && IsFrame(frames[f]) && c < 2 && r < 2 && frames[f][c][r].bin < 256
    ensures Decode(PackRecording(frames)[f]).Ok?
    ensures Decode(PackRecording(frames)[f]).value.bins[c][r] == frames[f][c][r].bin
    ensures Decode(PackRecording(frames)[f]).value.amps[c][r] ==
              (frames[f][c][r].amp & 0x00FF) + (frames[f][c][r].amp & 0x0FF0)
  {
    assert PackRecording(frames)[f] == PackFrame(frames[f]);
    EntryRoundTrip(frames[f], c, r);
  }

  /** One `{"kick": v}` dictionary. */
  datatype KickEntry = KickEntry(kick: int)

  /** The label values a list of entries holds, in order. */
  function Kicks(entries: seq<KickEntry>): (ks: seq<int>)
    ensures |ks| == |entries|
    decreases |entries|
  {
    if |entries| == 0 then [] else Kicks(entries[..|entries| - 1]) + [entries[|entries| - 1].kick]
  }

  /**
   * `to_json`: one entry per label value, appended in a loop. Reading the
   * entries' values back gives the label array itself.
   */
  method ToJson(labels: seq<int>) returns (res: seq<KickEntry>)
    ensures |res| == |labels|
    ensures Kicks(res) == labels
  {
    res := [];
    for i := 0 to |labels|
      invariant |res| == i
      invariant Kicks(res) == labels[..i]
    {
      assert (res + [KickEntry(labels[i])])[..i] == res;
      assert labels[..i + 1] == labels[..i] + [labels[i]];
      res := res + [KickEntry(labels[i])];
    }
    assert labels[..|labels|] == labels;
  }

  /** Entry `i` holds label `i`: `Kicks` read back position by position. */
  lemma {:induction false} KicksAt(entries: seq<KickEntry>, i: nat)
    requires i < |entries|
    ensures Kicks(entries)[i] == entries[i].kick
    decreases |entries|
  {
    if i < |entries| - 1 {
      KicksAt(entries[..|entries| - 1], i);
    }
  }
}
