/**
 * The label-fixing tool `labeling/labeling_app.py`: a `LabelFixer` keeps
 * the loaded reference labels, the kicks found in them, one `(left,
 * right)` shift per kick and the slider values, and repaints the labels
 * from the shifted kicks whenever they change.
 */
module Labeling {
  import opened PyOps
  import opened LabelRuns

  /** `np.clip(x, lo, hi)` for `lo <= hi`. */
  function Clip(x: int, lo: int, hi: int): (r: int)
    requires lo <= hi
    ensures lo <= r <= hi
    ensures lo <= x <= hi ==> r == x
  {
    if x < lo then lo else if x > hi then hi else x
  }

  /**
   * Kick `k`, shifted by its config and clipped to the `n` frames, covers
   * frame `f`.
   */
  predicate CoveredBy(stacks: seq<(int, int)>, configs: seq<(int, int)>, n: nat, k: int, f: int)
    requires |configs| == |stacks|
  {
    0 <= k < |stacks| &&
    Clip(stacks[k].0 + configs[k].0, 0, n) <= f < Clip(stacks[k].1 + configs[k].1, 0, n)
  }

  /** One of the first `m` kicks covers frame `f`. */
  predicate PaintedBefore(stacks: seq<(int, int)>, configs: seq<(int, int)>, n: nat, m: int, f: int)
    requires |configs| == |stacks|
  {
    exists k :: 0 <= k < m && CoveredBy(stacks, configs, n, k, f)
  }

  /** The labels the shifted kicks paint: 1 where some kick covers the frame, 0 elsewhere. */
  function Painting(stacks: seq<(int, int)>, configs: seq<(int, int)>, n: nat): seq<int>
    requires |configs| == |stacks|
  {
    seq(n, f requires 0 <= f < n => if PaintedBefore(stacks, configs, n, |stacks|, f) then 1 else 0)
  }

  /** Adding kick `m` to the painted frames adds exactly the frames it covers. */
  lemma PaintedStep(stacks: seq<(int, int)>, configs: seq<(int, int)>, n: nat, m: int, f: int)
    requires |configs| == |stacks| && 0 <= m < |stacks|
    ensures PaintedBefore(stacks, configs, n, m + 1, f) <==>
            PaintedBefore(stacks, configs, n, m, f) || CoveredBy(stacks, configs, n, m, f)
  {
    if PaintedBefore(stacks, configs, n, m + 1, f) {
      var k :| 0 <= k < m + 1 && CoveredBy(stacks, configs, n, k, f);
      if k < m {
        assert PaintedBefore(stacks, configs, n, m, f);
      }
    }
  }

  /**
   * With every shift zero, as `get_data` initialises them, painting the
   * kicks that `get_stacks` finds in 0/1 labels gives back those labels.
   */
  lemma ZeroShiftsReproduceLabels(data: seq<int>)
    requires Binary(data)
    ensures GetStacks(data).Ok?
    ensures var st := GetStacks(data).value;
            Painting(st, seq(|st|, _ => (0, 0)), |data|) == data
  {
    GetStacksOfBinary(data);
    RunsOfCorrect(data, 1);
    var st := GetStacks(data).value;
    PaintRuns(data, RunsOf(data, 1), st, seq(|st|, _ => (0, 0)));
  }

  /** Painting the unshifted stacks of the runs of ones of 0/1 labels gives the labels. */
  lemma PaintRuns(data: seq<int>, r: seq<Span>, st: seq<(int, int)>, zeros: seq<(int, int)>)
    requires Binary(data) && IsRuns(data, 1, r)
    requires |st| == |r| && forall k :: 0 <= k < |st| ==> st[k] == Stack(r[k])
    requires |zeros| == |st| && forall k :: 0 <= k < |zeros| ==> zeros[k] == (0, 0)
    ensures Painting(st, zeros, |data|) == data
  {
    forall f | 0 <= f < |data|
      ensures Painting(st, zeros, |data|)[f] == data[f]
    {
      PaintRunsAt(data, r, st, zeros, f);
    }
  }

  lemma PaintRunsAt(data: seq<int>, r: seq<Span>, st: seq<(int, int)>, zeros: seq<(int, int)>, f: int)
    requires Binary(data) && IsRuns(data, 1, r)
    requires |st| == |r| && forall k :: 0 <= k < |st| ==> st[k] == Stack(r[k])
    requires |zeros| == |st| && forall k :: 0 <= k < |zeros| ==> zeros[k] == (0, 0)
    requires 0 <= f < |data|
    ensures PaintedBefore(st, zeros, |data|, |st|, f) <==> data[f] == 1
  {
    var n := |data|;
    if data[f] == 1 {
      assert Covered(r, f);
      var j :| 0 <= j < |r| && r[j].start <= f <= r[j].stop;
      assert CoveredBy(st, zeros, n, j, f);
    }
    if PaintedBefore(st, zeros, n, |st|, f) {
      var k :| 0 <= k < |st| && CoveredBy(st, zeros, n, k, f);
      assert r[k].start <= f <= r[k].stop;
    }
  }

  class LabelFixer {
    /** `data`: the reference labels as loaded. */
    var data: seq<int>
    /** `kick_stacks`: `(start, end)` of each kick, `end` exclusive. */
    var kickStacks: seq<(int, int)>
    /** `stack_configs`: the `(left, right)` shift of each kick. */
    var stackConfigs: seq<(int, int)>
    /** `current_stack`: the kick the sliders edit. */
    var currentStack: int
    /** `modify_all`: whether the sliders edit every kick at once. */
    var modifyAll: bool
    /** The left and right shift sliders' values. */
    var left: int
    var right: int
    /** `kick_labels`: the repainted labels. */
    var kickLabels: seq<int>

    /** One shift per kick. */
    predicate Valid()
      reads this
    {
      |stackConfigs| == |kickStacks|
    }

    /** The state `__init__` sets up before it loads the first folder. */
    constructor ()
      ensures Valid()
      ensures data == [0] && kickStacks == [] && stackConfigs == [] && kickLabels == []
      ensures currentStack == 0 && !modifyAll && left == 0 && right == 0
    {
      data := [0];
      kickStacks := [];
      stackConfigs := [];
      currentStack := 0;
      modifyAll := false;
      left := 0;
      right := 0;
      kickLabels := [];
    }

    /**
     * `shift_kick_labels`: a zero array as long as `data`, with the frames
     * of every shifted and clipped kick set to 1.
     */
    method ShiftKickLabels() returns (res: seq<int>)
      requires Valid()
      ensures |res| == |data|
      ensures forall f :: 0 <= f < |data| ==>
                (res[f] == 1 <==> exists k :: 0 <= k < |kickStacks| && CoveredBy(kickStacks, stackConfigs, |data|, k, f)) &&
                (res[f] == 0 || res[f] == 1)
      ensures res == Painting(kickStacks, stackConfigs, |data|)
    {
      var n := |data|;
      var a := new int[n](_ => 0);
      for i := 0 to |kickStacks|
        invariant forall g :: 0 <= g < n ==> a[g] == (if PaintedBefore(kickStacks, stackConfigs, n, i, g) then 1 else 0)
      {
        var start := Clip(kickStacks[i].0 + stackConfigs[i].0, 0, n);
        var end := Clip(kickStacks[i].1 + stackConfigs[i].1, 0, n);
        var f := start;
        while f < end
          invariant start <= f <= n && (f <= end || f == start)
          invariant forall g :: 0 <= g < n ==>
                      a[g] == (if PaintedBefore(kickStacks, stackConfigs, n, i, g) || start <= g < f then 1 else 0)
        {
          a[f] := 1;
          f := f + 1;
        }
        forall g | 0 <= g < n
          ensures a[g] == (if PaintedBefore(kickStacks, stackConfigs, n, i + 1, g) then 1 else 0)
        {
          PaintedStep(kickStacks, stackConfigs, n, i, g);
        }
      }
      res := a[..];
    }

    /**
     * `get_data` after `np.load`: keeps the loaded labels, finds their kicks
     * and gives every kick a zero shift. When `np.stack` refuses start and
     * end lists of different lengths, the kicks and shifts stay as they were.
     */
    method LoadData(loaded: seq<int>) returns (err: Option<PyError>)
      requires Valid()
      modifies this
      ensures Valid()
      ensures data == loaded
      ensures err.Some? <==> GetStacks(loaded).Err?
      ensures err.Some? ==> err.value == ValueError && kickStacks == old(kickStacks) && stackConfigs == old(stackConfigs)
      ensures err.None? ==> kickStacks == GetStacks(loaded).value && stackConfigs == seq(|kickStacks|, _ => (0, 0))
      ensures currentStack == old(currentStack) && modifyAll == old(modifyAll)
      ensures left == old(left) && right == old(right) && kickLabels == old(kickLabels)
    {
      data := loaded;
      match GetStacks(loaded)
      case Err(e) =>
        err := Some(e);
      case Ok(st) =>
        kickStacks := st;
        stackConfigs := seq(|st|, _ => (0, 0));
        err := None;
    }

    /**
     * The stack-config write of `update`: the slider values go into every
     * shift in modify-all mode and into the current kick's shift otherwise;
     * then the labels are repainted. Outside modify-all mode the current
     * kick is a Python index into the shifts: a negative one counts from the
     * end, and one out of range raises IndexError before anything changes.
     */
    method Update() returns (err: Option<PyError>)
      requires Valid()
      modifies this
      ensures data == old(data) && kickStacks == old(kickStacks) && currentStack == old(currentStack)
      ensures modifyAll == old(modifyAll) && left == old(left) && right == old(right)
      ensures Valid() && |stackConfigs| == |old(stackConfigs)|
      ensures err.Some? <==> !modifyAll && Index(currentStack, |stackConfigs|).Err?
      ensures err.Some? ==> err.value == IndexError && stackConfigs == old(stackConfigs) && kickLabels == old(kickLabels)
      ensures modifyAll ==> forall j :: 0 <= j < |stackConfigs| ==> stackConfigs[j] == (left, right)
      ensures !modifyAll && err.None? ==>
                stackConfigs == old(stackConfigs)[Index(currentStack, |stackConfigs|).value := (left, right)]
      ensures err.None? ==> kickLabels == Painting(kickStacks, stackConfigs, |data|)
    {
      if modifyAll {
        var cfgs := stackConfigs;
        for i := 0 to |cfgs|
          invariant |cfgs| == |stackConfigs|
          invariant forall j :: 0 <= j < i ==> cfgs[j] == (left, right)
          invariant forall j :: i <= j < |cfgs| ==> cfgs[j] == stackConfigs[j]
        {
          cfgs := cfgs[i := (left, right)];
        }
        stackConfigs := cfgs;
      } else {
        match Index(currentStack, |stackConfigs|)
        case Err(e) =>
          return Some(e);
        case Ok(j) =>
          stackConfigs := stackConfigs[j := (left, right)];
      }
      kickLabels := ShiftKickLabels();
      err := None;
    }

    /**
     * `delete_kick`: nothing in modify-all mode; otherwise the sliders go
     * to zero, the current kick's end is set to its start, and after the
     * repaint that kick covers no frame while every other kick keeps its
     * place and shift. A current kick out of range raises IndexError once
     * the sliders are already at zero.
     */
    method DeleteKick() returns (err: Option<PyError>)
      requires Valid()
      modifies this
      ensures data == old(data) && currentStack == old(currentStack) && modifyAll == old(modifyAll)
      ensures Valid()
      ensures err.Some? <==> !modifyAll && Index(currentStack, |old(kickStacks)|).Err?
      ensures modifyAll ==>
                kickStacks == old(kickStacks) && stackConfigs == old(stackConfigs) &&
                kickLabels == old(kickLabels) && left == old(left) && right == old(right)
      ensures err.Some? ==>
                err.value == IndexError && left == 0 && right == 0 &&
                kickStacks == old(kickStacks) && stackConfigs == old(stackConfigs) && kickLabels == old(kickLabels)
      ensures !modifyAll && err.None? ==>
                var j := Index(currentStack, |old(kickStacks)|).value;
                left == 0 && right == 0 &&
                kickStacks == old(kickStacks)[j := (old(kickStacks)[j].0, old(kickStacks)[j].0)] &&
                stackConfigs == old(stackConfigs)[j := (0, 0)] &&
                kickLabels == Painting(kickStacks, stackConfigs, |data|) &&
                forall f :: !CoveredBy(kickStacks, stackConfigs, |data|, j, f)
    {
      if modifyAll {
        return None;
      }
      left := 0;
      right := 0;
      match Index(currentStack, |kickStacks|)
      case Err(e) =>
        return Some(e);
      case Ok(j) =>
        kickStacks := kickStacks[j := (kickStacks[j].0, kickStacks[j].0)];
        err := Update();
    }

    /**
     * `change_kick`: select kick `k` and move the sliders to its shift.
     * Outside modify-all mode the repaint writes that same shift back, so
     * selecting a kick changes no shift. `k` is a Python index into the
     * shifts: a negative one counts from the end, and one out of range
     * raises IndexError after the selection and before the sliders move.
     */
    method ChangeKick(k: int) returns (err: Option<PyError>)
      requires Valid()
      modifies this
      ensures data == old(data) && kickStacks == old(kickStacks) && modifyAll == old(modifyAll)
      ensures Valid() && |stackConfigs| == |old(stackConfigs)| && currentStack == k
      ensures err.Some? <==> Index(k, |stackConfigs|).Err?
      ensures err.Some? ==>
                err.value == IndexError && left == old(left) && right == old(right) &&
                stackConfigs == old(stackConfigs) && kickLabels == old(kickLabels)
      ensures err.None? ==>
                var j := Index(k, |stackConfigs|).value;
                left == old(stackConfigs)[j].0 && right == old(stackConfigs)[j].1 &&
                (!modifyAll ==> stackConfigs == old(stackConfigs)) &&
                (modifyAll ==> forall i :: 0 <= i < |stackConfigs| ==> stackConfigs[i] == old(stackConfigs)[j]) &&
                kickLabels == Painting(kickStacks, stackConfigs, |data|)
    {
      currentStack := k;
      match Index(k, |stackConfigs|)
      case Err(e) =>
        return Some(e);
      case Ok(j) =>
        left := stackConfigs[j].0;
        right := stackConfigs[j].1;
        err := Update();
        if !modifyAll {
          assert stackConfigs == old(stackConfigs);
        }
    }
  }
}
