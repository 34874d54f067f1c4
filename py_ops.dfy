/**
 * Python and NumPy semantics that the rest of the model relies on:
 * the normalisation of slice bounds (negative offsets count from the end,
 * out-of-range bounds are clipped), Python's `round` (half to even),
 * `min`/`max` of a sequence (which raise ValueError when it is empty),
 * sums, means and counts.
 */
module PyOps {

  /** The exceptions the modelled code can raise. */
  datatype PyError = ValueError | IndexError | TypeError | AttributeError

  /** A value or the exception that replaced it. */
  datatype Result<T> = Ok(value: T) | Err(error: PyError)

  datatype Option<T> = None | Some(value: T)

  /** A Python argument that should be an `np.ndarray`: its shape, or something else. */
  datatype Arg = NdArray(shape: seq<int>) | NotAnArray

  /** Python's normalisation of one slice bound `i` for a sequence of length `n`. */
  function SliceBound(i: int, n: nat): (r: nat)
    ensures r <= n
  {
    if i < 0 then (if n + i < 0 then 0 else n + i)
    else if i > n then n
    else i
  }

  /** Negative bounds count from the end, and out-of-range bounds are clipped to the sequence. */
  lemma SliceBoundCases(i: int, n: nat)
    ensures 0 <= i <= n ==> SliceBound(i, n) == i
    ensures -(n as int) <= i < 0 ==> SliceBound(i, n) == n + i
    ensures i < -(n as int) ==> SliceBound(i, n) == 0
    ensures n < i ==> SliceBound(i, n) == n
  {
  }

  /** `s[i:j]` with Python's rules for negative and out-of-range bounds. */
  function Slice<T>(s: seq<T>, i: int, j: int): (r: seq<T>)
    ensures |r| <= |s|
  {
    var a, b := SliceBound(i, |s|), SliceBound(j, |s|);
    if a < b then s[a..b] else []
  }

  /** The slice is the run of elements between the two normalised bounds, or empty when they cross. */
  lemma SliceIs<T>(s: seq<T>, i: int, j: int)
    ensures SliceBound(i, |s|) < SliceBound(j, |s|) ==>
              Slice(s, i, j) == s[SliceBound(i, |s|)..SliceBound(j, |s|)]
    ensures SliceBound(j, |s|) <= SliceBound(i, |s|) ==> Slice(s, i, j) == []
  {
  }

  /** Python's element access `s[k]`, where a negative `k` counts from the end. */
  function At<T>(s: seq<T>, k: int): T
    requires -|s| <= k < |s|
  {
    if k < 0 then s[|s| + k] else s[k]
  }

  /**
   * The position Python's `s[k]` addresses in a sequence of length `n`:
   * `k` itself, or `n + k` for a negative `k`; IndexError outside
   * `-n <= k < n`.
   */
  function Index(k: int, n: nat): (r: Result<nat>)
    ensures r.Ok? <==> -(n as int) <= k < n
    ensures r.Err? ==> r.error == IndexError
    ensures r.Ok? ==> r.value < n && (r.value == k || r.value == n + k)
  {
    if k < -(n as int) || k >= n then Err(IndexError)
    else if k < 0 then Ok(n + k)
    else Ok(k)
  }

  /** The position `Index` finds holds the element `s[k]` reads. */
  lemma IndexIsAt<T>(s: seq<T>, k: int)
    requires Index(k, |s|).Ok?
    ensures s[Index(k, |s|).value] == At(s, k)
  {
  }

  /**
   * Python's built-in `round` on a number: the nearest integer, and the even
   * one of the two when `x` lies exactly half-way between them.
   */
  function RoundHalfEven(x: real): (r: int)
    ensures x - 1.0 / 2.0 <= r as real <= x + 1.0 / 2.0
    ensures (r as real - x == 1.0 / 2.0 || x - r as real == 1.0 / 2.0) ==> r % 2 == 0
  {
    var f := x.Floor;
    var d := x - f as real;
    if d < 1.0 / 2.0 then f
    else if d > 1.0 / 2.0 then f + 1
    else if f % 2 == 0 then f
    else f + 1
  }

  /** `round` is monotone: a larger argument never rounds to a smaller integer. */
  lemma RoundMonotone(x: real, y: real)
    requires x <= y
    ensures RoundHalfEven(x) <= RoundHalfEven(y)
  {
  }

  /** `round` of an integer is that integer. */
  lemma RoundOfInteger(k: int)
    ensures RoundHalfEven(k as real) == k
  {
  }

  /** The smallest element of a non-empty sequence. */
  function SeqMin(s: seq<real>): real
    requires |s| > 0
  {
    if |s| == 1 then s[0]
    else
      var rest := SeqMin(s[1..]);
      if s[0] <= rest then s[0] else rest
  }

  /** The largest element of a non-empty sequence. */
  function SeqMax(s: seq<real>): real
    requires |s| > 0
  {
    if |s| == 1 then s[0]
    else
      var rest := SeqMax(s[1..]);
      if s[0] >= rest then s[0] else rest
  }

  /** `SeqMin` is an element of the sequence and no element is smaller. */
  lemma {:induction false} SeqMinIsLeast(s: seq<real>)
    requires |s| > 0
    ensures SeqMin(s) in s
    ensures forall k :: 0 <= k < |s| ==> SeqMin(s) <= s[k]
  {
    if |s| > 1 {
      SeqMinIsLeast(s[1..]);
      assert forall k :: 1 <= k < |s| ==> s[k] == s[1..][k - 1];
    }
  }

  /** `SeqMax` is an element of the sequence and no element is larger. */
  lemma {:induction false} SeqMaxIsGreatest(s: seq<real>)
    requires |s| > 0
    ensures SeqMax(s) in s
    ensures forall k :: 0 <= k < |s| ==> s[k] <= SeqMax(s)
  {
    if |s| > 1 {
      SeqMaxIsGreatest(s[1..]);
      assert forall k :: 1 <= k < |s| ==> s[k] == s[1..][k - 1];
    }
  }

  /** `min(s)` / `s.min()`: ValueError on an empty sequence. */
  function PyMin(s: seq<real>): (r: Result<real>)
    ensures r.Err? <==> |s| == 0
    ensures r.Err? ==> r.error == ValueError
  {
    if |s| == 0 then Err(ValueError) else Ok(SeqMin(s))
  }

  /** `max(s)` / `s.max()`: ValueError on an empty sequence. */
  function PyMax(s: seq<real>): (r: Result<real>)
    ensures r.Err? <==> |s| == 0
    ensures r.Err? ==> r.error == ValueError
  {
    if |s| == 0 then Err(ValueError) else Ok(SeqMax(s))
  }

  /** `min` is below a bound exactly when some element is. */
  lemma PyMinBelow(s: seq<real>, bound: real)
    requires |s| > 0
    ensures PyMin(s).value < bound <==> exists k :: 0 <= k < |s| && s[k] < bound
  {
    SeqMinIsLeast(s);
  }

  /** `max` is above a bound exactly when some element is. */
  lemma PyMaxAbove(s: seq<real>, bound: real)
    requires |s| > 0
    ensures PyMax(s).value > bound <==> exists k :: 0 <= k < |s| && s[k] > bound
  {
    SeqMaxIsGreatest(s);
  }

  /** `np.abs` of a number. */
  function Abs(x: real): (r: real)
    ensures r >= 0.0 && (r == x || r == -x)
  {
    if x < 0.0 then -x else x
  }

  function Sum(s: seq<real>): real
  {
    if |s| == 0 then 0.0 else s[0] + Sum(s[1..])
  }

  function IntSum(s: seq<int>): int
  {
    if |s| == 0 then 0 else s[0] + IntSum(s[1..])
  }

  /** `np.mean` of a non-empty sequence. */
  function Mean(s: seq<real>): real
    requires |s| > 0
  {
    Sum(s) / |s| as real
  }

  /** Number of non-zero entries, as `np.sum(s != 0)`. */
  function CountNonZero(s: seq<real>): (c: nat)
    ensures c <= |s|
  {
    if |s| == 0 then 0 else (if s[0] != 0.0 then 1 else 0) + CountNonZero(s[1..])
  }

  /** Sum of a sequence of zeros is zero. */
  lemma {:induction false} SumOfZeros(s: seq<real>)
    requires forall k :: 0 <= k < |s| ==> s[k] == 0.0
    ensures Sum(s) == 0.0
  {
    if |s| > 0 {
      SumOfZeros(s[1..]);
    }
  }

  lemma {:induction false} SumAppend(s: seq<real>, t: seq<real>)
    ensures Sum(s + t) == Sum(s) + Sum(t)
  {
    if |s| == 0 {
      assert s + t == t;
    } else {
      assert (s + t)[1..] == s[1..] + t;
      SumAppend(s[1..], t);
    }
  }

  lemma {:induction false} IntSumAppend(s: seq<int>, t: seq<int>)
    ensures IntSum(s + t) == IntSum(s) + IntSum(t)
  {
    if |s| == 0 {
      assert s + t == t;
    } else {
      assert (s + t)[1..] == s[1..] + t;
      IntSumAppend(s[1..], t);
    }
  }
}
