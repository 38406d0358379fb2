/**
 * The training side's sliding windows: over a scaled closing-price series,
 * every offset i with i + lookBack < |series| gives one training sample,
 * the lookBack values from i as input and the value right after them as
 * the target.
 */
module TrainingWindows {

  /** One training sample: a window of consecutive values and the next value. */
  datatype Sample<T> = Sample(window: seq<T>, target: T)

  /** The number of offsets that leave room for a whole window and its target. */
  function SampleCount(len: nat, lookBack: nat): nat
  {
    if len > lookBack then len - lookBack else 0
  }

  /** The samples of `series`, in ascending offset order. */
  function Samples<T>(series: seq<T>, lookBack: nat): seq<Sample<T>>
  {
    seq(SampleCount(|series|, lookBack), i requires 0 <= i < SampleCount(|series|, lookBack) =>
      Sample(series[i..i + lookBack], series[i + lookBack]))
  }

  /**
   * Builds the inputs and targets one offset at a time, appending window i
   * to `xs` and its next value to `ys`; pair i of the two lists is sample i.
   */
  method PrepareData<T>(scaled: seq<T>, lookBack: nat) returns (xs: seq<seq<T>>, ys: seq<T>)
    ensures |xs| == |ys| == |Samples(scaled, lookBack)|
    ensures |xs| == SampleCount(|scaled|, lookBack)
    ensures forall i :: 0 <= i < |xs| ==> Sample(xs[i], ys[i]) == Samples(scaled, lookBack)[i]
    ensures forall i :: 0 <= i < |xs| ==>
      |xs[i]| == lookBack && i + lookBack < |scaled| && xs[i] == scaled[i..i + lookBack] && ys[i] == scaled[i + lookBack]
  {
    xs, ys := [], [];
    var n := if |scaled| > lookBack then |scaled| - lookBack else 0;
    for i := 0 to n
      invariant |xs| == |ys| == i
      invariant forall k :: 0 <= k < i ==> xs[k] == scaled[k..k + lookBack] && ys[k] == scaled[k + lookBack]
    {
      xs := xs + [scaled[i..i + lookBack]];
      ys := ys + [scaled[i + lookBack]];
    }
  }

  /** Every index a sample uses is in bounds, and each window has exactly
      lookBack values. The slice and target clauses only unfold the
      definition of Samples, for callers' convenience. */
  lemma SampleAt<T>(series: seq<T>, lookBack: nat, i: nat)
    requires i < |Samples(series, lookBack)|
    ensures i + lookBack < |series|
    ensures |Samples(series, lookBack)[i].window| == lookBack
    ensures Samples(series, lookBack)[i].window == series[i..i + lookBack]
    ensures Samples(series, lookBack)[i].target == series[i + lookBack]
  {
  }

  /** A series no longer than the look-back yields no sample at all, and a
      longer one yields one sample per offset past the look-back. */
  lemma SamplesEmptyIffShort<T>(series: seq<T>, lookBack: nat)
    ensures Samples(series, lookBack) == [] <==> |series| <= lookBack
    ensures |Samples(series, lookBack)| + lookBack == |series| || |series| <= lookBack
  {
  }

  /** Consecutive windows overlap: window i + 1 is window i without its first
      value, followed by target i (for a look-back of zero every window is empty). */
  lemma ConsecutiveWindowsOverlap<T>(series: seq<T>, lookBack: nat, i: nat)
    requires lookBack > 0
    requires i + 1 < |Samples(series, lookBack)|
    ensures Samples(series, lookBack)[i + 1].window ==
      Samples(series, lookBack)[i].window[1..] + [Samples(series, lookBack)[i].target]
  {
  }

  /** The targets of a list of samples, in order. */
  function Targets<T>(samples: seq<Sample<T>>): seq<T>
  {
    seq(|samples|, i requires 0 <= i < |samples| => samples[i].target)
  }

  /** The series a non-empty list of samples came from: the first window followed by all targets. */
  function Reassemble<T>(samples: seq<Sample<T>>): seq<T>
    requires samples != []
  {
    samples[0].window + Targets(samples)
  }

  /** No value of the series is lost: the first window and the targets give
      the series back. */
  lemma ReassembleSamples<T>(series: seq<T>, lookBack: nat)
    requires |series| > lookBack
    ensures Reassemble(Samples(series, lookBack)) == series
  {
  }

  /** Applies an element-wise transformation, such as a fitted scaler, to a series. */
  function MapSeries<T, U>(f: T -> U, series: seq<T>): seq<U>
  {
    seq(|series|, i requires 0 <= i < |series| => f(series[i]))
  }

  /** Applies an element-wise transformation to every value of a sample. */
  function MapSample<T, U>(f: T -> U, sample: Sample<T>): Sample<U>
  {
    Sample(MapSeries(f, sample.window), f(sample.target))
  }

  /** Windowing commutes with any element-wise transformation: the samples of
      a scaled series are the scaled samples of the original series. */
  lemma SamplesCommuteWithScaling<T, U>(f: T -> U, series: seq<T>, lookBack: nat)
    ensures |Samples(MapSeries(f, series), lookBack)| == |Samples(series, lookBack)|
    ensures forall i :: 0 <= i < |Samples(series, lookBack)| ==>
      Samples(MapSeries(f, series), lookBack)[i] == MapSample(f, Samples(series, lookBack)[i])
  {
  }

  /** A closing-price series 1..5 with look-back 2 gives the samples
      [1, 2] -> 3, [2, 3] -> 4 and [3, 4] -> 5. */
  lemma FiveClosesLookBackTwo()
    ensures Samples([1, 2, 3, 4, 5], 2) == [Sample([1, 2], 3), Sample([2, 3], 4), Sample([3, 4], 5)]
  {
    var s := Samples([1, 2, 3, 4, 5], 2);
    assert s[0].window == [1, 2];
    assert s[1].window == [2, 3];
    assert s[2].window == [3, 4];
  }
}
