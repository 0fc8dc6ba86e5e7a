/**
 * Per-set metrics: training volume, the Epley estimate of the one-repetition
 * maximum, and the trailing moving average used as a trend line.
 */
module Data {
  import opened Wrappers
  import opened Series

  /**
   * One logged set, as the parsed export gives it, with the three derived
   * columns (`Volume`, `Estimated_1RM`, `MuscleGroup`) that the dashboard adds.
   * Numeric cells that did not parse are `None`; so is a missing routine.
   */
  datatype WorkoutSet = WorkoutSet(
    day: int,
    time: string,
    routine: Option<string>,
    exercise: string,
    setNumber: int,
    weight: Option<real>,
    reps: Option<real>,
    duration: Option<real>,
    distance: Option<real>,
    volume: Option<real>,
    oneRepMax: Option<real>,
    group: string)

  /** `Weight * Reps` on two columns: missing when either operand is missing. */
  function Volume(weight: Option<real>, reps: Option<real>): (v: Option<real>)
    ensures v.Some? <==> weight.Some? && reps.Some?
  {
    if weight.Some? && reps.Some? then Some(weight.value * reps.value) else None
  }

  /** `calculate_1rm`: Epley's formula, undefined for a missing operand or zero repetitions. */
  function EstimateOneRepMax(weight: Option<real>, reps: Option<real>): (e: Option<real>)
    ensures e.None? <==> weight.None? || reps.None? || reps.value == 0.0
  {
    if weight.None? || reps.None? || reps.value == 0.0 then None
    else Some(weight.value * (1.0 + reps.value / 30.0))
  }

  /** `calculate_volume`: add the Volume column to every row of the table, in place. */
  method CalculateVolume(table: array<WorkoutSet>)
    modifies table
    ensures forall i :: 0 <= i < table.Length ==>
      table[i] == old(table[i]).(volume := Volume(old(table[i]).weight, old(table[i]).reps))
  {
    forall i | 0 <= i < table.Length {
      table[i] := table[i].(volume := Volume(table[i].weight, table[i].reps));
    }
  }

  /** Where the trailing window of row `i` starts: `periods` rows back, or at the first row. */
  function WindowStart(i: nat, periods: nat): (start: nat)
    requires periods >= 1
    ensures start <= i
    ensures i + 1 - start == periods || (start == 0 && i + 1 < periods)
  {
    if i + 1 >= periods then i + 1 - periods else 0
  }

  /**
   * `calculate_trend`: `rolling(window=periods, min_periods=1).mean()` on a fully
   * present column — row `i` is the mean of rows `WindowStart(i, periods)..i`.
   */
  function Trend(xs: seq<real>, periods: nat): (r: seq<real>)
    requires periods >= 1
    ensures |r| == |xs|
  {
    seq(|xs|, i requires 0 <= i < |xs| => Mean(xs[WindowStart(i, periods)..i + 1]))
  }

  // ----- lemmas -----

  /** The worked examples of the volume explanation: 80 × 12, 100 × 15 and 15 × 10. */
  lemma VolumeExamples()
    ensures Volume(Some(80.0), Some(12.0)) == Some(960.0)
    ensures Volume(Some(100.0), Some(15.0)) == Some(1500.0)
    ensures Volume(Some(15.0), Some(10.0)) == Some(150.0)
  {
  }

  /** 80 kg for 12 repetitions estimates a 112 kg maximum. */
  lemma EpleyExample()
    ensures EstimateOneRepMax(Some(80.0), Some(12.0)) == Some(112.0)
  {
  }

  /** The estimate is never below the weight lifted, for a non-negative weight and a positive count. */
  lemma EpleyAtLeastWeight(w: real, r: real)
    requires w >= 0.0 && r > 0.0
    ensures EstimateOneRepMax(Some(w), Some(r)).value >= w
  {
    assert w * (r / 30.0) >= 0.0;
  }

  /** For a positive weight, more repetitions mean a strictly higher estimate. */
  lemma EpleyIncreasing(w: real, r1: real, r2: real)
    requires w > 0.0 && r1 != 0.0 && r2 != 0.0 && r1 < r2
    ensures EstimateOneRepMax(Some(w), Some(r1)).value < EstimateOneRepMax(Some(w), Some(r2)).value
  {
    assert w * (r2 / 30.0) - w * (r1 / 30.0) == w * ((r2 - r1) / 30.0);
    assert w * ((r2 - r1) / 30.0) > 0.0;
  }

  /**
   * Row `i` of the trend times the size of its window is the sum of the inputs
   * from the window start through row `i`: the difference of two prefix sums.
   */
  lemma TrendPrefixSums(xs: seq<real>, periods: nat, i: nat)
    requires periods >= 1 && i < |xs|
    ensures var start := WindowStart(i, periods);
      Trend(xs, periods)[i] * (i + 1 - start) as real == Sum(xs[..i + 1]) - Sum(xs[..start])
  {
    var start := WindowStart(i, periods);
    var w := xs[start..i + 1];
    assert xs[..i + 1] == xs[..start] + w;
    SumConcat(xs[..start], w);
    assert Trend(xs, periods)[i] == Sum(w) / |w| as real;
  }

  /** The first trend value is the first input. */
  lemma TrendFirst(xs: seq<real>, periods: nat)
    requires periods >= 1 && |xs| > 0
    ensures Trend(xs, periods)[0] == xs[0]
  {
    var w := xs[WindowStart(0, periods)..1];
    assert w == [xs[0]];
    assert w[..0] == [];
    assert Sum(w) == Sum(w[..0]) + w[0] == xs[0];
  }

  /** Every trend value lies between the least and the greatest value of its window. */
  lemma TrendBounds(xs: seq<real>, periods: nat, i: nat, lo: real, hi: real)
    requires periods >= 1 && i < |xs|
    requires forall j :: WindowStart(i, periods) <= j <= i ==> lo <= xs[j] <= hi
    ensures lo <= Trend(xs, periods)[i] <= hi
  {
    var w := xs[WindowStart(i, periods)..i + 1];
    assert forall j :: 0 <= j < |w| ==> w[j] == xs[WindowStart(i, periods) + j];
    MeanBounds(w, lo, hi);
  }

  /** A constant series has the same constant trend. */
  lemma TrendConstant(xs: seq<real>, periods: nat, c: real)
    requires periods >= 1
    requires forall j :: 0 <= j < |xs| ==> xs[j] == c
    ensures forall i :: 0 <= i < |xs| ==> Trend(xs, periods)[i] == c
  {
    forall i | 0 <= i < |xs|
      ensures Trend(xs, periods)[i] == c
    {
      TrendBounds(xs, periods, i, c, c);
    }
  }
}
