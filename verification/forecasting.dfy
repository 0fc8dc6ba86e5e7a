/**
 * The strength forecast and the plateau test over a series of estimated
 * one-repetition maxima keyed by day.
 *
 * The ARIMA model is a foreign library: its outcome is an input, either the
 * forecast and interval it produced or a failure. The square root under
 * `np.std` is an input too, `sqrt`, since exact reals have none to compute.
 */
module Forecasting {
  import opened Wrappers
  import opened Collections
  import opened Series

  /** What the ARIMA attempt produced: point forecasts with lower and upper bounds, or an exception. */
  datatype ArimaOutcome = Fitted(forecast: seq<real>, lower: seq<real>, upper: seq<real>) | Failed

  /** One row of the forecast table: a week's Sunday, the forecast and its band. */
  datatype ForecastRow = ForecastRow(day: int, forecast: real, lower: real, upper: real)

  function Abs(x: real): real { if x < 0.0 then -x else x }

  function Max(x: int, y: int): int { if x >= y then x else y }

  /** `s.resample('W').max().dropna()`: the weekly maxima of the weeks that hold a value, keyed by week. */
  function WeeklyMax(s: seq<Point>): seq<Point> {
    DropMissing(ResampleWeekly(s, MaxOf))
  }

  /** The Sundays of the `periods` weeks after week `last`: `pd.date_range(last + 1 week, periods, freq='W')`. */
  function FutureWeek(last: int, k: nat): int {
    WeekEndDay(last + 1 + k)
  }

  /** The fallback: extend the least-squares line of the weekly maxima, with a band of one standard deviation. */
  function LinearFallback(ys: seq<real>, last: int, periods: nat, sqrt: real -> real): (rows: seq<ForecastRow>)
    requires |ys| >= 2
    ensures |rows| == periods
  {
    var (a, b) := LeastSquares(ys);
    var sd := sqrt(PopulationVariance(ys));
    seq(periods, k requires 0 <= k < periods => FallbackRow(a, b, sd, |ys|, last, k))
  }

  /** Fallback row `k`: the line `a*x + b` at x = n + k, with a band of `sd` either side. */
  function FallbackRow(a: real, b: real, sd: real, n: nat, last: int, k: nat): ForecastRow {
    var f := a * (n + k) as real + b;
    ForecastRow(FutureWeek(last, k), f, f - sd, f + sd)
  }

  /** The ARIMA rows: its forecasts and bounds, dated on the weeks after week `last`. */
  function ArimaRows(fc: seq<real>, lo: seq<real>, up: seq<real>, last: int, periods: nat): (rows: seq<ForecastRow>)
    requires |fc| == periods && |lo| == periods && |up| == periods
    ensures |rows| == periods
  {
    seq(periods, k requires 0 <= k < periods => ForecastRow(FutureWeek(last, k), fc[k], lo[k], up[k]))
  }

  /**
   * `forecast_1rm_series`: `None` when fewer than five values are present or
   * fewer than five weeks hold one; otherwise `periods` weekly rows from ARIMA,
   * or from the linear fallback when ARIMA fails or its output does not have
   * `periods` entries (building the table then raises inside the `try`).
   */
  function Forecast1RM(series: seq<Point>, periods: nat, arima: ArimaOutcome, sqrt: real -> real): Option<seq<ForecastRow>> {
    var s := DropMissing(series);
    ForecastOf(|s|, WeeklyMax(s), periods, arima, sqrt)
  }

  /** The gates and the two branches, given the number `n` of present values and the weekly series `sw`. */
  function ForecastOf(n: nat, sw: seq<Point>, periods: nat, arima: ArimaOutcome, sqrt: real -> real): Option<seq<ForecastRow>>
    requires forall i :: 0 <= i < |sw| ==> sw[i].1.Some?
  {
    if n < 5 || |sw| < 5 then None
    else
      var last := sw[|sw| - 1].0;
      if !UsesFallback(arima, periods) then
        Some(ArimaRows(arima.forecast, arima.lower, arima.upper, last, periods))
      else
        WeeklyMaxValues(sw);
        Some(LinearFallback(Present(Values(sw)), last, periods, sqrt))
  }

  /** `np.polyfit(x, y, 1)[0]` against `x = 0..n-1`; a one-point fit is not modelled and is given slope 0. */
  function Slope(ys: seq<real>): real {
    if |ys| >= 2 then LeastSquares(ys).0 else 0.0
  }

  /** The slope relative to the mean level when that level is positive, else the slope itself. */
  function RelativeSlope(ys: seq<real>): real
    requires |ys| > 0
  {
    if Mean(ys) > 0.0 then Slope(ys) / Mean(ys) else Slope(ys)
  }

  /** `iloc[-lookback:]`: the last `lookback` values, or all of them for `lookback == 0` (since `-0 == 0`). */
  function Tail(ys: seq<real>, lookback: nat): (t: seq<real>)
    requires lookback <= |ys|
    ensures lookback > 0 ==> |t| == lookback
    ensures |t| <= |ys| && ys == ys[..|ys| - |t|] + t
    ensures lookback == 0 ==> t == ys
  {
    if lookback == 0 then ys else ys[|ys| - lookback..]
  }

  /** The plateau test on values already in date order. */
  function PlateauTest(ys: seq<real>, lookback: nat, thresh: real): bool {
    if |ys| < Max(5, lookback) then false
    else Abs(RelativeSlope(Tail(ys, lookback))) < thresh
  }

  function KeyLe(p: Point, q: Point): bool { p.0 <= q.0 }

  /** `sort_index()`: the points in increasing order of day. */
  function ByDay(ps: seq<Point>): (s: seq<Point>)
    ensures multiset(s) == multiset(ps)
    ensures forall i, j :: 0 <= i < j < |s| ==> s[i].0 <= s[j].0
  {
    KeyOrderTotal();
    Sort(ps, KeyLe)
  }

  /** `series.dropna().sort_index()`, keeping only the values. */
  function PlateauValues(series: seq<Point>): seq<real> {
    Present(Values(ByDay(DropMissing(series))))
  }

  /** `detect_plateau`: the least-squares slope of the last `lookback` values is (relatively) below `thresh`. */
  function DetectPlateau(series: seq<Point>, lookback: nat, thresh: real): bool {
    PlateauTest(PlateauValues(series), lookback, thresh)
  }

  // ----- lemmas: the weekly series -----

  lemma KeyOrderTotal()
    ensures TotalPreorder(KeyLe)
  {
  }

  lemma {:induction false} DropMissingLast(ps: seq<Point>)
    requires ps != [] && ps[|ps| - 1].1.Some?
    ensures DropMissing(ps) != [] && DropMissing(ps)[|DropMissing(ps)| - 1] == ps[|ps| - 1]
  {
  }

  predicate KeysIncreasing(ps: seq<Point>) {
    forall i, j :: 0 <= i < j < |ps| ==> ps[i].0 < ps[j].0
  }

  lemma {:induction false} DropMissingIncreasing(ps: seq<Point>)
    requires KeysIncreasing(ps)
    ensures KeysIncreasing(DropMissing(ps))
    decreases |ps|
  {
    if ps != [] {
      var init := ps[..|ps| - 1];
      assert forall m :: 0 <= m < |init| ==> init[m] == ps[m];
      DropMissingIncreasing(init);
      var d := DropMissing(init);
      var last := ps[|ps| - 1];
      forall i | 0 <= i < |d|
        ensures d[i].0 < last.0
      {
        assert d[i] in init;
        var m :| 0 <= m < |init| && init[m] == d[i];
        assert init[m] == ps[m];
      }
      var r := DropMissing(ps);
      if last.1.Some? {
        assert r == d + [last];
        forall i, j | 0 <= i < j < |r|
          ensures r[i].0 < r[j].0
        {
          if j == |d| {
            assert r[i] == d[i] && r[j] == last;
          } else {
            assert r[i] == d[i] && r[j] == d[j];
          }
        }
      } else {
        assert r == d;
      }
    }
  }

  /** Each point `dropna` keeps comes from the input. */
  lemma {:induction false} DropMissingFrom(ps: seq<Point>, i: nat)
    requires i < |DropMissing(ps)|
    ensures exists j :: 0 <= j < |ps| && ps[j] == DropMissing(ps)[i]
    decreases |ps|
  {
    var init := ps[..|ps| - 1];
    if i < |DropMissing(init)| {
      DropMissingFrom(init, i);
      var j :| 0 <= j < |init| && init[j] == DropMissing(init)[i];
      assert ps[j] == init[j];
    } else {
      assert DropMissing(ps)[i] == ps[|ps| - 1];
    }
  }

  /** Each present point of the input is kept by `dropna`. */
  lemma {:induction false} DropMissingKeeps(ps: seq<Point>, j: nat)
    requires j < |ps| && ps[j].1.Some?
    ensures exists i :: 0 <= i < |DropMissing(ps)| && DropMissing(ps)[i] == ps[j]
    decreases |ps|
  {
    var init := ps[..|ps| - 1];
    if j < |init| {
      DropMissingKeeps(init, j);
      var i :| 0 <= i < |DropMissing(init)| && DropMissing(init)[i] == init[j];
      assert DropMissing(ps)[i] == DropMissing(init)[i];
    } else {
      DropMissingLast(ps);
    }
  }

  /**
   * The weekly series lists, in increasing order, exactly the weeks in which a
   * value was observed, each with the largest value of that week; its last week
   * is the week of the latest observation.
   */
  lemma WeeklyMaxSpec(s: seq<Point>)
    requires s != [] && forall i :: 0 <= i < |s| ==> s[i].1.Some?
    ensures var sw := WeeklyMax(s);
      && sw != []
      && KeysIncreasing(sw)
      && (forall i :: 0 <= i < |sw| ==> sw[i].1 == MaxPresent(ValuesIn(s, WeekOf, sw[i].0)) && sw[i].1.Some?)
      && (forall w :: w in Keys(sw) <==> HasBucket(s, WeekOf, w))
      && sw[|sw| - 1].0 == WeekOf(MaxKey(s))
  {
    var r := ResampleWeekly(s, MaxOf);
    ResampleWeeklySpec(s, MaxOf);
    DropMissingIncreasing(r);
    WeeklyMaxLast(s);
    WeeklyMaxValuesOk(s);
    forall w
      ensures w in Keys(WeeklyMax(s)) <==> HasBucket(s, WeekOf, w)
    {
      WeeklyMaxKeys(s, w);
    }
  }

  lemma WeeklyMaxLast(s: seq<Point>)
    requires s != [] && forall i :: 0 <= i < |s| ==> s[i].1.Some?
    ensures WeeklyMax(s) != [] && WeeklyMax(s)[|WeeklyMax(s)| - 1].0 == WeekOf(MaxKey(s))
  {
    ResampleWeeklyLast(s, MaxOf);
    MaxOfBucket(s, WeekOf, WeekOf(MaxKey(s)));
    DropMissingLast(ResampleWeekly(s, MaxOf));
  }

  lemma WeeklyMaxValuesOk(s: seq<Point>)
    requires s != []
    ensures var sw := WeeklyMax(s);
      forall i :: 0 <= i < |sw| ==> sw[i].1 == MaxPresent(ValuesIn(s, WeekOf, sw[i].0)) && sw[i].1.Some?
  {
    var r := ResampleWeekly(s, MaxOf);
    ResampleWeeklySpec(s, MaxOf);
    var sw := WeeklyMax(s);
    forall i | 0 <= i < |sw|
      ensures sw[i].1 == MaxPresent(ValuesIn(s, WeekOf, sw[i].0)) && sw[i].1.Some?
    {
      DropMissingFrom(r, i);
    }
  }

  lemma WeeklyMaxKeys(s: seq<Point>, w: int)
    requires s != [] && forall i :: 0 <= i < |s| ==> s[i].1.Some?
    ensures w in Keys(WeeklyMax(s)) <==> HasBucket(s, WeekOf, w)
  {
    if w in Keys(WeeklyMax(s)) {
      WeeklyMaxKeySound(s, w);
    }
    if HasBucket(s, WeekOf, w) {
      WeeklyMaxKeyComplete(s, w);
    }
  }

  lemma WeeklyMaxKeySound(s: seq<Point>, w: int)
    requires s != [] && forall i :: 0 <= i < |s| ==> s[i].1.Some?
    requires w in Keys(WeeklyMax(s))
    ensures HasBucket(s, WeekOf, w)
  {
    var r := ResampleWeekly(s, MaxOf);
    var sw := WeeklyMax(s);
    var i :| 0 <= i < |sw| && Keys(sw)[i] == w;
    assert sw[i].0 == w && sw[i].1.Some?;
    DropMissingFrom(r, i);
    var j :| 0 <= j < |r| && r[j] == sw[i];
    ResampleWeeklySpec(s, MaxOf);
    assert Reduce(MaxOf, ValuesIn(s, WeekOf, w)) == r[j].1;
    MaxOfBucket(s, WeekOf, w);
  }

  lemma WeeklyMaxKeyComplete(s: seq<Point>, w: int)
    requires s != [] && forall i :: 0 <= i < |s| ==> s[i].1.Some?
    requires HasBucket(s, WeekOf, w)
    ensures w in Keys(WeeklyMax(s))
  {
    var r := ResampleWeekly(s, MaxOf);
    var j := w - WeekOf(MinKey(s));
    ResampleWeeklyHasWeek(s, MaxOf, w);
    MaxOfBucket(s, WeekOf, w);
    DropMissingKeeps(r, j);
    var sw := WeeklyMax(s);
    var k :| 0 <= k < |sw| && sw[k] == r[j];
    assert Keys(sw)[k] == w;
  }

  // ----- lemmas: the forecast -----

  /** No forecast exactly when fewer than five values are present or fewer than five weeks hold one. */
  lemma ForecastNone(series: seq<Point>, periods: nat, arima: ArimaOutcome, sqrt: real -> real)
    ensures var s := DropMissing(series);
      Forecast1RM(series, periods, arima, sqrt).None? <==> |s| < 5 || |WeeklyMax(s)| < 5
  {
  }

  /** A forecast has exactly `periods` rows, dated on the Sundays of the weeks after the latest observation. */
  lemma ForecastRowsAndDates(series: seq<Point>, periods: nat, arima: ArimaOutcome, sqrt: real -> real)
    requires Forecast1RM(series, periods, arima, sqrt).Some?
    ensures var rows := Forecast1RM(series, periods, arima, sqrt).value;
      && |rows| == periods
      && (forall k :: 0 <= k < periods ==> rows[k].day == WeekEndDay(WeekOf(MaxKey(DropMissing(series)))) + 7 * (k + 1))
      && (forall k :: 0 <= k < periods ==> rows[k].day > MaxKey(DropMissing(series)))
  {
    var s := DropMissing(series);
    WeeklyMaxLast(s);
    var rows := Forecast1RM(series, periods, arima, sqrt).value;
    ForecastLength(series, periods, arima, sqrt);
    forall k | 0 <= k < periods
      ensures rows[k].day == WeekEndDay(WeekOf(MaxKey(s))) + 7 * (k + 1)
      ensures rows[k].day > MaxKey(s)
    {
      ForecastRowDay(series, periods, arima, sqrt, k);
      WeekContainsDay(MaxKey(s));
    }
  }

  lemma ForecastLength(series: seq<Point>, periods: nat, arima: ArimaOutcome, sqrt: real -> real)
    requires Forecast1RM(series, periods, arima, sqrt).Some?
    ensures |Forecast1RM(series, periods, arima, sqrt).value| == periods
  {
  }

  lemma ForecastRowDay(series: seq<Point>, periods: nat, arima: ArimaOutcome, sqrt: real -> real, k: nat)
    requires Forecast1RM(series, periods, arima, sqrt).Some? && k < periods
    ensures var sw := WeeklyMax(DropMissing(series));
      sw != [] && |Forecast1RM(series, periods, arima, sqrt).value| == periods
      && Forecast1RM(series, periods, arima, sqrt).value[k].day == FutureWeek(sw[|sw| - 1].0, k)
  {
    Forecast1RMIsForecastOf(series, periods, arima, sqrt);
    var s := DropMissing(series);
    ForecastOfRowDay(|s|, WeeklyMax(s), periods, arima, sqrt, k);
  }

  /** Row `k` of either branch is dated on the `k`-th week after the last week of `sw`. */
  lemma ForecastOfRowDay(n: nat, sw: seq<Point>, periods: nat, arima: ArimaOutcome, sqrt: real -> real, k: nat)
    requires forall i :: 0 <= i < |sw| ==> sw[i].1.Some?
    requires ForecastOf(n, sw, periods, arima, sqrt).Some? && k < periods
    ensures sw != [] && |ForecastOf(n, sw, periods, arima, sqrt).value| == periods
    ensures ForecastOf(n, sw, periods, arima, sqrt).value[k].day == FutureWeek(sw[|sw| - 1].0, k)
  {
    if UsesFallback(arima, periods) {
      ForecastOfFallback(n, sw, periods, arima, sqrt);
      LinearFallbackRow(Present(Values(sw)), sw[|sw| - 1].0, periods, sqrt, k);
    }
  }

  /** When ARIMA produced `periods` values of each kind, the table carries them. */
  lemma ForecastFromArima(series: seq<Point>, periods: nat, fc: seq<real>, lo: seq<real>, up: seq<real>, sqrt: real -> real, k: nat)
    requires Forecast1RM(series, periods, Fitted(fc, lo, up), sqrt).Some?
    requires |fc| == periods && |lo| == periods && |up| == periods && k < periods
    ensures var row := Forecast1RM(series, periods, Fitted(fc, lo, up), sqrt).value[k];
      row.forecast == fc[k] && row.lower == lo[k] && row.upper == up[k]
  {
  }

  /** Whether the fallback runs: ARIMA failed, or its output has the wrong length. */
  predicate UsesFallback(arima: ArimaOutcome, periods: nat) {
    !(arima.Fitted? && |arima.forecast| == periods && |arima.lower| == periods && |arima.upper| == periods)
  }

  /** When the fallback runs, the table is the linear fallback over the weekly maxima, from the last week on. */
  lemma ForecastIsFallback(series: seq<Point>, periods: nat, arima: ArimaOutcome, sqrt: real -> real)
    requires Forecast1RM(series, periods, arima, sqrt).Some? && UsesFallback(arima, periods)
    ensures var sw := WeeklyMax(DropMissing(series));
      && |sw| >= 5 && |Present(Values(sw))| == |sw|
      && Forecast1RM(series, periods, arima, sqrt).value == LinearFallback(Present(Values(sw)), sw[|sw| - 1].0, periods, sqrt)
  {
    Forecast1RMIsForecastOf(series, periods, arima, sqrt);
    var s := DropMissing(series);
    ForecastOfFallback(|s|, WeeklyMax(s), periods, arima, sqrt);
  }

  lemma Forecast1RMIsForecastOf(series: seq<Point>, periods: nat, arima: ArimaOutcome, sqrt: real -> real)
    ensures var s := DropMissing(series);
      Forecast1RM(series, periods, arima, sqrt) == ForecastOf(|s|, WeeklyMax(s), periods, arima, sqrt)
  {
  }

  lemma ForecastOfFallback(n: nat, sw: seq<Point>, periods: nat, arima: ArimaOutcome, sqrt: real -> real)
    requires forall i :: 0 <= i < |sw| ==> sw[i].1.Some?
    requires ForecastOf(n, sw, periods, arima, sqrt).Some? && UsesFallback(arima, periods)
    ensures |sw| >= 5 && |Present(Values(sw))| == |sw|
    ensures ForecastOf(n, sw, periods, arima, sqrt).value == LinearFallback(Present(Values(sw)), sw[|sw| - 1].0, periods, sqrt)
  {
    WeeklyMaxValues(sw);
  }

  /**
   * The fallback extends the least-squares line of the n weekly maxima to
   * x = n, n+1, ...: row k is `a*(n+k) + b` for the line (a, b) with the least
   * squared error of all lines.
   */
  lemma FallbackIsLeastSquaresLine(ys: seq<real>, last: int, periods: nat, sqrt: real -> real, k: nat, a': real, b': real)
    requires |ys| >= 2 && k < periods
    ensures LinearFallback(ys, last, periods, sqrt)[k].forecast == LeastSquares(ys).0 * (|ys| + k) as real + LeastSquares(ys).1
    ensures SquaredError(ys, LeastSquares(ys).0, LeastSquares(ys).1) <= SquaredError(ys, a', b')
  {
    LinearFallbackRow(ys, last, periods, sqrt, k);
    LeastSquaresMinimal(ys, a', b');
  }

  /** Row `k` of the fallback: the line at x = n + k, one `sqrt` of the variance either side, on week `last + 1 + k`. */
  lemma LinearFallbackRow(ys: seq<real>, last: int, periods: nat, sqrt: real -> real, k: nat)
    requires |ys| >= 2 && k < periods
    ensures var row := LinearFallback(ys, last, periods, sqrt)[k];
      && row.day == FutureWeek(last, k)
      && row.forecast == LeastSquares(ys).0 * (|ys| + k) as real + LeastSquares(ys).1
      && row.lower == row.forecast - sqrt(PopulationVariance(ys))
      && row.upper == row.forecast + sqrt(PopulationVariance(ys))
  {
  }

  /** The weekly maxima are all present, so dropping missing values keeps every one of them. */
  lemma WeeklyMaxValues(sw: seq<Point>)
    requires forall i :: 0 <= i < |sw| ==> sw[i].1.Some?
    ensures |Present(Values(sw))| == |sw|
    ensures forall i :: 0 <= i < |sw| ==> Present(Values(sw))[i] == sw[i].1.value
  {
    PresentSpec(Values(sw));
  }

  /**
   * The fallback band is the forecast minus and plus `sqrt` of the population
   * variance of the weekly maxima: the same width at every horizon, and around
   * the forecast whenever `sqrt` is non-negative.
   */
  lemma FallbackBand(series: seq<Point>, periods: nat, arima: ArimaOutcome, sqrt: real -> real, k: nat)
    requires Forecast1RM(series, periods, arima, sqrt).Some? && UsesFallback(arima, periods) && k < periods
    ensures var ys := Present(Values(WeeklyMax(DropMissing(series))));
      var row := Forecast1RM(series, periods, arima, sqrt).value[k];
      && |ys| >= 5
      && row.upper - row.forecast == sqrt(PopulationVariance(ys))
      && row.forecast - row.lower == sqrt(PopulationVariance(ys))
      && ((forall x :: x >= 0.0 ==> sqrt(x) >= 0.0) ==> row.lower <= row.forecast <= row.upper)
  {
    Forecast1RMIsForecastOf(series, periods, arima, sqrt);
    var s := DropMissing(series);
    ForecastOfBand(|s|, WeeklyMax(s), periods, arima, sqrt, k);
  }

  lemma ForecastOfBand(n: nat, sw: seq<Point>, periods: nat, arima: ArimaOutcome, sqrt: real -> real, k: nat)
    requires forall i :: 0 <= i < |sw| ==> sw[i].1.Some?
    requires ForecastOf(n, sw, periods, arima, sqrt).Some? && UsesFallback(arima, periods) && k < periods
    ensures var ys := Present(Values(sw));
      var row := ForecastOf(n, sw, periods, arima, sqrt).value[k];
      && |ys| >= 5
      && row.upper - row.forecast == sqrt(PopulationVariance(ys))
      && row.forecast - row.lower == sqrt(PopulationVariance(ys))
      && ((forall x :: x >= 0.0 ==> sqrt(x) >= 0.0) ==> row.lower <= row.forecast <= row.upper)
  {
    var ys := Present(Values(sw));
    ForecastOfFallback(n, sw, periods, arima, sqrt);
    LinearFallbackRow(ys, sw[|sw| - 1].0, periods, sqrt, k);
    PopulationVarianceNonNegative(ys);
  }

  /** On values that lie exactly on a line, the fallback continues that line. */
  lemma FallbackContinuesLine(ys: seq<real>, last: int, periods: nat, sqrt: real -> real, a: real, b: real)
    requires |ys| >= 2
    requires forall i :: 0 <= i < |ys| ==> ys[i] == a * i as real + b
    ensures forall k :: 0 <= k < periods ==> LinearFallback(ys, last, periods, sqrt)[k].forecast == a * (|ys| + k) as real + b
  {
    LeastSquaresOfLine(ys, a, b);
    forall k | 0 <= k < periods
      ensures LinearFallback(ys, last, periods, sqrt)[k].forecast == a * (|ys| + k) as real + b
    {
      LinearFallbackRow(ys, last, periods, sqrt, k);
    }
  }

  // ----- lemmas: the plateau test -----

  /** Too short a series is never a plateau: fewer than `max(5, lookback)` values. */
  lemma PlateauNeedsHistory(ys: seq<real>, lookback: nat, thresh: real)
    requires |ys| < 5 || |ys| < lookback
    ensures !PlateauTest(ys, lookback, thresh)
  {
  }

  /** Only the last `lookback` values matter. */
  lemma PlateauUsesTail(ys: seq<real>, zs: seq<real>, lookback: nat, thresh: real)
    requires lookback >= 1 && |ys| >= Max(5, lookback) && |zs| >= Max(5, lookback)
    requires ys[|ys| - lookback..] == zs[|zs| - lookback..]
    ensures PlateauTest(ys, lookback, thresh) == PlateauTest(zs, lookback, thresh)
  {
  }

  /**
   * On a tail that lies exactly on a line of slope `a`, the test compares `|a|`,
   * relative to the mean when the mean is positive, strictly with the threshold.
   */
  lemma PlateauOfLine(ys: seq<real>, lookback: nat, thresh: real, a: real, b: real)
    requires |ys| >= Max(5, lookback) && (lookback != 1 || a == 0.0)
    requires var t := Tail(ys, lookback); forall i :: 0 <= i < |t| ==> t[i] == a * i as real + b
    ensures var t := Tail(ys, lookback);
      PlateauTest(ys, lookback, thresh) == (Abs(if Mean(t) > 0.0 then a / Mean(t) else a) < thresh)
  {
    var t := Tail(ys, lookback);
    if |t| >= 2 {
      LeastSquaresOfLine(t, a, b);
    }
  }

  /** A flat tail is a plateau exactly when the threshold is positive: the comparison is strict. */
  lemma FlatIsPlateau(ys: seq<real>, lookback: nat, thresh: real, c: real)
    requires |ys| >= Max(5, lookback)
    requires var t := Tail(ys, lookback); forall i :: 0 <= i < |t| ==> t[i] == c
    ensures PlateauTest(ys, lookback, thresh) <==> thresh > 0.0
  {
    var t := Tail(ys, lookback);
    forall i | 0 <= i < |t| ensures t[i] == 0.0 * i as real + c { }
    PlateauOfLine(ys, lookback, thresh, 0.0, c);
  }
}
