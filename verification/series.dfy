/**
 * The pandas and numpy operations the analytics code is built from, over exact
 * reals: `dropna`, `sum`/`mean`/`max` (skipping missing values),
 * `groupby('Date')`, `resample('W')`, `np.polyfit(x, y, deg=1)` and the
 * population variance under `np.std`.
 *
 * Days are numbered from 1970-01-01 (a Thursday). pandas' weekly frequency
 * `'W'` closes each week on a Sunday, so day `d` falls in week `(d + 3) / 7`
 * and week `w` is labelled with its Sunday, day `7 * w + 3`.
 */
module Series {
  import opened Wrappers
  import Collections

  /** One entry of a pandas Series: an index key (a day or a week) and a value that may be missing. */
  type Point = (int, Option<real>)

  // ----- values -----

  function Sum(xs: seq<real>): real {
    if xs == [] then 0.0 else Sum(xs[..|xs| - 1]) + xs[|xs| - 1]
  }

  function Mean(xs: seq<real>): real
    requires |xs| > 0
  {
    Sum(xs) / |xs| as real
  }

  /** `dropna()` on the values. */
  function Present(vs: seq<Option<real>>): (r: seq<real>)
    ensures |r| <= |vs|
  {
    if vs == [] then []
    else Present(vs[..|vs| - 1]) + (if vs[|vs| - 1].Some? then [vs[|vs| - 1].value] else [])
  }

  /** pandas `max()`: the largest present value, missing when none is present. */
  function MaxPresent(vs: seq<Option<real>>): Option<real> {
    if vs == [] then None
    else
      var m := MaxPresent(vs[..|vs| - 1]);
      match vs[|vs| - 1]
      case None => m
      case Some(v) => if m.Some? && m.value >= v then m else Some(v)
  }

  /** pandas `sum()`: missing values count as nothing, and an empty sum is 0. */
  function SumPresent(vs: seq<Option<real>>): real {
    Sum(Present(vs))
  }

  // ----- keyed series -----

  /** `dropna()` on a keyed series: the points with a value, in order. */
  function DropMissing(ps: seq<Point>): (r: seq<Point>)
    ensures |r| <= |ps|
    ensures forall i :: 0 <= i < |r| ==> r[i].1.Some?
    ensures forall p :: p in r <==> p in ps && p.1.Some?
  {
    if ps == [] then []
    else DropMissing(ps[..|ps| - 1]) + (if ps[|ps| - 1].1.Some? then [ps[|ps| - 1]] else [])
  }

  function Keys(ps: seq<Point>): (r: seq<int>)
    ensures |r| == |ps| && forall i :: 0 <= i < |ps| ==> r[i] == ps[i].0
  {
    seq(|ps|, i requires 0 <= i < |ps| => ps[i].0)
  }

  function Values(ps: seq<Point>): (r: seq<Option<real>>)
    ensures |r| == |ps| && forall i :: 0 <= i < |ps| ==> r[i] == ps[i].1
  {
    seq(|ps|, i requires 0 <= i < |ps| => ps[i].1)
  }

  /** The smallest key. */
  function MinKey(ps: seq<Point>): (m: int)
    requires |ps| > 0
    ensures exists i :: 0 <= i < |ps| && ps[i].0 == m
    ensures forall i :: 0 <= i < |ps| ==> m <= ps[i].0
  {
    if |ps| == 1 then ps[0].0
    else
      var m := MinKey(ps[1..]);
      assert forall i :: 1 <= i < |ps| ==> ps[i] == ps[1..][i - 1];
      if ps[0].0 <= m then ps[0].0 else m
  }

  /** The largest key. */
  function MaxKey(ps: seq<Point>): (m: int)
    requires |ps| > 0
    ensures exists i :: 0 <= i < |ps| && ps[i].0 == m
    ensures forall i :: 0 <= i < |ps| ==> ps[i].0 <= m
  {
    if |ps| == 1 then ps[0].0
    else
      var m := MaxKey(ps[1..]);
      assert forall i :: 1 <= i < |ps| ==> ps[i] == ps[1..][i - 1];
      if ps[0].0 >= m then ps[0].0 else m
  }

  /** The values of the points whose key falls in bucket `k`, in order. */
  function ValuesIn(ps: seq<Point>, bucket: int -> int, k: int): seq<Option<real>> {
    if ps == [] then []
    else ValuesIn(ps[..|ps| - 1], bucket, k) + (if bucket(ps[|ps| - 1].0) == k then [ps[|ps| - 1].1] else [])
  }

  predicate HasBucket(ps: seq<Point>, bucket: int -> int, k: int) {
    exists i :: 0 <= i < |ps| && bucket(ps[i].0) == k
  }

  /** How a group of values is reduced to one. */
  datatype Reducer = MaxOf | SumOf

  function Reduce(red: Reducer, vs: seq<Option<real>>): Option<real> {
    match red
    case MaxOf => MaxPresent(vs)
    case SumOf => Some(SumPresent(vs))
  }

  /**
   * One reduced point per bucket `lo..hi`, in increasing order. `groupby` lists
   * only the buckets that hold a point (`keepEmpty == false`); `resample`
   * lists every bucket of the span (`keepEmpty == true`).
   */
  function Buckets(ps: seq<Point>, bucket: int -> int, lo: int, hi: int, red: Reducer, keepEmpty: bool): (r: seq<Point>)
    ensures forall i :: 0 <= i < |r| ==> lo <= r[i].0 <= hi
    ensures forall i, j :: 0 <= i < j < |r| ==> r[i].0 < r[j].0
    ensures keepEmpty ==> |r| == (if lo <= hi then hi - lo + 1 else 0)
    ensures keepEmpty ==> forall i :: 0 <= i < |r| ==> r[i].0 == lo + i
    decreases hi - lo
  {
    if lo > hi then []
    else
      (if keepEmpty || HasBucket(ps, bucket, lo) then [(lo, Reduce(red, ValuesIn(ps, bucket, lo)))] else [])
      + Buckets(ps, bucket, lo + 1, hi, red, keepEmpty)
  }

  function Day(d: int): int { d }

  /** `groupby('Date')[...].max()` or `.sum()` over points keyed by day: one point per day present. */
  function GroupByDay(ps: seq<Point>, red: Reducer): seq<Point> {
    if ps == [] then [] else Buckets(ps, Day, MinKey(ps), MaxKey(ps), red, false)
  }

  /** The week (Monday to Sunday) that day `d` falls in. */
  function WeekOf(d: int): int { (d + 3) / 7 }

  /** The Sunday that closes week `w`, pandas' label for that week. */
  function WeekEndDay(w: int): int { 7 * w + 3 }

  /** `resample('W').max()` or `.sum()` over points keyed by day, keyed by week: every week of the span. */
  function ResampleWeekly(ps: seq<Point>, red: Reducer): seq<Point> {
    if ps == [] then [] else Buckets(ps, WeekOf, WeekOf(MinKey(ps)), WeekOf(MaxKey(ps)), red, true)
  }

  // ----- least squares and dispersion -----

  /** Σ i for i in 0..n-1, the sum of `np.arange(n)`. */
  function IndexSum(n: nat): real {
    if n == 0 then 0.0 else IndexSum(n - 1) + (n - 1) as real
  }

  /** Σ i² for i in 0..n-1. */
  function IndexSquareSum(n: nat): real {
    if n == 0 then 0.0 else IndexSquareSum(n - 1) + ((n - 1) as real) * ((n - 1) as real)
  }

  /** Σ i * ys[i]. */
  function IndexWeightedSum(ys: seq<real>): real {
    if ys == [] then 0.0 else IndexWeightedSum(ys[..|ys| - 1]) + (|ys| - 1) as real * ys[|ys| - 1]
  }

  /** The determinant of the normal equations of a line fitted at x = 0..n-1. */
  function Determinant(n: nat): real {
    (n as real) * IndexSquareSum(n) - IndexSum(n) * IndexSum(n)
  }

  /** Σ (y - (a*x + b)) written with the sums n, Σx and Σy. */
  function ResidualForm(n: real, sx: real, sy: real, a: real, b: real): real {
    sy - a * sx - n * b
  }

  /** Σ x * (y - (a*x + b)) written with the sums Σx, Σx² and Σxy. */
  function WeightedResidualForm(sx: real, sxx: real, sxy: real, a: real, b: real): real {
    sxy - a * sxx - b * sx
  }

  /**
   * The normal equations of the line y = a*x + b through n points with Σx = sx, Σx² = sxx,
   * Σy = sy and Σxy = sxy: the residuals and the x-weighted residuals both sum to zero.
   */
  predicate NormalEquations(n: real, sx: real, sxx: real, sy: real, sxy: real, a: real, b: real) {
    ResidualForm(n, sx, sy, a, b) == 0.0 && WeightedResidualForm(sx, sxx, sxy, a, b) == 0.0
  }

  /** The normal equations have a unique solution: at least one point and a non-zero determinant. */
  predicate Solvable(n: real, sx: real, sxx: real) {
    n > 0.0 && n * sxx - sx * sx != 0.0
  }

  /** Cramer's rule: the slope and intercept that solve the normal equations. */
  function SolveNormalEquations(n: real, sx: real, sxx: real, sy: real, sxy: real): (r: (real, real))
    requires Solvable(n, sx, sxx)
    ensures NormalEquations(n, sx, sxx, sy, sxy, r.0, r.1)
  {
    var d := n * sxx - sx * sx;
    var a := (n * sxy - sx * sy) / d;
    var b := (sy - a * sx) / n;
    assert a * d == n * sxy - sx * sy;
    assert b * n == sy - a * sx;
    assert n * (sxy - a * sxx - b * sx) == n * sxy - a * (n * sxx) - (b * n) * sx;
    assert n * (sxy - a * sxx - b * sx) == n * sxy - sx * sy - a * d;
    (a, b)
  }

  /** `np.polyfit(np.arange(len(ys)), ys, deg=1)`: the (slope, intercept) of the least-squares line. */
  function LeastSquares(ys: seq<real>): (real, real)
    requires |ys| >= 2
  {
    DeterminantNonZero(|ys|);
    SolveNormalEquations(|ys| as real, IndexSum(|ys|), IndexSquareSum(|ys|), Sum(ys), IndexWeightedSum(ys))
  }

  /** Σ (ys[i] - (a*i + b))², the squared error of the line y = a*x + b. */
  function SquaredError(ys: seq<real>, a: real, b: real): real {
    if ys == [] then 0.0
    else
      var r := ys[|ys| - 1] - (a * (|ys| - 1) as real + b);
      SquaredError(ys[..|ys| - 1], a, b) + r * r
  }

  /** Σ (ys[i] - (a*i + b)). */
  function Residuals(ys: seq<real>, a: real, b: real): real {
    if ys == [] then 0.0 else Residuals(ys[..|ys| - 1], a, b) + (ys[|ys| - 1] - (a * (|ys| - 1) as real + b))
  }

  /** Σ i * (ys[i] - (a*i + b)). */
  function WeightedResiduals(ys: seq<real>, a: real, b: real): real {
    if ys == [] then 0.0
    else WeightedResiduals(ys[..|ys| - 1], a, b) + (|ys| - 1) as real * (ys[|ys| - 1] - (a * (|ys| - 1) as real + b))
  }

  /** Σ (ys[i] - m)². */
  function SquaredDeviation(ys: seq<real>, m: real): real {
    if ys == [] then 0.0 else SquaredDeviation(ys[..|ys| - 1], m) + (ys[|ys| - 1] - m) * (ys[|ys| - 1] - m)
  }

  /** `np.var(ys)` (ddof 0), whose square root is `np.std(ys)`. */
  function PopulationVariance(ys: seq<real>): real
    requires |ys| > 0
  {
    SquaredDeviation(ys, Mean(ys)) / |ys| as real
  }

  // ----- lemmas -----

  predicate HasValue(p: Point) { p.1.Some? }

  /** `dropna()` is the filter that keeps the points with a value. */
  lemma {:induction false} DropMissingIsFilter(ps: seq<Point>)
    ensures DropMissing(ps) == Collections.Filter(ps, HasValue)
    decreases |ps|
  {
    if ps != [] {
      var init := ps[..|ps| - 1];
      DropMissingIsFilter(init);
      Collections.FilterSnoc(init, ps[|ps| - 1], HasValue);
      assert init + [ps[|ps| - 1]] == ps;
    }
  }

  /**
   * `dropna()` keeps the points with a value in their order, each as often as it
   * occurs, so its length is the number of present points.
   */
  lemma DropMissingSpec(ps: seq<Point>)
    ensures Collections.Subsequence(DropMissing(ps), ps)
    ensures forall p :: multiset(DropMissing(ps))[p] == if p.1.Some? then multiset(ps)[p] else 0
    ensures |DropMissing(ps)| == |Present(Values(ps))|
  {
    DropMissingIsFilter(ps);
    Collections.FilterSpec(ps, HasValue);
    Collections.FilterMultiplicity(ps, HasValue);
    DropMissingPresentCount(ps);
  }

  /** As many points survive `dropna()` as there are present values. */
  lemma {:induction false} DropMissingPresentCount(ps: seq<Point>)
    ensures |DropMissing(ps)| == |Present(Values(ps))|
    decreases |ps|
  {
    if ps != [] {
      var init := ps[..|ps| - 1];
      DropMissingPresentCount(init);
      assert Values(ps)[..|ps| - 1] == Values(init);
    }
  }

  /** A sum over two concatenated sequences is the sum of their sums. */
  lemma {:induction false} SumConcat(a: seq<real>, b: seq<real>)
    ensures Sum(a + b) == Sum(a) + Sum(b)
    decreases |b|
  {
    if b == [] {
      assert a + b == a;
    } else {
      SumConcat(a, b[..|b| - 1]);
      assert (a + b)[..|a + b| - 1] == a + b[..|b| - 1];
    }
  }

  /** A sum of values between `lo` and `hi` lies between |xs|*lo and |xs|*hi. */
  lemma {:induction false} SumBounds(xs: seq<real>, lo: real, hi: real)
    requires forall i :: 0 <= i < |xs| ==> lo <= xs[i] <= hi
    ensures |xs| as real * lo <= Sum(xs) <= |xs| as real * hi
    decreases |xs|
  {
    if xs != [] {
      SumBounds(xs[..|xs| - 1], lo, hi);
    }
  }

  lemma DivideBounds(s: real, n: real, lo: real, hi: real)
    requires n > 0.0 && n * lo <= s <= n * hi
    ensures lo <= s / n <= hi
  {
    assert s / n * n == s;
  }

  /** The mean of values between `lo` and `hi` lies between them. */
  lemma MeanBounds(xs: seq<real>, lo: real, hi: real)
    requires |xs| > 0
    requires forall i :: 0 <= i < |xs| ==> lo <= xs[i] <= hi
    ensures lo <= Mean(xs) <= hi
  {
    SumBounds(xs, lo, hi);
    DivideBounds(Sum(xs), |xs| as real, lo, hi);
  }

  lemma {:induction false} IndexSumClosed(n: nat)
    ensures 2.0 * IndexSum(n) == (n as real) * (n as real - 1.0)
    ensures 6.0 * IndexSquareSum(n) == (n as real - 1.0) * (n as real) * (2.0 * n as real - 1.0)
  {
    if n > 0 {
      IndexSumClosed(n - 1);
      var k := (n - 1) as real;
      assert (k - 1.0) * k * (2.0 * k - 1.0) + 6.0 * (k * k) == k * (k + 1.0) * (2.0 * k + 1.0);
    }
  }

  lemma DeterminantPositive(n: nat)
    requires n >= 2
    ensures Determinant(n) > 0.0
  {
    IndexSumClosed(n);
    var m := n as real;
    DeterminantIdentity(m, IndexSum(n), IndexSquareSum(n));
    ProductPositive(m, m);
    ProductPositive(m - 1.0, m + 1.0);
    ProductPositive(m * m, (m - 1.0) * (m + 1.0));
  }

  lemma DeterminantNonZero(n: nat)
    requires n >= 2
    ensures Solvable(n as real, IndexSum(n), IndexSquareSum(n))
  {
    DeterminantPositive(n);
  }

  lemma ProductPositive(x: real, y: real)
    requires x > 0.0 && y > 0.0
    ensures x * y > 0.0
  {
  }

  lemma DeterminantIdentity(m: real, sx: real, sxx: real)
    requires 2.0 * sx == m * (m - 1.0) && 6.0 * sxx == (m - 1.0) * m * (2.0 * m - 1.0)
    ensures 12.0 * (m * sxx - sx * sx) == (m * m) * ((m - 1.0) * (m + 1.0))
  {
    assert 12.0 * (m * sxx) == 2.0 * m * ((m - 1.0) * m * (2.0 * m - 1.0));
    assert 12.0 * (sx * sx) == 3.0 * ((m * (m - 1.0)) * (m * (m - 1.0)));
  }

  /** How far the residual sums are from their closed forms; zero, by `ResidualGapsZero`. */
  function ResidualGap(ys: seq<real>, a: real, b: real): real {
    Residuals(ys, a, b) - ResidualForm(|ys| as real, IndexSum(|ys|), Sum(ys), a, b)
  }

  function WeightedResidualGap(ys: seq<real>, a: real, b: real): real {
    WeightedResiduals(ys, a, b) - WeightedResidualForm(IndexSum(|ys|), IndexSquareSum(|ys|), IndexWeightedSum(ys), a, b)
  }

  lemma {:induction false} ResidualGapsZero(ys: seq<real>, a: real, b: real)
    ensures ResidualGap(ys, a, b) == 0.0 && WeightedResidualGap(ys, a, b) == 0.0
    decreases |ys|
  {
    if ys != [] {
      ResidualGapsZero(ys[..|ys| - 1], a, b);
      ResidualGapsStep(ys, a, b);
    } else {
      assert IndexSquareSum(|ys|) == 0.0 && IndexSum(|ys|) == 0.0;
    }
  }

  /** Appending a point leaves both gaps unchanged. */
  lemma ResidualGapsStep(ys: seq<real>, a: real, b: real)
    requires ys != []
    ensures ResidualGap(ys, a, b) == ResidualGap(ys[..|ys| - 1], a, b)
    ensures WeightedResidualGap(ys, a, b) == WeightedResidualGap(ys[..|ys| - 1], a, b)
  {
    var init, k, y := ys[..|ys| - 1], (|ys| - 1) as real, ys[|ys| - 1];
    ResidualStep(Residuals(init, a, b), Sum(init), IndexSum(|init|), k, y, a, b);
    WeightedResidualStep(WeightedResiduals(init, a, b), IndexWeightedSum(init), IndexSquareSum(|init|), IndexSum(|init|), k, y, a, b);
  }

  lemma ResidualStep(r0: real, sy0: real, sx0: real, k: real, y: real, a: real, b: real)
    ensures (r0 + (y - (a * k + b))) - ((sy0 + y) - a * (sx0 + k) - (k + 1.0) * b) == r0 - (sy0 - a * sx0 - k * b)
  {
  }

  lemma WeightedResidualStep(w0: real, sxy0: real, sxx0: real, sx0: real, k: real, y: real, a: real, b: real)
    ensures (w0 + k * (y - (a * k + b))) - ((sxy0 + k * y) - a * (sxx0 + k * k) - b * (sx0 + k))
         == w0 - (sxy0 - a * sxx0 - b * sx0)
  {
  }

  /** The residual sums in terms of the sums of the data. */
  lemma ResidualsClosed(ys: seq<real>, a: real, b: real)
    ensures Residuals(ys, a, b) == ResidualForm(|ys| as real, IndexSum(|ys|), Sum(ys), a, b)
    ensures WeightedResiduals(ys, a, b) == WeightedResidualForm(IndexSum(|ys|), IndexSquareSum(|ys|), IndexWeightedSum(ys), a, b)
  {
    ResidualGapsZero(ys, a, b);
  }

  /** The normal equations have no other solution. */
  lemma NormalEquationsUniqueSolution(n: real, sx: real, sxx: real, sy: real, sxy: real, a: real, b: real)
    requires Solvable(n, sx, sxx)
    requires NormalEquations(n, sx, sxx, sy, sxy, a, b)
    ensures SolveNormalEquations(n, sx, sxx, sy, sxy) == (a, b)
  {
    var d := n * sxx - sx * sx;
    assert b * n == sy - a * sx;
    assert n * sxy - a * (n * sxx) - (b * n) * sx == 0.0;
    assert a * d == n * sxy - sx * sy;
    assert (n * sxy - sx * sy) / d == a;
    assert (sy - a * sx) / n == b;
    var r := SolveNormalEquations(n, sx, sxx, sy, sxy);
    assert r.0 == a;
    assert r.1 == b;
    assert r == (r.0, r.1);
  }

  /** A line with zero residual sums solves the normal equations of the data's sums ... */
  lemma ResidualsVanish(ys: seq<real>, a: real, b: real)
    requires Residuals(ys, a, b) == 0.0 && WeightedResiduals(ys, a, b) == 0.0
    ensures NormalEquations(|ys| as real, IndexSum(|ys|), IndexSquareSum(|ys|), Sum(ys), IndexWeightedSum(ys), a, b)
  {
    ResidualsClosed(ys, a, b);
  }

  /** ... and a line solving them has zero residual sums. */
  lemma NormalEquationsResiduals(ys: seq<real>, a: real, b: real)
    requires NormalEquations(|ys| as real, IndexSum(|ys|), IndexSquareSum(|ys|), Sum(ys), IndexWeightedSum(ys), a, b)
    ensures Residuals(ys, a, b) == 0.0 && WeightedResiduals(ys, a, b) == 0.0
  {
    ResidualsClosed(ys, a, b);
  }

  /** The fitted line solves the normal equations: both residual sums vanish. */
  lemma LeastSquaresNormalEquations(ys: seq<real>)
    requires |ys| >= 2
    ensures Residuals(ys, LeastSquares(ys).0, LeastSquares(ys).1) == 0.0
    ensures WeightedResiduals(ys, LeastSquares(ys).0, LeastSquares(ys).1) == 0.0
  {
    var (a, b) := LeastSquares(ys);
    NormalEquationsResiduals(ys, a, b);
  }

  /** Conversely, the normal equations have the fitted line as their only solution. */
  lemma NormalEquationsUnique(ys: seq<real>, a: real, b: real)
    requires |ys| >= 2
    requires Residuals(ys, a, b) == 0.0 && WeightedResiduals(ys, a, b) == 0.0
    ensures LeastSquares(ys) == (a, b)
  {
    ResidualsVanish(ys, a, b);
    DeterminantNonZero(|ys|);
    NormalEquationsUniqueSolution(|ys| as real, IndexSum(|ys|), IndexSquareSum(|ys|), Sum(ys), IndexWeightedSum(ys), a, b);
  }

  /** Σ (u*i + v)² for i in 0..n-1. */
  function LineSquares(n: nat, u: real, v: real): real {
    if n == 0 then 0.0 else LineSquares(n - 1, u, v) + (u * (n - 1) as real + v) * (u * (n - 1) as real + v)
  }

  lemma Square(t: real)
    ensures t * t >= 0.0
  {
  }

  lemma {:induction false} LineSquaresNonNegative(n: nat, u: real, v: real)
    ensures LineSquares(n, u, v) >= 0.0
  {
    if n > 0 {
      LineSquaresNonNegative(n - 1, u, v);
      Square(u * (n - 1) as real + v);
    }
  }

  /** How far `SquaredErrorShift`'s two sides are apart; zero, by `ShiftGapZero`. */
  function ShiftGap(ys: seq<real>, a: real, b: real, u: real, v: real): real {
    SquaredError(ys, a - u, b - v)
    - ShiftedError(SquaredError(ys, a, b), WeightedResiduals(ys, a, b), Residuals(ys, a, b), LineSquares(|ys|, u, v), u, v)
  }

  /** e + 2(u*w + v*r) + q: the squared error e of a line, moved by (u, v), given its residual sums w and r and q = Σ (u*i + v)². */
  function ShiftedError(e: real, w: real, r: real, q: real, u: real, v: real): real {
    e + 2.0 * (u * w + v * r) + q
  }

  lemma {:induction false} ShiftGapZero(ys: seq<real>, a: real, b: real, u: real, v: real)
    ensures ShiftGap(ys, a, b, u, v) == 0.0
    decreases |ys|
  {
    if ys != [] {
      ShiftGapZero(ys[..|ys| - 1], a, b, u, v);
      ShiftGapStep(ys, a, b, u, v);
    }
  }

  lemma ShiftGapStep(ys: seq<real>, a: real, b: real, u: real, v: real)
    requires ys != []
    ensures ShiftGap(ys, a, b, u, v) == ShiftGap(ys[..|ys| - 1], a, b, u, v)
  {
    var init, k := ys[..|ys| - 1], (|ys| - 1) as real;
    var r := ys[|ys| - 1] - (a * k + b);
    var t := u * k + v;
    assert ys[|ys| - 1] - ((a - u) * k + (b - v)) == r + t;
    ShiftAlgebra(SquaredError(ys, a - u, b - v), SquaredError(init, a - u, b - v),
                 SquaredError(ys, a, b), SquaredError(init, a, b),
                 WeightedResiduals(ys, a, b), WeightedResiduals(init, a, b),
                 Residuals(ys, a, b), Residuals(init, a, b),
                 LineSquares(|ys|, u, v), LineSquares(|init|, u, v), r, t, u, v, k);
  }

  lemma ShiftAlgebra(e1: real, e10: real, e: real, e0: real, w: real, w0: real, rs: real, rs0: real,
                     q: real, q0: real, r: real, t: real, u: real, v: real, k: real)
    requires e1 == e10 + (r + t) * (r + t) && e == e0 + r * r
    requires w == w0 + k * r && rs == rs0 + r && q == q0 + t * t && t == u * k + v
    ensures e1 - ShiftedError(e, w, rs, q, u, v) == e10 - ShiftedError(e0, w0, rs0, q0, u, v)
  {
  }

  /** Moving the line by (u, v) adds the cross terms with the residuals and a square. */
  lemma SquaredErrorShift(ys: seq<real>, a: real, b: real, u: real, v: real)
    ensures SquaredError(ys, a - u, b - v)
         == ShiftedError(SquaredError(ys, a, b), WeightedResiduals(ys, a, b), Residuals(ys, a, b), LineSquares(|ys|, u, v), u, v)
  {
    ShiftGapZero(ys, a, b, u, v);
  }

  /** The fitted line has the least squared error of all lines: it is the least-squares fit. */
  lemma LeastSquaresMinimal(ys: seq<real>, a': real, b': real)
    requires |ys| >= 2
    ensures SquaredError(ys, LeastSquares(ys).0, LeastSquares(ys).1) <= SquaredError(ys, a', b')
  {
    var (a, b) := LeastSquares(ys);
    LeastSquaresNormalEquations(ys);
    SquaredErrorShift(ys, a, b, a - a', b - b');
    LineSquaresNonNegative(|ys|, a - a', b - b');
    assert a - (a - a') == a' && b - (b - b') == b';
    ShiftFromSolution(SquaredError(ys, a, b), WeightedResiduals(ys, a, b), Residuals(ys, a, b),
                      LineSquares(|ys|, a - a', b - b'), a - a', b - b');
  }

  /** Moving a line whose residual sums vanish never lowers its squared error. */
  lemma ShiftFromSolution(e: real, w: real, r: real, q: real, u: real, v: real)
    requires w == 0.0 && r == 0.0 && q >= 0.0
    ensures e <= ShiftedError(e, w, r, q, u, v)
  {
  }

  /** Points lying exactly on a line have zero residual sums against it. */
  lemma {:induction false} ExactLineResiduals(ys: seq<real>, a: real, b: real)
    requires forall i :: 0 <= i < |ys| ==> ys[i] == a * i as real + b
    ensures Residuals(ys, a, b) == 0.0 && WeightedResiduals(ys, a, b) == 0.0
    decreases |ys|
  {
    if ys != [] {
      ExactLineResiduals(ys[..|ys| - 1], a, b);
    }
  }

  /** On points lying exactly on a line, the fit recovers that line. */
  lemma LeastSquaresOfLine(ys: seq<real>, a: real, b: real)
    requires |ys| >= 2
    requires forall i :: 0 <= i < |ys| ==> ys[i] == a * i as real + b
    ensures LeastSquares(ys) == (a, b)
  {
    ExactLineResiduals(ys, a, b);
    NormalEquationsUnique(ys, a, b);
  }

  lemma {:induction false} SquaredDeviationNonNegative(ys: seq<real>, m: real)
    ensures SquaredDeviation(ys, m) >= 0.0
    decreases |ys|
  {
    if ys != [] {
      SquaredDeviationNonNegative(ys[..|ys| - 1], m);
      Square(ys[|ys| - 1] - m);
    }
  }

  lemma {:induction false} SquaredDeviationAt(ys: seq<real>, c: real)
    requires forall i :: 0 <= i < |ys| ==> ys[i] == c
    ensures SquaredDeviation(ys, c) == 0.0
    decreases |ys|
  {
    if ys != [] {
      SquaredDeviationAt(ys[..|ys| - 1], c);
    }
  }

  /** The variance is never negative, and it is zero on a constant series. */
  lemma PopulationVarianceNonNegative(ys: seq<real>)
    requires |ys| > 0
    ensures PopulationVariance(ys) >= 0.0
    ensures (forall i :: 0 <= i < |ys| ==> ys[i] == ys[0]) ==> PopulationVariance(ys) == 0.0
  {
    SquaredDeviationNonNegative(ys, Mean(ys));
    if forall i :: 0 <= i < |ys| ==> ys[i] == ys[0] {
      MeanBounds(ys, ys[0], ys[0]);
      SquaredDeviationAt(ys, ys[0]);
    }
  }

  // ----- missing values, buckets and weeks -----

  /** `dropna()` keeps exactly the present values; on a series with no gaps it keeps them all, in place. */
  lemma {:induction false} PresentSpec(vs: seq<Option<real>>)
    ensures forall x :: x in Present(vs) <==> Some(x) in vs
    ensures (forall i :: 0 <= i < |vs| ==> vs[i].Some?) ==>
      |Present(vs)| == |vs| && forall i :: 0 <= i < |vs| ==> Present(vs)[i] == vs[i].value
    decreases |vs|
  {
    if vs != [] {
      var init := vs[..|vs| - 1];
      PresentSpec(init);
      assert vs == init + [vs[|vs| - 1]];
    }
  }

  /** Bounds on the present values hold for what `dropna()` keeps. */
  lemma {:induction false} PresentBounds(vs: seq<Option<real>>, lo: real, hi: real)
    requires forall i :: 0 <= i < |vs| && vs[i].Some? ==> lo <= vs[i].value <= hi
    ensures forall j :: 0 <= j < |Present(vs)| ==> lo <= Present(vs)[j] <= hi
    decreases |vs|
  {
    if vs != [] {
      var init := vs[..|vs| - 1];
      PresentBounds(init, lo, hi);
    }
  }

  /** pandas `max()` is missing exactly when no value is present, and otherwise is the largest present value. */
  lemma {:induction false} MaxPresentSpec(vs: seq<Option<real>>)
    ensures MaxPresent(vs).None? <==> Present(vs) == []
    ensures MaxPresent(vs).Some? ==>
      MaxPresent(vs).value in Present(vs) && forall x :: x in Present(vs) ==> x <= MaxPresent(vs).value
    decreases |vs|
  {
    if vs != [] {
      MaxPresentSpec(vs[..|vs| - 1]);
    }
  }

  /** A bucket's values are those of the points that fall in it; the bucket holds a point exactly when it has values. */
  lemma ValuesInSpec(ps: seq<Point>, bucket: int -> int, k: int)
    ensures HasBucket(ps, bucket, k) <==> ValuesIn(ps, bucket, k) != []
    ensures forall v :: v in ValuesIn(ps, bucket, k) <==> exists i :: 0 <= i < |ps| && bucket(ps[i].0) == k && ps[i].1 == v
  {
    var vs := ValuesIn(ps, bucket, k);
    ValuesInMembers(ps, bucket, k);
    if HasBucket(ps, bucket, k) {
      var i :| 0 <= i < |ps| && bucket(ps[i].0) == k;
      assert ps[i].1 in vs;
    }
    if vs != [] {
      assert vs[0] in vs;
    }
  }

  lemma {:induction false} ValuesInMembers(ps: seq<Point>, bucket: int -> int, k: int)
    ensures forall v :: v in ValuesIn(ps, bucket, k) <==> exists i :: 0 <= i < |ps| && bucket(ps[i].0) == k && ps[i].1 == v
    decreases |ps|
  {
    if ps != [] {
      var init, last := ps[..|ps| - 1], ps[|ps| - 1];
      ValuesInMembers(init, bucket, k);
      assert forall i :: 0 <= i < |init| ==> init[i] == ps[i];
      assert ValuesIn(ps, bucket, k) == ValuesIn(init, bucket, k) + (if bucket(last.0) == k then [last.1] else []);
    }
  }

  /** Point `p` carries the reduction of bucket `p.0`, and that bucket is kept. */
  predicate BucketValueOk(ps: seq<Point>, bucket: int -> int, red: Reducer, keepEmpty: bool, p: Point) {
    p.1 == Reduce(red, ValuesIn(ps, bucket, p.0)) && (keepEmpty || HasBucket(ps, bucket, p.0))
  }

  /** Each bucket point carries the reduction of the values in its bucket, and is listed only if kept. */
  lemma {:induction false} BucketsValues(ps: seq<Point>, bucket: int -> int, lo: int, hi: int, red: Reducer, keepEmpty: bool)
    ensures forall i :: 0 <= i < |Buckets(ps, bucket, lo, hi, red, keepEmpty)| ==>
      BucketValueOk(ps, bucket, red, keepEmpty, Buckets(ps, bucket, lo, hi, red, keepEmpty)[i])
    decreases hi - lo
  {
    if lo <= hi {
      BucketsValues(ps, bucket, lo + 1, hi, red, keepEmpty);
      var rest := Buckets(ps, bucket, lo + 1, hi, red, keepEmpty);
      var here := if keepEmpty || HasBucket(ps, bucket, lo) then [(lo, Reduce(red, ValuesIn(ps, bucket, lo)))] else [];
      var r := Buckets(ps, bucket, lo, hi, red, keepEmpty);
      assert r == here + rest;
      forall i | 0 <= i < |r|
        ensures BucketValueOk(ps, bucket, red, keepEmpty, r[i])
      {
        if i >= |here| {
          assert r[i] == rest[i - |here|];
        }
      }
    }
  }

  /** Every bucket of the span that is kept is listed. */
  lemma {:induction false} BucketsComplete(ps: seq<Point>, bucket: int -> int, lo: int, hi: int, red: Reducer, keepEmpty: bool, k: int)
    requires lo <= k <= hi && (keepEmpty || HasBucket(ps, bucket, k))
    ensures exists i :: 0 <= i < |Buckets(ps, bucket, lo, hi, red, keepEmpty)| && Buckets(ps, bucket, lo, hi, red, keepEmpty)[i].0 == k
    decreases hi - lo
  {
    var r := Buckets(ps, bucket, lo, hi, red, keepEmpty);
    if k == lo {
      assert r[0].0 == k;
    } else {
      BucketsComplete(ps, bucket, lo + 1, hi, red, keepEmpty, k);
      var rest := Buckets(ps, bucket, lo + 1, hi, red, keepEmpty);
      var i :| 0 <= i < |rest| && rest[i].0 == k;
      assert r[|r| - |rest| + i] == rest[i];
    }
  }

  /** `groupby('Date')` lists each day that holds a point, once, in increasing order, with its group reduced. */
  lemma GroupByDaySpec(ps: seq<Point>, red: Reducer)
    ensures var r := GroupByDay(ps, red);
      && (forall i, j :: 0 <= i < j < |r| ==> r[i].0 < r[j].0)
      && (forall i :: 0 <= i < |r| ==> r[i].1 == Reduce(red, ValuesIn(ps, Day, r[i].0)))
      && (forall d :: d in Keys(r) <==> d in Keys(ps))
  {
    var r := GroupByDay(ps, red);
    if ps != [] {
      BucketsValues(ps, Day, MinKey(ps), MaxKey(ps), red, false);
      forall d ensures d in Keys(r) <==> d in Keys(ps) {
        if d in Keys(ps) {
          var j :| 0 <= j < |ps| && Keys(ps)[j] == d;
          assert Day(ps[j].0) == d;
          BucketsComplete(ps, Day, MinKey(ps), MaxKey(ps), red, false, d);
          var i :| 0 <= i < |r| && r[i].0 == d;
          assert Keys(r)[i] == d;
        }
        if d in Keys(r) {
          var i :| 0 <= i < |r| && Keys(r)[i] == d;
          assert HasBucket(ps, Day, d);
          var j :| 0 <= j < |ps| && Day(ps[j].0) == d;
          assert Keys(ps)[j] == d;
        }
      }
    }
  }

  /** `resample('W')` lists every week from the first point's to the last point's, in order, each reduced. */
  lemma ResampleWeeklySpec(ps: seq<Point>, red: Reducer)
    requires ps != []
    ensures var r := ResampleWeekly(ps, red);
      && |r| == WeekOf(MaxKey(ps)) - WeekOf(MinKey(ps)) + 1
      && (forall i :: 0 <= i < |r| ==> r[i].0 == WeekOf(MinKey(ps)) + i)
      && (forall i :: 0 <= i < |r| ==> r[i].1 == Reduce(red, ValuesIn(ps, WeekOf, r[i].0)))
  {
    WeekOfMonotone(MinKey(ps), MaxKey(ps));
    BucketsValues(ps, WeekOf, WeekOf(MinKey(ps)), WeekOf(MaxKey(ps)), red, true);
    assert ResampleWeekly(ps, red) == Buckets(ps, WeekOf, WeekOf(MinKey(ps)), WeekOf(MaxKey(ps)), red, true);
  }

  /** Each week that holds a point has its reduced entry in the resampled series, at its offset from the first week. */
  lemma ResampleWeeklyHasWeek(ps: seq<Point>, red: Reducer, w: int)
    requires ps != [] && HasBucket(ps, WeekOf, w)
    ensures var r := ResampleWeekly(ps, red);
      var j := w - WeekOf(MinKey(ps));
      0 <= j < |r| && r[j] == (w, Reduce(red, ValuesIn(ps, WeekOf, w)))
  {
    var i :| 0 <= i < |ps| && WeekOf(ps[i].0) == w;
    WeekOfMonotone(MinKey(ps), ps[i].0);
    WeekOfMonotone(ps[i].0, MaxKey(ps));
    ResampleWeeklySpec(ps, red);
  }

  /** The last entry of the resampled series is the week of the latest point, and that week holds a point. */
  lemma ResampleWeeklyLast(ps: seq<Point>, red: Reducer)
    requires ps != []
    ensures var r := ResampleWeekly(ps, red);
      var hi := WeekOf(MaxKey(ps));
      && HasBucket(ps, WeekOf, hi)
      && r != [] && r[|r| - 1] == (hi, Reduce(red, ValuesIn(ps, WeekOf, hi)))
  {
    var hi := WeekOf(MaxKey(ps));
    var j :| 0 <= j < |ps| && ps[j].0 == MaxKey(ps);
    assert WeekOf(ps[j].0) == hi;
    ResampleWeeklyHasWeek(ps, red, hi);
    ResampleWeeklyLength(ps, red);
  }

  lemma ResampleWeeklyLength(ps: seq<Point>, red: Reducer)
    requires ps != []
    ensures |ResampleWeekly(ps, red)| == WeekOf(MaxKey(ps)) - WeekOf(MinKey(ps)) + 1
  {
    WeekOfMonotone(MinKey(ps), MaxKey(ps));
  }

  /** Over present values, a bucket's maximum is present exactly when the bucket holds a point. */
  lemma MaxOfBucket(ps: seq<Point>, bucket: int -> int, k: int)
    requires forall i :: 0 <= i < |ps| ==> ps[i].1.Some?
    ensures Reduce(MaxOf, ValuesIn(ps, bucket, k)).Some? <==> HasBucket(ps, bucket, k)
  {
    var vs := ValuesIn(ps, bucket, k);
    ValuesInSpec(ps, bucket, k);
    MaxPresentSpec(vs);
    PresentEmpty(vs);
    if vs != [] {
      assert vs[0] in vs;
      var i :| 0 <= i < |ps| && bucket(ps[i].0) == k && ps[i].1 == vs[0];
    }
  }

  lemma {:induction false} PresentEmpty(vs: seq<Option<real>>)
    ensures Present(vs) == [] <==> forall i :: 0 <= i < |vs| ==> vs[i].None?
    decreases |vs|
  {
    if vs != [] {
      PresentEmpty(vs[..|vs| - 1]);
      assert forall i :: 0 <= i < |vs| - 1 ==> vs[..|vs| - 1][i] == vs[i];
    }
  }

  /** A sum reduction is never missing. */
  lemma SumOfPresent(ps: seq<Point>, bucket: int -> int, lo: int, hi: int, keepEmpty: bool)
    ensures var r := Buckets(ps, bucket, lo, hi, SumOf, keepEmpty);
      forall i :: 0 <= i < |r| ==> r[i].1.Some?
  {
    BucketsValues(ps, bucket, lo, hi, SumOf, keepEmpty);
  }

  /** Week `w`'s Sunday falls in week `w`. */
  lemma WeekOfEndDay(w: int)
    ensures WeekOf(WeekEndDay(w)) == w
  {
  }

  /** Day `d` lies in the Monday-to-Sunday week that its label's Sunday closes. */
  lemma WeekContainsDay(d: int)
    ensures WeekEndDay(WeekOf(d)) - 6 <= d <= WeekEndDay(WeekOf(d))
  {
  }

  lemma WeekOfMonotone(d1: int, d2: int)
    requires d1 <= d2
    ensures WeekOf(d1) <= WeekOf(d2)
  {
  }
}
