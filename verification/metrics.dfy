/**
 * The per-exercise alert rules and the table summaries: the plateau and
 * volume-drop alerts, the headline metrics of a filtered table and the
 * per-(exercise, muscle group) statistics behind the shortcut grid.
 */
module Metrics {
  import opened Wrappers
  import opened Text
  import opened Collections
  import opened Series
  import opened Data
  import opened Forecasting

  const PlateauMessage: string := "Possível platô em 1RM. Considere deload, trocar variação ou ajustar volume/intensidade."

  const VolumeMessage: string := "Volume recente caiu >20% vs. semanas anteriores. Verifique recuperação/sono/estresse."

  lemma MessagesDiffer()
    ensures PlateauMessage != VolumeMessage
  {
  }

  /** The `(Date, Estimated_1RM)` column pair. */
  function OneRmPoints(rows: seq<WorkoutSet>): (ps: seq<Point>)
    ensures |ps| == |rows| && forall i :: 0 <= i < |rows| ==> ps[i] == (rows[i].day, rows[i].oneRepMax)
  {
    seq(|rows|, i requires 0 <= i < |rows| => (rows[i].day, rows[i].oneRepMax))
  }

  /** The `(Date, Volume)` column pair. */
  function VolumePoints(rows: seq<WorkoutSet>): (ps: seq<Point>)
    ensures |ps| == |rows| && forall i :: 0 <= i < |rows| ==> ps[i] == (rows[i].day, rows[i].volume)
  {
    seq(|rows|, i requires 0 <= i < |rows| => (rows[i].day, rows[i].volume))
  }

  /** `groupby('Date')['Estimated_1RM'].max().sort_index()`. */
  function DailyMaxOneRm(rows: seq<WorkoutSet>): seq<Point> {
    GroupByDay(OneRmPoints(rows), MaxOf)
  }

  /** `groupby('Date')['Volume'].sum().resample('W').sum()`: every week of the span, empty weeks summing to 0. */
  function WeeklyVolume(rows: seq<WorkoutSet>): seq<Point> {
    ResampleWeekly(GroupByDay(VolumePoints(rows), SumOf), SumOf)
  }

  /** pandas `mean()`: the mean of the present values, missing when none is present. */
  function MeanSkipNa(vs: seq<Option<real>>): (m: Option<real>)
    ensures m.None? <==> Present(vs) == []
  {
    if Present(vs) == [] then None else Some(Mean(Present(vs)))
  }

  /** The plateau rule: some day holds a row, and the weekly maxima of the daily maxima test as a plateau. */
  predicate PlateauAlert(rows: seq<WorkoutSet>) {
    DailyMaxOneRm(rows) != [] && DetectPlateau(WeeklyMax(DailyMaxOneRm(rows)), 8, 0.01)
  }

  /**
   * The volume-drop rule on a weekly series: with at least four present
   * values, the mean of the last two weeks is below 80% of the mean of the two
   * weeks before, and that earlier mean is positive. A missing mean compares
   * false, as NaN does.
   */
  predicate VolumeDrop(volw: seq<Point>) {
    && |DropMissing(volw)| >= 4
    && var n := |volw|;
    && var recent := MeanSkipNa(Values(volw[n - 2..]));
    && var prev := MeanSkipNa(Values(volw[n - 4..n - 2]));
    && prev.Some? && recent.Some? && prev.value > 0.0 && recent.value < 0.8 * prev.value
  }

  predicate VolumeAlert(rows: seq<WorkoutSet>) {
    VolumeDrop(WeeklyVolume(rows))
  }

  /** The alert list: the plateau message, then the volume message, each when its rule fires. */
  function Alerts(rows: seq<WorkoutSet>): seq<string> {
    AlertList(PlateauAlert(rows), VolumeAlert(rows))
  }

  function AlertList(plateau: bool, drop: bool): seq<string> {
    (if plateau then [PlateauMessage] else []) + (if drop then [VolumeMessage] else [])
  }

  /** `generate_alerts`: appends each message whose rule fires, plateau first. */
  method GenerateAlerts(rows: seq<WorkoutSet>) returns (alerts: seq<string>)
    ensures alerts == Alerts(rows)
  {
    var plateau := CheckPlateau(rows);
    var drop := CheckVolumeDrop(rows);
    alerts := AppendAlerts(plateau, drop);
  }

  /** The appends of `generate_alerts`: the plateau message first, then the volume message, each if its rule fired. */
  method AppendAlerts(plateau: bool, drop: bool) returns (alerts: seq<string>)
    ensures alerts == AlertList(plateau, drop)
  {
    alerts := [];
    if plateau {
      alerts := alerts + [PlateauMessage];
    }
    if drop {
      alerts := alerts + [VolumeMessage];
    }
  }

  /** The plateau block of `generate_alerts`: daily maxima, then the plateau test on their weekly maxima. */
  method CheckPlateau(rows: seq<WorkoutSet>) returns (fires: bool)
    ensures fires <==> PlateauAlert(rows)
  {
    fires := false;
    var m1 := DailyMaxOneRm(rows);
    if m1 != [] {
      fires := DetectPlateau(WeeklyMax(m1), 8, 0.01);
    }
  }

  /** The volume block of `generate_alerts`: weekly volume, then the two two-week means. */
  method CheckVolumeDrop(rows: seq<WorkoutSet>) returns (fires: bool)
    ensures fires <==> VolumeAlert(rows)
  {
    fires := false;
    var volw := WeeklyVolume(rows);
    if |DropMissing(volw)| >= 4 {
      var recent := MeanSkipNa(Values(volw[|volw| - 2..]));
      var prev := MeanSkipNa(Values(volw[|volw| - 4..|volw| - 2]));
      fires := prev.Some? && recent.Some? && prev.value > 0.0 && recent.value < 0.8 * prev.value;
    }
  }

  // ----- summaries -----

  function Days(rows: seq<WorkoutSet>): (ds: seq<int>)
    ensures |ds| == |rows| && forall i :: 0 <= i < |rows| ==> ds[i] == rows[i].day
  {
    seq(|rows|, i requires 0 <= i < |rows| => rows[i].day)
  }

  function Exercises(rows: seq<WorkoutSet>): (es: seq<string>)
    ensures |es| == |rows| && forall i :: 0 <= i < |rows| ==> es[i] == rows[i].exercise
  {
    seq(|rows|, i requires 0 <= i < |rows| => rows[i].exercise)
  }

  function Volumes(rows: seq<WorkoutSet>): (vs: seq<Option<real>>)
    ensures |vs| == |rows| && forall i :: 0 <= i < |rows| ==> vs[i] == rows[i].volume
  {
    seq(|rows|, i requires 0 <= i < |rows| => rows[i].volume)
  }

  function OneRms(rows: seq<WorkoutSet>): (vs: seq<Option<real>>)
    ensures |vs| == |rows| && forall i :: 0 <= i < |rows| ==> vs[i] == rows[i].oneRepMax
  {
    seq(|rows|, i requires 0 <= i < |rows| => rows[i].oneRepMax)
  }

  /** The four headline numbers of a filtered table. */
  datatype BasicMetrics = BasicMetrics(trainingDays: nat, distinctExercises: nat, totalSets: nat, meanVolume: real)

  /**
   * `calculate_basic_metrics`: distinct dates, distinct exercises, the row
   * count, and the mean of the present volumes — 0 for an empty table or one
   * whose volumes are all missing.
   */
  function CalculateBasicMetrics(rows: seq<WorkoutSet>): BasicMetrics {
    var vs := Present(Volumes(rows));
    BasicMetrics(
      |Distinct(Days(rows))|,
      |Distinct(Exercises(rows))|,
      |rows|,
      if rows == [] || vs == [] then 0.0 else Mean(vs))
  }

  /** `Exercise` and `MuscleGroup` of a row: the key of its statistics row. */
  function PairOf(r: WorkoutSet): (string, string) {
    (r.exercise, r.group)
  }

  function Pairs(rows: seq<WorkoutSet>): (ps: seq<(string, string)>)
    ensures |ps| == |rows| && forall i :: 0 <= i < |rows| ==> ps[i] == PairOf(rows[i])
  {
    seq(|rows|, i requires 0 <= i < |rows| => PairOf(rows[i]))
  }

  /** `groupby`'s key order: by exercise name, then by muscle group, each by code point. */
  function PairLe(p: (string, string), q: (string, string)): bool {
    if p.0 != q.0 then StrLe(p.0, q.0) else StrLe(p.1, q.1)
  }

  /** The rows of one (exercise, muscle group) group, in table order. */
  function GroupRows(rows: seq<WorkoutSet>, key: (string, string)): seq<WorkoutSet> {
    Filter(rows, (r: WorkoutSet) => PairOf(r) == key)
  }

  /** The group keys, each once, in `groupby` order. */
  function StatKeys(rows: seq<WorkoutSet>): (keys: seq<(string, string)>)
    ensures multiset(keys) == multiset(Distinct(Pairs(rows)))
    ensures Sorted(keys, PairLe)
  {
    PairOrderTotal();
    Sort(Distinct(Pairs(rows)), PairLe)
  }

  /** One row of the statistics table. */
  datatype ExerciseStat = ExerciseStat(exercise: string, group: string, sessions: nat, volume: real, oneRm: Option<real>)

  /** `Sessoes` (distinct dates), `Volume` (sum) and `OneRM` (max) of one group. */
  function StatOf(rows: seq<WorkoutSet>, key: (string, string)): ExerciseStat {
    var g := GroupRows(rows, key);
    ExerciseStat(key.0, key.1, |Distinct(Days(g))|, SumPresent(Volumes(g)), MaxPresent(OneRms(g)))
  }

  /** `calculate_exercise_stats`: one statistics row per group, in key order. */
  function CalculateExerciseStats(rows: seq<WorkoutSet>): (stats: seq<ExerciseStat>)
    ensures |stats| == |StatKeys(rows)|
  {
    var keys := StatKeys(rows);
    seq(|keys|, i requires 0 <= i < |keys| => StatOf(rows, keys[i]))
  }

  // ----- lemmas: the alerts -----

  /** At most two alerts; each message is there exactly when its rule fires; the plateau message comes first. */
  lemma AlertsSpec(rows: seq<WorkoutSet>)
    ensures |Alerts(rows)| <= 2
    ensures PlateauMessage in Alerts(rows) <==> PlateauAlert(rows)
    ensures VolumeMessage in Alerts(rows) <==> VolumeAlert(rows)
    ensures |Alerts(rows)| == 2 ==> Alerts(rows)[0] == PlateauMessage && Alerts(rows)[1] == VolumeMessage
  {
    AlertListSpec(PlateauAlert(rows), VolumeAlert(rows));
  }

  lemma AlertListSpec(plateau: bool, drop: bool)
    ensures |AlertList(plateau, drop)| <= 2
    ensures PlateauMessage in AlertList(plateau, drop) <==> plateau
    ensures VolumeMessage in AlertList(plateau, drop) <==> drop
    ensures |AlertList(plateau, drop)| == 2 ==> AlertList(plateau, drop)[0] == PlateauMessage && AlertList(plateau, drop)[1] == VolumeMessage
  {
    MessagesDiffer();
  }

  /** The plateau rule needs at least eight weeks that hold a 1RM estimate (`lookback_points = 8`). */
  lemma PlateauAlertNeedsEightWeeks(rows: seq<WorkoutSet>)
    requires |WeeklyMax(DailyMaxOneRm(rows))| < 8
    ensures !PlateauAlert(rows)
  {
    var w := WeeklyMax(DailyMaxOneRm(rows));
    var sorted := ByDay(DropMissing(w));
    assert |sorted| == |multiset(sorted)| == |multiset(DropMissing(w))| == |DropMissing(w)|;
    PlateauNeedsHistory(PlateauValues(w), 8, 0.01);
  }

  /** The volume rule needs the training days to span at least four weeks. */
  lemma VolumeAlertNeedsFourWeeks(rows: seq<WorkoutSet>)
    requires var daily := GroupByDay(VolumePoints(rows), SumOf);
      daily == [] || WeekOf(MaxKey(daily)) - WeekOf(MinKey(daily)) < 3
    ensures !VolumeAlert(rows)
  {
    WeeklyVolumeComplete(rows);
  }

  /** An empty table raises no alert. */
  lemma NoAlertsForEmptyTable(rows: seq<WorkoutSet>)
    requires rows == []
    ensures Alerts(rows) == []
  {
    GroupByDayNonEmpty(OneRmPoints(rows), MaxOf);
    GroupByDayNonEmpty(VolumePoints(rows), SumOf);
    VolumeAlertNeedsFourWeeks(rows);
  }

  // ----- lemmas: the volume rule -----

  lemma {:induction false} DropMissingAllPresent(ps: seq<Point>)
    requires forall i :: 0 <= i < |ps| ==> ps[i].1.Some?
    ensures DropMissing(ps) == ps
    decreases |ps|
  {
    if ps != [] {
      var init, last := ps[..|ps| - 1], ps[|ps| - 1];
      assert ps == init + [last];
      DropMissingAllPresent(init);
      DropMissingPresentLast(init, last);
    }
  }

  lemma DropMissingPresentLast(init: seq<Point>, p: Point)
    requires p.1.Some?
    ensures DropMissing(init + [p]) == DropMissing(init) + [p]
  {
    assert (init + [p])[..|init|] == init;
  }

  /** Some day holds a row exactly when the table has a row. */
  lemma GroupByDayNonEmpty(ps: seq<Point>, red: Reducer)
    ensures GroupByDay(ps, red) == [] <==> ps == []
  {
    if ps != [] {
      assert Day(ps[0].0) == ps[0].0;
      BucketsComplete(ps, Day, MinKey(ps), MaxKey(ps), red, false, ps[0].0);
    }
  }

  /**
   * The weekly volume has a value for every week from the first training day's
   * to the last one's: a week without training sums to 0 rather than being
   * dropped, so `dropna()` removes nothing.
   */
  lemma WeeklyVolumeComplete(rows: seq<WorkoutSet>)
    ensures var daily := GroupByDay(VolumePoints(rows), SumOf);
      var volw := WeeklyVolume(rows);
      && (forall i :: 0 <= i < |volw| ==> volw[i].1.Some?)
      && DropMissing(volw) == volw
      && (rows == [] <==> volw == [])
      && (daily != [] ==> |volw| == WeekOf(MaxKey(daily)) - WeekOf(MinKey(daily)) + 1)
  {
    var daily := GroupByDay(VolumePoints(rows), SumOf);
    var volw := WeeklyVolume(rows);
    GroupByDayNonEmpty(VolumePoints(rows), SumOf);
    if daily != [] {
      ResampleWeeklySpec(daily, SumOf);
      SumOfPresent(daily, WeekOf, WeekOf(MinKey(daily)), WeekOf(MaxKey(daily)), true);
    }
    DropMissingAllPresent(volw);
  }

  /** A week of the span in which no training day falls has volume 0. */
  lemma WeeklyVolumeEmptyWeek(rows: seq<WorkoutSet>, i: nat)
    requires i < |WeeklyVolume(rows)|
    requires !HasBucket(GroupByDay(VolumePoints(rows), SumOf), WeekOf, WeeklyVolume(rows)[i].0)
    ensures WeeklyVolume(rows)[i].1 == Some(0.0)
  {
    var daily := GroupByDay(VolumePoints(rows), SumOf);
    ResampleWeeklySpec(daily, SumOf);
    ValuesInSpec(daily, WeekOf, WeeklyVolume(rows)[i].0);
  }

  /** The mean of two present values. */
  lemma MeanOfPair(a: Option<real>, b: Option<real>)
    requires a.Some? && b.Some?
    ensures MeanSkipNa([a, b]) == Some((a.value + b.value) / 2.0)
  {
    PresentOfPair(a, b);
    MeanPair(a.value, b.value);
  }

  lemma PresentOfPair(a: Option<real>, b: Option<real>)
    requires a.Some? && b.Some?
    ensures Present([a, b]) == [a.value, b.value]
  {
    var vs := [a, b];
    assert vs[..1] == [a] && vs[..1][..0] == [];
  }

  lemma MeanPair(x: real, y: real)
    ensures Mean([x, y]) == (x + y) / 2.0
  {
    var xs := [x, y];
    assert xs[..1] == [x] && xs[..1][..0] == [];
    assert Sum(xs[..1]) == x;
    assert Sum(xs) == x + y;
  }

  /**
   * On a fully present weekly series of four weeks or more, the rule compares
   * the plain averages of the last two weeks and of the two weeks before.
   */
  lemma VolumeDropOfPresent(volw: seq<Point>)
    requires |volw| >= 4 && forall i :: 0 <= i < |volw| ==> volw[i].1.Some?
    ensures var n := |volw|;
      var prev := (volw[n - 4].1.value + volw[n - 3].1.value) / 2.0;
      var recent := (volw[n - 2].1.value + volw[n - 1].1.value) / 2.0;
      VolumeDrop(volw) <==> prev > 0.0 && recent < 0.8 * prev
  {
    var n := |volw|;
    DropMissingAllPresent(volw);
    assert volw[n - 2..] == volw[n - 2..n];
    MeanOfWindow(volw, n - 2);
    MeanOfWindow(volw, n - 4);
  }

  /** The two-week mean starting at week `i` of a fully present series. */
  lemma MeanOfWindow(ps: seq<Point>, i: nat)
    requires i + 2 <= |ps| && ps[i].1.Some? && ps[i + 1].1.Some?
    ensures MeanSkipNa(Values(ps[i..i + 2])) == Some((ps[i].1.value + ps[i + 1].1.value) / 2.0)
  {
    assert Values(ps[i..i + 2]) == [ps[i].1, ps[i + 1].1];
    MeanOfPair(ps[i].1, ps[i + 1].1);
  }

  lemma ScaleSign(x: real, y: real)
    requires y > 0.0
    ensures x > 0.0 <==> x * y > 0.0
  {
    if x > 0.0 {
      ProductPositive(x, y);
    } else if x < 0.0 {
      ProductPositive(-x, y);
      assert x * y == -((-x) * y);
    }
  }

  /** With the last two weeks at `c` times the two before, the rule fires exactly when `c < 0.8`. */
  lemma VolumeDropRatio(volw: seq<Point>, c: real)
    requires |volw| >= 4 && forall i :: 0 <= i < |volw| ==> volw[i].1.Some?
    requires var n := |volw|;
      var prev := (volw[n - 4].1.value + volw[n - 3].1.value) / 2.0;
      var recent := (volw[n - 2].1.value + volw[n - 1].1.value) / 2.0;
      prev > 0.0 && recent == c * prev
    ensures VolumeDrop(volw) <==> c < 0.8
  {
    var n := |volw|;
    var prev := (volw[n - 4].1.value + volw[n - 3].1.value) / 2.0;
    var recent := (volw[n - 2].1.value + volw[n - 1].1.value) / 2.0;
    VolumeDropOfPresent(volw);
    RatioBelowThreshold(prev, recent, c);
  }

  /** For a positive level `prev`, `c * prev` is below 80% of it exactly when `c < 0.8`. */
  lemma RatioBelowThreshold(prev: real, recent: real, c: real)
    requires prev > 0.0 && recent == c * prev
    ensures recent < 0.8 * prev <==> c < 0.8
  {
    assert 0.8 * prev - recent == (0.8 - c) * prev;
    ScaleSign(0.8 - c, prev);
  }

  /** A drop to 79% of the earlier level fires; a drop to exactly 80% does not. */
  lemma VolumeDropAtThreshold()
    ensures VolumeDrop([(0, Some(100.0)), (1, Some(100.0)), (2, Some(79.0)), (3, Some(79.0))])
    ensures !VolumeDrop([(0, Some(100.0)), (1, Some(100.0)), (2, Some(80.0)), (3, Some(80.0))])
  {
    VolumeDropOfLevels(100.0, 79.0);
    VolumeDropOfLevels(100.0, 80.0);
  }

  /** Two weeks at `p` followed by two weeks at `r`, for a positive `p`: the rule fires exactly when `r < 0.8 * p`. */
  lemma VolumeDropOfLevels(p: real, r: real)
    requires p > 0.0
    ensures VolumeDrop([(0, Some(p)), (1, Some(p)), (2, Some(r)), (3, Some(r))]) <==> r < 0.8 * p
  {
    VolumeDropOfPresent([(0, Some(p)), (1, Some(p)), (2, Some(r)), (3, Some(r))]);
  }

  /** When the two earlier weeks hold no positive volume, the rule never fires, whatever came after. */
  lemma NoDropFromNothing(volw: seq<Point>)
    requires |volw| >= 4
    requires forall i :: |volw| - 4 <= i < |volw| - 2 && volw[i].1.Some? ==> volw[i].1.value <= 0.0
    ensures !VolumeDrop(volw)
  {
    var n := |volw|;
    var vs := Values(volw[n - 4..n - 2]);
    if Present(vs) != [] {
      var p := Present(vs);
      var x := vs[0].GetOr(0.0);
      var y := vs[1].GetOr(0.0);
      var lo := if x <= y then x else y;
      assert forall i :: 0 <= i < |vs| ==> vs[i] == volw[n - 4 + i].1;
      PresentBounds(vs, lo, 0.0);
      MeanBounds(p, lo, 0.0);
    }
  }

  // ----- lemmas: the summaries -----

  /**
   * The day and exercise counts are the sizes of the sets of dates and of
   * names, so neither exceeds the row count, and there are no days exactly when
   * there are no rows.
   */
  lemma BasicMetricsCounts(rows: seq<WorkoutSet>)
    ensures var m := CalculateBasicMetrics(rows);
      && m.totalSets == |rows|
      && m.trainingDays == |set d | d in Days(rows)|
      && m.distinctExercises == |set e | e in Exercises(rows)|
      && m.trainingDays <= m.totalSets && m.distinctExercises <= m.totalSets
      && (m.trainingDays == 0 <==> rows == [])
  {
    DistinctCardinality(Days(rows));
    DistinctCardinality(Exercises(rows));
    DistinctSpec(Days(rows));
    DistinctSpec(Exercises(rows));
    if rows != [] {
      assert Days(rows)[0] in Distinct(Days(rows));
    }
  }

  /** With every volume missing the mean volume is 0; otherwise it lies within any bounds of the present volumes. */
  lemma MeanVolumeBounds(rows: seq<WorkoutSet>, lo: real, hi: real)
    requires forall i :: 0 <= i < |rows| && rows[i].volume.Some? ==> lo <= rows[i].volume.value <= hi
    ensures (forall i :: 0 <= i < |rows| ==> rows[i].volume.None?) ==> CalculateBasicMetrics(rows).meanVolume == 0.0
    ensures (exists i :: 0 <= i < |rows| && rows[i].volume.Some?) ==> lo <= CalculateBasicMetrics(rows).meanVolume <= hi
  {
    var vs := Volumes(rows);
    var p := Present(vs);
    PresentEmpty(vs);
    if p != [] {
      PresentBounds(vs, lo, hi);
      MeanBounds(p, lo, hi);
    }
  }

  lemma PairOrderTotal()
    ensures TotalPreorder(PairLe)
  {
    forall p: (string, string), q: (string, string)
      ensures PairLe(p, q) || PairLe(q, p)
    {
      StrLeTotal(p.0, q.0);
      StrLeTotal(p.1, q.1);
    }
    forall p: (string, string), q: (string, string), r: (string, string) | PairLe(p, q) && PairLe(q, r)
      ensures PairLe(p, r)
    {
      if p.0 != q.0 && q.0 != r.0 {
        StrLeTransitive(p.0, q.0, r.0);
        if p.0 == r.0 {
          StrLeAntisymmetric(p.0, q.0);
        }
      } else if p.0 == q.0 && q.0 == r.0 {
        StrLeTransitive(p.1, q.1, r.1);
      }
    }
  }

  /** Equal under the order both ways means the same key. */
  lemma PairLeAntisymmetric(p: (string, string), q: (string, string))
    requires PairLe(p, q) && PairLe(q, p)
    ensures p == q
  {
    if p.0 != q.0 {
      StrLeAntisymmetric(p.0, q.0);
    } else {
      StrLeAntisymmetric(p.1, q.1);
    }
  }

  /** The group keys are the table's pairs, each once. */
  lemma StatKeysSpec(rows: seq<WorkoutSet>)
    ensures NoDuplicates(StatKeys(rows))
    ensures forall k :: k in StatKeys(rows) <==> k in Pairs(rows)
  {
    var keys := StatKeys(rows);
    DistinctSpec(Pairs(rows));
    PermutationNoDuplicates(Distinct(Pairs(rows)), keys);
    PermutationMembers(Distinct(Pairs(rows)), keys);
  }

  /**
   * One statistics row per (exercise, muscle group) pair of the table: every
   * row's pair is listed, only such pairs are, each once, in strictly
   * increasing key order.
   */
  lemma ExerciseStatsKeys(rows: seq<WorkoutSet>)
    ensures var stats := CalculateExerciseStats(rows);
      && (forall i :: 0 <= i < |stats| ==> (stats[i].exercise, stats[i].group) in Pairs(rows))
      && (forall j :: 0 <= j < |rows| ==> PairOf(rows[j]) in StatKeys(rows))
      && (forall i, j :: 0 <= i < j < |stats| ==>
            PairLe((stats[i].exercise, stats[i].group), (stats[j].exercise, stats[j].group))
            && (stats[i].exercise, stats[i].group) != (stats[j].exercise, stats[j].group))
  {
    var keys := StatKeys(rows);
    var stats := CalculateExerciseStats(rows);
    StatKeysSpec(rows);
    assert forall i :: 0 <= i < |stats| ==> (stats[i].exercise, stats[i].group) == keys[i];
    forall j | 0 <= j < |rows|
      ensures PairOf(rows[j]) in keys
    {
      assert Pairs(rows)[j] == PairOf(rows[j]);
    }
  }

  /** The group of a key of the table is not empty and holds exactly the rows with that key. */
  lemma GroupRowsSpec(rows: seq<WorkoutSet>, key: (string, string))
    requires key in Pairs(rows)
    ensures GroupRows(rows, key) != []
    ensures forall r :: r in GroupRows(rows, key) <==> r in rows && PairOf(r) == key
  {
    FilterSpec(rows, (r: WorkoutSet) => PairOf(r) == key);
    var j :| 0 <= j < |rows| && Pairs(rows)[j] == key;
    assert rows[j] in GroupRows(rows, key);
  }

  /** `nunique()` of a non-empty column is between 1 and its length. */
  lemma DistinctDaysBounds(g: seq<WorkoutSet>)
    requires g != []
    ensures 1 <= |set d | d in Days(g)| <= |g|
  {
    DistinctCardinality(Days(g));
    DistinctSpec(Days(g));
    assert Days(g)[0] in Distinct(Days(g));
  }

  /** `max()` of the 1RM column: missing exactly when every estimate is, and otherwise the largest present one. */
  lemma MaxOneRmSpec(g: seq<WorkoutSet>)
    ensures MaxPresent(OneRms(g)).None? <==> forall k :: 0 <= k < |g| ==> g[k].oneRepMax.None?
    ensures MaxPresent(OneRms(g)).Some? ==>
      MaxPresent(OneRms(g)).value in Present(OneRms(g)) && forall x :: x in Present(OneRms(g)) ==> x <= MaxPresent(OneRms(g)).value
  {
    MaxPresentSpec(OneRms(g));
    PresentEmpty(OneRms(g));
  }

  /**
   * Each statistics row describes a non-empty group: `Sessoes` counts its
   * distinct dates, at least one and at most its row count; `Volume` sums its
   * present volumes; `OneRM` is missing exactly when no estimate is present and
   * is otherwise the largest one.
   */
  lemma ExerciseStatSpec(rows: seq<WorkoutSet>, i: nat)
    requires i < |CalculateExerciseStats(rows)|
    ensures var s := CalculateExerciseStats(rows)[i];
      var g := GroupRows(rows, (s.exercise, s.group));
      && g != []
      && (forall r :: r in g <==> r in rows && PairOf(r) == (s.exercise, s.group))
      && s.sessions == |set d | d in Days(g)|
      && 1 <= s.sessions <= |g|
      && s.volume == Sum(Present(Volumes(g)))
      && (s.oneRm.None? <==> forall k :: 0 <= k < |g| ==> g[k].oneRepMax.None?)
      && (s.oneRm.Some? ==> s.oneRm.value in Present(OneRms(g)) && forall x :: x in Present(OneRms(g)) ==> x <= s.oneRm.value)
  {
    var keys := StatKeys(rows);
    var key := keys[i];
    var s := CalculateExerciseStats(rows)[i];
    assert s == StatOf(rows, key);
    var g := GroupRows(rows, key);
    StatKeysSpec(rows);
    GroupRowsSpec(rows, key);
    DistinctCardinality(Days(g));
    DistinctDaysBounds(g);
    MaxOneRmSpec(g);
  }
}
