/**
 * The dashboard's own rules over the analytics: the derived columns, the
 * global date/routine filter, the exercise option list and its search and
 * first-letter filters, the stored selection that must stay among the
 * options, the comparison list, and the two top-12 shortcut lists.
 */
module App {
  import opened Wrappers
  import opened Text
  import opened Collections
  import opened Mappings
  import opened Data
  import opened Metrics

  /** Adds `Volume`, `Estimated_1RM` and `MuscleGroup` to every row, in place. */
  method DeriveColumns(table: array<WorkoutSet>)
    modifies table
    ensures forall i :: 0 <= i < table.Length ==>
      table[i] == old(table[i]).(
        volume := Volume(old(table[i]).weight, old(table[i]).reps),
        oneRepMax := EstimateOneRepMax(old(table[i]).weight, old(table[i]).reps),
        group := MapExerciseToGroup(Some(old(table[i]).exercise)))
  {
    CalculateVolume(table);
    forall i | 0 <= i < table.Length {
      table[i] := table[i].(
        oneRepMax := EstimateOneRepMax(table[i].weight, table[i].reps),
        group := MapExerciseToGroup(Some(table[i].exercise)));
    }
  }

  const AllRoutines: string := "Todas"

  const AllGroups: string := "Todos"

  const AllLetters: string := "Todos"

  const NonLetter: string := "#"

  /** The rows kept by the global filter: within the date range and, unless all routines are chosen, of that routine. */
  predicate InGlobalFilter(r: WorkoutSet, start: int, end: int, routine: string) {
    start <= r.day <= end && (routine == AllRoutines || r.routine == Some(routine))
  }

  /** The date-range filter, then the routine filter unless `Todas` is chosen. */
  function GlobalFilter(rows: seq<WorkoutSet>, start: int, end: int, routine: string): seq<WorkoutSet> {
    var inRange := Filter(rows, (r: WorkoutSet) => start <= r.day <= end);
    if routine != AllRoutines then Filter(inRange, (r: WorkoutSet) => r.routine == Some(routine)) else inRange
  }

  /** Code-point order on strings is a total preorder, so `sorted` applies. */
  lemma StrOrderTotal()
    ensures TotalPreorder(StrLe)
  {
    forall a: string, b: string
      ensures StrLe(a, b) || StrLe(b, a)
    {
      StrLeTotal(a, b);
    }
    forall a: string, b: string, c: string | StrLe(a, b) && StrLe(b, c)
      ensures StrLe(a, c)
    {
      StrLeTransitive(a, b, c);
    }
  }

  /** `sorted(...unique())`: each name once, in code-point order. */
  function SortedNames(names: seq<string>): (r: seq<string>)
    ensures multiset(r) == multiset(Distinct(names))
    ensures Sorted(r, StrLe)
  {
    StrOrderTotal();
    Sort(Distinct(names), StrLe)
  }

  /** A row of the chosen muscle group, `Todos` meaning any. */
  predicate InGroup(r: WorkoutSet, group: string) {
    group == AllGroups || r.group == group
  }

  /** The exercise names of the chosen muscle group (`Todos`: every group), sorted, each once. */
  function ExerciseOptions(rows: seq<WorkoutSet>, group: string): seq<string> {
    SortedNames(Exercises(GroupBase(rows, group)))
  }

  /** `filtered_df` for `Todos`, else its rows of the chosen group. */
  function GroupBase(rows: seq<WorkoutSet>, group: string): seq<WorkoutSet> {
    if group == AllGroups then rows else Filter(rows, (r: WorkoutSet) => r.group == group)
  }

  /** The search box: when the query is not blank, the names that contain it, ignoring case. */
  function SearchFilter(options: seq<string>, query: string): seq<string> {
    if Strip(query) != [] then Filter(options, (e: string) => Contains(Lower(e), Lower(query))) else options
  }

  /** A name kept by the starter choice: `#` for a non-letter first character, else that upper-cased first letter. */
  predicate StartsWith(e: string, starter: string) {
    e != [] && (if starter == NonLetter then !IsAlpha(e[0]) else [UpperChar(e[0])] == starter)
  }

  /** The `Começa com` selector: `Todos` keeps every name. */
  function StarterFilter(options: seq<string>, starter: string): seq<string> {
    if starter == AllLetters then options else Filter(options, (e: string) => StartsWith(e, starter))
  }

  /** The option list the radio shows: group options, then search, then first letter. */
  function FilteredOptions(rows: seq<WorkoutSet>, group: string, query: string, starter: string): seq<string> {
    StarterFilter(SearchFilter(ExerciseOptions(rows, group), query), starter)
  }

  /** The second radio's options: every option but the selected one, in the same order. */
  function ComparisonOptions(options: seq<string>, selected: string): seq<string> {
    Filter(options, (e: string) => e != selected)
  }

  /** The stored selection after the reset: dropped when it is no longer an option. */
  function ResetValue(primary: Option<string>, options: seq<string>): (r: Option<string>)
    ensures r.None? || r.value in options
    ensures r.Some? ==> r == primary
    ensures primary.Some? && primary.value in options ==> r == primary
  {
    if primary.Some? && primary.value !in options then None else primary
  }

  /** The part of the session state the exercise page keeps across reruns: the primary selection. */
  class Session {
    var primary: Option<string>

    constructor()
      ensures primary == None
    {
      primary := None;
    }

    /** A shortcut button or a group panel button stores its exercise. */
    method SetPrimary(ex: string)
      modifies this
      ensures primary == Some(ex)
    {
      primary := Some(ex);
    }

    /** The reset before the radio: delete a stored name that is not among the options. */
    method ResetPrimary(options: seq<string>)
      modifies this
      ensures primary == ResetValue(old(primary), options)
      ensures primary.None? || primary.value in options
    {
      if primary.Some? && primary.value !in options {
        primary := None;
      }
    }

    /**
     * The radio keyed by the stored selection: it shows the stored name when
     * there is one, else the first option, and stores what it shows. The page
     * returns before this when there are no options.
     */
    method ChoosePrimary(options: seq<string>) returns (selected: string)
      requires options != []
      modifies this
      ensures old(primary).Some? && old(primary).value in options ==> selected == old(primary).value
      ensures !(old(primary).Some? && old(primary).value in options) ==> selected == options[0]
      ensures selected in options && primary == Some(selected)
    {
      ResetPrimary(options);
      if primary.None? {
        primary := Some(options[0]);
      }
      selected := primary.value;
    }
  }

  // ----- the shortcut lists -----

  /** The three orderings the shortcut grid offers. */
  datatype ShortcutOrder = ByFrequency | ByVolume | ByOneRm

  /** The column a shortcut ordering sorts on. */
  function SortValue(s: ExerciseStat, order: ShortcutOrder): Option<real> {
    match order
    case ByFrequency => Some(s.sessions as real)
    case ByVolume => Some(s.volume)
    case ByOneRm => s.oneRm
  }

  /** `ascending=False` with missing values last. */
  predicate DescLe(a: Option<real>, b: Option<real>) {
    b.None? || (a.Some? && a.value >= b.value)
  }

  predicate ShortcutLe(order: ShortcutOrder, s: ExerciseStat, t: ExerciseStat) {
    DescLe(SortValue(s, order), SortValue(t, order))
  }

  lemma ShortcutOrderTotal(order: ShortcutOrder)
    ensures TotalPreorder((s, t) => ShortcutLe(order, s, t))
  {
  }

  /** `sort_values(..., ascending=False).head(12)` over the statistics rows. */
  function TopShortcuts(stats: seq<ExerciseStat>, order: ShortcutOrder): seq<ExerciseStat> {
    ShortcutOrderTotal(order);
    Head(Sort(stats, (s, t) => ShortcutLe(order, s, t)), 12)
  }

  /** `value_counts().head(12).index`: the group's names by descending row count. */
  function GroupPanelNames(rows: seq<WorkoutSet>, group: string): seq<string> {
    var names := Exercises(Filter(rows, (r: WorkoutSet) => r.group == group));
    CountOrderTotal(names);
    Head(Sort(Distinct(names), (a, b) => Count(names, a) >= Count(names, b)), 12)
  }

  lemma CountOrderTotal(names: seq<string>)
    ensures TotalPreorder((a: string, b: string) => Count(names, a) >= Count(names, b))
  {
  }

  // ----- lemmas -----

  /** The global filter keeps, in order, exactly the rows within the dates and of the routine. */
  lemma GlobalFilterSpec(rows: seq<WorkoutSet>, start: int, end: int, routine: string)
    ensures GlobalFilter(rows, start, end, routine) == Filter(rows, (r: WorkoutSet) => InGlobalFilter(r, start, end, routine))
    ensures Subsequence(GlobalFilter(rows, start, end, routine), rows)
    ensures forall r :: r in GlobalFilter(rows, start, end, routine) <==> r in rows && InGlobalFilter(r, start, end, routine)
  {
    var inDates := (r: WorkoutSet) => start <= r.day <= end;
    var ofRoutine := (r: WorkoutSet) => r.routine == Some(routine);
    var both := (r: WorkoutSet) => InGlobalFilter(r, start, end, routine);
    if routine != AllRoutines {
      FilterCompose(rows, inDates, ofRoutine, both);
    } else {
      FilterSame(rows, inDates, both);
    }
    FilterSpec(rows, both);
  }

  /** Filters on conditions that agree everywhere agree. */
  lemma {:induction false} FilterSame<T>(xs: seq<T>, p: T -> bool, q: T -> bool)
    requires forall x :: p(x) == q(x)
    ensures Filter(xs, p) == Filter(xs, q)
    decreases |xs|
  {
    if xs != [] {
      FilterSame(xs[1..], p, q);
    }
  }

  /** The group's rows: exactly those with the chosen group, or every row for `Todos`. */
  lemma GroupBaseSpec(rows: seq<WorkoutSet>, group: string)
    ensures forall r :: r in GroupBase(rows, group) <==> r in rows && InGroup(r, group)
  {
    FilterSpec(rows, (r: WorkoutSet) => r.group == group);
  }

  /**
   * The options are sorted in code-point order without repeats, and a name is
   * an option exactly when some row of the chosen group has it.
   */
  lemma ExerciseOptionsSpec(rows: seq<WorkoutSet>, group: string)
    ensures Sorted(ExerciseOptions(rows, group), StrLe)
    ensures NoDuplicates(ExerciseOptions(rows, group))
    ensures forall e :: e in ExerciseOptions(rows, group) <==> exists i :: 0 <= i < |rows| && rows[i].exercise == e && InGroup(rows[i], group)
  {
    var base := GroupBase(rows, group);
    var names := Exercises(base);
    var opts := ExerciseOptions(rows, group);
    DistinctSpec(names);
    PermutationNoDuplicates(Distinct(names), opts);
    PermutationMembers(Distinct(names), opts);
    GroupBaseSpec(rows, group);
    forall e
      ensures e in opts <==> exists i :: 0 <= i < |rows| && rows[i].exercise == e && InGroup(rows[i], group)
    {
      if e in names {
        var k :| 0 <= k < |names| && names[k] == e;
        assert base[k] in base;
        var i :| 0 <= i < |rows| && rows[i] == base[k];
      }
      if exists i :: 0 <= i < |rows| && rows[i].exercise == e && InGroup(rows[i], group) {
        var i :| 0 <= i < |rows| && rows[i].exercise == e && InGroup(rows[i], group);
        assert rows[i] in base;
        var k :| 0 <= k < |base| && base[k] == rows[i];
        assert names[k] == e;
      }
    }
  }

  /**
   * A blank query keeps the list; any other query keeps, in order, the names
   * that contain it once both are lower-cased. The query itself is not
   * stripped for the match.
   */
  lemma SearchFilterSpec(options: seq<string>, query: string)
    ensures Subsequence(SearchFilter(options, query), options)
    ensures Strip(query) == [] ==> SearchFilter(options, query) == options
    ensures Strip(query) != [] ==>
      forall e :: e in SearchFilter(options, query) <==> e in options && Contains(Lower(e), Lower(query))
  {
    FilterSpec(options, (e: string) => Contains(Lower(e), Lower(query)));
    if Strip(query) == [] {
      SubsequenceSelf(options);
    }
  }

  lemma {:induction false} SubsequenceSelf<T>(xs: seq<T>)
    ensures Subsequence(xs, xs)
    decreases |xs|
  {
    if xs != [] {
      SubsequenceSelf(xs[1..]);
    }
  }

  /** The search ignores the case of the query. */
  lemma SearchIgnoresCase(options: seq<string>, query: string)
    ensures SearchFilter(options, Lower(query)) == SearchFilter(options, query)
  {
    StripLower(query);
    LowerIdempotent(query);
    assert Strip(Lower(query)) == [] <==> Strip(query) == [];
    FilterSame(options, (e: string) => Contains(Lower(e), Lower(Lower(query))), (e: string) => Contains(Lower(e), Lower(query)));
  }

  /**
   * The starter filter keeps, in order, the names with a non-letter first
   * character for `#`, and for a letter the names whose first character
   * upper-cases to it; empty names never pass.
   */
  lemma StarterFilterSpec(options: seq<string>, starter: string)
    ensures Subsequence(StarterFilter(options, starter), options)
    ensures starter == AllLetters ==> StarterFilter(options, starter) == options
    ensures starter != AllLetters && starter == NonLetter ==>
      forall e :: e in StarterFilter(options, starter) <==> e in options && e != [] && !IsAlpha(e[0])
    ensures starter != AllLetters && starter != NonLetter ==>
      forall e :: e in StarterFilter(options, starter) <==> e in options && e != [] && [UpperChar(e[0])] == starter
  {
    FilterSpec(options, (e: string) => StartsWith(e, starter));
    if starter == AllLetters {
      SubsequenceSelf(options);
    }
  }

  /** Every filter yields a subsequence of the sorted option list, so the shown list is sorted and has no repeats. */
  lemma FilteredOptionsSorted(rows: seq<WorkoutSet>, group: string, query: string, starter: string)
    ensures Subsequence(FilteredOptions(rows, group, query, starter), ExerciseOptions(rows, group))
    ensures Sorted(FilteredOptions(rows, group, query, starter), StrLe)
    ensures NoDuplicates(FilteredOptions(rows, group, query, starter))
  {
    var opts := ExerciseOptions(rows, group);
    var searched := SearchFilter(opts, query);
    var shown := FilteredOptions(rows, group, query, starter);
    SearchFilterSpec(opts, query);
    StarterFilterSpec(searched, starter);
    SubsequenceTrans(shown, searched, opts);
    ExerciseOptionsSpec(rows, group);
    SubsequenceSorted(shown, opts, StrLe);
    SubsequenceNoDuplicates(shown, opts);
  }

  lemma {:induction false} SubsequenceTrans<T>(a: seq<T>, b: seq<T>, c: seq<T>)
    requires Subsequence(a, b) && Subsequence(b, c)
    ensures Subsequence(a, c)
    decreases |c|
  {
    if a != [] {
      if b[0] == c[0] {
        if a[0] == b[0] {
          SubsequenceTrans(a[1..], b[1..], c[1..]);
        } else {
          SubsequenceTrans(a, b[1..], c[1..]);
        }
      } else {
        SubsequenceTrans(a, b, c[1..]);
        SubsequenceSkip(a, c);
      }
    }
  }

  /** The comparison list is the option list without the selected name, in the same order. */
  lemma ComparisonOptionsSpec(options: seq<string>, selected: string)
    ensures Subsequence(ComparisonOptions(options, selected), options)
    ensures selected !in ComparisonOptions(options, selected)
    ensures forall e :: e in ComparisonOptions(options, selected) <==> e in options && e != selected
  {
    FilterSpec(options, (e: string) => e != selected);
  }

  /**
   * Twelve shortcuts, or every row when there are fewer, each a statistics row,
   * sorted by the chosen column descending with missing values last; every row
   * left out ranks no higher than any row shown.
   */
  lemma TopShortcutsSpec(stats: seq<ExerciseStat>, order: ShortcutOrder)
    ensures var top := TopShortcuts(stats, order);
      && |top| == (if |stats| <= 12 then |stats| else 12)
      && multiset(top) <= multiset(stats)
      && (forall i, j :: 0 <= i < j < |top| ==> ShortcutLe(order, top[i], top[j]))
      && (forall s, i :: s in stats && s !in top && 0 <= i < |top| ==> ShortcutLe(order, top[i], s))
  {
    var le := (s, t) => ShortcutLe(order, s, t);
    ShortcutOrderTotal(order);
    var sorted := Sort(stats, le);
    var top := TopShortcuts(stats, order);
    assert |sorted| == |multiset(sorted)| == |stats|;
    assert top == sorted[..|top|];
    assert sorted == top + sorted[|top|..];
    assert multiset(sorted) == multiset(top) + multiset(sorted[|top|..]);
    HeadIsTop(sorted, le, 12);
    forall s | s in stats
      ensures s in sorted
    {
      assert s in multiset(stats);
    }
  }

  /**
   * Twelve names, or all of them when the group has fewer, each once, each an
   * exercise of the group, by descending row count; every name of the group left
   * out has no more rows than any name shown.
   */
  lemma GroupPanelSpec(rows: seq<WorkoutSet>, group: string)
    ensures var names := Exercises(Filter(rows, (r: WorkoutSet) => r.group == group));
      var panel := GroupPanelNames(rows, group);
      && |panel| == (if |Distinct(names)| <= 12 then |Distinct(names)| else 12)
      && NoDuplicates(panel)
      && (forall e :: e in panel ==> e in names)
      && (forall i, j :: 0 <= i < j < |panel| ==> Count(names, panel[i]) >= Count(names, panel[j]))
      && (forall e, i :: e in names && e !in panel && 0 <= i < |panel| ==> Count(names, panel[i]) >= Count(names, e))
  {
    var names := Exercises(Filter(rows, (r: WorkoutSet) => r.group == group));
    CountOrderTotal(names);
    HeadOfSortedDistinct(names, (a: string, b: string) => Count(names, a) >= Count(names, b), 12);
  }
}
