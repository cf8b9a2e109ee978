/**
 * The statistics view: meal rows of a trailing period are grouped by date into
 * one record per day (mean quality, calorie total, meal count), and the period
 * is summed up by an overall quality, a mean of daily calories, a meal count and
 * a coarse trend that compares the recent half of the days with the older half.
 *
 * Means are exact rationals (`real`); the browser computes them in floating point.
 */
module NutritionStats {
  import opened Wrappers
  import opened Numbers

  /** A meal row as the statistics query selects it. */
  datatype MealRow = MealRow(date: string, qualityScore: Option<int>, calories: Option<int>)

  /** The per-day record the view keeps. */
  datatype DailyStats = DailyStats(date: string, avgQuality: real, totalCalories: int, mealCount: nat)

  /** The accumulator entry `loadStats` builds for one date. */
  datatype DayGroup = DayGroup(date: string, qualities: seq<int>, calories: seq<int>, count: nat)

  datatype Trend = Up | Down | Stable

  // ---------------------------------------------------------------- grouping

  /** Some row is dated `d`. */
  ghost predicate HasDate(rows: seq<MealRow>, d: string) {
    exists k :: 0 <= k < |rows| && rows[k].date == d
  }

  lemma HasDateSnoc(rows: seq<MealRow>, r: MealRow, d: string)
    ensures HasDate(rows + [r], d) <==> HasDate(rows, d) || r.date == d
  {
    var rows' := rows + [r];
    if HasDate(rows, d) {
      var k :| 0 <= k < |rows| && rows[k].date == d;
      assert rows'[k].date == d;
    }
    if r.date == d {
      assert rows'[|rows|].date == d;
    }
    if HasDate(rows', d) && r.date != d {
      var k :| 0 <= k < |rows'| && rows'[k].date == d;
      assert rows[k].date == d;
    }
  }

  /** The distinct dates of the rows, in the order of their first occurrence. */
  function Dates(rows: seq<MealRow>): (ds: seq<string>)
    ensures forall i, j :: 0 <= i < j < |ds| ==> ds[i] != ds[j]
    ensures forall d :: d in ds <==> HasDate(rows, d)
  {
    if rows == [] then []
    else
      var prefix, last := rows[..|rows| - 1], rows[|rows| - 1];
      var ds := Dates(prefix);
      assert prefix + [last] == rows;
      assert forall d :: HasDate(rows, d) <==> HasDate(prefix, d) || last.date == d by {
        forall d ensures HasDate(rows, d) <==> HasDate(prefix, d) || last.date == d {
          HasDateSnoc(prefix, last, d);
        }
      }
      if last.date in ds then ds else ds + [last.date]
  }

  /** The rows of one date, in their original order. */
  function RowsOn(rows: seq<MealRow>, date: string): seq<MealRow> {
    if rows == [] then []
    else RowsOn(rows[..|rows| - 1], date)
         + (if rows[|rows| - 1].date == date then [rows[|rows| - 1]] else [])
  }

  /** The truthy quality scores of the rows, in order. */
  function Scores(rows: seq<MealRow>): seq<int> {
    if rows == [] then []
    else Scores(rows[..|rows| - 1])
         + (if Truthy(rows[|rows| - 1].qualityScore) then [rows[|rows| - 1].qualityScore.value] else [])
  }

  /** The truthy calorie estimates of the rows, in order. */
  function Calories(rows: seq<MealRow>): seq<int> {
    if rows == [] then []
    else Calories(rows[..|rows| - 1])
         + (if Truthy(rows[|rows| - 1].calories) then [rows[|rows| - 1].calories.value] else [])
  }

  /** What the accumulator holds for a date once every row has been seen. */
  function GroupOf(rows: seq<MealRow>, date: string): DayGroup {
    var on := RowsOn(rows, date);
    DayGroup(date, Scores(on), Calories(on), |on|)
  }

  /** The `map` from an accumulator entry to the day record. */
  function Summarize(g: DayGroup): DailyStats {
    DailyStats(g.date, Mean(g.qualities), Sum(g.calories), g.count)
  }

  /** The day records of `loadStats`: one per distinct date, in first-occurrence order. */
  function DailyStatsOf(rows: seq<MealRow>): (stats: seq<DailyStats>)
    ensures |stats| == |Dates(rows)|
    ensures forall i :: 0 <= i < |stats| ==> stats[i].date == Dates(rows)[i] && stats[i].mealCount == |RowsOn(rows, stats[i].date)|
  {
    var ds := Dates(rows);
    seq(|ds|, i requires 0 <= i < |ds| => Summarize(GroupOf(rows, ds[i])))
  }

  /** Adding a row at the end extends the group of its date by that row only. */
  lemma GroupOfSnoc(rows: seq<MealRow>, r: MealRow, date: string)
    ensures var g, g' := GroupOf(rows, date), GroupOf(rows + [r], date);
            if r.date == date then
              g' == DayGroup(date,
                             g.qualities + (if Truthy(r.qualityScore) then [r.qualityScore.value] else []),
                             g.calories + (if Truthy(r.calories) then [r.calories.value] else []),
                             g.count + 1)
            else g' == g
  {
    assert (rows + [r])[..|rows|] == rows;
    var on := RowsOn(rows, date);
    if r.date == date {
      assert RowsOn(rows + [r], date) == on + [r];
      assert (on + [r])[..|on|] == on;
    } else {
      assert RowsOn(rows + [r], date) == on;
    }
  }

  /** The accumulator of the reduce: the entries by date, and the dates in the
      order their entries were created (the order `Object.values` lists them in). */
  datatype Accumulator = Accumulator(grouped: map<string, DayGroup>, order: seq<string>)

  /** One step of the reduce: create the entry on first sight of its date, then
      push the truthy score and calories and count the meal. */
  function Step(acc: Accumulator, meal: MealRow): Accumulator {
    var isNew := meal.date !in acc.grouped;
    var entry := if isNew then DayGroup(meal.date, [], [], 0) else acc.grouped[meal.date];
    var entry' := DayGroup(
      entry.date,
      if Truthy(meal.qualityScore) then entry.qualities + [meal.qualityScore.value] else entry.qualities,
      if Truthy(meal.calories) then entry.calories + [meal.calories.value] else entry.calories,
      entry.count + 1);
    Accumulator(acc.grouped[meal.date := entry'], if isNew then acc.order + [meal.date] else acc.order)
  }

  /** The reduce over the rows. */
  function Reduce(rows: seq<MealRow>): Accumulator {
    if rows == [] then Accumulator(map[], [])
    else Step(Reduce(rows[..|rows| - 1]), rows[|rows| - 1])
  }

  /** The accumulator holds exactly the group of every date, listed in first-occurrence order. */
  ghost predicate Holds(acc: Accumulator, rows: seq<MealRow>) {
    && acc.order == Dates(rows)
    && (forall d :: d in acc.grouped <==> d in acc.order)
    && (forall d :: d in acc.grouped ==> acc.grouped[d] == GroupOf(rows, d))
  }

  /** A row at the end adds its date to the distinct dates when it is new. */
  lemma DatesSnoc(rows: seq<MealRow>, r: MealRow)
    ensures Dates(rows + [r]) == if r.date in Dates(rows) then Dates(rows) else Dates(rows) + [r.date]
  {
    assert (rows + [r])[..|rows|] == rows;
  }

  /** A step lists a date in the order exactly when it is new. */
  lemma StepOrder(acc: Accumulator, rows: seq<MealRow>, meal: MealRow)
    requires acc.order == Dates(rows)
    requires forall d :: d in acc.grouped <==> d in acc.order
    ensures Step(acc, meal).order == Dates(rows + [meal])
    ensures forall d :: d in Step(acc, meal).grouped <==> d in Step(acc, meal).order
  {
    DatesSnoc(rows, meal);
  }

  /** A step grows the entry of the row's date by that row and leaves the others. */
  lemma StepEntries(acc: Accumulator, rows: seq<MealRow>, meal: MealRow)
    requires forall d :: d in acc.grouped <==> d in Dates(rows)
    requires forall d :: d in acc.grouped ==> acc.grouped[d] == GroupOf(rows, d)
    ensures forall d :: d in Step(acc, meal).grouped ==> Step(acc, meal).grouped[d] == GroupOf(rows + [meal], d)
  {
    var acc' := Step(acc, meal);
    forall d | d in acc'.grouped ensures acc'.grouped[d] == GroupOf(rows + [meal], d) {
      StepEntry(acc, rows, meal, d);
    }
  }

  /** The entry of one date after a step. */
  lemma StepEntry(acc: Accumulator, rows: seq<MealRow>, meal: MealRow, d: string)
    requires d in acc.grouped ==> acc.grouped[d] == GroupOf(rows, d)
    requires d !in acc.grouped ==> d !in Dates(rows)
    requires d in Step(acc, meal).grouped
    ensures Step(acc, meal).grouped[d] == GroupOf(rows + [meal], d)
  {
    GroupOfSnoc(rows, meal, d);
    if d != meal.date {
      assert Step(acc, meal).grouped[d] == acc.grouped[d];
    } else if d !in acc.grouped {
      NoRowsOn(rows, d);
      assert GroupOf(rows, d) == DayGroup(d, [], [], 0);
    }
  }

  lemma StepHolds(acc: Accumulator, rows: seq<MealRow>, meal: MealRow)
    requires Holds(acc, rows)
    ensures Holds(Step(acc, meal), rows + [meal])
  {
    StepOrder(acc, rows, meal);
    StepEntries(acc, rows, meal);
  }

  /** The reduce builds exactly one entry per distinct date, holding that date's rows. */
  lemma {:induction false} ReduceHolds(rows: seq<MealRow>)
    ensures Holds(Reduce(rows), rows)
  {
    if rows != [] {
      var prefix, last := rows[..|rows| - 1], rows[|rows| - 1];
      assert prefix + [last] == rows;
      ReduceHolds(prefix);
      StepHolds(Reduce(prefix), prefix, last);
    }
  }

  /** The `reduce` of `loadStats`: the accumulator keyed by date, entries created
      on first sight and then grown in place, with the dates in creation order. */
  method GroupByDate(rows: seq<MealRow>) returns (grouped: map<string, DayGroup>, order: seq<string>)
    ensures Accumulator(grouped, order) == Reduce(rows)
  {
    grouped, order := map[], [];
    var i := 0;
    while i < |rows|
      invariant 0 <= i <= |rows|
      invariant Accumulator(grouped, order) == Reduce(rows[..i])
    {
      var meal := rows[i];
      assert rows[..i + 1][..i] == rows[..i];
      ghost var before := Accumulator(grouped, order);
      if meal.date !in grouped {
        grouped := grouped[meal.date := DayGroup(meal.date, [], [], 0)];
        order := order + [meal.date];
      }
      var entry := grouped[meal.date];
      if Truthy(meal.qualityScore) {
        entry := entry.(qualities := entry.qualities + [meal.qualityScore.value]);
      }
      if Truthy(meal.calories) {
        entry := entry.(calories := entry.calories + [meal.calories.value]);
      }
      entry := entry.(count := entry.count + 1);
      grouped := grouped[meal.date := entry];
      assert Accumulator(grouped, order) == Step(before, meal);
      i := i + 1;
    }
    assert rows[..i] == rows;
  }

  /** `loadStats` once the rows are in: the reduce, then one day record per
      entry, in the order the entries were created. */
  method LoadStats(rows: seq<MealRow>) returns (stats: seq<DailyStats>)
    ensures stats == DailyStatsOf(rows)
  {
    var grouped, order := GroupByDate(rows);
    ReduceEntries(rows);
    stats := SummarizeEntries(grouped, order);
  }

  /** `Object.values(grouped).map(...)`: one day record per entry, in entry order. */
  method SummarizeEntries(grouped: map<string, DayGroup>, order: seq<string>) returns (stats: seq<DailyStats>)
    requires forall j :: 0 <= j < |order| ==> order[j] in grouped
    ensures |stats| == |order|
    ensures forall j :: 0 <= j < |order| ==> stats[j] == Summarize(grouped[order[j]])
  {
    stats := [];
    var k := 0;
    while k < |order|
      invariant 0 <= k <= |order| && |stats| == k
      invariant forall j :: 0 <= j < k ==> stats[j] == Summarize(grouped[order[j]])
    {
      stats := stats + [Summarize(grouped[order[k]])];
      k := k + 1;
    }
  }

  /** The entries of the reduce, listed in order, are the groups of the distinct dates. */
  lemma ReduceEntries(rows: seq<MealRow>)
    ensures var acc := Reduce(rows);
            && acc.order == Dates(rows)
            && forall j :: 0 <= j < |acc.order| ==>
                 acc.order[j] in acc.grouped && Summarize(acc.grouped[acc.order[j]]) == DailyStatsOf(rows)[j]
  {
    ReduceHolds(rows);
    var acc, ds := Reduce(rows), Dates(rows);
    forall j | 0 <= j < |ds|
      ensures ds[j] in acc.grouped && Summarize(acc.grouped[ds[j]]) == DailyStatsOf(rows)[j]
    {
      assert ds[j] in acc.order;
      assert acc.grouped[ds[j]] == GroupOf(rows, ds[j]);
    }
  }

  /** A date with no row has an empty group. */
  lemma {:induction false} NoRowsOn(rows: seq<MealRow>, date: string)
    requires date !in Dates(rows)
    ensures RowsOn(rows, date) == []
  {
    if rows != [] {
      var prefix := rows[..|rows| - 1];
      assert prefix + [rows[|rows| - 1]] == rows;
      HasDateSnoc(prefix, rows[|rows| - 1], date);
      NoRowsOn(prefix, date);
    }
  }

  // ---------------------------------------------------------------- properties of the grouping

  /** The index of the first row dated `d`, or the number of rows when there is none. */
  function FirstIndex(rows: seq<MealRow>, d: string): (k: nat)
    ensures k <= |rows|
    ensures k < |rows| ==> rows[k].date == d
  {
    if rows == [] then 0
    else if rows[0].date == d then 0
    else 1 + FirstIndex(rows[1..], d)
  }

  /** No row before the first index is dated `d`. */
  lemma {:induction false} FirstIndexIsFirst(rows: seq<MealRow>, d: string)
    ensures forall j :: 0 <= j < FirstIndex(rows, d) ==> rows[j].date != d
  {
    if rows != [] && rows[0].date != d {
      FirstIndexIsFirst(rows[1..], d);
      forall j | 0 <= j < FirstIndex(rows, d) ensures rows[j].date != d {
        if j > 0 {
          assert rows[j] == rows[1..][j - 1];
        }
      }
    }
  }

  lemma FirstIndexSnoc(rows: seq<MealRow>, r: MealRow, d: string)
    ensures FirstIndex(rows + [r], d) == if FirstIndex(rows, d) < |rows| then FirstIndex(rows, d)
                                         else if r.date == d then |rows| else |rows| + 1
  {
    var f, f' := FirstIndex(rows, d), FirstIndex(rows + [r], d);
    FirstIndexIsFirst(rows, d);
    FirstIndexIsFirst(rows + [r], d);
    if f < |rows| {
      assert (rows + [r])[f].date == d;
    } else if r.date == d {
      assert (rows + [r])[|rows|].date == d;
    } else {
      assert forall j :: 0 <= j < |rows| + 1 ==> (rows + [r])[j].date != d;
    }
  }

  /** The first index of each of the dates `ds` among the rows. */
  function FirstIndices(rows: seq<MealRow>, ds: seq<string>): (f: seq<nat>)
    ensures |f| == |ds|
    ensures forall i :: 0 <= i < |ds| ==> f[i] == FirstIndex(rows, ds[i])
  {
    seq(|ds|, i requires 0 <= i < |ds| => FirstIndex(rows, ds[i]))
  }

  /** Strictly increasing and below `bound`. */
  ghost predicate IncreasingBelow(f: seq<nat>, bound: nat) {
    && (forall i :: 0 <= i < |f| ==> f[i] < bound)
    && (forall i, j :: 0 <= i < j < |f| ==> f[i] < f[j])
  }

  lemma IncreasingSnoc(f: seq<nat>, bound: nat)
    requires IncreasingBelow(f, bound)
    ensures IncreasingBelow(f, bound + 1)
    ensures IncreasingBelow(f + [bound], bound + 1)
  {
    var g := f + [bound];
    forall i, j | 0 <= i < j < |g| ensures g[i] < g[j] {
      assert g[i] == f[i];
    }
  }

  /** A date no row has is first found past the end. */
  lemma FirstIndexAbsent(rows: seq<MealRow>, d: string)
    requires d !in Dates(rows)
    ensures FirstIndex(rows, d) == |rows|
  {
  }

  /** Every date of `ds` occurs in the rows, and their first occurrences come in the order of `ds`. */
  ghost predicate FirstOccurrencesIncrease(rows: seq<MealRow>, ds: seq<string>) {
    IncreasingBelow(FirstIndices(rows, ds), |rows|)
  }

  /** A row at the end moves no first occurrence of a date already seen. */
  lemma FirstOccurrencesSnoc(prefix: seq<MealRow>, last: MealRow, ds: seq<string>)
    requires FirstOccurrencesIncrease(prefix, ds)
    ensures FirstIndices(prefix + [last], ds) == FirstIndices(prefix, ds)
    ensures FirstOccurrencesIncrease(prefix + [last], ds)
  {
    var f := FirstIndices(prefix, ds);
    forall i | 0 <= i < |ds| ensures FirstIndex(prefix + [last], ds[i]) == f[i] {
      FirstIndexSnoc(prefix, last, ds[i]);
    }
    IncreasingSnoc(f, |prefix|);
  }

  /** A row at the end with a new date puts that date's first occurrence after all others. */
  lemma FirstOccurrencesNew(prefix: seq<MealRow>, last: MealRow, ds: seq<string>)
    requires FirstOccurrencesIncrease(prefix, ds) && FirstIndex(prefix, last.date) == |prefix|
    ensures FirstOccurrencesIncrease(prefix + [last], ds + [last.date])
  {
    var rows := prefix + [last];
    FirstOccurrencesSnoc(prefix, last, ds);
    FirstIndexSnoc(prefix, last, last.date);
    var f := FirstIndices(prefix, ds);
    assert FirstIndices(rows, ds + [last.date]) == f + [|prefix|] by {
      var g := FirstIndices(rows, ds + [last.date]);
      forall i | 0 <= i < |g| ensures g[i] == (f + [|prefix|])[i] {
        if i < |ds| {
          assert (ds + [last.date])[i] == ds[i];
          assert FirstIndices(rows, ds)[i] == FirstIndex(rows, ds[i]);
        }
      }
    }
    IncreasingSnoc(f, |prefix|);
  }

  /** The days come in the order in which their dates first occur among the rows:
      with rows ordered by date, the days are ordered the same way. */
  lemma {:induction false} DatesInFirstOccurrenceOrder(rows: seq<MealRow>)
    ensures FirstOccurrencesIncrease(rows, Dates(rows))
  {
    if rows != [] {
      var prefix, last := rows[..|rows| - 1], rows[|rows| - 1];
      assert prefix + [last] == rows;
      DatesSnoc(prefix, last);
      DatesInFirstOccurrenceOrder(prefix);
      if last.date in Dates(prefix) {
        assert Dates(rows) == Dates(prefix);
        FirstOccurrencesSnoc(prefix, last, Dates(prefix));
      } else {
        assert Dates(rows) == Dates(prefix) + [last.date];
        FirstIndexAbsent(prefix, last.date);
        FirstOccurrencesNew(prefix, last, Dates(prefix));
      }
    }
  }

  /** Strict lexicographic order on strings; on `YYYY-MM-DD` dates it is the order of days. */
  predicate LexLess(a: string, b: string) {
    if a == [] then b != []
    else if b == [] then false
    else a[0] < b[0] || (a[0] == b[0] && LexLess(a[1..], b[1..]))
  }

  /** The rows as the query returns them: newest date first. */
  ghost predicate NewestFirst(rows: seq<MealRow>) {
    forall i, j :: 0 <= i < j < |rows| ==> rows[i].date == rows[j].date || LexLess(rows[j].date, rows[i].date)
  }

  /** With the rows newest first, the day records are too, one per date. */
  lemma DaysNewestFirst(rows: seq<MealRow>)
    requires NewestFirst(rows)
    ensures forall i, j :: 0 <= i < j < |DailyStatsOf(rows)|
              ==> LexLess(DailyStatsOf(rows)[j].date, DailyStatsOf(rows)[i].date)
  {
    var ds, stats := Dates(rows), DailyStatsOf(rows);
    DatesInFirstOccurrenceOrder(rows);
    forall i, j | 0 <= i < j < |stats|
      ensures LexLess(stats[j].date, stats[i].date)
    {
      assert stats[i].date == ds[i] && stats[j].date == ds[j];
      var fi, fj := FirstIndex(rows, ds[i]), FirstIndex(rows, ds[j]);
      assert rows[fi].date == ds[i] && rows[fj].date == ds[j];
    }
  }

  /** The meal counts of the days, added up. */
  function TotalMeals(stats: seq<DailyStats>): int {
    if stats == [] then 0 else TotalMeals(stats[..|stats| - 1]) + stats[|stats| - 1].mealCount
  }

  /** The number of rows dated with one of `ds`, each date counted once. */
  function CountOn(rows: seq<MealRow>, ds: seq<string>): int {
    if ds == [] then 0 else CountOn(rows, ds[..|ds| - 1]) + |RowsOn(rows, ds[|ds| - 1])|
  }

  lemma {:induction false} CountOnSnoc(rows: seq<MealRow>, r: MealRow, ds: seq<string>)
    requires forall i, j :: 0 <= i < j < |ds| ==> ds[i] != ds[j]
    ensures CountOn(rows + [r], ds) == CountOn(rows, ds) + (if r.date in ds then 1 else 0)
  {
    if ds != [] {
      var front, d := ds[..|ds| - 1], ds[|ds| - 1];
      CountOnSnoc(rows, r, front);
      assert (rows + [r])[..|rows|] == rows;
      assert |RowsOn(rows + [r], d)| == |RowsOn(rows, d)| + (if r.date == d then 1 else 0);
      assert r.date in ds <==> r.date in front || r.date == d;
      assert d !in front;
    }
  }

  lemma {:induction false} CountOnAbsent(rows: seq<MealRow>, ds: seq<string>, d: string)
    requires d !in ds
    ensures CountOn(rows, ds + [d]) == CountOn(rows, ds) + |RowsOn(rows, d)|
  {
    assert (ds + [d])[..|ds|] == ds;
  }

  /** Every row lands in the group of exactly one distinct date. */
  lemma {:induction false} CountOnDates(rows: seq<MealRow>)
    ensures CountOn(rows, Dates(rows)) == |rows|
  {
    if rows != [] {
      var prefix, last := rows[..|rows| - 1], rows[|rows| - 1];
      assert prefix + [last] == rows;
      CountOnDates(prefix);
      var ds := Dates(prefix);
      CountOnSnoc(prefix, last, ds);
      if last.date !in ds {
        CountOnAbsent(rows, ds, last.date);
        NoRowsOn(prefix, last.date);
        assert RowsOn(rows, last.date) == [last];
      }
    }
  }

  lemma {:induction false} TotalMealsOfGroups(rows: seq<MealRow>, ds: seq<string>)
    ensures TotalMeals(seq(|ds|, i requires 0 <= i < |ds| => Summarize(GroupOf(rows, ds[i]))))
            == CountOn(rows, ds)
  {
    if ds != [] {
      var front := ds[..|ds| - 1];
      TotalMealsOfGroups(rows, front);
      var all := seq(|ds|, i requires 0 <= i < |ds| => Summarize(GroupOf(rows, ds[i])));
      assert all[..|ds| - 1] == seq(|front|, i requires 0 <= i < |front| => Summarize(GroupOf(rows, front[i])));
    }
  }

  /** `getTotalMeals` after `loadStats` is the number of rows: the day counts add up. */
  lemma TotalMealsIsRowCount(rows: seq<MealRow>)
    ensures TotalMeals(DailyStatsOf(rows)) == |rows|
  {
    TotalMealsOfGroups(rows, Dates(rows));
    CountOnDates(rows);
  }

  /** Every truthy quality score of the rows lies in [lo, hi]. */
  ghost predicate ScoresWithin(rows: seq<MealRow>, lo: int, hi: int) {
    forall k :: 0 <= k < |rows| && Truthy(rows[k].qualityScore) ==> lo <= rows[k].qualityScore.value <= hi
  }

  lemma {:induction false} ScoresWithinBounds(rows: seq<MealRow>, lo: int, hi: int)
    requires ScoresWithin(rows, lo, hi)
    ensures forall i :: 0 <= i < |Scores(rows)| ==> lo <= Scores(rows)[i] <= hi
  {
    if rows != [] {
      ScoresWithinBounds(rows[..|rows| - 1], lo, hi);
    }
  }

  lemma {:induction false} RowsOnKeepsScoresWithin(rows: seq<MealRow>, d: string, lo: int, hi: int)
    requires ScoresWithin(rows, lo, hi)
    ensures ScoresWithin(RowsOn(rows, d), lo, hi)
  {
    if rows != [] {
      RowsOnKeepsScoresWithin(rows[..|rows| - 1], d, lo, hi);
    }
  }

  /** With every score in [1, 5], each day's mean quality is 0 (no scored meal)
      or lies in [1, 5]. */
  lemma DayQualityInRange(rows: seq<MealRow>)
    requires ScoresWithin(rows, 1, 5)
    ensures forall i :: 0 <= i < |DailyStatsOf(rows)| ==>
              var q := DailyStatsOf(rows)[i].avgQuality; q == 0.0 || 1.0 <= q <= 5.0
  {
    var stats, ds := DailyStatsOf(rows), Dates(rows);
    forall i | 0 <= i < |stats| ensures stats[i].avgQuality == 0.0 || 1.0 <= stats[i].avgQuality <= 5.0 {
      var on := RowsOn(rows, ds[i]);
      RowsOnKeepsScoresWithin(rows, ds[i], 1, 5);
      ScoresWithinBounds(on, 1, 5);
      if Scores(on) != [] {
        MeanBounds(Scores(on), 1, 5);
      }
    }
  }

  // ---------------------------------------------------------------- period summaries

  /** The mean qualities of the days that have one (`avgQuality > 0`). */
  function PositiveQualities(stats: seq<DailyStats>): (qs: seq<real>)
    ensures forall i :: 0 <= i < |qs| ==> qs[i] > 0.0
    ensures |qs| == 0 <==> forall i :: 0 <= i < |stats| ==> stats[i].avgQuality <= 0.0
  {
    if stats == [] then []
    else
      var front := stats[..|stats| - 1];
      assert forall i :: 0 <= i < |front| ==> front[i] == stats[i];
      PositiveQualities(front)
      + (if stats[|stats| - 1].avgQuality > 0.0 then [stats[|stats| - 1].avgQuality] else [])
  }

  lemma {:induction false} PositiveQualitiesAppend(a: seq<DailyStats>, b: seq<DailyStats>)
    ensures PositiveQualities(a + b) == PositiveQualities(a) + PositiveQualities(b)
  {
    if b == [] {
      assert a + b == a;
    } else {
      var front := b[..|b| - 1];
      assert (a + b)[..|a + b| - 1] == a + front;
      PositiveQualitiesAppend(a, front);
    }
  }

  lemma PositiveQualitiesSingle(d: DailyStats)
    ensures PositiveQualities([d]) == if d.avgQuality > 0.0 then [d.avgQuality] else []
  {
    assert [d][..0] == [];
  }

  /** Every day with a positive mean quality contributes it, in its place, and
      every other day contributes nothing. */
  lemma PositiveQualitiesAround(before: seq<DailyStats>, d: DailyStats, after: seq<DailyStats>)
    ensures PositiveQualities((before + [d]) + after)
            == PositiveQualities(before) + (if d.avgQuality > 0.0 then [d.avgQuality] else []) + PositiveQualities(after)
  {
    PositiveQualitiesAppend(before + [d], after);
    PositiveQualitiesAppend(before, [d]);
    PositiveQualitiesSingle(d);
  }

  /** `getOverallAvgQuality`: the unweighted mean of the day means over the days
      that have one, or 0 when none has. */
  function OverallAvgQuality(stats: seq<DailyStats>): (r: real)
    ensures r >= 0.0
    ensures r > 0.0 <==> exists i :: 0 <= i < |stats| && stats[i].avgQuality > 0.0
  {
    var qs := PositiveQualities(stats);
    MeanRealPositive(qs);
    MeanReal(qs)
  }

  /** With every day mean 0 or in [1, 5], the overall mean is 0 or in [1, 5]. */
  lemma {:induction false} OverallQualityInRange(stats: seq<DailyStats>)
    requires forall i :: 0 <= i < |stats| ==> stats[i].avgQuality == 0.0 || 1.0 <= stats[i].avgQuality <= 5.0
    ensures OverallAvgQuality(stats) == 0.0 || 1.0 <= OverallAvgQuality(stats) <= 5.0
  {
    var qs := PositiveQualities(stats);
    PositiveQualitiesWithin(stats);
    if qs != [] {
      MeanRealBounds(qs, 1.0, 5.0);
    }
  }

  lemma {:induction false} PositiveQualitiesWithin(stats: seq<DailyStats>)
    requires forall i :: 0 <= i < |stats| ==> stats[i].avgQuality == 0.0 || 1.0 <= stats[i].avgQuality <= 5.0
    ensures forall i :: 0 <= i < |PositiveQualities(stats)| ==> 1.0 <= PositiveQualities(stats)[i] <= 5.0
  {
    if stats != [] {
      PositiveQualitiesWithin(stats[..|stats| - 1]);
    }
  }

  /** The whole chain: with every input score in [1, 5], the overall quality of
      the period is 0 or lies in [1, 5]. */
  lemma PeriodQualityInRange(rows: seq<MealRow>)
    requires ScoresWithin(rows, 1, 5)
    ensures var q := OverallAvgQuality(DailyStatsOf(rows)); q == 0.0 || 1.0 <= q <= 5.0
  {
    DayQualityInRange(rows);
    OverallQualityInRange(DailyStatsOf(rows));
  }

  /** The calorie totals of the days that have calories (`totalCalories > 0`). */
  function PositiveTotals(stats: seq<DailyStats>): (ts: seq<int>)
    ensures forall i :: 0 <= i < |ts| ==> ts[i] > 0
    ensures |ts| == 0 <==> forall i :: 0 <= i < |stats| ==> stats[i].totalCalories <= 0
  {
    if stats == [] then []
    else
      var front := stats[..|stats| - 1];
      assert forall i :: 0 <= i < |front| ==> front[i] == stats[i];
      PositiveTotals(front)
      + (if stats[|stats| - 1].totalCalories > 0 then [stats[|stats| - 1].totalCalories] else [])
  }

  lemma {:induction false} PositiveTotalsAppend(a: seq<DailyStats>, b: seq<DailyStats>)
    ensures PositiveTotals(a + b) == PositiveTotals(a) + PositiveTotals(b)
  {
    if b == [] {
      assert a + b == a;
    } else {
      var front := b[..|b| - 1];
      assert (a + b)[..|a + b| - 1] == a + front;
      PositiveTotalsAppend(a, front);
    }
  }

  lemma PositiveTotalsSingle(d: DailyStats)
    ensures PositiveTotals([d]) == if d.totalCalories > 0 then [d.totalCalories] else []
  {
    assert [d][..0] == [];
  }

  /** Every day with a positive calorie total contributes it, in its place, and
      every other day contributes nothing. */
  lemma PositiveTotalsAround(before: seq<DailyStats>, d: DailyStats, after: seq<DailyStats>)
    ensures PositiveTotals((before + [d]) + after)
            == PositiveTotals(before) + (if d.totalCalories > 0 then [d.totalCalories] else []) + PositiveTotals(after)
  {
    PositiveTotalsAppend(before + [d], after);
    PositiveTotalsAppend(before, [d]);
    PositiveTotalsSingle(d);
  }

  /** `getAvgCaloriesPerDay`: the mean calorie total over the days that have
      calories, or 0 when none has. */
  function AvgCaloriesPerDay(stats: seq<DailyStats>): (r: real)
    ensures r >= 0.0
    ensures r > 0.0 <==> exists i :: 0 <= i < |stats| && stats[i].totalCalories > 0
  {
    var ts := PositiveTotals(stats);
    MeanPositive(ts);
    Mean(ts)
  }

  // ---------------------------------------------------------------- trend

  function SumQuality(stats: seq<DailyStats>): real {
    if stats == [] then 0.0 else SumQuality(stats[..|stats| - 1]) + stats[|stats| - 1].avgQuality
  }

  /** The mean of the day means, days without a score counting as 0. */
  function MeanQuality(stats: seq<DailyStats>): real
    requires stats != []
  {
    SumQuality(stats) / |stats| as real
  }

  /** `getTrend`: the first (most recent) floor(n/2) days against the rest, with
      a margin of 0.3; stable when there are fewer than two days. */
  function TrendOf(stats: seq<DailyStats>): (t: Trend)
    ensures |stats| < 2 ==> t == Stable
  {
    if |stats| < 2 then Stable
    else
      var recent, older := stats[..|stats| / 2], stats[|stats| / 2..];
      var recentAvg, olderAvg := MeanQuality(recent), MeanQuality(older);
      if recentAvg > olderAvg + 0.3 then Up
      else if recentAvg < olderAvg - 0.3 then Down
      else Stable
  }

  lemma {:induction false} SumQualityConstant(stats: seq<DailyStats>, q: real)
    requires forall i :: 0 <= i < |stats| ==> stats[i].avgQuality == q
    ensures SumQuality(stats) == |stats| as real * q
  {
    if stats != [] {
      SumQualityConstant(stats[..|stats| - 1], q);
    }
  }

  /** Days that all have the same mean quality average to it. */
  lemma MeanQualityConstant(stats: seq<DailyStats>, q: real)
    requires stats != []
    requires forall i :: 0 <= i < |stats| ==> stats[i].avgQuality == q
    ensures MeanQuality(stats) == q
  {
    SumQualityConstant(stats, q);
    var n := |stats| as real;
    assert SumQuality(stats) == n * q;
    DivCancel(q, n);
  }

  /** Days that all have the same mean quality give a stable trend. */
  lemma TrendOfConstantIsStable(stats: seq<DailyStats>, q: real)
    requires forall i :: 0 <= i < |stats| ==> stats[i].avgQuality == q
    ensures TrendOf(stats) == Stable
  {
    if |stats| >= 2 {
      var recent, older := stats[..|stats| / 2], stats[|stats| / 2..];
      MeanQualityConstant(recent, q);
      MeanQualityConstant(older, q);
    }
  }

  /** With two halves of equal length, exchanging them turns an upward trend into
      a downward one and back. */
  lemma TrendSwapHalves(recent: seq<DailyStats>, older: seq<DailyStats>)
    requires |recent| == |older| >= 1
    ensures TrendOf(recent + older) == Up <==> TrendOf(older + recent) == Down
    ensures TrendOf(recent + older) == Stable <==> TrendOf(older + recent) == Stable
  {
    var n := |recent| + |older|;
    assert n / 2 == |recent|;
    assert (recent + older)[..n / 2] == recent && (recent + older)[n / 2..] == older;
    assert (older + recent)[..n / 2] == older && (older + recent)[n / 2..] == recent;
  }

  /** A day with meals but no score counts as 0 in the trend: a day without
      scores followed by a day at 3 reads as downward. */
  lemma UnscoredDayCountsInTrend()
    ensures TrendOf([DailyStats("2024-05-02", 0.0, 0, 1), DailyStats("2024-05-01", 3.0, 0, 1)]) == Down
  {
    var stats := [DailyStats("2024-05-02", 0.0, 0, 1), DailyStats("2024-05-01", 3.0, 0, 1)];
    assert stats[..1] == [stats[0]] && stats[1..] == [stats[1]];
  }

  function WeightedSum(stats: seq<DailyStats>): real {
    if stats == [] then 0.0
    else WeightedSum(stats[..|stats| - 1]) + stats[|stats| - 1].avgQuality * stats[|stats| - 1].mealCount as real
  }

  /** The meal-weighted alternative: every meal counts once rather than every day. */
  function MealWeightedQuality(stats: seq<DailyStats>): real {
    if TotalMeals(stats) == 0 then 0.0 else WeightedSum(stats) / TotalMeals(stats) as real
  }

  lemma SampleWeighted(stats: seq<DailyStats>)
    requires stats == [DailyStats("2024-05-02", 1.0, 0, 2), DailyStats("2024-05-01", 4.0, 0, 1)]
    ensures MealWeightedQuality(stats) == 2.0
  {
    var first := stats[..1];
    assert first == [stats[0]] && first[..0] == [];
    assert TotalMeals(first) == 2 && WeightedSum(first) == 2.0;
    assert TotalMeals(stats) == 3 && WeightedSum(stats) == 6.0;
  }

  lemma SamplePositive(stats: seq<DailyStats>)
    requires stats == [DailyStats("2024-05-02", 1.0, 0, 2), DailyStats("2024-05-01", 4.0, 0, 1)]
    ensures PositiveQualities(stats) == [1.0, 4.0]
  {
    var first := stats[..1];
    assert first == [stats[0]] && first[..0] == [];
    assert PositiveQualities(first) == [1.0];
  }

  lemma SampleMean(qs: seq<real>)
    requires qs == [1.0, 4.0]
    ensures MeanReal(qs) == 2.5
  {
    assert qs[..1] == [1.0] && qs[..1][..0] == [];
    assert SumReal(qs[..1]) == 1.0;
  }

  lemma SampleOverall(stats: seq<DailyStats>)
    requires stats == [DailyStats("2024-05-02", 1.0, 0, 2), DailyStats("2024-05-01", 4.0, 0, 1)]
    ensures OverallAvgQuality(stats) == 2.5
  {
    SamplePositive(stats);
    SampleMean(PositiveQualities(stats));
  }

  /** The overall quality is the mean of the day means, not of the meals: a day
      of two meals at 1 and a day of one meal at 4 give 2.5, where the mean over
      the meals is 2. */
  lemma OverallQualityIsNotMealWeighted(stats: seq<DailyStats>)
    requires stats == [DailyStats("2024-05-02", 1.0, 0, 2), DailyStats("2024-05-01", 4.0, 0, 1)]
    ensures OverallAvgQuality(stats) == 2.5
    ensures MealWeightedQuality(stats) == 2.0
  {
    SampleOverall(stats);
    SampleWeighted(stats);
  }
}
