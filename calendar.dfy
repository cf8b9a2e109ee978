/**
 * The month calendar: the grid of day cells (leading blanks for the weekday the
 * month starts on, then the day numbers), the `YYYY-MM-DD` key of a day, the
 * meals of a day, their mean quality and its five-dot indicator, the cap of
 * three meals per cell with an overflow counter, and moving one month back or
 * forward.
 *
 * The month length and the weekday of the first day come from the platform's
 * date arithmetic; here they are parameters.
 */
module Calendar {
  import opened Wrappers
  import opened Text
  import opened Numbers

  /** A meal row as the calendar loads it. */
  datatype CalendarMeal = CalendarMeal(
    id: string, date: string, mealType: string, description: string,
    photoUrl: Option<string>, qualityScore: Option<int>)

  // ---------------------------------------------------------------- the grid

  /** `getDaysInMonth`: one blank cell per weekday before the first of the month
      (Sunday first), then the day numbers 1 to `daysInMonth`. */
  method DaysInMonth(startingDayOfWeek: nat, daysInMonth: nat) returns (days: seq<Option<nat>>)
    ensures |days| == startingDayOfWeek + daysInMonth
    ensures forall i :: 0 <= i < startingDayOfWeek ==> days[i] == None
    ensures forall d :: 1 <= d <= daysInMonth ==> days[startingDayOfWeek + d - 1] == Some(d)
  {
    days := [];
    var i := 0;
    while i < startingDayOfWeek
      invariant 0 <= i <= startingDayOfWeek
      invariant |days| == i
      invariant forall j :: 0 <= j < i ==> days[j] == None
    {
      days := days + [None];
      i := i + 1;
    }
    var d := 1;
    while d <= daysInMonth
      invariant 1 <= d <= daysInMonth + 1
      invariant |days| == startingDayOfWeek + d - 1
      invariant forall j :: 0 <= j < startingDayOfWeek ==> days[j] == None
      invariant forall e :: 1 <= e < d ==> days[startingDayOfWeek + e - 1] == Some(e)
    {
      days := days + [Some(d)];
      d := d + 1;
    }
  }

  // ---------------------------------------------------------------- the day key

  /** `String(n).padStart(2, '0')`. */
  function TwoDigits(n: nat): string {
    PadStart(NatToString(n), 2, '0')
  }

  lemma TwoDigitsRoundTrip(n: nat)
    requires n < 100
    ensures |TwoDigits(n)| == 2
    ensures IsDigit(TwoDigits(n)[0]) && IsDigit(TwoDigits(n)[1])
    ensures DigitsValue(TwoDigits(n)) == n
  {
    NatToStringLength(n);
    NatToStringRoundTrip(n);
    var s := TwoDigits(n);
    if n < 10 {
      assert s == ['0'] + NatToString(n);
      assert s[..1] == ['0'] && s[..1][..0] == [];
    }
  }

  /** The key a day is looked up by: the year, the month (0-based, so shown plus
      one) and the day, the last two padded to two digits, joined by dashes. */
  function DateKey(year: int, month: nat, day: nat): string {
    IntToString(year) + "-" + TwoDigits(month + 1) + "-" + TwoDigits(day)
  }

  /** For a four-digit year, a month and a day of the month, the key is a
      calendar date in the extended format of ISO 8601 (`YYYY-MM-DD`, ten
      characters) and the year, month and day can be read back from it. */
  lemma DateKeyFormat(year: int, month: nat, day: nat)
    requires 1000 <= year <= 9999 && month < 12 && 1 <= day <= 31
    ensures var key := DateKey(year, month, day);
            && |key| == 10 && key[4] == '-' && key[7] == '-'
            && (forall i :: 0 <= i < 10 && i != 4 && i != 7 ==> IsDigit(key[i]))
            && DigitsValue(key[..4]) == year
            && DigitsValue(key[5..7]) == month + 1
            && DigitsValue(key[8..]) == day
  {
    NatToStringLength(year);
    NatToStringRoundTrip(year);
    TwoDigitsRoundTrip(month + 1);
    TwoDigitsRoundTrip(day);
    KeyParts(IntToString(year), TwoDigits(month + 1), TwoDigits(day));
  }

  /** Where the three parts of a key sit once joined by dashes. */
  lemma KeyParts(y: string, mm: string, dd: string)
    requires |y| == 4 && |mm| == 2 && |dd| == 2
    requires forall i :: 0 <= i < 4 ==> IsDigit(y[i])
    requires IsDigit(mm[0]) && IsDigit(mm[1]) && IsDigit(dd[0]) && IsDigit(dd[1])
    ensures var key := y + "-" + mm + "-" + dd;
            && |key| == 10 && key[4] == '-' && key[7] == '-'
            && (forall i :: 0 <= i < 10 && i != 4 && i != 7 ==> IsDigit(key[i]))
            && key[..4] == y && key[5..7] == mm && key[8..] == dd
  {
    var key := y + "-" + mm + "-" + dd;
    assert key == y + ("-" + mm + "-" + dd);
    assert key[..4] == y;
    assert key[4..] == "-" + mm + "-" + dd;
    assert key[5..7] == mm;
    assert key[8..] == dd;
  }

  /** Two days of four-digit years have the same key only when they are the same day. */
  lemma DateKeyInjective(y1: int, m1: nat, d1: nat, y2: int, m2: nat, d2: nat)
    requires 1000 <= y1 <= 9999 && m1 < 12 && 1 <= d1 <= 31
    requires 1000 <= y2 <= 9999 && m2 < 12 && 1 <= d2 <= 31
    requires DateKey(y1, m1, d1) == DateKey(y2, m2, d2)
    ensures y1 == y2 && m1 == m2 && d1 == d2
  {
    DateKeyFormat(y1, m1, d1);
    DateKeyFormat(y2, m2, d2);
  }

  // ---------------------------------------------------------------- meals of a day

  /** `a` is `b` with some elements left out, the rest in the same order. */
  ghost predicate SubsequenceOf<T>(a: seq<T>, b: seq<T>)
    decreases |b|
  {
    if a == [] then true
    else if b == [] then false
    else (a[0] == b[0] && SubsequenceOf(a[1..], b[1..])) || SubsequenceOf(a, b[1..])
  }

  /** `getMealsForDay`: the meals whose date is exactly the key, in their original order. */
  function MealsForDay(meals: seq<CalendarMeal>, key: string): (r: seq<CalendarMeal>)
    ensures forall i :: 0 <= i < |r| ==> r[i].date == key
    ensures forall m :: multiset(r)[m] == if m.date == key then multiset(meals)[m] else 0
    ensures SubsequenceOf(r, meals)
  {
    if meals == [] then []
    else
      var rest := MealsForDay(meals[1..], key);
      assert meals == [meals[0]] + meals[1..];
      assert multiset(meals) == multiset{meals[0]} + multiset(meals[1..]);
      if meals[0].date == key then [meals[0]] + rest else rest
  }

  /** The truthy quality scores of the meals, in order. */
  function Scores(dayMeals: seq<CalendarMeal>): (s: seq<int>)
    ensures s == [] <==> forall i :: 0 <= i < |dayMeals| ==> !Truthy(dayMeals[i].qualityScore)
  {
    if dayMeals == [] then []
    else
      var front := dayMeals[..|dayMeals| - 1];
      assert forall i :: 0 <= i < |front| ==> front[i] == dayMeals[i];
      Scores(front)
      + (if Truthy(dayMeals[|dayMeals| - 1].qualityScore) then [dayMeals[|dayMeals| - 1].qualityScore.value] else [])
  }

  /** Scores of two runs of meals are the scores of each, one after the other. */
  lemma {:induction false} ScoresAppend(a: seq<CalendarMeal>, b: seq<CalendarMeal>)
    ensures Scores(a + b) == Scores(a) + Scores(b)
  {
    if b == [] {
      assert a + b == a;
    } else {
      var front := b[..|b| - 1];
      assert (a + b)[..|a + b| - 1] == a + front;
      ScoresAppend(a, front);
    }
  }

  lemma ScoresSingle(m: CalendarMeal)
    ensures Scores([m]) == if Truthy(m.qualityScore) then [m.qualityScore.value] else []
  {
    assert [m][..0] == [];
  }

  /** Every meal with a truthy score contributes that score, in its place, and
      every other meal contributes nothing. */
  lemma ScoresAround(before: seq<CalendarMeal>, m: CalendarMeal, after: seq<CalendarMeal>)
    ensures Scores((before + [m]) + after)
            == Scores(before) + (if Truthy(m.qualityScore) then [m.qualityScore.value] else []) + Scores(after)
  {
    ScoresAppend(before + [m], after);
    ScoresAppend(before, [m]);
    ScoresSingle(m);
  }

  /** `getAverageQualityForDay`: null when no meal has a (truthy) score, otherwise
      the mean of the scores. */
  function AverageQualityForDay(dayMeals: seq<CalendarMeal>): (r: Option<real>)
    ensures r == None <==> forall i :: 0 <= i < |dayMeals| ==> !Truthy(dayMeals[i].qualityScore)
  {
    var scores := Scores(dayMeals);
    if scores == [] then None else Some(Mean(scores))
  }

  lemma {:induction false} ScoresBounded(dayMeals: seq<CalendarMeal>)
    requires forall i :: 0 <= i < |dayMeals| && Truthy(dayMeals[i].qualityScore)
               ==> 1 <= dayMeals[i].qualityScore.value <= 5
    ensures forall i :: 0 <= i < |Scores(dayMeals)| ==> 1 <= Scores(dayMeals)[i] <= 5
  {
    if dayMeals != [] {
      ScoresBounded(dayMeals[..|dayMeals| - 1]);
    }
  }

  /** With every score in [1, 5], a day's mean quality, when there is one, lies in [1, 5]. */
  lemma AverageQualityInRange(dayMeals: seq<CalendarMeal>)
    requires forall i :: 0 <= i < |dayMeals| && Truthy(dayMeals[i].qualityScore)
               ==> 1 <= dayMeals[i].qualityScore.value <= 5
    ensures AverageQualityForDay(dayMeals) != None ==> 1.0 <= AverageQualityForDay(dayMeals).value <= 5.0
  {
    var scores := Scores(dayMeals);
    if scores != [] {
      ScoresBounded(dayMeals);
      MeanBounds(scores, 1, 5);
    }
  }

  // ---------------------------------------------------------------- the day cell

  /** The meals shown in a cell: the first three. */
  function Shown(dayMeals: seq<CalendarMeal>): (r: seq<CalendarMeal>)
    ensures |r| <= 3
    ensures |r| == if |dayMeals| < 3 then |dayMeals| else 3
    ensures r == dayMeals[..|r|]
  {
    if |dayMeals| <= 3 then dayMeals else dayMeals[..3]
  }

  /** The `+n` counter under the shown meals, present only past three meals. */
  function Overflow(dayMeals: seq<CalendarMeal>): (r: Option<nat>)
    ensures r != None <==> |dayMeals| > 3
    ensures r != None ==> r.value >= 1
  {
    if |dayMeals| > 3 then Some(|dayMeals| - 3) else None
  }

  /** The shown meals and the counter account for every meal of the day. */
  lemma ShownPlusOverflow(dayMeals: seq<CalendarMeal>)
    ensures |Shown(dayMeals)| + Overflow(dayMeals).GetOr(0) == |dayMeals|
  {
  }

  /** The five quality dots, lit where `star <= avg`; none at all when the mean
      is null or 0 (both are false in the rendering condition). */
  function Dots(avg: Option<real>): (dots: seq<bool>)
    ensures avg == None || avg.value == 0.0 ==> dots == []
    ensures avg != None && avg.value != 0.0 ==> |dots| == 5
    ensures avg != None && avg.value != 0.0 ==> forall i :: 0 <= i < 5 ==> (dots[i] <==> (i + 1) as real <= avg.value)
  {
    match avg
    case None => []
    case Some(v) =>
      if v == 0.0 then []
      else [1.0 <= v, 2.0 <= v, 3.0 <= v, 4.0 <= v, 5.0 <= v]
  }

  function LitCount(dots: seq<bool>): nat {
    if dots == [] then 0 else (if dots[0] then 1 else 0) + LitCount(dots[1..])
  }

  /** The dots are not rounded: a mean in [1, 5] lights as many dots as its
      integer part. */
  lemma LitDotsAreFloor(avg: real)
    requires 1.0 <= avg <= 5.0
    ensures LitCount(Dots(Some(avg))) == avg.Floor
  {
    var dots := Dots(Some(avg));
    assert LitCount(dots) == LitCount(dots[1..]) + (if 1.0 <= avg then 1 else 0);
    assert LitCount(dots[1..]) == LitCount(dots[2..]) + (if 2.0 <= avg then 1 else 0);
    assert LitCount(dots[2..]) == LitCount(dots[3..]) + (if 3.0 <= avg then 1 else 0);
    assert LitCount(dots[3..]) == LitCount(dots[4..]) + (if 4.0 <= avg then 1 else 0);
    assert LitCount(dots[4..]) == LitCount(dots[5..]) + (if 5.0 <= avg then 1 else 0);
    assert dots[5..] == [];
    if avg < 2.0 { assert avg.Floor == 1; }
    else if avg < 3.0 { assert avg.Floor == 2; }
    else if avg < 4.0 { assert avg.Floor == 3; }
    else if avg < 5.0 { assert avg.Floor == 4; }
    else { assert avg.Floor == 5; }
  }

  // ---------------------------------------------------------------- months

  /** A displayed month: the year and the 0-based month. */
  datatype YearMonth = YearMonth(year: int, month: int)

  predicate ValidMonth(ym: YearMonth) {
    0 <= ym.month < 12
  }

  /** The month before: January goes back to December of the year before. */
  function Previous(ym: YearMonth): (r: YearMonth)
    requires ValidMonth(ym)
    ensures ValidMonth(r)
    ensures r.year * 12 + r.month == ym.year * 12 + ym.month - 1
  {
    if ym.month == 0 then YearMonth(ym.year - 1, 11) else YearMonth(ym.year, ym.month - 1)
  }

  /** The month after: December goes forward to January of the year after. */
  function Next(ym: YearMonth): (r: YearMonth)
    requires ValidMonth(ym)
    ensures ValidMonth(r)
    ensures r.year * 12 + r.month == ym.year * 12 + ym.month + 1
  {
    if ym.month == 11 then YearMonth(ym.year + 1, 0) else YearMonth(ym.year, ym.month + 1)
  }

  /** Going back a month and forward again returns to the same month, and the other way round. */
  lemma PreviousNextInverse(ym: YearMonth)
    requires ValidMonth(ym)
    ensures Next(Previous(ym)) == ym
    ensures Previous(Next(ym)) == ym
  {
  }

  // ---------------------------------------------------------------- the month's query

  /** A calendar day, the month counted from 1, as the `date` column holds it. */
  datatype Day = Day(year: int, month: int, day: int)

  predicate IsLeapYear(y: int) {
    y % 4 == 0 && (y % 100 != 0 || y % 400 == 0)
  }

  /** The number of days of a month of the Gregorian calendar. */
  function MonthLength(year: int, month: int): (n: int)
    requires 1 <= month <= 12
    ensures 28 <= n <= 31
  {
    if month == 2 then (if IsLeapYear(year) then 29 else 28)
    else if month == 4 || month == 6 || month == 9 || month == 11 then 30
    else 31
  }

  predicate ValidDay(d: Day) {
    1 <= d.month <= 12 && 1 <= d.day <= MonthLength(d.year, d.month)
  }

  /** Dates compare by year, then month, then day. */
  predicate NotAfter(a: Day, b: Day) {
    a.year < b.year || (a.year == b.year && (a.month < b.month || (a.month == b.month && a.day <= b.day)))
  }

  /** The day before a day. */
  function DayBefore(d: Day): (r: Day)
    requires ValidDay(d)
    ensures ValidDay(r) && NotAfter(r, d) && r != d
    ensures forall e :: ValidDay(e) && NotAfter(r, e) && NotAfter(e, d) ==> e == r || e == d
  {
    if d.day > 1 then Day(d.year, d.month, d.day - 1)
    else if d.month > 1 then Day(d.year, d.month - 1, MonthLength(d.year, d.month - 1))
    else Day(d.year - 1, 12, 31)
  }

  /** The date part of the UTC timestamp of local midnight of `d`, for a time
      zone `offsetMinutes` ahead of UTC (negative west of Greenwich, less than
      a day either way): east of UTC, local midnight is still the day before. */
  function UtcDateOfLocalMidnight(d: Day, offsetMinutes: int): Day
    requires ValidDay(d) && -1440 < offsetMinutes < 1440
  {
    if offsetMinutes > 0 then DayBefore(d) else d
  }

  /** The range of dates `loadMeals` asks for, as written: the first and the
      last day of the month are taken at local midnight and converted to UTC
      before their date is cut out. */
  function QueryRangeAsWritten(year: int, month: int, offsetMinutes: int): (r: (Day, Day))
    requires 0 <= month < 12 && -1440 < offsetMinutes < 1440
    ensures offsetMinutes <= 0 ==> r == QueryRange(year, month)
  {
    (UtcDateOfLocalMidnight(Day(year, month + 1, 1), offsetMinutes),
     UtcDateOfLocalMidnight(Day(year, month + 1, MonthLength(year, month + 1)), offsetMinutes))
  }

  /** The range of dates of the month, taken as local calendar days. */
  function QueryRange(year: int, month: int): (r: (Day, Day))
    requires 0 <= month < 12
  {
    (Day(year, month + 1, 1), Day(year, month + 1, MonthLength(year, month + 1)))
  }

  predicate InRange(range: (Day, Day), d: Day) {
    NotAfter(range.0, d) && NotAfter(d, range.1)
  }

  /** East of UTC the query as written misses the last day of the month and
      fetches the last day of the month before instead. */
  lemma AsWrittenMissesLastDay(year: int, month: int, offsetMinutes: int)
    requires 0 <= month < 12 && 0 < offsetMinutes < 1440
    ensures var range := QueryRangeAsWritten(year, month, offsetMinutes);
            && !InRange(range, Day(year, month + 1, MonthLength(year, month + 1)))
            && InRange(range, DayBefore(Day(year, month + 1, 1)))
  {
  }

  /** In Paris in summer (two hours ahead of UTC), the May 2024 query ends on
      2024-05-30, so the meals of 31 May are not loaded. */
  lemma ParisMay2024()
    ensures QueryRangeAsWritten(2024, 4, 120) == (Day(2024, 4, 30), Day(2024, 5, 30))
    ensures !InRange(QueryRangeAsWritten(2024, 4, 120), Day(2024, 5, 31))
  {
  }

  /** The query over local calendar days fetches exactly the days of the month. */
  lemma QueryRangeIsMonth(year: int, month: int, d: Day)
    requires 0 <= month < 12 && ValidDay(d)
    ensures InRange(QueryRange(year, month), d) <==> d.year == year && d.month == month + 1
  {
  }

  /** The calendar's state: the displayed month and the meals loaded for it. */
  class CalendarView {
    var current: YearMonth
    var meals: seq<CalendarMeal>

    ghost predicate Valid()
      reads this
    {
      ValidMonth(current)
    }

    constructor (year: int, month: int)
      requires 0 <= month < 12
      ensures Valid() && current == YearMonth(year, month) && meals == []
    {
      current := YearMonth(year, month);
      meals := [];
    }

    /** `previousMonth`: show the month before; the meals stay until reloaded. */
    method PreviousMonth()
      requires Valid()
      modifies this
      ensures Valid() && current == Previous(old(current)) && meals == old(meals)
    {
      current := Previous(current);
    }

    /** `nextMonth`: show the month after; the meals stay until reloaded. */
    method NextMonth()
      requires Valid()
      modifies this
      ensures Valid() && current == Next(old(current)) && meals == old(meals)
    {
      current := Next(current);
    }

    /** The dates `loadMeals` asks for: the displayed month's days. */
    function MealQuery(): (r: (Day, Day))
      reads this
      requires Valid()
      ensures forall d :: ValidDay(d) ==> (InRange(r, d) <==> d.year == current.year && d.month == current.month + 1)
    {
      QueryRange(current.year, current.month)
    }

    /** `loadMeals` once the backend has answered: any list of rows, even an
        empty one, replaces the meals; a null answer leaves them as they were. */
    method LoadMeals(data: Option<seq<CalendarMeal>>)
      requires Valid()
      modifies this
      ensures Valid() && current == old(current)
      ensures meals == if data == None then old(meals) else data.value
    {
      if data != None {
        meals := data.value;
      }
    }

    /** The meals of a day of the displayed month. */
    function MealsOn(day: nat): (r: seq<CalendarMeal>)
      reads this
      requires Valid()
      ensures forall i :: 0 <= i < |r| ==> r[i].date == DateKey(current.year, current.month, day)
      ensures SubsequenceOf(r, meals)
      ensures forall m :: multiset(r)[m] == if m.date == DateKey(current.year, current.month, day) then multiset(meals)[m] else 0
    {
      MealsForDay(meals, DateKey(current.year, current.month, day))
    }
  }
}
