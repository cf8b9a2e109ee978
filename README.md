# Meal tracker core, in Dafny

A model of the logic of a meal-tracking web application: users log meals on a
monthly calendar, get an automatic nutrition estimate for each meal, see
statistics over the last week or month, and share meals to a social feed where
others like and comment on them. The model covers the components' own
computations and state changes. The backend (queries, inserts, authentication,
realtime updates) is represented by the requests the components send and by the
answers they receive, which are passed in as parameters.

Modules, one per component, plus two shared ones:

- `MealForm` (`meal_form.dfy`): the keyword-based nutrition estimator
  `analyzeNutrition`, and the meal row built by `handleSubmit`.
  - The score moves in half points, so it is kept in half points.
  - `Math.round` is rounding half up on a rational.
- `NutritionStats` (`nutrition_stats.dfy`): grouping the period's meal rows by
  date into day records, then the overall quality, the calories per day, the
  meal total and the trend.
  - The grouping loop is proved equal to a reduce, `Step`/`Reduce`, which is
    in turn proved to hold each date's rows.
- `Calendar` (`calendar.dfy`):
  - the month grid and the `YYYY-MM-DD` key of a day;
  - the meals of a day, their mean quality and its five dots;
  - the three-meal cap with its `+n` counter;
  - month navigation;
  - the date range of the month's query.
- `ShareMealModal` (`share_meal_modal.dfy`): the text of a shared post, built
  section by section, and the post row with its media.
- `SocialFeed` (`social_feed.dfy`): a `Feed` class holding the posts, the
  liked posts, the loaded comments, the drafts and the open post. Its methods
  are specified by pure transition functions (`Toggled`, `AfterLoad`,
  `Appended`, `CommentRequest`, `NextExpanded`), and the lemmas are stated about
  those functions. The module also has the relative age shown on each post.
- `Text` (`text.dfy`): the JavaScript string operations the components rely on.
  - `includes`, `toLowerCase`, `trim` (the ECMAScript whitespace set),
    `String(n)`, `padStart`, `repeat` and `join`.
  - Writing a number in decimal is proved to read back as the same number.
- `Numbers` (`numbers.dfy`): sums and means as the views compute them, with
  their bounds and the facts about real division those bounds rest on.
- `Schema` and `Wrappers`: the meal type and media type enumerations, and `Option`.

JavaScript truthiness is modelled explicitly: a nullable number counts only
when it is present and non-zero, and an empty array counts as present.

The calendar's quality dots are sometimes described as rounded to the nearest
integer. The code lights dot `k` when `k <= avg`, which is the integer part of
the mean; the model follows the code (`Calendar.LitDotsAreFloor`).

## Model

| member | source | states |
|---|---|---|
| Text.Contains | src/components/MealForm.tsx:39 | `includes`: true exactly when the pattern occurs at some position of the text |
| Text.ContainsAny | src/components/MealForm.tsx:39 | true exactly when one of the patterns occurs in the text |
| Text.Lower | src/components/MealForm.tsx:35 | `toLowerCase`: same length, each character lowered, no upper-case letter left |
| Text.LowerIdempotent | src/components/MealForm.tsx:35 | lowering an already lowered text changes nothing |
| Text.Trim | src/components/ShareMealModal.tsx:44-45 | `trim`: the result occurs in the text with only whitespace around it, and neither starts nor ends with whitespace |
| Text.NatToStringRoundTrip | src/components/MealForm.tsx:59 | `String(n)` read back as decimal digits gives `n` |
| Text.PadStart | src/components/Calendar.tsx:64 | `padStart`: a text already wide enough is kept; otherwise fill characters in front, up to the width |
| Text.JoinSnoc | src/components/ShareMealModal.tsx:59 | `join`: a part pushed at the end follows the earlier parts, one separator apart |
| Text.Repeat | src/components/ShareMealModal.tsx:49 | `repeat`: exactly `n` copies of the character |
| Numbers.SumBounds | src/components/NutritionStats.tsx:48-51 | the sum of `n` values in [lo, hi] lies in [n·lo, n·hi] |
| Numbers.MeanBounds | src/components/NutritionStats.tsx:48-50 | the mean of a non-empty list of values in [lo, hi] lies in [lo, hi] |
| Numbers.MeanRealBounds | src/components/NutritionStats.tsx:61-63 | the same for a list of reals |
| Numbers.MeanPositive | src/components/NutritionStats.tsx:67-69 | the mean of a non-empty list of positive values is positive |
| Numbers.MeanRealPositive | src/components/NutritionStats.tsx:61-63 | the same for a list of reals |
| MealForm.Classify | src/components/MealForm.tsx:39-53 | each keyword family is flagged exactly when the text contains one of that family's keywords |
| MealForm.RoundDiv | src/components/MealForm.tsx:55-58 | `Math.round(n/d)`: the nearest integer, halves going up |
| MealForm.Clamp | src/components/MealForm.tsx:58-59 | `max(lo, min(hi, x))` lies in [lo, hi] and is `x` whenever `x` already does |
| MealForm.EstimateFor | src/components/MealForm.tsx:36-59 | score in [2, 5] and calories in [160, 850] for every keyword combination; the score is the half-point total rounded half up |
| MealForm.Estimate | src/components/MealForm.tsx:34-60 | for every description and meal type: score in [1, 5], calories in [100, 1500] |
| MealForm.AnalyzeNutrition | src/components/MealForm.tsx:34-60 | the step-by-step computation yields `Estimate` of the description and meal type, within the bounds |
| MealForm.ScaleCalories | src/components/MealForm.tsx:55-56 | breakfast keeps 7/10 and snack 4/10 of the calories, rounded half up, other meals all of them; the next row states its effect on the estimate |
| MealForm.MealTypeOnlyScalesCalories | src/components/MealForm.tsx:55-56 | the meal type never changes the score; lunch and dinner give the same estimate |
| MealForm.CaseInsensitive | src/components/MealForm.tsx:35 | a description and its lower-cased form get the same estimate |
| MealForm.ProteinAddsHalfPoint | src/components/MealForm.tsx:47-49 | the protein family adds one half point and no calories |
| MealForm.NoKeywordBaseline | src/components/MealForm.tsx:36-58 | with no keyword: score 3, calories 350 at breakfast, 200 for a snack, 500 otherwise |
| MealForm.PizzaAuSucreCategories | src/components/MealForm.tsx:43-53 | "pizza au sucre" is fried and sugary only |
| MealForm.SaladeCategories | src/components/MealForm.tsx:39-53 | "salade" is healthy only |
| MealForm.FriedAndSugaryExample | src/components/MealForm.tsx:43-58 | fried and sugary at lunch: score round(1.5) = 2, 850 calories |
| MealForm.SaladExample | src/components/MealForm.tsx:39-58 | "salade" at lunch: score 4, 400 calories |
| MealForm.EmptyToNull | src/components/MealForm.tsx:73-76 | an empty field is sent as null: null exactly for the empty string, the string itself otherwise |
| MealForm.BuildMealRow | src/components/MealForm.tsx:62-77 | no row without a user; the row copies user, date, meal type, description and score; photo, notes and calories are null exactly when their fields are empty, and otherwise the photo and notes text and the parsed calories |
| MealForm.EstimateReachesRow | src/components/MealForm.tsx:58-75 | the estimated calories, written into the text field and parsed back, reach the row unchanged, as does the score |
| NutritionStats.Dates | src/components/NutritionStats.tsx:36-46 | the day keys are distinct and are exactly the dates present among the rows |
| NutritionStats.StepHolds | src/components/NutritionStats.tsx:36-44 | one reduce step keeps the accumulator holding exactly each date's rows, in first-occurrence order |
| NutritionStats.ReduceHolds | src/components/NutritionStats.tsx:36-44 | the reduce creates one entry per distinct date holding that date's truthy scores, truthy calories and meal count |
| NutritionStats.GroupByDate | src/components/NutritionStats.tsx:36-44 | the loop over the rows builds exactly the reduce's accumulator: the same entries and the same creation order |
| NutritionStats.DailyStatsOf | src/components/NutritionStats.tsx:46-53 | one record per distinct date, in first-occurrence order, whose meal count is the number of rows of that date |
| NutritionStats.ReduceEntries | src/components/NutritionStats.tsx:46-53 | the accumulator's entries, taken in creation order, summarize to the day records, one per distinct date |
| NutritionStats.LoadStats | src/components/NutritionStats.tsx:35-55 | the grouping loop, then the map over its entries in creation order, gives `DailyStatsOf(rows)`: one record per distinct date, first-occurrence order |
| NutritionStats.SummarizeEntries | src/components/NutritionStats.tsx:46-53 | the `map` over the entries: one day record per entry, each the summary of the entry at the same position |
| NutritionStats.DatesInFirstOccurrenceOrder | src/components/NutritionStats.tsx:44-46 | the days are listed in the order their dates first occur among the rows |
| NutritionStats.DaysNewestFirst | src/components/NutritionStats.tsx:29-46 | rows delivered newest date first give day records strictly newest first |
| NutritionStats.TotalMeals | src/components/NutritionStats.tsx:71-73 | `getTotalMeals`: the day counts summed; the next row ties it to the rows |
| NutritionStats.TotalMealsIsRowCount | src/components/NutritionStats.tsx:71-73 | the meal counts of the days add up to the number of rows |
| NutritionStats.CountOnDates | src/components/NutritionStats.tsx:36-44 | every row lands in the group of exactly one distinct date: the group sizes add up to the number of rows |
| NutritionStats.DayQualityInRange | src/components/NutritionStats.tsx:46-53 | with scores in [1, 5], each day's mean is 0 (no scored meal) or in [1, 5] |
| NutritionStats.PositiveQualities | src/components/NutritionStats.tsx:60 | holds only positive day means, and is empty exactly when no day has one |
| NutritionStats.PositiveQualitiesAround | src/components/NutritionStats.tsx:60 | every day with a positive mean contributes that mean at its own place and every other day contributes nothing, so all positive means are kept, in order |
| NutritionStats.OverallAvgQuality | src/components/NutritionStats.tsx:59-63 | never negative, and positive exactly when some day has a positive mean |
| NutritionStats.OverallQualityInRange | src/components/NutritionStats.tsx:59-63 | with day means 0 or in [1, 5], the overall quality is 0 or in [1, 5] |
| NutritionStats.PeriodQualityInRange | src/components/NutritionStats.tsx:24-63 | with every score in [1, 5], the period's overall quality is 0 or in [1, 5] |
| NutritionStats.PositiveTotals | src/components/NutritionStats.tsx:66 | holds only positive day totals, and is empty exactly when no day has one |
| NutritionStats.PositiveTotalsAround | src/components/NutritionStats.tsx:66 | every day with a positive total contributes that total at its own place and every other day contributes nothing, so all positive totals are kept, in order |
| NutritionStats.AvgCaloriesPerDay | src/components/NutritionStats.tsx:65-69 | never negative, and positive exactly when some day has calories |
| NutritionStats.MeanQuality | src/components/NutritionStats.tsx:80-81 | the mean of the day means of a half, an unscored day counting as 0; `MeanQualityConstant` shows equal means average to that mean |
| NutritionStats.TrendOf | src/components/NutritionStats.tsx:75-76 | fewer than two days is always stable |
| NutritionStats.MeanQualityConstant | src/components/NutritionStats.tsx:80-81 | days that all have the same mean quality average to that mean |
| NutritionStats.TrendOfConstantIsStable | src/components/NutritionStats.tsx:75-86 | days of equal mean quality give a stable trend |
| NutritionStats.TrendSwapHalves | src/components/NutritionStats.tsx:77-85 | swapping two equal halves turns up into down and keeps stable stable |
| NutritionStats.UnscoredDayCountsInTrend | src/components/NutritionStats.tsx:80-84 | a day without scores counts as 0 in the trend: a recent unscored day before a day at 3 reads as down |
| NutritionStats.OverallQualityIsNotMealWeighted | src/components/NutritionStats.tsx:59-63 | the overall quality is the unweighted mean of day means (2.5 on the sample) and differs from the meal-weighted mean (2.0) |
| Calendar.DaysInMonth | src/components/Calendar.tsx:45-61 | one blank per weekday before the first of the month, then day `d` at position `start + d - 1`, nothing else |
| Calendar.TwoDigitsRoundTrip | src/components/Calendar.tsx:64 | a number below 100 padded to two characters is two digits that read back as the number |
| Calendar.DateKey | src/components/Calendar.tsx:64 | the key `year-MM-DD` built from the year, the month + 1 and the day, each padded to two digits; its format and injectivity are the next two rows |
| Calendar.DateKeyFormat | src/components/Calendar.tsx:64 | for a four-digit year the key is `YYYY-MM-DD` (dashes at 4 and 7, digits elsewhere) and year, month + 1 and day read back from it |
| Calendar.DateKeyInjective | src/components/Calendar.tsx:64 | two days with the same key are the same day |
| Calendar.MealsForDay | src/components/Calendar.tsx:63-66 | exactly the meals of that date, each as often as among all meals, in their original order |
| Calendar.Scores | src/components/Calendar.tsx:69 | empty exactly when no meal of the day has a truthy score |
| Calendar.ScoresAround | src/components/Calendar.tsx:69 | every meal with a truthy score contributes that score at its own place and every other meal contributes nothing, so all truthy scores are kept, in order |
| Calendar.AverageQualityForDay | src/components/Calendar.tsx:68-72 | null exactly when no meal of the day has a truthy score |
| Calendar.AverageQualityInRange | src/components/Calendar.tsx:68-72 | with scores in [1, 5], a day's mean, when there is one, is in [1, 5] |
| Calendar.Shown | src/components/Calendar.tsx:146 | the first three meals of the day, or all of them when there are fewer |
| Calendar.Overflow | src/components/Calendar.tsx:165-166 | a counter appears exactly past three meals, and it is at least 1 |
| Calendar.ShownPlusOverflow | src/components/Calendar.tsx:146-166 | shown meals plus the counter account for every meal of the day |
| Calendar.Dots | src/components/Calendar.tsx:170-180 | no dots for a null or zero mean; otherwise five, dot `k` lit exactly when `k <= avg` |
| Calendar.LitDotsAreFloor | src/components/Calendar.tsx:173-177 | a mean in [1, 5] lights as many dots as its integer part |
| Calendar.Previous | src/components/Calendar.tsx:74-76 | a valid month, one month earlier (January goes to December of the year before) |
| Calendar.Next | src/components/Calendar.tsx:78-80 | a valid month, one month later (December goes to January of the year after) |
| Calendar.PreviousNextInverse | src/components/Calendar.tsx:74-80 | going back then forward, or forward then back, returns to the same month |
| Calendar.MonthLength | src/components/Calendar.tsx:49-50 | every month has 28 to 31 days |
| Calendar.DayBefore | src/components/Calendar.tsx:32-33 | the valid day immediately before the given one: strictly earlier, with no valid day in between |
| Calendar.QueryRangeAsWritten | src/components/Calendar.tsx:31-40 | the month's dates taken through UTC; at or west of UTC they are the month's own first and last days |
| Calendar.AsWrittenMissesLastDay | src/components/Calendar.tsx:31-40 | east of UTC the range leaves out the month's last day and takes in the previous month's last day |
| Calendar.ParisMay2024 | src/components/Calendar.tsx:31-40 | two hours ahead of UTC, May 2024 is queried as 30 April to 30 May, so 31 May is not loaded |
| Calendar.QueryRangeIsMonth | src/components/Calendar.tsx:31-40 | the range of local calendar days contains a day exactly when it belongs to the month |
| Calendar.CalendarView.constructor | src/components/Calendar.tsx:21-22 | a valid month with no meals loaded |
| Calendar.CalendarView.PreviousMonth | src/components/Calendar.tsx:74-76 | the displayed month becomes `Previous` of the old one; the meals stay |
| Calendar.CalendarView.NextMonth | src/components/Calendar.tsx:78-80 | the displayed month becomes `Next` of the old one; the meals stay |
| Calendar.CalendarView.MealQuery | src/components/Calendar.tsx:31-40 | the queried range contains a day exactly when it is in the displayed month |
| Calendar.CalendarView.LoadMeals | src/components/Calendar.tsx:42 | a null answer leaves the meals unchanged; any list, even an empty one, replaces them |
| Calendar.CalendarView.MealsOn | src/components/Calendar.tsx:63-66 | every loaded meal dated with the day's key and no other, each as often as it was loaded, in loaded order |
| ShareMealModal.MealTypeLabel | src/components/ShareMealModal.tsx:25-30 | each meal type's emoji and French name |
| ShareMealModal.MealTypeLabelInjective | src/components/ShareMealModal.tsx:25-30 | different meal types have different labels |
| ShareMealModal.AppendComment | src/components/ShareMealModal.tsx:44-46 | appends the comment section: the trimmed comment after a blank line and the speech-balloon mark, nothing for a blank draft |
| ShareMealModal.AppendQuality | src/components/ShareMealModal.tsx:48-51 | a negative score throws; otherwise the quality section is appended, nothing for a null or zero score |
| ShareMealModal.CollectNutrition | src/components/ShareMealModal.tsx:54-58 | the pushes give `NutritionItems`: one item per non-null, non-zero amount, calories then protein, carbohydrates and fat |
| ShareMealModal.AppendNutrition | src/components/ShareMealModal.tsx:53-59 | appends the nutrition line, or nothing when no amount is present |
| ShareMealModal.PostContent | src/components/ShareMealModal.tsx:42-59 | the post text: header, comment, quality and nutrition sections in that order, or RangeError; the lemmas below state what each section holds |
| ShareMealModal.ComposeContent | src/components/ShareMealModal.tsx:42-59 | appending section by section gives `PostContent` (RangeError included) |
| ShareMealModal.HandleShare | src/components/ShareMealModal.tsx:37-68 | nothing without a user; a throw exactly on RangeError; otherwise a row with user, meal, composed text, the photo as media, and media type photo exactly for a non-empty photo |
| ShareMealModal.RangeErrorExactly | src/components/ShareMealModal.tsx:48-49 | composing fails exactly for a negative score |
| ShareMealModal.ContentStartsWithHeader | src/components/ShareMealModal.tsx:42 | every post opens with the label, a blank line and the description |
| ShareMealModal.BlankCommentIgnored | src/components/ShareMealModal.tsx:44-46 | a comment that trims to nothing does not change the post |
| ShareMealModal.ContentDeterminesComment | src/components/ShareMealModal.tsx:42-59 | for one meal, equal posts come from drafts with the same trimmed comment |
| ShareMealModal.StarsMatchScore | src/components/ShareMealModal.tsx:48-51 | a positive score gives exactly that many stars, then the score, which reads back as the same number |
| ShareMealModal.NutritionLinePresence | src/components/ShareMealModal.tsx:53-60 | one item per non-null, non-zero amount; the line is there exactly when an item is |
| ShareMealModal.ZeroCaloriesLikeNull | src/components/ShareMealModal.tsx:53-55 | zero calories and no calories give the same post, whatever the comment |
| SocialFeed.Toggled | src/components/SocialFeed.tsx:111-144 | the local state after a like toggle; the next three rows state its effect |
| SocialFeed.ToggleMovesOnePost | src/components/SocialFeed.tsx:111-144 | a toggle flips that post's like and moves its counter one step the same way; every other like and post is unchanged, and the toggled post differs only in its counter |
| SocialFeed.ToggleTwiceRestores | src/components/SocialFeed.tsx:111-144 | toggling the same post twice restores the likes and the counters |
| SocialFeed.ToggleKeepsCountsConsistent | src/components/SocialFeed.tsx:111-144 | counters at least 1 on liked posts and never negative stay so after a toggle |
| SocialFeed.AfterLoad | src/components/SocialFeed.tsx:94-109 | a cached list, even empty, is kept; otherwise a received list is stored and a failed query changes nothing |
| SocialFeed.LoadCommentsIdempotent | src/components/SocialFeed.tsx:94-109 | once a list is loaded, later loads change nothing whatever they would fetch |
| SocialFeed.Appended | src/components/SocialFeed.tsx:162-166 | the posts with comment lists are the old ones plus this post |
| SocialFeed.AppendedGrowsOneList | src/components/SocialFeed.tsx:162-166 | the post's list grows by the new comment at its end; other lists are unchanged |
| SocialFeed.CommentRequest | src/components/SocialFeed.tsx:147-155 | nothing is sent without a user or with a blank draft; otherwise the post, the user and the trimmed, non-blank draft |
| SocialFeed.TypedDraftIsSent | src/components/SocialFeed.tsx:147-155 | text typed under a post is what a signed-in user sends: nothing when it trims to blank, otherwise the trimmed text for that post |
| SocialFeed.NoDoubleComment | src/components/SocialFeed.tsx:147-167 | after a comment went through its draft is cleared, so sending again sends nothing |
| SocialFeed.NextExpanded | src/components/SocialFeed.tsx:171-178 | the open post is closed, or this post becomes the one open |
| SocialFeed.ToggleCommentsTwice | src/components/SocialFeed.tsx:171-178 | two toggles leave an open post open, and otherwise close all comments |
| SocialFeed.Feed.constructor | src/components/SocialFeed.tsx:30-35 | an empty feed for the given user |
| SocialFeed.Feed.LoadPosts | src/components/SocialFeed.tsx:61-80 | received posts replace the list; an error changes nothing |
| SocialFeed.Feed.LoadUserLikes | src/components/SocialFeed.tsx:82-92 | with a user and an answer, the liked posts are exactly the answered post ids |
| SocialFeed.Feed.ToggleLike | src/components/SocialFeed.tsx:111-144 | without a user nothing; otherwise the delete or insert request and the state `Toggled` from the old one |
| SocialFeed.Feed.LoadComments | src/components/SocialFeed.tsx:94-109 | queries exactly when no list is cached; comments become `AfterLoad` of the old ones |
| SocialFeed.Feed.AddComment | src/components/SocialFeed.tsx:146-169 | sends `CommentRequest`; with an answer the comment is appended and the draft cleared, otherwise nothing changes |
| SocialFeed.Feed.CommentToSend | src/components/SocialFeed.tsx:147-155 | the insert sent is `CommentRequest` of the signed-in user and the post's current draft |
| SocialFeed.Feed.RecordComment | src/components/SocialFeed.tsx:162-167 | the stored comment is `Appended` to the post's list and the post's draft is cleared; posts, likes and the open post stay |
| SocialFeed.Feed.SetDraft | src/components/SocialFeed.tsx:272 | the typed text becomes that post's draft; other drafts, posts, likes, comments and the open post stay |
| SocialFeed.Feed.ToggleComments | src/components/SocialFeed.tsx:171-178 | the open post becomes `NextExpanded`; comments load only when opening a post not yet loaded |
| SocialFeed.AgeOf | src/components/SocialFeed.tsx:180-189 | just now exactly under a minute, a date exactly from a week on, otherwise whole minutes, hours or days, each within its unit's range |
| SocialFeed.AgeMonotonic | src/components/SocialFeed.tsx:183-189 | an older post never gets a finer unit, nor a smaller count in the same unit |
| SocialFeed.FormatTimeAgo | src/components/SocialFeed.tsx:180-190 | the localized date from a week on, "À l'instant" under a minute |
| SocialFeed.FormatTimeAgoReadsBack | src/components/SocialFeed.tsx:186-188 | between a minute and a week: "Il y a ", the count in digits, the unit letter; the digits read back as the count |

## Findings

| source | as written | input that shows it | evidently intended | confidence | as-written member | corrected member |
|---|---|---|---|---|---|---|
| src/components/Calendar.tsx:32-39 | the month's first and last day are built at local midnight and converted with `toISOString` (UTC) before the date is cut out | a browser two hours ahead of UTC showing May 2024 asks for 2024-04-30 to 2024-05-30; meals of 31 May are never loaded | the month's own local calendar days, 2024-05-01 to 2024-05-31 | high for any time zone east of UTC; not executed | Calendar.ParisMay2024 | Calendar.QueryRangeIsMonth |

`Calendar.QueryRangeAsWritten` models the range as written and
`Calendar.AsWrittenMissesLastDay` generalises the example to every month and
every positive offset. `Calendar.CalendarView.MealQuery` uses the corrected
range.

## Left out

- The backend is not modelled: Supabase queries, inserts, deletes, authentication and the realtime channel. Requests are returned as values and answers are parameters. Query filters such as ordering and `limit(20)` are the backend's.
- Asynchrony and interleaving are not modelled. Each handler runs to completion as if the answer had arrived at once; stale closures over `posts` in `toggleLike` are not modelled.
- Rendering is not modelled: JSX, the "today" highlight, month and day names, `formatDate`, the avatar initial, the loading flags and the `onSave`, `onShared` and `onClose` callbacks.
- Photo upload with `FileReader` is not modelled. The Dashboard and MealDetails components are not part of this model.
- Floating point is not modelled: means are exact rationals. The breakfast and snack calorie factors are applied as exact tenths. This gives the same result because every scaled value is a whole number.
- Text.Lower: lowers ASCII and Latin-1 capitals only, not the whole of Unicode's case mapping.
- ShareMealModal.SharedMeal: gram amounts are whole numbers; decimal amounts, printed with a fractional part, are not modelled.
- ShareMealModal.ComposeContent: the RangeError for a star count above JavaScript's maximum string length is not modelled; only negative scores throw.
- ShareMealModal.HandleShare: an error returned by the insert is the backend's answer. Whether the callbacks then run is not modelled.
- MealForm.BuildMealRow: `parseInt` is a parameter for the calories field. Its `NaN` on a non-numeric field is not modelled.
- Calendar.QueryRangeAsWritten: one offset from UTC is used for both ends of the month. In a month with a daylight-saving change, `toISOString` applies a different offset at each end; that case is not modelled. The missed last day depends only on the offset in force on the last day.
- Calendar.Previous: the `Date` constructor's mapping of years 0 to 99 to 1900 to 1999 is not modelled.
- The month length and the first weekday of a month come from the platform's date arithmetic and are parameters of `Calendar.DaysInMonth`.
- The statistics window start (today minus 7 or 30 days, via `toISOString`) is not modelled; the rows of the window are the input.
- SocialFeed.FormatTimeAgo: the clock is not modelled. The elapsed milliseconds and the locale-formatted date are parameters.
- Per-day protein, carbohydrate and fat means are not modelled. The statistics query selects only date, quality score and calories, so the code computes none.
