/**
 * The meal form's nutrition estimator: from a free-text description and a meal
 * type it guesses a quality score (1 to 5) and a calorie estimate (100 to 1500)
 * by looking for four families of French keywords; and the building of the meal
 * row that the form inserts.
 *
 * The score moves in steps of a half point, so it is kept here in half points.
 */
module MealForm {
  import opened Wrappers
  import opened Text
  import opened Schema

  const HealthyWords: seq<string> := ["légumes", "fruits", "salade"]
  const FriedWords: seq<string> := ["frit", "burger", "pizza"]
  const ProteinWords: seq<string> := ["poisson", "poulet"]
  const SugaryWords: seq<string> := ["sucre", "gâteau", "bonbon"]

  /** Which keyword families a (lower-cased) description mentions. */
  datatype Categories = Categories(healthy: bool, fried: bool, protein: bool, sugary: bool)

  /** The estimate shown in the form: a whole quality score and a calorie count. */
  datatype Nutrition = Nutrition(qualityScore: int, calories: int)

  function Classify(keywords: string): (c: Categories)
    ensures c.healthy <==> ContainsAny(keywords, HealthyWords)
    ensures c.fried <==> ContainsAny(keywords, FriedWords)
    ensures c.protein <==> ContainsAny(keywords, ProteinWords)
    ensures c.sugary <==> ContainsAny(keywords, SugaryWords)
  {
    ThreeWords(keywords, HealthyWords);
    ThreeWords(keywords, FriedWords);
    ThreeWords(keywords, SugaryWords);
    assert ProteinWords[1..][1..] == [];
    Categories(
      Contains(keywords, "légumes") || Contains(keywords, "fruits") || Contains(keywords, "salade"),
      Contains(keywords, "frit") || Contains(keywords, "burger") || Contains(keywords, "pizza"),
      Contains(keywords, "poisson") || Contains(keywords, "poulet"),
      Contains(keywords, "sucre") || Contains(keywords, "gâteau") || Contains(keywords, "bonbon"))
  }

  lemma ThreeWords(s: string, words: seq<string>)
    requires |words| == 3
    ensures ContainsAny(s, words) == (Contains(s, words[0]) || Contains(s, words[1]) || Contains(s, words[2]))
  {
    assert words[1..][1..][1..] == [];
  }

  /** The score, in half points, before rounding: 3 points, then one point up for
      healthy food, one down for fried food, half a point up for protein and half a
      point down for sugar, each family counted once. */
  function HalfScore(c: Categories): int {
    6 + (if c.healthy then 2 else 0) - (if c.fried then 2 else 0)
      + (if c.protein then 1 else 0) - (if c.sugary then 1 else 0)
  }

  /** The calories before the meal-type scaling: 500, then 100 less for healthy
      food, 200 more for fried food and 150 more for sugar. */
  function BaseCalories(c: Categories): int {
    500 - (if c.healthy then 100 else 0) + (if c.fried then 200 else 0)
      + (if c.sugary then 150 else 0)
  }

  /** `Math.round(n / d)`: the nearest integer, halves rounded up. */
  function RoundDiv(n: int, d: int): (r: int)
    requires d > 0
    ensures 2 * d * r - d <= 2 * n < 2 * d * r + d
  {
    (2 * n + d) / (2 * d)
  }

  /** `Math.max(lo, Math.min(hi, x))`. */
  function Clamp(lo: int, hi: int, x: int): (r: int)
    requires lo <= hi
    ensures lo <= r <= hi
    ensures lo <= x <= hi ==> r == x
  {
    if x > hi then hi else if x < lo then lo else x
  }

  /** Breakfast keeps 70% of the calories and a snack 40%, rounded; lunch and
      dinner keep all of them. */
  function ScaleCalories(calories: int, mealType: MealType): int {
    match mealType
    case Breakfast => RoundDiv(calories * 7, 10)
    case Snack => RoundDiv(calories * 4, 10)
    case _ => calories
  }

  /** The estimate for a set of keyword families. The clamps never bite: the
      score stays within 2..5 and the calories within 160..850. */
  function EstimateFor(c: Categories, mealType: MealType): (r: Nutrition)
    ensures 2 <= r.qualityScore <= 5
    ensures 160 <= r.calories <= 850
    ensures 2 * r.qualityScore - 1 <= HalfScore(c) < 2 * r.qualityScore + 1
  {
    Nutrition(Clamp(1, 5, RoundDiv(HalfScore(c), 2)),
              Clamp(100, 1500, ScaleCalories(BaseCalories(c), mealType)))
  }

  /** What `analyzeNutrition` computes for a description and a meal type. */
  function Estimate(description: string, mealType: MealType): (r: Nutrition)
    ensures 1 <= r.qualityScore <= 5
    ensures 100 <= r.calories <= 1500
  {
    EstimateFor(Classify(Lower(description)), mealType)
  }

  /** `analyzeNutrition`: the step-by-step computation on the form's description
      and meal type, returning the values it stores in the form state. */
  method AnalyzeNutrition(description: string, mealType: MealType)
    returns (qualityScore: int, caloriesEstimate: int)
    ensures Nutrition(qualityScore, caloriesEstimate) == Estimate(description, mealType)
    ensures 1 <= qualityScore <= 5 && 100 <= caloriesEstimate <= 1500
  {
    var keywords := Lower(description);
    ghost var c := Classify(keywords);
    var halfScore := 6;
    var calories := 500;
    if Contains(keywords, "légumes") || Contains(keywords, "fruits") || Contains(keywords, "salade") {
      halfScore := halfScore + 2;
      calories := calories - 100;
    }
    assert halfScore == 6 + (if c.healthy then 2 else 0);
    assert calories == 500 - (if c.healthy then 100 else 0);
    if Contains(keywords, "frit") || Contains(keywords, "burger") || Contains(keywords, "pizza") {
      halfScore := halfScore - 2;
      calories := calories + 200;
    }
    assert halfScore == 6 + (if c.healthy then 2 else 0) - (if c.fried then 2 else 0);
    assert calories == 500 - (if c.healthy then 100 else 0) + (if c.fried then 200 else 0);
    if Contains(keywords, "poisson") || Contains(keywords, "poulet") {
      halfScore := halfScore + 1;
    }
    assert halfScore == 6 + (if c.healthy then 2 else 0) - (if c.fried then 2 else 0)
                        + (if c.protein then 1 else 0);
    if Contains(keywords, "sucre") || Contains(keywords, "gâteau") || Contains(keywords, "bonbon") {
      halfScore := halfScore - 1;
      calories := calories + 150;
    }
    assert halfScore == HalfScore(c) && calories == BaseCalories(c);
    if mealType == Breakfast {
      calories := RoundDiv(calories * 7, 10);
    }
    if mealType == Snack {
      calories := RoundDiv(calories * 4, 10);
    }
    assert calories == ScaleCalories(BaseCalories(c), mealType);
    qualityScore := Clamp(1, 5, RoundDiv(halfScore, 2));
    caloriesEstimate := Clamp(100, 1500, calories);
  }

  /** The meal type changes the calories only, never the score. */
  lemma MealTypeOnlyScalesCalories(description: string, t1: MealType, t2: MealType)
    ensures Estimate(description, t1).qualityScore == Estimate(description, t2).qualityScore
    ensures t1 in {Lunch, Dinner} && t2 in {Lunch, Dinner} ==> Estimate(description, t1) == Estimate(description, t2)
  {
  }

  /** Matching ignores case: a description and its lower-cased form give the same estimate. */
  lemma CaseInsensitive(description: string, mealType: MealType)
    ensures Estimate(Lower(description), mealType) == Estimate(description, mealType)
  {
    LowerIdempotent(description);
  }

  /** The protein family adds half a point and leaves the calories alone. */
  lemma ProteinAddsHalfPoint(c: Categories, mealType: MealType)
    ensures HalfScore(c.(protein := true)) == HalfScore(c.(protein := false)) + 1
    ensures EstimateFor(c.(protein := true), mealType).calories == EstimateFor(c.(protein := false), mealType).calories
  {
  }

  /** Without any keyword the score is 3 and the calories are 500 for lunch and
      dinner, 350 for breakfast and 200 for a snack. */
  lemma NoKeywordBaseline(description: string, mealType: MealType)
    requires Classify(Lower(description)) == Categories(false, false, false, false)
    ensures Estimate(description, mealType).qualityScore == 3
    ensures Estimate(description, mealType).calories
            == match mealType case Breakfast => 350 case Snack => 200 case _ => 500
  {
  }

  /** "pizza au sucre" mentions the fried and the sugary families only. */
  lemma PizzaAuSucreCategories(d: string)
    requires d == "pizza au sucre"
    ensures Classify(d) == Categories(false, true, false, true)
  {
    PizzaAuSucreNotHealthy(d);
    PizzaAuSucreNoProtein(d);
    assert Contains(d, "pizza") by { assert OccursAt(d, "pizza", 0); }
    assert Contains(d, "sucre") by { assert OccursAt(d, "sucre", 9); }
  }

  lemma PizzaAuSucreNotHealthy(d: string)
    requires d == "pizza au sucre"
    ensures !Contains(d, "légumes") && !Contains(d, "fruits") && !Contains(d, "salade")
  {
    MissingCharNotContained(d, "légumes", 0);
    MissingCharNotContained(d, "fruits", 0);
    MissingCharNotContained(d, "salade", 2);
  }

  lemma PizzaAuSucreNoProtein(d: string)
    requires d == "pizza au sucre"
    ensures !Contains(d, "poisson") && !Contains(d, "poulet")
  {
    MissingCharNotContained(d, "poisson", 1);
    MissingCharNotContained(d, "poulet", 1);
  }

  /** "salade" mentions the healthy family only. */
  lemma SaladeCategories(d: string)
    requires d == "salade"
    ensures Classify(d) == Categories(true, false, false, false)
  {
    assert OccursAt(d, "salade", 0);
    MissingCharNotContained(d, "légumes", 1);
    MissingCharNotContained(d, "fruits", 0);
    MissingCharNotContained(d, "frit", 0);
    MissingCharNotContained(d, "burger", 0);
    MissingCharNotContained(d, "pizza", 0);
    MissingCharNotContained(d, "poisson", 0);
    MissingCharNotContained(d, "poulet", 0);
    MissingCharNotContained(d, "sucre", 1);
    MissingCharNotContained(d, "gâteau", 0);
    MissingCharNotContained(d, "bonbon", 0);
  }

  /** Pizza with sugar at lunch scores round(1.5) = 2 with 850 calories. */
  lemma FriedAndSugaryExample()
    ensures Estimate("pizza au sucre", Lunch) == Nutrition(2, 850)
  {
    LowerNoUpper("pizza au sucre");
    PizzaAuSucreCategories("pizza au sucre");
  }

  /** A salad at lunch scores 4 with 400 calories. */
  lemma SaladExample()
    ensures Estimate("salade", Lunch) == Nutrition(4, 400)
  {
    LowerNoUpper("salade");
    SaladeCategories("salade");
  }

  // ---------------------------------------------------------------- handleSubmit

  /** The row the form inserts into `meals`. */
  datatype MealInsert = MealInsert(
    userId: string, date: string, mealType: MealType, description: string,
    photoUrl: Option<string>, qualityScore: int, caloriesEstimate: Option<int>,
    notes: Option<string>)

  /** `s || null` for a string field: the empty string becomes null. */
  function EmptyToNull(s: string): (r: Option<string>)
    ensures r == None <==> s == ""
    ensures r != None ==> r.value == s
  {
    if s == "" then None else Some(s)
  }

  /** The row built by `handleSubmit`, or None when nobody is signed in (nothing
      is inserted). `parsedCalories` is what `parseInt` yields for a non-empty
      calories field. */
  function BuildMealRow(user: Option<string>, date: string, mealType: MealType,
                        description: string, photoUrl: string, qualityScore: int,
                        caloriesField: string, parsedCalories: int, notes: string): (r: Option<MealInsert>)
    ensures r == None <==> user == None
    ensures r != None ==>
              && r.value.userId == user.value && r.value.date == date && r.value.mealType == mealType
              && r.value.description == description && r.value.qualityScore == qualityScore
    ensures r != None ==>
              && (r.value.photoUrl == None <==> photoUrl == "")
              && (r.value.notes == None <==> notes == "")
              && (r.value.caloriesEstimate == None <==> caloriesField == "")
    ensures r != None ==>
              && (photoUrl != "" ==> r.value.photoUrl == Some(photoUrl))
              && (notes != "" ==> r.value.notes == Some(notes))
              && (caloriesField != "" ==> r.value.caloriesEstimate == Some(parsedCalories))
  {
    match user
    case None => None
    case Some(id) =>
      Some(MealInsert(id, date, mealType, description, EmptyToNull(photoUrl), qualityScore,
                      if caloriesField == "" then None else Some(parsedCalories),
                      EmptyToNull(notes)))
  }

  /** The estimated calories survive the form's text field: written out in
      decimal, read back as digits, they reach the row unchanged, and so does
      the estimated score. */
  lemma EstimateReachesRow(user: string, date: string, description: string, mealType: MealType,
                           photoUrl: string, notes: string)
    ensures var e := Estimate(description, mealType);
            var field := NatToString(e.calories);
            var row := BuildMealRow(Some(user), date, mealType, description, photoUrl,
                                    e.qualityScore, field, DigitsValue(field), notes);
            row != None && row.value.caloriesEstimate == Some(e.calories)
            && row.value.qualityScore == e.qualityScore
  {
    NatToStringRoundTrip(Estimate(description, mealType).calories);
  }
}
