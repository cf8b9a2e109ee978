/**
 * Sharing a meal to the social feed: the post text is composed from the meal
 * (its type label and description), the optional comment typed in the modal,
 * the quality as a row of stars, and a nutrition line; the post row carries
 * the meal's photo as its media.
 */
module ShareMealModal {
  import opened Wrappers
  import opened Text
  import opened Schema

  /** The meal being shared, as the modal receives it. Gram amounts are whole numbers here. */
  datatype SharedMeal = SharedMeal(
    id: string, date: string, mealType: MealType, description: string,
    photoUrl: Option<string>, qualityScore: Option<int>, calories: Option<int>,
    protein: Option<int>, carbs: Option<int>, fat: Option<int>)

  /** The row inserted into `social_posts`. */
  datatype PostInsert = PostInsert(
    userId: string, mealId: string, content: string,
    mediaUrl: Option<string>, mediaType: Option<MediaType>)

  /** Composing the text either gives the text or throws: `repeat` with a
      negative count raises a RangeError. */
  datatype Composed = Content(text: string) | RangeError

  /** What pressing "share" leads to. */
  datatype ShareOutcome =
    | NotSignedIn        // nothing happens
    | Thrown             // an exception leaves the handler; nothing is inserted
    | Insert(row: PostInsert)

  /** `mealTypeLabels`: an emoji and the French name of each meal type. */
  function MealTypeLabel(t: MealType): string {
    match t
    case Breakfast => "\U{1F305} Petit-déjeuner"
    case Lunch => "\U{1F37D}\U{FE0F} Déjeuner"
    case Dinner => "\U{1F319} Dîner"
    case Snack => "\U{1F36A} Collation"
  }

  /** The four labels are different, so the label names the meal type. */
  lemma MealTypeLabelInjective(s: MealType, t: MealType)
    requires MealTypeLabel(s) == MealTypeLabel(t)
    ensures s == t
  {
  }

  // ---------------------------------------------------------------- the parts of the text

  /** The label, a blank line, the description. */
  function Header(meal: SharedMeal): string {
    MealTypeLabel(meal.mealType) + "\n\n" + meal.description
  }

  /** The trimmed comment under a speech bubble, when it is not blank. */
  function CommentSection(draft: string): string {
    var comment := Trim(draft);
    if comment != [] then "\n\n\U{1F4AC} " + comment else ""
  }

  /** One star per quality point, then `Qualité: q/5`; nothing when the score
      is null or 0. */
  function QualitySection(q: Option<int>): string
    requires Truthy(q) ==> q.value > 0
  {
    if Truthy(q) then "\n\n" + Repeat('\U{2B50}', q.value) + " Qualité: " + IntToString(q.value) + "/5" else ""
  }

  /** One nutrition item, `prefix` + amount + `unit`, when the amount is neither null nor 0. */
  function Item(amount: Option<int>, prefix: string, unit: string): seq<string> {
    if Truthy(amount) then [prefix + IntToString(amount.value) + unit] else []
  }

  /** The non-null, non-zero amounts, in the order calories, proteins,
      carbohydrates (`G`, glucides), fats (`L`, lipides). */
  function NutritionItems(meal: SharedMeal): seq<string> {
    Item(meal.calories, "", " kcal") + Item(meal.protein, "P: ", "g")
    + Item(meal.carbs, "G: ", "g") + Item(meal.fat, "L: ", "g")
  }

  predicate HasNutrition(meal: SharedMeal) {
    Truthy(meal.calories) || Truthy(meal.protein) || Truthy(meal.carbs) || Truthy(meal.fat)
  }

  /** The amounts joined by bullets on a line of their own, when there is any. */
  function NutritionLine(meal: SharedMeal): string {
    if HasNutrition(meal) then "\n\U{1F4CA} " + Join(NutritionItems(meal), " \U{2022} ") else ""
  }

  /** The text of the post, or the RangeError a negative score raises. */
  function PostContent(meal: SharedMeal, draft: string): Composed {
    if Truthy(meal.qualityScore) && meal.qualityScore.value < 0 then RangeError
    else Content(Header(meal) + CommentSection(draft) + QualitySection(meal.qualityScore) + NutritionLine(meal))
  }

  /** The `nutritionInfo` list, pushed item by item. */
  method CollectNutrition(meal: SharedMeal) returns (nutritionInfo: seq<string>)
    ensures nutritionInfo == NutritionItems(meal)
  {
    nutritionInfo := [];
    if Truthy(meal.calories) {
      nutritionInfo := nutritionInfo + [IntToString(meal.calories.value) + " kcal"];
      assert "" + IntToString(meal.calories.value) == IntToString(meal.calories.value);
    }
    assert nutritionInfo == Item(meal.calories, "", " kcal");
    if Truthy(meal.protein) {
      nutritionInfo := nutritionInfo + ["P: " + IntToString(meal.protein.value) + "g"];
    }
    assert nutritionInfo == Item(meal.calories, "", " kcal") + Item(meal.protein, "P: ", "g");
    if Truthy(meal.carbs) {
      nutritionInfo := nutritionInfo + ["G: " + IntToString(meal.carbs.value) + "g"];
    }
    assert nutritionInfo == Item(meal.calories, "", " kcal") + Item(meal.protein, "P: ", "g")
                            + Item(meal.carbs, "G: ", "g");
    if Truthy(meal.fat) {
      nutritionInfo := nutritionInfo + ["L: " + IntToString(meal.fat.value) + "g"];
    }
  }

  /** The comment step: append the trimmed comment when it is not blank. */
  method AppendComment(postContent: string, draft: string) returns (r: string)
    ensures r == postContent + CommentSection(draft)
  {
    var comment := Trim(draft);
    if comment != [] {
      r := postContent + ("\n\n\U{1F4AC} " + comment);
    } else {
      r := postContent;
    }
  }

  /** The quality step: append the stars and the score when the score is
      neither null nor 0; a negative score throws. */
  method AppendQuality(postContent: string, qualityScore: Option<int>) returns (r: Composed)
    ensures Truthy(qualityScore) && qualityScore.value < 0 ==> r == RangeError
    ensures !(Truthy(qualityScore) && qualityScore.value < 0) ==> r == Content(postContent + QualitySection(qualityScore))
  {
    if !Truthy(qualityScore) {
      return Content(postContent);
    }
    var q := qualityScore.value;
    if q < 0 {
      return RangeError;
    }
    var stars := Repeat('\U{2B50}', q);
    r := Content(postContent + ("\n\n" + stars + " Qualité: " + IntToString(q) + "/5"));
  }

  /** The nutrition step: append the amounts when there is any. */
  method AppendNutrition(postContent: string, meal: SharedMeal) returns (r: string)
    ensures r == postContent + NutritionLine(meal)
  {
    r := postContent;
    if Truthy(meal.calories) || Truthy(meal.protein) || Truthy(meal.carbs) || Truthy(meal.fat) {
      var nutritionInfo := CollectNutrition(meal);
      r := r + ("\n\U{1F4CA} " + Join(nutritionInfo, " \U{2022} "));
    }
  }

  /** Composes the post text the way the handler does, appending section by section. */
  method ComposeContent(meal: SharedMeal, draft: string) returns (c: Composed)
    ensures c == PostContent(meal, draft)
  {
    var postContent := MealTypeLabel(meal.mealType) + "\n\n" + meal.description;
    postContent := AppendComment(postContent, draft);
    var withQuality := AppendQuality(postContent, meal.qualityScore);
    if withQuality == RangeError {
      return RangeError;
    }
    postContent := AppendNutrition(withQuality.text, meal);
    return Content(postContent);
  }

  /** `handleShare` up to the insert: nothing without a signed-in user; a
      negative score throws before anything is sent; otherwise the row links
      the post to the user and the meal, and the meal's photo, when there is a
      non-empty one, becomes the post's photo. */
  method HandleShare(user: Option<string>, meal: SharedMeal, draft: string) returns (outcome: ShareOutcome)
    ensures user == None <==> outcome == NotSignedIn
    ensures outcome == Thrown <==> user != None && PostContent(meal, draft) == RangeError
    ensures outcome.Insert? ==> outcome.row == PostInsert(
              user.value, meal.id, PostContent(meal, draft).text, meal.photoUrl,
              if meal.photoUrl != None && meal.photoUrl.value != "" then Some(Photo) else None)
  {
    if user == None {
      return NotSignedIn;
    }
    var c := ComposeContent(meal, draft);
    if c == RangeError {
      return Thrown;
    }
    var mediaType := if meal.photoUrl != None && meal.photoUrl.value != "" then Some(Photo) else None;
    outcome := Insert(PostInsert(user.value, meal.id, c.text, meal.photoUrl, mediaType));
  }

  // ---------------------------------------------------------------- properties of the text

  /** Only a negative score stops the post; then nothing is composed. */
  lemma RangeErrorExactly(meal: SharedMeal, draft: string)
    ensures PostContent(meal, draft) == RangeError
            <==> meal.qualityScore != None && meal.qualityScore.value < 0
  {
  }

  /** Every post opens with the meal-type label, a blank line and the description. */
  lemma ContentStartsWithHeader(meal: SharedMeal, draft: string)
    requires PostContent(meal, draft).Content?
    ensures var content := PostContent(meal, draft).text;
            var header := MealTypeLabel(meal.mealType) + "\n\n" + meal.description;
            |header| <= |content| && content[..|header|] == header
  {
  }

  /** A blank comment adds nothing: only the meal decides the text. */
  lemma BlankCommentIgnored(meal: SharedMeal, d1: string, d2: string)
    requires Trim(d1) == [] && Trim(d2) == []
    ensures PostContent(meal, d1) == PostContent(meal, d2)
  {
  }

  /** Between the same surroundings, equal texts have equal middles. */
  lemma SameFrameSameMiddle(h: string, a: string, b: string, q: string, n: string)
    requires h + a + q + n == h + b + q + n
    ensures a == b
  {
    var t1, t2 := h + a + q + n, h + b + q + n;
    assert |a| == |b|;
    assert a == t1[|h|..|h| + |a|];
    assert b == t2[|h|..|h| + |b|];
  }

  /** The comment can be told from the text: for the same meal, two drafts
      give the same post only when they trim to the same comment. */
  lemma ContentDeterminesComment(meal: SharedMeal, d1: string, d2: string)
    requires PostContent(meal, d1).Content? && PostContent(meal, d1) == PostContent(meal, d2)
    ensures Trim(d1) == Trim(d2)
  {
    var c1, c2 := CommentSection(d1), CommentSection(d2);
    SameFrameSameMiddle(Header(meal), c1, c2, QualitySection(meal.qualityScore), NutritionLine(meal));
    var t1, t2 := Trim(d1), Trim(d2);
    var prefix := "\n\n\U{1F4AC} ";
    if t1 != [] && t2 != [] {
      assert c1 == prefix + t1 && c2 == prefix + t2;
      assert t1 == c1[|prefix|..] && t2 == c2[|prefix|..];
    }
  }

  /** With a positive score the quality section is exactly that many stars,
      then ` Qualité: ` and the score, which reads back as the same number. */
  lemma StarsMatchScore(q: int)
    requires q > 0
    ensures var section := QualitySection(Some(q));
            var digits := NatToString(q);
            && section == "\n\n" + Repeat('\U{2B50}', q) + " Qualité: " + digits + "/5"
            && |section| == q + |digits| + 14
            && (forall i :: 2 <= i < 2 + q ==> section[i] == '\U{2B50}')
            && section[2 + q] != '\U{2B50}'
            && DigitsValue(digits) == q
  {
    NatToStringRoundTrip(q);
  }

  /** The nutrition line has one item per non-null, non-zero amount, and it is
      there exactly when one of them is. */
  lemma NutritionLinePresence(meal: SharedMeal)
    ensures |NutritionItems(meal)| ==
              (if Truthy(meal.calories) then 1 else 0) + (if Truthy(meal.protein) then 1 else 0)
              + (if Truthy(meal.carbs) then 1 else 0) + (if Truthy(meal.fat) then 1 else 0)
    ensures NutritionLine(meal) != "" <==> NutritionItems(meal) != []
  {
  }

  /** A zero or null amount leaves no trace: zeroing an already falsy field changes nothing. */
  lemma ZeroCaloriesLikeNull(meal: SharedMeal, draft: string)
    ensures PostContent(meal.(calories := Some(0)), draft) == PostContent(meal.(calories := None), draft)
  {
  }
}
