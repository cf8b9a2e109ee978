/** The enumerations of the backend schema that the components branch on. */
module Schema {

  /** The `meal_type` column of a meal. */
  datatype MealType = Breakfast | Lunch | Dinner | Snack

  /** The `media_type` column of a social post. */
  datatype MediaType = Photo | Video
}
