/**
 * The records the recommendation engine and its callers exchange: a menu item with its
 * optional nutrition facts, the recommendation constraints, daily goals, and the result.
 * Numeric fields are exact reals; `null` is `None`.
 */
module Types {
  import opened Wrappers

  datatype Nutrition = Nutrition(
    calories: Option<real>,
    protein: Option<real>,
    carbs: Option<real>,
    fat: Option<real>,
    fiber: Option<real>,
    sugar: Option<real>,
    sodium: Option<real>,
    servingSize: Option<string>,
    vitamins: Option<map<string, real>>,
    minerals: Option<map<string, real>>,
    allergens: Option<seq<string>>,
    dietaryFlags: Option<seq<string>>)

  datatype MenuItem = MenuItem(
    id: int,
    name: string,
    category: Option<string>,
    course: Option<string>,
    nutrition: Option<Nutrition>)

  /** Recommendation constraints; the lists are optional until normalised. */
  datatype Constraints = Constraints(
    minProtein: Option<real>,
    maxCalories: Option<real>,
    minCalories: Option<real>,
    maxCarbs: Option<real>,
    maxFat: Option<real>,
    dietaryFlags: Option<seq<string>>,
    excludeAllergens: Option<seq<string>>,
    avoidIngredients: Option<seq<string>>,
    preferIngredients: Option<seq<string>>,
    maxItems: Option<real>,
    mealPeriod: Option<string>)

  /** Per-day goals; each may be missing. */
  datatype DailyGoals = DailyGoals(
    calories: Option<real>,
    protein: Option<real>,
    carbs: Option<real>,
    fat: Option<real>)

  datatype Totals = Totals(calories: real, protein: real, carbs: real, fat: real)

  const ZeroTotals := Totals(0.0, 0.0, 0.0, 0.0)

  datatype RecommendationItem = RecommendationItem(
    id: int,
    name: string,
    quantity: int,
    nutrition: Option<Nutrition>,
    score: real)

  datatype RecommendationResult = RecommendationResult(
    items: seq<RecommendationItem>,
    totals: Totals,
    constraints: Constraints,
    explanation: string,
    warnings: seq<string>)
}
