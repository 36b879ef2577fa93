/**
 * The recommend endpoint (`POST`): request validation, merging of the parsed prompt with
 * body fields and the stored profile, the daily-goal merge, the mapping of database menu rows
 * to engine items, and the call into the engine. The database, the session and the language
 * model are parameters: their answers are inputs here.
 */
module RecommendRoute {
  import opened Wrappers
  import opened Seqs
  import opened Text
  import opened JsNumbers
  import opened JsValues
  import opened Types
  import opened PromptParse
  import opened EngineCandidates
  import opened EngineScoring
  import opened EngineCombos
  import opened Engine

  /** `Math.round`: the nearest integer, halves rounded up. */
  function Round(x: real): (n: int)
    ensures n as real - 0.5 <= x < n as real + 0.5
  {
    (x + 0.5).Floor
  }

  /**
   * `clampMaxItems`: null for a missing, zero or non-finite value; otherwise the rounded value
   * clamped into [1, 6]. The input is `None` for null or undefined.
   */
  function ClampMaxItems(v: Option<JsNumber>): (r: Option<real>)
    ensures r.None? <==> v.None? || !v.value.Finite? || v.value.value == 0.0
    ensures r.Some? ==> 1.0 <= r.value <= HARD_MAX_ITEMS && r.value == r.value.Floor as real
    ensures r.Some? && v.value.value < 0.5 ==> r.value == 1.0
    ensures r.Some? && v.value.value >= 5.5 ==> r.value == HARD_MAX_ITEMS
    ensures r.Some? && 0.5 <= v.value.value < 5.5 ==> r.value - 0.5 <= v.value.value < r.value + 0.5
  {
    if v.None? || !v.value.Finite? || v.value.value == 0.0 then None
    else
      var n := Round(v.value.value);
      var clamped := if n < 1 then 1 else if n > 6 then 6 else n;
      Some(clamped as real)
  }

  /** A clamped value clamps to itself. */
  lemma ClampMaxItemsIdempotent(v: Option<JsNumber>)
    ensures ClampMaxItems(v).Some? ==> ClampMaxItems(Some(Finite(ClampMaxItems(v).value))) == ClampMaxItems(v)
  {
    if ClampMaxItems(v).Some? {
      var k := ClampMaxItems(v).value;
      assert Round(k) == k.Floor;
    }
  }

  function AsNumber(x: Option<real>): Option<JsNumber> {
    if x.Some? then Some(Finite(x.value)) else None
  }

  /**
   * `uniqueStrings`: the cleaned strings (trimmed, lower-cased, non-empty; non-strings
   * dropped), each once, in the order of first occurrence.
   */
  function UniqueStrings(values: seq<JsValue>): (r: seq<string>)
    ensures forall k :: 0 <= k < |r| ==> IsClean(r[k])
    ensures NoDuplicates(r)
    ensures forall x :: x in r <==> x in NormalizeArray(JArray(values))
    ensures forall i, j :: 0 <= i < j < |r| ==>
      FirstIndex(NormalizeArray(JArray(values)), r[i]) < FirstIndex(NormalizeArray(JArray(values)), r[j])
  {
    var n := NormalizeArray(JArray(values));
    DedupClean(n);
    Dedup(n)
  }

  lemma DedupClean(n: seq<string>)
    requires forall k :: 0 <= k < |n| ==> IsClean(n[k])
    ensures forall k :: 0 <= k < |Dedup(n)| ==> IsClean(Dedup(n)[k])
  {
    var r := Dedup(n);
    forall k | 0 <= k < |r| ensures IsClean(r[k]) {
      assert r[k] in n;
    }
  }

  /** An entry of `uniqueStrings` is exactly the cleaned form of some string in the input. */
  lemma UniqueStringsMembers(values: seq<JsValue>, x: string)
    ensures x in UniqueStrings(values) <==>
      x != "" && exists i :: 0 <= i < |values| && CleanString(values[i]) == x
  {
    var n := NormalizeArray(JArray(values));
    assert x in UniqueStrings(values) <==> x in n;
    if x in n {
      var cleaned := Map(values, CleanString);
      var k :| 0 <= k < |n| && n[k] == x;
      assert x in cleaned;
      var i :| 0 <= i < |cleaned| && cleaned[i] == x;
      assert CleanString(values[i]) == x && x != "";
    }
  }

  /** A profile row: daily goals and the four preference lists the route reads. */
  datatype Profile = Profile(
    dailyCalories: Option<real>,
    dailyProtein: Option<real>,
    dailyCarbs: Option<real>,
    dailyFat: Option<real>,
    dietaryFlags: Option<seq<string>>,
    allergens: Option<seq<string>>,
    excludedIngredients: Option<seq<string>>,
    preferredIngredients: Option<seq<string>>)

  /** The constraints used when the prompt cannot be parsed. */
  const FALLBACK_CONSTRAINTS := Constraints(
    minProtein := None, maxCalories := None, minCalories := None, maxCarbs := None,
    maxFat := None, dietaryFlags := Some([]), excludeAllergens := Some([]),
    avoidIngredients := Some([]), preferIngredients := Some([]), maxItems := None,
    mealPeriod := None)

  /** `body.key` when it is a string. */
  function BodyString(body: map<string, JsValue>, key: string): Option<string> {
    if Field(body, key).JString? then Some(Field(body, key).s) else None
  }

  /** The body's `mealPeriod`, lower-cased, or null. */
  function BodyMealPeriod(body: map<string, JsValue>): Option<string> {
    if BodyString(body, "mealPeriod").Some? then Some(Lower(BodyString(body, "mealPeriod").value)) else None
  }

  /** The body's `maxItems` through `clampMaxItems`, read only when it is a number. */
  function BodyMaxItems(body: map<string, JsValue>): Option<real> {
    ClampMaxItems(if Field(body, "maxItems").JNumber? then Some(Field(body, "maxItems").n) else None)
  }

  /**
   * One merged list: `uniqueStrings` over the parsed entries, then the body's array (when it
   * is one), then the profile's list (when there is one). Each cleaned entry of the three
   * appears once, ordered by where it first occurs in parsed, body and profile entries taken
   * in that order.
   */
  function MergeList(parsed: seq<string>, bodyValue: JsValue, stored: Option<seq<string>>): (r: seq<string>)
    ensures r == UniqueStrings(JsStrings(parsed) + (if bodyValue.JArray? then bodyValue.elems else [])
      + JsStrings(stored.GetOr([])))
    ensures NoDuplicates(r) && forall k :: 0 <= k < |r| ==> IsClean(r[k])
    ensures forall x :: x in r <==>
      || x in NormalizeArray(JArray(JsStrings(parsed)))
      || x in NormalizeArray(bodyValue)
      || x in NormalizeArray(JArray(JsStrings(stored.GetOr([]))))
    ensures forall i, j :: 0 <= i < j < |r| ==>
      var all := NormalizeArray(JArray(JsStrings(parsed))) + NormalizeArray(bodyValue)
        + NormalizeArray(JArray(JsStrings(stored.GetOr([]))));
      FirstIndex(all, r[i]) < FirstIndex(all, r[j])
  {
    var a := JsStrings(parsed);
    var b := if bodyValue.JArray? then bodyValue.elems else [];
    var c := JsStrings(stored.GetOr([]));
    NormalizeArrayAppend(a + b, c);
    NormalizeArrayAppend(a, b);
    assert NormalizeArray(JArray(b)) == NormalizeArray(bodyValue);
    UniqueStrings(a + b + c)
  }

  /** `profile?.dietaryFlags` and the other three lists. */
  function ProfileFlags(profile: Option<Profile>): Option<seq<string>> {
    if profile.Some? then profile.value.dietaryFlags else None
  }
  function ProfileAllergens(profile: Option<Profile>): Option<seq<string>> {
    if profile.Some? then profile.value.allergens else None
  }
  function ProfileExcluded(profile: Option<Profile>): Option<seq<string>> {
    if profile.Some? then profile.value.excludedIngredients else None
  }
  function ProfilePreferred(profile: Option<Profile>): Option<seq<string>> {
    if profile.Some? then profile.value.preferredIngredients else None
  }

  /**
   * The merged constraints: the parsed ones, with the body's meal period, `maxItems` taken
   * from the body when it gives one and otherwise from the parsed value (both clamped), and
   * each list merged from parsed, body and profile entries.
   */
  function MergeConstraints(parsed: Constraints, body: map<string, JsValue>, profile: Option<Profile>): (r: Constraints)
    ensures r.minProtein == parsed.minProtein && r.maxCalories == parsed.maxCalories
    ensures r.minCalories == parsed.minCalories && r.maxCarbs == parsed.maxCarbs
    ensures r.maxFat == parsed.maxFat
    ensures r.mealPeriod == BodyMealPeriod(body)
    ensures BodyMaxItems(body).Some? ==> r.maxItems == BodyMaxItems(body)
    ensures BodyMaxItems(body).None? ==> r.maxItems == ClampMaxItems(AsNumber(parsed.maxItems))
    ensures r.maxItems.Some? ==> 1.0 <= r.maxItems.value <= HARD_MAX_ITEMS && r.maxItems.value == r.maxItems.value.Floor as real
    ensures r.dietaryFlags == Some(MergeList(parsed.dietaryFlags.GetOr([]), Field(body, "dietaryFlags"),
      ProfileFlags(profile)))
    ensures r.excludeAllergens == Some(MergeList(parsed.excludeAllergens.GetOr([]), Field(body, "excludeAllergens"),
      ProfileAllergens(profile)))
    ensures r.avoidIngredients == Some(MergeList(parsed.avoidIngredients.GetOr([]), Field(body, "avoidIngredients"),
      ProfileExcluded(profile)))
    ensures r.preferIngredients == Some(MergeList(parsed.preferIngredients.GetOr([]), Field(body, "preferIngredients"),
      ProfilePreferred(profile)))
  {
    var bodyMax := BodyMaxItems(body);
    ClampMaxItemsIdempotent(if Field(body, "maxItems").JNumber? then Some(Field(body, "maxItems").n) else None);
    parsed.(
      mealPeriod := BodyMealPeriod(body),
      maxItems := ClampMaxItems(AsNumber(if bodyMax.Some? then bodyMax else parsed.maxItems)),
      dietaryFlags := Some(MergeList(parsed.dietaryFlags.GetOr([]), Field(body, "dietaryFlags"),
        ProfileFlags(profile))),
      excludeAllergens := Some(MergeList(parsed.excludeAllergens.GetOr([]), Field(body, "excludeAllergens"),
        ProfileAllergens(profile))),
      avoidIngredients := Some(MergeList(parsed.avoidIngredients.GetOr([]), Field(body, "avoidIngredients"),
        ProfileExcluded(profile))),
      preferIngredients := Some(MergeList(parsed.preferIngredients.GetOr([]), Field(body, "preferIngredients"),
        ProfilePreferred(profile))))
  }

  /** A daily goal from the body, taken as given when it is a finite number. */
  function BodyGoal(body: map<string, JsValue>, key: string): Option<real> {
    var v := Field(body, key);
    if v.JNumber? && v.n.Finite? then Some(v.n.value) else None
  }

  /** Each daily goal comes from the profile when it has one, else from the body. */
  function MergeGoals(profile: Option<Profile>, body: map<string, JsValue>): (r: DailyGoals)
    ensures profile.Some? && profile.value.dailyCalories.Some? ==> r.calories == profile.value.dailyCalories
    ensures profile.Some? && profile.value.dailyProtein.Some? ==> r.protein == profile.value.dailyProtein
    ensures profile.Some? && profile.value.dailyCarbs.Some? ==> r.carbs == profile.value.dailyCarbs
    ensures profile.Some? && profile.value.dailyFat.Some? ==> r.fat == profile.value.dailyFat
    ensures (profile.None? || profile.value.dailyCalories.None?) ==> r.calories == BodyGoal(body, "dailyCalories")
    ensures (profile.None? || profile.value.dailyProtein.None?) ==> r.protein == BodyGoal(body, "dailyProtein")
    ensures (profile.None? || profile.value.dailyCarbs.None?) ==> r.carbs == BodyGoal(body, "dailyCarbs")
    ensures (profile.None? || profile.value.dailyFat.None?) ==> r.fat == BodyGoal(body, "dailyFat")
  {
    var p := profile.GetOr(Profile(None, None, None, None, None, None, None, None));
    DailyGoals(
      if p.dailyCalories.Some? then p.dailyCalories else BodyGoal(body, "dailyCalories"),
      if p.dailyProtein.Some? then p.dailyProtein else BodyGoal(body, "dailyProtein"),
      if p.dailyCarbs.Some? then p.dailyCarbs else BodyGoal(body, "dailyCarbs"),
      if p.dailyFat.Some? then p.dailyFat else BodyGoal(body, "dailyFat"))
  }

  /** One row of the menu query: the item, its menu entry and its (left-joined) nutrition. */
  datatype MenuRow = MenuRow(
    itemId: int,
    itemName: string,
    itemCategory: Option<string>,
    course: Option<string>,
    calories: Option<int>,
    protein: Option<string>,
    carbs: Option<string>,
    fat: Option<string>,
    fiber: Option<string>,
    sugar: Option<string>,
    sodium: Option<int>,
    servingSize: Option<string>,
    vitamins: Option<map<string, real>>,
    minerals: Option<map<string, real>>,
    allergens: Option<seq<string>>,
    dietaryFlags: Option<seq<string>>)

  /** The route's `toNumber` on a decimal column, which the driver returns as text. */
  function DecimalColumn(d: Option<string>): Option<real> {
    RouteToNumber(if d.Some? then JString(d.value) else JNull)
  }

  function IntColumn(d: Option<int>): Option<real> {
    if d.Some? then Some(d.value as real) else None
  }

  /** A map or list column that is null or empty. */
  predicate EmptyMap(m: Option<map<string, real>>) {
    m.None? || |m.value| == 0
  }
  predicate EmptyList(l: Option<seq<string>>) {
    l.None? || |l.value| == 0
  }

  /**
   * The item handed to the engine for a menu row: its nutrition is null exactly when every
   * scalar reads as null and every map and list is null or empty.
   */
  function ToEngineItem(row: MenuRow): (r: MenuItem)
    ensures r.id == row.itemId && r.name == row.itemName
    ensures r.category == row.itemCategory && r.course == row.course
    ensures r.nutrition.None? <==>
      && row.calories.None? && DecimalColumn(row.protein).None? && DecimalColumn(row.carbs).None?
      && DecimalColumn(row.fat).None? && DecimalColumn(row.fiber).None? && DecimalColumn(row.sugar).None?
      && row.sodium.None? && row.servingSize.None?
      && EmptyMap(row.vitamins) && EmptyMap(row.minerals)
      && EmptyList(row.allergens) && EmptyList(row.dietaryFlags)
    ensures r.nutrition.Some? ==>
      && r.nutrition.value.calories == IntColumn(row.calories)
      && r.nutrition.value.protein == DecimalColumn(row.protein)
      && r.nutrition.value.carbs == DecimalColumn(row.carbs)
      && r.nutrition.value.fat == DecimalColumn(row.fat)
      && r.nutrition.value.fiber == DecimalColumn(row.fiber)
      && r.nutrition.value.sugar == DecimalColumn(row.sugar)
      && r.nutrition.value.sodium == IntColumn(row.sodium)
      && r.nutrition.value.servingSize == row.servingSize
      && r.nutrition.value.vitamins == row.vitamins && r.nutrition.value.minerals == row.minerals
      && r.nutrition.value.allergens == row.allergens && r.nutrition.value.dietaryFlags == row.dietaryFlags
  {
    var nutrition := Nutrition(
      IntColumn(row.calories), DecimalColumn(row.protein), DecimalColumn(row.carbs),
      DecimalColumn(row.fat), DecimalColumn(row.fiber), DecimalColumn(row.sugar),
      IntColumn(row.sodium), row.servingSize, row.vitamins, row.minerals,
      row.allergens, row.dietaryFlags);
    var hasNutrition :=
      || nutrition.calories.Some? || nutrition.protein.Some? || nutrition.carbs.Some?
      || nutrition.fat.Some? || nutrition.fiber.Some? || nutrition.sugar.Some?
      || nutrition.sodium.Some? || nutrition.servingSize.Some?
      || !EmptyMap(nutrition.vitamins) || !EmptyMap(nutrition.minerals)
      || !EmptyList(nutrition.allergens) || !EmptyList(nutrition.dietaryFlags);
    MenuItem(row.itemId, row.itemName, row.itemCategory, row.course, if hasNutrition then Some(nutrition) else None)
  }

  /** A decimal column holding a whole number reads as that number. */
  lemma DecimalColumnOfNat(n: nat)
    ensures DecimalColumn(Some(NatToString(n))) == Some(n as real)
  {
    ToFiniteNumberOfNatString(n);
    DigitsTrimmed(NatToString(n));
  }

  /** A row without calories never becomes a candidate, whatever the constraints. */
  lemma RowWithoutCaloriesSkipped(row: MenuRow, c: Constraints)
    requires row.calories.None?
    ensures !Survives(ToEngineItem(row), c)
  {
  }

  /** The set of recently eaten item ids: null and zero ids are dropped. */
  function RecentIds(rows: seq<Option<int>>): (r: set<int>)
    ensures forall x :: x in r <==> x != 0 && Some(x) in rows
  {
    set i | 0 <= i < |rows| && rows[i].Some? && rows[i].value != 0 :: rows[i].value
  }

  /** A reply of the endpoint. */
  datatype Response =
    | Failure(status: int, error: string)
    | Thrown
    | Success(recommendation: RecommendationResult)

  const DATABASE_MISSING := "Database not configured for recommendations."
  const INVALID_JSON := "Invalid JSON"
  const FIELDS_REQUIRED := "prompt, diningHall, date, and mealPeriod are required"
  const NO_MENU := "No menu data for this meal period."

  /** `prompt`, `diningHall`, `date` and `mealPeriod` are all non-empty strings. */
  predicate HasRequiredFields(body: map<string, JsValue>) {
    && BodyString(body, "prompt").Some? && BodyString(body, "prompt").value != ""
    && BodyString(body, "diningHall").Some? && BodyString(body, "diningHall").value != ""
    && BodyString(body, "date").Some? && BodyString(body, "date").value != ""
    && BodyMealPeriod(body).Some? && BodyMealPeriod(body).value != ""
  }

  /** The stored profile, read only for a signed-in user (a non-empty user id). */
  function ProfileFor(userId: Option<string>, stored: Option<Profile>): Option<Profile> {
    if userId.Some? && userId.value != "" then stored else None
  }

  function RecentFor(userId: Option<string>, recentRows: seq<Option<int>>): set<int> {
    if userId.Some? && userId.value != "" then RecentIds(recentRows) else {}
  }

  /** The constraints handed to the engine for a request. */
  function RequestConstraints(body: map<string, JsValue>, profile: Option<Profile>, reply: Option<JsValue>): Constraints {
    MergeConstraints(ShapeConstraints(reply).GetOr(FALLBACK_CONSTRAINTS), body, profile)
  }

  /**
   * The endpoint. `dbConfigured` says whether a database URL is set; `request` is the body as
   * `request.json()` reads it (`None` when that throws); `userId` is the session's user;
   * `storedProfile`, `recentRows` and `menu` are the database's answers; `reply` is the
   * model's parsed reply (`None` when the call or the parse fails).
   */
  method Post(dbConfigured: bool, request: Option<JsValue>, userId: Option<string>,
              storedProfile: Option<Profile>, recentRows: seq<Option<int>>,
              reply: Option<JsValue>, menu: Option<map<string, seq<MenuRow>>>)
    returns (resp: Response)
    ensures !dbConfigured ==> resp == Failure(400, DATABASE_MISSING)
    ensures dbConfigured && request.None? ==> resp == Failure(400, INVALID_JSON)
    ensures dbConfigured && request == Some(JNull) ==> resp == Thrown
    ensures dbConfigured && request.Some? && !request.value.JNull? && !HasRequiredFields(Fields(request.value)) ==>
      resp == Failure(400, FIELDS_REQUIRED)
    ensures dbConfigured && request.Some? && !request.value.JNull? && HasRequiredFields(Fields(request.value)) ==>
      var body := Fields(request.value);
      var meal := BodyMealPeriod(body).value;
      && (menu.None? || meal !in menu.value ==> resp == Failure(404, NO_MENU))
      && (menu.Some? && meal in menu.value ==>
        var profile := ProfileFor(userId, storedProfile);
        var c := NormalizeConstraints(RequestConstraints(body, profile, reply));
        var cands := BuildCandidates(Map(menu.value[meal], ToEngineItem), c);
        && resp.Success?
        && resp.recommendation.constraints == c
        && (cands == [] ==> resp.recommendation == NoMatch(c))
        && (cands != [] ==> ChosenFrom(cands, c, BuildTargets(Some(MergeGoals(profile, body))),
                                       RecentFor(userId, recentRows), resp.recommendation)))
  {
    if !dbConfigured {
      return Failure(400, DATABASE_MISSING);
    }
    if request.None? {
      return Failure(400, INVALID_JSON);
    }
    if request.value.JNull? {
      return Thrown;
    }
    var body := Fields(request.value);
    if !HasRequiredFields(body) {
      return Failure(400, FIELDS_REQUIRED);
    }
    var meal := BodyMealPeriod(body).value;
    var profile := ProfileFor(userId, storedProfile);
    var recent := RecentFor(userId, recentRows);
    var constraints := RequestConstraints(body, profile, reply);
    if menu.None? || meal !in menu.value {
      return Failure(404, NO_MENU);
    }
    var items := Map(menu.value[meal], ToEngineItem);
    var result := RecommendFromMenu(items, constraints, Some(MergeGoals(profile, body)), recent);
    return Success(result);
  }

  /**
   * Whatever the request, the engine receives a whole-number `maxItems` in [1, 6], so for
   * requests through this endpoint the engine's length test as written and the corrected one
   * enumerate the same combinations.
   */
  lemma RouteMaxItemsWhole(body: map<string, JsValue>, profile: Option<Profile>, reply: Option<JsValue>, n: nat)
    ensures var m := NormalizeConstraints(RequestConstraints(body, profile, reply)).maxItems.value;
      && 1.0 <= m <= HARD_MAX_ITEMS && m == m.Floor as real
      && Combos(n, m) == Enumerate(n, m, ExactLength, 0, [], [])
  {
    var c := RequestConstraints(body, profile, reply);
    assert c.maxItems.Some? ==> c.maxItems.value == c.maxItems.value.Floor as real;
    var m := NormalizeConstraints(c).maxItems.value;
    assert m == if c.maxItems.Some? then c.maxItems.value else DEFAULT_MAX_ITEMS;
    var k := m.Floor;
    assert 1 <= k <= 6;
    CombosAsWritten(n, k);
  }
}
