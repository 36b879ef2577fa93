/**
 * Turning the dining service's menu rows into a day's menu: rows are grouped by meal period,
 * period names are lower-cased, and each row becomes a menu item with its trait list split out.
 * The network request that yields the rows is not modelled; the rows are an input.
 */
module ApiClient {
  import opened Wrappers
  import opened Seqs
  import opened Text
  import opened TextRoundTrip
  import opened Grouping

  /** The fields of a dining-service row that the transformation reads. */
  datatype ApiItem = ApiItem(
    formalName: string,
    meal: Option<string>,
    category: Option<string>,
    course: Option<string>,
    servingUnit: Option<string>,
    traits: Option<string>)

  datatype ScrapedItem = ScrapedItem(
    name: string,
    category: Option<string>,
    course: Option<string>,
    servingUnit: Option<string>,
    traits: seq<string>)

  /** `value || undefined`: an empty string counts as missing. */
  function OrUndefined(v: Option<string>): (r: Option<string>)
    ensures r.Some? <==> v.Some? && v.value != ""
    ensures r.Some? ==> r == v
  {
    if v.Some? && v.value != "" then v else None
  }

  /**
   * `transformMenuItem`: the name is the formal name, empty text fields become missing, and the
   * traits are the trimmed, non-empty pieces of the comma-separated trait text.
   */
  function TransformMenuItem(item: ApiItem): (r: ScrapedItem)
    ensures r.name == item.formalName
    ensures r.category == OrUndefined(item.category)
    ensures r.course == OrUndefined(item.course)
    ensures r.servingUnit == OrUndefined(item.servingUnit)
    ensures item.traits.None? || item.traits.value == "" ==> r.traits == []
    ensures item.traits.Some? && item.traits.value != "" ==> r.traits == SplitTrimmed(item.traits.value, ',')
    ensures forall t :: t in r.traits ==> t != "" && IsTrimmed(t) && ',' !in t
  {
    var traits := if item.traits.Some? && item.traits.value != "" then SplitTrimmed(item.traits.value, ',') else [];
    ScrapedItem(item.formalName, OrUndefined(item.category), OrUndefined(item.course), OrUndefined(item.servingUnit), traits)
  }

  /** Trait text written as clean entries joined by ", " comes back as those entries. */
  lemma TraitsRoundTrip(item: ApiItem, xs: seq<string>)
    requires item.traits == Some(Join(xs, ", "))
    requires forall k :: 0 <= k < |xs| ==> xs[k] != "" && IsTrimmed(xs[k]) && ',' !in xs[k]
    ensures TransformMenuItem(item).traits == xs
  {
    SplitTrimmedJoin(xs);
    SplitTrimmedEmpty();
  }

  /** `item.Meal || "Other"`. */
  function MealOf(item: ApiItem): string {
    KeyOr(item.meal)
  }

  datatype MealPeriod = MealPeriod(mealPeriod: string, items: seq<ScrapedItem>)

  datatype DayMenu = DayMenu(date: string, diningHall: string, meals: seq<MealPeriod>)

  /** The outcome of `fetchMenuFromApi`: an unknown hall throws; no rows gives null. */
  datatype FetchOutcome = UnknownHall | NoMenu | Menu(menu: DayMenu)

  /** One meal period per group, in key order, with the key lower-cased and every row transformed. */
  function MealsFrom(order: seq<string>, groups: map<string, seq<ApiItem>>): (r: seq<MealPeriod>)
    requires forall k :: k in order ==> k in groups
    ensures |r| == |order|
    ensures forall j :: 0 <= j < |order| ==>
      r[j].mealPeriod == Lower(order[j]) && r[j].items == Map(groups[order[j]], TransformMenuItem)
  {
    seq(|order|, j requires 0 <= j < |order| => MealPeriod(Lower(order[j]), Map(groups[order[j]], TransformMenuItem)))
  }

  /** The number of items over all meal periods. */
  function ItemCount(meals: seq<MealPeriod>): nat
    decreases |meals|
  {
    if meals == [] then 0 else |meals[0].items| + ItemCount(meals[1..])
  }

  lemma {:induction false} ItemCountIsTotalSize(order: seq<string>, groups: map<string, seq<ApiItem>>)
    requires forall k :: k in order ==> k in groups
    ensures ItemCount(MealsFrom(order, groups)) == TotalSize(order, groups)
    decreases |order|
  {
    if order != [] {
      assert MealsFrom(order, groups)[1..] == MealsFrom(order[1..], groups);
      ItemCountIsTotalSize(order[1..], groups);
    }
  }

  /**
   * `fetchMenuFromApi` after the rows arrive: an unknown hall is an error, no rows give no
   * menu, and otherwise the menu has one meal period per distinct meal name.
   */
  method FetchMenuFromApi(hall: Option<string>, date: string, menuItems: seq<ApiItem>) returns (out: FetchOutcome)
    ensures hall.None? ==> out == UnknownHall
    ensures hall.Some? && menuItems == [] ==> out == NoMenu
    ensures hall.Some? && menuItems != [] ==> out.Menu? && out.menu.date == date && out.menu.diningHall == hall.value
    ensures out.Menu? ==> out.menu.meals == MealsFrom(OrderOf(menuItems, MealOf), GroupsOf(menuItems, MealOf))
  {
    if hall.None? {
      return UnknownHall;
    }
    if |menuItems| == 0 {
      return NoMenu;
    }
    var groups, order := GroupBy(menuItems, MealOf);
    SameKeys(menuItems, MealOf);
    var meals := MealsFrom(order, groups);
    return Menu(DayMenu(date, hall.value, meals));
  }

  /**
   * The menu keeps every row exactly once: the meal periods hold as many items as there were
   * rows, each period's items are its rows transformed in input order, and the period names
   * are lower-case.
   */
  lemma MenuKeepsEveryRow(menuItems: seq<ApiItem>)
    ensures var order := OrderOf(menuItems, MealOf);
      var groups := GroupsOf(menuItems, MealOf);
      (forall k :: k in order ==> k in groups)
      && ItemCount(MealsFrom(order, groups)) == |menuItems|
      && (forall j :: 0 <= j < |order| ==> IsLower(MealsFrom(order, groups)[j].mealPeriod))
      && (forall j :: 0 <= j < |order| ==> groups[order[j]] == Filter(menuItems, HasKey(MealOf, order[j])))
  {
    SameKeys(menuItems, MealOf);
    GroupsCoverItems(menuItems, MealOf);
    ItemCountIsTotalSize(OrderOf(menuItems, MealOf), GroupsOf(menuItems, MealOf));
  }
}
