/**
 * The menu filter panel: the client-side item filter and the filter-state updates. Unlike the
 * engine, this filter matches dietary flags and allergens with exact, case-sensitive
 * comparison.
 */
module FilterPanel {
  import opened Wrappers
  import opened Seqs
  import opened Text
  import opened JsNumbers
  import Types
  import EngineCandidates

  /** The nutrition fields the filter reads; protein arrives as decimal text. */
  datatype ClientNutrition = ClientNutrition(
    calories: Option<real>,
    protein: Option<string>,
    allergens: Option<seq<string>>,
    dietaryFlags: Option<seq<string>>)

  datatype ClientItem = ClientItem(id: int, name: string, nutrition: Option<ClientNutrition>)

  datatype Filters = Filters(
    searchQuery: string,
    maxCalories: Option<real>,
    minProtein: Option<real>,
    dietaryFlags: seq<string>,
    excludeAllergens: seq<string>)

  /** JavaScript `x < y` for a number read from text and a finite bound: NaN compares false. */
  predicate JsLess(x: JsNumber, y: real) {
    match x
    case Finite(v) => v < y
    case NaN => false
    case PosInfinity => false
    case NegInfinity => true
  }

  /** `parseFloat(protein || "0")`. */
  function ProteinReading(n: ClientNutrition): JsNumber {
    ParseFloat(if n.protein.Some? && n.protein.value != "" then n.protein.value else "0")
  }

  /** The filter predicate, check by check in the order the menu filter makes them. */
  predicate Keeps(item: ClientItem, f: Filters) {
    if f.searchQuery != "" && !Contains(Lower(item.name), Lower(f.searchQuery)) then false
    else if f.maxCalories.Some? && item.nutrition.Some?
      && item.nutrition.value.calories.Some? && item.nutrition.value.calories.value > f.maxCalories.value then false
    else if f.minProtein.Some? && item.nutrition.Some?
      && JsLess(ProteinReading(item.nutrition.value), f.minProtein.value) then false
    else if |f.dietaryFlags| > 0 && item.nutrition.Some? && item.nutrition.value.dietaryFlags.Some?
      && !(forall k :: 0 <= k < |f.dietaryFlags| ==> f.dietaryFlags[k] in item.nutrition.value.dietaryFlags.value) then false
    else if |f.excludeAllergens| > 0 && item.nutrition.Some? && item.nutrition.value.allergens.Some?
      && (exists k :: 0 <= k < |f.excludeAllergens| && f.excludeAllergens[k] in item.nutrition.value.allergens.value) then false
    else true
  }

  /** A non-empty query must occur in the name, ignoring case. */
  predicate SearchOk(item: ClientItem, f: Filters) {
    f.searchQuery == "" || Contains(Lower(item.name), Lower(f.searchQuery))
  }

  /** Only an item with nutrition and known calories above the cap is rejected. */
  predicate CaloriesOk(item: ClientItem, f: Filters) {
    f.maxCalories.None? || item.nutrition.None? || item.nutrition.value.calories.None?
    || item.nutrition.value.calories.value <= f.maxCalories.value
  }

  /** An item with nutrition whose protein reads below the minimum is rejected; missing protein reads 0. */
  predicate ProteinOk(item: ClientItem, f: Filters) {
    f.minProtein.None? || item.nutrition.None? || !JsLess(ProteinReading(item.nutrition.value), f.minProtein.value)
  }

  /** An item with a flag list must carry every selected flag, compared exactly. */
  predicate FlagsOk(item: ClientItem, f: Filters) {
    item.nutrition.None? || item.nutrition.value.dietaryFlags.None?
    || forall flag :: flag in f.dietaryFlags ==> flag in item.nutrition.value.dietaryFlags.value
  }

  /** An item with an allergen list must carry none of the excluded allergens, compared exactly. */
  predicate AllergensOk(item: ClientItem, f: Filters) {
    item.nutrition.None? || item.nutrition.value.allergens.None?
    || forall a :: a in f.excludeAllergens ==> a !in item.nutrition.value.allergens.value
  }

  /** The filter keeps an item exactly when it passes all five criteria. */
  lemma KeepsIff(item: ClientItem, f: Filters)
    ensures Keeps(item, f) <==>
      SearchOk(item, f) && CaloriesOk(item, f) && ProteinOk(item, f) && FlagsOk(item, f) && AllergensOk(item, f)
  {
    if item.nutrition.Some? && item.nutrition.value.dietaryFlags.Some? {
      var flags := item.nutrition.value.dietaryFlags.value;
      if forall k :: 0 <= k < |f.dietaryFlags| ==> f.dietaryFlags[k] in flags {
        forall flag | flag in f.dietaryFlags ensures flag in flags {
          var k :| 0 <= k < |f.dietaryFlags| && f.dietaryFlags[k] == flag;
        }
      }
    }
    if item.nutrition.Some? && item.nutrition.value.allergens.Some? {
      var allergens := item.nutrition.value.allergens.value;
      if exists k :: 0 <= k < |f.excludeAllergens| && f.excludeAllergens[k] in allergens {
        var k :| 0 <= k < |f.excludeAllergens| && f.excludeAllergens[k] in allergens;
        assert f.excludeAllergens[k] in f.excludeAllergens;
      }
    }
  }

  /**
   * `filterMenuItems`: the items the filter keeps, in their original order; nothing that
   * passes is dropped.
   */
  function FilterMenuItems(items: seq<ClientItem>, f: Filters): (r: seq<ClientItem>)
    ensures SubseqOf(r, items)
    ensures forall k :: 0 <= k < |r| ==> Keeps(r[k], f)
    ensures forall i :: 0 <= i < |items| && Keeps(items[i], f) ==> items[i] in r
  {
    Filter(items, (item: ClientItem) => Keeps(item, f))
  }

  /** The exact flag match differs from the engine's: "Vegan" does not satisfy "vegan" here. */
  lemma FlagMatchIsCaseSensitive()
    ensures var f := Filters("", None, None, ["vegan"], []);
      !Keeps(ClientItem(1, "Tofu", Some(ClientNutrition(None, None, None, Some(["Vegan"])))), f)
    ensures EngineCandidates.MatchesDietaryFlags(
      Types.MenuItem(1, "Tofu", None, None,
        Some(Types.Nutrition(None, None, None, None, None, None, None, None, None, None, None, Some(["Vegan"])))),
      ["vegan"])
  {
    var f := Filters("", None, None, ["vegan"], []);
    assert "vegan" != "Vegan";
    assert "vegan" !in ["Vegan"];
    assert f.dietaryFlags[0] !in ["Vegan"];
    assert Lower("Vegan") == "vegan";
    assert Lower("vegan") == "vegan";
    assert EngineCandidates.LowerAll(["Vegan"]) == ["vegan"];
  }

  /** The panel's two list-valued filters. */
  datatype ListKey = DietaryFlags | ExcludeAllergens

  function Without(current: seq<string>, item: string): (r: seq<string>)
    ensures item !in r
    ensures forall x :: x != item ==> (x in r <==> x in current)
  {
    Filter(current, (x: string) => x != item)
  }

  /** `toggleArrayItem` on one list: remove the value if present, else append it. */
  function Toggle(current: seq<string>, item: string): (r: seq<string>)
    ensures item in r <==> item !in current
    ensures forall x :: x != item ==> (x in r <==> x in current)
    ensures item !in current ==> r == current + [item]
  {
    if item in current then Without(current, item) else current + [item]
  }

  /** Toggling a value in and out again restores the list. */
  lemma ToggleTwice(current: seq<string>, item: string)
    requires item !in current
    ensures Toggle(Toggle(current, item), item) == current
  {
    FilterAppend(current, [item], (x: string) => x != item);
    FilterAll(current, (x: string) => x != item);
    assert Filter([item], (x: string) => x != item) == [];
  }

  /** `toggleArrayItem`: only the chosen list changes. */
  function ToggleArrayItem(f: Filters, key: ListKey, item: string): (r: Filters)
    ensures r.searchQuery == f.searchQuery && r.maxCalories == f.maxCalories && r.minProtein == f.minProtein
    ensures key == DietaryFlags ==> r.dietaryFlags == Toggle(f.dietaryFlags, item) && r.excludeAllergens == f.excludeAllergens
    ensures key == ExcludeAllergens ==> r.excludeAllergens == Toggle(f.excludeAllergens, item) && r.dietaryFlags == f.dietaryFlags
  {
    match key
    case DietaryFlags => f.(dietaryFlags := Toggle(f.dietaryFlags, item))
    case ExcludeAllergens => f.(excludeAllergens := Toggle(f.excludeAllergens, item))
  }

  /** `clearFilters`: the empty filter. */
  const CLEARED := Filters("", None, None, [], [])

  /** `hasActiveFilters`. */
  predicate HasActiveFilters(f: Filters) {
    f.searchQuery != "" || f.maxCalories.Some? || f.minProtein.Some? || |f.dietaryFlags| > 0 || |f.excludeAllergens| > 0
  }

  /** A filter without active criteria keeps every item; the cleared filter is one. */
  lemma InactiveKeepsAll(items: seq<ClientItem>, f: Filters)
    requires !HasActiveFilters(f)
    ensures FilterMenuItems(items, f) == items
    ensures !HasActiveFilters(CLEARED)
  {
    FilterAll(items, (item: ClientItem) => Keeps(item, f));
  }
}
