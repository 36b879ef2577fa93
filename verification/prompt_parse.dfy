/**
 * The shaping half of `parseRecommendationPrompt`: the language model's JSON reply (already
 * parsed) becomes recommendation constraints. Numbers are kept only when they are finite
 * numbers, lists are cleaned element by element, and nothing is clamped.
 */
module PromptParse {
  import opened Wrappers
  import opened Seqs
  import opened Text
  import opened JsNumbers
  import opened JsValues
  import opened Types

  /** `normalizeNumber`: a finite number is kept; anything else, numeric strings too, is null. */
  function NormalizeNumber(v: JsValue): (r: Option<real>)
    ensures r.Some? <==> v.JNumber? && v.n.Finite?
    ensures r.Some? ==> r.value == v.n.value
  {
    if v.JNumber? && v.n.Finite? then Some(v.n.value) else None
  }

  /**
   * Compared with the engine's `toNumber`, `normalizeNumber` differs only on strings, which it
   * never reads.
   */
  lemma NormalizeNumberVersusToNumber(v: JsValue)
    ensures !v.JString? ==> NormalizeNumber(v) == ToFiniteNumber(v)
    ensures v.JString? ==> NormalizeNumber(v) == None
  {
  }

  /** A numeric string such as "30" is dropped here although `toNumber` would read it. */
  lemma NumericStringDropped(n: nat)
    ensures NormalizeNumber(JString(NatToString(n))) == None
    ensures ToFiniteNumber(JString(NatToString(n))) == Some(n as real)
  {
    ToFiniteNumberOfNatString(n);
  }

  /** A cleaned list entry: non-empty, with no surrounding white space and no capitals. */
  predicate IsClean(x: string) {
    x != "" && IsTrimmed(x) && IsLower(x)
  }

  /**
   * The per-element step shared by `normalizeArray` and the route's `uniqueStrings`: a string
   * is trimmed and lower-cased, anything else becomes the empty string.
   */
  function CleanString(v: JsValue): (r: string)
    ensures IsTrimmed(r) && IsLower(r)
    ensures !v.JString? ==> r == ""
    ensures v.JString? ==> (r == "" <==> Trim(v.s) == "")
  {
    if v.JString? then
      LowerKeepsTrimmed(Trim(v.s));
      Lower(Trim(v.s))
    else ""
  }

  /** A cleaned string cleans to itself. */
  lemma CleanStringOfClean(x: string)
    requires IsClean(x)
    ensures CleanString(JString(x)) == x
  {
    TrimTrimmed(x);
    LowerOfLower(x);
  }

  /** The strings of a list, as JavaScript values. */
  function JsStrings(xs: seq<string>): (r: seq<JsValue>)
    ensures |r| == |xs|
    ensures forall i :: 0 <= i < |xs| ==> r[i] == JString(xs[i])
  {
    seq(|xs|, i requires 0 <= i < |xs| => JString(xs[i]))
  }

  /**
   * `normalizeArray`: a non-array is the empty list; otherwise the cleaned strings, in
   * their original order, with empties dropped and duplicates kept.
   */
  function NormalizeArray(v: JsValue): (r: seq<string>)
    ensures !v.JArray? ==> r == []
    ensures forall k :: 0 <= k < |r| ==> IsClean(r[k])
    ensures v.JArray? ==> SubseqOf(r, Map(v.elems, CleanString))
    ensures v.JArray? ==> forall k :: 0 <= k < |r| ==> r[k] in Map(v.elems, CleanString)
    ensures v.JArray? ==> forall i :: 0 <= i < |v.elems| && CleanString(v.elems[i]) != "" ==>
      CleanString(v.elems[i]) in r
  {
    if v.JArray? then
      var cleaned := Map(v.elems, CleanString);
      assert forall i :: 0 <= i < |v.elems| ==> cleaned[i] == CleanString(v.elems[i]);
      Filter(cleaned, NonEmpty)
    else []
  }

  /** Normalising a list is normalising its two halves, so repeated entries all stay. */
  lemma NormalizeArrayAppend(a: seq<JsValue>, b: seq<JsValue>)
    ensures NormalizeArray(JArray(a + b)) == NormalizeArray(JArray(a)) + NormalizeArray(JArray(b))
  {
    MapAppend(a, b, CleanString);
    FilterAppend(Map(a, CleanString), Map(b, CleanString), NonEmpty);
  }

  /** Normalising an already normalised list changes nothing. */
  lemma {:induction false} NormalizeArrayIdempotent(v: JsValue)
    ensures NormalizeArray(JArray(JsStrings(NormalizeArray(v)))) == NormalizeArray(v)
  {
    var r := NormalizeArray(v);
    var cleaned := Map(JsStrings(r), CleanString);
    forall i | 0 <= i < |r| ensures cleaned[i] == r[i] {
      CleanStringOfClean(r[i]);
    }
    assert cleaned == r;
    FilterAll(r, NonEmpty);
  }

  /** Property read on a parsed JSON value: only objects have the keys read here. */
  function Fields(v: JsValue): map<string, JsValue> {
    if v.JObject? then v.fields else map[]
  }

  /**
   * The constraints returned for the model's reply `reply`, parsed by `JSON.parse`
   * (`None` when the reply was missing, empty or not JSON). `None` as the result means the
   * function throws: on a missing reply and on a `null` document, whose properties cannot
   * be read.
   */
  function ShapeConstraints(reply: Option<JsValue>): (r: Option<Constraints>)
    ensures r.None? <==> reply.None? || reply.value.JNull? || reply.value.JUndefined?
    ensures r.Some? ==>
      var f := Fields(reply.value);
      && r.value.minProtein == NormalizeNumber(Field(f, "minProtein"))
      && r.value.maxCalories == NormalizeNumber(Field(f, "maxCalories"))
      && r.value.minCalories == NormalizeNumber(Field(f, "minCalories"))
      && r.value.maxCarbs == NormalizeNumber(Field(f, "maxCarbs"))
      && r.value.maxFat == NormalizeNumber(Field(f, "maxFat"))
      && r.value.maxItems == NormalizeNumber(Field(f, "maxItems"))
    ensures r.Some? ==>
      var f := Fields(reply.value);
      && r.value.dietaryFlags == Some(NormalizeArray(Field(f, "dietaryFlags")))
      && r.value.excludeAllergens == Some(NormalizeArray(Field(f, "excludeAllergens")))
      && r.value.avoidIngredients == Some(NormalizeArray(Field(f, "avoidIngredients")))
      && r.value.preferIngredients == Some(NormalizeArray(Field(f, "preferIngredients")))
    ensures r.Some? ==>
      var m := Field(Fields(reply.value), "mealPeriod");
      && (r.value.mealPeriod.Some? <==> m.JString?)
      && (m.JString? ==> r.value.mealPeriod.value == Lower(m.s))
  {
    if reply.None? || reply.value.JNull? || reply.value.JUndefined? then None
    else
      var f := Fields(reply.value);
      var meal := Field(f, "mealPeriod");
      Some(Constraints(
        minProtein := NormalizeNumber(Field(f, "minProtein")),
        maxCalories := NormalizeNumber(Field(f, "maxCalories")),
        minCalories := NormalizeNumber(Field(f, "minCalories")),
        maxCarbs := NormalizeNumber(Field(f, "maxCarbs")),
        maxFat := NormalizeNumber(Field(f, "maxFat")),
        dietaryFlags := Some(NormalizeArray(Field(f, "dietaryFlags"))),
        excludeAllergens := Some(NormalizeArray(Field(f, "excludeAllergens"))),
        avoidIngredients := Some(NormalizeArray(Field(f, "avoidIngredients"))),
        preferIngredients := Some(NormalizeArray(Field(f, "preferIngredients"))),
        maxItems := NormalizeNumber(Field(f, "maxItems")),
        mealPeriod := if meal.JString? then Some(Lower(meal.s)) else None))
  }

  /** Every list in a shaped result is present and holds only cleaned entries. */
  lemma ShapedListsClean(reply: Option<JsValue>)
    requires ShapeConstraints(reply).Some?
    ensures var c := ShapeConstraints(reply).value;
      && c.dietaryFlags.Some? && c.excludeAllergens.Some?
      && c.avoidIngredients.Some? && c.preferIngredients.Some?
      && (forall x | x in c.dietaryFlags.value :: IsClean(x))
      && (forall x | x in c.excludeAllergens.value :: IsClean(x))
      && (forall x | x in c.avoidIngredients.value :: IsClean(x))
      && (forall x | x in c.preferIngredients.value :: IsClean(x))
  {
  }

  function NumberOrNull(x: Option<real>): JsValue {
    if x.Some? then JNumber(Finite(x.value)) else JNull
  }

  /** The JSON document the model is asked to return, written for given constraints. */
  function ReplyFor(c: Constraints): JsValue
    requires c.dietaryFlags.Some? && c.excludeAllergens.Some?
    requires c.avoidIngredients.Some? && c.preferIngredients.Some?
  {
    JObject(map[
      "minProtein" := NumberOrNull(c.minProtein),
      "maxCalories" := NumberOrNull(c.maxCalories),
      "minCalories" := NumberOrNull(c.minCalories),
      "maxCarbs" := NumberOrNull(c.maxCarbs),
      "maxFat" := NumberOrNull(c.maxFat),
      "dietaryFlags" := JArray(JsStrings(c.dietaryFlags.value)),
      "excludeAllergens" := JArray(JsStrings(c.excludeAllergens.value)),
      "avoidIngredients" := JArray(JsStrings(c.avoidIngredients.value)),
      "preferIngredients" := JArray(JsStrings(c.preferIngredients.value)),
      "maxItems" := NumberOrNull(c.maxItems),
      "mealPeriod" := if c.mealPeriod.Some? then JString(c.mealPeriod.value) else JNull])
  }

  /** Lists of cleaned entries pass through `normalizeArray` unchanged. */
  lemma NormalizeCleanList(xs: seq<string>)
    requires forall k :: 0 <= k < |xs| ==> IsClean(xs[k])
    ensures NormalizeArray(JArray(JsStrings(xs))) == xs
  {
    var cleaned := Map(JsStrings(xs), CleanString);
    forall i | 0 <= i < |xs| ensures cleaned[i] == xs[i] {
      CleanStringOfClean(xs[i]);
    }
    assert cleaned == xs;
    FilterAll(xs, NonEmpty);
  }

  /**
   * A reply that already follows the requested format (finite numbers, cleaned lists, a
   * lower-case meal period) is read back exactly; in particular `maxItems` is not clamped.
   */
  lemma ShapeReplyFor(c: Constraints)
    requires c.dietaryFlags.Some? && c.excludeAllergens.Some?
    requires c.avoidIngredients.Some? && c.preferIngredients.Some?
    requires forall x | x in c.dietaryFlags.value :: IsClean(x)
    requires forall x | x in c.excludeAllergens.value :: IsClean(x)
    requires forall x | x in c.avoidIngredients.value :: IsClean(x)
    requires forall x | x in c.preferIngredients.value :: IsClean(x)
    requires c.mealPeriod.Some? ==> IsLower(c.mealPeriod.value)
    ensures ShapeConstraints(Some(ReplyFor(c))) == Some(c)
  {
    ReplyNumberFields(c);
    ReplyListFields(c);
    ShapeOfCleanReply(ReplyFor(c), c);
  }

  /** A reply holding the fields of `c`, with cleaned lists and a lower-case meal period, shapes into `c`. */
  lemma ShapeOfCleanReply(v: JsValue, c: Constraints)
    requires !v.JNull? && !v.JUndefined?
    requires c.dietaryFlags.Some? && c.excludeAllergens.Some?
    requires c.avoidIngredients.Some? && c.preferIngredients.Some?
    requires forall x | x in c.dietaryFlags.value :: IsClean(x)
    requires forall x | x in c.excludeAllergens.value :: IsClean(x)
    requires forall x | x in c.avoidIngredients.value :: IsClean(x)
    requires forall x | x in c.preferIngredients.value :: IsClean(x)
    requires c.mealPeriod.Some? ==> IsLower(c.mealPeriod.value)
    requires var f := Fields(v);
      && Field(f, "minProtein") == NumberOrNull(c.minProtein)
      && Field(f, "maxCalories") == NumberOrNull(c.maxCalories)
      && Field(f, "minCalories") == NumberOrNull(c.minCalories)
      && Field(f, "maxCarbs") == NumberOrNull(c.maxCarbs)
      && Field(f, "maxFat") == NumberOrNull(c.maxFat)
      && Field(f, "maxItems") == NumberOrNull(c.maxItems)
      && Field(f, "mealPeriod") == (if c.mealPeriod.Some? then JString(c.mealPeriod.value) else JNull)
    requires var f := Fields(v);
      && Field(f, "dietaryFlags") == JArray(JsStrings(c.dietaryFlags.value))
      && Field(f, "excludeAllergens") == JArray(JsStrings(c.excludeAllergens.value))
      && Field(f, "avoidIngredients") == JArray(JsStrings(c.avoidIngredients.value))
      && Field(f, "preferIngredients") == JArray(JsStrings(c.preferIngredients.value))
    ensures ShapeConstraints(Some(v)) == Some(c)
  {
    CleanListsRead(Fields(v), c);
    NumbersRead(Fields(v), c);
    ShapeOfFields(v, c);
  }

  /** Finite numbers and nulls, and a lower-case meal period, are read back as they were written. */
  lemma NumbersRead(f: map<string, JsValue>, c: Constraints)
    requires c.mealPeriod.Some? ==> IsLower(c.mealPeriod.value)
    requires Field(f, "minProtein") == NumberOrNull(c.minProtein)
    requires Field(f, "maxCalories") == NumberOrNull(c.maxCalories)
    requires Field(f, "minCalories") == NumberOrNull(c.minCalories)
    requires Field(f, "maxCarbs") == NumberOrNull(c.maxCarbs)
    requires Field(f, "maxFat") == NumberOrNull(c.maxFat)
    requires Field(f, "maxItems") == NumberOrNull(c.maxItems)
    requires Field(f, "mealPeriod") == (if c.mealPeriod.Some? then JString(c.mealPeriod.value) else JNull)
    ensures NormalizeNumber(Field(f, "minProtein")) == c.minProtein
    ensures NormalizeNumber(Field(f, "maxCalories")) == c.maxCalories
    ensures NormalizeNumber(Field(f, "minCalories")) == c.minCalories
    ensures NormalizeNumber(Field(f, "maxCarbs")) == c.maxCarbs
    ensures NormalizeNumber(Field(f, "maxFat")) == c.maxFat
    ensures NormalizeNumber(Field(f, "maxItems")) == c.maxItems
    ensures var m := Field(f, "mealPeriod");
      (c.mealPeriod.Some? <==> m.JString?) && (m.JString? ==> c.mealPeriod.value == Lower(m.s))
  {
    if c.mealPeriod.Some? {
      LowerOfLower(c.mealPeriod.value);
    }
  }

  /** Cleaned lists written as string arrays are read back by `normalizeArray` as they were. */
  lemma CleanListsRead(f: map<string, JsValue>, c: Constraints)
    requires c.dietaryFlags.Some? && c.excludeAllergens.Some?
    requires c.avoidIngredients.Some? && c.preferIngredients.Some?
    requires forall x | x in c.dietaryFlags.value :: IsClean(x)
    requires forall x | x in c.excludeAllergens.value :: IsClean(x)
    requires forall x | x in c.avoidIngredients.value :: IsClean(x)
    requires forall x | x in c.preferIngredients.value :: IsClean(x)
    requires Field(f, "dietaryFlags") == JArray(JsStrings(c.dietaryFlags.value))
    requires Field(f, "excludeAllergens") == JArray(JsStrings(c.excludeAllergens.value))
    requires Field(f, "avoidIngredients") == JArray(JsStrings(c.avoidIngredients.value))
    requires Field(f, "preferIngredients") == JArray(JsStrings(c.preferIngredients.value))
    ensures Some(NormalizeArray(Field(f, "dietaryFlags"))) == c.dietaryFlags
    ensures Some(NormalizeArray(Field(f, "excludeAllergens"))) == c.excludeAllergens
    ensures Some(NormalizeArray(Field(f, "avoidIngredients"))) == c.avoidIngredients
    ensures Some(NormalizeArray(Field(f, "preferIngredients"))) == c.preferIngredients
  {
    CleanListRead(Field(f, "dietaryFlags"), c.dietaryFlags.value);
    CleanListRead(Field(f, "excludeAllergens"), c.excludeAllergens.value);
    CleanListRead(Field(f, "avoidIngredients"), c.avoidIngredients.value);
    CleanListRead(Field(f, "preferIngredients"), c.preferIngredients.value);
  }

  lemma CleanListRead(v: JsValue, xs: seq<string>)
    requires v == JArray(JsStrings(xs)) && forall x | x in xs :: IsClean(x)
    ensures Some(NormalizeArray(v)) == Some(xs)
  {
    NormalizeCleanList(xs);
  }

  /** A reply whose keys read back as the fields of `c` is shaped into `c`. */
  lemma ShapeOfFields(v: JsValue, c: Constraints)
    requires !v.JNull? && !v.JUndefined?
    requires var f := Fields(v);
      && NormalizeNumber(Field(f, "minProtein")) == c.minProtein
      && NormalizeNumber(Field(f, "maxCalories")) == c.maxCalories
      && NormalizeNumber(Field(f, "minCalories")) == c.minCalories
      && NormalizeNumber(Field(f, "maxCarbs")) == c.maxCarbs
      && NormalizeNumber(Field(f, "maxFat")) == c.maxFat
      && NormalizeNumber(Field(f, "maxItems")) == c.maxItems
      && Some(NormalizeArray(Field(f, "dietaryFlags"))) == c.dietaryFlags
      && Some(NormalizeArray(Field(f, "excludeAllergens"))) == c.excludeAllergens
      && Some(NormalizeArray(Field(f, "avoidIngredients"))) == c.avoidIngredients
      && Some(NormalizeArray(Field(f, "preferIngredients"))) == c.preferIngredients
    requires var m := Field(Fields(v), "mealPeriod");
      (c.mealPeriod.Some? <==> m.JString?) && (m.JString? ==> c.mealPeriod.value == Lower(m.s))
    ensures ShapeConstraints(Some(v)) == Some(c)
  {
  }

  /** What the number keys and the meal period of the written reply hold. */
  lemma ReplyNumberFields(c: Constraints)
    requires c.dietaryFlags.Some? && c.excludeAllergens.Some?
    requires c.avoidIngredients.Some? && c.preferIngredients.Some?
    ensures var f := Fields(ReplyFor(c));
      && Field(f, "minProtein") == NumberOrNull(c.minProtein)
      && Field(f, "maxCalories") == NumberOrNull(c.maxCalories)
      && Field(f, "minCalories") == NumberOrNull(c.minCalories)
      && Field(f, "maxCarbs") == NumberOrNull(c.maxCarbs)
      && Field(f, "maxFat") == NumberOrNull(c.maxFat)
      && Field(f, "maxItems") == NumberOrNull(c.maxItems)
      && Field(f, "mealPeriod") == (if c.mealPeriod.Some? then JString(c.mealPeriod.value) else JNull)
  {
  }

  /** What the list keys of the written reply hold. */
  lemma ReplyListFields(c: Constraints)
    requires c.dietaryFlags.Some? && c.excludeAllergens.Some?
    requires c.avoidIngredients.Some? && c.preferIngredients.Some?
    ensures var f := Fields(ReplyFor(c));
      && Field(f, "dietaryFlags") == JArray(JsStrings(c.dietaryFlags.value))
      && Field(f, "excludeAllergens") == JArray(JsStrings(c.excludeAllergens.value))
      && Field(f, "avoidIngredients") == JArray(JsStrings(c.avoidIngredients.value))
      && Field(f, "preferIngredients") == JArray(JsStrings(c.preferIngredients.value))
  {
  }
}
