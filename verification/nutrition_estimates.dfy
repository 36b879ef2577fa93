/**
 * Normalisation of the nutrition estimates the language model returns, and the chunking of a
 * batch request into calls of at most ten dishes. The model call itself is a parameter.
 */
module NutritionEstimates {
  import opened Wrappers
  import opened JsNumbers
  import opened JsValues

  /** `clamp(value, min, max)`: `Math.max(min, Math.min(max, value))`. */
  function Clamp(value: real, lo: real, hi: real): (r: real)
    ensures lo <= hi ==> lo <= r <= hi
    ensures lo <= value <= hi ==> r == value
    ensures value < lo ==> r == lo
    ensures lo <= hi && hi < value ==> r == hi
  {
    var upper := if hi < value then hi else value;
    if lo > upper then lo else upper
  }

  /**
   * `clamp(x || 0, lo, hi)` for a numeric field that may be missing: null, undefined, NaN and
   * zero read as 0, and the infinities land on the bounds.
   */
  function ClampField(v: Option<JsNumber>, lo: real, hi: real): (r: real)
    requires 0.0 <= lo <= hi
    ensures lo <= r <= hi
    ensures v.None? || v.value.NaN? ==> r == lo
    ensures v.Some? && v.value.Finite? && lo <= v.value.value <= hi ==> r == v.value.value
    ensures v == Some(PosInfinity) ==> r == hi
  {
    if v.None? then Clamp(0.0, lo, hi)
    else match v.value
      case Finite(x) => Clamp(x, lo, hi)
      case NaN => Clamp(0.0, lo, hi)
      case PosInfinity => hi
      case NegInfinity => lo
  }

  /** An estimate as the model returns it: any field may be missing. */
  datatype RawEstimate = RawEstimate(
    calories: Option<JsNumber>,
    protein: Option<JsNumber>,
    carbs: Option<JsNumber>,
    fat: Option<JsNumber>,
    fiber: Option<JsNumber>,
    sugar: Option<JsNumber>,
    sodium: Option<JsNumber>,
    servingSize: Option<string>,
    vitamins: Option<map<string, Option<real>>>,
    minerals: Option<map<string, Option<real>>>,
    allergens: JsValue,
    dietaryFlags: JsValue,
    confidence: Option<string>)

  /** A normalised estimate; an absent micronutrient key stands for `undefined`. */
  datatype Estimate = Estimate(
    calories: real,
    protein: real,
    carbs: real,
    fat: real,
    fiber: real,
    sugar: real,
    sodium: real,
    servingSize: string,
    vitamins: map<string, real>,
    minerals: map<string, real>,
    allergens: seq<JsValue>,
    dietaryFlags: seq<JsValue>,
    confidence: string)

  const VITAMIN_KEYS: set<string> := {"vitamin_a", "vitamin_c", "vitamin_d", "vitamin_b12", "vitamin_e"}
  const MINERAL_KEYS: set<string> := {"calcium", "iron", "potassium", "zinc", "magnesium"}

  const MAX_CALORIES := 3000.0
  const MAX_PROTEIN := 200.0
  const MAX_CARBS := 500.0
  const MAX_FAT := 200.0
  const MAX_FIBER := 100.0
  const MAX_SUGAR := 200.0
  const MAX_SODIUM := 5000.0
  const DEFAULT_SERVING := "1 serving"
  const DEFAULT_CONFIDENCE := "medium"

  /** `x?.key ?? undefined` over a fixed set of keys: the known keys that hold a number. */
  function PickKeys(m: Option<map<string, Option<real>>>, keys: set<string>): (r: map<string, real>)
    ensures r.Keys <= keys
    ensures forall k :: k in keys ==> (k in r <==> m.Some? && k in m.value && m.value[k].Some?)
    ensures forall k :: k in r ==> r[k] == m.value[k].value
  {
    if m.None? then map[]
    else map k | k in keys && k in m.value && m.value[k].Some? :: m.value[k].value
  }

  /** `x || fallback` for a string field. */
  function OrDefault(s: Option<string>, fallback: string): (r: string)
    ensures fallback != "" ==> r != ""
    ensures s.Some? && s.value != "" ==> r == s.value
    ensures s.None? || s.value == "" ==> r == fallback
  {
    if s.Some? && s.value != "" then s.value else fallback
  }

  /** `Array.isArray(x) ? x : []`. */
  function ArrayOrEmpty(v: JsValue): (r: seq<JsValue>)
    ensures v.JArray? ==> r == v.elems
    ensures !v.JArray? ==> r == []
  {
    if v.JArray? then v.elems else []
  }

  /**
   * `validateAndNormalizeNutrition`: every amount goes through `ClampField` with its own range,
   * so it lands in that range and a missing, NaN or zero amount is 0; the serving size and
   * confidence get defaults; only the known micronutrient keys that hold a number are kept,
   * with their values; and list fields that are not arrays become empty.
   */
  function ValidateAndNormalize(data: RawEstimate): (r: Estimate)
    ensures 0.0 <= r.calories <= MAX_CALORIES && 0.0 <= r.protein <= MAX_PROTEIN
    ensures 0.0 <= r.carbs <= MAX_CARBS && 0.0 <= r.fat <= MAX_FAT
    ensures 0.0 <= r.fiber <= MAX_FIBER && 0.0 <= r.sugar <= MAX_SUGAR
    ensures 0.0 <= r.sodium <= MAX_SODIUM
    ensures r.calories == ClampField(data.calories, 0.0, MAX_CALORIES)
    ensures r.protein == ClampField(data.protein, 0.0, MAX_PROTEIN)
    ensures r.carbs == ClampField(data.carbs, 0.0, MAX_CARBS)
    ensures r.fat == ClampField(data.fat, 0.0, MAX_FAT)
    ensures r.fiber == ClampField(data.fiber, 0.0, MAX_FIBER)
    ensures r.sugar == ClampField(data.sugar, 0.0, MAX_SUGAR)
    ensures r.sodium == ClampField(data.sodium, 0.0, MAX_SODIUM)
    ensures r.servingSize != "" && r.confidence != ""
    ensures data.servingSize.None? || data.servingSize.value == "" ==> r.servingSize == DEFAULT_SERVING
    ensures data.confidence.None? || data.confidence.value == "" ==> r.confidence == DEFAULT_CONFIDENCE
    ensures r.vitamins == PickKeys(data.vitamins, VITAMIN_KEYS) && r.minerals == PickKeys(data.minerals, MINERAL_KEYS)
    ensures r.allergens == ArrayOrEmpty(data.allergens) && r.dietaryFlags == ArrayOrEmpty(data.dietaryFlags)
  {
    Estimate(
      calories := ClampField(data.calories, 0.0, MAX_CALORIES),
      protein := ClampField(data.protein, 0.0, MAX_PROTEIN),
      carbs := ClampField(data.carbs, 0.0, MAX_CARBS),
      fat := ClampField(data.fat, 0.0, MAX_FAT),
      fiber := ClampField(data.fiber, 0.0, MAX_FIBER),
      sugar := ClampField(data.sugar, 0.0, MAX_SUGAR),
      sodium := ClampField(data.sodium, 0.0, MAX_SODIUM),
      servingSize := OrDefault(data.servingSize, DEFAULT_SERVING),
      vitamins := PickKeys(data.vitamins, VITAMIN_KEYS),
      minerals := PickKeys(data.minerals, MINERAL_KEYS),
      allergens := ArrayOrEmpty(data.allergens),
      dietaryFlags := ArrayOrEmpty(data.dietaryFlags),
      confidence := OrDefault(data.confidence, DEFAULT_CONFIDENCE))
  }

  function Lift(m: map<string, real>): map<string, Option<real>> {
    map k | k in m :: Some(m[k])
  }

  /** A normalised estimate written back in the model's format. */
  function AsRaw(e: Estimate): RawEstimate {
    RawEstimate(
      Some(Finite(e.calories)), Some(Finite(e.protein)), Some(Finite(e.carbs)),
      Some(Finite(e.fat)), Some(Finite(e.fiber)), Some(Finite(e.sugar)), Some(Finite(e.sodium)),
      Some(e.servingSize), Some(Lift(e.vitamins)), Some(Lift(e.minerals)),
      JArray(e.allergens), JArray(e.dietaryFlags), Some(e.confidence))
  }

  /** Normalising a normalised estimate changes nothing. */
  lemma ValidateIdempotent(data: RawEstimate)
    ensures ValidateAndNormalize(AsRaw(ValidateAndNormalize(data))) == ValidateAndNormalize(data)
  {
    var e := ValidateAndNormalize(data);
    var again := ValidateAndNormalize(AsRaw(e));
    assert again.vitamins == e.vitamins by {
      PickKeysAgain(data.vitamins, VITAMIN_KEYS);
    }
    assert again.minerals == e.minerals by {
      PickKeysAgain(data.minerals, MINERAL_KEYS);
    }
  }

  /** Picking the keys again from what was picked keeps it all. */
  lemma PickKeysAgain(m: Option<map<string, Option<real>>>, keys: set<string>)
    ensures PickKeys(Some(Lift(PickKeys(m, keys))), keys) == PickKeys(m, keys)
  {
  }

  /** A dish to estimate. */
  datatype Dish = Dish(name: string, category: Option<string>)

  /** One entry of the model's batch reply; its nutrition may be missing. */
  datatype RawItem = RawItem(name: string, nutrition: Option<RawEstimate>)

  /** One entry of the batch result. */
  datatype BatchItem = BatchItem(name: string, nutrition: Estimate)

  const MAX_BATCH_SIZE: nat := 10

  /**
   * One call of the model for at most ten dishes. `call` stands for the request and the
   * JSON parse: `None` when either fails or the reply has no `items`. An entry without
   * nutrition makes the normalisation throw; `None` here stands for that error too.
   */
  function SingleBatch(chunk: seq<Dish>, call: seq<Dish> -> Option<seq<RawItem>>): (r: Option<seq<BatchItem>>)
    ensures r.Some? ==> call(chunk).Some? && |r.value| == |call(chunk).value|
    ensures r.Some? ==> forall i :: 0 <= i < |r.value| ==>
      && call(chunk).value[i].nutrition.Some?
      && r.value[i] == BatchItem(call(chunk).value[i].name, ValidateAndNormalize(call(chunk).value[i].nutrition.value))
    ensures r.None? <==> call(chunk).None? || exists i :: 0 <= i < |call(chunk).value| && call(chunk).value[i].nutrition.None?
  {
    var reply := call(chunk);
    if reply.None? || exists i :: 0 <= i < |reply.value| && reply.value[i].nutrition.None? then None
    else Some(seq(|reply.value|, i requires 0 <= i < |reply.value| =>
      BatchItem(reply.value[i].name, ValidateAndNormalize(reply.value[i].nutrition.value))))
  }

  function Min(a: int, b: int): int {
    if a < b then a else b
  }

  /** The consecutive chunks of at most ten dishes that `generateNutritionBatch` sends. */
  function Chunks<T>(d: seq<T>): (r: seq<seq<T>>)
    ensures forall k :: 0 <= k < |r| ==> 1 <= |r[k]| <= MAX_BATCH_SIZE
    ensures Flatten(r) == d
    decreases |d|
  {
    if d == [] then []
    else if |d| <= MAX_BATCH_SIZE then
      assert Flatten([d]) == d + Flatten([]);
      [d]
    else
      var rest := Chunks(d[MAX_BATCH_SIZE..]);
      assert Flatten([d[..MAX_BATCH_SIZE]] + rest) == d[..MAX_BATCH_SIZE] + Flatten(rest);
      assert d[..MAX_BATCH_SIZE] + d[MAX_BATCH_SIZE..] == d;
      [d[..MAX_BATCH_SIZE]] + rest
  }

  function Flatten<T>(xs: seq<seq<T>>): seq<T> {
    if xs == [] then [] else xs[0] + Flatten(xs[1..])
  }

  /** Prefix a list of results to a possibly failed remainder. */
  function Prepend(xs: seq<BatchItem>, rest: Option<seq<BatchItem>>): Option<seq<BatchItem>> {
    if rest.Some? then Some(xs + rest.value) else None
  }

  /** The results of a sequence of chunk calls, concatenated; a failing call fails all. */
  function BatchOfChunks(cs: seq<seq<Dish>>, call: seq<Dish> -> Option<seq<RawItem>>): Option<seq<BatchItem>> {
    if cs == [] then Some([])
    else
      var first := SingleBatch(cs[0], call);
      if first.None? then None else Prepend(first.value, BatchOfChunks(cs[1..], call))
  }

  /** What `generateNutritionBatch` returns for `dishes` (`None`: it throws). */
  function Batch(dishes: seq<Dish>, call: seq<Dish> -> Option<seq<RawItem>>): Option<seq<BatchItem>> {
    BatchOfChunks(Chunks(dishes), call)
  }

  /** The chunks of a non-empty list: the first (at most ten) dishes, then the chunks of the rest. */
  lemma ChunksCons<T>(d: seq<T>)
    requires d != []
    ensures Chunks(d) == [d[..Min(|d|, MAX_BATCH_SIZE)]] + Chunks(d[Min(|d|, MAX_BATCH_SIZE)..])
  {
    if |d| <= MAX_BATCH_SIZE {
      assert d[..|d|] == d;
      assert d[|d|..] == [];
    }
  }

  /** A batch is the first chunk's call followed by the batch of the remaining dishes. */
  lemma BatchCons(d: seq<Dish>, call: seq<Dish> -> Option<seq<RawItem>>)
    requires d != []
    ensures var sb := SingleBatch(d[..Min(|d|, MAX_BATCH_SIZE)], call);
      Batch(d, call) == if sb.None? then None else Prepend(sb.value, Batch(d[Min(|d|, MAX_BATCH_SIZE)..], call))
  {
    ChunksCons(d);
    var cs := Chunks(d);
    assert cs[0] == d[..Min(|d|, MAX_BATCH_SIZE)];
    assert cs[1..] == Chunks(d[Min(|d|, MAX_BATCH_SIZE)..]);
  }

  lemma PrependEmpty(rest: Option<seq<BatchItem>>)
    ensures Prepend([], rest) == rest
    ensures rest.Some? ==> Prepend(rest.value, Some([])) == rest
  {
    if rest.Some? {
      assert [] + rest.value == rest.value + [] == rest.value;
    }
  }

  lemma PrependAssoc(xs: seq<BatchItem>, ys: seq<BatchItem>, rest: Option<seq<BatchItem>>)
    ensures Prepend(xs, Prepend(ys, rest)) == Prepend(xs + ys, rest)
  {
    if rest.Some? {
      assert xs + (ys + rest.value) == (xs + ys) + rest.value;
    }
  }

  /**
   * `generateNutritionBatch`: no call for an empty list, one call for up to ten dishes, and
   * otherwise one call per chunk of ten, with the results appended in chunk order.
   */
  method GenerateBatch(dishes: seq<Dish>, call: seq<Dish> -> Option<seq<RawItem>>)
    returns (r: Option<seq<BatchItem>>)
    ensures r == Batch(dishes, call)
    decreases |dishes|
  {
    if |dishes| == 0 {
      return Some([]);
    }
    if |dishes| <= MAX_BATCH_SIZE {
      BatchCons(dishes, call);
      assert dishes[..|dishes|] == dishes && dishes[|dishes|..] == [];
      PrependEmpty(SingleBatch(dishes, call));
      return SingleBatch(dishes, call);
    }
    var results: seq<BatchItem> := [];
    var i := 0;
    assert dishes[0..] == dishes;
    PrependEmpty(Batch(dishes, call));
    while i < |dishes|
      invariant 0 <= i <= |dishes| + MAX_BATCH_SIZE
      invariant Prepend(results, Batch(dishes[Min(i, |dishes|)..], call)) == Batch(dishes, call)
      decreases |dishes| - i
    {
      var end := Min(i + MAX_BATCH_SIZE, |dishes|);
      var chunk := dishes[i..end];
      BatchCons(dishes[i..], call);
      assert dishes[i..][..Min(|dishes| - i, MAX_BATCH_SIZE)] == chunk;
      assert dishes[i..][Min(|dishes| - i, MAX_BATCH_SIZE)..] == dishes[end..];
      assert Min(i + MAX_BATCH_SIZE, |dishes|) == end;
      var chunkResult := GenerateBatch(chunk, call);
      BatchCons(chunk, call);
      assert chunk[..Min(|chunk|, MAX_BATCH_SIZE)] == chunk;
      assert chunk[Min(|chunk|, MAX_BATCH_SIZE)..] == [];
      PrependEmpty(SingleBatch(chunk, call));
      assert chunkResult == SingleBatch(chunk, call);
      if chunkResult.None? {
        return None;
      }
      PrependAssoc(results, chunkResult.value, Batch(dishes[end..], call));
      results := results + chunkResult.value;
      i := i + MAX_BATCH_SIZE;
    }
    assert dishes[Min(i, |dishes|)..] == [];
    assert Batch([], call) == Some([]);
    assert results + [] == results;
    return Some(results);
  }

  /** The empty list gives no items and makes no call. */
  lemma BatchEmpty(call: seq<Dish> -> Option<seq<RawItem>>)
    ensures Batch([], call) == Some([])
  {
  }

  /**
   * When every call answers with one complete entry per dish, the batch succeeds with one
   * entry per dish.
   */
  lemma {:induction false} BatchOneEntryPerDish(cs: seq<seq<Dish>>, call: seq<Dish> -> Option<seq<RawItem>>)
    requires forall k :: 0 <= k < |cs| ==> call(cs[k]).Some? && |call(cs[k]).value| == |cs[k]|
    requires forall k, i :: 0 <= k < |cs| && 0 <= i < |call(cs[k]).value| ==> call(cs[k]).value[i].nutrition.Some?
    ensures BatchOfChunks(cs, call).Some? && |BatchOfChunks(cs, call).value| == |Flatten(cs)|
  {
    if cs != [] {
      BatchOneEntryPerDish(cs[1..], call);
      assert call(cs[0]).Some?;
      assert forall i :: 0 <= i < |call(cs[0]).value| ==> call(cs[0]).value[i].nutrition.Some?;
    }
  }
}
