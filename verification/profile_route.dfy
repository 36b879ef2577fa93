/**
 * The profile endpoint: `GET` returns the stored profile of the signed-in user, `PUT`
 * normalises the body into the payload that is stored. The session and the database are
 * parameters.
 */
module ProfileRoute {
  import opened Wrappers
  import opened Seqs
  import opened Text
  import opened JsNumbers
  import opened JsValues
  import opened PromptParse

  /** The per-element step of `normalizeStringArray`: strings are trimmed, the rest is empty. */
  function TrimString(v: JsValue): (r: string)
    ensures IsTrimmed(r)
    ensures v.JString? ==> r == Trim(v.s)
    ensures !v.JString? ==> r == ""
  {
    if v.JString? then Trim(v.s) else ""
  }

  /**
   * `normalizeStringArray`: null for a non-array; otherwise the trimmed strings in their
   * original order, with empties and non-strings dropped. Case is kept.
   */
  function NormalizeStringArray(v: JsValue): (r: Option<seq<string>>)
    ensures r.None? <==> !v.JArray?
    ensures r.Some? ==> forall k :: 0 <= k < |r.value| ==> r.value[k] != "" && IsTrimmed(r.value[k])
    ensures r.Some? ==> SubseqOf(r.value, Map(v.elems, TrimString))
    ensures r.Some? ==> forall i :: 0 <= i < |v.elems| && v.elems[i].JString? && Trim(v.elems[i].s) != "" ==>
      Trim(v.elems[i].s) in r.value
  {
    if v.JArray? then
      var trimmed := Map(v.elems, TrimString);
      assert forall i :: 0 <= i < |v.elems| ==> trimmed[i] == TrimString(v.elems[i]);
      Some(Filter(trimmed, NonEmpty))
    else None
  }

  function LowerAll(xs: seq<string>): (r: seq<string>)
    ensures |r| == |xs| && forall i :: 0 <= i < |xs| ==> r[i] == Lower(xs[i])
  {
    seq(|xs|, i requires 0 <= i < |xs| => Lower(xs[i]))
  }

  /**
   * The profile's list and the prompt's list of the same array differ only in case:
   * lower-casing the profile's entries gives the prompt's.
   */
  lemma {:induction false} StringArrayVersusNormalizeArray(elems: seq<JsValue>)
    ensures LowerAll(NormalizeStringArray(JArray(elems)).value) == NormalizeArray(JArray(elems))
  {
    var trimmed := Map(elems, TrimString);
    var cleaned := Map(elems, CleanString);
    forall i | 0 <= i < |elems| ensures cleaned[i] == LowerAll(trimmed)[i] {
    }
    assert cleaned == LowerAll(trimmed);
    LowerAllFilter(trimmed);
  }

  /** Lower-casing keeps emptiness, so it commutes with dropping the empty strings. */
  lemma {:induction false} LowerAllFilter(xs: seq<string>)
    ensures LowerAll(Filter(xs, NonEmpty)) == Filter(LowerAll(xs), NonEmpty)
  {
    if xs != [] {
      var ys := LowerAll(xs);
      LowerAllFilter(xs[1..]);
      assert ys[1..] == LowerAll(xs[1..]) && ys[0] == Lower(xs[0]) by {
        LowerAllCons(xs[0], xs[1..]);
        assert xs == [xs[0]] + xs[1..];
      }
      assert |Lower(xs[0])| == |xs[0]|;
      if xs[0] != "" {
        LowerAllCons(xs[0], Filter(xs[1..], NonEmpty));
      }
    }
  }

  lemma LowerAllCons(x: string, xs: seq<string>)
    ensures LowerAll([x] + xs) == [Lower(x)] + LowerAll(xs)
  {
  }

  /** Lists of trimmed, non-empty strings are stored unchanged. */
  lemma StringArrayOfTrimmed(xs: seq<string>)
    requires forall k :: 0 <= k < |xs| ==> xs[k] != "" && IsTrimmed(xs[k])
    ensures NormalizeStringArray(JArray(JsStrings(xs))) == Some(xs)
  {
    var trimmed := Map(JsStrings(xs), TrimString);
    forall i | 0 <= i < |xs| ensures trimmed[i] == xs[i] {
      TrimTrimmed(xs[i]);
    }
    assert trimmed == xs;
    FilterAll(xs, NonEmpty);
  }

  /** The stored profile fields written by `PUT`. */
  datatype Payload = Payload(
    dailyCalories: Option<real>,
    dailyProtein: Option<real>,
    dailyCarbs: Option<real>,
    dailyFat: Option<real>,
    dietaryFlags: Option<seq<string>>,
    allergens: Option<seq<string>>,
    excludedIngredients: Option<seq<string>>,
    preferredIngredients: Option<seq<string>>,
    preferredCuisines: Option<seq<string>>,
    notes: Option<string>)

  /** The payload built from a request body. */
  function BuildPayload(body: map<string, JsValue>): (r: Payload)
    ensures r.dailyCalories == ToFiniteNumber(Field(body, "dailyCalories"))
    ensures r.dailyProtein == ToFiniteNumber(Field(body, "dailyProtein"))
    ensures r.dailyCarbs == ToFiniteNumber(Field(body, "dailyCarbs"))
    ensures r.dailyFat == ToFiniteNumber(Field(body, "dailyFat"))
    ensures r.dietaryFlags == NormalizeStringArray(Field(body, "dietaryFlags"))
    ensures r.allergens == NormalizeStringArray(Field(body, "allergens"))
    ensures r.excludedIngredients == NormalizeStringArray(Field(body, "excludedIngredients"))
    ensures r.preferredIngredients == NormalizeStringArray(Field(body, "preferredIngredients"))
    ensures r.preferredCuisines == NormalizeStringArray(Field(body, "preferredCuisines"))
    ensures r.notes.Some? <==> Field(body, "notes").JString?
    ensures r.notes.Some? ==> r.notes.value == Trim(Field(body, "notes").s)
  {
    var notes := Field(body, "notes");
    Payload(
      ToFiniteNumber(Field(body, "dailyCalories")),
      ToFiniteNumber(Field(body, "dailyProtein")),
      ToFiniteNumber(Field(body, "dailyCarbs")),
      ToFiniteNumber(Field(body, "dailyFat")),
      NormalizeStringArray(Field(body, "dietaryFlags")),
      NormalizeStringArray(Field(body, "allergens")),
      NormalizeStringArray(Field(body, "excludedIngredients")),
      NormalizeStringArray(Field(body, "preferredIngredients")),
      NormalizeStringArray(Field(body, "preferredCuisines")),
      if notes.JString? then Some(Trim(notes.s)) else None)
  }

  /** A reply of the endpoint; `Upsert` carries what is written for the user. */
  datatype ProfileResponse =
    | Unauthorized
    | InvalidJson
    | Thrown
    | Found(stored: Option<Payload>)
    | Upsert(userId: string, payload: Payload)

  /** A session identifies a user only with a non-empty id. */
  predicate SignedIn(userId: Option<string>) {
    userId.Some? && userId.value != ""
  }

  /** `GET`: 401 without a user, else the stored profile (which may be null). */
  function Get(userId: Option<string>, stored: Option<Payload>): (r: ProfileResponse)
    ensures !SignedIn(userId) ==> r == Unauthorized
    ensures SignedIn(userId) ==> r == Found(stored)
  {
    if !SignedIn(userId) then Unauthorized else Found(stored)
  }

  /**
   * `PUT`: 401 without a user, 400 when the body is not JSON (`request` is `None`), an
   * escaping error for a `null` body, else an upsert of the normalised payload.
   */
  function Put(userId: Option<string>, request: Option<JsValue>): (r: ProfileResponse)
    ensures !SignedIn(userId) ==> r == Unauthorized
    ensures SignedIn(userId) && request.None? ==> r == InvalidJson
    ensures SignedIn(userId) && request == Some(JNull) ==> r == Thrown
    ensures SignedIn(userId) && request.Some? && !request.value.JNull? ==>
      r == Upsert(userId.value, BuildPayload(Fields(request.value)))
  {
    if !SignedIn(userId) then Unauthorized
    else if request.None? then InvalidJson
    else if request.value.JNull? then Thrown
    else Upsert(userId.value, BuildPayload(Fields(request.value)))
  }

  function ListOrNull(x: Option<seq<string>>): JsValue {
    if x.Some? then JArray(JsStrings(x.value)) else JNull
  }

  /** A payload written back as a request body. */
  function BodyFor(p: Payload): map<string, JsValue> {
    map[
      "dailyCalories" := NumberOrNull(p.dailyCalories),
      "dailyProtein" := NumberOrNull(p.dailyProtein),
      "dailyCarbs" := NumberOrNull(p.dailyCarbs),
      "dailyFat" := NumberOrNull(p.dailyFat),
      "dietaryFlags" := ListOrNull(p.dietaryFlags),
      "allergens" := ListOrNull(p.allergens),
      "excludedIngredients" := ListOrNull(p.excludedIngredients),
      "preferredIngredients" := ListOrNull(p.preferredIngredients),
      "preferredCuisines" := ListOrNull(p.preferredCuisines),
      "notes" := if p.notes.Some? then JString(p.notes.value) else JNull]
  }

  /** What the goal keys and the notes key of the written body hold. */
  lemma BodyForNumbers(p: Payload)
    ensures var body := BodyFor(p);
      && Field(body, "dailyCalories") == NumberOrNull(p.dailyCalories)
      && Field(body, "dailyProtein") == NumberOrNull(p.dailyProtein)
      && Field(body, "dailyCarbs") == NumberOrNull(p.dailyCarbs)
      && Field(body, "dailyFat") == NumberOrNull(p.dailyFat)
      && Field(body, "notes") == (if p.notes.Some? then JString(p.notes.value) else JNull)
  {
  }

  /** What the list keys of the written body hold. */
  lemma BodyForLists(p: Payload)
    ensures var body := BodyFor(p);
      && Field(body, "dietaryFlags") == ListOrNull(p.dietaryFlags)
      && Field(body, "allergens") == ListOrNull(p.allergens)
      && Field(body, "excludedIngredients") == ListOrNull(p.excludedIngredients)
      && Field(body, "preferredIngredients") == ListOrNull(p.preferredIngredients)
      && Field(body, "preferredCuisines") == ListOrNull(p.preferredCuisines)
  {
  }

  /** A list the payload can hold: trimmed, non-empty entries. */
  predicate StoredList(x: Option<seq<string>>) {
    x.Some? ==> forall k :: 0 <= k < |x.value| ==> x.value[k] != "" && IsTrimmed(x.value[k])
  }

  /** A payload `PUT` can produce: stored lists and trimmed notes. */
  predicate Storable(p: Payload) {
    && StoredList(p.dietaryFlags) && StoredList(p.allergens) && StoredList(p.excludedIngredients)
    && StoredList(p.preferredIngredients) && StoredList(p.preferredCuisines)
    && (p.notes.Some? ==> IsTrimmed(p.notes.value))
  }

  /** Whatever the body, the payload built from it is storable. */
  lemma BuildPayloadStorable(body: map<string, JsValue>)
    ensures Storable(BuildPayload(body))
  {
  }

  lemma ListRoundTrip(x: Option<seq<string>>)
    requires StoredList(x)
    ensures NormalizeStringArray(ListOrNull(x)) == x
  {
    if x.Some? {
      StringArrayOfTrimmed(x.value);
    }
  }

  /** Reading back a payload written as a body gives the payload itself. */
  lemma BuildPayloadRoundTrip(p: Payload)
    requires Storable(p)
    ensures BuildPayload(BodyFor(p)) == p
  {
    var body := BodyFor(p);
    BodyForNumbers(p);
    BodyForLists(p);
    NumberRoundTrip(p.dailyCalories);
    NumberRoundTrip(p.dailyProtein);
    NumberRoundTrip(p.dailyCarbs);
    NumberRoundTrip(p.dailyFat);
    ListRoundTrip(p.dietaryFlags);
    ListRoundTrip(p.allergens);
    ListRoundTrip(p.excludedIngredients);
    ListRoundTrip(p.preferredIngredients);
    ListRoundTrip(p.preferredCuisines);
    if p.notes.Some? {
      TrimTrimmed(p.notes.value);
    }
  }

  lemma NumberRoundTrip(x: Option<real>)
    ensures ToFiniteNumber(NumberOrNull(x)) == x
  {
  }

  /**
   * Sending back a payload that `PUT` could have stored stores the same payload: the
   * normalisation is idempotent.
   */
  lemma PutRoundTrip(userId: string, p: Payload)
    requires userId != ""
    requires Storable(p)
    ensures Put(Some(userId), Some(JObject(BodyFor(p)))) == Upsert(userId, p)
  {
    var body := BodyFor(p);
    BuildPayloadRoundTrip(p);
    assert Fields(JObject(body)) == body;
    assert Put(Some(userId), Some(JObject(body))) == Upsert(userId, BuildPayload(body));
  }
}
