/**
 * The goals dialog: editing the four daily goals with validation, editing the ingredient lists
 * as comma-separated text, and toggling the dietary and allergen chips.
 */
module GoalsModal {
  import opened Wrappers
  import opened Text
  import opened TextRoundTrip
  import opened JsNumbers
  import FilterPanel

  datatype GoalField = Calories | Protein | Carbs | Fat

  /** The goal fields in the order the form's goals object lists them. */
  const GOAL_FIELDS: seq<GoalField> := [Calories, Protein, Carbs, Fat]

  datatype Goals = Goals(calories: JsNumber, protein: JsNumber, carbs: JsNumber, fat: JsNumber)

  function GoalOf(g: Goals, f: GoalField): JsNumber {
    match f
    case Calories => g.calories
    case Protein => g.protein
    case Carbs => g.carbs
    case Fat => g.fat
  }

  function WithGoal(g: Goals, f: GoalField, v: JsNumber): (r: Goals)
    ensures GoalOf(r, f) == v
    ensures forall h :: h != f ==> GoalOf(r, h) == GoalOf(g, h)
  {
    match f
    case Calories => g.(calories := v)
    case Protein => g.(protein := v)
    case Carbs => g.(carbs := v)
    case Fat => g.(fat := v)
  }

  datatype Profile = Profile(
    goals: Goals,
    dietaryFlags: seq<string>,
    allergens: seq<string>,
    excludedIngredients: seq<string>,
    preferredIngredients: seq<string>,
    preferredCuisines: seq<string>)

  /** The dialog's state: the profile being edited, the field errors and the three list texts. */
  datatype ModalState = ModalState(
    form: Profile,
    errors: map<GoalField, string>,
    excludedText: string,
    preferredText: string,
    cuisinesText: string)

  /** The inclusive range each goal must fall in. */
  function MinOf(f: GoalField): nat {
    match f
    case Calories => 500
    case Protein => 10
    case Carbs => 20
    case Fat => 10
  }

  function MaxOf(f: GoalField): nat {
    match f
    case Calories => 10000
    case Protein => 500
    case Carbs => 800
    case Fat => 400
  }

  const POSITIVE_MESSAGE := "Must be a positive number"

  function RangeMessage(f: GoalField): string {
    "Must be between " + NatToString(MinOf(f)) + " and " + NatToString(MaxOf(f))
  }

  /** `isNaN(value) || value <= 0`. */
  predicate NotPositive(v: JsNumber) {
    v.NaN? || v.NegInfinity? || (v.Finite? && v.value <= 0.0)
  }

  predicate InRange(f: GoalField, v: JsNumber) {
    v.Finite? && MinOf(f) as real <= v.value <= MaxOf(f) as real
  }

  /**
   * `validateField`: no error exactly for a value inside the field's range; a missing or
   * non-positive value is reported as such, any other out-of-range value with the range.
   */
  function ValidateField(f: GoalField, v: JsNumber): (r: Option<string>)
    ensures r.None? <==> InRange(f, v)
    ensures NotPositive(v) ==> r == Some(POSITIVE_MESSAGE)
    ensures !NotPositive(v) && !InRange(f, v) ==> r == Some(RangeMessage(f))
    ensures r.Some? ==> r.value != ""
  {
    if NotPositive(v) then Some(POSITIVE_MESSAGE)
    else if v.PosInfinity? || v.value < MinOf(f) as real || v.value > MaxOf(f) as real then Some(RangeMessage(f))
    else None
  }

  /** Every error the submit records, keyed by field. */
  function FieldErrors(g: Goals): (r: map<GoalField, string>)
    ensures forall f :: f in r <==> !InRange(f, GoalOf(g, f))
    ensures forall f :: f in r ==> Some(r[f]) == ValidateField(f, GoalOf(g, f))
  {
    map f | f in {Calories, Protein, Carbs, Fat} && ValidateField(f, GoalOf(g, f)).Some? :: ValidateField(f, GoalOf(g, f)).value
  }

  predicate AllValid(g: Goals) {
    InRange(Calories, g.calories) && InRange(Protein, g.protein) && InRange(Carbs, g.carbs) && InRange(Fat, g.fat)
  }

  /** Every field of valid goals is in range, and goals with every field in range are valid. */
  lemma AllValidFields(g: Goals)
    ensures AllValid(g) <==> forall f :: InRange(f, GoalOf(g, f))
  {
    if AllValid(g) {
      forall f ensures InRange(f, GoalOf(g, f)) {
        match f
        case Calories =>
        case Protein =>
        case Carbs =>
        case Fat =>
      }
    } else {
      assert !InRange(Calories, GoalOf(g, Calories)) || !InRange(Protein, GoalOf(g, Protein))
        || !InRange(Carbs, GoalOf(g, Carbs)) || !InRange(Fat, GoalOf(g, Fat));
    }
  }

  /** What a submit does: keep the dialog open with errors, or save the edited profile. */
  datatype SubmitOutcome = Rejected(errors: map<GoalField, string>) | Saved(profile: Profile)

  /** `splitList`: the non-empty, trimmed pieces between commas. */
  function SplitList(text: string): (r: seq<string>)
    ensures CleanEntries(r)
  {
    SplitTrimmed(text, ',')
  }

  /** Entries as `splitList` produces them: non-empty, trimmed and comma-free. */
  predicate CleanEntries(xs: seq<string>) {
    forall k :: 0 <= k < |xs| ==> xs[k] != "" && IsTrimmed(xs[k]) && ',' !in xs[k]
  }

  /** The specification of `handleSubmit`. */
  function Submit(s: ModalState): SubmitOutcome {
    if !AllValid(s.form.goals) then Rejected(FieldErrors(s.form.goals))
    else Saved(s.form.(
      excludedIngredients := SplitList(s.excludedText),
      preferredIngredients := SplitList(s.preferredText),
      preferredCuisines := SplitList(s.cuisinesText)))
  }

  /**
   * A submit is rejected exactly when some goal is out of range, and then carries an error for
   * the invalid fields, of which there is at least one.
   */
  lemma SubmitRejects(s: ModalState)
    ensures Submit(s).Rejected? <==> exists f :: !InRange(f, GoalOf(s.form.goals, f))
    ensures Submit(s).Rejected? ==> Submit(s).errors != map[]
  {
    var g := s.form.goals;
    AllValidFields(g);
    if !AllValid(g) {
      var f :| !InRange(f, GoalOf(g, f));
      assert f in FieldErrors(g);
    }
  }

  /**
   * A saved profile has every goal in range, the edited goals and chips, and each list read
   * from its text box by `splitList`, so every entry is non-empty, trimmed and comma-free.
   */
  lemma SubmitSaves(s: ModalState)
    ensures Submit(s).Saved? ==> forall f :: InRange(f, GoalOf(Submit(s).profile.goals, f))
    ensures Submit(s).Saved? ==>
      Submit(s).profile.goals == s.form.goals && Submit(s).profile.dietaryFlags == s.form.dietaryFlags
      && Submit(s).profile.allergens == s.form.allergens
    ensures Submit(s).Saved? ==>
      && Submit(s).profile.excludedIngredients == SplitList(s.excludedText)
      && Submit(s).profile.preferredIngredients == SplitList(s.preferredText)
      && Submit(s).profile.preferredCuisines == SplitList(s.cuisinesText)
    ensures Submit(s).Saved? ==>
      && CleanEntries(Submit(s).profile.excludedIngredients)
      && CleanEntries(Submit(s).profile.preferredIngredients)
      && CleanEntries(Submit(s).profile.preferredCuisines)
  {
    AllValidFields(s.form.goals);
  }

  /** `handleSubmit`: checks the fields one by one, collecting the errors. */
  method HandleSubmit(s: ModalState) returns (out: SubmitOutcome)
    ensures out == Submit(s)
  {
    var newErrors: map<GoalField, string> := map[];
    var hasErrors := false;
    var i := 0;
    while i < |GOAL_FIELDS|
      invariant 0 <= i <= |GOAL_FIELDS|
      invariant forall f :: f in newErrors <==> f in GOAL_FIELDS[..i] && !InRange(f, GoalOf(s.form.goals, f))
      invariant forall f :: f in newErrors ==> Some(newErrors[f]) == ValidateField(f, GoalOf(s.form.goals, f))
      invariant hasErrors <==> exists f :: f in GOAL_FIELDS[..i] && !InRange(f, GoalOf(s.form.goals, f))
    {
      var field := GOAL_FIELDS[i];
      var error := ValidateField(field, GoalOf(s.form.goals, field));
      if error.Some? {
        newErrors := newErrors[field := error.value];
        hasErrors := true;
      }
      assert GOAL_FIELDS[..i + 1] == GOAL_FIELDS[..i] + [field];
      i := i + 1;
    }
    assert GOAL_FIELDS[..i] == GOAL_FIELDS;
    if hasErrors {
      assert newErrors == FieldErrors(s.form.goals);
      return Rejected(newErrors);
    }
    assert AllValid(s.form.goals) by {
      assert Calories in GOAL_FIELDS && Protein in GOAL_FIELDS && Carbs in GOAL_FIELDS && Fat in GOAL_FIELDS;
    }
    return Saved(s.form.(
      excludedIngredients := SplitList(s.excludedText),
      preferredIngredients := SplitList(s.preferredText),
      preferredCuisines := SplitList(s.cuisinesText)));
  }

  /** `parseFloat(value) || 0`: an unreadable entry or zero becomes 0. */
  function OrZero(n: JsNumber): (r: JsNumber)
    ensures !r.NaN?
    ensures n.Finite? || n.PosInfinity? || n.NegInfinity? ==> r == n
  {
    if n.NaN? then Finite(0.0) else n
  }

  /** `handleChange`: stores the number read from the entry and clears only that field's error. */
  function HandleChange(s: ModalState, f: GoalField, text: string): (r: ModalState)
    ensures GoalOf(r.form.goals, f) == OrZero(ParseFloat(text))
    ensures forall h :: h != f ==> GoalOf(r.form.goals, h) == GoalOf(s.form.goals, h)
    ensures r.form == s.form.(goals := r.form.goals)
    ensures !(f in r.errors && r.errors[f] != "")
    ensures forall h :: h != f ==> (h in r.errors <==> h in s.errors) && (h in r.errors ==> r.errors[h] == s.errors[h])
    ensures r.excludedText == s.excludedText && r.preferredText == s.preferredText && r.cuisinesText == s.cuisinesText
  {
    var form := s.form.(goals := WithGoal(s.form.goals, f, OrZero(ParseFloat(text))));
    var errors := if f in s.errors && s.errors[f] != "" then map h | h in s.errors && h != f :: s.errors[h] else s.errors;
    s.(form := form, errors := errors)
  }

  /** Typing a whole number inside the field's range leaves that field valid. */
  lemma ChangeToWholeNumberInRange(s: ModalState, f: GoalField, n: nat)
    requires MinOf(f) <= n <= MaxOf(f)
    ensures ValidateField(f, GoalOf(HandleChange(s, f, NatToString(n)).form.goals, f)).None?
  {
    var text := NatToString(n);
    ParseWholeNumber(n);
    var v := GoalOf(HandleChange(s, f, text).form.goals, f);
    assert v == Finite(n as real);
    assert InRange(f, v);
  }

  lemma ParseWholeNumber(n: nat)
    ensures OrZero(ParseFloat(NatToString(n))) == Finite(n as real)
  {
    ParseFloatOfNat(n, []);
    assert NatToString(n) + [] == NatToString(n);
  }

  /** Opening the dialog loads the profile, clears the errors and shows each list as text. */
  function Open(p: Profile): (r: ModalState)
    ensures r.form == p && r.errors == map[]
  {
    ModalState(p, map[], Join(p.excludedIngredients, ", "), Join(p.preferredIngredients, ", "), Join(p.preferredCuisines, ", "))
  }

  /** Opening the dialog and submitting it untouched saves the same profile back. */
  lemma OpenThenSubmit(p: Profile)
    requires AllValid(p.goals)
    requires CleanEntries(p.excludedIngredients) && CleanEntries(p.preferredIngredients) && CleanEntries(p.preferredCuisines)
    ensures Submit(Open(p)) == Saved(p)
  {
    SplitTrimmedJoin(p.excludedIngredients);
    SplitTrimmedJoin(p.preferredIngredients);
    SplitTrimmedJoin(p.preferredCuisines);
  }

  /** The default goals: 2000 kcal, 150 g protein, 250 g carbs, 65 g fat. */
  const DEFAULT_GOALS := Goals(Finite(2000.0), Finite(150.0), Finite(250.0), Finite(65.0))

  /** `handleReset`: default goals and no errors; everything else is kept. */
  function Reset(s: ModalState): (r: ModalState)
    ensures r.form.goals == DEFAULT_GOALS && r.errors == map[]
    ensures r.form == s.form.(goals := DEFAULT_GOALS)
    ensures AllValid(r.form.goals)
  {
    s.(form := s.form.(goals := DEFAULT_GOALS), errors := map[])
  }

  /** The dietary chip: flips whether the option is selected and changes nothing else. */
  function ToggleDietary(s: ModalState, option: string): (r: ModalState)
    ensures option in r.form.dietaryFlags <==> option !in s.form.dietaryFlags
    ensures forall x :: x != option ==> (x in r.form.dietaryFlags <==> x in s.form.dietaryFlags)
    ensures r == s.(form := s.form.(dietaryFlags := r.form.dietaryFlags))
  {
    s.(form := s.form.(dietaryFlags := FilterPanel.Toggle(s.form.dietaryFlags, option)))
  }

  /** The allergen chip: flips whether the option is selected and changes nothing else. */
  function ToggleAllergen(s: ModalState, option: string): (r: ModalState)
    ensures option in r.form.allergens <==> option !in s.form.allergens
    ensures forall x :: x != option ==> (x in r.form.allergens <==> x in s.form.allergens)
    ensures r == s.(form := s.form.(allergens := r.form.allergens))
  {
    s.(form := s.form.(allergens := FilterPanel.Toggle(s.form.allergens, option)))
  }
}
