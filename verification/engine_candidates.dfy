/**
 * First half of the recommendation engine: constraint normalisation, the item filters, and
 * the ranked candidate list (protein density first, then protein, at most eighteen).
 */
module EngineCandidates {
  import opened Wrappers
  import opened Seqs
  import opened Text
  import opened Types

  const HARD_MAX_ITEMS: real := 6.0
  const DEFAULT_MAX_ITEMS: real := 4.0
  const CANDIDATE_LIMIT: nat := 18

  function MinReal(a: real, b: real): real { if a <= b then a else b }
  function MaxReal(a: real, b: real): real { if a >= b then a else b }

  /**
   * Clamp `maxItems` into [1, 6] (4 when absent) and give every list a value (empty when
   * absent); all other fields are kept.
   */
  function NormalizeConstraints(c: Constraints): (r: Constraints)
    ensures r.maxItems.Some? && 1.0 <= r.maxItems.value <= HARD_MAX_ITEMS
    ensures c.maxItems.None? ==> r.maxItems == Some(DEFAULT_MAX_ITEMS)
    ensures c.maxItems.Some? && 1.0 <= c.maxItems.value <= HARD_MAX_ITEMS ==> r.maxItems == c.maxItems
    ensures c.maxItems.Some? && c.maxItems.value > HARD_MAX_ITEMS ==> r.maxItems == Some(HARD_MAX_ITEMS)
    ensures c.maxItems.Some? && c.maxItems.value < 1.0 ==> r.maxItems == Some(1.0)
    ensures r.dietaryFlags == Some(c.dietaryFlags.GetOr([]))
    ensures r.excludeAllergens == Some(c.excludeAllergens.GetOr([]))
    ensures r.avoidIngredients == Some(c.avoidIngredients.GetOr([]))
    ensures r.preferIngredients == Some(c.preferIngredients.GetOr([]))
    ensures r.minProtein == c.minProtein && r.maxCalories == c.maxCalories
    ensures r.minCalories == c.minCalories && r.maxCarbs == c.maxCarbs && r.maxFat == c.maxFat
    ensures r.mealPeriod == c.mealPeriod
  {
    var maxItems := MaxReal(1.0, MinReal(c.maxItems.GetOr(DEFAULT_MAX_ITEMS), HARD_MAX_ITEMS));
    c.(maxItems := Some(maxItems),
       dietaryFlags := Some(c.dietaryFlags.GetOr([])),
       excludeAllergens := Some(c.excludeAllergens.GetOr([])),
       avoidIngredients := Some(c.avoidIngredients.GetOr([])),
       preferIngredients := Some(c.preferIngredients.GetOr([])))
  }

  /** Normalising twice is normalising once. */
  lemma NormalizeIdempotent(c: Constraints)
    ensures NormalizeConstraints(NormalizeConstraints(c)) == NormalizeConstraints(c)
  {
  }

  function LowerAll(xs: seq<string>): (r: seq<string>)
    ensures |r| == |xs|
  {
    Map(xs, Lower)
  }

  /** The item's dietary flags, lower-cased; empty when the item has none. */
  function ItemFlags(item: MenuItem): seq<string> {
    if item.nutrition.Some? && item.nutrition.value.dietaryFlags.Some? then
      LowerAll(item.nutrition.value.dietaryFlags.value)
    else []
  }

  /** The item's allergens, lower-cased; empty when the item has none. */
  function ItemAllergens(item: MenuItem): seq<string> {
    if item.nutrition.Some? && item.nutrition.value.allergens.Some? then
      LowerAll(item.nutrition.value.allergens.value)
    else []
  }

  /** Every requested flag is among the item's flags, ignoring case. The early answer for an
      empty request agrees with `every` on an empty list. */
  predicate MatchesDietaryFlags(item: MenuItem, flags: seq<string>)
    ensures MatchesDietaryFlags(item, flags) <==> forall k :: 0 <= k < |flags| ==> Lower(flags[k]) in ItemFlags(item)
  {
    |flags| == 0 || forall k :: 0 <= k < |flags| ==> Lower(flags[k]) in ItemFlags(item)
  }

  /** Some excluded allergen is among the item's allergens, ignoring case. The early answer for
      an empty list agrees with `some` on an empty list. */
  predicate HasExcludedAllergen(item: MenuItem, allergens: seq<string>)
    ensures HasExcludedAllergen(item, allergens) <==> exists k :: 0 <= k < |allergens| && Lower(allergens[k]) in ItemAllergens(item)
  {
    |allergens| != 0 && exists k :: 0 <= k < |allergens| && Lower(allergens[k]) in ItemAllergens(item)
  }

  /** Some term occurs in `name` (already lower-cased), ignoring the term's case. */
  predicate AnyTermIn(name: string, terms: seq<string>) {
    exists k :: 0 <= k < |terms| && Contains(name, Lower(terms[k]))
  }

  datatype PreferenceHits = PreferenceHits(avoidHit: bool, preferHit: bool)

  /** Whether the item's name mentions an avoided term and a preferred term. */
  function MatchesIngredientPreference(item: MenuItem, avoid: seq<string>, prefer: seq<string>): (r: PreferenceHits)
    ensures r.avoidHit <==> exists k :: 0 <= k < |avoid| && Contains(Lower(item.name), Lower(avoid[k]))
    ensures r.preferHit <==> exists k :: 0 <= k < |prefer| && Contains(Lower(item.name), Lower(prefer[k]))
  {
    var name := Lower(item.name);
    PreferenceHits(AnyTermIn(name, avoid), AnyTermIn(name, prefer))
  }

  /** An item that passes all four filters of candidate selection. */
  predicate Survives(item: MenuItem, c: Constraints) {
    && item.nutrition.Some? && item.nutrition.value.calories.Some?
    && MatchesDietaryFlags(item, c.dietaryFlags.GetOr([]))
    && !HasExcludedAllergen(item, c.excludeAllergens.GetOr([]))
    && !MatchesIngredientPreference(item, c.avoidIngredients.GetOr([]), []).avoidHit
  }

  datatype Candidate = Candidate(item: MenuItem, calories: real, protein: real, carbs: real, fat: real, density: real)

  function CaloriesOf(n: Option<Nutrition>): real {
    if n.Some? then n.value.calories.GetOr(0.0) else 0.0
  }
  function ProteinOf(n: Option<Nutrition>): real {
    if n.Some? then n.value.protein.GetOr(0.0) else 0.0
  }
  function CarbsOf(n: Option<Nutrition>): real {
    if n.Some? then n.value.carbs.GetOr(0.0) else 0.0
  }
  function FatOf(n: Option<Nutrition>): real {
    if n.Some? then n.value.fat.GetOr(0.0) else 0.0
  }

  /** The candidate record of an item: its macros (0 when missing) and its protein per calorie. */
  function ToCandidate(item: MenuItem): (r: Candidate)
    ensures r.item == item
    ensures r.calories == CaloriesOf(item.nutrition) && r.protein == ProteinOf(item.nutrition)
    ensures r.carbs == CarbsOf(item.nutrition) && r.fat == FatOf(item.nutrition)
    ensures r.calories > 0.0 ==> r.density * r.calories == r.protein
    ensures r.calories <= 0.0 ==> r.density == 0.0
  {
    var calories := CaloriesOf(item.nutrition);
    var protein := ProteinOf(item.nutrition);
    Candidate(item, calories, protein, CarbsOf(item.nutrition), FatOf(item.nutrition),
              if calories > 0.0 then protein / calories else 0.0)
  }

  /** `a` may precede `b`: higher density first, then higher protein. */
  predicate RanksAtLeast(a: Candidate, b: Candidate) {
    a.density > b.density || (a.density == b.density && a.protein >= b.protein)
  }

  /** `a` must precede `b`: the comparator puts it strictly first. */
  predicate RanksAbove(a: Candidate, b: Candidate) {
    a.density > b.density || (a.density == b.density && a.protein > b.protein)
  }

  predicate Ranked(s: seq<Candidate>) {
    forall i, j :: 0 <= i < j < |s| ==> RanksAtLeast(s[i], s[j])
  }

  /** Neither ranks above the other: the comparator returns 0 for the pair. */
  predicate Tie(a: Candidate, b: Candidate) {
    a.density == b.density && a.protein == b.protein
  }

  function TiesWith(y: Candidate): Candidate -> bool {
    c => Tie(c, y)
  }

  /**
   * The candidates of each tie class appear in `a` in the same order as in `b`; for a ranked
   * `a` this is what a stable sort of `b` promises.
   */
  ghost predicate SameTieOrder(a: seq<Candidate>, b: seq<Candidate>) {
    forall y :: Filter(a, TiesWith(y)) == Filter(b, TiesWith(y))
  }

  /**
   * Insert `x` after every element it does not rank strictly above, so after every element it
   * ties with: `x` ends up last in its tie class.
   */
  function Insert(x: Candidate, s: seq<Candidate>): (r: seq<Candidate>)
    requires Ranked(s)
    ensures Ranked(r)
    ensures multiset(r) == multiset(s) + multiset{x}
    ensures forall y :: Filter(r, TiesWith(y)) == Filter(s, TiesWith(y)) + (if Tie(x, y) then [x] else [])
  {
    if s == [] || RanksAbove(x, s[0]) then
      RankedCons(x, s);
      InsertFrontTies(x, s);
      [x] + s
    else
      var rest := Insert(x, s[1..]);
      assert s == [s[0]] + s[1..];
      InsertHead(x, s, rest);
      RankedCons(s[0], rest);
      ConsTies(s[0], s[1..], rest, x);
      [s[0]] + rest
  }

  /** An element placed in front of everything it ranks strictly above is last in its tie class. */
  lemma InsertFrontTies(x: Candidate, s: seq<Candidate>)
    requires Ranked(s)
    requires s == [] || RanksAbove(x, s[0])
    ensures forall y :: Filter([x] + s, TiesWith(y)) == Filter(s, TiesWith(y)) + (if Tie(x, y) then [x] else [])
  {
    forall y ensures Filter([x] + s, TiesWith(y)) == Filter(s, TiesWith(y)) + (if Tie(x, y) then [x] else []) {
      var t := [x] + s;
      assert t[0] == x && t[1..] == s;
      if Tie(x, y) {
        forall k | 0 <= k < |s| ensures !TiesWith(y)(s[k]) {
          if k > 0 {
            assert RanksAtLeast(s[0], s[k]);
          }
        }
        FilterNone(s, TiesWith(y));
      }
    }
  }

  /** A common head leaves the relation between the tie classes of two tails unchanged. */
  lemma ConsTies(h: Candidate, t: seq<Candidate>, rest: seq<Candidate>, x: Candidate)
    requires forall y :: Filter(rest, TiesWith(y)) == Filter(t, TiesWith(y)) + (if Tie(x, y) then [x] else [])
    ensures forall y :: Filter([h] + rest, TiesWith(y)) == Filter([h] + t, TiesWith(y)) + (if Tie(x, y) then [x] else [])
  {
    forall y ensures Filter([h] + rest, TiesWith(y)) == Filter([h] + t, TiesWith(y)) + (if Tie(x, y) then [x] else []) {
      assert ([h] + rest)[0] == h && ([h] + rest)[1..] == rest;
      assert ([h] + t)[0] == h && ([h] + t)[1..] == t;
    }
  }

  /** A ranked sequence stays ranked under a head that ranks at least as high as each element. */
  lemma RankedCons(a: Candidate, s: seq<Candidate>)
    requires Ranked(s)
    requires s == [] || RanksAtLeast(a, s[0])
    ensures Ranked([a] + s)
  {
    var t := [a] + s;
    forall i, j | 0 <= i < j < |t| ensures RanksAtLeast(t[i], t[j]) {
      if i == 0 {
        assert t[j] == s[j - 1];
      }
    }
  }

  /** The head an insertion passed over ranks at least as high as everything after it. */
  lemma InsertHead(x: Candidate, s: seq<Candidate>, rest: seq<Candidate>)
    requires s != [] && Ranked(s) && !RanksAbove(x, s[0])
    requires multiset(rest) == multiset(s[1..]) + multiset{x}
    requires Ranked(rest)
    ensures rest == [] || RanksAtLeast(s[0], rest[0])
  {
    if rest != [] {
      assert rest[0] in multiset(rest);
      if rest[0] != x {
        assert rest[0] in multiset(s[1..]);
      }
    }
  }

  /**
   * `sort` with the ranking comparator: a ranked permutation that keeps equal-rank candidates
   * in input order, as the stable `Array.prototype.sort` does.
   */
  function SortByRank(s: seq<Candidate>): (r: seq<Candidate>)
    ensures Ranked(r)
    ensures multiset(r) == multiset(s)
    ensures SameTieOrder(r, s)
    decreases |s|
  {
    if s == [] then []
    else
      var init := s[..|s| - 1];
      var last := s[|s| - 1];
      assert s == init + [last];
      SnocTies(init, last);
      Insert(last, SortByRank(init))
  }

  lemma SnocTies(init: seq<Candidate>, last: Candidate)
    ensures forall y :: Filter(init + [last], TiesWith(y)) == Filter(init, TiesWith(y)) + (if Tie(last, y) then [last] else [])
  {
    forall y ensures Filter(init + [last], TiesWith(y)) == Filter(init, TiesWith(y)) + (if Tie(last, y) then [last] else []) {
      FilterAppend(init, [last], TiesWith(y));
      assert [last][1..] == [];
    }
  }

  /** A non-empty sequence has something in common with any sequence of the same tie order. */
  lemma SameTieOrderNonEmpty(a: seq<Candidate>, b: seq<Candidate>)
    requires SameTieOrder(a, b) && a != []
    ensures b != [] && a[0] in b
  {
    assert a[0] in Filter(a, TiesWith(a[0]));
    assert a[0] in Filter(b, TiesWith(a[0]));
  }

  /** Two ranked lists with the same tie order start with the same candidate. */
  lemma SameTieOrderHead(a: seq<Candidate>, b: seq<Candidate>)
    requires Ranked(a) && Ranked(b) && SameTieOrder(a, b) && a != []
    ensures b != [] && a[0] == b[0]
  {
    SameTieOrderNonEmpty(a, b);
    assert SameTieOrder(b, a);
    SameTieOrderNonEmpty(b, a);
    var i :| 0 <= i < |b| && b[i] == a[0];
    var j :| 0 <= j < |a| && a[j] == b[0];
    assert RanksAtLeast(b[0], a[0]) by {
      if i > 0 {
        assert RanksAtLeast(b[0], b[i]);
      }
    }
    assert RanksAtLeast(a[0], b[0]) by {
      if j > 0 {
        assert RanksAtLeast(a[0], a[j]);
      }
    }
    var p := TiesWith(a[0]);
    assert Filter(a, p)[0] == a[0];
    assert Filter(b, p)[0] == b[0];
  }

  /** Dropping a common head keeps the tie order. */
  lemma SameTieOrderTail(a: seq<Candidate>, b: seq<Candidate>)
    requires SameTieOrder(a, b) && a != [] && b != [] && a[0] == b[0]
    ensures SameTieOrder(a[1..], b[1..])
  {
    forall y ensures Filter(a[1..], TiesWith(y)) == Filter(b[1..], TiesWith(y)) {
      var p := TiesWith(y);
      assert Filter(a, p) == (if p(a[0]) then [a[0]] else []) + Filter(a[1..], p);
      assert Filter(b, p) == (if p(b[0]) then [b[0]] else []) + Filter(b[1..], p);
    }
  }

  /**
   * There is only one ranked arrangement with a given tie order, so the comparator together
   * with stability determines the sorted list completely.
   */
  lemma {:induction false} RankedTieOrderUnique(a: seq<Candidate>, b: seq<Candidate>)
    requires Ranked(a) && Ranked(b) && SameTieOrder(a, b)
    ensures a == b
    decreases |a|
  {
    if a != [] {
      SameTieOrderHead(a, b);
      SameTieOrderTail(a, b);
      RankedTieOrderUnique(a[1..], b[1..]);
      assert a == [a[0]] + a[1..] && b == [b[0]] + b[1..];
    } else if b != [] {
      assert SameTieOrder(b, a);
      SameTieOrderNonEmpty(b, a);
    }
  }

  /** The items passing every filter, in menu order. */
  function Survivors(items: seq<MenuItem>, c: Constraints): seq<MenuItem> {
    Filter(items, item => Survives(item, c))
  }

  /**
   * Every surviving item as a candidate, best ranked first; candidates of equal density and
   * protein stay in menu order.
   */
  function RankedSurvivors(items: seq<MenuItem>, c: Constraints): (r: seq<Candidate>)
    ensures Ranked(r)
    ensures multiset(r) == multiset(Map(Survivors(items, c), ToCandidate))
    ensures SameTieOrder(r, Map(Survivors(items, c), ToCandidate))
  {
    SortByRank(Map(Survivors(items, c), ToCandidate))
  }

  /** Any ranked list of the survivors that keeps ties in menu order is the ranked survivor list. */
  lemma RankedSurvivorsUnique(items: seq<MenuItem>, c: Constraints, r: seq<Candidate>)
    requires Ranked(r) && SameTieOrder(r, Map(Survivors(items, c), ToCandidate))
    ensures r == RankedSurvivors(items, c)
  {
    RankedTieOrderUnique(r, RankedSurvivors(items, c));
  }

  /**
   * The first eighteen ranked survivors: ranked, as many as survive up to eighteen, each a
   * surviving menu item, and within each tie class the earliest survivors in menu order.
   */
  function BuildCandidates(items: seq<MenuItem>, c: Constraints): (r: seq<Candidate>)
    ensures Ranked(r)
    ensures |r| == if |Survivors(items, c)| <= CANDIDATE_LIMIT then |Survivors(items, c)| else CANDIDATE_LIMIT
    ensures forall k :: 0 <= k < |r| ==> r[k] == ToCandidate(r[k].item) && r[k].item in items && Survives(r[k].item, c)
    ensures forall y :: Filter(r, TiesWith(y)) <= Filter(Map(Survivors(items, c), ToCandidate), TiesWith(y))
  {
    var all := RankedSurvivors(items, c);
    var r := Take(all, CANDIDATE_LIMIT);
    assert |all| == |Survivors(items, c)| by {
      assert |multiset(all)| == |multiset(Map(Survivors(items, c), ToCandidate))|;
    }
    forall k | 0 <= k < |r|
      ensures r[k] == ToCandidate(r[k].item) && r[k].item in items && Survives(r[k].item, c)
    {
      assert r[k] == all[k];
      RankedSurvivorIsSurvivor(items, c, k);
    }
    TakeTieOrder(all, CANDIDATE_LIMIT);
    r
  }

  /** Cutting a list keeps a prefix of each tie class. */
  lemma TakeTieOrder(all: seq<Candidate>, n: nat)
    ensures forall y :: Filter(Take(all, n), TiesWith(y)) <= Filter(all, TiesWith(y))
  {
    var r := Take(all, n);
    forall y ensures Filter(r, TiesWith(y)) <= Filter(all, TiesWith(y)) {
      assert all == r + all[|r|..];
      FilterAppend(r, all[|r|..], TiesWith(y));
    }
  }

  /** Each ranked candidate is the candidate record of a surviving menu item. */
  lemma RankedSurvivorIsSurvivor(items: seq<MenuItem>, c: Constraints, k: nat)
    requires k < |RankedSurvivors(items, c)|
    ensures var x := RankedSurvivors(items, c)[k];
      x == ToCandidate(x.item) && x.item in items && Survives(x.item, c)
  {
    var all := RankedSurvivors(items, c);
    var mapped := Map(Survivors(items, c), ToCandidate);
    assert all[k] in multiset(mapped);
    var j :| 0 <= j < |mapped| && mapped[j] == all[k];
    assert Survivors(items, c)[j] in Survivors(items, c);
  }

  /** Each candidate meets the filters, spelled out: it has calories, every requested flag,
      no excluded allergen, and no avoided term in its name, all ignoring case. */
  lemma CandidatesMeetFilters(items: seq<MenuItem>, c: Constraints, k: nat)
    requires k < |BuildCandidates(items, c)|
    ensures var item := BuildCandidates(items, c)[k].item;
      && item.nutrition.Some? && item.nutrition.value.calories.Some?
      && (forall f :: 0 <= f < |c.dietaryFlags.GetOr([])| ==> Lower(c.dietaryFlags.GetOr([])[f]) in ItemFlags(item))
      && (forall a :: 0 <= a < |c.excludeAllergens.GetOr([])| ==> Lower(c.excludeAllergens.GetOr([])[a]) !in ItemAllergens(item))
      && (forall t :: 0 <= t < |c.avoidIngredients.GetOr([])| ==> !Contains(Lower(item.name), Lower(c.avoidIngredients.GetOr([])[t])))
  {
  }

  /** Ranking keeps every survivor: when at most eighteen survive, the candidates are exactly
      the survivors' candidate records. */
  lemma CandidatesCompleteWhenFew(items: seq<MenuItem>, c: Constraints)
    requires |Survivors(items, c)| <= CANDIDATE_LIMIT
    ensures multiset(BuildCandidates(items, c)) == multiset(Map(Survivors(items, c), ToCandidate))
  {
  }

  /** Truncation cuts the worst: a survivor left out ranks no higher than any kept candidate. */
  lemma {:induction false} CandidatesAreTopRanked(items: seq<MenuItem>, c: Constraints, x: Candidate)
    requires x in multiset(Map(Survivors(items, c), ToCandidate))
    requires multiset(BuildCandidates(items, c))[x] < multiset(Map(Survivors(items, c), ToCandidate))[x]
    ensures forall k :: 0 <= k < |BuildCandidates(items, c)| ==> RanksAtLeast(BuildCandidates(items, c)[k], x)
  {
    var all := RankedSurvivors(items, c);
    var r := BuildCandidates(items, c);
    assert |all| > CANDIDATE_LIMIT;
    var rest := all[CANDIDATE_LIMIT..];
    assert all == r + rest;
    assert multiset(all) == multiset(r) + multiset(rest);
    assert x in multiset(rest);
    var j :| 0 <= j < |rest| && rest[j] == x;
    forall k | 0 <= k < |r| ensures RanksAtLeast(r[k], x) {
      assert r[k] == all[k] && x == all[CANDIDATE_LIMIT + j];
    }
  }
}
