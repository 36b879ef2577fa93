/**
 * `recommendFromMenu`: filter and rank the menu, enumerate combinations of the best
 * candidates, score each, and return the first best-scoring one with its totals and warnings.
 */
module Engine {
  import opened Wrappers
  import opened Types
  import opened EngineCandidates
  import opened EngineCombos
  import opened EngineScoring

  const NO_MATCH_EXPLANATION := "No matching items found for the given filters."
  const NO_MATCH_WARNING := "No menu items with nutrition data matched the constraints."
  const EXPLANATION := "Built a recommendation by optimizing protein density and fit to your constraints."
  const CALORIE_CAP_WARNING := "Best match exceeds your calorie cap."
  const PROTEIN_WARNING := "Best match is below your protein target."

  /** The result when no candidate survives the filters. */
  function NoMatch(c: Constraints): RecommendationResult {
    RecommendationResult([], ZeroTotals, c, NO_MATCH_EXPLANATION, [NO_MATCH_WARNING])
  }

  /** A candidate as an entry of a combination: quantity one, scored by its density. */
  function ToRecommendationItem(cand: Candidate): RecommendationItem {
    RecommendationItem(cand.item.id, cand.item.name, 1, cand.item.nutrition, cand.density)
  }

  /** The entries a list of candidate positions stands for. */
  function ComboItems(cands: seq<Candidate>, combo: seq<nat>): (r: seq<RecommendationItem>)
    requires AllBelow(combo, |cands|)
    ensures |r| == |combo|
    ensures forall k :: 0 <= k < |r| ==> r[k] == ToRecommendationItem(cands[combo[k]])
  {
    seq(|combo|, k requires 0 <= k < |combo| => ToRecommendationItem(cands[combo[k]]))
  }

  predicate AllCombosBelow(combos: seq<seq<nat>>, n: nat) {
    forall k :: 0 <= k < |combos| ==> AllBelow(combos[k], n)
  }

  /** The score of every combination, in enumeration order. */
  function Scores(cands: seq<Candidate>, combos: seq<seq<nat>>, c: Constraints, targets: Option<Targets>, recent: set<int>): (r: seq<real>)
    requires AllCombosBelow(combos, |cands|)
    ensures |r| == |combos|
    ensures forall j {:trigger ComboItems(cands, combos[j])} :: 0 <= j < |r| ==> r[j] == ComboScore(ComboItems(cands, combos[j]), c, targets, recent)
  {
    seq(|combos|, j requires 0 <= j < |combos| => ComboScore(ComboItems(cands, combos[j]), c, targets, recent))
  }

  /** The totals of every combination, in enumeration order. */
  function AllTotals(cands: seq<Candidate>, combos: seq<seq<nat>>): (r: seq<Totals>)
    requires AllCombosBelow(combos, |cands|)
    ensures |r| == |combos|
    ensures forall j {:trigger ComboItems(cands, combos[j])} :: 0 <= j < |r| ==> r[j] == ComboTotals(ComboItems(cands, combos[j]))
  {
    seq(|combos|, j requires 0 <= j < |combos| => ComboTotals(ComboItems(cands, combos[j])))
  }

  /** Position `k` holds the maximum, and it is the first position that does. */
  predicate IsFirstMax(scores: seq<real>, k: nat) {
    && k < |scores|
    && (forall j :: 0 <= j < |scores| ==> scores[j] <= scores[k])
    && (forall j :: 0 <= j < k ==> scores[j] < scores[k])
  }

  /** The first maximum is unique, so the choice is determined by the scores. */
  lemma FirstMaxUnique(scores: seq<real>, k: nat, l: nat)
    requires IsFirstMax(scores, k) && IsFirstMax(scores, l)
    ensures k == l
  {
    assert scores[k] <= scores[l] && scores[l] <= scores[k];
  }

  /** Combination `k` scores highest, and strictly higher than every one before it. */
  predicate FirstBest(cands: seq<Candidate>, combos: seq<seq<nat>>, k: nat, c: Constraints, targets: Option<Targets>, recent: set<int>)
    requires AllCombosBelow(combos, |cands|)
  {
    IsFirstMax(Scores(cands, combos, c, targets, recent), k)
  }

  /** The state of a left-to-right scan for the first maximum after `i` positions. */
  predicate ScanState(scores: seq<real>, i: nat, haveBest: bool, bestScore: real, bestIndex: nat) {
    && i <= |scores|
    && (haveBest <==> i > 0)
    && (haveBest ==> bestIndex < i && bestScore == scores[bestIndex])
    && (haveBest ==> forall j :: 0 <= j < i ==> scores[j] <= bestScore)
    && (haveBest ==> forall j :: 0 <= j < bestIndex ==> scores[j] < bestScore)
  }

  /** One step of the scan keeps its state: position `i` is taken exactly when it beats the
      best so far. */
  lemma ScanStep(scores: seq<real>, i: nat, haveBest: bool, bestScore: real, bestIndex: nat)
    requires ScanState(scores, i, haveBest, bestScore, bestIndex) && i < |scores|
    ensures !haveBest || scores[i] > bestScore ==> ScanState(scores, i + 1, true, scores[i], i)
    ensures !(!haveBest || scores[i] > bestScore) ==> ScanState(scores, i + 1, true, bestScore, bestIndex)
  {
  }

  /** A finished scan has found the first maximum. */
  lemma ScanDone(scores: seq<real>, haveBest: bool, bestScore: real, bestIndex: nat)
    requires ScanState(scores, |scores|, haveBest, bestScore, bestIndex) && |scores| > 0
    ensures IsFirstMax(scores, bestIndex)
  {
  }

  /**
   * The scan over the combinations: keep the first combination whose score beats every score
   * seen so far (the running best starts at minus infinity, so the first one always does).
   */
  method PickBest(cands: seq<Candidate>, combos: seq<seq<nat>>, c: Constraints, targets: Option<Targets>, recent: set<int>)
    returns (bestCombo: seq<RecommendationItem>, bestTotals: Totals)
    requires AllCombosBelow(combos, |cands|)
    ensures |combos| == 0 ==> bestCombo == [] && bestTotals == ZeroTotals
    ensures |combos| > 0 ==> exists k: nat :: k < |combos| && FirstBest(cands, combos, k, c, targets, recent) && bestCombo == ComboItems(cands, combos[k])
    ensures bestTotals == ComboTotals(bestCombo)
  {
    bestCombo := [];
    bestTotals := ZeroTotals;
    var haveBest := false;
    var bestScore := 0.0;
    ghost var bestIndex := 0;
    ghost var scores := Scores(cands, combos, c, targets, recent);
    ghost var allTotals := AllTotals(cands, combos);
    var i := 0;
    while i < |combos|
      invariant ScanState(scores, i, haveBest, bestScore, bestIndex)
      invariant !haveBest ==> bestCombo == [] && bestTotals == ZeroTotals
      invariant haveBest ==> bestIndex < |combos| && bestCombo == ComboItems(cands, combos[bestIndex])
      invariant haveBest ==> bestTotals == allTotals[bestIndex]
    {
      var combo := ComboItems(cands, combos[i]);
      var totals, score := ScoreCombo(combo, c, targets, recent);
      assert scores[i] == score && allTotals[i] == totals;
      ScanStep(scores, i, haveBest, bestScore, bestIndex);
      if !haveBest || score > bestScore {
        haveBest := true;
        bestScore := score;
        bestCombo := combo;
        bestTotals := totals;
        bestIndex := i;
      }
      i := i + 1;
    }
    if |combos| > 0 {
      ScanDone(scores, haveBest, bestScore, bestIndex);
      assert bestTotals == ComboTotals(ComboItems(cands, combos[bestIndex]));
    }
  }

  /** The two warnings, in order: the calorie cap exceeded, the protein target missed. */
  function Warnings(t: Totals, c: Constraints): (r: seq<string>)
    ensures CALORIE_CAP_WARNING in r <==> c.maxCalories.Some? && t.calories > c.maxCalories.value
    ensures PROTEIN_WARNING in r <==> c.minProtein.Some? && t.protein < c.minProtein.value
    ensures |r| <= 2
  {
    (if c.maxCalories.Some? && t.calories > c.maxCalories.value then [CALORIE_CAP_WARNING] else [])
    + (if c.minProtein.Some? && t.protein < c.minProtein.value then [PROTEIN_WARNING] else [])
  }

  /** The warnings pushed one by one. */
  method CollectWarnings(t: Totals, c: Constraints) returns (warnings: seq<string>)
    ensures warnings == Warnings(t, c)
  {
    warnings := [];
    if c.maxCalories.Some? && t.calories > c.maxCalories.value {
      warnings := warnings + [CALORIE_CAP_WARNING];
    }
    if c.minProtein.Some? && t.protein < c.minProtein.value {
      warnings := warnings + [PROTEIN_WARNING];
    }
  }

  /** Totals that meet every bound draw no warning. */
  lemma NoWarningsWithinBounds(t: Totals, c: Constraints)
    requires WithinBounds(t, c)
    ensures Warnings(t, c) == []
  {
  }

  /** `r` carries the first best-scoring combination of `cands`, its totals, the constraints,
      the fixed explanation and the warnings its totals draw. */
  predicate ChosenFrom(cands: seq<Candidate>, c: Constraints, targets: Option<Targets>, recent: set<int>, r: RecommendationResult)
    requires c.maxItems.Some? && 1.0 <= c.maxItems.value <= HARD_MAX_ITEMS
  {
    var combos := Combos(|cands|, c.maxItems.value);
    && (exists k: nat :: k < |combos| && FirstBest(cands, combos, k, c, targets, recent) && r.items == ComboItems(cands, combos[k]))
    && r.totals == ComboTotals(r.items)
    && r.constraints == c
    && r.explanation == EXPLANATION
    && r.warnings == Warnings(r.totals, c)
  }

  /** The chosen combination holds between one and `maxItems` entries (so at most six). */
  lemma ChosenSize(cands: seq<Candidate>, c: Constraints, targets: Option<Targets>, recent: set<int>, r: RecommendationResult)
    requires c.maxItems.Some? && 1.0 <= c.maxItems.value <= HARD_MAX_ITEMS
    requires ChosenFrom(cands, c, targets, recent, r)
    ensures 1 <= |r.items| <= 6 && (|r.items| - 1) as real < c.maxItems.value
  {
    var combos := Combos(|cands|, c.maxItems.value);
    var k: nat :| k < |combos| && FirstBest(cands, combos, k, c, targets, recent) && r.items == ComboItems(cands, combos[k]);
    assert |r.items| == |combos[k]|;
  }

  /** The search part of `recommendFromMenu`, once some candidate survived. */
  method Choose(cands: seq<Candidate>, c: Constraints, targets: Option<Targets>, recent: set<int>)
    returns (r: RecommendationResult)
    requires cands != []
    requires c.maxItems.Some? && 1.0 <= c.maxItems.value <= HARD_MAX_ITEMS
    ensures ChosenFrom(cands, c, targets, recent, r)
  {
    var maxItems := c.maxItems.GetOr(DEFAULT_MAX_ITEMS);
    var builder := new ComboBuilder(|cands|, maxItems);
    builder.Build(0, []);
    var combos := builder.combos;
    assert combos == Combos(|cands|, maxItems);

    var bestCombo, bestTotals := PickBest(cands, combos, c, targets, recent);
    ghost var k: nat :| k < |combos| && FirstBest(cands, combos, k, c, targets, recent) && bestCombo == ComboItems(cands, combos[k]);

    var warnings := CollectWarnings(bestTotals, c);
    r := RecommendationResult(bestCombo, bestTotals, c, EXPLANATION, warnings);
  }

  /** `recommendFromMenu`. */
  method RecommendFromMenu(items: seq<MenuItem>, raw: Constraints, goals: Option<DailyGoals>, recent: set<int>)
    returns (r: RecommendationResult)
    ensures r.constraints == NormalizeConstraints(raw)
    ensures BuildCandidates(items, r.constraints) == [] ==> r == NoMatch(r.constraints)
    ensures BuildCandidates(items, r.constraints) != [] ==>
      && ChosenFrom(BuildCandidates(items, r.constraints), r.constraints, BuildTargets(goals), recent, r)
      && 1 <= |r.items| <= 6 && (|r.items| - 1) as real < r.constraints.maxItems.value
  {
    var constraints := NormalizeConstraints(raw);
    var candidates := BuildCandidates(items, constraints);
    if |candidates| == 0 {
      return NoMatch(constraints);
    }
    var targets := BuildTargets(goals);
    r := Choose(candidates, constraints, targets, recent);
    ChosenSize(candidates, constraints, targets, recent, r);
  }
}
