/**
 * Scoring of one combination: its nutrient totals, the penalty for missing each bound, the
 * preference and recency adjustments, and the pull towards a third of the daily goals.
 */
module EngineScoring {
  import opened Wrappers
  import opened Seqs
  import opened Text
  import opened Types
  import opened EngineCandidates

  /** One item's contribution: its macros (0 when missing) times its quantity. */
  function ItemTotals(item: RecommendationItem): Totals {
    ScaledTotals(item.nutrition, item.quantity as real)
  }

  /** Each nutrient of `n` (0 when missing) times `q`. */
  function ScaledTotals(n: Option<Nutrition>, q: real): Totals {
    Totals(CaloriesOf(n) * q, ProteinOf(n) * q, CarbsOf(n) * q, FatOf(n) * q)
  }

  function SumTotals(a: Totals, b: Totals): Totals {
    Totals(a.calories + b.calories, a.protein + b.protein, a.carbs + b.carbs, a.fat + b.fat)
  }

  /** One step of the totals reduction. */
  function AddItem(acc: Totals, item: RecommendationItem): Totals {
    SumTotals(acc, ItemTotals(item))
  }

  /** The left-to-right reduction of a combination to its totals. */
  function ComboTotals(combo: seq<RecommendationItem>): Totals
    decreases |combo|
  {
    if combo == [] then ZeroTotals
    else AddItem(ComboTotals(combo[..|combo| - 1]), combo[|combo| - 1])
  }

  /** Totals are additive: a combination's totals are the sum of its parts' totals. */
  lemma {:induction false} ComboTotalsAppend(a: seq<RecommendationItem>, b: seq<RecommendationItem>)
    ensures ComboTotals(a + b) == SumTotals(ComboTotals(a), ComboTotals(b))
    decreases |b|
  {
    if b == [] {
      assert a + b == a;
    } else {
      var b' := b[..|b| - 1];
      var last := b[|b| - 1];
      assert (a + b)[..|a + b| - 1] == a + b';
      assert (a + b)[|a + b| - 1] == last;
      ComboTotalsAppend(a, b');
      SumAssociative(ComboTotals(a), ComboTotals(b'), ItemTotals(last));
    }
  }

  lemma SumAssociative(x: Totals, y: Totals, z: Totals)
    ensures SumTotals(SumTotals(x, y), z) == SumTotals(x, SumTotals(y, z))
  {
  }

  /** How far `v` exceeds an upper bound; 0 when there is none or it holds. */
  function Excess(v: real, bound: Option<real>): (r: real)
    ensures r >= 0.0
    ensures r == 0.0 <==> bound.None? || v <= bound.value
  {
    if bound.Some? && v > bound.value then v - bound.value else 0.0
  }

  /** How far `v` falls short of a lower bound; 0 when there is none or it holds. */
  function Shortfall(v: real, bound: Option<real>): (r: real)
    ensures r >= 0.0
    ensures r == 0.0 <==> bound.None? || v >= bound.value
  {
    if bound.Some? && v < bound.value then bound.value - v else 0.0
  }

  /** The weighted penalty for the bounds the totals miss. */
  function Penalty(t: Totals, c: Constraints): (r: real)
    ensures r >= 0.0
  {
    Excess(t.calories, c.maxCalories) * 2.0
    + Shortfall(t.calories, c.minCalories) * 1.5
    + Shortfall(t.protein, c.minProtein) * 4.0
    + Excess(t.carbs, c.maxCarbs) * 1.2
    + Excess(t.fat, c.maxFat) * 1.2
  }

  /** The totals meet every bound the constraints set. */
  predicate WithinBounds(t: Totals, c: Constraints) {
    && (c.maxCalories.None? || t.calories <= c.maxCalories.value)
    && (c.minCalories.None? || t.calories >= c.minCalories.value)
    && (c.minProtein.None? || t.protein >= c.minProtein.value)
    && (c.maxCarbs.None? || t.carbs <= c.maxCarbs.value)
    && (c.maxFat.None? || t.fat <= c.maxFat.value)
  }

  /** The penalty is never negative, and is zero exactly when every bound is met. */
  lemma PenaltyZeroIff(t: Totals, c: Constraints)
    ensures Penalty(t, c) >= 0.0
    ensures Penalty(t, c) == 0.0 <==> WithinBounds(t, c)
  {
  }

  /** The adjustment for one item: -20 when eaten recently, +8 when its name mentions a
      preferred term. */
  function ItemBoost(item: RecommendationItem, prefer: seq<string>, recent: set<int>): real {
    (if item.id in recent then -20.0 else 0.0)
    + (if |prefer| > 0 && AnyTermIn(Lower(item.name), prefer) then 8.0 else 0.0)
  }

  function PreferenceBoost(combo: seq<RecommendationItem>, prefer: seq<string>, recent: set<int>): real
    decreases |combo|
  {
    if combo == [] then 0.0
    else PreferenceBoost(combo[..|combo| - 1], prefer, recent) + ItemBoost(combo[|combo| - 1], prefer, recent)
  }

  predicate IsRecent(recent: set<int>, item: RecommendationItem) {
    item.id in recent
  }

  predicate IsPreferred(prefer: seq<string>, item: RecommendationItem) {
    |prefer| > 0 && AnyTermIn(Lower(item.name), prefer)
  }

  /** The preference adjustment counts items: 8 per preferred item, minus 20 per recent one. */
  lemma {:induction false} PreferenceBoostCounts(combo: seq<RecommendationItem>, prefer: seq<string>, recent: set<int>)
    ensures PreferenceBoost(combo, prefer, recent)
      == 8.0 * |Filter(combo, x => IsPreferred(prefer, x))| as real
         - 20.0 * |Filter(combo, x => IsRecent(recent, x))| as real
    decreases |combo|
  {
    if combo != [] {
      var init := combo[..|combo| - 1];
      var last := combo[|combo| - 1];
      PreferenceBoostCounts(init, prefer, recent);
      assert combo == init + [last];
      FilterCountSnoc(init, last, x => IsPreferred(prefer, x));
      FilterCountSnoc(init, last, x => IsRecent(recent, x));
    }
  }

  lemma FilterCountSnoc<T>(s: seq<T>, x: T, p: T -> bool)
    ensures |Filter(s + [x], p)| == |Filter(s, p)| + if p(x) then 1 else 0
  {
    FilterAppend(s, [x], p);
  }

  /** The engine's per-meal targets: a third of each daily goal. */
  datatype Targets = Targets(calories: real, protein: real, carbs: real, fat: real)

  /** Targets from the daily goals: none when there are no goals or all four are missing,
      otherwise a third of each goal (0 for a missing one). */
  function BuildTargets(goals: Option<DailyGoals>): (r: Option<Targets>)
    ensures r.None? <==> (goals.None?
      || (goals.value.calories.None? && goals.value.protein.None? && goals.value.carbs.None? && goals.value.fat.None?))
    ensures r.Some? ==>
      && r.value.calories * 3.0 == goals.value.calories.GetOr(0.0)
      && r.value.protein * 3.0 == goals.value.protein.GetOr(0.0)
      && r.value.carbs * 3.0 == goals.value.carbs.GetOr(0.0)
      && r.value.fat * 3.0 == goals.value.fat.GetOr(0.0)
  {
    if goals.None? then None
    else
      var g := goals.value;
      if g.calories.None? && g.protein.None? && g.carbs.None? && g.fat.None? then None
      else Some(Targets(g.calories.GetOr(0.0) / 3.0, g.protein.GetOr(0.0) / 3.0,
                        g.carbs.GetOr(0.0) / 3.0, g.fat.GetOr(0.0) / 3.0))
  }

  function Abs(x: real): real {
    if x < 0.0 then -x else x
  }

  /** The pull towards the targets: never positive, and zero exactly when calories and
      protein hit their targets (or there are none). */
  function TargetBoost(t: Totals, targets: Option<Targets>): (r: real)
    ensures r <= 0.0
    ensures targets.None? ==> r == 0.0
    ensures targets.Some? ==> (r == 0.0 <==> t.calories == targets.value.calories && t.protein == targets.value.protein)
  {
    if targets.Some? then
      0.0 - Abs(t.calories - targets.value.calories) * 0.1 - Abs(t.protein - targets.value.protein) * 0.2
    else 0.0
  }

  /** The part of the score that depends on the totals alone: the base score (twice the
      protein less a twentieth of the calories), the target pull, less the penalty. */
  function TotalsScore(t: Totals, c: Constraints, targets: Option<Targets>): real {
    t.protein * 2.0 - t.calories * 0.05 + TargetBoost(t, targets) - Penalty(t, c)
  }

  /** The score `scoreCombo` gives a combination. */
  function ComboScore(combo: seq<RecommendationItem>, c: Constraints, targets: Option<Targets>, recent: set<int>): real {
    TotalsScore(ComboTotals(combo), c, targets) + PreferenceBoost(combo, c.preferIngredients.GetOr([]), recent)
  }

  /** With no bounds missed, no targets and no preferences or recent items involved, the score
      is the base score: twice the protein less a twentieth of the calories. */
  lemma {:induction false} ScoreOfPlainCombo(combo: seq<RecommendationItem>, c: Constraints, recent: set<int>)
    requires WithinBounds(ComboTotals(combo), c)
    requires c.preferIngredients.GetOr([]) == []
    requires forall k :: 0 <= k < |combo| ==> combo[k].id !in recent
    ensures ComboScore(combo, c, None, recent)
      == ComboTotals(combo).protein * 2.0 - ComboTotals(combo).calories * 0.05
  {
    PreferenceBoostCounts(combo, [], recent);
    assert Filter(combo, x => IsRecent(recent, x)) == [];
    assert Filter(combo, x => IsPreferred([], x)) == [];
  }

  /** The preference adjustment is additive over concatenation. */
  lemma {:induction false} PreferenceBoostAppend(a: seq<RecommendationItem>, b: seq<RecommendationItem>, prefer: seq<string>, recent: set<int>)
    ensures PreferenceBoost(a + b, prefer, recent) == PreferenceBoost(a, prefer, recent) + PreferenceBoost(b, prefer, recent)
    decreases |b|
  {
    if b == [] {
      assert a + b == a;
    } else {
      var b' := b[..|b| - 1];
      assert (a + b)[..|a + b| - 1] == a + b';
      assert (a + b)[|a + b| - 1] == b[|b| - 1];
      PreferenceBoostAppend(a, b', prefer, recent);
    }
  }

  /** Swapping an item for one with the same quantity and nutrition keeps the totals. */
  lemma SwapKeepsTotals(pre: seq<RecommendationItem>, x: RecommendationItem, y: RecommendationItem, post: seq<RecommendationItem>)
    requires x.quantity == y.quantity && x.nutrition == y.nutrition
    ensures ComboTotals(pre + [x] + post) == ComboTotals(pre + [y] + post)
  {
    assert ComboTotals(pre + [x]) == ComboTotals(pre + [y]) by {
      ComboTotalsSnoc(pre, x);
      ComboTotalsSnoc(pre, y);
      assert ItemTotals(x) == ItemTotals(y);
    }
    SameTotalsAppend(pre + [x], pre + [y], post);
  }

  lemma SameTotalsAppend(a: seq<RecommendationItem>, b: seq<RecommendationItem>, post: seq<RecommendationItem>)
    requires ComboTotals(a) == ComboTotals(b)
    ensures ComboTotals(a + post) == ComboTotals(b + post)
  {
    ComboTotalsAppend(a, post);
    ComboTotalsAppend(b, post);
  }

  lemma ComboTotalsSnoc(pre: seq<RecommendationItem>, x: RecommendationItem)
    ensures ComboTotals(pre + [x]) == AddItem(ComboTotals(pre), x)
  {
    var xs := pre + [x];
    assert xs[..|xs| - 1] == pre && xs[|xs| - 1] == x;
  }

  /** The adjustment of a combination with one item swapped changes by that item's change. */
  lemma SwapBoost(pre: seq<RecommendationItem>, x: RecommendationItem, y: RecommendationItem, post: seq<RecommendationItem>,
                  prefer: seq<string>, recent: set<int>)
    ensures PreferenceBoost(pre + [y] + post, prefer, recent) - PreferenceBoost(pre + [x] + post, prefer, recent)
      == ItemBoost(y, prefer, recent) - ItemBoost(x, prefer, recent)
  {
    PreferenceBoostAppend(pre + [x], post, prefer, recent);
    PreferenceBoostAppend(pre + [y], post, prefer, recent);
    PreferenceBoostAppend(pre, [x], prefer, recent);
    PreferenceBoostAppend(pre, [y], prefer, recent);
    assert [x][..0] == [] && [y][..0] == [];
  }

  /** Swapping a recently eaten item for an otherwise identical item that was not eaten
      recently raises the score by exactly 20. */
  lemma RecentSwapCostsTwenty(pre: seq<RecommendationItem>, x: RecommendationItem, y: RecommendationItem,
                              post: seq<RecommendationItem>, c: Constraints, targets: Option<Targets>, recent: set<int>)
    requires x.id in recent && y.id !in recent
    requires x.name == y.name && x.quantity == y.quantity && x.nutrition == y.nutrition
    ensures ComboScore(pre + [y] + post, c, targets, recent) == ComboScore(pre + [x] + post, c, targets, recent) + 20.0
  {
    SwapKeepsTotals(pre, x, y, post);
    SwapBoost(pre, x, y, post, c.preferIngredients.GetOr([]), recent);
  }

  /**
   * `scoreCombo`: the totals by reduction, the penalty accumulated bound by bound, the
   * preference adjustment accumulated item by item, then the target pull.
   */
  method ScoreCombo(combo: seq<RecommendationItem>, c: Constraints, targets: Option<Targets>, recent: set<int>)
    returns (totals: Totals, score: real)
    ensures totals == ComboTotals(combo)
    ensures score == ComboScore(combo, c, targets, recent)
  {
    totals := ComboTotals(combo);

    var penalty := 0.0;
    if c.maxCalories.Some? && totals.calories > c.maxCalories.value {
      penalty := penalty + (totals.calories - c.maxCalories.value) * 2.0;
    }
    assert penalty == Excess(totals.calories, c.maxCalories) * 2.0;
    if c.minCalories.Some? && totals.calories < c.minCalories.value {
      penalty := penalty + (c.minCalories.value - totals.calories) * 1.5;
    }
    assert penalty == Excess(totals.calories, c.maxCalories) * 2.0 + Shortfall(totals.calories, c.minCalories) * 1.5;
    if c.minProtein.Some? && totals.protein < c.minProtein.value {
      penalty := penalty + (c.minProtein.value - totals.protein) * 4.0;
    }
    ghost var p3 := penalty;
    assert p3 == Excess(totals.calories, c.maxCalories) * 2.0 + Shortfall(totals.calories, c.minCalories) * 1.5
      + Shortfall(totals.protein, c.minProtein) * 4.0;
    if c.maxCarbs.Some? && totals.carbs > c.maxCarbs.value {
      penalty := penalty + (totals.carbs - c.maxCarbs.value) * 1.2;
    }
    assert penalty == p3 + Excess(totals.carbs, c.maxCarbs) * 1.2;
    ghost var p4 := penalty;
    if c.maxFat.Some? && totals.fat > c.maxFat.value {
      penalty := penalty + (totals.fat - c.maxFat.value) * 1.2;
    }
    assert penalty == p4 + Excess(totals.fat, c.maxFat) * 1.2;
    assert penalty == Penalty(totals, c);

    var preferenceBoost := 0.0;
    var preferTerms := c.preferIngredients.GetOr([]);
    var i := 0;
    while i < |combo|
      invariant 0 <= i <= |combo|
      invariant preferenceBoost == PreferenceBoost(combo[..i], preferTerms, recent)
    {
      var item := combo[i];
      if item.id in recent {
        preferenceBoost := preferenceBoost - 20.0;
      }
      if |preferTerms| > 0 {
        var name := Lower(item.name);
        if AnyTermIn(name, preferTerms) {
          preferenceBoost := preferenceBoost + 8.0;
        }
      }
      assert combo[..i + 1][..i] == combo[..i];
      i := i + 1;
    }
    assert combo[..i] == combo;

    var targetBoost := 0.0;
    if targets.Some? {
      targetBoost := targetBoost - Abs(totals.calories - targets.value.calories) * 0.1;
      targetBoost := targetBoost - Abs(totals.protein - targets.value.protein) * 0.2;
    }

    var baseScore := totals.protein * 2.0 - totals.calories * 0.05;
    score := baseScore + targetBoost + preferenceBoost - penalty;
  }
}
