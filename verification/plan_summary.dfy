/**
 * The meal plan summary: the plan's nutrient totals and the per-nutrient progress bar against a
 * daily goal, with the hover preview of an item not yet added.
 */
module PlanSummary {
  import opened Wrappers
  import opened MealPlan

  datatype PlanTotals = PlanTotals(calories: real, protein: real, carbs: real, fat: real)

  const ZERO := PlanTotals(0.0, 0.0, 0.0, 0.0)

  function Plus(a: PlanTotals, b: PlanTotals): PlanTotals {
    PlanTotals(a.calories + b.calories, a.protein + b.protein, a.carbs + b.carbs, a.fat + b.fat)
  }

  /** One reduce step: an entry without nutrition adds nothing, a missing value counts as 0. */
  function Step(acc: PlanTotals, item: PlanEntry): PlanTotals {
    if item.nutrition.None? then acc
    else
      var n := item.nutrition.value;
      var q := item.quantity;
      PlanTotals(
        acc.calories + n.calories.GetOr(0.0) * q,
        acc.protein + n.protein.GetOr(0.0) * q,
        acc.carbs + n.carbs.GetOr(0.0) * q,
        acc.fat + n.fat.GetOr(0.0) * q)
  }

  /** `items.reduce(step, acc)`, left to right. */
  function Reduce(items: seq<PlanEntry>, acc: PlanTotals): PlanTotals
    decreases |items|
  {
    if items == [] then acc else Reduce(items[1..], Step(acc, items[0]))
  }

  /** The plan's totals, starting from zero. */
  function Totals(items: seq<PlanEntry>): PlanTotals {
    Reduce(items, ZERO)
  }

  /** Nutrition values per serving, a missing value or missing nutrition counting as 0. */
  function PerServing(n: Option<PlanNutrition>): PlanTotals {
    match n
    case None => ZERO
    case Some(v) => PlanTotals(v.calories.GetOr(0.0), v.protein.GetOr(0.0), v.carbs.GetOr(0.0), v.fat.GetOr(0.0))
  }

  function Times(t: PlanTotals, q: real): PlanTotals {
    PlanTotals(t.calories * q, t.protein * q, t.carbs * q, t.fat * q)
  }

  /** The reference sum: each entry contributes its per-serving values times its quantity. */
  function Sum(items: seq<PlanEntry>): PlanTotals
    decreases |items|
  {
    if items == [] then ZERO
    else Plus(Times(PerServing(items[0].nutrition), items[0].quantity), Sum(items[1..]))
  }

  /** One step adds the entry's contribution. */
  lemma StepAdds(acc: PlanTotals, item: PlanEntry)
    ensures Step(acc, item) == Plus(acc, Times(PerServing(item.nutrition), item.quantity))
  {
  }

  lemma PlusAssoc(a: PlanTotals, b: PlanTotals, c: PlanTotals)
    ensures Plus(Plus(a, b), c) == Plus(a, Plus(b, c))
  {
  }

  /** Folding from any start adds the reference sum to it. */
  lemma {:induction false} ReduceIsSum(items: seq<PlanEntry>, acc: PlanTotals)
    ensures Reduce(items, acc) == Plus(acc, Sum(items))
    decreases |items|
  {
    if items == [] {
      assert Plus(acc, ZERO) == acc;
    } else {
      var c := Times(PerServing(items[0].nutrition), items[0].quantity);
      StepAdds(acc, items[0]);
      ReduceIsSum(items[1..], Step(acc, items[0]));
      PlusAssoc(acc, c, Sum(items[1..]));
    }
  }

  /** The totals are the sum of value times quantity over the plan; the empty plan totals zero. */
  lemma TotalsAreSums(items: seq<PlanEntry>)
    ensures Totals(items) == Sum(items)
    ensures items == [] ==> Totals(items) == ZERO
  {
    ReduceIsSum(items, ZERO);
  }

  lemma {:induction false} SumAppend(a: seq<PlanEntry>, b: seq<PlanEntry>)
    ensures Sum(a + b) == Plus(Sum(a), Sum(b))
    decreases |a|
  {
    if a == [] {
      assert a + b == b;
    } else {
      assert (a + b)[1..] == a[1..] + b;
      SumAppend(a[1..], b);
    }
  }

  /** Adding a new item raises the totals by its per-serving values times the quantity. */
  lemma TotalsAfterAddingNew(plan: seq<PlanEntry>, item: Pick, quantity: real)
    requires !HasId(plan, item.id)
    ensures Totals(AddToPlan(plan, item, quantity))
      == Plus(Totals(plan), Times(PerServing(item.nutrition), quantity))
  {
    var entry := PlanEntry(item.id, item.name, quantity, item.nutrition);
    TotalsAreSums(plan);
    TotalsAreSums(plan + [entry]);
    SumAppend(plan, [entry]);
  }

  /** Raising an absent id changes nothing. */
  lemma BumpAbsent(plan: seq<PlanEntry>, id: int, quantity: real)
    requires !HasId(plan, id)
    ensures Bump(plan, id, quantity) == plan
  {
  }

  lemma TimesDistributes(t: PlanTotals, a: real, b: real)
    ensures Times(t, a + b) == Plus(Times(t, a), Times(t, b))
  {
    assert t.calories * (a + b) == t.calories * a + t.calories * b;
    assert t.protein * (a + b) == t.protein * a + t.protein * b;
    assert t.carbs * (a + b) == t.carbs * a + t.carbs * b;
    assert t.fat * (a + b) == t.fat * a + t.fat * b;
  }

  lemma PlusSwap(a: PlanTotals, b: PlanTotals, c: PlanTotals)
    ensures Plus(Plus(a, b), c) == Plus(Plus(a, c), b)
  {
  }

  lemma {:induction false} SumBump(plan: seq<PlanEntry>, k: nat, quantity: real)
    requires UniqueIds(plan) && k < |plan|
    ensures Sum(Bump(plan, plan[k].id, quantity))
      == Plus(Sum(plan), Times(PerServing(plan[k].nutrition), quantity))
    decreases |plan|
  {
    var id := plan[k].id;
    var b := Bump(plan, id, quantity);
    var rest := plan[1..];
    assert b[1..] == Bump(rest, id, quantity);
    var extra := Times(PerServing(plan[k].nutrition), quantity);
    var e := plan[0];
    var c := Times(PerServing(e.nutrition), e.quantity);
    assert Sum(plan) == Plus(c, Sum(rest));
    if k == 0 {
      assert !HasId(rest, id) by {
        forall m | 0 <= m < |rest| ensures rest[m].id != id {
          assert rest[m] == plan[m + 1];
        }
      }
      BumpAbsent(rest, id, quantity);
      assert b[0] == e.(quantity := e.quantity + quantity);
      TimesDistributes(PerServing(e.nutrition), e.quantity, quantity);
      assert Sum(b) == Plus(Plus(c, extra), Sum(rest));
      PlusSwap(c, extra, Sum(rest));
    } else {
      assert UniqueIds(rest) by {
        forall i, j | 0 <= i < j < |rest| ensures rest[i].id != rest[j].id {
          assert rest[i] == plan[i + 1] && rest[j] == plan[j + 1];
        }
      }
      assert rest[k - 1] == plan[k];
      SumBump(rest, k - 1, quantity);
      assert b[0] == e;
      assert Sum(b) == Plus(c, Plus(Sum(rest), extra));
      PlusAssoc(c, Sum(rest), extra);
    }
  }

  /**
   * Adding more of a planned item raises the totals by that entry's per-serving values times
   * the added quantity.
   */
  lemma TotalsAfterAddingMore(plan: seq<PlanEntry>, item: Pick, quantity: real, k: nat)
    requires UniqueIds(plan) && k < |plan| && plan[k].id == item.id
    ensures Totals(AddToPlan(plan, item, quantity))
      == Plus(Totals(plan), Times(PerServing(plan[k].nutrition), quantity))
  {
    assert HasId(plan, item.id);
    TotalsAreSums(plan);
    TotalsAreSums(Bump(plan, item.id, quantity));
    SumBump(plan, k, quantity);
  }

  /** What one progress bar shows. */
  datatype Bar = Bar(percentage: real, isOver: bool, remaining: real, ghostPercentage: real, wouldBeOver: bool)

  function Min(a: real, b: real): real {
    if a <= b then a else b
  }

  /** A preview value counts only when present and non-zero. */
  predicate Truthy(preview: Option<real>) {
    preview.Some? && preview.value != 0.0
  }

  lemma ShareAtLeastFull(x: real, goal: real)
    requires goal > 0.0
    ensures x / goal * 100.0 >= 100.0 <==> x >= goal
  {
    assert x / goal * goal == x;
  }

  /**
   * `ProgressBar`: the fill is the share of the goal reached, capped at 100; over means above
   * the goal; the preview fill previews the share after adding the preview value.
   */
  function ProgressBar(current: real, goal: real, preview: Option<real>): (r: Bar)
    requires goal > 0.0
    ensures r.percentage <= 100.0
    ensures r.percentage == 100.0 <==> current >= goal
    ensures current <= goal ==> r.percentage == current / goal * 100.0
    ensures r.isOver <==> current > goal
    ensures r.remaining == goal - current
    ensures r.isOver <==> r.remaining < 0.0
    ensures Truthy(preview) ==> r.ghostPercentage <= 100.0
    ensures Truthy(preview) ==> (r.wouldBeOver <==> current + preview.value > goal)
    ensures Truthy(preview) && current + preview.value >= goal ==> r.ghostPercentage == 100.0
    ensures Truthy(preview) && current + preview.value <= goal ==> r.ghostPercentage == (current + preview.value) / goal * 100.0
    ensures !Truthy(preview) ==> r.ghostPercentage == r.percentage && !r.wouldBeOver
  {
    ShareAtLeastFull(current, goal);
    var percentage := Min(current / goal * 100.0, 100.0);
    var ghostPercentage :=
      if Truthy(preview) then (ShareAtLeastFull(current + preview.value, goal); Min((current + preview.value) / goal * 100.0, 100.0))
      else percentage;
    Bar(percentage, current > goal, goal - current, ghostPercentage, if Truthy(preview) then current + preview.value > goal else false)
  }

  /** A positive preview value never shows less than the current fill. */
  lemma GhostNeverBelow(current: real, goal: real, preview: real)
    requires goal > 0.0 && preview > 0.0
    ensures ProgressBar(current, goal, Some(preview)).ghostPercentage >= ProgressBar(current, goal, Some(preview)).percentage
  {
    var inv := 100.0 / goal;
    assert current / goal * 100.0 == current * inv;
    assert (current + preview) / goal * 100.0 == (current + preview) * inv;
    assert inv > 0.0;
    assert (current + preview) * inv == current * inv + preview * inv;
    assert preview * inv > 0.0;
  }
}
