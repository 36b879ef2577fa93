/**
 * The home page's meal plan: a list of chosen menu items with quantities, updated by add,
 * remove and clear, and the choice of meal tab after a menu loads.
 */
module MealPlan {
  import opened Wrappers
  import opened Seqs

  /** The nutrition a plan entry carries; the decimal columns are taken as already read. */
  datatype PlanNutrition = PlanNutrition(
    calories: Option<real>,
    protein: Option<real>,
    carbs: Option<real>,
    fat: Option<real>)

  datatype PlanEntry = PlanEntry(id: int, name: string, quantity: real, nutrition: Option<PlanNutrition>)

  /** The menu item the user adds. */
  datatype Pick = Pick(id: int, name: string, nutrition: Option<PlanNutrition>)

  predicate HasId(plan: seq<PlanEntry>, id: int) {
    exists k :: 0 <= k < |plan| && plan[k].id == id
  }

  /** No two entries share an id. */
  predicate UniqueIds(plan: seq<PlanEntry>) {
    forall i, j :: 0 <= i < j < |plan| ==> plan[i].id != plan[j].id
  }

  /** The entry with the given id has its quantity raised; every other entry is as it was. */
  function Bump(plan: seq<PlanEntry>, id: int, quantity: real): (r: seq<PlanEntry>)
    ensures |r| == |plan|
    ensures forall k :: 0 <= k < |plan| && plan[k].id != id ==> r[k] == plan[k]
    ensures forall k :: 0 <= k < |plan| && plan[k].id == id ==>
      r[k] == plan[k].(quantity := plan[k].quantity + quantity)
  {
    seq(|plan|, k requires 0 <= k < |plan| =>
      if plan[k].id == id then plan[k].(quantity := plan[k].quantity + quantity) else plan[k])
  }

  /**
   * `handleAddToMealPlan`: an id already planned gets the quantity added to its entry; a new id
   * is appended as one entry. Either way the planned ids are the old ones plus the added id.
   */
  function AddToPlan(plan: seq<PlanEntry>, item: Pick, quantity: real): (r: seq<PlanEntry>)
    ensures HasId(plan, item.id) ==> r == Bump(plan, item.id, quantity)
    ensures !HasId(plan, item.id) ==> r == plan + [PlanEntry(item.id, item.name, quantity, item.nutrition)]
    ensures forall x :: HasId(r, x) <==> HasId(plan, x) || x == item.id
  {
    if HasId(plan, item.id) then
      var r := Bump(plan, item.id, quantity);
      assert forall x :: HasId(r, x) ==> HasId(plan, x) by {
        forall x | HasId(r, x) ensures HasId(plan, x) {
          var k :| 0 <= k < |r| && r[k].id == x;
          assert plan[k].id == x;
        }
      }
      assert forall x :: HasId(plan, x) ==> HasId(r, x) by {
        forall x | HasId(plan, x) ensures HasId(r, x) {
          var k :| 0 <= k < |plan| && plan[k].id == x;
          assert r[k].id == x;
        }
      }
      r
    else
      var r := plan + [PlanEntry(item.id, item.name, quantity, item.nutrition)];
      assert r[|plan|].id == item.id;
      assert forall x :: HasId(r, x) ==> HasId(plan, x) || x == item.id by {
        forall x | HasId(r, x) ensures HasId(plan, x) || x == item.id {
          var k :| 0 <= k < |r| && r[k].id == x;
          if k < |plan| {
            assert plan[k].id == x;
          }
        }
      }
      assert forall x :: HasId(plan, x) ==> HasId(r, x) by {
        forall x | HasId(plan, x) ensures HasId(r, x) {
          var k :| 0 <= k < |plan| && plan[k].id == x;
          assert r[k].id == x;
        }
      }
      r
  }

  /** Adding keeps the ids unique. */
  lemma AddKeepsUnique(plan: seq<PlanEntry>, item: Pick, quantity: real)
    requires UniqueIds(plan)
    ensures UniqueIds(AddToPlan(plan, item, quantity))
  {
    var r := AddToPlan(plan, item, quantity);
    if !HasId(plan, item.id) {
      forall i, j | 0 <= i < j < |r| ensures r[i].id != r[j].id {
        if j == |plan| {
          assert r[i] == plan[i];
        }
      }
    }
  }

  function WithoutId(id: int): PlanEntry -> bool {
    (p: PlanEntry) => p.id != id
  }

  /** `handleRemoveFromMealPlan`: every entry with the id goes, the others stay in order. */
  function RemoveFromPlan(plan: seq<PlanEntry>, id: int): (r: seq<PlanEntry>)
    ensures SubseqOf(r, plan)
    ensures !HasId(r, id)
    ensures forall k :: 0 <= k < |plan| && plan[k].id != id ==> plan[k] in r
  {
    var r := Filter(plan, WithoutId(id));
    assert !HasId(r, id) by {
      forall k | 0 <= k < |r| ensures r[k].id != id {
        assert WithoutId(id)(r[k]);
      }
    }
    r
  }

  /** Removing keeps the ids unique. */
  lemma {:induction false} RemoveKeepsUnique(plan: seq<PlanEntry>, id: int)
    requires UniqueIds(plan)
    ensures UniqueIds(RemoveFromPlan(plan, id))
  {
    if plan != [] {
      var rest := plan[1..];
      UniqueTail(plan);
      RemoveKeepsUnique(rest, id);
      var tail := Filter(rest, WithoutId(id));
      if WithoutId(id)(plan[0]) {
        assert Filter(plan, WithoutId(id)) == [plan[0]] + tail;
        UniqueCons(plan[0], tail);
      } else {
        assert Filter(plan, WithoutId(id)) == tail;
      }
    }
  }

  lemma UniqueTail(plan: seq<PlanEntry>)
    requires UniqueIds(plan) && plan != []
    ensures UniqueIds(plan[1..])
    ensures forall x :: x in plan[1..] ==> x.id != plan[0].id
  {
    var rest := plan[1..];
    forall i, j | 0 <= i < j < |rest| ensures rest[i].id != rest[j].id {
      assert rest[i] == plan[i + 1] && rest[j] == plan[j + 1];
    }
    forall x | x in rest ensures x.id != plan[0].id {
      var m :| 0 <= m < |rest| && rest[m] == x;
      assert rest[m] == plan[m + 1];
    }
  }

  lemma UniqueCons(x: PlanEntry, t: seq<PlanEntry>)
    requires UniqueIds(t) && forall y :: y in t ==> y.id != x.id
    ensures UniqueIds([x] + t)
  {
    var r := [x] + t;
    forall i, j | 0 <= i < j < |r| ensures r[i].id != r[j].id {
      assert r[j] == t[j - 1];
      if i > 0 {
        assert r[i] == t[i - 1];
      }
    }
  }

  /** Removing an id that was never added returns the plan unchanged. */
  lemma RemoveAbsent(plan: seq<PlanEntry>, id: int)
    requires !HasId(plan, id)
    ensures RemoveFromPlan(plan, id) == plan
  {
    forall k | 0 <= k < |plan| ensures WithoutId(id)(plan[k]) {
      assert plan[k].id != id;
    }
    FilterAll(plan, WithoutId(id));
  }

  /** Removing a newly added item undoes the addition. */
  lemma AddThenRemove(plan: seq<PlanEntry>, item: Pick, quantity: real)
    requires !HasId(plan, item.id)
    ensures RemoveFromPlan(AddToPlan(plan, item, quantity), item.id) == plan
  {
    var entry := PlanEntry(item.id, item.name, quantity, item.nutrition);
    FilterAppend(plan, [entry], WithoutId(item.id));
    RemoveAbsent(plan, item.id);
    assert Filter([entry], WithoutId(item.id)) == [];
  }

  /** `handleClearMealPlan`. */
  const CLEARED_PLAN: seq<PlanEntry> := []

  /** Preferred meal tabs, most preferred first. */
  const PREFERRED_MEALS := ["lunch", "dinner", "breakfast"]

  /**
   * The meal tab after a menu loads: the current one if the menu has it (or has no meals),
   * otherwise lunch, dinner or breakfast in that order of preference, otherwise the first meal.
   */
  function SelectMeal(meals: seq<string>, current: string): (r: string)
    ensures |meals| == 0 || current in meals ==> r == current
    ensures |meals| > 0 ==> r in meals
    ensures |meals| > 0 && current !in meals && "lunch" in meals ==> r == "lunch"
    ensures |meals| > 0 && current !in meals && "lunch" !in meals && "dinner" in meals ==> r == "dinner"
    ensures |meals| > 0 && current !in meals && "lunch" !in meals && "dinner" !in meals && "breakfast" in meals ==> r == "breakfast"
    ensures |meals| > 0 && current !in meals && (forall m :: m in PREFERRED_MEALS ==> m !in meals) ==> r == meals[0]
  {
    if |meals| > 0 && current !in meals then
      if "lunch" in meals then "lunch"
      else if "dinner" in meals then "dinner"
      else if "breakfast" in meals then "breakfast"
      else meals[0]
    else current
  }

  /** Reloading the same meals keeps the selection. */
  lemma SelectMealStable(meals: seq<string>, current: string)
    ensures SelectMeal(meals, SelectMeal(meals, current)) == SelectMeal(meals, current)
  {
  }
}
