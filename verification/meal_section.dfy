/**
 * One meal period's section of the menu: items grouped by category ("Other" when missing),
 * categories listed in sorted order, each item marked when it is already in the meal plan.
 */
module MealSection {
  import opened Wrappers
  import opened Seqs
  import opened Grouping

  /** Array.prototype.sort's default order on strings: character by character, shorter first. */
  predicate StrLeq(a: string, b: string)
    decreases |a|
  {
    a == [] || (b != [] && (a[0] < b[0] || (a[0] == b[0] && StrLeq(a[1..], b[1..]))))
  }

  lemma {:induction false} StrLeqTotal(a: string, b: string)
    ensures StrLeq(a, b) || StrLeq(b, a)
    decreases |a|
  {
    if a != [] && b != [] && a[0] == b[0] {
      StrLeqTotal(a[1..], b[1..]);
    }
  }

  lemma {:induction false} StrLeqTrans(a: string, b: string, c: string)
    requires StrLeq(a, b) && StrLeq(b, c)
    ensures StrLeq(a, c)
    decreases |a|
  {
    if a != [] && a[0] == b[0] && b[0] == c[0] {
      StrLeqTrans(a[1..], b[1..], c[1..]);
    }
  }

  predicate SortedStrings(s: seq<string>) {
    forall i, j :: 0 <= i < j < |s| ==> StrLeq(s[i], s[j])
  }

  lemma SortedCons(x: string, s: seq<string>)
    requires SortedStrings(s) && s != [] && StrLeq(x, s[0])
    ensures SortedStrings([x] + s)
  {
    forall j | 0 <= j < |s| ensures StrLeq(x, s[j]) {
      if j > 0 {
        StrLeqTrans(x, s[0], s[j]);
      }
    }
  }

  lemma SortedAfterHead(x: string, s: seq<string>, rest: seq<string>)
    requires SortedStrings(s) && s != [] && !StrLeq(x, s[0])
    requires SortedStrings(rest) && multiset(rest) == multiset(s[1..]) + multiset{x}
    ensures SortedStrings([s[0]] + rest)
  {
    StrLeqTotal(x, s[0]);
    forall j | 0 <= j < |rest| ensures StrLeq(s[0], rest[j]) {
      assert rest[j] in multiset(rest);
      if rest[j] != x {
        assert rest[j] in multiset(s[1..]);
        var m :| 0 <= m < |s[1..]| && s[1..][m] == rest[j];
        assert s[m + 1] == rest[j];
      }
    }
    var r := [s[0]] + rest;
    forall i, j | 0 <= i < j < |r| ensures StrLeq(r[i], r[j]) {
      if i > 0 {
        assert r[i] == rest[i - 1] && r[j] == rest[j - 1];
      } else {
        assert r[j] == rest[j - 1];
      }
    }
  }

  /** Inserting into a sorted list keeps it sorted and adds exactly one element. */
  function InsertString(x: string, s: seq<string>): (r: seq<string>)
    requires SortedStrings(s)
    ensures SortedStrings(r)
    ensures multiset(r) == multiset(s) + multiset{x}
    decreases |s|
  {
    if s == [] then [x]
    else if StrLeq(x, s[0]) then
      SortedCons(x, s);
      [x] + s
    else
      var rest := InsertString(x, s[1..]);
      assert s == [s[0]] + s[1..];
      SortedAfterHead(x, s, rest);
      [s[0]] + rest
  }

  /** `.sort()` on strings: a sorted permutation. */
  function SortStrings(s: seq<string>): (r: seq<string>)
    ensures SortedStrings(r)
    ensures multiset(r) == multiset(s)
    decreases |s|
  {
    if s == [] then []
    else
      assert s == [s[0]] + s[1..];
      InsertString(s[0], SortStrings(s[1..]))
  }

  lemma {:induction false} AtMostOnce(b: seq<string>)
    requires NoDuplicates(b)
    ensures forall v :: multiset(b)[v] <= 1
    decreases |b|
  {
    if b != [] {
      assert b == [b[0]] + b[1..];
      AtMostOnce(b[1..]);
      assert b[0] !in b[1..];
    }
  }

  lemma RepeatCounts(a: seq<string>, i: nat, j: nat)
    requires i < j < |a|
    ensures a[i] == a[j] ==> multiset(a)[a[i]] >= 2
  {
    assert a == a[..i] + [a[i]] + a[i + 1..j] + [a[j]] + a[j + 1..];
  }

  /** A permutation of a list without repetitions has none either. */
  lemma PermutationNoDuplicates(a: seq<string>, b: seq<string>)
    requires multiset(a) == multiset(b) && NoDuplicates(b)
    ensures NoDuplicates(a)
  {
    AtMostOnce(b);
    forall i, j | 0 <= i < j < |a| ensures a[i] != a[j] {
      RepeatCounts(a, i, j);
    }
  }

  lemma SameMembers(a: seq<string>, b: seq<string>)
    requires multiset(a) == multiset(b)
    ensures forall k :: k in a <==> k in b
  {
    forall k ensures k in a <==> k in b {
      assert k in a <==> k in multiset(a);
      assert k in b <==> k in multiset(b);
    }
  }

  datatype SectionItem = SectionItem(id: int, name: string, category: Option<string>)

  /** `item.category || "Other"`. */
  function CategoryOf(item: SectionItem): string {
    KeyOr(item.category)
  }

  /** One rendered card: the item and whether it is already in the meal plan. */
  datatype Card = Card(id: int, inPlan: bool)

  datatype SectionView = SectionView(
    count: nat,
    categories: seq<string>,
    groups: map<string, seq<SectionItem>>,
    cards: seq<seq<Card>>)

  function CardsOf(group: seq<SectionItem>, mealPlanItems: seq<int>): (r: seq<Card>)
    ensures |r| == |group|
    ensures forall m :: 0 <= m < |group| ==> r[m].id == group[m].id && (r[m].inPlan <==> group[m].id in mealPlanItems)
  {
    seq(|group|, m requires 0 <= m < |group| => Card(group[m].id, group[m].id in mealPlanItems))
  }

  /** The cards of each listed category, in category order. */
  function CardsFor(categories: seq<string>, groups: map<string, seq<SectionItem>>, mealPlanItems: seq<int>): (r: seq<seq<Card>>)
    requires forall k :: k in categories ==> k in groups
    ensures |r| == |categories|
    ensures forall c :: 0 <= c < |categories| ==> r[c] == CardsOf(groups[categories[c]], mealPlanItems)
  {
    seq(|categories|, c requires 0 <= c < |categories| => CardsOf(groups[categories[c]], mealPlanItems))
  }

  /**
   * `MealSection`: the header counts every item; the categories are exactly the item
   * categories, each once, in sorted order; each category's group holds exactly its items in
   * input order, so every item appears in exactly one group; each card is marked in-plan
   * exactly when its id is in the plan.
   */
  method Render(items: seq<SectionItem>, mealPlanItems: seq<int>) returns (view: SectionView)
    ensures view.count == |items|
    ensures SortedStrings(view.categories) && NoDuplicates(view.categories)
    ensures forall k :: k in view.categories <==> exists i :: 0 <= i < |items| && CategoryOf(items[i]) == k
    ensures forall k :: k in view.groups <==> k in view.categories
    ensures view.groups == GroupsOf(items, CategoryOf)
    ensures |view.cards| == |view.categories|
    ensures forall c :: 0 <= c < |view.categories| ==> view.cards[c] == CardsOf(view.groups[view.categories[c]], mealPlanItems)
  {
    var groups, order := GroupBy(items, CategoryOf);
    var categories := SortStrings(order);
    PermutationNoDuplicates(categories, order);
    SameMembers(categories, order);
    GroupsOfMembers(items, CategoryOf);
    view := SectionView(|items|, categories, groups, CardsFor(categories, groups, mealPlanItems));
  }
}
