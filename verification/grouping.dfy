/**
 * Grouping items into a record of arrays keyed by a string, the way the menu code does it:
 * walk the items once, create a key's array on first sight and push each item onto its key's
 * array. The record's keys are kept in the order they were first created.
 */
module Grouping {
  import opened Wrappers
  import opened Seqs

  const OTHER := "Other"

  /** `value || "Other"`: a missing or empty key falls back to "Other". */
  function KeyOr(k: Option<string>): (r: string)
    ensures r != ""
    ensures k.Some? && k.value != "" ==> r == k.value
    ensures k.None? || k.value == "" ==> r == OTHER
  {
    if k.Some? && k.value != "" then k.value else OTHER
  }

  function HasKey<T>(key: T -> string, k: string): T -> bool {
    (x: T) => key(x) == k
  }

  /** The number of items over the groups named in `order`. */
  function TotalSize<T>(order: seq<string>, groups: map<string, seq<T>>): nat
    decreases |order|
  {
    if order == [] then 0
    else (if order[0] in groups then |groups[order[0]]| else 0) + TotalSize(order[1..], groups)
  }

  lemma {:induction false} TotalSizeSame<T>(order: seq<string>, groups: map<string, seq<T>>, k: string, v: seq<T>)
    requires k !in order
    ensures TotalSize(order, groups[k := v]) == TotalSize(order, groups)
    decreases |order|
  {
    if order != [] {
      TotalSizeSame(order[1..], groups, k, v);
    }
  }

  lemma {:induction false} TotalSizeGrow<T>(order: seq<string>, groups: map<string, seq<T>>, k: string, x: T)
    requires NoDuplicates(order) && k in order && k in groups
    ensures TotalSize(order, groups[k := groups[k] + [x]]) == TotalSize(order, groups) + 1
    decreases |order|
  {
    if order[0] == k {
      assert k !in order[1..];
      TotalSizeSame(order[1..], groups, k, groups[k] + [x]);
    } else {
      TotalSizeGrow(order[1..], groups, k, x);
    }
  }

  lemma {:induction false} TotalSizeNew<T>(order: seq<string>, groups: map<string, seq<T>>, k: string, x: T)
    requires k !in order
    ensures TotalSize(order + [k], groups[k := [x]]) == TotalSize(order, groups) + 1
    decreases |order|
  {
    if order == [] {
      assert order + [k] == [k];
    } else {
      assert (order + [k])[1..] == order[1..] + [k];
      TotalSizeNew(order[1..], groups, k, x);
    }
  }

  lemma DedupSnoc<T(!new)>(s: seq<T>, x: T)
    ensures Dedup(s + [x]) == if x in Dedup(s) then Dedup(s) else Dedup(s) + [x]
  {
    assert (s + [x])[..|s + [x]| - 1] == s;
  }

  lemma TakeSnoc<T>(s: seq<T>, i: nat)
    requires i < |s|
    ensures s[..i + 1] == s[..i] + [s[i]]
  {
  }

  /** The keys of a grouping, in the order they are first met. */
  function OrderOf<T>(items: seq<T>, key: T -> string): seq<string> {
    Dedup(Map(items, key))
  }

  /** The reference grouping: for each key met, the items with that key in input order. */
  function GroupsOf<T(==)>(items: seq<T>, key: T -> string): map<string, seq<T>> {
    map k | k in Map(items, key) :: Filter(items, HasKey(key, k))
  }

  /** Pushing `x` onto the array of key `k`, creating it if needed. */
  function Push<T>(groups: map<string, seq<T>>, k: string, x: T): map<string, seq<T>> {
    if k in groups then groups[k := groups[k] + [x]] else groups[k := [x]]
  }

  lemma FilterSnoc<T>(items: seq<T>, key: T -> string, x: T, j: string)
    ensures Filter(items + [x], HasKey(key, j)) == Filter(items, HasKey(key, j)) + (if key(x) == j then [x] else [])
  {
    FilterAppend(items, [x], HasKey(key, j));
  }

  lemma FilterMissingKey<T>(items: seq<T>, key: T -> string, k: string)
    requires k !in Map(items, key)
    ensures Filter(items, HasKey(key, k)) == []
  {
  }

  lemma GroupsOfSnoc<T>(items: seq<T>, key: T -> string, x: T)
    ensures GroupsOf(items + [x], key) == Push(GroupsOf(items, key), key(x), x)
  {
    var k := key(x);
    var g := GroupsOf(items, key);
    var h := GroupsOf(items + [x], key);
    var pg := Push(g, k, x);
    MapAppend(items, [x], key);
    assert Map([x], key) == [k];
    assert Map(items + [x], key) == Map(items, key) + [k];
    assert forall j :: j in h <==> j in pg;
    forall j | j in h ensures h[j] == pg[j] {
      FilterSnoc(items, key, x, j);
      if j == k && k !in g {
        FilterMissingKey(items, key, k);
      }
    }
  }

  lemma OrderOfSnoc<T>(items: seq<T>, key: T -> string, x: T)
    ensures OrderOf(items + [x], key) == if key(x) in OrderOf(items, key) then OrderOf(items, key) else OrderOf(items, key) + [key(x)]
  {
    MapAppend(items, [x], key);
    DedupSnoc(Map(items, key), key(x));
  }

  lemma SameKeys<T>(items: seq<T>, key: T -> string)
    ensures forall k :: k in GroupsOf(items, key) <==> k in OrderOf(items, key)
  {
  }

  /** Each push adds one item to the total. */
  lemma TotalSizeSnoc<T>(items: seq<T>, key: T -> string, x: T)
    ensures TotalSize(OrderOf(items + [x], key), GroupsOf(items + [x], key)) == TotalSize(OrderOf(items, key), GroupsOf(items, key)) + 1
  {
    GroupsOfSnoc(items, key, x);
    OrderOfSnoc(items, key, x);
    SameKeys(items, key);
    if key(x) in OrderOf(items, key) {
      TotalSizeGrow(OrderOf(items, key), GroupsOf(items, key), key(x), x);
    } else {
      TotalSizeNew(OrderOf(items, key), GroupsOf(items, key), key(x), x);
    }
  }

  /** The group sizes add up to the number of items. */
  lemma {:induction false} GroupsCoverItems<T>(items: seq<T>, key: T -> string)
    ensures TotalSize(OrderOf(items, key), GroupsOf(items, key)) == |items|
    decreases |items|
  {
    if items == [] {
      assert OrderOf(items, key) == [];
    } else {
      var init := items[..|items| - 1];
      assert items == init + [items[|items| - 1]];
      GroupsCoverItems(init, key);
      TotalSizeSnoc(init, key, items[|items| - 1]);
    }
  }

  /**
   * The keys of a grouping are exactly the keys met, each once; every item is in its key's
   * group, and every group member has that group's key.
   */
  lemma GroupsOfMembers<T>(items: seq<T>, key: T -> string)
    ensures NoDuplicates(OrderOf(items, key))
    ensures forall k :: k in GroupsOf(items, key) <==> k in OrderOf(items, key)
    ensures forall k :: k in OrderOf(items, key) <==> exists i :: 0 <= i < |items| && key(items[i]) == k
    ensures forall i :: 0 <= i < |items| ==> key(items[i]) in GroupsOf(items, key) && items[i] in GroupsOf(items, key)[key(items[i])]
    ensures forall k, x :: k in GroupsOf(items, key) && x in GroupsOf(items, key)[k] ==> key(x) == k
  {
    SameKeys(items, key);
    KeysMet(items, key);
    GroupsHoldItems(items, key);
    GroupsHaveKeys(items, key);
  }

  lemma KeysMet<T>(items: seq<T>, key: T -> string)
    ensures forall k :: k in OrderOf(items, key) <==> exists i :: 0 <= i < |items| && key(items[i]) == k
  {
    forall k | k in OrderOf(items, key) ensures exists i :: 0 <= i < |items| && key(items[i]) == k {
      var i :| 0 <= i < |items| && Map(items, key)[i] == k;
    }
    forall i | 0 <= i < |items| ensures key(items[i]) in OrderOf(items, key) {
      assert Map(items, key)[i] == key(items[i]);
    }
  }

  lemma GroupsHoldItems<T>(items: seq<T>, key: T -> string)
    ensures forall i :: 0 <= i < |items| ==> key(items[i]) in GroupsOf(items, key) && items[i] in GroupsOf(items, key)[key(items[i])]
  {
    var g := GroupsOf(items, key);
    forall m | 0 <= m < |items| ensures key(items[m]) in g && items[m] in g[key(items[m])] {
      assert Map(items, key)[m] == key(items[m]);
      assert HasKey(key, key(items[m]))(items[m]);
    }
  }

  lemma GroupsHaveKeys<T>(items: seq<T>, key: T -> string)
    ensures forall k, x :: k in GroupsOf(items, key) && x in GroupsOf(items, key)[k] ==> key(x) == k
  {
    var g := GroupsOf(items, key);
    forall k, x | k in g && x in g[k] ensures key(x) == k {
      var m :| 0 <= m < |g[k]| && g[k][m] == x;
      assert HasKey(key, k)(g[k][m]);
    }
  }

  /**
   * The grouping loop: it builds the reference grouping, with the keys in first-occurrence
   * order and each key's array holding that key's items in input order.
   */
  method GroupBy<T(==)>(items: seq<T>, key: T -> string) returns (groups: map<string, seq<T>>, order: seq<string>)
    ensures groups == GroupsOf(items, key)
    ensures order == OrderOf(items, key)
  {
    groups := map[];
    order := [];
    var i := 0;
    while i < |items|
      invariant 0 <= i <= |items|
      invariant groups == GroupsOf(items[..i], key) && order == OrderOf(items[..i], key)
    {
      var x := items[i];
      var k := key(x);
      TakeSnoc(items, i);
      GroupsOfSnoc(items[..i], key, x);
      OrderOfSnoc(items[..i], key, x);
      SameKeys(items[..i], key);
      if k !in groups {
        groups := groups[k := [x]];
        order := order + [k];
      } else {
        groups := groups[k := groups[k] + [x]];
      }
      i := i + 1;
    }
    assert items[..i] == items;
  }
}
