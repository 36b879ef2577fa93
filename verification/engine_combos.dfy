/**
 * Enumeration of candidate combinations. A combination is a strictly increasing list of
 * candidate positions; the enumeration is the depth-first walk of the engine's nested
 * `buildCombos`, which records every non-empty prefix, stops extending a combination once it
 * is long enough, and gives up once more than 2000 combinations have been recorded.
 */
module EngineCombos {

  const COMBO_CAP: nat := 2000

  /**
   * When a combination is long enough to stop extending. The engine tests
   * `current.length === maxItems` (ExactLength); AtLeastLength is the corrected `>=`, which
   * the model uses (see `ExactRuleOvershoots`).
   */
  datatype StopRule = ExactLength | AtLeastLength

  predicate Stops(rule: StopRule, len: nat, m: real) {
    match rule
    case ExactLength => len as real == m
    case AtLeastLength => len as real >= m
  }

  /** `buildCombos(start, cur)` over `n` candidates, appending what it records to `acc`. */
  function Enumerate(n: nat, m: real, rule: StopRule, start: nat, cur: seq<nat>, acc: seq<seq<nat>>): seq<seq<nat>>
    requires start <= n
    decreases n - start, 1
  {
    var acc1 := if |cur| > 0 then acc + [cur] else acc;
    if Stops(rule, |cur|, m) then acc1
    else EnumerateFrom(n, m, rule, start, cur, acc1)
  }

  /** The loop of `buildCombos(_, cur)` from index `i` on. */
  function EnumerateFrom(n: nat, m: real, rule: StopRule, i: nat, cur: seq<nat>, acc: seq<seq<nat>>): seq<seq<nat>>
    requires i <= n
    decreases n - i, 0
  {
    if i == n then acc
    else
      var acc1 := Enumerate(n, m, rule, i + 1, cur + [i], acc);
      if |acc1| > COMBO_CAP then acc1
      else EnumerateFrom(n, m, rule, i + 1, cur, acc1)
  }

  predicate Increasing(c: seq<nat>) {
    forall i, j :: 0 <= i < j < |c| ==> c[i] < c[j]
  }

  predicate AllBelow(c: seq<nat>, n: nat) {
    forall i :: 0 <= i < |c| ==> c[i] < n
  }

  /** `c` is `cur` followed by at least one more position, the next one at least `lo`. */
  predicate ExtendsFrom(c: seq<nat>, cur: seq<nat>, lo: nat) {
    |c| > |cur| && c[..|cur|] == cur && c[|cur|] >= lo
  }

  /** A recorded combination: non-empty, increasing, in range, and short enough that the
      enumeration went on to record it. */
  predicate WellShaped(c: seq<nat>, n: nat, m: real, rule: StopRule) {
    |c| >= 1 && Increasing(c) && AllBelow(c, n) && !Stops(rule, |c| - 1, m)
  }

  /** The enumeration only appends. */
  lemma {:induction false} EnumerateExtends(n: nat, m: real, rule: StopRule, start: nat, cur: seq<nat>, acc: seq<seq<nat>>)
    requires start <= n
    ensures var r := Enumerate(n, m, rule, start, cur, acc); |r| >= |acc| && r[..|acc|] == acc
    decreases n - start, 1
  {
    var acc1 := if |cur| > 0 then acc + [cur] else acc;
    if !Stops(rule, |cur|, m) {
      EnumerateFromExtends(n, m, rule, start, cur, acc1);
    }
  }

  lemma {:induction false} EnumerateFromExtends(n: nat, m: real, rule: StopRule, i: nat, cur: seq<nat>, acc: seq<seq<nat>>)
    requires i <= n
    ensures var r := EnumerateFrom(n, m, rule, i, cur, acc); |r| >= |acc| && r[..|acc|] == acc
    decreases n - i, 0
  {
    if i < n {
      var acc1 := Enumerate(n, m, rule, i + 1, cur + [i], acc);
      EnumerateExtends(n, m, rule, i + 1, cur + [i], acc);
      if |acc1| <= COMBO_CAP {
        EnumerateFromExtends(n, m, rule, i + 1, cur, acc1);
        var r := EnumerateFrom(n, m, rule, i + 1, cur, acc1);
        assert r[..|acc|] == r[..|acc1|][..|acc|];
      }
    }
  }

  /** Every combination recorded by `buildCombos(start, cur)` is well shaped and extends `cur`
      (by a position at least `start` when it is longer). */
  lemma {:induction false} EnumerateShape(n: nat, m: real, rule: StopRule, start: nat, cur: seq<nat>, acc: seq<seq<nat>>)
    requires start <= n && Increasing(cur) && AllBelow(cur, start)
    requires cur == [] || !Stops(rule, |cur| - 1, m)
    ensures var r := Enumerate(n, m, rule, start, cur, acc);
      forall k :: |acc| <= k < |r| ==>
        WellShaped(r[k], n, m, rule) && |r[k]| >= |cur| && r[k][..|cur|] == cur
        && (|r[k]| > |cur| ==> r[k][|cur|] >= start)
    decreases n - start, 1
  {
    var acc1 := if |cur| > 0 then acc + [cur] else acc;
    EnumerateExtends(n, m, rule, start, cur, acc);
    if !Stops(rule, |cur|, m) {
      EnumerateFromShape(n, m, rule, start, cur, acc1);
      EnumerateFromExtends(n, m, rule, start, cur, acc1);
      var r := EnumerateFrom(n, m, rule, start, cur, acc1);
      forall k | |acc| <= k < |r|
        ensures WellShaped(r[k], n, m, rule) && |r[k]| >= |cur| && r[k][..|cur|] == cur
          && (|r[k]| > |cur| ==> r[k][|cur|] >= start)
      {
        if k < |acc1| {
          assert r[k] == acc1[k] == cur;
        }
      }
    }
  }

  lemma {:induction false} EnumerateFromShape(n: nat, m: real, rule: StopRule, i: nat, cur: seq<nat>, acc: seq<seq<nat>>)
    requires i <= n && Increasing(cur) && AllBelow(cur, i)
    requires !Stops(rule, |cur|, m)
    ensures var r := EnumerateFrom(n, m, rule, i, cur, acc);
      forall k :: |acc| <= k < |r| ==> WellShaped(r[k], n, m, rule) && ExtendsFrom(r[k], cur, i)
    decreases n - i, 0
  {
    if i < n {
      var next := cur + [i];
      var acc1 := Enumerate(n, m, rule, i + 1, next, acc);
      EnumerateShape(n, m, rule, i + 1, next, acc);
      EnumerateExtends(n, m, rule, i + 1, next, acc);
      forall k | |acc| <= k < |acc1| ensures WellShaped(acc1[k], n, m, rule) && ExtendsFrom(acc1[k], cur, i) {
        ChildExtends(acc1[k], cur, i);
      }
      if |acc1| <= COMBO_CAP {
        EnumerateFromShape(n, m, rule, i + 1, cur, acc1);
        EnumerateFromExtends(n, m, rule, i + 1, cur, acc1);
        var r := EnumerateFrom(n, m, rule, i + 1, cur, acc1);
        forall k | |acc| <= k < |r| ensures WellShaped(r[k], n, m, rule) && ExtendsFrom(r[k], cur, i) {
          if k < |acc1| {
            assert r[k] == r[..|acc1|][k] == acc1[k];
          }
        }
      }
    }
  }

  /** A combination extending `cur + [i]` extends `cur` with `i` next. */
  lemma ChildExtends(c: seq<nat>, cur: seq<nat>, i: nat)
    requires |c| >= |cur| + 1 && c[..|cur| + 1] == cur + [i]
    ensures c[..|cur|] == cur && c[|cur|] == i
  {
    assert c[..|cur|] == c[..|cur| + 1][..|cur|];
    assert c[|cur|] == c[..|cur| + 1][|cur|];
  }

  /** No combination is recorded twice by one call of `buildCombos`. */
  lemma {:induction false} EnumerateDistinct(n: nat, m: real, rule: StopRule, start: nat, cur: seq<nat>, acc: seq<seq<nat>>)
    requires start <= n && Increasing(cur) && AllBelow(cur, start)
    requires cur == [] || !Stops(rule, |cur| - 1, m)
    ensures var r := Enumerate(n, m, rule, start, cur, acc);
      forall k, l :: |acc| <= k < l < |r| ==> r[k] != r[l]
    decreases n - start, 1
  {
    var acc1 := if |cur| > 0 then acc + [cur] else acc;
    EnumerateExtends(n, m, rule, start, cur, acc);
    if !Stops(rule, |cur|, m) {
      EnumerateFromDistinct(n, m, rule, start, cur, acc1);
      EnumerateFromShape(n, m, rule, start, cur, acc1);
      EnumerateFromExtends(n, m, rule, start, cur, acc1);
      var r := EnumerateFrom(n, m, rule, start, cur, acc1);
      forall k, l | |acc| <= k < l < |r| ensures r[k] != r[l] {
        if k < |acc1| {
          assert r[k] == cur && |r[l]| > |cur|;
        }
      }
    }
  }

  lemma {:induction false} EnumerateFromDistinct(n: nat, m: real, rule: StopRule, i: nat, cur: seq<nat>, acc: seq<seq<nat>>)
    requires i <= n && Increasing(cur) && AllBelow(cur, i)
    requires !Stops(rule, |cur|, m)
    ensures var r := EnumerateFrom(n, m, rule, i, cur, acc);
      forall k, l :: |acc| <= k < l < |r| ==> r[k] != r[l]
    decreases n - i, 0
  {
    if i < n {
      var next := cur + [i];
      var acc1 := Enumerate(n, m, rule, i + 1, next, acc);
      EnumerateDistinct(n, m, rule, i + 1, next, acc);
      EnumerateShape(n, m, rule, i + 1, next, acc);
      EnumerateExtends(n, m, rule, i + 1, next, acc);
      forall k | |acc| <= k < |acc1| ensures |acc1[k]| > |cur| && acc1[k][|cur|] == i {
        ChildExtends(acc1[k], cur, i);
      }
      if |acc1| <= COMBO_CAP {
        EnumerateFromDistinct(n, m, rule, i + 1, cur, acc1);
        EnumerateFromShape(n, m, rule, i + 1, cur, acc1);
        EnumerateFromExtends(n, m, rule, i + 1, cur, acc1);
        var r := EnumerateFrom(n, m, rule, i + 1, cur, acc1);
        forall k, l | |acc| <= k < l < |r| ensures r[k] != r[l] {
          if k < |acc1| {
            assert r[k] == r[..|acc1|][k] == acc1[k];
            if l < |acc1| {
              assert r[l] == r[..|acc1|][l] == acc1[l];
            } else {
              assert ExtendsFrom(r[l], cur, i + 1);
            }
          }
        }
      }
    }
  }

  /** With the corrected rule, a bound `d` on how many more positions a chain can take bounds
      how far past the cap the enumeration can overshoot. */
  lemma {:induction false} EnumerateCount(n: nat, m: real, start: nat, cur: seq<nat>, acc: seq<seq<nat>>, d: nat)
    requires start <= n && (|cur| + d) as real >= m
    ensures |Enumerate(n, m, AtLeastLength, start, cur, acc)| <= (if |acc| <= COMBO_CAP then COMBO_CAP else |acc|) + d + 1
    decreases n - start, 1
  {
    var acc1 := if |cur| > 0 then acc + [cur] else acc;
    if !Stops(AtLeastLength, |cur|, m) {
      EnumerateFromCount(n, m, start, cur, acc1, d - 1);
    }
  }

  lemma {:induction false} EnumerateFromCount(n: nat, m: real, i: nat, cur: seq<nat>, acc: seq<seq<nat>>, d: nat)
    requires i <= n && (|cur| + 1 + d) as real >= m
    ensures |EnumerateFrom(n, m, AtLeastLength, i, cur, acc)| <= (if |acc| <= COMBO_CAP then COMBO_CAP else |acc|) + d + 1
    decreases n - i, 0
  {
    if i < n {
      var acc1 := Enumerate(n, m, AtLeastLength, i + 1, cur + [i], acc);
      EnumerateCount(n, m, i + 1, cur + [i], acc, d);
      if |acc1| <= COMBO_CAP {
        EnumerateFromCount(n, m, i + 1, cur, acc1, d);
      }
    }
  }

  /** The two rules agree whenever `maxItems` is a whole number no shorter than `cur`. */
  lemma {:induction false} RulesAgree(n: nat, k: nat, start: nat, cur: seq<nat>, acc: seq<seq<nat>>)
    requires start <= n && |cur| <= k
    ensures Enumerate(n, k as real, ExactLength, start, cur, acc) == Enumerate(n, k as real, AtLeastLength, start, cur, acc)
    decreases n - start, 1
  {
    var acc1 := if |cur| > 0 then acc + [cur] else acc;
    if |cur| < k {
      RulesAgreeFrom(n, k, start, cur, acc1);
    }
  }

  lemma {:induction false} RulesAgreeFrom(n: nat, k: nat, i: nat, cur: seq<nat>, acc: seq<seq<nat>>)
    requires i <= n && |cur| < k
    ensures EnumerateFrom(n, k as real, ExactLength, i, cur, acc) == EnumerateFrom(n, k as real, AtLeastLength, i, cur, acc)
    decreases n - i, 0
  {
    if i < n {
      RulesAgree(n, k, i + 1, cur + [i], acc);
      var acc1 := Enumerate(n, k as real, AtLeastLength, i + 1, cur + [i], acc);
      if |acc1| <= COMBO_CAP {
        RulesAgreeFrom(n, k, i + 1, cur, acc1);
      }
    }
  }

  /** The positions `s, s + 1, ..., n - 1`. */
  function Range(s: nat, n: nat): (r: seq<nat>)
    requires s <= n
    ensures |r| == n - s
    ensures forall k :: 0 <= k < |r| ==> r[k] == s + k
  {
    seq(n - s, k requires 0 <= k < n - s => s + k)
  }

  /** When no length along the way stops it, the first descent records `cur` followed by every
      remaining position. */
  lemma {:induction false} ChainRecorded(n: nat, m: real, rule: StopRule, s: nat, cur: seq<nat>, acc: seq<seq<nat>>)
    requires s <= n && |cur| + (n - s) >= 1
    requires forall len: nat :: |cur| <= len < |cur| + (n - s) ==> !Stops(rule, len, m)
    ensures cur + Range(s, n) in Enumerate(n, m, rule, s, cur, acc)
    decreases n - s
  {
    var acc1 := if |cur| > 0 then acc + [cur] else acc;
    if s == n {
      assert cur + Range(s, n) == cur;
      if !Stops(rule, |cur|, m) {
        assert Enumerate(n, m, rule, s, cur, acc) == acc1;
      }
      assert acc1[|acc1| - 1] == cur;
    } else {
      assert !Stops(rule, |cur|, m);
      var next := cur + [s];
      ChainRecorded(n, m, rule, s + 1, next, acc1);
      assert next + Range(s + 1, n) == cur + Range(s, n);
      var child := Enumerate(n, m, rule, s + 1, next, acc1);
      if |child| <= COMBO_CAP {
        EnumerateFromExtends(n, m, rule, s + 1, cur, child);
        var r := EnumerateFrom(n, m, rule, s + 1, cur, child);
        var w :| 0 <= w < |child| && child[w] == cur + Range(s, n);
        assert r[..|child|][w] == r[w];
      }
    }
  }

  /** No length from `|cur|` up to just before `len` stops the descent. */
  predicate GoesOn(rule: StopRule, m: real, from: nat, to: nat) {
    forall len: nat :: from <= len < to ==> !Stops(rule, len, m)
  }

  /**
   * Completeness of `buildCombos(start, cur)`: unless the cap cut it short, it records every
   * increasing combination in range that extends `cur` (by positions from `start` on) and that
   * no stop cuts off on the way.
   */
  lemma {:induction false} EnumerateComplete(n: nat, m: real, rule: StopRule, start: nat, cur: seq<nat>, acc: seq<seq<nat>>, c: seq<nat>)
    requires start <= n && |c| >= 1 && Increasing(c) && AllBelow(c, n)
    requires |c| >= |cur| && c[..|cur|] == cur && (|c| > |cur| ==> c[|cur|] >= start)
    requires GoesOn(rule, m, |cur|, |c|)
    requires |Enumerate(n, m, rule, start, cur, acc)| <= COMBO_CAP
    ensures c in Enumerate(n, m, rule, start, cur, acc)
    decreases n - start, 1
  {
    var acc1 := if |cur| > 0 then acc + [cur] else acc;
    EnumerateExtends(n, m, rule, start, cur, acc);
    var r := Enumerate(n, m, rule, start, cur, acc);
    if |c| == |cur| {
      assert c == cur;
      assert acc1[|acc1| - 1] == c;
      if !Stops(rule, |cur|, m) {
        EnumerateFromExtends(n, m, rule, start, cur, acc1);
        assert r[..|acc1|][|acc1| - 1] == c;
      }
    } else {
      assert !Stops(rule, |cur|, m);
      EnumerateFromComplete(n, m, rule, start, cur, acc1, c);
    }
  }

  lemma {:induction false} EnumerateFromComplete(n: nat, m: real, rule: StopRule, i: nat, cur: seq<nat>, acc: seq<seq<nat>>, c: seq<nat>)
    requires i <= n && |c| >= 1 && Increasing(c) && AllBelow(c, n)
    requires |c| > |cur| && c[..|cur|] == cur && c[|cur|] >= i
    requires GoesOn(rule, m, |cur|, |c|)
    requires |EnumerateFrom(n, m, rule, i, cur, acc)| <= COMBO_CAP
    ensures c in EnumerateFrom(n, m, rule, i, cur, acc)
    decreases n - i, 0
  {
    var next := cur + [i];
    var acc1 := Enumerate(n, m, rule, i + 1, next, acc);
    var r := EnumerateFrom(n, m, rule, i, cur, acc);
    assert r == (if |acc1| > COMBO_CAP then acc1 else EnumerateFrom(n, m, rule, i + 1, cur, acc1));
    EnumerateFromExtends(n, m, rule, i + 1, cur, acc1);
    assert |acc1| <= |r|;
    if c[|cur|] == i {
      assert c[..|next|] == next by {
        assert c[..|cur| + 1] == c[..|cur|] + [c[|cur|]];
      }
      assert |c| > |next| ==> c[|next|] >= i + 1;
      EnumerateComplete(n, m, rule, i + 1, next, acc, c);
      var w :| 0 <= w < |acc1| && acc1[w] == c;
      assert r[..|acc1|][w] == r[w];
    } else {
      EnumerateFromComplete(n, m, rule, i + 1, cur, acc1, c);
    }
  }

  /**
   * As written, a `maxItems` that is not a whole number never equals a length, so nothing
   * stops the descent: with seven candidates and `maxItems` 5.5 the engine records all seven
   * together, past both `maxItems` and the hard limit of six.
   */
  lemma ExactRuleOvershoots()
    ensures Range(0, 7) in Enumerate(7, 5.5, ExactLength, 0, [], [])
    ensures |Range(0, 7)| == 7
  {
    forall len: nat | 0 <= len < 7 ensures !Stops(ExactLength, len, 5.5) {
    }
    assert [] + Range(0, 7) == Range(0, 7);
    ChainRecorded(7, 5.5, ExactLength, 0, [], []);
  }

  /**
   * The combinations of `n` candidates with `maxItems` m (between 1 and 6): all distinct,
   * each an increasing list of positions below `n` holding at least one and fewer than m + 1
   * of them, at most 2006 in all.
   */
  function Combos(n: nat, m: real): (r: seq<seq<nat>>)
    requires 1.0 <= m <= 6.0
    ensures |r| <= COMBO_CAP + 6
    ensures forall k :: 0 <= k < |r| ==> |r[k]| >= 1 && Increasing(r[k]) && AllBelow(r[k], n) && (|r[k]| - 1) as real < m
    ensures forall k, l :: 0 <= k < l < |r| ==> r[k] != r[l]
    ensures n > 0 ==> |r| > 0 && r[0] == [0]
  {
    EnumerateShape(n, m, AtLeastLength, 0, [], []);
    EnumerateDistinct(n, m, AtLeastLength, 0, [], []);
    EnumerateFromCount(n, m, 0, [], [], 5);
    FirstCombo(n, m);
    Enumerate(n, m, AtLeastLength, 0, [], [])
  }

  /**
   * Every increasing combination of positions below `n` with at least one and fewer than
   * m + 1 of them is listed, unless the 2000 cap cut the enumeration short.
   */
  lemma CombosComplete(n: nat, m: real, c: seq<nat>)
    requires 1.0 <= m <= 6.0 && |Combos(n, m)| <= COMBO_CAP
    requires |c| >= 1 && Increasing(c) && AllBelow(c, n) && (|c| - 1) as real < m
    ensures c in Combos(n, m)
  {
    assert GoesOn(AtLeastLength, m, 0, |c|);
    EnumerateComplete(n, m, AtLeastLength, 0, [], [], c);
  }

  function Pow2(k: nat): (r: nat)
    ensures r >= 1
  {
    if k == 0 then 1 else 2 * Pow2(k - 1)
  }

  /** `buildCombos(start, cur)` records at most `cur` itself and one combination per non-empty
      set of later positions. */
  lemma {:induction false} EnumerateSize(n: nat, m: real, rule: StopRule, start: nat, cur: seq<nat>, acc: seq<seq<nat>>)
    requires start <= n
    ensures |Enumerate(n, m, rule, start, cur, acc)| <= |acc| + (if |cur| > 0 then 1 else 0) + Pow2(n - start) - 1
    decreases n - start, 1
  {
    var acc1 := if |cur| > 0 then acc + [cur] else acc;
    if !Stops(rule, |cur|, m) {
      EnumerateFromSize(n, m, rule, start, cur, acc1);
    }
  }

  lemma {:induction false} EnumerateFromSize(n: nat, m: real, rule: StopRule, i: nat, cur: seq<nat>, acc: seq<seq<nat>>)
    requires i <= n
    ensures |EnumerateFrom(n, m, rule, i, cur, acc)| <= |acc| + Pow2(n - i) - 1
    decreases n - i, 0
  {
    if i < n {
      var acc1 := Enumerate(n, m, rule, i + 1, cur + [i], acc);
      EnumerateSize(n, m, rule, i + 1, cur + [i], acc);
      assert Pow2(n - i) == 2 * Pow2(n - (i + 1));
      if |acc1| <= COMBO_CAP {
        EnumerateFromSize(n, m, rule, i + 1, cur, acc1);
      }
    }
  }

  lemma Pow2Mono(a: nat, b: nat)
    requires a <= b
    ensures Pow2(a) <= Pow2(b)
    decreases b
  {
    if a < b {
      Pow2Mono(a, b - 1);
    }
  }

  /** With at most ten candidates there are at most 1023 combinations, so the cap never cuts. */
  lemma SmallMenuUnderCap(n: nat, m: real)
    requires 1.0 <= m <= 6.0 && n <= 10
    ensures |Combos(n, m)| <= COMBO_CAP
  {
    EnumerateSize(n, m, AtLeastLength, 0, [], []);
    Pow2Mono(n, 10);
    assert Pow2(10) == 1024;
  }

  /** With at most ten candidates the combinations are exactly the increasing position lists of
      allowed length. */
  lemma SmallMenuCombos(n: nat, m: real, c: seq<nat>)
    requires 1.0 <= m <= 6.0 && n <= 10
    ensures c in Combos(n, m) <==> |c| >= 1 && Increasing(c) && AllBelow(c, n) && (|c| - 1) as real < m
  {
    SmallMenuUnderCap(n, m);
    if |c| >= 1 && Increasing(c) && AllBelow(c, n) && (|c| - 1) as real < m {
      CombosComplete(n, m, c);
    }
  }

  /** The first combination recorded is the best-ranked candidate alone. */
  lemma FirstCombo(n: nat, m: real)
    requires 1.0 <= m
    ensures var r := Enumerate(n, m, AtLeastLength, 0, [], []); n > 0 ==> |r| > 0 && r[0] == [0]
  {
    if n > 0 {
      var child := Enumerate(n, m, AtLeastLength, 1, [0], []);
      assert [] + [[0]] == [[0]];
      if !Stops(AtLeastLength, 1, m) {
        assert child == EnumerateFrom(n, m, AtLeastLength, 1, [0], [[0]]);
        EnumerateFromExtends(n, m, AtLeastLength, 1, [0], [[0]]);
        assert child[0] == child[..1][0];
      }
      assert child[0] == [0];
      var top := EnumerateFrom(n, m, AtLeastLength, 0, [], []);
      assert [] + [0] == [0];
      assert Enumerate(n, m, AtLeastLength, 0, [], []) == top;
      if |child| <= COMBO_CAP {
        assert top == EnumerateFrom(n, m, AtLeastLength, 1, [], child);
        EnumerateFromExtends(n, m, AtLeastLength, 1, [], child);
        assert top[0] == top[..|child|][0];
      }
    }
  }

  /** For a whole-number `maxItems` the corrected rule records exactly what the written one does. */
  lemma CombosAsWritten(n: nat, k: nat)
    requires 1 <= k <= 6
    ensures Combos(n, k as real) == Enumerate(n, k as real, ExactLength, 0, [], [])
  {
    RulesAgree(n, k, 0, [], []);
  }

  /**
   * The recursive `buildCombos` closure: `combos` is the array it pushes to, `count` the
   * number of candidates and `maxItems` the normalised limit.
   */
  class ComboBuilder {
    const count: nat
    const maxItems: real
    var combos: seq<seq<nat>>

    constructor(count: nat, maxItems: real)
      ensures this.count == count && this.maxItems == maxItems && combos == []
    {
      this.count := count;
      this.maxItems := maxItems;
      combos := [];
    }

    method Build(start: nat, current: seq<nat>)
      requires start <= count
      modifies this
      ensures combos == Enumerate(count, maxItems, AtLeastLength, start, current, old(combos))
      decreases count - start
    {
      if |current| > 0 {
        combos := combos + [current];
      }
      if |current| as real >= maxItems {
        return;
      }
      var i := start;
      while i < count
        invariant start <= i <= count
        invariant EnumerateFrom(count, maxItems, AtLeastLength, i, current, combos)
          == Enumerate(count, maxItems, AtLeastLength, start, current, old(combos))
        decreases count - i
      {
        Build(i + 1, current + [i]);
        if |combos| > COMBO_CAP {
          return;
        }
        i := i + 1;
      }
    }
  }
}
