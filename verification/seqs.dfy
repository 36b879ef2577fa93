/** Order-preserving list operations shared by the modules (Array.prototype.filter and friends). */
module Seqs {

  /** `a` can be obtained from `b` by deleting elements, keeping the order of the rest. */
  predicate SubseqOf<T(==)>(a: seq<T>, b: seq<T>)
    decreases |b|
  {
    a == [] || (b != [] && ((a[0] == b[0] && SubseqOf(a[1..], b[1..])) || SubseqOf(a, b[1..])))
  }

  /** No element occurs twice. */
  predicate NoDuplicates<T(==)>(s: seq<T>) {
    forall i, j :: 0 <= i < j < |s| ==> s[i] != s[j]
  }

  /** Array.prototype.filter: the elements satisfying `p`, in their original order. */
  function Filter<T(==)>(s: seq<T>, p: T -> bool): (r: seq<T>)
    ensures |r| <= |s|
    ensures forall i :: 0 <= i < |r| ==> r[i] in s && p(r[i])
    ensures forall i :: 0 <= i < |s| && p(s[i]) ==> s[i] in r
    ensures SubseqOf(r, s)
  {
    if s == [] then []
    else if p(s[0]) then [s[0]] + Filter(s[1..], p)
    else Filter(s[1..], p)
  }

  /** Filtering distributes over concatenation. */
  lemma {:induction false} FilterAppend<T>(a: seq<T>, b: seq<T>, p: T -> bool)
    ensures Filter(a + b, p) == Filter(a, p) + Filter(b, p)
  {
    if a == [] {
      assert a + b == b;
    } else {
      assert (a + b)[0] == a[0];
      assert (a + b)[1..] == a[1..] + b;
      FilterAppend(a[1..], b, p);
    }
  }

  /** Filtering a sequence whose elements all pass leaves it unchanged. */
  lemma {:induction false} FilterAll<T>(s: seq<T>, p: T -> bool)
    requires forall i :: 0 <= i < |s| ==> p(s[i])
    ensures Filter(s, p) == s
  {
    if s != [] {
      FilterAll(s[1..], p);
    }
  }

  /** Filtering a sequence none of whose elements pass gives the empty sequence. */
  lemma FilterNone<T>(s: seq<T>, p: T -> bool)
    requires forall i :: 0 <= i < |s| ==> !p(s[i])
    ensures Filter(s, p) == []
  {
  }

  /** The position of the first occurrence of `x` in `s`. */
  function FirstIndex<T(==)>(s: seq<T>, x: T): (i: nat)
    requires x in s
    ensures i < |s| && s[i] == x
    ensures forall j :: 0 <= j < i ==> s[j] != x
  {
    if s[0] == x then 0 else 1 + FirstIndex(s[1..], x)
  }

  /** Dropping the last element does not move the first occurrence of what remains. */
  lemma FirstIndexInit<T>(s: seq<T>)
    requires s != []
    ensures forall y :: y in s[..|s| - 1] ==> FirstIndex(s, y) == FirstIndex(s[..|s| - 1], y)
  {
    var init := s[..|s| - 1];
    forall y | y in init ensures FirstIndex(s, y) == FirstIndex(init, y) {
      FirstIndexPrefix(s, |s| - 1, y);
    }
  }

  lemma {:induction false} FirstIndexPrefix<T>(s: seq<T>, n: nat, y: T)
    requires n <= |s| && y in s[..n]
    ensures FirstIndex(s, y) == FirstIndex(s[..n], y)
    decreases n
  {
    var p := s[..n];
    assert p[0] == s[0];
    if s[0] != y {
      assert p[1..] == s[1..][..n - 1];
      assert y in p[1..];
      FirstIndexPrefix(s[1..], n - 1, y);
    }
  }

  /**
   * `Array.from(new Set(s))`: every value of `s` exactly once, ordered by where it
   * first occurs in `s`.
   */
  function Dedup<T(==,!new)>(s: seq<T>): (r: seq<T>)
    ensures NoDuplicates(r)
    ensures forall x :: x in r <==> x in s
    ensures forall i, j :: 0 <= i < j < |r| ==> FirstIndex(s, r[i]) < FirstIndex(s, r[j])
    decreases |s|
  {
    if s == [] then []
    else
      var init := s[..|s| - 1];
      var x := s[|s| - 1];
      var d := Dedup(init);
      FirstIndexInit(s);
      if x in d then d else d + [x]
  }

  /** Array.prototype.map. */
  function Map<T, U>(s: seq<T>, f: T -> U): (r: seq<U>)
    ensures |r| == |s|
    ensures forall i :: 0 <= i < |s| ==> r[i] == f(s[i])
  {
    seq(|s|, i requires 0 <= i < |s| => f(s[i]))
  }

  /** Mapping distributes over concatenation. */
  lemma MapAppend<T, U>(a: seq<T>, b: seq<T>, f: T -> U)
    ensures Map(a + b, f) == Map(a, f) + Map(b, f)
  {
  }

  lemma MapCons<T, U>(a: T, t: seq<T>, f: T -> U)
    ensures Map([a] + t, f) == [f(a)] + Map(t, f)
  {
  }

  /** Sequences that differ at most in their first element, where `f` agrees, map alike. */
  lemma MapSameHead<T, U>(a: seq<T>, b: seq<T>, f: T -> U)
    requires |a| == |b| > 0 && a[1..] == b[1..] && f(a[0]) == f(b[0])
    ensures Map(a, f) == Map(b, f)
  {
    forall i | 0 <= i < |a| ensures Map(a, f)[i] == Map(b, f)[i] {
      if i > 0 {
        assert a[i] == a[1..][i - 1] && b[i] == b[1..][i - 1];
      }
    }
  }

  /** Array.prototype.slice(0, n). */
  function Take<T>(s: seq<T>, n: nat): (r: seq<T>)
    ensures |r| == if |s| <= n then |s| else n
    ensures r == s[..|r|]
  {
    if |s| <= n then s else s[..n]
  }

  /** Appending to a sequence without duplicates a value it lacks keeps it duplicate-free. */
  lemma NoDuplicatesSnoc<T>(s: seq<T>, x: T)
    requires NoDuplicates(s) && x !in s
    ensures NoDuplicates(s + [x])
  {
  }
}
