/**
 * String helpers the app uses through JavaScript built-ins: `toLowerCase`, `trim`,
 * `includes` (substring test), `split` on one character and `join`.
 * Lower-casing is ASCII-only; `trim` removes the JavaScript white-space and line-terminator set.
 */
module Text {
  import opened Seqs

  predicate IsUpperAscii(c: char) {
    'A' <= c <= 'Z'
  }

  function LowerChar(c: char): char {
    if 'A' <= c <= 'Z' then (c as int + 32) as char else c
  }

  /** String.prototype.toLowerCase, restricted to ASCII letters. */
  function Lower(s: string): (r: string)
    ensures |r| == |s|
    ensures forall i :: 0 <= i < |r| ==> !IsUpperAscii(r[i])
  {
    seq(|s|, i requires 0 <= i < |s| => LowerChar(s[i]))
  }

  /** A string with no upper-case ASCII letter. */
  predicate IsLower(s: string) {
    forall i :: 0 <= i < |s| ==> !IsUpperAscii(s[i])
  }

  /** Lower-casing leaves an already lower-case string alone, so it is idempotent. */
  lemma LowerOfLower(s: string)
    requires IsLower(s)
    ensures Lower(s) == s
  {
  }

  /** The white-space and line-terminator characters `String.prototype.trim` removes. */
  predicate IsSpace(c: char) {
    || c == ' ' || c == '\t' || c == '\n' || c == '\r' || c == '\U{B}' || c == '\U{C}'
    || c == '\U{A0}' || c == '\U{1680}' || ('\U{2000}' <= c <= '\U{200A}')
    || c == '\U{2028}' || c == '\U{2029}' || c == '\U{202F}' || c == '\U{205F}'
    || c == '\U{3000}' || c == '\U{FEFF}'
  }

  predicate AllSpace(s: string) {
    forall i :: 0 <= i < |s| ==> IsSpace(s[i])
  }

  /** String.prototype.trimStart: the suffix left after dropping all leading white space. */
  function TrimStart(s: string): (r: string)
    ensures |r| <= |s| && r == s[|s| - |r|..]
    ensures forall i :: 0 <= i < |s| - |r| ==> IsSpace(s[i])
    ensures r == [] || !IsSpace(r[0])
  {
    if s != [] && IsSpace(s[0]) then TrimStart(s[1..]) else s
  }

  /** String.prototype.trimEnd: the prefix left after dropping all trailing white space. */
  function TrimEnd(s: string): (r: string)
    ensures |r| <= |s| && r == s[..|r|]
    ensures forall i :: |r| <= i < |s| ==> IsSpace(s[i])
    ensures r == [] || !IsSpace(r[|r| - 1])
  {
    if s != [] && IsSpace(s[|s| - 1]) then TrimEnd(s[..|s| - 1]) else s
  }

  /** A string with no white space at either end. */
  predicate IsTrimmed(s: string) {
    s == [] || (!IsSpace(s[0]) && !IsSpace(s[|s| - 1]))
  }

  /** `t` occurs in `s` starting at position `i`. */
  predicate OccursAt(s: string, t: string, i: int) {
    0 <= i && i + |t| <= |s| && s[i..i + |t|] == t
  }

  /** A character missing from a string is missing from each of its substrings. */
  lemma OccursAtLacks(s: string, t: string, i: int, c: char)
    requires OccursAt(s, t, i) && c !in s
    ensures c !in t
  {
    forall q | 0 <= q < |t| ensures t[q] != c {
      assert t[q] == s[i + q];
    }
  }

  /** `r` is `s` less some white space at its front and some at its back. */
  ghost predicate InnerOf(s: string, r: string) {
    exists k :: 0 <= k <= |s| - |r| && OccursAt(s, r, k) && AllSpace(s[..k]) && AllSpace(s[k + |r|..])
  }

  /**
   * String.prototype.trim: `s` with only white space removed at either end, and all of it, so
   * the result has no white space at either end.
   */
  function Trim(s: string): (r: string)
    ensures IsTrimmed(r)
    ensures InnerOf(s, r)
  {
    TrimFacts(s);
    TrimEnd(TrimStart(s))
  }

  lemma TrimFacts(s: string)
    ensures IsTrimmed(TrimEnd(TrimStart(s))) && InnerOf(s, TrimEnd(TrimStart(s)))
  {
    TrimWitness(s, TrimStart(s), TrimEnd(TrimStart(s)));
  }

  /** Dropping white space from the front and then from the back leaves an inner substring. */
  lemma TrimWitness(s: string, t: string, r: string)
    requires |t| <= |s| && t == s[|s| - |t|..] && forall i :: 0 <= i < |s| - |t| ==> IsSpace(s[i])
    requires |r| <= |t| && r == t[..|r|] && forall i :: |r| <= i < |t| ==> IsSpace(t[i])
    requires (t == [] || !IsSpace(t[0])) && (r == [] || !IsSpace(r[|r| - 1]))
    ensures IsTrimmed(r)
    ensures InnerOf(s, r)
  {
    if r != [] {
      assert r[0] == t[0];
    }
    var k := |s| - |t|;
    assert AllSpace(s[..k]);
    var tail := s[k + |r|..];
    assert AllSpace(tail) by {
      forall i | 0 <= i < |tail| ensures IsSpace(tail[i]) {
        assert tail[i] == t[|r| + i];
      }
    }
    assert s[k..k + |r|] == r;
    assert OccursAt(s, r, k);
  }

  /** Trimming a trimmed string changes nothing, so `trim` is idempotent. */
  lemma TrimTrimmed(s: string)
    requires IsTrimmed(s)
    ensures Trim(s) == s
  {
  }

  /** Lower-casing touches no white space, so a trimmed string stays trimmed. */
  lemma LowerKeepsTrimmed(s: string)
    requires IsTrimmed(s)
    ensures IsTrimmed(Lower(s))
  {
    if s != [] {
      assert Lower(s)[0] == LowerChar(s[0]);
      assert Lower(s)[|s| - 1] == LowerChar(s[|s| - 1]);
    }
  }

  /** Leading white space does not survive `trim`. */
  lemma {:induction false} TrimLeadingSpace(c: char, s: string)
    requires IsSpace(c)
    ensures Trim([c] + s) == Trim(s)
  {
    TrimStartSpace(c, s);
  }

  lemma TrimStartSpace(c: char, s: string)
    requires IsSpace(c)
    ensures TrimStart([c] + s) == TrimStart(s)
  {
    assert ([c] + s)[1..] == s;
  }

  predicate StartsWith(s: string, t: string) {
    |t| <= |s| && s[..|t|] == t
  }

  /** String.prototype.includes: `t` occurs in `s` (the empty string occurs everywhere). */
  predicate Contains(s: string, t: string)
    decreases |s|
  {
    StartsWith(s, t) || (s != [] && Contains(s[1..], t))
  }

  /** The recursive substring test agrees with the positional definition, in both directions. */
  lemma {:induction false} ContainsIff(s: string, t: string)
    ensures Contains(s, t) <==> exists i :: OccursAt(s, t, i)
  {
    if StartsWith(s, t) {
      assert OccursAt(s, t, 0);
    } else if s == [] {
    } else {
      ContainsIff(s[1..], t);
      if Contains(s[1..], t) {
        var i :| OccursAt(s[1..], t, i);
        assert s[i + 1..i + 1 + |t|] == s[1..][i..i + |t|];
        assert OccursAt(s, t, i + 1);
      }
      if i :| OccursAt(s, t, i) {
        assert i != 0;
        assert s[1..][i - 1..i - 1 + |t|] == s[i..i + |t|];
        assert OccursAt(s[1..], t, i - 1);
      }
    }
  }

  /** Array.prototype.join with separator `d`. */
  function Join(xs: seq<string>, d: string): string
    decreases |xs|
  {
    if |xs| == 0 then "" else if |xs| == 1 then xs[0] else xs[0] + d + Join(xs[1..], d)
  }

  lemma JoinConsFirst(a: string, xs: seq<string>, d: string)
    requires |xs| >= 1
    ensures Join([a + xs[0]] + xs[1..], d) == a + Join(xs, d)
  {
    var ys := [a + xs[0]] + xs[1..];
    assert ys[1..] == xs[1..];
  }

  /**
   * String.prototype.split with a one-character separator: the pieces between separators.
   * There is always at least one piece, no piece contains the separator, and joining the
   * pieces with the separator gives back the input.
   */
  function Split(s: string, sep: char): (r: seq<string>)
    ensures |r| >= 1
    ensures forall k :: 0 <= k < |r| ==> sep !in r[k]
    ensures Join(r, [sep]) == s
    decreases |s|
  {
    if s == [] then [""]
    else if s[0] == sep then
      var rest := Split(s[1..], sep);
      assert Join([""] + rest, [sep]) == [sep] + Join(rest, [sep]) by {
        assert ([""] + rest)[1..] == rest;
      }
      assert s == [sep] + s[1..];
      [""] + rest
    else
      var rest := Split(s[1..], sep);
      JoinConsFirst([s[0]], rest, [sep]);
      assert s == [s[0]] + s[1..];
      [[s[0]] + rest[0]] + rest[1..]
  }

  lemma {:induction false} SplitNoSeparator(a: string, sep: char)
    requires sep !in a
    ensures Split(a, sep) == [a]
    decreases |a|
  {
    if a != [] {
      SplitNoSeparator(a[1..], sep);
      assert a == [a[0]] + a[1..];
    }
  }

  lemma {:induction false} SplitAfterPiece(a: string, sep: char, b: string)
    requires sep !in a
    ensures Split(a + [sep] + b, sep) == [a] + Split(b, sep)
    decreases |a|
  {
    var s := a + [sep] + b;
    if a == [] {
      assert s[0] == sep && s[1..] == b;
    } else {
      assert s[0] == a[0] && s[1..] == a[1..] + [sep] + b;
      SplitAfterPiece(a[1..], sep, b);
      assert [a[0]] + a[1..] == a;
    }
  }

  /** Splitting a join of separator-free pieces gives the pieces back. */
  lemma {:induction false} SplitJoin(xs: seq<string>, sep: char)
    requires |xs| >= 1
    requires forall k :: 0 <= k < |xs| ==> sep !in xs[k]
    ensures Split(Join(xs, [sep]), sep) == xs
    decreases |xs|
  {
    if |xs| == 1 {
      SplitNoSeparator(xs[0], sep);
    } else {
      SplitJoin(xs[1..], sep);
      SplitAfterPiece(xs[0], sep, Join(xs[1..], [sep]));
      assert [xs[0]] + xs[1..] == xs;
    }
  }

  /** Every piece of `Split(s, sep)` trimmed. */
  function TrimmedPieces(s: string, sep: char): seq<string> {
    Map(Split(s, sep), Trim)
  }

  /** The trimmed pieces are trimmed and still lack the separator. */
  lemma TrimmedPiecesShape(s: string, sep: char)
    ensures forall x | x in TrimmedPieces(s, sep) :: IsTrimmed(x) && sep !in x
  {
    var parts := Split(s, sep);
    var pieces := TrimmedPieces(s, sep);
    forall x | x in pieces ensures IsTrimmed(x) && sep !in x {
      var k :| 0 <= k < |pieces| && pieces[k] == x;
      TrimLacks(parts[k], sep);
    }
  }

  /** Trimming text free of a character keeps it free of it. */
  lemma TrimLacks(p: string, sep: char)
    requires sep !in p
    ensures IsTrimmed(Trim(p)) && sep !in Trim(p)
  {
    InnerOfLacks(p, Trim(p), sep);
  }

  lemma InnerOfLacks(s: string, r: string, c: char)
    requires InnerOf(s, r) && c !in s
    ensures c !in r
  {
    var k :| 0 <= k <= |s| - |r| && OccursAt(s, r, k) && AllSpace(s[..k]) && AllSpace(s[k + |r|..]);
    OccursAtLacks(s, r, k, c);
  }

  /** JavaScript truthiness of a string. */
  predicate NonEmpty(x: string) {
    x != ""
  }

  /**
   * `value.split(sep).map(s => s.trim()).filter(Boolean)`: the trimmed, non-empty pieces.
   */
  function SplitTrimmed(s: string, sep: char): (r: seq<string>)
    ensures forall x | x in r :: x != "" && IsTrimmed(x) && sep !in x
  {
    TrimmedPiecesShape(s, sep);
    Filter(TrimmedPieces(s, sep), NonEmpty)
  }
}

module TextRoundTrip {
  import opened Seqs
  import opened Text

  lemma TrimmedPiecesAfterPiece(a: string, sep: char, b: string)
    requires sep !in a
    ensures TrimmedPieces(a + [sep] + b, sep) == [Trim(a)] + TrimmedPieces(b, sep)
  {
    SplitAfterPiece(a, sep, b);
    MapCons(a, Split(b, sep), Trim);
  }

  lemma TrimmedPiecesLeadingSpace(b: string, sep: char)
    requires sep != ' '
    ensures TrimmedPieces([' '] + b, sep) == TrimmedPieces(b, sep)
  {
    var rest := Split(b, sep);
    var lead := Split([' '] + b, sep);
    SplitCons(' ', b, sep);
    assert lead[0] == [' '] + rest[0] && lead[1..] == rest[1..];
    TrimLeadingSpace(' ', rest[0]);
    MapSameHead(lead, rest, Trim);
  }

  lemma SplitCons(c: char, b: string, sep: char)
    requires c != sep
    ensures Split([c] + b, sep) == [[c] + Split(b, sep)[0]] + Split(b, sep)[1..]
  {
    var s := [c] + b;
    assert s[0] == c && s[1..] == b;
  }

  lemma SplitTrimmedEmpty()
    ensures SplitTrimmed("", ',') == []
  {
    assert Split("", ',') == [""];
    assert TrimmedPieces("", ',') == [""];
  }

  lemma SplitTrimmedSingle(x: string)
    requires x != "" && IsTrimmed(x) && ',' !in x
    ensures SplitTrimmed(x, ',') == [x]
  {
    SplitNoSeparator(x, ',');
    TrimTrimmed(x);
    assert TrimmedPieces(x, ',') == [x];
  }

  lemma SplitTrimmedCons(x: string, j: string)
    requires x != "" && IsTrimmed(x) && ',' !in x
    ensures SplitTrimmed(x + ", " + j, ',') == [x] + SplitTrimmed(j, ',')
  {
    TrimmedPiecesCons(x, j);
    FilterAppend([x], TrimmedPieces(j, ','), NonEmpty);
    assert Filter([x], NonEmpty) == [x];
  }

  lemma TrimmedPiecesCons(x: string, j: string)
    requires IsTrimmed(x) && ',' !in x
    ensures TrimmedPieces(x + ", " + j, ',') == [x] + TrimmedPieces(j, ',')
  {
    var b := [' '] + j;
    calc {
      TrimmedPieces(x + ", " + j, ',');
      == { CommaSpace(x, j); }
      TrimmedPieces(x + [','] + b, ',');
      == { TrimmedPiecesAfterPiece(x, ',', b); }
      [Trim(x)] + TrimmedPieces(b, ',');
      == { TrimmedPiecesLeadingSpace(j, ','); TrimTrimmed(x); }
      [x] + TrimmedPieces(j, ',');
    }
  }

  lemma CommaSpace(x: string, j: string)
    ensures x + ", " + j == x + [','] + ([' '] + j)
  {
    assert ", " == [','] + [' '];
  }

  /**
   * Joining non-empty, trimmed, comma-free entries with ", " and splitting the text again
   * with `SplitTrimmed` gives the entries back.
   */
  lemma {:induction false} SplitTrimmedJoin(xs: seq<string>)
    requires forall k :: 0 <= k < |xs| ==> xs[k] != "" && IsTrimmed(xs[k]) && ',' !in xs[k]
    ensures SplitTrimmed(Join(xs, ", "), ',') == xs
  {
    if |xs| == 0 {
      SplitTrimmedEmpty();
    } else if |xs| == 1 {
      SplitTrimmedSingle(xs[0]);
    } else {
      var j := Join(xs[1..], ", ");
      calc {
        SplitTrimmed(Join(xs, ", "), ',');
        SplitTrimmed(xs[0] + ", " + j, ',');
        == { SplitTrimmedCons(xs[0], j); }
        [xs[0]] + SplitTrimmed(j, ',');
        == { SplitTrimmedJoin(xs[1..]); }
        [xs[0]] + xs[1..];
        xs;
      }
    }
  }
}
