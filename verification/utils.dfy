/**
 * Small helpers: the meal period for an hour of the day, the calendar-date string the API and
 * database use, and URL slugs.
 */
module Utils {
  import opened Wrappers
  import opened Text
  import opened JsNumbers
  import opened Seqs

  /** `getMealPeriodFromTime`: breakfast before 10, lunch before 14, dinner after. */
  function MealPeriodFromTime(hour: int): (r: string)
    ensures hour < 10 <==> r == "breakfast"
    ensures 10 <= hour < 14 <==> r == "lunch"
    ensures 14 <= hour <==> r == "dinner"
  {
    if hour < 10 then "breakfast" else if hour < 14 then "lunch" else "dinner"
  }

  /** `padStart(2, "0")`. */
  function Pad2(s: string): (r: string)
    ensures |s| >= 2 ==> r == s
    ensures |s| < 2 ==> |r| == 2 && r[2 - |s|..] == s && forall i :: 0 <= i < 2 - |s| ==> r[i] == '0'
  {
    if |s| >= 2 then s else if |s| == 1 then "0" + s else "00"
  }

  /**
   * `formatDateISO` from the local year, the 0-based month index and the day of the month,
   * which the date API keeps in 0..11 and 1..31.
   */
  function FormatDateISO(year: int, monthIndex: int, day: int): string
    requires 0 <= monthIndex <= 11 && 1 <= day <= 31
  {
    IntToString(year) + "-" + Pad2(NatToString(monthIndex + 1)) + "-" + Pad2(NatToString(day))
  }

  datatype CalendarDate = CalendarDate(year: nat, month: nat, day: nat)

  /** Reads a calendar date in the extended format of ISO 8601 (section 5.2.1.1): YYYY-MM-DD. */
  function ParseDateISO(s: string): Option<CalendarDate> {
    if |s| == 10 && s[4] == '-' && s[7] == '-' && AllDigits(s[..4]) && AllDigits(s[5..7]) && AllDigits(s[8..]) then
      Some(CalendarDate(DigitsValue(s[..4]), DigitsValue(s[5..7]), DigitsValue(s[8..])))
    else None
  }

  lemma FourDigits(n: nat)
    requires 1000 <= n <= 9999
    ensures |NatToString(n)| == 4
  {
    var a := n / 10;
    var b := a / 10;
    var c := b / 10;
    assert 100 <= a <= 999 && 10 <= b <= 99 && 1 <= c <= 9;
    assert |NatToString(c)| == 1;
    assert |NatToString(b)| == 2;
    assert |NatToString(a)| == 3;
  }

  /** A month or day from 1 to 99 becomes exactly two digits with its value. */
  lemma TwoDigits(n: nat)
    requires 1 <= n <= 99
    ensures |Pad2(NatToString(n))| == 2 && AllDigits(Pad2(NatToString(n)))
    ensures DigitsValue(Pad2(NatToString(n))) == n
  {
    var s := NatToString(n);
    if n < 10 {
      var p := Pad2(s);
      assert p == ['0', DigitChar(n)];
      assert p[..1] == "0";
      assert DigitsValue(p[..1]) == 0 by {
        assert p[..1][..0] == [];
      }
    } else {
      assert s == NatToString(n / 10) + [DigitChar(n % 10)];
      assert |NatToString(n / 10)| == 1;
    }
  }

  /**
   * For a four-digit year, the formatted date is ten characters in the extended calendar-date
   * format and reads back as the year, the 1-based month and the day.
   */
  lemma FormatDateISORoundTrip(year: int, monthIndex: int, day: int)
    requires 1000 <= year <= 9999 && 0 <= monthIndex <= 11 && 1 <= day <= 31
    ensures |FormatDateISO(year, monthIndex, day)| == 10
    ensures ParseDateISO(FormatDateISO(year, monthIndex, day)) == Some(CalendarDate(year, monthIndex + 1, day))
  {
    var y := NatToString(year);
    var m := Pad2(NatToString(monthIndex + 1));
    var d := Pad2(NatToString(day));
    FourDigits(year);
    TwoDigits(monthIndex + 1);
    TwoDigits(day);
    var s := FormatDateISO(year, monthIndex, day);
    assert s == y + "-" + m + "-" + d;
    assert s[..4] == y;
    assert s[5..7] == m;
    assert s[8..] == d;
  }

  /** The characters a slug keeps: lower-case ASCII letters and digits. */
  predicate IsSlugChar(c: char) {
    'a' <= c <= 'z' || '0' <= c <= '9'
  }

  predicate SlugAlphabet(s: string) {
    forall i :: 0 <= i < |s| ==> IsSlugChar(s[i]) || s[i] == '-'
  }

  predicate NoDoubleDash(s: string) {
    forall i :: 0 <= i < |s| - 1 ==> !(s[i] == '-' && s[i + 1] == '-')
  }

  /** A slug: letters, digits and single dashes, with no dash at either end. */
  predicate IsSlug(s: string) {
    SlugAlphabet(s) && NoDoubleDash(s) && (s == [] || (s[0] != '-' && s[|s| - 1] != '-'))
  }

  /** Drops the run of characters outside the slug alphabet at the start of `s`. */
  function SkipRun(s: string): (r: string)
    ensures |r| <= |s| && r == s[|s| - |r|..]
    ensures r == [] || IsSlugChar(r[0])
    ensures s != [] && !IsSlugChar(s[0]) ==> |r| < |s|
    ensures s == [] || IsSlugChar(s[0]) ==> r == s
    ensures Filter(r, IsSlugChar) == Filter(s, IsSlugChar)
  {
    if s != [] && !IsSlugChar(s[0]) then SkipRun(s[1..]) else s
  }

  /**
   * `replace(/[^a-z0-9]+/g, "-")`: every maximal run outside the alphabet becomes one dash, so
   * the letters and digits are kept, in order, and nothing else but single dashes remains.
   */
  function Collapse(s: string): (r: string)
    ensures SlugAlphabet(r) && NoDoubleDash(r)
    ensures Filter(r, IsSlugChar) == Filter(s, IsSlugChar)
    ensures r == [] <==> s == []
    ensures r != [] ==> (r[0] == '-' <==> !IsSlugChar(s[0]))
    decreases |s|
  {
    if s == [] then []
    else if IsSlugChar(s[0]) then
      var rest := Collapse(s[1..]);
      SlugCons(s[0], rest);
      [s[0]] + rest
    else
      var rest := Collapse(SkipRun(s));
      DashCons(rest);
      "-" + rest
  }

  /** A letter or digit in front of a dash-collapsed string keeps it dash-collapsed. */
  lemma SlugCons(c: char, rest: string)
    requires IsSlugChar(c) && SlugAlphabet(rest) && NoDoubleDash(rest)
    ensures SlugAlphabet([c] + rest) && NoDoubleDash([c] + rest)
    ensures Filter([c] + rest, IsSlugChar) == [c] + Filter(rest, IsSlugChar)
  {
    var r := [c] + rest;
    assert r[1..] == rest;
    assert forall i :: 1 <= i < |r| ==> r[i] == rest[i - 1];
  }

  /** A dash in front of a dash-collapsed string that does not start with a dash keeps it so. */
  lemma DashCons(rest: string)
    requires SlugAlphabet(rest) && NoDoubleDash(rest) && (rest == [] || rest[0] != '-')
    ensures SlugAlphabet("-" + rest) && NoDoubleDash("-" + rest)
    ensures Filter("-" + rest, IsSlugChar) == Filter(rest, IsSlugChar)
  {
    var r := "-" + rest;
    assert r[1..] == rest;
    assert forall i :: 1 <= i < |r| ==> r[i] == rest[i - 1];
  }

  /** No character of `s` is a letter or digit. */
  predicate NoSlugChar(s: string) {
    forall i :: 0 <= i < |s| ==> !IsSlugChar(s[i])
  }

  /** Skipping a run outside the alphabet stops exactly where the next letter or digit starts. */
  lemma {:induction false} SkipRunOver(run: string, v: string)
    requires NoSlugChar(run) && (v == [] || IsSlugChar(v[0]))
    ensures SkipRun(run + v) == v
    decreases |run|
  {
    if run != [] {
      assert (run + v)[1..] == run[1..] + v;
      SkipRunOver(run[1..], v);
    }
  }

  /** Skipping the leading run of a text that ends in a letter or digit never reaches past it. */
  lemma SkipRunAppend(u: string, run: string, v: string)
    requires u != [] && IsSlugChar(u[|u| - 1])
    ensures SkipRun(u) != [] && IsSlugChar(SkipRun(u)[|SkipRun(u)| - 1])
    ensures SkipRun(u + run + v) == SkipRun(u) + run + v
  {
    SkipRunEnd(u);
    SkipRunCut(u, run, v);
  }

  lemma SkipRunEnd(u: string)
    requires u != [] && IsSlugChar(u[|u| - 1])
    ensures SkipRun(u) != [] && IsSlugChar(SkipRun(u)[|SkipRun(u)| - 1])
  {
    SkipRunNonEmpty(u);
    LastOfSuffix(u, SkipRun(u));
  }

  lemma LastOfSuffix(s: string, r: string)
    requires r != [] && |r| <= |s| && r == s[|s| - |r|..]
    ensures r[|r| - 1] == s[|s| - 1]
  {
  }

  lemma {:induction false} SkipRunNonEmpty(u: string)
    requires u != [] && IsSlugChar(u[|u| - 1])
    ensures SkipRun(u) != []
    decreases |u|
  {
    if !IsSlugChar(u[0]) {
      assert u[1..][|u| - 2] == u[|u| - 1];
      SkipRunNonEmpty(u[1..]);
    }
  }

  lemma {:induction false} SkipRunCut(u: string, run: string, v: string)
    requires u != [] && IsSlugChar(u[|u| - 1])
    ensures SkipRun(u + run + v) == SkipRun(u) + run + v
    decreases |u|
  {
    SplitHead(u, run, v);
    if !IsSlugChar(u[0]) {
      assert u[1..][|u| - 2] == u[|u| - 1];
      SkipRunCut(u[1..], run, v);
    }
  }

  lemma Regroup(h: string, a: string, b: string)
    ensures h + (a + "-" + b) == h + a + "-" + b
  {
  }

  lemma CollapseSlugHead(s: string)
    requires s != [] && IsSlugChar(s[0])
    ensures Collapse(s) == [s[0]] + Collapse(s[1..])
  {
  }

  lemma CollapseRunHead(s: string)
    requires s != [] && !IsSlugChar(s[0])
    ensures Collapse(s) == "-" + Collapse(SkipRun(s))
  {
  }

  /**
   * Where the dashes go: a maximal run outside the alphabet between two stretches of text
   * becomes exactly one dash between their collapsed forms.
   */
  lemma {:induction false} CollapseRun(u: string, run: string, v: string)
    requires u == [] || IsSlugChar(u[|u| - 1])
    requires run != [] && NoSlugChar(run)
    requires v == [] || IsSlugChar(v[0])
    ensures Collapse(u + run + v) == Collapse(u) + "-" + Collapse(v)
    decreases |u|, 1
  {
    if u == [] {
      CollapseRunFirst(u, run, v);
    } else if IsSlugChar(u[0]) {
      CollapseRunChar(u, run, v);
    } else {
      CollapseRunSkip(u, run, v);
    }
  }

  /** The case of `CollapseRun` where `u` starts with a letter or digit. */
  lemma {:induction false} CollapseRunChar(u: string, run: string, v: string)
    requires u != [] && IsSlugChar(u[0]) && IsSlugChar(u[|u| - 1])
    requires run != [] && NoSlugChar(run)
    requires v == [] || IsSlugChar(v[0])
    ensures Collapse(u + run + v) == Collapse(u) + "-" + Collapse(v)
    decreases |u|, 0
  {
    assert u[1..] == [] || IsSlugChar(u[1..][|u| - 2]);
    CollapseRun(u[1..], run, v);
    CollapseRunAfterChar(u, run, v);
  }

  /** The case of `CollapseRun` where `u` starts with a run outside the alphabet. */
  lemma {:induction false} CollapseRunSkip(u: string, run: string, v: string)
    requires u != [] && !IsSlugChar(u[0]) && IsSlugChar(u[|u| - 1])
    requires run != [] && NoSlugChar(run)
    requires v == [] || IsSlugChar(v[0])
    ensures Collapse(u + run + v) == Collapse(u) + "-" + Collapse(v)
    decreases |u|, 0
  {
    var x := SkipRun(u);
    assert |x| < |u| && (x == [] || IsSlugChar(x[|x| - 1])) && SkipRun(u + run + v) == x + run + v by {
      SkipRunAppend(u, run, v);
    }
    CollapseRun(x, run, v);
    CollapseRunAfterRun(u, run, v);
  }

  lemma CollapseRunFirst(u: string, run: string, v: string)
    requires u == [] && run != [] && NoSlugChar(run)
    requires v == [] || IsSlugChar(v[0])
    ensures Collapse(u + run + v) == Collapse(u) + "-" + Collapse(v)
  {
    assert u + run + v == run + v by { SplitHead(u, run, v); }
    CollapseRunFront(run, v);
    EmptyJoin(Collapse(u), Collapse(v));
  }

  lemma CollapseRunFront(run: string, v: string)
    requires run != [] && NoSlugChar(run)
    requires v == [] || IsSlugChar(v[0])
    ensures Collapse(run + v) == "-" + Collapse(v)
  {
    assert (run + v)[0] == run[0];
    SkipRunOver(run, v);
    CollapseRunHead(run + v);
  }

  lemma EmptyJoin(x: string, y: string)
    requires x == []
    ensures x + "-" + y == "-" + y
  {
  }

  /** The first character and the rest of a text cut in three, the first piece non-empty. */
  lemma SplitHead(u: string, run: string, v: string)
    requires u + run != []
    ensures [] + run + v == run + v
    ensures u != [] ==> (u + run + v)[0] == u[0] && (u + run + v)[1..] == u[1..] + run + v
    ensures u == [] ==> (u + run + v)[0] == run[0]
  {
    if u != [] {
      assert (u + run + v)[1..] == u[1..] + run + v;
    }
  }

  lemma CollapseRunAfterChar(u: string, run: string, v: string)
    requires u != [] && IsSlugChar(u[0])
    requires Collapse(u[1..] + run + v) == Collapse(u[1..]) + "-" + Collapse(v)
    ensures Collapse(u + run + v) == Collapse(u) + "-" + Collapse(v)
  {
    SplitHead(u, run, v);
    CollapseSlugHead(u + run + v);
    Regroup([u[0]], Collapse(u[1..]), Collapse(v));
    CollapseSlugHead(u);
  }

  lemma CollapseRunAfterRun(u: string, run: string, v: string)
    requires u != [] && !IsSlugChar(u[0])
    requires SkipRun(u + run + v) == SkipRun(u) + run + v
    requires Collapse(SkipRun(u) + run + v) == Collapse(SkipRun(u)) + "-" + Collapse(v)
    ensures Collapse(u + run + v) == Collapse(u) + "-" + Collapse(v)
  {
    var s := u + run + v;
    calc {
      Collapse(s);
      { CollapseRunHead(s); }
      "-" + Collapse(SkipRun(s));
      "-" + (Collapse(SkipRun(u)) + "-" + Collapse(v));
      { Regroup("-", Collapse(SkipRun(u)), Collapse(v)); }
      "-" + Collapse(SkipRun(u)) + "-" + Collapse(v);
      { CollapseRunHead(u); }
      Collapse(u) + "-" + Collapse(v);
    }
  }

  /** The `^-` half of the pattern: one leading dash goes. */
  function DropLeadingDash(s: string): (r: string)
    ensures s == r || s == "-" + r
    ensures s != [] && s[0] == '-' <==> s == "-" + r
    ensures Filter(r, IsSlugChar) == Filter(s, IsSlugChar)
  {
    if s != [] && s[0] == '-' then
      assert s == "-" + s[1..];
      s[1..]
    else s
  }

  /** The `-$` half of the pattern: one trailing dash goes. */
  function DropTrailingDash(s: string): (r: string)
    ensures s == r || s == r + "-"
    ensures s != [] && s[|s| - 1] == '-' <==> s == r + "-"
    ensures Filter(r, IsSlugChar) == Filter(s, IsSlugChar)
  {
    if s != [] && s[|s| - 1] == '-' then
      var r := s[..|s| - 1];
      assert s == r + "-";
      FilterAppend(r, "-", IsSlugChar);
      r
    else s
  }

  /** `replace(/(^-|-$)/g, "")`: one leading and one trailing dash are removed, nothing else. */
  function StripDashes(s: string): (r: string)
    ensures Filter(r, IsSlugChar) == Filter(s, IsSlugChar)
    ensures exists i, j :: 0 <= i <= j <= |s| && r == s[i..j] && s[..i] in {"", "-"} && s[j..] in {"", "-"}
  {
    var a := DropLeadingDash(s);
    var r := DropTrailingDash(a);
    StripParts(s, a, r);
    r
  }

  lemma StripParts(s: string, a: string, r: string)
    requires s == a || s == "-" + a
    requires a == r || a == r + "-"
    ensures exists i, j :: 0 <= i <= j <= |s| && r == s[i..j] && s[..i] in {"", "-"} && s[j..] in {"", "-"}
  {
    var x := if s == a then "" else "-";
    var y := if a == r then "" else "-";
    assert s == x + r + y;
    StripPieces(s, x, r, y);
  }

  /** A string cut into an optional dash, a middle and an optional dash. */
  lemma StripPieces(s: string, x: string, r: string, y: string)
    requires s == x + r + y && x in {"", "-"} && y in {"", "-"}
    ensures exists i, j :: 0 <= i <= j <= |s| && r == s[i..j] && s[..i] in {"", "-"} && s[j..] in {"", "-"}
  {
    assert s[..|x|] == x && s[|x|..|x| + |r|] == r && s[|x| + |r|..] == y;
  }

  /** A slice of a dash-collapsed string is dash-collapsed. */
  lemma SliceSlug(c: string, i: nat, j: nat)
    requires SlugAlphabet(c) && NoDoubleDash(c) && i <= j <= |c|
    ensures SlugAlphabet(c[i..j]) && NoDoubleDash(c[i..j])
  {
    var r := c[i..j];
    assert forall k :: 0 <= k < |r| ==> r[k] == c[i + k];
  }

  /** Stripping the end dashes of a dash-collapsed string leaves a slug. */
  lemma StripSlug(c: string)
    requires SlugAlphabet(c) && NoDoubleDash(c)
    ensures IsSlug(StripDashes(c))
  {
    LeadingStripped(c);
    TrailingStripped(DropLeadingDash(c));
  }

  /** Without its leading dash, a dash-collapsed string starts with a letter or digit. */
  lemma LeadingStripped(c: string)
    requires SlugAlphabet(c) && NoDoubleDash(c)
    ensures var a := DropLeadingDash(c);
      SlugAlphabet(a) && NoDoubleDash(a) && (a == [] || a[0] != '-')
  {
    if c != [] && c[0] == '-' {
      SliceSlug(c, 1, |c|);
      assert DropLeadingDash(c) == c[1..];
    }
  }

  /** Without its trailing dash, such a string is a slug. */
  lemma TrailingStripped(a: string)
    requires SlugAlphabet(a) && NoDoubleDash(a) && (a == [] || a[0] != '-')
    ensures IsSlug(DropTrailingDash(a))
  {
    if a != [] && a[|a| - 1] == '-' {
      var r := a[..|a| - 1];
      SliceSlug(a, 0, |a| - 1);
      assert DropTrailingDash(a) == r;
      if r != [] {
        assert r[|r| - 1] == a[|a| - 2];
        assert a[|a| - 2] != '-';
      }
    }
  }

  /**
   * `slugify`: its output is always a slug, and it keeps exactly the letters and digits of the
   * lower-cased input, in order.
   */
  function Slugify(s: string): (r: string)
    ensures IsSlug(r)
    ensures Filter(r, IsSlugChar) == Filter(Lower(s), IsSlugChar)
  {
    var c := Collapse(Lower(s));
    StripSlug(c);
    StripDashes(c)
  }

  /** A string in the slug alphabet without double dashes passes the collapsing step unchanged. */
  lemma {:induction false} CollapseFixed(t: string)
    requires SlugAlphabet(t) && NoDoubleDash(t)
    ensures Collapse(t) == t
    decreases |t|, 1
  {
    if t != [] {
      if IsSlugChar(t[0]) {
        CollapseFixedChar(t);
      } else {
        CollapseFixedDash(t);
      }
    }
  }

  /** The case of `CollapseFixed` where `t` starts with a letter or digit. */
  lemma {:induction false} CollapseFixedChar(t: string)
    requires SlugAlphabet(t) && NoDoubleDash(t) && t != [] && IsSlugChar(t[0])
    ensures Collapse(t) == t
    decreases |t|, 0
  {
    var rest := t[1..];
    SliceSlug(t, 1, |t|);
    CollapseFixed(rest);
    CollapseSlugHead(t);
    assert t == [t[0]] + rest;
  }

  /** The case of `CollapseFixed` where `t` starts with a single dash. */
  lemma {:induction false} CollapseFixedDash(t: string)
    requires SlugAlphabet(t) && NoDoubleDash(t) && t != [] && !IsSlugChar(t[0])
    ensures Collapse(t) == t
    decreases |t|, 0
  {
    var rest := t[1..];
    SliceSlug(t, 1, |t|);
    CollapseFixed(rest);
    assert t[0] == '-';
    assert |t| == 1 || IsSlugChar(t[1]);
    SkipRunSingle(t);
    CollapseRunHead(t);
    assert t == "-" + rest;
  }

  lemma SkipRunSingle(s: string)
    requires s != [] && !IsSlugChar(s[0]) && (|s| == 1 || IsSlugChar(s[1]))
    ensures SkipRun(s) == s[1..]
  {
    assert s[1..] == [] || IsSlugChar(s[1..][0]);
  }

  /** A slug is its own slug. */
  lemma SlugFixed(t: string)
    requires IsSlug(t)
    ensures Slugify(t) == t
  {
    assert IsLower(t);
    LowerOfLower(t);
    CollapseFixed(t);
  }

  /** `slugify` is idempotent. */
  lemma SlugifyIdempotent(s: string)
    ensures Slugify(Slugify(s)) == Slugify(s)
  {
    SlugFixed(Slugify(s));
  }

  /**
   * Where `slugify` puts its dashes: two slugs separated by a run with no letter or digit even
   * after lower-casing come out joined by exactly one dash.
   */
  lemma SlugifyJoin(u: string, run: string, v: string)
    requires IsSlug(u) && IsSlug(v) && u != [] && v != []
    requires run != [] && forall i :: 0 <= i < |run| ==> !IsSlugChar(LowerChar(run[i]))
    ensures Slugify(u + run + v) == u + "-" + v
  {
    var lr := Lower(run);
    LowerJoin(u, run, v);
    assert IsSlugChar(u[|u| - 1]) && IsSlugChar(v[0]);
    CollapseRun(u, lr, v);
    CollapseFixed(u);
    CollapseFixed(v);
    StripJoined(u, v);
  }

  /** Lower-casing a slug, a run and a slug lower-cases only the run. */
  lemma LowerJoin(u: string, run: string, v: string)
    requires IsSlug(u) && IsSlug(v)
    requires forall i :: 0 <= i < |run| ==> !IsSlugChar(LowerChar(run[i]))
    ensures Lower(u + run + v) == u + Lower(run) + v
    ensures NoSlugChar(Lower(run))
  {
    var s := u + run + v;
    var r := u + Lower(run) + v;
    forall i | 0 <= i < |s| ensures Lower(s)[i] == r[i] {
      if i < |u| {
        assert s[i] == u[i];
      } else if i < |u| + |run| {
        assert s[i] == run[i - |u|];
      } else {
        assert s[i] == v[i - |u| - |run|];
      }
    }
  }

  /** Two slugs joined by a dash have no dash at either end, so stripping keeps them. */
  lemma StripJoined(u: string, v: string)
    requires IsSlug(u) && IsSlug(v) && u != [] && v != []
    ensures StripDashes(u + "-" + v) == u + "-" + v
  {
    var s := u + "-" + v;
    assert s[0] == u[0];
    assert s[|s| - 1] == v[|v| - 1];
    assert DropLeadingDash(s) == s;
  }
}
