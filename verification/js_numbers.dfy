/**
 * JavaScript numbers as exact reals plus the three special values, and the two string
 * readers the app calls: `Number(string)` and `parseFloat(string)`, for decimal literals
 * (sign, digits, fraction, exponent) and `Infinity`.
 */
module JsNumbers {
  import opened Wrappers
  import opened Text

  datatype JsNumber = Finite(value: real) | NaN | PosInfinity | NegInfinity

  predicate IsDigit(c: char) {
    '0' <= c <= '9'
  }

  predicate AllDigits(s: string) {
    forall i :: 0 <= i < |s| ==> IsDigit(s[i])
  }

  function DigitValue(c: char): nat
    requires IsDigit(c)
  {
    c as int - '0' as int
  }

  function DigitChar(d: nat): (c: char)
    requires d < 10
    ensures IsDigit(c) && DigitValue(c) == d
  {
    ('0' as int + d) as char
  }

  /** Length of the run of decimal digits at the start of `s`. */
  function DigitRun(s: string): (n: nat)
    ensures n <= |s| && AllDigits(s[..n])
    ensures n == |s| || !IsDigit(s[n])
  {
    if s != [] && IsDigit(s[0]) then
      var n := 1 + DigitRun(s[1..]);
      assert s[..n] == [s[0]] + s[1..][..n - 1];
      n
    else 0
  }

  /** The natural number a digit string denotes. */
  function DigitsValue(ds: string): nat
    requires AllDigits(ds)
    decreases |ds|
  {
    if ds == [] then 0 else 10 * DigitsValue(ds[..|ds| - 1]) + DigitValue(ds[|ds| - 1])
  }

  /** Ten to the power `n`. */
  function Pow10(n: nat): (r: real)
    ensures r >= 1.0
    ensures n == 0 ==> r == 1.0
    ensures n == 1 ==> r == 10.0
  {
    if n == 0 then 1.0 else 10.0 * Pow10(n - 1)
  }

  /** Powers of ten multiply by adding exponents. */
  lemma {:induction false} Pow10Add(a: nat, b: nat)
    ensures Pow10(a + b) == Pow10(a) * Pow10(b)
    decreases b
  {
    if b > 0 {
      Pow10Add(a, b - 1);
      assert Pow10(a + b) == 10.0 * Pow10(a + b - 1);
    }
  }

  /** The value of a digit string, computed in the reals. */
  function DigitsReal(ds: string): (r: real)
    requires AllDigits(ds)
    ensures r >= 0.0
    decreases |ds|
  {
    if ds == [] then 0.0 else 10.0 * DigitsReal(ds[..|ds| - 1]) + DigitValue(ds[|ds| - 1]) as real
  }

  /** The real-valued reading agrees with the natural number the digits denote. */
  lemma {:induction false} DigitsRealValue(ds: string)
    requires AllDigits(ds)
    ensures DigitsReal(ds) == DigitsValue(ds) as real
    decreases |ds|
  {
    if ds != [] {
      DigitsRealValue(ds[..|ds| - 1]);
    }
  }

  /** `n` digits denote less than 10^n. */
  lemma {:induction false} DigitsRealBound(ds: string)
    requires AllDigits(ds)
    ensures DigitsReal(ds) + 1.0 <= Pow10(|ds|)
    decreases |ds|
  {
    if ds != [] {
      DigitsRealBound(ds[..|ds| - 1]);
    }
  }

  /** `m` times ten to the power `e`: `e` steps of multiplying by ten, or dividing when `e < 0`. */
  function Scale(m: real, e: int): (r: real)
    ensures e == 0 ==> r == m
    ensures m > 0.0 ==> r > 0.0
    ensures m < 0.0 ==> r < 0.0
    ensures m == 0.0 <==> r == 0.0
    decreases if e >= 0 then e else -e
  {
    if e == 0 then m
    else if e > 0 then 10.0 * Scale(m, e - 1)
    else Scale(m, e + 1) / 10.0
  }

  /** One more power of ten multiplies by ten, whatever the sign of the exponent. */
  lemma ScaleStep(m: real, e: int)
    ensures Scale(m, e + 1) == 10.0 * Scale(m, e)
  {
  }

  /** The sign of a scaled value is the sign of what was scaled. */
  lemma {:induction false} ScaleNegate(m: real, e: int)
    ensures Scale(-m, e) == -Scale(m, e)
    decreases if e >= 0 then e else -e
  {
    if e > 0 {
      ScaleNegate(m, e - 1);
    } else if e < 0 {
      ScaleNegate(m, e + 1);
    }
  }

  /** Scaling twice adds the exponents, so `Scale(_, -e)` undoes `Scale(_, e)`. */
  lemma {:induction false} ScaleAdd(m: real, a: int, b: int)
    ensures Scale(Scale(m, a), b) == Scale(m, a + b)
    decreases if b >= 0 then b else -b
  {
    if b > 0 {
      ScaleAdd(m, a, b - 1);
      ScaleStep(m, a + b - 1);
    } else if b < 0 {
      ScaleAdd(m, a, b + 1);
      ScaleStep(m, a + b);
    }
  }

  /** For a natural exponent, scaling multiplies by the power of ten. */
  lemma {:induction false} ScaleUp(m: real, e: nat)
    ensures Scale(m, e) == m * Pow10(e)
  {
    if e > 0 {
      ScaleUp(m, e - 1);
      TimesTen(m, Pow10(e - 1));
    }
  }

  /** For a negative exponent, scaling divides by the power of ten. */
  lemma {:induction false} ScaleDown(m: real, e: nat)
    ensures Scale(m, -(e as int)) == m / Pow10(e)
  {
    if e > 0 {
      ScaleDown(m, e - 1);
      OverTen(m, Pow10(e - 1));
    }
  }

  lemma TimesTen(m: real, p: real)
    ensures 10.0 * (m * p) == m * (10.0 * p)
  {
  }

  lemma OverTen(m: real, p: real)
    requires p >= 1.0
    ensures m / p / 10.0 == m / (10.0 * p)
  {
  }

  /** The value of the fraction digits `f` after a decimal point: `0.f`. */
  function Fraction(f: string): (r: real)
    requires AllDigits(f)
    ensures 0.0 <= r < 1.0
    ensures f == [] ==> r == 0.0
  {
    if f == [] then 0.0 else (DigitValue(f[0]) as real + Fraction(f[1..])) / 10.0
  }

  /** The fraction digits denote their integer value scaled down by 10^|f|. */
  lemma {:induction false} FractionValue(f: string)
    requires AllDigits(f)
    ensures Fraction(f) == Scale(DigitsReal(f), -|f|)
    decreases |f|
  {
    if f != [] {
      var d, rest := DigitValue(f[0]) as real, f[1..];
      var n := |f|;
      FractionValue(rest);
      DigitsRealFront(f);
      ScaleSum(Scale(d, n - 1), DigitsReal(rest), -n);
      ScaleAdd(d, n - 1, -n);
      ScaleStep(DigitsReal(rest), -n);
    }
  }

  /** Scaling distributes over a sum. */
  lemma {:induction false} ScaleSum(a: real, b: real, e: int)
    ensures Scale(a + b, e) == Scale(a, e) + Scale(b, e)
    decreases if e >= 0 then e else -e
  {
    if e > 0 {
      ScaleSum(a, b, e - 1);
    } else if e < 0 {
      ScaleSum(a, b, e + 1);
    }
  }

  /** Reading a digit string from the front: its first digit is worth 10^(n-1). */
  lemma {:induction false} DigitsRealFront(ds: string)
    requires ds != [] && AllDigits(ds)
    ensures DigitsReal(ds) == Scale(DigitValue(ds[0]) as real, |ds| - 1) + DigitsReal(ds[1..])
    decreases |ds|
  {
    if |ds| > 1 {
      var init := ds[..|ds| - 1];
      assert init[0] == ds[0] && init[1..] == ds[1..][..|ds| - 2];
      DigitsRealFront(init);
      ScaleStep(DigitValue(ds[0]) as real, |ds| - 2);
    } else {
      assert ds[1..] == [];
      assert ds[..0] == [];
    }
  }

  /**
   * The value of `int.frac` written with the given digit strings: the integer part plus the
   * fraction, so it lies between the integer part and the next integer.
   */
  function DecimalMantissa(intDigits: string, fracDigits: string): (m: real)
    requires AllDigits(intDigits) && AllDigits(fracDigits)
    ensures DigitsReal(intDigits) <= m < DigitsReal(intDigits) + 1.0
    ensures fracDigits == [] ==> m == DigitsReal(intDigits)
  {
    DigitsReal(intDigits) + Fraction(fracDigits)
  }

  /** `int.frac` is the integer's value plus the fraction's digits scaled down by their count. */
  lemma DecimalMantissaValue(intDigits: string, fracDigits: string)
    requires AllDigits(intDigits) && AllDigits(fracDigits)
    ensures DecimalMantissa(intDigits, fracDigits)
      == DigitsValue(intDigits) as real + Scale(DigitsValue(fracDigits) as real, -|fracDigits|)
  {
    DigitsRealValue(intDigits);
    DigitsRealValue(fracDigits);
    FractionValue(fracDigits);
  }

  /** A number read from the start of a string, and how many characters it used. */
  datatype Scan = Scan(value: JsNumber, length: nat)

  /**
   * An exponent part at the start of `s`: `e` or `E`, an optional sign, then the longest run
   * of digits (at least one); as (signed exponent, length). The character after it is never a
   * digit; `ExponentPartValue` says which exponent it reads.
   */
  function ExponentPart(s: string): (r: Option<(int, nat)>)
    ensures r.Some? <==> (|s| >= 2 && (s[0] == 'e' || s[0] == 'E')
      && (IsDigit(s[1]) || (|s| >= 3 && (s[1] == '+' || s[1] == '-') && IsDigit(s[2]))))
    ensures r.Some? ==> 2 <= r.value.1 <= |s| && (r.value.1 == |s| || !IsDigit(s[r.value.1]))
  {
    if s == [] || (s[0] != 'e' && s[0] != 'E') then None
    else
      var signLen := if |s| > 1 && (s[1] == '+' || s[1] == '-') then 1 else 0;
      var run := DigitRun(s[1 + signLen..]);
      if run == 0 then None
      else
        assert s[1 + signLen..][..run] == s[1 + signLen..1 + signLen + run];
        var mag: int := DigitsValue(s[1 + signLen..][..run]);
        Some((if signLen == 1 && s[1] == '-' then -mag else mag, 1 + signLen + run))
  }

  /**
   * The exponent read is the value of the whole run of digits after the optional sign, negated
   * exactly when the sign is `-`.
   */
  lemma ExponentPartValue(s: string)
    requires ExponentPart(s).Some?
    ensures var start := if IsDigit(s[1]) then 1 else 2;
      var len := ExponentPart(s).value.1;
      && start < len <= |s| && len == start + DigitRun(s[start..]) && AllDigits(s[start..len])
      && ExponentPart(s).value.0
        == if s[1] == '-' then -(DigitsValue(s[start..len]) as int) else DigitsValue(s[start..len])
  {
    var start := if IsDigit(s[1]) then 1 else 2;
    assert s[start..][..DigitRun(s[start..])] == s[start..start + DigitRun(s[start..])];
  }

  /**
   * The longest prefix of `s` made of digits and an optional fraction (`1`, `1.`, `.5`, `1.5`)
   * with at least one digit, as (integer digits, fraction digits, length). There is one exactly
   * when `s` starts with a digit or with `.` and a digit; the character after it is never a digit.
   */
  function Mantissa(s: string): (r: Option<(string, string, nat)>)
    ensures r.Some? <==> (|s| >= 1 && IsDigit(s[0])) || (|s| >= 2 && s[0] == '.' && IsDigit(s[1]))
    ensures r.Some? ==> AllDigits(r.value.0) && AllDigits(r.value.1) && 0 < r.value.2 <= |s|
    ensures r.Some? ==> r.value.2 == |s| || !IsDigit(s[r.value.2])
  {
    var intLen := DigitRun(s);
    var hasDot := intLen < |s| && s[intLen] == '.';
    var fracStart := if hasDot then intLen + 1 else intLen;
    var fracLen := if hasDot then DigitRun(s[fracStart..]) else 0;
    if intLen == 0 && fracLen == 0 then None
    else
      var mantEnd := fracStart + fracLen;
      assert mantEnd == |s| || !IsDigit(s[mantEnd]) by {
        if hasDot && mantEnd < |s| {
          assert s[mantEnd] == s[fracStart..][fracLen];
        }
      }
      Some((s[..intLen], s[fracStart..][..fracLen], mantEnd))
  }

  /**
   * The longest prefix of `s` that is an unsigned decimal literal: a mantissa and an optional
   * exponent. There is one exactly when `s` starts with a digit or with `.` and a digit; the
   * character after it is never a digit.
   */
  function UnsignedDecimal(s: string): (r: Option<Scan>)
    ensures r.Some? <==> (|s| >= 1 && IsDigit(s[0])) || (|s| >= 2 && s[0] == '.' && IsDigit(s[1]))
    ensures r.Some? ==> 0 < r.value.length <= |s| && r.value.value.Finite? && r.value.value.value >= 0.0
    ensures r.Some? ==> r.value.length == |s| || !IsDigit(s[r.value.length])
  {
    match Mantissa(s)
    case None => None
    case Some((intDigits, fracDigits, mantEnd)) =>
      var m := DecimalMantissa(intDigits, fracDigits);
      match ExponentPart(s[mantEnd..])
      case None => Some(Scan(Finite(m), mantEnd))
      case Some((e, len)) =>
        assert mantEnd + len == |s| || s[mantEnd + len] == s[mantEnd..][len];
        Some(Scan(Finite(Scale(m, e)), mantEnd + len))
  }

  /** The length of an optional leading sign. */
  function SignLength(s: string): nat {
    if s != [] && (s[0] == '+' || s[0] == '-') then 1 else 0
  }

  /**
   * The longest prefix of `s` that is a signed decimal literal or a signed `Infinity`. The
   * infinities come only from the word `Infinity`; a finite value is the unsigned literal after
   * the sign, negated exactly when the sign is `-`.
   */
  function SignedNumberPrefix(s: string): (r: Option<Scan>)
    ensures r.Some? ==> 0 < r.value.length <= |s| && !r.value.value.NaN?
    ensures StartsWith(s, "Infinity") ==> r == Some(Scan(PosInfinity, 8))
    ensures StartsWith(s, "+Infinity") ==> r == Some(Scan(PosInfinity, 9))
    ensures StartsWith(s, "-Infinity") ==> r == Some(Scan(NegInfinity, 9))
    ensures r.Some? && !r.value.value.Finite? ==> StartsWith(s[SignLength(s)..], "Infinity")
    ensures !StartsWith(s[SignLength(s)..], "Infinity") ==>
      var u := UnsignedDecimal(s[SignLength(s)..]);
      && (r.Some? <==> u.Some?)
      && (r.Some? ==> (r.value.length == SignLength(s) + u.value.length
            && r.value.value == Finite(if s[0] == '-' then -u.value.value.value else u.value.value.value)))
  {
    var signLen := SignLength(s);
    var negative := signLen == 1 && s[0] == '-';
    var rest := s[signLen..];
    InfinityAfterSign(s);
    if StartsWith(rest, "Infinity") then
      Some(Scan(if negative then NegInfinity else PosInfinity, signLen + 8))
    else
      match UnsignedDecimal(rest)
      case None => None
      case Some(sc) =>
        Some(Scan(Finite(if negative then -sc.value.value else sc.value.value), signLen + sc.length))
  }

  /** Which of the three spellings of an infinity `s` starts with decides its sign length. */
  lemma InfinityAfterSign(s: string)
    ensures StartsWith(s, "Infinity") ==> SignLength(s) == 0 && StartsWith(s[0..], "Infinity")
    ensures StartsWith(s, "+Infinity") ==> SignLength(s) == 1 && s[0] == '+' && StartsWith(s[1..], "Infinity")
    ensures StartsWith(s, "-Infinity") ==> SignLength(s) == 1 && s[0] == '-' && StartsWith(s[1..], "Infinity")
  {
    if StartsWith(s, "Infinity") {
      assert s[0] == "Infinity"[0];
      assert s[0..] == s;
    }
    if StartsWith(s, "+Infinity") || StartsWith(s, "-Infinity") {
      assert s[0] == s[..9][0];
      assert s[1..][..8] == s[..9][1..];
    }
  }

  /**
   * `Number(s)` for a string: blank text is 0; otherwise the trimmed text must be one numeric
   * literal in full, whose value it is, and anything else is NaN.
   */
  function StringToNumber(s: string): (r: JsNumber)
    ensures Trim(s) == "" ==> r == Finite(0.0)
    ensures Trim(s) != "" ==>
      var p := SignedNumberPrefix(Trim(s));
      && (r.NaN? <==> p.None? || p.value.length < |Trim(s)|)
      && (!r.NaN? ==> r == p.value.value)
  {
    var t := Trim(s);
    if t == "" then Finite(0.0)
    else
      match SignedNumberPrefix(t)
      case Some(sc) => if sc.length == |t| then sc.value else NaN
      case None => NaN
  }

  /**
   * `parseFloat(s)`: skip leading white space and read the longest numeric prefix, ignoring
   * whatever follows; NaN when there is none, so in particular when the text after the white
   * space starts with anything but a sign, a digit, `.` or `I`.
   */
  function ParseFloat(s: string): (r: JsNumber)
    ensures r.NaN? <==> SignedNumberPrefix(TrimStart(s)).None?
    ensures !r.NaN? ==> r == SignedNumberPrefix(TrimStart(s)).value.value
    ensures var t := TrimStart(s);
      t == [] || !(IsDigit(t[0]) || t[0] == '+' || t[0] == '-' || t[0] == '.' || t[0] == 'I') ==> r.NaN?
  {
    match SignedNumberPrefix(TrimStart(s))
    case Some(sc) => sc.value
    case None => NaN
  }

  /** `String(n)` for a natural number: its decimal digits, without leading zeros. */
  function NatToString(n: nat): (s: string)
    ensures s != [] && AllDigits(s)
    ensures |s| > 1 ==> s[0] != '0'
    ensures DigitsValue(s) == n
  {
    if n < 10 then [DigitChar(n)]
    else
      var prefix := NatToString(n / 10);
      var s := prefix + [DigitChar(n % 10)];
      assert s[..|s| - 1] == prefix;
      s
  }

  /** `String(i)` for an integer. */
  function IntToString(i: int): string {
    if i < 0 then "-" + NatToString(-i) else NatToString(i)
  }

  /**
   * A decimal literal as JavaScript writes one: an optional `-`, integer digits, an optional
   * `.` with fraction digits, and an optional `e` with an optional `-` and exponent digits.
   */
  datatype Literal = Literal(negative: bool, intDigits: string, fracDigits: string, expNegative: bool, expDigits: string)

  /** Every part is digits and there is at least one digit before the exponent. */
  predicate ValidLiteral(l: Literal) {
    && AllDigits(l.intDigits) && AllDigits(l.fracDigits) && AllDigits(l.expDigits)
    && (l.intDigits != [] || l.fracDigits != [])
  }

  /** The digits and fraction of the literal: `int`, or `int.frac` when there are fraction digits. */
  function MantissaText(l: Literal): string {
    l.intDigits + (if l.fracDigits == [] then "" else "." + l.fracDigits)
  }

  /** The exponent part of the literal: nothing, or `e`, an optional `-` and the digits. */
  function ExponentText(l: Literal): string {
    if l.expDigits == [] then "" else "e" + (if l.expNegative then "-" else "") + l.expDigits
  }

  /** The literal without its sign. */
  function UnsignedText(l: Literal): string {
    MantissaText(l) + ExponentText(l)
  }

  function LiteralText(l: Literal): string {
    (if l.negative then "-" else "") + UnsignedText(l)
  }

  /** The exponent the literal writes, 0 when it writes none. */
  function LiteralExponent(l: Literal): int
    requires ValidLiteral(l)
  {
    if l.expNegative then -(DigitsValue(l.expDigits) as int) else DigitsValue(l.expDigits)
  }

  /** The number the literal denotes: ±(int.frac)·10^exponent. */
  function LiteralValue(l: Literal): real
    requires ValidLiteral(l)
  {
    var v := Scale(DecimalMantissa(l.intDigits, l.fracDigits), LiteralExponent(l));
    if l.negative then -v else v
  }

  /** What may follow a literal without continuing it. */
  predicate EndsLiteral(tail: string) {
    tail == [] || !(IsDigit(tail[0]) || tail[0] == '.' || tail[0] == 'e' || tail[0] == 'E')
  }

  /** An exponent part `e[-]k` followed by a non-digit reads as ±k and uses exactly its own characters. */
  lemma ExponentPartOf(negative: bool, k: string, tail: string)
    requires k != [] && AllDigits(k)
    requires tail == [] || !IsDigit(tail[0])
    ensures var e := "e" + (if negative then "-" else "") + k;
      ExponentPart(e + tail) == Some((if negative then -(DigitsValue(k) as int) else DigitsValue(k), |e|))
  {
    var p := "e" + (if negative then "-" else "");
    assert |p| == 2 <==> negative;
    assert p[0] == 'e' && (negative ==> p[1] == '-');
    PrefixFacts(p, k, tail);
    ExponentAfter(p + k + tail, |p|, k);
  }

  /** In `p + k + tail`, the digits `k` start right after `p` and form the whole digit run there. */
  lemma PrefixFacts(p: string, k: string, tail: string)
    requires (|p| == 1 || |p| == 2) && p[0] == 'e' && (|p| == 2 ==> p[1] == '-')
    requires k != [] && AllDigits(k)
    requires tail == [] || !IsDigit(tail[0])
    ensures var s := p + k + tail;
      && |s| > |p| && s[0] == 'e' && (|p| == 2 <==> s[1] == '-')
      && |p| + |k| <= |s| && s[|p|..|p| + |k|] == k && DigitRun(s[|p|..]) == |k|
  {
    ThreeParts(p, k, tail);
    assert DigitRun(k + tail) == |k| by {
      DigitRunPrefix(k, tail);
    }
    assert (p + k + tail)[1] == if |p| == 2 then p[1] else k[0];
  }

  /** Where the parts of `p + k + tail` sit. */
  lemma ThreeParts<T>(p: seq<T>, k: seq<T>, tail: seq<T>)
    requires p != []
    ensures (p + k + tail)[0] == p[0]
    ensures (p + k + tail)[|p|..] == k + tail && (p + k + tail)[|p|..|p| + |k|] == k
    ensures |p| + 1 < |p + k + tail| ==> (p + k + tail)[1] == if |p| >= 2 then p[1] else (k + tail)[0]
  {
  }

  lemma ExponentAfter(s: string, start: nat, k: string)
    requires start == 1 || start == 2
    requires |s| > start && s[0] == 'e' && (start == 2 <==> s[1] == '-')
    requires start + |k| <= |s| && s[start..start + |k|] == k && DigitRun(s[start..]) == |k| && k != [] && AllDigits(k)
    ensures ExponentPart(s) == Some((if start == 2 then -(DigitsValue(k) as int) else DigitsValue(k), start + |k|))
  {
    ExponentAt(s, start, |k|);
  }

  /** A run of `n` digits at `start`, after `e` and perhaps `-`: the exponent is their value. */
  lemma ExponentAt(s: string, start: nat, n: nat)
    requires start == 1 || start == 2
    requires |s| > start && s[0] == 'e' && (start == 2 <==> s[1] == '-')
    requires DigitRun(s[start..]) == n && n > 0
    ensures start + n <= |s| && AllDigits(s[start..start + n])
    ensures ExponentPart(s)
      == Some((if start == 2 then -(DigitsValue(s[start..start + n]) as int) else DigitsValue(s[start..start + n]), start + n))
  {
    assert s[start..][..n] == s[start..start + n];
    assert IsDigit(s[start]) by {
      assert s[start..][..n][0] == s[start];
    }
    ExponentPartValue(s);
  }

  /** The digits and fraction of a literal, followed by anything but a digit, read as its mantissa. */
  lemma MantissaOfLiteral(l: Literal, rest: string)
    requires ValidLiteral(l)
    requires rest == [] || !IsDigit(rest[0])
    requires l.fracDigits == [] ==> rest == [] || rest[0] != '.'
    ensures Mantissa(MantissaText(l) + rest) == Some((l.intDigits, l.fracDigits, |MantissaText(l)|))
  {
    if l.fracDigits == [] {
      MantissaOfDigits(l.intDigits, rest);
      assert MantissaText(l) == l.intDigits;
    } else {
      MantissaOfFraction(l.intDigits, l.fracDigits, rest);
    }
  }

  /** Digits followed by neither a digit nor `.` are a whole mantissa without a fraction. */
  lemma MantissaOfDigits(i: string, rest: string)
    requires i != [] && AllDigits(i)
    requires rest == [] || (!IsDigit(rest[0]) && rest[0] != '.')
    ensures Mantissa(i + rest) == Some((i, "", |i|))
  {
    var s := i + rest;
    assert DigitRun(s) == |i| by {
      DigitRunPrefix(i, rest);
    }
    assert s[..|i|] == i && s[|i|..] == rest;
    assert !(|i| < |s| && s[|i|] == '.');
    assert s[|i|..][..0] == "";
  }

  /** Digits, `.` and more digits, followed by a non-digit, are a mantissa with a fraction. */
  lemma MantissaOfFraction(i: string, f: string, rest: string)
    requires AllDigits(i) && AllDigits(f) && f != []
    requires rest == [] || !IsDigit(rest[0])
    ensures Mantissa(i + ("." + f) + rest) == Some((i, f, |i| + 1 + |f|))
  {
    AroundPoint(i, '.', f, rest);
    assert DigitRun(i + ("." + f) + rest) == |i| by {
      DigitRunPrefix(i, "." + f + rest);
    }
    assert DigitRun(f + rest) == |f| by {
      DigitRunPrefix(f, rest);
    }
    MantissaWithFraction(i + ("." + f) + rest, |i|, |f|);
  }

  /** Where the parts of `a + ([c] + b) + tail` sit. */
  lemma AroundPoint<T>(a: seq<T>, c: T, b: seq<T>, tail: seq<T>)
    ensures a + ([c] + b) + tail == a + ([c] + b + tail)
    ensures (a + ([c] + b) + tail)[..|a|] == a && (a + ([c] + b) + tail)[|a|] == c
    ensures (a + ([c] + b) + tail)[|a| + 1..] == b + tail && (b + tail)[..|b|] == b
  {
  }

  lemma MantissaWithFraction(s: string, n: nat, k: nat)
    requires n < |s| && DigitRun(s) == n && s[n] == '.' && DigitRun(s[n + 1..]) == k && k > 0
    ensures Mantissa(s) == Some((s[..n], s[n + 1..][..k], n + 1 + k))
  {
  }

  /** An unsigned literal followed by a tail that cannot continue it reads as its value. */
  lemma UnsignedDecimalOfLiteral(l: Literal, tail: string)
    requires ValidLiteral(l) && EndsLiteral(tail)
    ensures UnsignedDecimal(UnsignedText(l) + tail)
      == Some(Scan(Finite(Scale(DecimalMantissa(l.intDigits, l.fracDigits), LiteralExponent(l))), |UnsignedText(l)|))
  {
    var s := UnsignedText(l) + tail;
    LiteralMantissaPart(l, tail);
    LiteralExponentPart(l, tail);
    if l.expDigits == [] {
      UnsignedWithoutExponent(s, l.intDigits, l.fracDigits, |MantissaText(l)|);
    } else {
      UnsignedWithExponent(s, l.intDigits, l.fracDigits, |MantissaText(l)|, ExponentText(l) + tail,
        LiteralExponent(l), |ExponentText(l)|, |UnsignedText(l)|);
    }
  }

  /** The digits and fraction of a literal read back first, and its exponent text follows. */
  lemma LiteralMantissaPart(l: Literal, tail: string)
    requires ValidLiteral(l) && EndsLiteral(tail)
    ensures var s, mt := UnsignedText(l) + tail, MantissaText(l);
      && Mantissa(s) == Some((l.intDigits, l.fracDigits, |mt|))
      && s[|mt|..] == ExponentText(l) + tail
      && |UnsignedText(l)| == |mt| + |ExponentText(l)|
  {
    var mt, rest := MantissaText(l), ExponentText(l) + tail;
    assert UnsignedText(l) + tail == mt + rest;
    MantissaOfLiteral(l, rest);
  }

  /** The exponent text of a literal, followed by a tail that does not continue it, reads as
      the literal's exponent; without one, no exponent part is read. */
  lemma LiteralExponentPart(l: Literal, tail: string)
    requires ValidLiteral(l) && EndsLiteral(tail)
    ensures l.expDigits == [] ==> ExponentText(l) + tail == tail && ExponentPart(tail).None?
    ensures l.expDigits != [] ==>
      ExponentPart(ExponentText(l) + tail) == Some((LiteralExponent(l), |ExponentText(l)|))
  {
    if l.expDigits != [] {
      ExponentPartOf(l.expNegative, l.expDigits, tail);
    }
  }

  lemma UnsignedWithExponent(s: string, i: string, f: string, end: nat, rest: string, e: int, len: nat, n: nat)
    requires Mantissa(s) == Some((i, f, end)) && s[end..] == rest && ExponentPart(rest) == Some((e, len))
    requires n == end + len
    ensures UnsignedDecimal(s) == Some(Scan(Finite(Scale(DecimalMantissa(i, f), e)), n))
  {
  }

  lemma UnsignedWithoutExponent(s: string, i: string, f: string, end: nat)
    requires Mantissa(s) == Some((i, f, end)) && ExponentPart(s[end..]).None?
    ensures UnsignedDecimal(s) == Some(Scan(Finite(DecimalMantissa(i, f)), end))
  {
  }

  /** A literal followed by a tail that cannot continue it is the numeric prefix, with its value. */
  lemma SignedNumberPrefixOfLiteral(l: Literal, tail: string)
    requires ValidLiteral(l) && EndsLiteral(tail)
    ensures SignedNumberPrefix(LiteralText(l) + tail) == Some(Scan(Finite(LiteralValue(l)), |LiteralText(l)|))
  {
    var sign := if l.negative then "-" else "";
    var v := Scale(DecimalMantissa(l.intDigits, l.fracDigits), LiteralExponent(l));
    LiteralSign(l, tail, sign);
    UnsignedDecimalOfLiteral(l, tail);
    SignedCompose(LiteralText(l) + tail, sign, UnsignedText(l) + tail, v, |UnsignedText(l)|, LiteralValue(l), |LiteralText(l)|);
  }

  /** Where the sign of a written literal ends and its unsigned part begins. */
  lemma LiteralSign(l: Literal, tail: string, sign: string)
    requires ValidLiteral(l) && sign == if l.negative then "-" else ""
    ensures var t, u := LiteralText(l) + tail, UnsignedText(l) + tail;
      && t != [] && SignLength(t) == |sign| && t[|sign|..] == u && (t[0] == '-' <==> |sign| == 1)
      && !StartsWith(u, "Infinity")
    ensures |LiteralText(l)| == |sign| + |UnsignedText(l)|
    ensures LiteralValue(l)
      == var v := Scale(DecimalMantissa(l.intDigits, l.fracDigits), LiteralExponent(l)); if |sign| == 1 then -v else v
  {
    var t, u := LiteralText(l) + tail, UnsignedText(l) + tail;
    assert |sign| <= 1 && (|sign| == 1 ==> sign[0] == '-');
    assert t == sign + u;
    assert u[0] == if l.intDigits != [] then l.intDigits[0] else '.';
    SignFacts(t, sign, u);
  }

  /** An optional `-` before an unsigned literal negates its value and adds to its length. */
  lemma SignedCompose(s: string, sign: string, u: string, v: real, len: nat, w: real, n: nat)
    requires s != [] && SignLength(s) == |sign| && s[|sign|..] == u && (s[0] == '-' <==> |sign| == 1)
    requires !StartsWith(u, "Infinity")
    requires UnsignedDecimal(u) == Some(Scan(Finite(v), len))
    requires w == (if |sign| == 1 then -v else v) && n == |sign| + len
    ensures SignedNumberPrefix(s) == Some(Scan(Finite(w), n))
  {
    SignedFinite(s, |sign|, u, v, len, w, n);
  }

  /** An optional `-` before an unsigned literal: where the literal starts, and it is not `Infinity`. */
  lemma SignFacts(s: string, sign: string, u: string)
    requires s == sign + u && |sign| <= 1 && (|sign| == 1 ==> sign[0] == '-')
    requires u != [] && (IsDigit(u[0]) || u[0] == '.')
    ensures s != [] && SignLength(s) == |sign| && s[|sign|..] == u && (s[0] == '-' <==> |sign| == 1)
    ensures !StartsWith(u, "Infinity")
  {
    assert s[|sign|..] == u;
    assert s[0] == if |sign| == 1 then '-' else u[0];
    assert |u| < 8 || u[..8][0] == u[0];
  }

  /** A finite literal after the sign: its value, negated after `-`, and its length plus the sign's. */
  lemma SignedFinite(s: string, k: nat, u: string, v: real, len: nat, w: real, n: nat)
    requires s != [] && k == SignLength(s) && s[k..] == u && !StartsWith(u, "Infinity")
    requires UnsignedDecimal(u) == Some(Scan(Finite(v), len))
    requires w == (if s[0] == '-' then -v else v) && n == k + len
    ensures SignedNumberPrefix(s) == Some(Scan(Finite(w), n))
  {
  }

  /** A written literal is not blank-padded, so `Number` reads it whole. */
  lemma LiteralTrimmed(l: Literal)
    requires ValidLiteral(l)
    ensures IsTrimmed(LiteralText(l))
  {
    var t := LiteralText(l);
    var last := if l.expDigits != [] then l.expDigits else if l.fracDigits != [] then l.fracDigits else l.intDigits;
    assert t[|t| - 1] == last[|last| - 1];
    assert t[0] == if l.negative then '-' else if l.intDigits != [] then l.intDigits[0] else '.';
  }

  /** `Number` reads back the value of a written literal. */
  lemma StringToNumberOfLiteral(l: Literal)
    requires ValidLiteral(l)
    ensures StringToNumber(LiteralText(l)) == Finite(LiteralValue(l))
  {
    var t := LiteralText(l);
    assert t + [] == t;
    LiteralTrimmed(l);
    SignedNumberPrefixOfLiteral(l, []);
    StringToNumberOfWhole(t, Finite(LiteralValue(l)));
  }

  /** A trimmed text whose numeric prefix is all of it reads as that number. */
  lemma StringToNumberOfWhole(t: string, v: JsNumber)
    requires t != [] && IsTrimmed(t) && SignedNumberPrefix(t) == Some(Scan(v, |t|))
    ensures StringToNumber(t) == v
  {
    TrimTrimmed(t);
  }

  /** `parseFloat` reads the value of a literal at the start of the text and ignores the rest. */
  lemma ParseFloatOfLiteral(l: Literal, tail: string)
    requires ValidLiteral(l) && EndsLiteral(tail)
    ensures ParseFloat(LiteralText(l) + tail) == Finite(LiteralValue(l))
  {
    var s := LiteralText(l) + tail;
    LiteralTrimmed(l);
    assert s[0] == LiteralText(l)[0] && !IsSpace(s[0]);
    assert TrimStart(s) == s;
    SignedNumberPrefixOfLiteral(l, tail);
  }

  /** `String(n)` writes a literal whose value is `n`. */
  lemma LiteralOfNat(n: nat)
    ensures var l := Literal(false, NatToString(n), "", false, "");
      ValidLiteral(l) && LiteralText(l) == NatToString(n) && LiteralValue(l) == n as real
  {
    var d := NatToString(n);
    var l := Literal(false, d, "", false, "");
    DigitsRealValue(d);
    assert DigitsReal("") == 0.0;
    assert LiteralText(l) == d;
  }

  /** `Number` reads back what `String` writes for a natural number. */
  lemma StringToNumberOfNat(n: nat)
    ensures StringToNumber(NatToString(n)) == Finite(n as real)
  {
    LiteralOfNat(n);
    StringToNumberOfLiteral(Literal(false, NatToString(n), "", false, ""));
  }

  /** `parseFloat` also reads back what `String` writes, and stops at the first non-digit. */
  lemma ParseFloatOfNat(n: nat, tail: string)
    requires EndsLiteral(tail)
    ensures ParseFloat(NatToString(n) + tail) == Finite(n as real)
  {
    LiteralOfNat(n);
    ParseFloatOfLiteral(Literal(false, NatToString(n), "", false, ""), tail);
  }

  /** The three spellings of an infinity read as infinities, and nothing else does. */
  lemma StringToNumberInfinity()
    ensures StringToNumber("Infinity") == PosInfinity
    ensures StringToNumber("+Infinity") == PosInfinity
    ensures StringToNumber("-Infinity") == NegInfinity
  {
    InfinityText();
    PlusInfinityText();
    MinusInfinityText();
  }

  lemma InfinityText()
    ensures StringToNumber("Infinity") == PosInfinity
  {
    assert "Infinity"[0..] == "Infinity";
    InfinityWhole("Infinity", 0, PosInfinity);
  }

  lemma PlusInfinityText()
    ensures StringToNumber("+Infinity") == PosInfinity
  {
    assert "+Infinity"[1..] == "Infinity";
    InfinityWhole("+Infinity", 1, PosInfinity);
  }

  lemma MinusInfinityText()
    ensures StringToNumber("-Infinity") == NegInfinity
  {
    assert "-Infinity"[1..] == "Infinity";
    InfinityWhole("-Infinity", 1, NegInfinity);
  }

  /** A whole trimmed text that is an optional sign and `Infinity` reads as the signed infinity. */
  lemma InfinityWhole(t: string, k: nat, v: JsNumber)
    requires k == SignLength(t) && |t| == k + 8 && t[k..] == "Infinity"
    requires v == if k == 1 && t[0] == '-' then NegInfinity else PosInfinity
    ensures StringToNumber(t) == v
  {
    assert IsTrimmed(t) by {
      assert t[|t| - 1] == t[k..][7];
      assert k == 0 ==> t[0] == t[k..][0];
    }
    assert StartsWith(t[k..], "Infinity");
    StringToNumberOfWhole(t, v);
  }

  lemma {:induction false} DigitRunPrefix(d: string, tail: string)
    requires AllDigits(d)
    requires tail == [] || !IsDigit(tail[0])
    ensures DigitRun(d + tail) == |d|
    decreases |d|
  {
    var s := d + tail;
    if d != [] {
      assert s[0] == d[0] && IsDigit(s[0]);
      assert s[1..] == d[1..] + tail;
      DigitRunPrefix(d[1..], tail);
    } else {
      assert s == tail;
    }
  }
}
