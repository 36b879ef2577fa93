/** Untyped JavaScript values, as request bodies and parsed model output deliver them. */
module JsValues {
  import opened Wrappers
  import opened Text
  import opened JsNumbers

  datatype JsValue =
    | JNumber(n: JsNumber)
    | JString(s: string)
    | JBool(b: bool)
    | JNull
    | JUndefined
    | JArray(elems: seq<JsValue>)
    | JObject(fields: map<string, JsValue>)

  /** Property read `obj.key`: `undefined` when the key is absent. */
  function Field(obj: map<string, JsValue>, key: string): JsValue {
    if key in obj then obj[key] else JUndefined
  }

  /**
   * The `toNumber` helper of the engine (the profile route's `normalizeNumber` is the same
   * code): a finite number is kept, a non-blank string is read with `Number` and kept when
   * finite, and everything else is null.
   */
  function ToFiniteNumber(v: JsValue): (r: Option<real>)
    ensures v.JNumber? ==> (r.Some? <==> v.n.Finite?)
    ensures r.Some? && v.JNumber? ==> r.value == v.n.value
    ensures v.JString? ==> (r.Some? <==> Trim(v.s) != "" && StringToNumber(v.s).Finite?)
    ensures r.Some? && v.JString? ==> r.value == StringToNumber(v.s).value
    ensures !v.JNumber? && !v.JString? ==> r.None?
  {
    match v
    case JNumber(n) => if n.Finite? then Some(n.value) else None
    case JString(s) =>
      if Trim(s) != "" then
        var parsed := StringToNumber(s);
        if parsed.Finite? then Some(parsed.value) else None
      else None
    case _ => None
  }

  /** A decimal string written by `String(n)` reads back as `n`. */
  lemma ToFiniteNumberOfNatString(n: nat)
    ensures ToFiniteNumber(JString(NatToString(n))) == Some(n as real)
  {
    var s := NatToString(n);
    assert Trim(s) == s by {
      DigitsTrimmed(s);
    }
    assert StringToNumber(s) == Finite(n as real) by {
      StringToNumberOfNat(n);
    }
  }

  lemma DigitsTrimmed(s: string)
    requires s != [] && AllDigits(s)
    ensures Trim(s) == s
  {
    assert IsDigit(s[0]) && IsDigit(s[|s| - 1]);
    TrimTrimmed(s);
  }

  /**
   * The recommend route's `toNumber` over its declared parameter type
   * (`string | number | null | undefined`): null and undefined give null, anything else is
   * read with `Number` and kept when finite. Unlike `ToFiniteNumber`, it reads a blank
   * string as 0.
   */
  function RouteToNumber(v: JsValue): (r: Option<real>)
    requires v.JNull? || v.JUndefined? || v.JNumber? || v.JString?
    ensures (v.JNull? || v.JUndefined?) ==> r.None?
    ensures v.JNumber? ==> r == ToFiniteNumber(v)
    ensures v.JString? && Trim(v.s) != "" ==> r == ToFiniteNumber(v)
    ensures v.JString? && Trim(v.s) == "" ==> r == Some(0.0)
  {
    var parsed := match v
      case JNumber(n) => n
      case JString(s) => StringToNumber(s)
      case _ => NaN;
    if v.JNull? || v.JUndefined? then None
    else if parsed.Finite? then Some(parsed.value)
    else None
  }
}
