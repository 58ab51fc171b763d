/**
 * The part of JavaScript's value semantics that the transfers handler relies on:
 * truthiness (`if (x)`, `x ? a : b`), `String(x)` and property reads `x.key`.
 * Numbers are integers here; floating point is not modelled.
 */
module JsValues {
  import opened Wrappers

  /** The contents of a Node.js Buffer. */
  type Bytes = seq<bv8>

  /** A JavaScript value as a database row or a jsonb column can hold it. */
  datatype Json =
    | JUndefined
    | JNull
    | JBool(b: bool)
    | JNumber(n: int)
    | JString(s: string)
    | JObject(fields: map<string, Json>)

  /** What JavaScript throws when a property is read from `null` or `undefined`. */
  datatype TypeError = CannotReadProperty(key: string)

  predicate Nullish(v: Json) {
    v.JUndefined? || v.JNull?
  }

  /** JavaScript's ToBoolean: exactly undefined, null, false, 0 and "" are falsy. */
  predicate Truthy(v: Json)
    ensures !Truthy(v) <==> v in {JUndefined, JNull, JBool(false), JNumber(0), JString("")}
  {
    match v
    case JUndefined => false
    case JNull => false
    case JBool(b) => b
    case JNumber(n) => n != 0
    case JString(s) => s != ""
    case JObject(_) => true
  }

  /**
   * `v.key` for a key naming a data field of a jsonb value (not a built-in property such
   * as `length`): throws on null and undefined, gives the object's own field when there
   * is one, and undefined otherwise.
   */
  function GetProperty(v: Json, key: string): (r: Result<Json, TypeError>)
    ensures r.Failure? <==> Nullish(v)
    ensures r.Failure? ==> r.error == CannotReadProperty(key)
    ensures v.JObject? && key in v.fields ==> r == Success(v.fields[key])
    ensures !Nullish(v) && !(v.JObject? && key in v.fields) ==> r == Success(JUndefined)
  {
    match v
    case JUndefined => Failure(CannotReadProperty(key))
    case JNull => Failure(CannotReadProperty(key))
    case JObject(fields) => Success(if key in fields then fields[key] else JUndefined)
    case _ => Success(JUndefined)
  }

  // ----- decimal text of integers, as Number.prototype.toString renders them -----

  predicate IsDigit(c: char) {
    '0' <= c <= '9'
  }

  predicate AllDigits(s: string) {
    forall i :: 0 <= i < |s| ==> IsDigit(s[i])
  }

  function DigitChar(d: nat): (c: char)
    requires d < 10
    ensures IsDigit(c)
  {
    ('0' as int + d) as char
  }

  function DigitValue(c: char): (d: nat)
    requires IsDigit(c)
    ensures d < 10 && DigitChar(d) == c
  {
    c as int - '0' as int
  }

  /** The value of a string of decimal digits, most significant first. */
  function DecimalValue(s: string): nat
    requires AllDigits(s)
  {
    if s == [] then 0 else 10 * DecimalValue(s[..|s| - 1]) + DigitValue(s[|s| - 1])
  }

  function NatToDecimal(n: nat): string {
    if n < 10 then [DigitChar(n)] else NatToDecimal(n / 10) + [DigitChar(n % 10)]
  }

  /** The canonical decimal text of a natural number: digits without leading zeros. */
  predicate Canonical(s: string) {
    && s != []
    && AllDigits(s)
    && (|s| > 1 ==> s[0] != '0')
  }

  lemma {:induction false} NatToDecimalRoundTrip(n: nat)
    ensures Canonical(NatToDecimal(n))
    ensures DecimalValue(NatToDecimal(n)) == n
  {
    var s := NatToDecimal(n);
    if n >= 10 {
      NatToDecimalRoundTrip(n / 10);
      var prefix := NatToDecimal(n / 10);
      assert s == prefix + [DigitChar(n % 10)];
      assert s[..|s| - 1] == prefix;
      assert s[0] == prefix[0];
    }
  }

  function IntToDecimal(n: int): string {
    if n < 0 then "-" + NatToDecimal(-n) else NatToDecimal(n)
  }

  /** Reads back an integer written in decimal; None for anything else. */
  function ParseInt(s: string): (r: Option<int>)
    ensures r.Some? ==> s != []
  {
    if |s| > 1 && s[0] == '-' && AllDigits(s[1..]) then Some(-(DecimalValue(s[1..]) as int))
    else if s != [] && AllDigits(s) then Some(DecimalValue(s))
    else None
  }

  /**
   * Rendering an integer as text loses nothing: the text reads back as the same integer.
   */
  lemma IntToDecimalRoundTrip(n: int)
    ensures ParseInt(IntToDecimal(n)) == Some(n)
  {
    if n < 0 {
      NatToDecimalRoundTrip(-n);
      var digits := NatToDecimal(-n);
      assert IntToDecimal(n)[1..] == digits;
    } else {
      NatToDecimalRoundTrip(n);
    }
  }

  /**
   * A canonical decimal text is the only one for its value: two of them with the same
   * value are the same text.
   */
  lemma {:induction false} CanonicalUnique(s: string, t: string)
    requires Canonical(s) && Canonical(t)
    requires DecimalValue(s) == DecimalValue(t)
    ensures s == t
  {
    if |s| > 1 && |t| > 1 {
      var s', t' := s[..|s| - 1], t[..|t| - 1];
      assert s'[0] == s[0] && t'[0] == t[0];
      CanonicalUnique(s', t');
      assert s == s' + [s[|s| - 1]] && t == t' + [t[|t| - 1]];
      assert DigitChar(DigitValue(s[|s| - 1])) == DigitChar(DigitValue(t[|t| - 1]));
    } else if |s| > 1 {
      assert s[..|s| - 1][0] == s[0];
      LeadingDigitPositive(s[..|s| - 1]);
    } else if |t| > 1 {
      assert t[..|t| - 1][0] == t[0];
      LeadingDigitPositive(t[..|t| - 1]);
    } else {
      assert DigitChar(DigitValue(s[0])) == DigitChar(DigitValue(t[0]));
    }
  }

  /** Digits that do not start with zero have a positive value. */
  lemma {:induction false} LeadingDigitPositive(s: string)
    requires s != [] && AllDigits(s) && s[0] != '0'
    ensures DecimalValue(s) > 0
  {
    if |s| > 1 {
      assert s[..|s| - 1][0] == s[0];
      LeadingDigitPositive(s[..|s| - 1]);
    }
  }

  /**
   * JavaScript's `String(v)`. An integer is rendered as its canonical decimal text, with a
   * minus sign before a negative one; by `CanonicalUnique` no other text of that form has
   * the same value.
   */
  function ToJsString(v: Json): (s: string)
    ensures v.JString? ==> s == v.s
    ensures v.JNumber? ==> ParseInt(s) == Some(v.n)
    ensures v.JNumber? && v.n >= 0 ==> Canonical(s)
    ensures v.JNumber? && v.n < 0 ==> |s| > 1 && s[0] == '-' && Canonical(s[1..])
    ensures v.JBool? ==> s == (if v.b then "true" else "false")
    ensures v.JObject? ==> s == "[object Object]"
    ensures v.JNull? ==> s == "null"
    ensures v.JUndefined? ==> s == "undefined"
  {
    match v
    case JUndefined => "undefined"
    case JNull => "null"
    case JBool(b) => if b then "true" else "false"
    case JNumber(n) =>
      IntToDecimalRoundTrip(n);
      NatToDecimalRoundTrip(if n < 0 then -n else n);
      IntToDecimal(n)
    case JString(s) => s
    case JObject(_) => "[object Object]"
  }
}
