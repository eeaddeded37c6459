/**
 * A JSON document after Qt's QJsonDocument has parsed it, and the QVariant
 * conversions that the price readers apply to its values.
 */
module JsonTree {
  import opened Wrappers
  import Text

  /**
   * A QJsonValue. Numbers are exact reals (double rounding is not modelled);
   * `JUndefined` is what QJsonObject::value returns for a missing key.
   */
  datatype JsonValue =
    | JUndefined
    | JNull
    | JBool(b: bool)
    | JNumber(n: real)
    | JString(s: string)
    | JArray(items: seq<JsonValue>)
    | JObject(fields: map<string, JsonValue>)

  /** A QJsonDocument: null when the text could not be parsed. */
  datatype JsonDocument = NullDocument | Document(root: JsonValue)

  /** QJsonDocument::isEmpty. */
  predicate IsEmpty(doc: JsonDocument) {
    doc.NullDocument?
  }

  /** QJsonDocument::isObject. */
  predicate IsObject(doc: JsonDocument) {
    doc.Document? && doc.root.JObject?
  }

  /** QJsonObject::value: the member named `key`, or undefined. */
  function Value(fields: map<string, JsonValue>, key: string): (v: JsonValue)
    ensures key in fields ==> v == fields[key]
    ensures key !in fields ==> v.JUndefined?
  {
    if key in fields then fields[key] else JUndefined
  }

  const MinInt64: int := -0x8000_0000_0000_0000
  const MaxInt64: int := 0x7FFF_FFFF_FFFF_FFFF

  /** Truncation of a real toward zero, as a C++ cast to an integer does. */
  function Truncate(x: real): (r: int)
    ensures 0.0 <= x ==> r as real <= x < r as real + 1.0
    ensures x < 0.0 ==> r as real - 1.0 < x <= r as real
  {
    if x >= 0.0 then x.Floor else -((-x).Floor)
  }

  /** Rounding half away from zero (qRound64). */
  function Round(x: real): (r: int)
    ensures x - 0.5 <= r as real <= x + 0.5
    ensures 0.0 <= x ==> r as real <= x + 0.5 && x + 0.5 < r as real + 1.0
    ensures x < 0.0 ==> r as real - 1.0 < x - 0.5 && x - 0.5 <= r as real
  {
    if x >= 0.0 then (x + 0.5).Floor else -((-x + 0.5).Floor)
  }

  predicate IsDigit(c: char) {
    '0' <= c <= '9'
  }

  /** The value of a string of decimal digits. */
  function DigitsValue(ds: string): (v: nat)
    requires forall i :: 0 <= i < |ds| ==> IsDigit(ds[i])
  {
    if ds == [] then 0
    else
      assert IsDigit(ds[|ds| - 1]);
      DigitsValue(ds[..|ds| - 1]) * 10 + (ds[|ds| - 1] as int - '0' as int)
  }

  /**
   * QString::toLongLong in base 10: optional surrounding white space, an
   * optional sign and at least one digit, within the 64-bit range.
   */
  function ParseLongLong(s: string): (r: Option<int>)
    ensures r.Some? ==> MinInt64 <= r.value <= MaxInt64
  {
    var t := Text.Trim(s);
    var negative := |t| > 0 && t[0] == '-';
    var digits := if |t| > 0 && (t[0] == '-' || t[0] == '+') then t[1..] else t;
    if digits == [] || exists i :: 0 <= i < |digits| && !IsDigit(digits[i]) then None
    else
      var magnitude: int := DigitsValue(digits);
      var v := if negative then -magnitude else magnitude;
      if MinInt64 <= v <= MaxInt64 then Some(v) else None
  }

  /** The decimal digits of a natural number, most significant first. */
  function Digits(n: nat): (ds: string)
    ensures |ds| > 0
    ensures forall i :: 0 <= i < |ds| ==> IsDigit(ds[i])
  {
    if n < 10 then [('0' as int + n) as char]
    else Digits(n / 10) + [('0' as int + n % 10) as char]
  }

  /** The digits of `n` read back give `n`. */
  lemma {:induction false} DigitsRoundTrip(n: nat)
    ensures DigitsValue(Digits(n)) == n
  {
    if n >= 10 {
      DigitsRoundTrip(n / 10);
      var ds := Digits(n);
      assert ds[..|ds| - 1] == Digits(n / 10);
    }
  }

  /** A 64-bit integer written in decimal, as QString::number writes it. */
  function Decimal(v: int): (s: string)
  {
    if v < 0 then "-" + Digits(-v) else Digits(v)
  }

  /** Writing a 64-bit integer in decimal and reading it back gives it unchanged. */
  lemma DecimalRoundTrip(v: int)
    requires MinInt64 <= v <= MaxInt64
    ensures ParseLongLong(Decimal(v)) == Some(v)
  {
    var s := Decimal(v);
    var m: nat := if v < 0 then -v else v;
    var ds := Digits(m);
    DigitsRoundTrip(m);
    assert s == if v < 0 then "-" + ds else ds;
    assert IsDigit(s[|s| - 1]) && (s[0] == '-' || IsDigit(s[0]));
    Text.TrimTrimmed(s);
    var digits := if s[0] == '-' || s[0] == '+' then s[1..] else s;
    assert digits == ds;
    assert forall i :: 0 <= i < |digits| ==> IsDigit(digits[i]);
  }

  /**
   * QJsonValue::toVariant().toLongLong(&ok): `None` when `ok` would be false.
   * Numbers round half away from zero, booleans give 1 and 0, strings are
   * read as decimal integers.
   */
  function ToLongLong(v: JsonValue): (r: Option<int>)
    ensures v.JNumber? ==> r == Some(Round(v.n))
    ensures v.JBool? ==> r == Some(if v.b then 1 else 0)
    ensures v.JString? ==> r == ParseLongLong(v.s)
    ensures v.JUndefined? || v.JNull? || v.JArray? || v.JObject? ==> r.None?
  {
    match v
    case JNumber(n) => Some(Round(n))
    case JBool(b) => Some(if b then 1 else 0)
    case JString(s) => ParseLongLong(s)
    case _ => None
  }

  /**
   * QJsonValue::toVariant().toDouble(&ok): `None` when `ok` would be false.
   * Strings are read as decimal integers only.
   */
  function ToDouble(v: JsonValue): (r: Option<real>)
    ensures v.JNumber? ==> r == Some(v.n)
    ensures v.JBool? ==> r == Some(if v.b then 1.0 else 0.0)
    ensures v.JString? ==> (r.Some? <==> ParseLongLong(v.s).Some?)
    ensures v.JUndefined? || v.JNull? || v.JArray? || v.JObject? ==> r.None?
  {
    match v
    case JNumber(n) => Some(n)
    case JBool(b) => Some(if b then 1.0 else 0.0)
    case JString(s) =>
      (match ParseLongLong(s)
       case Some(i) => Some(i as real)
       case None => None)
    case _ => None
  }
}
