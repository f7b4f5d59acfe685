/** JavaScript values as they reach the orders controller in a parsed request
    body, and the parts of JavaScript's conversion rules that the controller
    relies on: truthiness (`!x`), loose equality with the empty string
    (`x == ""`) and conversion to text (`${x}` in a template literal).
    Numbers are integers only; fractional numbers and NaN are not modelled. */
module JsValues {

  /** `None` is a property that is absent (reads as `undefined`). */
  datatype Option<T> = None | Some(value: T)

  datatype Json =
    | JNull
    | JBool(b: bool)
    | JNum(n: int)
    | JStr(s: string)
    | JArr(items: seq<Json>)
    | JObj(fields: map<string, Json>)

  /** Reads property `key` of a plain object. */
  function Get(o: map<string, Json>, key: string): Option<Json>
  {
    if key in o then Some(o[key]) else None
  }

  /** JavaScript truthiness: null, false, 0 and "" are the falsy values. */
  predicate Truthy(v: Json)
  {
    match v
    case JNull => false
    case JBool(b) => b
    case JNum(n) => n != 0
    case JStr(s) => s != ""
    case _ => true
  }

  /** `!x` for a property read, where an absent property is `undefined`. */
  predicate Falsy(x: Option<Json>)
  {
    x.None? || !Truthy(x.value)
  }

  // ---------------------------------------------------------------------
  // Numbers as decimal text

  predicate IsDigit(c: char)
  {
    '0' <= c <= '9'
  }

  predicate AllDigits(s: string)
  {
    forall i :: 0 <= i < |s| ==> IsDigit(s[i])
  }

  function DigitChar(d: nat): (c: char)
    requires d < 10
    ensures IsDigit(c)
  {
    ('0' as int + d) as char
  }

  function DigitValue(c: char): nat
    requires IsDigit(c)
  {
    c as int - '0' as int
  }

  /** The decimal text of a natural number, as `${n}` writes it. */
  function NatToString(n: nat): (s: string)
    ensures |s| > 0 && AllDigits(s)
    ensures n < 10 <==> |s| == 1
  {
    if n < 10 then [DigitChar(n)] else NatToString(n / 10) + [DigitChar(n % 10)]
  }

  /** The value of a string of decimal digits: the inverse of NatToString. */
  function DigitsValue(s: string): nat
    requires AllDigits(s)
  {
    if s == [] then 0 else 10 * DigitsValue(s[..|s| - 1]) + DigitValue(s[|s| - 1])
  }

  /** Reading back the decimal text of `n` gives `n`, so the text names `n` alone. */
  lemma {:induction false} NatToStringRoundTrip(n: nat)
    ensures DigitsValue(NatToString(n)) == n
  {
    if n >= 10 {
      var s := NatToString(n);
      assert s[..|s| - 1] == NatToString(n / 10);
      NatToStringRoundTrip(n / 10);
    }
  }

  lemma NatToStringInjective(a: nat, b: nat)
    requires NatToString(a) == NatToString(b)
    ensures a == b
  {
    NatToStringRoundTrip(a);
    NatToStringRoundTrip(b);
  }

  function IntToString(i: int): string
  {
    if i < 0 then "-" + NatToString(-i) else NatToString(i)
  }

  // ---------------------------------------------------------------------
  // Conversion to text

  /** `String(v)`: arrays are joined with "," (null elements give ""), plain
      objects give "[object Object]". */
  function ToJsString(v: Json): string
    decreases v, 1, 0
  {
    match v
    case JNull => "null"
    case JBool(b) => if b then "true" else "false"
    case JNum(n) => IntToString(n)
    case JStr(s) => s
    case JArr(items) => JoinFrom(v, 0)
    case JObj(_) => "[object Object]"
  }

  /** `Array.prototype.join(",")` over the elements of `arr` from index `i` on. */
  function JoinFrom(arr: Json, i: nat): string
    requires arr.JArr?
    decreases arr, 0, |arr.items| - i
  {
    if i >= |arr.items| then ""
    else
      var e := if arr.items[i].JNull? then "" else ToJsString(arr.items[i]);
      if i + 1 == |arr.items| then e else e + "," + JoinFrom(arr, i + 1)
  }

  /** One step of the join over an element that is a string. */
  lemma JoinFromString(arr: Json, i: nat, s: string)
    requires arr.JArr? && i < |arr.items| && arr.items[i] == JStr(s)
    ensures JoinFrom(arr, i) == if i + 1 == |arr.items| then s else s + "," + JoinFrom(arr, i + 1)
  {
  }

  /** An array reads as the empty string exactly when it is empty or holds a
      single element that itself reads as empty: two or more elements always
      leave a comma. */
  lemma ArrayToStringEmpty(items: seq<Json>)
    ensures ToJsString(JArr(items)) == ""
        <==> |items| == 0 || (|items| == 1 && (items[0].JNull? || ToJsString(items[0]) == ""))
  {
    var v := JArr(items);
    if |items| >= 2 {
      assert |JoinFrom(v, 0)| > 0;
    }
  }

  /** `v == ""` under JavaScript's loose equality. */
  predicate LooselyEqualsEmptyString(v: Json)
  {
    match v
    case JNull => false
    case JBool(b) => !b
    case JNum(n) => n == 0
    case JStr(s) => s == ""
    case JArr(_) => ToJsString(v) == ""
    case JObj(_) => false
  }
}
