/** The slice of JavaScript value semantics that the trivia component relies on:
    truthiness, the `!`, `||` and `&&` operators, property reads on plain
    objects, and the text React renders for a child expression. */
module JsValues {

  /** A JSON value as it arrives in a socket payload or sits in component state.
      Numbers are modelled as integers: no NaN, no negative zero, no fractions. */
  datatype Value = Undefined | Null | Bool(b: bool) | Num(n: int) | Str(s: string)

  /** An object reference that may be `null`. An object itself is always truthy. */
  datatype Nullable<T> = NullRef | Ref(obj: T)

  /** JavaScript's ToBoolean conversion. */
  predicate Truthy(v: Value) {
    match v
    case Undefined => false
    case Null => false
    case Bool(b) => b
    case Num(n) => n != 0
    case Str(s) => s != ""
  }

  /** The exact falsy values of the model. */
  lemma FalsyValues(v: Value)
    ensures !Truthy(v) <==> v in {Undefined, Null, Bool(false), Num(0), Str("")}
  {
  }

  /** `!v`: always a boolean. */
  function Not(v: Value): Value {
    Bool(!Truthy(v))
  }

  /** `a || b`: the first operand when it is truthy, otherwise the second. */
  function Or(a: Value, b: Value): Value {
    if Truthy(a) then a else b
  }

  /** `a && b`: the second operand when the first is truthy, otherwise the first. */
  function And(a: Value, b: Value): Value {
    if Truthy(a) then b else a
  }

  /** ToBoolean of a possibly-null object reference. */
  predicate RefTruthy<T>(n: Nullable<T>) {
    n.Ref?
  }

  /** `obj[key]` on a plain object: `undefined` when the key is absent. */
  function Get(obj: map<string, Value>, key: string): (v: Value)
    ensures key !in obj ==> v == Undefined
  {
    if key in obj then obj[key] else Undefined
  }

  /** `obj[key]` on an object whose values are numbers. */
  function GetNum(obj: map<string, int>, key: string): (v: Value)
    ensures key !in obj ==> v == Undefined
    ensures key in obj ==> v == Num(obj[key])
  {
    if key in obj then Num(obj[key]) else Undefined
  }

  /** The text React renders for a child expression: `undefined`, `null` and
      booleans render nothing, numbers render in decimal, strings as they are. */
  function RenderText(v: Value): string {
    match v
    case Undefined => ""
    case Null => ""
    case Bool(_) => ""
    case Num(n) => IntToDecimal(n)
    case Str(s) => s
  }

  function IntToDecimal(n: int): string {
    if n < 0 then "-" + NatToDecimal(-n) else NatToDecimal(n)
  }

  /** The decimal digits of `n`, most significant first, without leading zeros. */
  function NatToDecimal(n: nat): (r: string)
    ensures |r| > 0 && forall i :: 0 <= i < |r| ==> IsDigit(r[i])
    ensures |r| > 1 ==> r[0] != '0'
  {
    if n < 10 then [DigitChar(n)] else NatToDecimal(n / 10) + [DigitChar(n % 10)]
  }

  predicate IsDigit(c: char) {
    '0' <= c <= '9'
  }

  function DigitChar(d: nat): (c: char)
    requires d < 10
    ensures IsDigit(c) && c as int - '0' as int == d
  {
    ('0' as int + d) as char
  }

  /** The number a string of decimal digits denotes. */
  function DigitsValue(s: string): nat
    requires forall i :: 0 <= i < |s| ==> IsDigit(s[i])
    decreases |s|
  {
    if s == [] then 0
    else
      assert IsDigit(s[|s| - 1]);
      DigitsValue(s[..|s| - 1]) * 10 + (s[|s| - 1] as int - '0' as int)
  }

  /** Reading the rendered digits back gives the number that was rendered. */
  lemma {:induction false} NatToDecimalRoundTrip(n: nat)
    ensures DigitsValue(NatToDecimal(n)) == n
    decreases n
  {
    if n >= 10 {
      var r := NatToDecimal(n);
      var init := NatToDecimal(n / 10);
      assert r[..|r| - 1] == init;
      NatToDecimalRoundTrip(n / 10);
    }
  }
}
