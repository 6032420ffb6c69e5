/** The few JavaScript value semantics the source leans on: numbers with their
    non-finite values, JSON-like values, truthiness and `Number(...)` coercion. */
module Js {

  /** A JavaScript number. Finite values are kept exact (no IEEE rounding). */
  datatype JsNumber = Finite(r: real) | NaN | Infinity | NegInfinity

  datatype JsValue =
    | Undefined
    | Null
    | Bool(b: bool)
    | Num(n: JsNumber)
    | Str(s: string)
    | Arr(items: seq<JsValue>)
    | Object  // a plain object

  /** What `if (v)`, `!v` and `v || d` test. */
  predicate Truthy(v: JsValue) {
    match v
    case Undefined => false
    case Null => false
    case Bool(b) => b
    case Num(n) => n != Finite(0.0) && n != NaN
    case Str(s) => s != []
    case Arr(_) => true
    case Object => true
  }

  /** `Number.isInteger`: finite with no fractional part. */
  predicate IsInteger(n: JsNumber) {
    n.Finite? && n.r.Floor as real == n.r
  }

  /** `Number(v)`. How a string reads as a number (`"18"`, `" 0x12 "`, `""`) is
      the parameter `parse`; the other cases are fixed by the language. An array
      converts through its `join(",")` text: `[]` gives 0, a single element
      converts like its own text (`[null]` gives 0, `[18]` and `["18"]` give 18,
      `[true]` NaN), and two or more elements put a ',' in the text, which no
      number literal contains, so they give NaN. */
  function ToNumber(v: JsValue, parse: string -> JsNumber): (n: JsNumber)
    ensures v.Num? ==> n == v.n
    ensures v.Str? ==> n == parse(v.s)
    ensures v.Bool? ==> (n == Finite(1.0) <==> v.b) && (n == Finite(0.0) <==> !v.b)
    ensures v.Undefined? || v.Object? ==> n == NaN
    ensures v.Null? ==> n == Finite(0.0)
    ensures v.Arr? && |v.items| == 0 ==> n == Finite(0.0)
    ensures v.Arr? && |v.items| >= 2 ==> n == NaN
    ensures v.Arr? && |v.items| == 1 ==>
      n == (if v.items[0].Undefined? || v.items[0].Null? then Finite(0.0)
            else if v.items[0].Bool? || v.items[0].Object? then NaN
            else ToNumber(v.items[0], parse))
    decreases v, 0
  {
    match v
    case Undefined => NaN
    case Null => Finite(0.0)
    case Bool(b) => if b then Finite(1.0) else Finite(0.0)
    case Num(n) => n
    case Str(s) => parse(s)
    case Arr(items) =>
      if |items| == 0 then Finite(0.0)
      else if |items| >= 2 then NaN
      else ElementNumber(items[0], parse)
    case Object => NaN
  }

  /** `Number(String(x))` for the one element of a one-element array: `String`
      prints `null` and `undefined` as "" inside an array, booleans and objects
      as words, and numbers, strings and arrays as text that reads back as
      `Number(x)`. */
  function ElementNumber(x: JsValue, parse: string -> JsNumber): JsNumber
    decreases x, 1
  {
    match x
    case Undefined => Finite(0.0)
    case Null => Finite(0.0)
    case Bool(_) => NaN
    case Object => NaN
    case _ => ToNumber(x, parse)
  }
}
