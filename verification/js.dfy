/**
 The JavaScript value conventions the searcher leans on: optional values,
 strings that may be `undefined`, truthiness, and the `||` operator used
 throughout the record mapping for defaults.
 */
module Js {

  /** A value that may be absent (a missing JSON member, an unset number). */
  datatype Option<+T> = None | Some(value: T)

  /** A JavaScript value that is either a string or `undefined`. */
  datatype Str = Undefined | Text(s: string)

  /** JavaScript truthiness of a string-or-undefined: `""` and `undefined` are falsy. */
  predicate Truthy(v: Str) {
    v.Text? && v.s != ""
  }

  /** `a || b` on strings-or-undefined. */
  function Or(a: Str, b: Str): Str {
    if Truthy(a) then a else b
  }

  /** `a || fallback` where the fallback is a string literal, so the result is a string. */
  function OrElse(a: Str, fallback: string): string {
    if Truthy(a) then a.s else fallback
  }

  /** `String(v)`, the coercion `RegExp.prototype.test` applies to its argument. */
  function ToText(v: Str): string {
    match v
    case Undefined => "undefined"
    case Text(s) => s
  }

  /** JavaScript truthiness of an optional number: absent and `0` are falsy. */
  predicate TruthyNumber(n: Option<int>) {
    n.Some? && n.value != 0
  }

  /** `xs[0]` on an array of strings: `undefined` when the array is empty. */
  function First(xs: seq<string>): (r: Str)
    ensures r.Undefined? <==> |xs| == 0
    ensures r.Text? ==> r.s == xs[0]
  {
    if |xs| == 0 then Undefined else Text(xs[0])
  }
}
