/**
 * The JavaScript values that flow through the data-access layer: the scalar
 * values of a `ConditionClause` (and of any column mapping), their text under
 * a template literal, and the ordered mapping itself.
 */
module JsValues {
  import opened Strings

  /**
   * A scalar JavaScript value. `Num` covers the integer numbers; `Other`
   * stands for any value of another type (a `Date`, say), carrying the text
   * JavaScript gives it, which the layer never inspects.
   */
  datatype Value =
    | Str(s: string)
    | Num(n: int)
    | Bool(b: bool)
    | Null
    | Undefined
    | Other(text: string)

  /** `${v}` / `String(v)`: the text a template literal or `replace` callback makes of `v`. */
  function Text(v: Value): string
  {
    match v
    case Str(s) => s
    case Num(n) => IntToDecimal(n)
    case Bool(b) => if b then "true" else "false"
    case Null => "null"
    case Undefined => "undefined"
    case Other(t) => t
  }

  /**
   * A plain object used as a column mapping, as its entries in `Object.keys`
   * order. Column names are not integer-like, so that order is insertion order.
   */
  type Mapping = seq<(string, Value)>

  /** `Object.keys(m)`. */
  function Keys(m: Mapping): (ks: seq<string>)
    ensures |ks| == |m|
    ensures forall i :: 0 <= i < |m| ==> ks[i] == m[i].0
  {
    if m == [] then [] else [m[0].0] + Keys(m[1..])
  }

  /** `Object.values(m)`. */
  function Values(m: Mapping): (vs: seq<Value>)
    ensures |vs| == |m|
    ensures forall i :: 0 <= i < |m| ==> vs[i] == m[i].1
  {
    if m == [] then [] else [m[0].1] + Values(m[1..])
  }

  /** No column name of `m` contains the placeholder character. */
  predicate PlainKeys(m: Mapping)
  {
    forall i :: 0 <= i < |m| ==> '?' !in m[i].0
  }
}
