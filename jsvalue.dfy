/**
 * JavaScript values as they arrive from the JSON responses of the issue
 * tracker, the source-control host and the vector store, with the three
 * operations of the language the service leans on: truthiness, property
 * reads, and conversion to a string by `+` or a template literal.
 */
module JsValue {
  import opened Wrappers
  import JsString

  /** A JSON-shaped JavaScript value. Numbers are integers in this model. */
  datatype Json =
    | Undefined
    | Null
    | Bool(b: bool)
    | Num(n: int)
    | Str(s: string)
    | Arr(items: seq<Json>)
    | Obj(props: map<string, Json>)

  /** The value is truthy: what `if (v)`, `v || w` and `.filter(Boolean)` test. */
  predicate Truthy(v: Json) {
    match v
    case Undefined => false
    case Null => false
    case Bool(b) => b
    case Num(n) => n != 0
    case Str(s) => s != ""
    case Arr(_) => true
    case Obj(_) => true
  }

  /** `typeof v === 'object'`, which holds of null too. */
  predicate IsObjectType(v: Json) {
    v.Null? || v.Arr? || v.Obj?
  }

  /** `v || w` */
  function Or(v: Json, w: Json): (r: Json)
    ensures Truthy(v) ==> r == v
    ensures !Truthy(v) ==> r == w
  {
    if Truthy(v) then v else w
  }

  /**
   * `v[key]`: reading a property of null or undefined throws a TypeError;
   * an object yields its own property or undefined; any other value has
   * none of the properties the service reads.
   */
  function Get(v: Json, key: string): (r: Result<Json, Error>)
    ensures r.Failure? <==> v.Undefined? || v.Null?
    ensures r.Success? && v.Obj? && key in v.props ==> r.value == v.props[key]
    ensures r.Success? && !(v.Obj? && key in v.props) ==> r.value == Undefined
  {
    match v
    case Undefined => Failure(TypeError)
    case Null => Failure(TypeError)
    case Obj(props) => Success(if key in props then props[key] else Undefined)
    case _ => Success(Undefined)
  }

  /** `v?.[key]`: undefined instead of a TypeError. */
  function GetOpt(v: Json, key: string): (r: Json)
    ensures v.Undefined? || v.Null? ==> r == Undefined
    ensures Get(v, key).Success? ==> r == Get(v, key).value
  {
    match Get(v, key)
    case Success(w) => w
    case Failure(_) => Undefined
  }

  function DigitChar(d: nat): (c: char)
    requires d < 10
    ensures '0' <= c <= '9'
    ensures c as int - '0' as int == d
  {
    ('0' as int + d) as char
  }

  /** The decimal numeral of a natural number, without leading zeros. */
  function NatToDecimal(n: nat): (r: string)
    ensures |r| >= 1
    ensures forall i :: 0 <= i < |r| ==> '0' <= r[i] <= '9'
    ensures |r| > 1 ==> r[0] != '0'
  {
    if n < 10 then [DigitChar(n)] else NatToDecimal(n / 10) + [DigitChar(n % 10)]
  }

  /** ToString of an integer: a decimal numeral with a leading '-' when negative. */
  function IntToString(n: int): (r: string)
    ensures n >= 0 ==> r == NatToDecimal(n)
    ensures n < 0 ==> r == "-" + NatToDecimal(-n)
  {
    if n < 0 then "-" + NatToDecimal(-n) else NatToDecimal(n)
  }

  /**
   * ToString as applied by `+` and template literals: arrays are joined by
   * ',' with null and undefined elements written as empty strings, and
   * every object reads "[object Object]".
   */
  function ToJsString(v: Json): string {
    match v
    case Undefined => "undefined"
    case Null => "null"
    case Bool(b) => if b then "true" else "false"
    case Num(n) => IntToString(n)
    case Str(s) => s
    case Arr(items) =>
      JsString.Join(seq(|items|, i requires 0 <= i < |items| =>
        if items[i].Null? || items[i].Undefined? then "" else ToJsString(items[i])), ",")
    case Obj(_) => "[object Object]"
  }
}
