/** JavaScript values as the frontend handles them: server payloads, form
    values and props. Numbers are integers only. Property access follows the
    language: reading a property of `undefined` or `null` throws a TypeError,
    reading a missing property yields `undefined`. */
module Js {
  import opened Wrappers
  import Text

  datatype JsValue =
    | Undefined
    | Null
    | Bool(b: bool)
    | Num(n: int)
    | Str(s: string)
    | Arr(items: seq<JsValue>)
    | Obj(props: map<string, JsValue>)

  /** `Boolean(v)`: false for undefined, null, false, 0 and "". */
  predicate Truthy(v: JsValue) {
    match v
    case Undefined => false
    case Null => false
    case Bool(b) => b
    case Num(n) => n != 0
    case Str(s) => s != []
    case Arr(_) => true
    case Obj(_) => true
  }

  /** The TypeError thrown by reading a property of undefined or null. */
  datatype TypeError = TypeError

  /** `v.key` */
  function Get(v: JsValue, key: string): (r: Result<JsValue, TypeError>)
    ensures r.Err? <==> v.Undefined? || v.Null?
    ensures v.Obj? ==> r == Ok(if key in v.props then v.props[key] else Undefined)
  {
    match v
    case Undefined => Err(TypeError)
    case Null => Err(TypeError)
    case Obj(props) => Ok(if key in props then props[key] else Undefined)
    case _ => Ok(Undefined)
  }

  /** `v?.key` */
  function OptGet(v: JsValue, key: string): (r: JsValue)
    ensures v.Undefined? || v.Null? ==> r == Undefined
    ensures !(v.Undefined? || v.Null?) ==> Get(v, key) == Ok(r)
  {
    match Get(v, key)
    case Ok(x) => x
    case Err(_) => Undefined
  }

  /** `a || b` */
  function Or(a: JsValue, b: JsValue): (r: JsValue)
    ensures Truthy(a) ==> r == a
    ensures !Truthy(a) ==> r == b
  {
    if Truthy(a) then a else b
  }

  /** `String(v)`, which is also what a template literal and
      `localStorage.setItem` make of a value. */
  function ToText(v: JsValue): string
    decreases v
  {
    match v
    case Undefined => "undefined"
    case Null => "null"
    case Bool(b) => if b then "true" else "false"
    case Num(n) => Text.IntText(n)
    case Str(s) => s
    case Arr(items) => JoinItems(items)
    case Obj(_) => "[object Object]"
  }

  /** `Array.prototype.join(',')`, where undefined and null items print as "". */
  function JoinItems(items: seq<JsValue>): string
    decreases items
  {
    if items == [] then ""
    else
      var head := if items[0].Undefined? || items[0].Null? then "" else ToText(items[0]);
      if |items| == 1 then head else head + "," + JoinItems(items[1..])
  }
}
