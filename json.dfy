/**
 * The JavaScript values that the client's loosely typed state holds, with
 * JavaScript's truthiness. Numbers are whole numbers here.
 */
module Json {
  import opened Decimal

  datatype JsValue =
    | Undefined
    | Null
    | Bool(b: bool)
    | Num(n: int)
    | Str(s: string)
    | Arr(items: seq<JsValue>)
    | Obj(fields: seq<(string, JsValue)>)

  /** What `if (v)` and `v || fallback` test. */
  predicate Truthy(v: JsValue) {
    match v
    case Undefined => false
    case Null => false
    case Bool(b) => b
    case Num(n) => n != 0
    case Str(s) => s != ""
    case Arr(_) => true
    case Obj(_) => true
  }

  /** `v || fallback`. */
  function Or(v: JsValue, fallback: JsValue): (r: JsValue)
    ensures Truthy(v) ==> r == v
    ensures !Truthy(v) ==> r == fallback
  {
    if Truthy(v) then v else fallback
  }

  /**
   * The own enumerable properties of `v`, in order: what `Object.entries`
   * lists and what `{...v}` copies. An array or a string lists its
   * indices; `undefined`, `null`, booleans and numbers have none.
   */
  function OwnEntries(v: JsValue): seq<(string, JsValue)> {
    match v
    case Obj(fields) => fields
    case Arr(items) => seq(|items|, i requires 0 <= i < |items| => (NatToString(i), items[i]))
    case Str(s) => seq(|s|, i requires 0 <= i < |s| => (NatToString(i), Str([s[i]])))
    case _ => []
  }
}
