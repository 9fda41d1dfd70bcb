/** The JavaScript values that flow through the client store: response bodies,
    action payloads and the documents held in the store's lists. */
module Js {

  import opened Wrappers

  /** A JSON-like JavaScript value. Numbers are integers here; arrays and objects are
      compared by contents, where JavaScript compares them by reference. */
  datatype Value =
    | Undefined
    | Null
    | Bool(b: bool)
    | Num(n: int)
    | Str(s: string)
    | Arr(items: seq<Value>)
    | Obj(fields: map<string, Value>)

  /** `!!v`: JavaScript truthiness. */
  predicate Truthy(v: Value)
  {
    match v
    case Undefined => false
    case Null => false
    case Bool(b) => b
    case Num(n) => n != 0
    case Str(s) => s != ""
    case Arr(_) => true
    case Obj(_) => true
  }

  /** `v == null`: the values `??` and `?.` treat as missing. */
  predicate Nullish(v: Value)
  {
    v.Undefined? || v.Null?
  }

  /** `v?.key`: an own property of an object; anything else reads as `undefined`. */
  function Prop(v: Value, key: string): (r: Value)
    ensures Nullish(v) ==> r == Undefined
    ensures r != Undefined ==> v.Obj? && key in v.fields && v.fields[key] == r
    ensures v.Obj? && key in v.fields ==> r == v.fields[key]
  {
    if v.Obj? && key in v.fields then v.fields[key] else Undefined
  }

  /** `v.key` without `?.`: reading a property of `null` or `undefined` throws a TypeError. */
  function Read(v: Value, key: string): (r: Option<Value>)
    ensures r.None? <==> Nullish(v)
    ensures r.Some? ==> r.value == Prop(v, key)
  {
    if Nullish(v) then None else Some(Prop(v, key))
  }

  /** `a ?? b`. */
  function Coalesce(a: Value, b: Value): (r: Value)
    ensures !Nullish(a) ==> r == a
    ensures Nullish(a) ==> r == b
  {
    if Nullish(a) then b else a
  }

  /** A document's `_id`, as `doc._id` reads it in the reducers. */
  function IdOf(doc: Value): Value
  {
    Prop(doc, "_id")
  }
}
