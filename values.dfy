/** The JavaScript values that flow through a stream.

    Numbers are modelled as unbounded integers (no floating point, no NaN).
    Structural equality `==` on this datatype plays the role of the deep
    equality routine used by `distinct`: arrays compare element by element and
    objects compare key by key regardless of key order. */
module JsValues {

  datatype JsValue =
    | Undefined
    | Null
    | Bool(b: bool)
    | Num(n: int)
    | Str(s: string)
    | Arr(elems: seq<JsValue>)
    | Obj(fields: map<string, JsValue>)

  /** JavaScript truthiness, `Boolean(v)`: undefined, null, false, 0 and the
      empty string are falsy; every other value (including every array and
      every object, even empty ones) is truthy. */
  predicate Truthy(v: JsValue)
    ensures Truthy(v) <==> v !in Falsy
  {
    match v
    case Undefined => false
    case Null => false
    case Bool(b) => b
    case Num(n) => n != 0
    case Str(s) => s != ""
    case Arr(_) => true
    case Obj(_) => true
  }

  /** The five falsy values, listed independently of `Truthy`. */
  const Falsy: set<JsValue> := {Undefined, Null, Bool(false), Num(0), Str("")}
}
