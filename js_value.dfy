/**
 The JavaScript values a form handler can be given, and the three operations
 the blog-post validator applies to them: the `typeof` operator (ECMA-262
 section 13.5.3), conversion to a boolean as done by `!` (ToBoolean, section
 7.1.2), and reading a property of an object.
 */
module JsValues {

  /** A JavaScript value. `Number` holds a finite number (NaN and the
      infinities are not represented); `Object` stands for any object that is
      not callable, arrays included, with its own properties. */
  datatype JsValue =
    | Undefined
    | Null
    | Bool(b: bool)
    | Number(x: real)
    | Str(s: string)
    | Function
    | Object(props: map<string, JsValue>)

  /** The result of `typeof v`. */
  function TypeOf(v: JsValue): (r: string)
    ensures r == "string" <==> v.Str?
    ensures r == "object" <==> v.Null? || v.Object?
  {
    match v
    case Undefined => "undefined"
    case Null => "object"
    case Bool(_) => "boolean"
    case Number(_) => "number"
    case Str(_) => "string"
    case Function => "function"
    case Object(_) => "object"
  }

  /** ToBoolean: `null`, `undefined`, `false`, `0` and `""` are falsy. */
  function Truthy(v: JsValue): (r: bool)
    ensures v.Null? || v.Undefined? ==> !r
    ensures v.Object? || v.Function? ==> r
  {
    match v
    case Undefined => false
    case Null => false
    case Bool(b) => b
    case Number(x) => x != 0.0
    case Str(s) => s != ""
    case Function => true
    case Object(_) => true
  }

  /** `obj[key]` on an object: the property's value, or `undefined` when the
      object has no such property. */
  function Get(props: map<string, JsValue>, key: string): (r: JsValue)
    ensures key in props ==> r == props[key]
    ensures key !in props ==> r == Undefined
  {
    if key in props then props[key] else Undefined
  }

  /** The guard `!v || typeof v !== "object"` lets exactly the objects
      through: `null` has type "object" but is falsy, and every object is
      truthy. */
  lemma ObjectGuard(v: JsValue)
    ensures (Truthy(v) && TypeOf(v) == "object") <==> v.Object?
  {
  }

  /** Read-after-write laws of property access: a property reads back what
      was last written under its name, and writing or removing another
      property does not change what it reads. */
  lemma GetUpdate(props: map<string, JsValue>, key: string, other: string, w: JsValue)
    ensures Get(props[key := w], key) == w
    ensures key != other ==> Get(props[other := w], key) == Get(props, key)
    ensures key != other ==> Get(props - {other}, key) == Get(props, key)
  {
  }
}
