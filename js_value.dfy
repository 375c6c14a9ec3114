/** JavaScript values as the settings editor stores and forwards them, and the
    few operators of the language that the editor's handlers rely on:
    truthiness, `||`, `??`, `Array.isArray`, and reading and writing one key. */
module JsValue {

  datatype Option<+T> = None | Some(value: T)

  /** The outcome of an expression that may throw a JavaScript TypeError. */
  datatype Result<+T> = Ok(value: T) | TypeError

  /** A value of the editor's value tree. Numbers are kept abstract: a finite
      number or the not-a-number that failed parsing produces. */
  datatype Value =
    | Undefined
    | Null
    | Bool(b: bool)
    | Num(x: real)
    | NaN
    | Str(s: string)
    | File(handle: nat)                 // a browser File object, seen only by identity
    | Obj(fields: map<string, Value>)
    | Arr(items: seq<Value>)

  /** JavaScript truthiness, the test behind `||`, `? :` and `if`. */
  predicate Truthy(v: Value) {
    match v
    case Undefined | Null | NaN => false
    case Bool(b) => b
    case Num(x) => x != 0.0
    case Str(s) => s != ""
    case File(_) | Obj(_) | Arr(_) => true
  }

  /** `a || b`. */
  function Or(a: Value, b: Value): (r: Value)
    ensures r == a || r == b
    ensures Truthy(r) <==> Truthy(a) || Truthy(b)
    ensures Truthy(a) ==> r == a
  {
    if Truthy(a) then a else b
  }

  /** `a ?? b`. */
  function Coalesce(a: Value, b: Value): (r: Value)
    ensures r == a || r == b
    ensures !a.Undefined? && !a.Null? ==> r == a
  {
    if a.Undefined? || a.Null? then b else a
  }

  /** `Array.isArray(v) ? v : []`: the items of an array, and no items for
      anything else. */
  function AsArray(v: Value): (r: seq<Value>)
    ensures v.Arr? ==> r == v.items
    ensures !v.Arr? ==> r == []
  {
    if v.Arr? then v.items else []
  }

  /** `(v || [])` used as the receiver of `.filter` or `.map`: a falsy value
      becomes the empty array, an array is itself, and anything else has no
      such method, so the call throws. */
  function OrEmpty(v: Value): (r: Result<seq<Value>>)
    ensures r.Ok? <==> v.Arr? || !Truthy(v)
    ensures r.Ok? ==> r.value == AsArray(v)
  {
    match Or(v, Arr([]))
    case Arr(items) => Ok(items)
    case _ => TypeError
  }

  /** `o[key]`: null and undefined throw; a key an object lacks reads as
      undefined. */
  function GetKey(o: Value, key: string): (r: Result<Value>)
    ensures r.TypeError? <==> o.Undefined? || o.Null?
    ensures o.Obj? ==> r == Ok(if key in o.fields then o.fields[key] else Undefined)
  {
    match o
    case Undefined | Null => TypeError
    case Obj(m) => Ok(if key in m then m[key] else Undefined)
    case _ => Ok(Undefined)
  }

  /** `o[key] = v` in strict-mode code, giving the object afterwards: an
      object gains or replaces the key; null, undefined and primitives throw.
      Arrays and File objects accept the assignment as an extra property,
      which the value tree does not record. */
  function SetKey(o: Value, key: string, v: Value): (r: Result<Value>)
    ensures r.Ok? <==> o.Obj? || o.Arr? || o.File?
    ensures o.Obj? ==> r == Ok(Obj(o.fields[key := v]))
    ensures r.Ok? && !o.Obj? ==> r.value == o
  {
    match o
    case Obj(m) => Ok(Obj(m[key := v]))
    case Arr(_) | File(_) => Ok(o)
    case _ => TypeError
  }

  /** Writing a key of an object and reading it back gives the value written,
      and every other key reads as before. */
  lemma SetThenGet(o: Value, key: string, v: Value, other: string)
    requires o.Obj?
    ensures SetKey(o, key, v).Ok?
    ensures GetKey(SetKey(o, key, v).value, key) == Ok(v)
    ensures other != key ==> GetKey(SetKey(o, key, v).value, other) == GetKey(o, other)
  {
  }
}
