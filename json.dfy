/** JSON values as `JSON.parse` returns them, with the JavaScript views the
    brand scripts take of them: property lookup, the own-property test,
    truthiness and `typeof`. */
module Json {
  import opened Wrappers

  datatype Json =
    | Null
    | Bool(b: bool)
    | Number(n: real)
    | String(s: string)
    | Array(items: seq<Json>)
    | Object(fields: map<string, Json>)

  /** `v[key]` on a value other than `null` (where the lookup throws), for the
      data keys the scripts read: only an object has them, as own fields. */
  function Property(v: Json, key: string): (r: Option<Json>)
    requires !v.Null?
  {
    if v.Object? && key in v.fields then Some(v.fields[key]) else None
  }

  /** `Object.prototype.hasOwnProperty.call(v, key)` for those keys. */
  predicate HasOwn(v: Json, key: string)
  {
    v.Object? && key in v.fields
  }

  /** JavaScript truthiness of a looked-up value; `None` is `undefined`.
      (A parsed number is never NaN.) */
  predicate Truthy(v: Option<Json>)
  {
    match v
    case None => false
    case Some(Null) => false
    case Some(Bool(b)) => b
    case Some(Number(n)) => n != 0.0
    case Some(String(s)) => s != ""
    case Some(Array(_)) => true
    case Some(Object(_)) => true
  }

  /** `typeof v`. */
  function TypeOf(v: Json): string
  {
    match v
    case Null => "object"
    case Bool(_) => "boolean"
    case Number(_) => "number"
    case String(_) => "string"
    case Array(_) => "object"
    case Object(_) => "object"
  }
}
