/** Parsed JSON values, with the JavaScript truthiness and property access the loaders use. */
module Json {
  import opened Wrappers

  /** A value `JSON.parse` can return. Numbers are integers in this model. */
  datatype Json = Null | Bool(b: bool) | Num(n: int) | Str(s: string) | Arr(items: seq<Json>) | Obj(fields: map<string, Json>)

  /** JavaScript truthiness: `null`, `false`, `0` and `""` are falsy; arrays and objects,
      even empty ones, are truthy. */
  predicate Truthy(v: Json)
  {
    match v
    case Null => false
    case Bool(b) => b
    case Num(n) => n != 0
    case Str(s) => s != ""
    case Arr(_) => true
    case Obj(_) => true
  }

  /** `v.key` for the keys the loaders read (`data`, `timestamp`, `info`, `species`): an own
      property of an object, otherwise `undefined` (None). */
  function Prop(v: Json, key: string): Option<Json>
  {
    if v.Obj? && key in v.fields then Some(v.fields[key]) else None
  }

  /** `value || fallback` where `value` may be `undefined`. */
  function OrElse(value: Option<Json>, fallback: Json): (r: Json)
    ensures r == fallback || (value.Some? && r == value.value)
    ensures Truthy(fallback) ==> Truthy(r)
  {
    if value.Some? && Truthy(value.value) then value.value else fallback
  }

  /** The number an operand of `-` converts to: None stands for NaN. `null` and `false`
      convert to 0, `true` to 1, `undefined` and objects to NaN. */
  function ToNumber(v: Option<Json>): Option<int>
  {
    match v
    case None => None
    case Some(Null) => Some(0)
    case Some(Bool(b)) => Some(if b then 1 else 0)
    case Some(Num(n)) => Some(n)
    case Some(_) => None
  }
}
