/** JavaScript values as the two reducers see them: JSON data from the REST
    gateway plus `undefined`, with property reads, truthiness and object
    spread (`{ ...a, ...b }`). */
module JsValue {

  datatype Option<+T> = None | Some(value: T)

  /** A JavaScript value. Numbers are integers (identifiers, offsets and
      limits are the only numbers the reducers handle); objects are finite
      maps from property names to values. */
  datatype Value =
    | Undefined
    | Null
    | Bool(b: bool)
    | Num(n: int)
    | Str(s: string)
    | Arr(items: seq<Value>)
    | Obj(props: map<string, Value>)

  /** A plain object, seen through its own enumerable properties. */
  type Record = map<string, Value>

  /** JavaScript truthiness, as used by `if (v)` and `v ? a : b`. */
  predicate Truthy(v: Value) {
    match v
    case Undefined => false
    case Null => false
    case Bool(b) => b
    case Num(n) => n != 0
    case Str(s) => s != ""
    case Arr(_) => true
    case Obj(_) => true
  }

  /** Property read `o.k`: a missing property reads as `undefined`. */
  function Get(o: Record, k: string): (v: Value)
    ensures k !in o ==> v == Undefined
    ensures k in o ==> v == o[k]
  {
    if k in o then o[k] else Undefined
  }

  /** `{ ...base, ...over }`: every property of `over` wins, every other
      property of `base` is kept, and nothing else appears. */
  function Spread(base: Record, over: Record): (r: Record)
    ensures r.Keys == base.Keys + over.Keys
    ensures forall k :: k in over ==> r[k] == over[k]
    ensures forall k :: k in base && k !in over ==> r[k] == base[k]
  {
    base + over
  }

  /** The properties `{ ...v }` copies out of `v`: those of an object, none
      of `undefined`, `null`, a boolean or a number. (Arrays and strings,
      which would spread their indices, never reach a spread here.) */
  function SpreadOf(v: Value): Record {
    if v.Obj? then v.props else map[]
  }
}
