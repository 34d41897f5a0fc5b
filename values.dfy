/** Decoded JSON-like values as the client handles them (server records,
    call keyword arguments, filter literals), with the Python truth rule the
    client applies to them. */
module Values {

  datatype Option<T> = None | Some(value: T)

  datatype Result<T, E> = Ok(value: T) | Err(error: E)

  /** A Python value of the kinds a decoded JSON document or a keyword
      argument can hold. Lists and tuples are kept apart because Python
      equality tells them apart. Dictionary keys are strings. */
  datatype Value =
    | Null
    | Bool(b: bool)
    | Int(i: int)
    | Str(s: string)
    | List(items: seq<Value>)
    | Tuple(elems: seq<Value>)
    | Dict(entries: map<string, Value>)

  /** Python truthiness: None, False, 0 and empty containers are false. */
  predicate Truthy(v: Value) {
    match v
    case Null => false
    case Bool(b) => b
    case Int(i) => i != 0
    case Str(s) => s != []
    case List(items) => items != []
    case Tuple(elems) => elems != []
    case Dict(entries) => entries != map[]
  }

  /** `isinstance(v, (list, tuple))` */
  predicate IsSequence(v: Value) {
    v.List? || v.Tuple?
  }

  function Elements(v: Value): (r: seq<Value>)
    requires IsSequence(v)
  {
    if v.List? then v.items else v.elems
  }

  /** Values usable as dictionary keys: lists and dictionaries are not, a
      tuple is when all its elements are. */
  predicate Hashable(v: Value) {
    match v
    case List(_) => false
    case Dict(_) => false
    case Tuple(elems) => forall e | e in elems :: Hashable(e)
    case _ => true
  }

  /** `d.get(k)`: the value under `k`, or None. */
  function Get(d: map<string, Value>, k: string): Value {
    if k in d then d[k] else Null
  }
}
