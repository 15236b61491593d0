/** The JavaScript values the offline store handles: field values of a
    record, plain objects, truthiness and IndexedDB keys. */
module Values {

  datatype Option<+T> = None | Some(value: T)

  datatype Result<+T, +E> = Success(value: T) | Failure(error: E)

  /** A scalar field value. Nested objects and arrays are not modelled. */
  datatype Value = Str(s: string) | Num(n: int) | Bool(b: bool) | Null

  /** A plain JavaScript object; a name missing from the map reads as `undefined`. */
  type Object = map<string, Value>

  /** JavaScript truthiness: `""`, `0`, `false` and `null` are falsy. */
  predicate Truthy(v: Value) {
    match v
    case Str(s) => s != ""
    case Num(n) => n != 0
    case Bool(b) => b
    case Null => false
  }

  /** A value IndexedDB accepts as a key: strings and numbers (not booleans, not null). */
  predicate IsKey(v: Value) {
    v.Str? || v.Num?
  }

  /** Truthiness of an object's field, where a missing field is `undefined`. */
  predicate FieldTruthy(o: Object, name: string) {
    name in o && Truthy(o[name])
  }
}
