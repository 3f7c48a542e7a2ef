/** `deserialize_trait.rs`: the `AnyValue` a deserializer hands out for a value
    of unknown kind, and its four projections. This revision has no array
    kind. The deserializer and object-deserializer interfaces of the file are
    modelled by the event cursor of the `Protocol` module. */
module DeserializeTrait {
  import opened Base

  /** A value of unknown kind; `O` is the object deserializer that reads an
      object's properties. */
  datatype AnyValue<O> =
    | String(s: string)
    | Bool(b: bool)
    | Number(n: F64)
    | Object(o: O)
    | Null

  /** `string`: the text of a string, nothing for any other kind. */
  function StringOf<O>(a: AnyValue<O>): (r: Option<string>)
    ensures r.Some? <==> a.String?
    ensures r.Some? ==> a == String(r.value)
  {
    match a
    case String(s) => Some(s)
    case _ => None
  }

  /** `number`: the number of a number, nothing for any other kind. */
  function NumberOf<O>(a: AnyValue<O>): (r: Option<F64>)
    ensures r.Some? <==> a.Number?
    ensures r.Some? ==> a == Number(r.value)
  {
    match a
    case Number(v) => Some(v)
    case _ => None
  }

  /** `object`: the object deserializer of an object, nothing for any other kind. */
  function ObjectOf<O>(a: AnyValue<O>): (r: Option<O>)
    ensures r.Some? <==> a.Object?
    ensures r.Some? ==> a == Object(r.value)
  {
    match a
    case Object(v) => Some(v)
    case _ => None
  }

  /** `boolean`: the flag of a boolean, nothing for any other kind. */
  function BooleanOf<O>(a: AnyValue<O>): (r: Option<bool>)
    ensures r.Some? <==> a.Bool?
    ensures r.Some? ==> a == Bool(r.value)
  {
    match a
    case Bool(b) => Some(b)
    case _ => None
  }

  /** Exactly one projection answers for every kind but `Null`, and none
      answers for `Null`. */
  lemma ProjectionsAreExclusive<O>(a: AnyValue<O>)
    ensures (if StringOf(a).Some? then 1 else 0) + (if NumberOf(a).Some? then 1 else 0)
          + (if ObjectOf(a).Some? then 1 else 0) + (if BooleanOf(a).Some? then 1 else 0)
          == (if a.Null? then 0 else 1)
  {
  }
}
