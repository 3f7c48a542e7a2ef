/** `json/value.rs`: the second copy of `Value` and its accessors (the same
    datatype and accessors as the `Json` module, modelled once), and its
    `Serialize` dispatch against the interface of `serialize_trait.rs`. */
module ValueSerialize {
  import opened Base
  import opened Keyed
  import opened Json
  import opened SerializeTrait

  /** `Serialize for Value`: objects and arrays delegate to the `HashMap` and
      slice impls, strings, numbers and booleans make one call each, and
      `Null` makes the call a string `"null"` makes. No value makes an `i64`
      call, an object's call keeps its keys in order and an array's call has
      one value per element; `RebuildInverts` reads the call back. */
  function ValueCall(v: Value): (c: Call)
    ensures !c.I64?
    ensures v.Object? <==> c.Object?
    ensures v.Object? ==> |c.members| == |v.members|
                          && forall i :: 0 <= i < |v.members| ==> c.members[i].0 == v.members[i].0
    ensures v.Array? <==> c.Array?
    ensures v.Array? ==> |c.values| == |v.elements|
  {
    match v
    case Object(ms) => Call.Object(seq(|ms|, i requires 0 <= i < |ms| => (ms[i].0, ValueCall(ms[i].1))))
    case Array(vs) => Call.Array(seq(|vs|, i requires 0 <= i < |vs| => ValueCall(vs[i])))
    case String(s) => SerializeStr(s)
    case Number(n) => SerializeF64(n)
    case Boolean(b) => SerializeBool(b)
    case Null => SerializeStr("null")
  }

  /** The value a recorded call stands for: the partner that reads a
      serialization back. An `i64` call, which no `Value` makes, reads as
      `Null`. */
  function Rebuild(c: Call): Value
  {
    match c
    case Object(ms) => Value.Object(seq(|ms|, i requires 0 <= i < |ms| => (ms[i].0, Rebuild(ms[i].1))))
    case Array(cs) => Value.Array(seq(|cs|, i requires 0 <= i < |cs| => Rebuild(cs[i])))
    case String(s) => Value.String(s)
    case F64(n) => Number(n)
    case Bool(b) => Boolean(b)
    case I64(_) => Null
  }

  /** An object makes the single `object` call the `HashMap` impl makes over
      its entries, and an array the single `array` call the slice impl makes
      over its elements. */
  lemma ValueDelegates(v: Value)
    ensures v.Object? ==> ValueCall(v) == SerializeMap(v.members, ValueCall)
    ensures v.Array? ==> ValueCall(v) == SerializeSlice(v.elements, ValueCall)
  {
  }

  /** Reading back what a `Null`-free value makes gives the value again. */
  lemma {:induction false} RebuildInverts(v: Value)
    requires NullFree(v)
    ensures Rebuild(ValueCall(v)) == v
  {
    match v
    case Object(ms) =>
      forall i | 0 <= i < |ms| ensures Rebuild(ValueCall(ms[i].1)) == ms[i].1 {
        RebuildInverts(ms[i].1);
      }
      assert Rebuild(ValueCall(v)).members == ms;
    case Array(vs) =>
      forall i | 0 <= i < |vs| ensures Rebuild(ValueCall(vs[i])) == vs[i] {
        RebuildInverts(vs[i]);
      }
      assert Rebuild(ValueCall(v)).elements == vs;
    case _ =>
  }

  /** `Null` and the string `"null"` make the same call, so no reader can
      tell them apart: `Null` reads back as that string. */
  lemma NullCollides()
    ensures ValueCall(Null) == ValueCall(Value.String("null"))
    ensures Rebuild(ValueCall(Null)) == Value.String("null")
  {
  }
}
