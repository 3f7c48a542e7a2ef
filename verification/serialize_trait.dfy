/** `serialize_trait.rs`: the `Serializer` interface of that revision, seen
    from the outside as the calls a `serialize` makes on it, and the
    `Serialize` impls for `&str`, `i64`, `f64`, `bool`, slices and
    string-keyed `HashMap`s. */
module SerializeTrait {
  import opened Base
  import opened Keyed

  /** One call on a `Serializer`. Every `serialize` of this file makes exactly
      one call, so a serialization is one `Call`. The members handed to
      `object` and the values handed to `array` are recorded by the call that
      serializing each of them makes, in the order the iterator yields them. */
  datatype Call =
    | Object(members: seq<(string, Call)>)
    | Array(values: seq<Call>)
    | String(s: string)
    | Bool(b: bool)
    | I64(i: I64)
    | F64(n: F64)

  /** The argument of a `string` call. */
  function StringArg(c: Call): (r: Option<string>)
    ensures r.Some? <==> c.String?
    ensures r.Some? ==> c == String(r.value)
  {
    if c.String? then Some(c.s) else None
  }

  /** The argument of an `i64` call. */
  function I64Arg(c: Call): (r: Option<I64>)
    ensures r.Some? <==> c.I64?
    ensures r.Some? ==> c == I64(r.value)
  {
    if c.I64? then Some(c.i) else None
  }

  /** The argument of an `f64` call. */
  function F64Arg(c: Call): (r: Option<F64>)
    ensures r.Some? <==> c.F64?
    ensures r.Some? ==> c == Call.F64(r.value)
  {
    if c.F64? then Some(c.n) else None
  }

  /** The argument of a `bool` call. */
  function BoolArg(c: Call): (r: Option<bool>)
    ensures r.Some? <==> c.Bool?
    ensures r.Some? ==> c == Bool(r.value)
  {
    if c.Bool? then Some(c.b) else None
  }

  /** `Serialize for &str`: one `string` call with the text itself. */
  function SerializeStr(s: string): (c: Call)
    ensures StringArg(c) == Some(s)
  {
    String(s)
  }

  /** `Serialize for i64`: one `i64` call with the number itself. */
  function SerializeI64(n: I64): (c: Call)
    ensures I64Arg(c) == Some(n)
  {
    I64(n)
  }

  /** `Serialize for f64`: one `f64` call with the number itself. */
  function SerializeF64(n: F64): (c: Call)
    ensures F64Arg(c) == Some(n)
  {
    Call.F64(n)
  }

  /** `Serialize for bool`: one `bool` call with the flag itself. */
  function SerializeBool(b: bool): (c: Call)
    ensures BoolArg(c) == Some(b)
  {
    Bool(b)
  }

  /** `Serialize for [S]`: one `array` call over the elements, in slice order;
      `f` is the element type's `serialize`. */
  function SerializeSlice<S>(xs: seq<S>, f: S -> Call): (c: Call)
    ensures c.Array? && |c.values| == |xs|
    ensures forall i :: 0 <= i < |xs| ==> c.values[i] == f(xs[i])
  {
    Array(seq(|xs|, i requires 0 <= i < |xs| => f(xs[i])))
  }

  /** `Serialize for HashMap<&str, S>` and `HashMap<String, S>` (the model does
      not tell the two key types apart): one `object` call with one member per
      entry, in the map's iteration order. */
  function SerializeMap<S>(ms: seq<(string, S)>, f: S -> Call): (c: Call)
    ensures c.Object? && Keys(c.members) == Keys(ms)
    ensures forall i :: 0 <= i < |ms| ==> c.members[i].1 == f(ms[i].1)
  {
    Object(seq(|ms|, i requires 0 <= i < |ms| => (ms[i].0, f(ms[i].1))))
  }

  /** Serializing a concatenation of slices lists the elements of the first
      slice, then those of the second: the call keeps slice order. */
  lemma SliceOrder<S>(xs: seq<S>, ys: seq<S>, f: S -> Call)
    ensures SerializeSlice(xs + ys, f).values == SerializeSlice(xs, f).values + SerializeSlice(ys, f).values
  {
    var l := SerializeSlice(xs + ys, f).values;
    var r := SerializeSlice(xs, f).values + SerializeSlice(ys, f).values;
    forall i | 0 <= i < |l| ensures l[i] == r[i] {
      if i >= |xs| {
        assert (xs + ys)[i] == ys[i - |xs|];
      }
    }
  }

  /** Read as a map, the `object` call holds exactly the map's entries, each
      value replaced by what serializing it records. */
  lemma MapMembersAreEntries<S>(ms: seq<(string, S)>, f: S -> Call)
    ensures ToMap(SerializeMap(ms, f).members) == map k | k in ToMap(ms) :: f(ToMap(ms)[k])
  {
    var c := SerializeMap(ms, f);
    var a := ToMap(c.members);
    var m := ToMap(ms);
    forall k | k in a ensures k in m && a[k] == f(m[k]) {
      var j := IndexOf(ms, k);
      IndexOfUnique(c.members, k, j);
    }
  }
}
