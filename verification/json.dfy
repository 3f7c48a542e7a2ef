/** The dynamic JSON tree `Value` and its accessors. */
module Json {
  import opened Base
  import opened Keyed

  /** A JSON value. Text is held as characters; whether it is borrowed from the
      source or owned is not part of the model. An object is a list of entries
      with distinct keys standing for a `HashMap`. */
  datatype Value =
    | String(text: string)
    | Number(number: F64)
    | Object(members: seq<(string, Value)>)
    | Array(elements: seq<Value>)
    | Boolean(b: bool)
    | Null

  function AsString(v: Value): (r: Option<string>)
    ensures r.Some? <==> v.String?
    ensures r.Some? ==> v == String(r.value)
  {
    match v
    case String(a) => Some(a)
    case _ => None
  }

  function AsNumber(v: Value): (r: Option<F64>)
    ensures r.Some? <==> v.Number?
    ensures r.Some? ==> v == Number(r.value)
  {
    match v
    case Number(n) => Some(n)
    case _ => None
  }

  function AsObject(v: Value): (r: Option<seq<(string, Value)>>)
    ensures r.Some? <==> v.Object?
    ensures r.Some? ==> v == Object(r.value)
  {
    match v
    case Object(ms) => Some(ms)
    case _ => None
  }

  function AsArray(v: Value): (r: Option<seq<Value>>)
    ensures r.Some? <==> v.Array?
    ensures r.Some? ==> v == Array(r.value)
  {
    match v
    case Array(vs) => Some(vs)
    case _ => None
  }

  function AsBoolean(v: Value): (r: Option<bool>)
    ensures r.Some? <==> v.Boolean?
    ensures r.Some? ==> v == Boolean(r.value)
  {
    match v
    case Boolean(b) => Some(b)
    case _ => None
  }

  /** At most one accessor answers for any value, and none answers for `Null`. */
  lemma AccessorsAreExclusive(v: Value)
    ensures (if AsString(v).Some? then 1 else 0) + (if AsNumber(v).Some? then 1 else 0)
          + (if AsObject(v).Some? then 1 else 0) + (if AsArray(v).Some? then 1 else 0)
          + (if AsBoolean(v).Some? then 1 else 0) == (if v.Null? then 0 else 1)
  {
  }

  /** The number of nodes of a tree: how many `parse_value` calls reading it takes. */
  function Count(v: Value): (n: nat)
    ensures n >= 1
  {
    match v
    case Object(ms) => 1 + SumNat(seq(|ms|, i requires 0 <= i < |ms| => Count(ms[i].1)))
    case Array(vs) => 1 + SumNat(seq(|vs|, i requires 0 <= i < |vs| => Count(vs[i])))
    case _ => 1
  }

  function MemberCounts(ms: seq<(string, Value)>): (r: seq<nat>)
    ensures |r| == |ms|
    ensures Count(Object(ms)) == 1 + SumNat(r)
    ensures forall i :: 0 <= i < |ms| ==> r[i] == Count(ms[i].1)
  {
    seq(|ms|, i requires 0 <= i < |ms| => Count(ms[i].1))
  }

  function ElementCounts(vs: seq<Value>): (r: seq<nat>)
    ensures |r| == |vs|
    ensures Count(Array(vs)) == 1 + SumNat(r)
    ensures forall i :: 0 <= i < |vs| ==> r[i] == Count(vs[i])
  {
    seq(|vs|, i requires 0 <= i < |vs| => Count(vs[i]))
  }

  lemma MemberCountLess(ms: seq<(string, Value)>, i: nat)
    requires i < |ms|
    ensures Count(ms[i].1) < Count(Object(ms))
  {
    SumNatBounds(MemberCounts(ms), i);
  }

  lemma ElementCountLess(vs: seq<Value>, i: nat)
    requires i < |vs|
    ensures Count(vs[i]) < Count(Array(vs))
  {
    SumNatBounds(ElementCounts(vs), i);
  }

  /** No `Null` anywhere in the tree. */
  predicate NullFree(v: Value)
  {
    match v
    case Null => false
    case Object(ms) => forall i :: 0 <= i < |ms| ==> NullFree(ms[i].1)
    case Array(vs) => forall i :: 0 <= i < |vs| ==> NullFree(vs[i])
    case _ => true
  }

  /** Every object in the tree has pairwise distinct keys: the tree is a
      faithful image of nested `HashMap`s. */
  predicate UniqueKeys(v: Value)
  {
    match v
    case Object(ms) => DistinctKeys(ms) && forall i :: 0 <= i < |ms| ==> UniqueKeys(ms[i].1)
    case Array(vs) => forall i :: 0 <= i < |vs| ==> UniqueKeys(vs[i])
    case _ => true
  }
}
