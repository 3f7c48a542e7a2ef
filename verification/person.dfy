/** The `Person` example: a hand-written codec for a record of fixed shape.
    `serialize` is a straight sequence of calls; `deserialize` reads exactly
    two properties from an object deserializer and needs both fields among
    them. */
module PersonCodec {
  import opened Base
  import Protocol

  datatype Person = Person(name: string, age: I64)

  /** `serialize`: `begin_object`, the `name` property with its string, the
      `age` property with its integer, `end_object`. The two passes of the
      reading loop take the name and the age back out of the object. */
  function Trace(x: Person): (r: seq<Protocol.Event>)
    ensures |r| == 6 && r[0] == Protocol.BeginObject && r[5] == Protocol.EndObject
    ensures ReadProperties(r, 1, 0, None, None) == Some((Some(x.name), Some(x.age), 5))
  {
    [Protocol.BeginObject, Protocol.Property("name"), Protocol.String(x.name),
     Protocol.Property("age"), Protocol.I64(x.age), Protocol.EndObject]
  }

  /** The `for _ in 0..2` loop from its `k`-th pass on: each pass reads a
      property name and, for `name` and `age`, its value, overwriting what an
      earlier pass read; other names are passed over without reading their
      value. The fields read so far and the position reached, or nothing when
      a read fails. */
  function ReadProperties(events: seq<Protocol.Event>, p: nat, k: nat, name: Option<string>, age: Option<I64>)
    : (r: Option<(Option<string>, Option<I64>, nat)>)
    requires p <= |events| && k <= 2
    ensures r.Some? ==> p <= r.value.2 <= |events|
    decreases 2 - k
  {
    if k == 2 then Some((name, age, p))
    else
      match Protocol.PropertyAt(events, p)
      case None => None
      case Some(property) =>
        if property == "name" then
          match Protocol.StringAt(events, p + 1)
          case None => None
          case Some(s) => ReadProperties(events, p + 2, k + 1, Some(s), age)
        else if property == "age" then
          match Protocol.I64At(events, p + 1)
          case None => None
          case Some(n) => ReadProperties(events, p + 2, k + 1, name, Some(n))
        else
          ReadProperties(events, p + 1, k + 1, name, age)
  }

  /** What `deserialize` returns when the cursor stands at `p`. */
  function Read(events: seq<Protocol.Event>, p: nat): Option<Person>
    requires p <= |events|
  {
    if p < |events| && events[p] == Protocol.BeginObject then
      match ReadProperties(events, p + 1, 0, None, None)
      case None => None
      case Some((name, age, _)) =>
        if name.Some? && age.Some? then Some(Person(name.value, age.value)) else None
    else
      None
  }

  /** `Deserialize for Person`. On success the cursor stands right after the
      two properties the loop read. */
  method Deserialize(d: Protocol.EventCursor) returns (r: Option<Person>)
    requires d.Valid()
    modifies d
    ensures d.Valid()
    ensures r == Read(d.events, old(d.pos))
    ensures r.Some? ==> old(d.pos) < |d.events|
                        && ReadProperties(d.events, old(d.pos) + 1, 0, None, None)
                           == Some((Some(r.value.name), Some(r.value.age), d.pos))
    ensures old(d.failed) ==> d.failed
  {
    ghost var p0 := d.pos;
    var ok := d.BeginObject();
    if !ok {
      return None;
    }
    var name: Option<string> := None;
    var age: Option<I64> := None;
    for i := 0 to 2
      invariant d.Valid()
      invariant ReadProperties(d.events, p0 + 1, 0, None, None) == ReadProperties(d.events, d.pos, i, name, age)
      invariant old(d.failed) ==> d.failed
    {
      var property := d.HasProperty();
      if property.None? {
        return None;
      }
      if property.value == "name" {
        var s := d.String();
        if s.None? {
          return None;
        }
        name := Some(s.value);
      } else if property.value == "age" {
        var n := d.I64();
        if n.None? {
          return None;
        }
        age := Some(n.value);
      }
    }
    if name.None? || age.None? {
      return None;
    }
    r := Some(Person(name.value, age.value));
  }

  /** Reading back what `serialize` produced gives the same person, wherever
      the events stand in a longer stream. */
  lemma RoundTrip(events: seq<Protocol.Event>, p: nat, x: Person)
    requires At(events, p, Trace(x))
    ensures Read(events, p) == Some(x)
  {
    AtIndex(events, p, Trace(x), 0);
    AtIndex(events, p, Trace(x), 1);
    AtIndex(events, p, Trace(x), 2);
    AtIndex(events, p, Trace(x), 3);
    AtIndex(events, p, Trace(x), 4);
    assert ReadProperties(events, p + 5, 2, Some(x.name), Some(x.age)) == Some((Some(x.name), Some(x.age), p + 5));
    assert ReadProperties(events, p + 3, 1, Some(x.name), None) == Some((Some(x.name), Some(x.age), p + 5));
  }

  /** The two properties may come in either order. */
  lemma EitherOrder(name: string, age: I64)
    ensures Read([Protocol.BeginObject, Protocol.Property("age"), Protocol.I64(age),
                  Protocol.Property("name"), Protocol.String(name), Protocol.EndObject], 0)
         == Some(Person(name, age))
  {
    var e := [Protocol.BeginObject, Protocol.Property("age"), Protocol.I64(age),
              Protocol.Property("name"), Protocol.String(name), Protocol.EndObject];
    assert ReadProperties(e, 3, 1, None, Some(age)) == Some((Some(name), Some(age), 5));
  }

  /** One pass sets at most one field. */
  lemma {:induction false} LastPassSetsOneField(events: seq<Protocol.Event>, p: nat)
    requires p <= |events|
    ensures var r := ReadProperties(events, p, 1, None, None);
            r.Some? ==> r.value.0.None? || r.value.1.None?
  {
  }

  /** A first property that is neither `name` nor `age` leaves only one pass
      for the two fields, so the result is nothing. */
  lemma UnknownPropertyFails(events: seq<Protocol.Event>, p: nat, other: string)
    requires p + 1 < |events| && events[p] == Protocol.BeginObject
    requires events[p + 1] == Protocol.Property(other) && other != "name" && other != "age"
    ensures Read(events, p).None?
  {
    assert ReadProperties(events, p + 1, 0, None, None) == ReadProperties(events, p + 2, 1, None, None);
    LastPassSetsOneField(events, p + 2);
  }

  /** A name given twice overwrites the first value and leaves `age` unset. */
  lemma RepeatedNameFails(a: string, b: string)
    ensures Read([Protocol.BeginObject, Protocol.Property("name"), Protocol.String(a),
                  Protocol.Property("name"), Protocol.String(b), Protocol.EndObject], 0).None?
  {
    var e := [Protocol.BeginObject, Protocol.Property("name"), Protocol.String(a),
              Protocol.Property("name"), Protocol.String(b), Protocol.EndObject];
    assert ReadProperties(e, 3, 1, Some(a), None) == Some((Some(b), None, 5));
  }

  /** An `age` that is not an integer makes the read fail. */
  lemma WrongTypeFails(name: string, age: string)
    ensures Read([Protocol.BeginObject, Protocol.Property("name"), Protocol.String(name),
                  Protocol.Property("age"), Protocol.String(age), Protocol.EndObject], 0).None?
  {
    var e := [Protocol.BeginObject, Protocol.Property("name"), Protocol.String(name),
              Protocol.Property("age"), Protocol.String(age), Protocol.EndObject];
    assert ReadProperties(e, 3, 1, Some(name), None).None?;
  }
}
