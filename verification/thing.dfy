/** `thing.rs`: `Thing`, the tree everything can deserialize to, its
    `Serialize` impl as the event stream it produces, and its `Deserialize`
    impl as a method driving an event cursor, proved against a reading
    function on the stream. */
module ThingCodec {
  import opened Base
  import opened Keyed
  import Protocol

  /** A `Thing`. An object is a list of entries standing for a `HashMap`. */
  datatype Thing =
    | String(s: string)
    | Bool(b: bool)
    | Number(n: F64)
    | Object(members: seq<(string, Thing)>)
    | Array(items: seq<Thing>)
    | Null

  /** Every object in the tree has pairwise distinct keys, as a `HashMap` does. */
  predicate MapShaped(t: Thing)
  {
    match t
    case Object(ms) => DistinctKeys(ms) && forall i :: 0 <= i < |ms| ==> MapShaped(ms[i].1)
    case Array(vs) => forall i :: 0 <= i < |vs| ==> MapShaped(vs[i])
    case _ => true
  }

  /** `serialize`: an object is `begin_object`, one `property` per entry (the
      entry's value follows it), `end_object`; an array is `begin_array`, one
      `value` per element in order, `end_array`; a scalar is one call, and
      `Null` is `null`. The contract only says the trace is never empty; its
      content is pinned down by `ReadTrace` and `RoundTrip`, which read it
      back as the same `Thing`. */
  function Trace(t: Thing): (r: seq<Protocol.Event>)
    ensures |r| > 0
    decreases t, 1
  {
    match t
    case Object(_) => [Protocol.BeginObject] + MembersTrace(t, 0) + [Protocol.EndObject]
    case Array(_) => [Protocol.BeginArray] + ElementsTrace(t, 0) + [Protocol.EndArray]
    case Number(n) => [Protocol.F64(n)]
    case Bool(b) => [Protocol.Bool(b)]
    case String(s) => [Protocol.String(s)]
    case Null => [Protocol.Null]
  }

  /** The `property` calls for the entries from the `i`-th on. */
  function MembersTrace(t: Thing, i: nat): seq<Protocol.Event>
    requires t.Object? && i <= |t.members|
    decreases t, 0, |t.members| - i
  {
    if i == |t.members| then []
    else [Protocol.Property(t.members[i].0)] + Trace(t.members[i].1) + MembersTrace(t, i + 1)
  }

  /** The `value` calls for the elements from the `i`-th on. */
  function ElementsTrace(t: Thing, i: nat): seq<Protocol.Event>
    requires t.Array? && i <= |t.items|
    decreases t, 0, |t.items| - i
  {
    if i == |t.items| then []
    else [Protocol.Element] + Trace(t.items[i]) + ElementsTrace(t, i + 1)
  }

  /** What `deserialize` reads from the stream at `p`, and where it stops.
      Nothing when `any` answers nothing, and nothing when a nested read
      does: no partial tree. */
  function Read(events: seq<Protocol.Event>, p: nat): (r: Option<(Thing, nat)>)
    requires p <= |events|
    ensures r.Some? ==> p < r.value.1 <= |events|
    decreases |events| - p, 1
  {
    match Protocol.AnyAt(events, p)
    case None => None
    case Some(a) =>
      match a
      case Object => ReadMembers(events, p + 1, [])
      case Array => ReadElements(events, p + 1, [])
      case Number(n) => Some((Number(n), p + 1))
      case Boolean(b) => Some((Bool(b), p + 1))
      case Text(s) => Some((String(s), p + 1))
      case Nothing => Some((Null, p + 1))
  }

  /** The loop over `has_property`: each named value is inserted into the
      map read so far, so a repeated name keeps the last value. The loop
      ends at the first event that is not a property, the end of the object
      or not. */
  function ReadMembers(events: seq<Protocol.Event>, p: nat, acc: seq<(string, Thing)>): (r: Option<(Thing, nat)>)
    requires p <= |events|
    ensures r.Some? ==> p <= r.value.1 <= |events|
    decreases |events| - p, 0
  {
    match Protocol.PropertyAt(events, p)
    case None => Some((Object(acc), Protocol.Step(events, p)))
    case Some(name) =>
      match Read(events, p + 1)
      case None => None
      case Some((v, q)) => ReadMembers(events, q, Insert(acc, name, v))
  }

  /** The loop over `has_array_value`: elements are kept in stream order. */
  function ReadElements(events: seq<Protocol.Event>, p: nat, acc: seq<Thing>): (r: Option<(Thing, nat)>)
    requires p <= |events|
    ensures r.Some? ==> p <= r.value.1 <= |events|
    decreases |events| - p, 0
  {
    if p < |events| && events[p] == Protocol.Element then
      match Read(events, p + 1)
      case None => None
      case Some((v, q)) => ReadElements(events, q, acc + [v])
    else
      Some((Array(acc), Protocol.Step(events, p)))
  }

  /** `Deserialize for Thing`. */
  method Deserialize(d: Protocol.EventCursor) returns (r: Option<Thing>)
    requires d.Valid()
    modifies d
    ensures d.Valid()
    ensures Read(d.events, old(d.pos)) == (if r.Some? then Some((r.value, d.pos)) else None)
    ensures old(d.failed) ==> d.failed
    ensures r.None? ==> d.failed
    decreases |d.events| - d.pos
  {
    ghost var p0 := d.pos;
    var any := d.Any();
    if any.None? {
      return None;
    }
    match any.value {
      case Object =>
        var items: seq<(string, Thing)> := [];
        while true
          invariant d.Valid() && p0 < d.pos
          invariant Read(d.events, p0) == ReadMembers(d.events, d.pos, items)
          invariant old(d.failed) ==> d.failed
          decreases |d.events| - d.pos
        {
          var name := d.HasProperty();
          if name.None? {
            return Some(Object(items));
          }
          var v := Deserialize(d);
          if v.None? {
            return None;
          }
          items := Insert(items, name.value, v.value);
        }
      case Array =>
        var items: seq<Thing> := [];
        while true
          invariant d.Valid() && p0 < d.pos
          invariant Read(d.events, p0) == ReadElements(d.events, d.pos, items)
          invariant old(d.failed) ==> d.failed
          decreases |d.events| - d.pos
        {
          var more := d.HasArrayValue();
          if !more {
            return Some(Array(items));
          }
          var v := Deserialize(d);
          if v.None? {
            return None;
          }
          items := items + [v.value];
        }
      case Number(n) => r := Some(Number(n));
      case Boolean(b) => r := Some(Bool(b));
      case Text(s) => r := Some(String(s));
      case Nothing => r := Some(Null);
    }
  }

  /** Reading back the stream a map-shaped `Thing` serializes to, wherever it
      stands in a longer stream, gives the same `Thing` and stops right after
      its events. */
  lemma {:induction false} ReadTrace(events: seq<Protocol.Event>, p: nat, t: Thing)
    requires MapShaped(t) && At(events, p, Trace(t))
    ensures Read(events, p).Some? && Read(events, p).value.0 == t
    ensures Read(events, p).value.1 == p + |Trace(t)|
    decreases t, 2
  {
    if t.Object? {
      ReadObjectTrace(events, p, t);
    } else if t.Array? {
      ReadArrayTrace(events, p, t);
    } else {
      AtIndex(events, p, Trace(t), 0);
      ReadScalar(events, p, t);
    }
  }

  lemma {:induction false} ReadObjectTrace(events: seq<Protocol.Event>, p: nat, t: Thing)
    requires t.Object? && MapShaped(t) && At(events, p, Trace(t))
    ensures Read(events, p).Some? && Read(events, p).value.0 == t
    ensures Read(events, p).value.1 == p + |Trace(t)|
    decreases t, 1
  {
    var rest := MembersTrace(t, 0) + [Protocol.EndObject];
    assert Trace(t) == [Protocol.BeginObject] + rest;
    AtConcat(events, p, [Protocol.BeginObject], rest);
    AtIndex(events, p, [Protocol.BeginObject], 0);
    ReadObjectStart(events, p);
    assert t.members[..0] == [];
    ReadMembersTrace(events, p + 1, t, 0);
  }

  lemma {:induction false} ReadArrayTrace(events: seq<Protocol.Event>, p: nat, t: Thing)
    requires t.Array? && MapShaped(t) && At(events, p, Trace(t))
    ensures Read(events, p).Some? && Read(events, p).value.0 == t
    ensures Read(events, p).value.1 == p + |Trace(t)|
    decreases t, 1
  {
    var rest := ElementsTrace(t, 0) + [Protocol.EndArray];
    assert Trace(t) == [Protocol.BeginArray] + rest;
    AtConcat(events, p, [Protocol.BeginArray], rest);
    AtIndex(events, p, [Protocol.BeginArray], 0);
    ReadArrayStart(events, p);
    assert t.items[..0] == [];
    ReadElementsTrace(events, p + 1, t, 0);
  }

  /** A scalar is one event, read back as itself. */
  lemma ReadScalar(events: seq<Protocol.Event>, p: nat, t: Thing)
    requires !t.Object? && !t.Array? && p < |events| && events[p] == Trace(t)[0]
    ensures Read(events, p) == Some((t, p + 1))
  {
    match t
    case Number(n) =>
      assert Protocol.AnyAt(events, p) == Some(Protocol.Number(n));
    case Bool(b) =>
      assert Protocol.AnyAt(events, p) == Some(Protocol.Boolean(b));
    case String(s) =>
      assert Protocol.AnyAt(events, p) == Some(Protocol.Text(s));
    case Null =>
      assert Protocol.AnyAt(events, p) == Some(Protocol.Nothing);
  }

  lemma {:induction false} ReadMembersTrace(events: seq<Protocol.Event>, p: nat, t: Thing, i: nat)
    requires t.Object? && MapShaped(t) && i <= |t.members|
    requires At(events, p, MembersTrace(t, i) + [Protocol.EndObject])
    ensures ReadMembers(events, p, t.members[..i]).Some?
    ensures ReadMembers(events, p, t.members[..i]).value.0 == t
    ensures ReadMembers(events, p, t.members[..i]).value.1 == p + |MembersTrace(t, i)| + 1
    decreases t, 0, |t.members| - i
  {
    var ms := t.members;
    if i == |ms| {
      assert MembersTrace(t, i) == [];
      AtIndex(events, p, [Protocol.EndObject], 0);
      ReadMembersEnd(events, p, ms[..i]);
      assert ms[..i] == ms;
    } else {
      var (k, v) := ms[i];
      MemberAt(events, p, t, i);
      var q := p + 1 + |Trace(v)|;
      assert MapShaped(v);
      ReadTrace(events, p + 1, v);
      ReadMembersStep(events, p, t, i, q);
      ReadMembersTrace(events, q, t, i + 1);
    }
  }

  lemma ReadObjectStart(events: seq<Protocol.Event>, p: nat)
    requires p < |events| && events[p] == Protocol.BeginObject
    ensures Read(events, p) == ReadMembers(events, p + 1, [])
  {
  }

  lemma ReadArrayStart(events: seq<Protocol.Event>, p: nat)
    requires p < |events| && events[p] == Protocol.BeginArray
    ensures Read(events, p) == ReadElements(events, p + 1, [])
  {
  }

  /** The `has_property` loop stops at the end of the object. */
  lemma ReadMembersEnd(events: seq<Protocol.Event>, p: nat, acc: seq<(string, Thing)>)
    requires p < |events| && events[p] == Protocol.EndObject
    ensures ReadMembers(events, p, acc) == Some((Object(acc), p + 1))
  {
  }

  /** One pass of the `has_property` loop: the named value is inserted. */
  lemma ReadMembersNext(events: seq<Protocol.Event>, p: nat, acc: seq<(string, Thing)>, k: string, v: Thing, q: nat)
    requires p < |events| && events[p] == Protocol.Property(k)
    requires Read(events, p + 1) == Some((v, q))
    ensures ReadMembers(events, p, acc) == ReadMembers(events, q, Insert(acc, k, v))
  {
  }

  /** One pass of the `has_property` loop over an object with distinct keys
      adds the next entry. */
  lemma ReadMembersStep(events: seq<Protocol.Event>, p: nat, t: Thing, i: nat, q: nat)
    requires t.Object? && DistinctKeys(t.members) && i < |t.members|
    requires p < |events| && Protocol.PropertyAt(events, p) == Some(t.members[i].0)
    requires Read(events, p + 1) == Some((t.members[i].1, q))
    ensures ReadMembers(events, p, t.members[..i]) == ReadMembers(events, q, t.members[..i + 1])
  {
    ReadMembersNext(events, p, t.members[..i], t.members[i].0, t.members[i].1, q);
    InsertNext(t.members, i);
  }

  /** Where the events of one entry stand in an object's stream. */
  lemma MemberAt(events: seq<Protocol.Event>, p: nat, t: Thing, i: nat)
    requires t.Object? && i < |t.members|
    requires At(events, p, MembersTrace(t, i) + [Protocol.EndObject])
    ensures Protocol.PropertyAt(events, p) == Some(t.members[i].0)
    ensures At(events, p + 1, Trace(t.members[i].1))
    ensures At(events, p + 1 + |Trace(t.members[i].1)|, MembersTrace(t, i + 1) + [Protocol.EndObject])
    ensures |MembersTrace(t, i)| == 1 + |Trace(t.members[i].1)| + |MembersTrace(t, i + 1)|
  {
    var (k, v) := t.members[i];
    var tail := MembersTrace(t, i + 1) + [Protocol.EndObject];
    assert MembersTrace(t, i) + [Protocol.EndObject] == [Protocol.Property(k)] + (Trace(v) + tail);
    AtConcat(events, p, [Protocol.Property(k)], Trace(v) + tail);
    AtIndex(events, p, [Protocol.Property(k)], 0);
    AtConcat(events, p + 1, Trace(v), tail);
  }

  lemma {:induction false} ReadElementsTrace(events: seq<Protocol.Event>, p: nat, t: Thing, i: nat)
    requires t.Array? && MapShaped(t) && i <= |t.items|
    requires At(events, p, ElementsTrace(t, i) + [Protocol.EndArray])
    ensures ReadElements(events, p, t.items[..i]).Some?
    ensures ReadElements(events, p, t.items[..i]).value.0 == t
    ensures ReadElements(events, p, t.items[..i]).value.1 == p + |ElementsTrace(t, i)| + 1
    decreases t, 0, |t.items| - i
  {
    var vs := t.items;
    if i == |vs| {
      assert ElementsTrace(t, i) == [];
      AtIndex(events, p, [Protocol.EndArray], 0);
      ReadElementsEnd(events, p, vs[..i]);
      assert vs[..i] == vs;
    } else {
      var v := vs[i];
      ElementAt(events, p, t, i);
      var q := p + 1 + |Trace(v)|;
      assert MapShaped(v);
      ReadTrace(events, p + 1, v);
      ReadElementsNext(events, p, vs[..i], v, q);
      assert vs[..i] + [v] == vs[..i + 1];
      ReadElementsTrace(events, q, t, i + 1);
    }
  }

  /** The `has_array_value` loop stops at the end of the array. */
  lemma ReadElementsEnd(events: seq<Protocol.Event>, p: nat, acc: seq<Thing>)
    requires p < |events| && events[p] == Protocol.EndArray
    ensures ReadElements(events, p, acc) == Some((Array(acc), p + 1))
  {
  }

  /** One pass of the `has_array_value` loop: the element is appended. */
  lemma ReadElementsNext(events: seq<Protocol.Event>, p: nat, acc: seq<Thing>, v: Thing, q: nat)
    requires p < |events| && events[p] == Protocol.Element
    requires Read(events, p + 1) == Some((v, q))
    ensures ReadElements(events, p, acc) == ReadElements(events, q, acc + [v])
  {
  }

  /** Where the events of one element stand in an array's stream. */
  lemma ElementAt(events: seq<Protocol.Event>, p: nat, t: Thing, i: nat)
    requires t.Array? && i < |t.items|
    requires At(events, p, ElementsTrace(t, i) + [Protocol.EndArray])
    ensures p < |events| && events[p] == Protocol.Element
    ensures At(events, p + 1, Trace(t.items[i]))
    ensures At(events, p + 1 + |Trace(t.items[i])|, ElementsTrace(t, i + 1) + [Protocol.EndArray])
    ensures |ElementsTrace(t, i)| == 1 + |Trace(t.items[i])| + |ElementsTrace(t, i + 1)|
  {
    var v := t.items[i];
    var tail := ElementsTrace(t, i + 1) + [Protocol.EndArray];
    assert ElementsTrace(t, i) + [Protocol.EndArray] == [Protocol.Element] + (Trace(v) + tail);
    AtConcat(events, p, [Protocol.Element], Trace(v) + tail);
    AtIndex(events, p, [Protocol.Element], 0);
    AtConcat(events, p + 1, Trace(v), tail);
  }

  /** Feeding a faithful deserializer what `serialize` produced rebuilds the
      same `Thing` and uses up the whole stream. */
  lemma RoundTrip(t: Thing)
    requires MapShaped(t)
    ensures Read(Trace(t), 0) == Some((t, |Trace(t)|))
  {
    assert Trace(t)[0..|Trace(t)|] == Trace(t);
    ReadTrace(Trace(t), 0, t);
  }

  /** A name given twice keeps the value given last. */
  lemma RepeatedNameKeepsLast(x: F64, y: F64)
    ensures Read([Protocol.BeginObject, Protocol.Property("a"), Protocol.F64(x),
                  Protocol.Property("a"), Protocol.F64(y), Protocol.EndObject], 0)
         == Some((Object([("a", Number(y))]), 6))
  {
    var e := [Protocol.BeginObject, Protocol.Property("a"), Protocol.F64(x),
              Protocol.Property("a"), Protocol.F64(y), Protocol.EndObject];
    var first := Insert([], "a", Number(x));
    assert first == [("a", Number(x))];
    var last := Insert(first, "a", Number(y));
    assert last[0] == ("a", Number(y));
    assert last == [("a", Number(y))];
    ReadScalar(e, 2, Number(x));
    ReadScalar(e, 4, Number(y));
    ReadMembersNext(e, 1, [], "a", Number(x), 3);
    ReadMembersNext(e, 3, first, "a", Number(y), 5);
    ReadMembersEnd(e, 5, last);
    ReadObjectStart(e, 0);
  }

  /** A property without a value makes the whole object unreadable. */
  lemma MissingValueFails()
    ensures Read([Protocol.BeginObject, Protocol.Property("a"), Protocol.EndObject], 0).None?
  {
    var e := [Protocol.BeginObject, Protocol.Property("a"), Protocol.EndObject];
    assert Read(e, 2).None?;
  }
}
