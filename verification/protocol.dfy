/** The visitor protocol seen as a stream of events. Serializing records the
    calls made on a serializer as events; a deserializer is a cursor reading
    events back. The JSON deserializer of the library is not part of this
    model: `EventCursor` stands for a deserializer that faithfully replays a
    recorded stream, and it serves both interface revisions the core uses
    (`any`/`has_property`/`has_array_value` in `thing.rs` and the derive
    output, `begin_object`/`property`/`string`/`i64` in the `Person` example). */
module Protocol {
  import opened Base

  /** One serializer call: `begin_object`, `property` (its value's events
      follow), `end_object`, `begin_array`, `value` (the element's events
      follow), `end_array`, and the scalar calls. */
  datatype Event =
    | BeginObject
    | Property(name: string)
    | EndObject
    | BeginArray
    | Element
    | EndArray
    | String(s: string)
    | Bool(b: bool)
    | I64(i: I64)
    | F64(n: F64)
    | Null

  /** `AnyValue` of the revision `thing.rs` is written against: an object or
      an array is announced without payload, its contents follow. */
  datatype AnyValue =
    | Object
    | Array
    | Number(n: F64)
    | Boolean(b: bool)
    | Text(s: string)
    | Nothing

  /** Where the cursor stands after one read at `p`: every read moves one
      event on, whether it succeeds or not, unless the events are used up. */
  function Step(events: seq<Event>, p: nat): (q: nat)
    requires p <= |events|
    ensures q <= |events|
    ensures p < |events| ==> q == p + 1
    ensures p == |events| ==> q == p
  {
    if p < |events| then p + 1 else p
  }

  /** What `string` reads at `p`. */
  function StringAt(events: seq<Event>, p: nat): (r: Option<string>)
    ensures r.Some? <==> p < |events| && events[p].String?
    ensures r.Some? ==> events[p] == String(r.value)
  {
    if p < |events| && events[p].String? then Some(events[p].s) else None
  }

  /** What `i64` reads at `p`. */
  function I64At(events: seq<Event>, p: nat): (r: Option<I64>)
    ensures r.Some? <==> p < |events| && events[p].I64?
    ensures r.Some? ==> events[p] == I64(r.value)
  {
    if p < |events| && events[p].I64? then Some(events[p].i) else None
  }

  /** What `any` reads at `p`; nothing for an `i64`, which `AnyValue` has no
      kind for, and nothing for an event that does not start a value. */
  function AnyAt(events: seq<Event>, p: nat): (r: Option<AnyValue>)
    ensures r.Some? <==> p < |events| && !events[p].Property? && !events[p].EndObject?
                                      && !events[p].Element? && !events[p].EndArray? && !events[p].I64?
  {
    if p >= |events| then None
    else
      match events[p]
      case BeginObject => Some(Object)
      case BeginArray => Some(Array)
      case F64(n) => Some(Number(n))
      case Bool(b) => Some(Boolean(b))
      case String(s) => Some(Text(s))
      case Null => Some(Nothing)
      case _ => None
  }

  /** What `has_property` (and `property`) reads at `p`: the next property's
      name, or nothing at the end of the object or on a stray event. */
  function PropertyAt(events: seq<Event>, p: nat): (r: Option<string>)
    ensures r.Some? <==> p < |events| && events[p].Property?
    ensures r.Some? ==> events[p] == Property(r.value)
  {
    if p < |events| && events[p].Property? then Some(events[p].name) else None
  }

  /** A read that answers nothing on an event it was not written for leaves
      the deserializer invalid. The normal end of an object or an array is not
      such a read. */
  predicate PropertyFails(events: seq<Event>, p: nat)
  {
    p >= |events| || (!events[p].Property? && !events[p].EndObject?)
  }

  predicate ElementFails(events: seq<Event>, p: nat)
  {
    p >= |events| || (!events[p].Element? && !events[p].EndArray?)
  }

  /** A deserializer over a recorded event stream. `failed` is the validity
      the trait's documentation speaks of: once a read answers nothing where a
      value was asked for, the deserializer is no longer valid, and no later
      read makes it valid again. */
  class EventCursor {
    const events: seq<Event>
    var pos: nat
    ghost var failed: bool

    ghost predicate Valid()
      reads this
    {
      pos <= |events|
    }

    constructor (events: seq<Event>)
      ensures Valid() && this.events == events && pos == 0 && !failed
    {
      this.events := events;
      pos := 0;
      failed := false;
    }

    /** `string`. */
    method String() returns (r: Option<string>)
      requires Valid()
      modifies this
      ensures Valid() && pos == Step(events, old(pos))
      ensures r == StringAt(events, old(pos))
      ensures failed == (old(failed) || r.None?)
    {
      r := StringAt(events, pos);
      failed := failed || r.None?;
      if pos < |events| {
        pos := pos + 1;
      }
    }

    /** `i64`. */
    method I64() returns (r: Option<I64>)
      requires Valid()
      modifies this
      ensures Valid() && pos == Step(events, old(pos))
      ensures r == I64At(events, old(pos))
      ensures failed == (old(failed) || r.None?)
    {
      r := I64At(events, pos);
      failed := failed || r.None?;
      if pos < |events| {
        pos := pos + 1;
      }
    }

    /** `any`: the kind of the next value, its payload for a scalar. */
    method Any() returns (r: Option<AnyValue>)
      requires Valid()
      modifies this
      ensures Valid() && pos == Step(events, old(pos))
      ensures r == AnyAt(events, old(pos))
      ensures failed == (old(failed) || r.None?)
    {
      r := AnyAt(events, pos);
      failed := failed || r.None?;
      if pos < |events| {
        pos := pos + 1;
      }
    }

    /** `begin_object`: whether an object starts here. */
    method BeginObject() returns (ok: bool)
      requires Valid()
      modifies this
      ensures Valid() && pos == Step(events, old(pos))
      ensures ok <==> old(pos) < |events| && events[old(pos)] == Event.BeginObject
      ensures failed == (old(failed) || !ok)
    {
      ok := pos < |events| && events[pos] == Event.BeginObject;
      failed := failed || !ok;
      if pos < |events| {
        pos := pos + 1;
      }
    }

    /** `has_property` and `property`: the next property's name, whose value
        is read next; nothing at the end of the object. */
    method HasProperty() returns (r: Option<string>)
      requires Valid()
      modifies this
      ensures Valid() && pos == Step(events, old(pos))
      ensures r == PropertyAt(events, old(pos))
      ensures failed == (old(failed) || PropertyFails(events, old(pos)))
    {
      r := PropertyAt(events, pos);
      failed := failed || PropertyFails(events, pos);
      if pos < |events| {
        pos := pos + 1;
      }
    }

    /** `has_array_value`: whether another element follows; false at the end
        of the array. */
    method HasArrayValue() returns (more: bool)
      requires Valid()
      modifies this
      ensures Valid() && pos == Step(events, old(pos))
      ensures more <==> old(pos) < |events| && events[old(pos)] == Element
      ensures failed == (old(failed) || ElementFails(events, old(pos)))
    {
      more := pos < |events| && events[pos] == Element;
      failed := failed || ElementFails(events, pos);
      if pos < |events| {
        pos := pos + 1;
      }
    }
  }
}
