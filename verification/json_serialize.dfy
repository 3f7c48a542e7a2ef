/** `json_serialize.rs`: the `JSONSerializer` state machine (a text buffer and
    the current indentation), the `Serialize` dispatch for `Value`, and
    `to_json_string`. */
module JsonSerialize {
  import Base
  import Json
  import opened Encoding

  /** The text this encoder gives `Null`: the word `null` quoted, because it
      is written through `string`. */
  const NullText: string := Quoted("null")

  /** The decimal digit `d`. */
  function DigitChar(d: nat): char
    requires d < 10
  {
    "0123456789"[d]
  }

  /** The value of a decimal digit. */
  function DigitValue(c: char): nat
  {
    if '0' <= c <= '9' then c as nat - '0' as nat else 0
  }

  /** The decimal text of `n`, without leading zeros. */
  function NatText(n: nat): (r: string)
    ensures |r| > 0
    ensures forall i :: 0 <= i < |r| ==> '0' <= r[i] <= '9'
    ensures r[0] == '0' ==> n == 0
  {
    if n < 10 then [DigitChar(n)] else NatText(n / 10) + [DigitChar(n % 10)]
  }

  /** `i64::to_string`: a minus sign for negative numbers, then the digits. */
  function I64Text(n: Base.I64): string
  {
    if n < 0 then "-" + NatText(-(n as int)) else NatText(n as int)
  }

  /** Reading decimal text back, most significant digit first. */
  function NatValue(s: string): nat
  {
    if |s| == 0 then 0 else 10 * NatValue(s[..|s| - 1]) + DigitValue(s[|s| - 1])
  }

  function SignedValue(s: string): int
  {
    if |s| > 0 && s[0] == '-' then -(NatValue(s[1..]) as int) else NatValue(s)
  }

  lemma {:induction false} NatTextRoundTrip(n: nat)
    ensures NatValue(NatText(n)) == n
  {
    if n >= 10 {
      var t := NatText(n / 10);
      assert (t + [DigitChar(n % 10)])[..|t|] == t;
      NatTextRoundTrip(n / 10);
    }
  }

  /** The text `i64` writes reads back as the same number. */
  lemma I64TextRoundTrip(n: Base.I64)
    ensures SignedValue(I64Text(n)) == n as int
  {
    var m: nat := if n < 0 then -(n as int) else n as int;
    NatTextRoundTrip(m);
    if n < 0 {
      var t := NatText(m);
      assert ("-" + t)[1..] == t;
    }
  }

  /** The serializer's state: the text written so far and the indentation of
      the object being written. */
  class JsonSerializer {
    var s: string
    var indentation: nat
    /** How an `f64` is displayed; float formatting is not part of the model. */
    const fmt: Base.F64 -> string

    /** `new`: an empty buffer at indentation 0. */
    constructor (fmt: Base.F64 -> string)
      ensures s == "" && indentation == 0 && this.fmt == fmt
    {
      s := "";
      indentation := 0;
      this.fmt := fmt;
    }

    /** `indent`: appends as many spaces as the current indentation. */
    method Indent()
      modifies this
      ensures s == old(s) + Base.Spaces(indentation)
      ensures indentation == old(indentation)
    {
      ghost var s0 := s;
      for i := 0 to indentation
        invariant indentation == old(indentation)
        invariant s == s0 + Base.Spaces(i)
      {
        assert Base.Spaces(i + 1) == Base.Spaces(i) + [' '];
        s := s + [' '];
      }
    }

    /** `map`: the members four spaces further in, each key written through
        `string`; the indentation is restored before the closing line. */
    method Map(members: seq<(string, Json.Value)>)
      modifies this
      ensures s == old(s) + Layout(Json.Object(members), old(indentation), fmt, NullText)
      ensures indentation == old(indentation)
      decreases Json.Object(members), 0
    {
      ghost var s0 := s;
      s := s + "{\n";
      indentation := indentation + 4;
      var moreThanOneItem := false;
      ghost var entries := EntryTexts(Json.Object(members), old(indentation), fmt, NullText);
      ghost var inner := old(indentation) + 4;
      ghost var layout := Layout(Json.Object(members), old(indentation), fmt, NullText);
      assert layout == ObjectLayout(Json.Object(members), old(indentation), fmt, NullText);
      for i := 0 to |members|
        invariant indentation == inner
        invariant s == s0 + "{\n" + Base.Terminated(entries[..i], ",\n")
        invariant moreThanOneItem <==> i > 0
      {
        var (key, value) := members[i];
        ghost var before := s;
        Indent();
        String(key);
        s := s + ": ";
        SerializeValue(value, this);
        ghost var text := Layout(value, inner, fmt, NullText);
        s := s + [','];
        s := s + ['\n'];
        moreThanOneItem := true;
        EntryWritten(before, key, text, inner);
        EntryTextAt(Json.Object(members), old(indentation), fmt, NullText, i);
        Base.TerminatedStep(s0 + "{\n", entries, i, ",\n");
      }
      assert entries[..|members|] == entries;
      indentation := indentation - 4;
      s := Base.Pop(s);
      if moreThanOneItem {
        s := Base.Pop(s);
        s := s + ['\n'];
        Indent();
        Base.TerminatedIsJoinThenSep(entries, ",\n");
        ObjectClosed(s0, Base.Join(entries, ",\n"), Base.Spaces(indentation));
        assert s + "}" == s0 + layout;
      } else {
        assert s == s0 + "{";
        assert s + "}" == s0 + layout;
      }
      s := s + "}";
    }

    /** `array`: every element followed by `, `, the last separator popped. */
    method Array(values: seq<Json.Value>)
      modifies this
      ensures s == old(s) + Layout(Json.Array(values), indentation, fmt, NullText)
      ensures indentation == old(indentation)
      decreases Json.Array(values), 0
    {
      ghost var s0, ind := s, indentation;
      s := s + ['['];
      var moreThanOneValue := false;
      ghost var texts := ElementTexts(Json.Array(values), ind, fmt, NullText);
      for i := 0 to |values|
        invariant indentation == ind
        invariant s == s0 + "[" + Base.Terminated(texts[..i], ", ")
        invariant moreThanOneValue <==> i > 0
      {
        ghost var before := s;
        SerializeValue(values[i], this);
        assert s == before + Layout(values[i], ind, fmt, NullText);
        s := s + ", ";
        moreThanOneValue := true;
        ElementTextAt(Json.Array(values), ind, fmt, NullText, i);
        Base.TerminatedStep(s0 + "[", texts, i, ", ");
      }
      assert texts[..|values|] == texts;
      if moreThanOneValue {
        Base.TerminatedIsJoinThenSep(texts, ", ");
        ArrayClosed(s0, Base.Join(texts, ", "));
        s := Base.Pop(s);
        s := Base.Pop(s);
      }
      s := s + [']'];
    }

    /** `f64`: the float's display text. */
    method F64(n: Base.F64)
      modifies this
      ensures s == old(s) + fmt(n) && indentation == old(indentation)
    {
      s := s + fmt(n);
    }

    /** `i64`: the integer's decimal text. */
    method I64(n: Base.I64)
      modifies this
      ensures s == old(s) + I64Text(n) && indentation == old(indentation)
    {
      s := s + I64Text(n);
    }

    /** `bool`: the bare literal. */
    method Bool(b: bool)
      modifies this
      ensures s == old(s) + (if b then "true" else "false") && indentation == old(indentation)
    {
      if b {
        s := s + "true";
      } else {
        s := s + "false";
      }
    }

    /** `string`: the text between double quotes, not escaped. */
    method String(str: string)
      modifies this
      ensures s == old(s) + Quoted(str) && indentation == old(indentation)
    {
      s := s + ['"'];
      s := s + str;
      s := s + ['"'];
    }

    /** `done`: the text written. */
    method Done() returns (r: string)
      ensures r == s
    {
      r := s;
    }
  }

  /** `Serialize for Value`: one serializer call per value, chosen by its
      kind; `Null` goes through `string`. */
  method SerializeValue(v: Json.Value, ser: JsonSerializer)
    modifies ser
    ensures ser.s == old(ser.s) + Layout(v, old(ser.indentation), ser.fmt, NullText)
    ensures ser.indentation == old(ser.indentation)
    decreases v, 1
  {
    match v
    case Object(values) => ser.Map(values);
    case Array(values) => ser.Array(values);
    case String(s0) => ser.String(s0);
    case Number(n) => ser.F64(n);
    case Boolean(b) => ser.Bool(b);
    case Null => ser.String("null");
  }

  /** `to_json_string`: a fresh serializer, one value, and the text written. */
  method ToJsonString(value: Json.Value, fmt: Base.F64 -> string) returns (r: string)
    ensures r == Layout(value, 0, fmt, NullText)
  {
    var ser := new JsonSerializer(fmt);
    SerializeValue(value, ser);
    r := ser.Done();
  }
}
