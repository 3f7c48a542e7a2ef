/** `to_string.rs`: the recursive encoder that appends a `Value`'s text to a
    growing buffer. The buffer, a `&mut String` in the library, is threaded
    through as an argument and a result. */
module ToString {
  import opened Base
  import opened Json
  import opened Encoding

  /** The text this encoder gives `Null`: the bare literal. */
  const NullText: string := "null"

  /** `indent`: appends `amount` spaces. */
  method Indent(s: string, amount: nat) returns (r: string)
    ensures r == s + Spaces(amount)
  {
    r := s;
    for i := 0 to amount
      invariant r == s + Spaces(i)
    {
      assert Spaces(i + 1) == Spaces(i) + [' '];
      r := r + [' '];
    }
  }

  /** `encode_value`: appends the text of `value` at indentation
      `indentation`. Its object and array branches are the two methods below. */
  method EncodeValue(s: string, indentation: nat, value: Value, fmt: F64 -> string) returns (r: string)
    ensures s <= r
    ensures r == s + Layout(value, indentation, fmt, NullText)
    decreases value, 1
  {
    match value
    case Object(values) =>
      r := EncodeObject(s, indentation, values, fmt);
    case Array(values) =>
      r := EncodeArray(s, indentation, values, fmt);
    case String(s0) =>
      r := s + ['"'];
      r := r + s0;
      r := r + ['"'];
    case Number(n) =>
      r := s + fmt(n);
    case Boolean(b) =>
      if b {
        r := s + "true";
      } else {
        r := s + "false";
      }
    case Null =>
      r := s + "null";
  }

  /** The object branch: every entry is written followed by `,\n`; then one
      character is popped, and for a non-empty object a second one, before the
      closing line. */
  method EncodeObject(s: string, indentation: nat, values: seq<(string, Value)>, fmt: F64 -> string)
    returns (r: string)
    ensures r == s + Layout(Object(values), indentation, fmt, NullText)
    decreases Object(values), 0
  {
    r := s + "{\n";
    var inner := indentation + 4;
    ghost var entries := EntryTexts(Object(values), indentation, fmt, NullText);
    for i := 0 to |values|
      invariant r == s + "{\n" + Terminated(entries[..i], ",\n")
    {
      var (key, v) := values[i];
      ghost var before := r;
      r := Indent(r, inner);
      r := r + ['"'];
      r := r + key;
      r := r + ['"'];
      r := r + ": ";
      r := EncodeValue(r, inner, v, fmt);
      r := r + [','];
      r := r + ['\n'];
      EntryTextAt(Object(values), indentation, fmt, NullText, i);
      EntryPushed(before, key, Layout(v, inner, fmt, NullText), inner);
      TerminatedStep(s + "{\n", entries, i, ",\n");
    }
    assert entries[..|values|] == entries;
    r := Pop(r);
    if |values| > 0 {
      r := Pop(r);
      r := r + ['\n'];
      r := Indent(r, indentation);
      TerminatedIsJoinThenSep(entries, ",\n");
      ObjectClosed(s, Join(entries, ",\n"), Spaces(indentation));
    } else {
      assert r == s + "{";
    }
    r := r + "}";
  }

  /** The array branch: every element is written followed by `, `, and for a
      non-empty array the last separator is popped. */
  method EncodeArray(s: string, indentation: nat, values: seq<Value>, fmt: F64 -> string)
    returns (r: string)
    ensures r == s + Layout(Array(values), indentation, fmt, NullText)
    decreases Array(values), 0
  {
    r := s + ['['];
    ghost var texts := ElementTexts(Array(values), indentation, fmt, NullText);
    for i := 0 to |values|
      invariant r == s + "[" + Terminated(texts[..i], ", ")
    {
      r := EncodeValue(r, indentation, values[i], fmt);
      r := r + ", ";
      ElementTextAt(Array(values), indentation, fmt, NullText, i);
      TerminatedStep(s + "[", texts, i, ", ");
    }
    assert texts[..|values|] == texts;
    if |values| > 0 {
      TerminatedIsJoinThenSep(texts, ", ");
      ArrayClosed(s, Join(texts, ", "));
      r := Pop(r);
      r := Pop(r);
    }
    r := r + [']'];
  }
}
