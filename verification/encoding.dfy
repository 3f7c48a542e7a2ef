/** The text both JSON encoders produce for a `Value`: four spaces of
    indentation per object level, one entry per line, array elements on one
    line, strings quoted without escaping. The two encoders differ only in the
    text they give `Null`, which is a parameter here, as is the text of a
    float. */
module Encoding {
  import opened Base
  import opened Json

  /** `s` between double quotes, its contents not escaped. */
  function Quoted(s: string): string
  {
    "\"" + s + "\""
  }

  /** One object entry at indentation `inner`: the quoted key, a colon and a
      space, then the text of the value. */
  function Entry(key: string, text: string, inner: nat): string
  {
    Spaces(inner) + Quoted(key) + ": " + text
  }

  /** The text of `v` when the encoder starts it at indentation `ind`. */
  function Layout(v: Value, ind: nat, fmt: F64 -> string, nullText: string): string
    decreases v, 2
  {
    match v
    case Object(_) => ObjectLayout(v, ind, fmt, nullText)
    case Array(_) => ArrayLayout(v, ind, fmt, nullText)
    case String(s) => Quoted(s)
    case Number(n) => fmt(n)
    case Boolean(b) => if b then "true" else "false"
    case Null => nullText
  }

  /** An object: `{}` when empty, otherwise one entry per line at four more
      spaces, entries separated by commas, and the closing brace on a line of
      its own at the object's indentation. */
  function ObjectLayout(v: Value, ind: nat, fmt: F64 -> string, nullText: string): string
    requires v.Object?
    decreases v, 1
  {
    if |v.members| == 0 then "{}"
    else "{\n" + Join(EntryTexts(v, ind, fmt, nullText), ",\n") + "\n" + Spaces(ind) + "}"
  }

  /** An array: its elements on one line, separated by a comma and a space. */
  function ArrayLayout(v: Value, ind: nat, fmt: F64 -> string, nullText: string): string
    requires v.Array?
    decreases v, 1
  {
    "[" + Join(ElementTexts(v, ind, fmt, nullText), ", ") + "]"
  }

  /** The entry texts of an object's members, at indentation `ind + 4`. */
  function EntryTexts(v: Value, ind: nat, fmt: F64 -> string, nullText: string): (r: seq<string>)
    requires v.Object?
    ensures |r| == |v.members|
    decreases v, 0
  {
    var ms := v.members;
    seq(|ms|, i requires 0 <= i < |ms| => Entry(ms[i].0, Layout(ms[i].1, ind + 4, fmt, nullText), ind + 4))
  }

  /** The texts of an array's elements, at the array's own indentation. */
  function ElementTexts(v: Value, ind: nat, fmt: F64 -> string, nullText: string): (r: seq<string>)
    requires v.Array?
    ensures |r| == |v.elements|
    decreases v, 0
  {
    var vs := v.elements;
    seq(|vs|, i requires 0 <= i < |vs| => Layout(vs[i], ind, fmt, nullText))
  }

  lemma EntryTextAt(v: Value, ind: nat, fmt: F64 -> string, nullText: string, i: nat)
    requires v.Object? && i < |v.members|
    ensures EntryTexts(v, ind, fmt, nullText)[i]
            == Entry(v.members[i].0, Layout(v.members[i].1, ind + 4, fmt, nullText), ind + 4)
  {
  }

  lemma ElementTextAt(v: Value, ind: nat, fmt: F64 -> string, nullText: string, i: nat)
    requires v.Array? && i < |v.elements|
    ensures ElementTexts(v, ind, fmt, nullText)[i] == Layout(v.elements[i], ind, fmt, nullText)
  {
  }

  /** On a tree without `Null` the text given to `Null` does not matter: the
      two encoders produce the same text. */
  lemma {:induction false} NullFreeLayoutsAgree(v: Value, ind: nat, fmt: F64 -> string, a: string, b: string)
    requires NullFree(v)
    ensures Layout(v, ind, fmt, a) == Layout(v, ind, fmt, b)
    decreases v
  {
    match v
    case Object(ms) =>
      if |ms| > 0 {
        forall i | 0 <= i < |ms|
          ensures Layout(ms[i].1, ind + 4, fmt, a) == Layout(ms[i].1, ind + 4, fmt, b)
        {
          NullFreeLayoutsAgree(ms[i].1, ind + 4, fmt, a, b);
        }
        assert EntryTexts(v, ind, fmt, a) == EntryTexts(v, ind, fmt, b);
      }
    case Array(vs) =>
      forall i | 0 <= i < |vs|
        ensures Layout(vs[i], ind, fmt, a) == Layout(vs[i], ind, fmt, b)
      {
        NullFreeLayoutsAgree(vs[i], ind, fmt, a, b);
      }
      assert ElementTexts(v, ind, fmt, a) == ElementTexts(v, ind, fmt, b);
    case _ =>
  }

  /** The pushes of one loop iteration append the entry and its separator. */
  lemma EntryPushed(before: string, key: string, text: string, inner: nat)
    ensures before + Spaces(inner) + ['"'] + key + ['"'] + ": " + text + [','] + ['\n']
            == before + Entry(key, text, inner) + ",\n"
  {
  }

  /** The same, with the key written through a quoting call. */
  lemma EntryWritten(before: string, key: string, text: string, inner: nat)
    ensures before + Spaces(inner) + Quoted(key) + ": " + text + [','] + ['\n']
            == before + Entry(key, text, inner) + ",\n"
  {
  }

  /** After the loop of a non-empty object: popping the last separator and
      writing the closing line gives the object's layout. */
  lemma ObjectClosed(s: string, body: string, closing: string)
    ensures Pop(Pop(s + "{\n" + (body + ",\n"))) + ['\n'] + closing + "}"
            == s + ("{\n" + body + "\n" + closing + "}")
  {
    PopSeparator(s + "{\n", body, ',', '\n');
  }

  /** After the loop of a non-empty array: popping the last separator and
      writing the closing bracket gives the array's layout. */
  lemma ArrayClosed(s: string, body: string)
    ensures Pop(Pop(s + "[" + (body + ", "))) + [']'] == s + ("[" + body + "]")
  {
    PopSeparator(s + "[", body, ',', ' ');
  }
}
