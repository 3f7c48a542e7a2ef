/** Reading back what the encoders write. The parser reads the text of a tree
    laid out by either encoder back into the same tree, wherever the text
    stands in the source, provided the tree is "plain": its strings and keys
    hold no quote and no backslash (the encoders do not escape them), it has
    no number (float text is not modelled), no `null` (one encoder writes it
    as the string `"null"`, the other as a keyword the parser reads as `true`)
    and no `false` (the parser reads every keyword starting with `f` as
    `true`), its objects have distinct keys, and it is within the parser's
    depth limit. */
module RoundTrip {
  import opened Base
  import opened Keyed
  import opened Json
  import opened FromStr
  import opened Encoding
  import ParseFacts

  /** No character the encoders would have had to escape. */
  predicate Clean(s: string)
  {
    forall k :: 0 <= k < |s| ==> s[k] != '"' && s[k] != '\\'
  }

  /** A tree whose layout the parser reads back exactly. */
  predicate Plain(v: Value)
  {
    match v
    case String(s) => Clean(s)
    case Boolean(b) => b
    case Object(ms) => DistinctKeys(ms) && forall i :: 0 <= i < |ms| ==> Clean(ms[i].0) && Plain(ms[i].1)
    case Array(vs) => forall i :: 0 <= i < |vs| ==> Plain(vs[i])
    case _ => false
  }

  /** The text a container's layout has left once its opening bracket and
      its first `i` items are read: `first` before item 0, `sep` before every
      later item, `closing` at the end. */
  function Tail(items: seq<string>, i: nat, first: string, sep: string, closing: string): string
    requires i <= |items|
    decreases |items| - i
  {
    if i == |items| then closing
    else (if i == 0 then first else sep) + items[i] + Tail(items, i + 1, first, sep, closing)
  }

  lemma {:induction false} JoinTail(items: seq<string>, i: nat, first: string, sep: string, closing: string)
    requires i < |items|
    ensures items[i] + Tail(items, i + 1, first, sep, closing) == Join(items[i..], sep) + closing
    decreases |items| - i
  {
    if i + 1 < |items| {
      var t := Tail(items, i + 2, first, sep, closing);
      JoinTail(items, i + 1, first, sep, closing);
      assert items[i..][1..] == items[i + 1..];
      calc {
        items[i] + Tail(items, i + 1, first, sep, closing);
        items[i] + (sep + items[i + 1] + t);
        items[i] + sep + (items[i + 1] + t);
        items[i] + sep + (Join(items[i + 1..], sep) + closing);
        items[i] + sep + Join(items[i + 1..], sep) + closing;
      }
    }
  }

  /** What follows the last entry of a non-empty object. */
  function Closing(ind: nat): string
  {
    "\n" + Spaces(ind) + "}"
  }

  lemma {:induction false} ObjectTail(v: Value, ind: nat, fmt: F64 -> string, nullText: string)
    requires v.Object? && |v.members| > 0
    ensures ObjectLayout(v, ind, fmt, nullText)
            == "{" + Tail(EntryTexts(v, ind, fmt, nullText), 0, "\n", ",\n", Closing(ind))
  {
    ClosedTail(EntryTexts(v, ind, fmt, nullText), ind);
  }

  /** A non-empty object's entries, laid out, are its member loop's text. */
  lemma {:induction false} ClosedTail(es: seq<string>, ind: nat)
    requires |es| > 0
    ensures "{\n" + Join(es, ",\n") + "\n" + Spaces(ind) + "}" == "{" + Tail(es, 0, "\n", ",\n", Closing(ind))
  {
    var t1 := Tail(es, 1, "\n", ",\n", Closing(ind));
    JoinTail(es, 0, "\n", ",\n", Closing(ind));
    assert es[0..] == es;
    calc {
      "{" + Tail(es, 0, "\n", ",\n", Closing(ind));
      "{" + ("\n" + es[0] + t1);
      "{\n" + (es[0] + t1);
      "{\n" + (Join(es, ",\n") + Closing(ind));
      "{\n" + Join(es, ",\n") + "\n" + Spaces(ind) + "}";
    }
  }

  lemma {:induction false} ArrayTail(v: Value, ind: nat, fmt: F64 -> string, nullText: string)
    requires v.Array?
    ensures ArrayLayout(v, ind, fmt, nullText) == "[" + Tail(ElementTexts(v, ind, fmt, nullText), 0, "", ", ", "]")
  {
    var es := ElementTexts(v, ind, fmt, nullText);
    if |es| > 0 {
      var t1 := Tail(es, 1, "", ", ", "]");
      JoinTail(es, 0, "", ", ", "]");
      assert es[0..] == es;
      calc {
        "[" + Tail(es, 0, "", ", ", "]");
        "[" + ("" + es[0] + t1);
        "[" + (es[0] + t1);
        "[" + (Join(es, ", ") + "]");
        "[" + Join(es, ", ") + "]";
      }
    } else {
      assert "[" + Join(es, ", ") + "]" == "[" + "]";
    }
  }

  /** The layout of a plain tree starts with a character that is neither
      whitespace nor a comma nor a closing bracket. */
  lemma {:induction false} FirstChar(v: Value, ind: nat, fmt: F64 -> string, nullText: string)
    requires Plain(v)
    ensures var t := Layout(v, ind, fmt, nullText);
            |t| > 0 && (t[0] == '"' || t[0] == 't' || t[0] == '{' || t[0] == '[')
  {
  }

  /** A run of whitespace is skipped as a whole. */
  lemma {:induction false} SkipRun(src: seq<char>, p: nat, n: nat)
    requires p + n <= |src|
    requires forall k :: p <= k < p + n ==> IsWhitespace(src[k])
    ensures SkipWs(src, p) == SkipWs(src, p + n)
    decreases n
  {
    if n > 0 {
      SkipRun(src, p + 1, n - 1);
    }
  }

  lemma {:induction false} SkipSpaces(src: seq<char>, p: nat, n: nat)
    requires At(src, p, Spaces(n))
    ensures SkipWs(src, p) == SkipWs(src, p + n)
  {
    forall k | p <= k < p + n
      ensures IsWhitespace(src[k])
    {
      AtIndex(src, p, Spaces(n), k - p);
    }
    SkipRun(src, p, n);
  }

  /** An unescaped quoted text reads back as itself. */
  lemma {:induction false} QuotedAt(src: seq<char>, p: nat, s: string)
    requires At(src, p, Quoted(s)) && Clean(s)
    ensures ScanString(src, p) == Some((s, p + |s| + 2))
  {
    var t := Quoted(s);
    AtIndex(src, p, t, 0);
    AtIndex(src, p, t, |s| + 1);
    forall k | p < k < p + |s| + 1
      ensures src[k] != '"' && src[k] != '\\'
    {
      AtIndex(src, p, t, k - p);
      assert t[k - p] == s[k - p - 1];
    }
    ParseFacts.VerbatimString(src, p, p + |s| + 1);
    AtConcat(src, p, "\"" + s, "\"");
    AtConcat(src, p, "\"", s);
  }

  /** `parse_value` at `q` after `d` calls reads `v`, ending at `e` after
      `d'` calls in all. */
  predicate Reads(src: seq<char>, q: nat, d: nat, v: Value, e: nat, d': nat)
  {
    q <= |src| && d <= RecursiveLimit && PValue(src, q, d).Some?
    && PValue(src, q, d).value.0 == v && PValue(src, q, d).value.1 == e
    && PValue(src, q, d).value.2 == d'
  }

  /** `parse_value` at `q` after `d` calls reads `v`, ending `len`
      characters on, after `n` more calls. */
  predicate ReadsAt(src: seq<char>, q: nat, d: nat, v: Value, len: nat, n: nat)
  {
    Reads(src, q, d, v, q + len, d + n)
  }

  /** The layout of a plain tree, wherever it stands in the source, parses
      back into the tree, ends where the layout ends, and costs one
      `parse_value` call per node. */
  lemma {:induction false} ReadLayout(src: seq<char>, p: nat, v: Value, ind: nat, fmt: F64 -> string, nullText: string, d: nat)
    requires Plain(v) && At(src, p, Layout(v, ind, fmt, nullText)) && d + Count(v) <= RecursiveLimit
    ensures ReadsAt(src, p, d, v, |Layout(v, ind, fmt, nullText)|, Count(v))
    decreases v
  {
    var t := Layout(v, ind, fmt, nullText);
    FirstChar(v, ind, fmt, nullText);
    AtIndex(src, p, t, 0);
    match v
    case String(s) =>
      QuotedAt(src, p, s);
      ValueScalar(src, p, d);
    case Boolean(_) =>
      ValueScalar(src, p, d);
    case Object(ms) =>
      if |ms| == 0 {
        AtIndex(src, p, t, 1);
        assert SkipWs(src, p + 1) == p + 1;
        ValueObject(src, p, d, ms, p + 2, d + 1);
        assert Reads(src, p, d, v, p + |t|, d + Count(v));
      } else {
        var texts := ValueTexts(ms, ind + 4, fmt, nullText);
        var counts := MemberCounts(ms);
        forall j, q: nat, e: nat | 0 <= j < |ms| && At(src, q, texts[j]) && e + counts[j] <= RecursiveLimit
          ensures ReadsAt(src, q, e, ms[j].1, |texts[j]|, counts[j])
        {
          ReadLayout(src, q, ms[j].1, ind + 4, fmt, nullText, e);
        }
        assert MembersReadBack(src, ms, texts, counts);
        ReadObject(src, p, v, ind, fmt, nullText, d);
      }
    case Array(vs) =>
      var es := ElementTexts(v, ind, fmt, nullText);
      var counts := ElementCounts(vs);
      forall j, q: nat, e: nat | 0 <= j < |vs| && At(src, q, es[j]) && e + counts[j] <= RecursiveLimit
        ensures ReadsAt(src, q, e, vs[j], |es[j]|, counts[j])
      {
        ElementTextAt(v, ind, fmt, nullText, j);
        ReadLayout(src, q, vs[j], ind, fmt, nullText, e);
      }
      assert ElementsReadBack(src, vs, es, counts);
      ReadArray(src, p, v, ind, fmt, nullText, d);
  }

  /** Every value of `ms` reads back wherever its text stands. */
  ghost predicate MembersReadBack(src: seq<char>, ms: seq<(string, Value)>, texts: seq<string>, counts: seq<nat>)
  {
    |texts| == |ms| && |counts| == |ms|
    && forall j, q: nat, e: nat :: 0 <= j < |ms| && At(src, q, texts[j]) && e + counts[j] <= RecursiveLimit
         ==> ReadsAt(src, q, e, ms[j].1, |texts[j]|, counts[j])
  }

  /** Every element of `vs` reads back wherever its text stands. */
  ghost predicate ElementsReadBack(src: seq<char>, vs: seq<Value>, es: seq<string>, counts: seq<nat>)
  {
    |es| == |vs| && |counts| == |vs|
    && forall j, q: nat, e: nat :: 0 <= j < |vs| && At(src, q, es[j]) && e + counts[j] <= RecursiveLimit
         ==> ReadsAt(src, q, e, vs[j], |es[j]|, counts[j])
  }

  /** A non-empty object reads back once its values do. */
  lemma {:induction false} ReadObject(src: seq<char>, p: nat, v: Value, ind: nat, fmt: F64 -> string, nullText: string, d: nat)
    requires v.Object? && Plain(v) && |v.members| > 0
    requires At(src, p, Layout(v, ind, fmt, nullText)) && d + Count(v) <= RecursiveLimit
    requires MembersReadBack(src, v.members, ValueTexts(v.members, ind + 4, fmt, nullText), MemberCounts(v.members))
    ensures ReadsAt(src, p, d, v, |Layout(v, ind, fmt, nullText)|, Count(v))
  {
    var ms := v.members;
    var es := EntryTexts(v, ind, fmt, nullText);
    var texts := ValueTexts(ms, ind + 4, fmt, nullText);
    var counts := MemberCounts(ms);
    EntriesShape(v, ind, fmt, nullText);
    ObjectStart(src, p, v, ind, fmt, nullText);
    ObjectFromMembers(src, p, ms, es, texts, counts, ind, d);
  }

  /** An object whose entries are laid out after its `{` reads back. */
  lemma {:induction false} ObjectFromMembers(src: seq<char>, p: nat, ms: seq<(string, Value)>, es: seq<string>, texts: seq<string>,
                          counts: seq<nat>, ind: nat, d: nat)
    requires |es| == |ms| && |texts| == |ms| && |counts| == |ms| && DistinctKeys(ms)
    requires forall j :: 0 <= j < |ms| ==> Clean(ms[j].0) && es[j] == Entry(ms[j].0, texts[j], ind + 4)
    requires forall j :: 0 <= j < |ms| ==> |texts[j]| > 0 && !IsWhitespace(texts[j][0])
    requires MembersReadBack(src, ms, texts, counts)
    requires p < |src| && src[p] == '{' && At(src, p + 1, Tail(es, 0, "\n", ",\n", Closing(ind)))
    requires d + 1 + SumNat(counts) <= RecursiveLimit
    ensures Reads(src, p, d, Object(ms), p + 1 + |Tail(es, 0, "\n", ",\n", Closing(ind))|, d + 1 + SumNat(counts))
  {
    assert ms[..0] == [] && counts[0..] == counts;
    ReadMembers(src, p + 1, ms, es, texts, counts, ind, d + 1, 0);
    ValueObject(src, p, d, ms, p + 1 + |Tail(es, 0, "\n", ",\n", Closing(ind))|, d + 1 + SumNat(counts));
  }

  /** Every entry of a plain object is its clean key and the text of its
      value, and every value's text starts with a character that is not
      whitespace. */
  lemma {:induction false} EntriesShape(v: Value, ind: nat, fmt: F64 -> string, nullText: string)
    requires v.Object? && Plain(v)
    ensures var es := EntryTexts(v, ind, fmt, nullText);
            var texts := ValueTexts(v.members, ind + 4, fmt, nullText);
            forall j :: 0 <= j < |v.members| ==> Clean(v.members[j].0) && es[j] == Entry(v.members[j].0, texts[j], ind + 4)
    ensures var texts := ValueTexts(v.members, ind + 4, fmt, nullText);
            forall j :: 0 <= j < |v.members| ==> |texts[j]| > 0 && !IsWhitespace(texts[j][0])
  {
    forall j | 0 <= j < |v.members|
      ensures |Layout(v.members[j].1, ind + 4, fmt, nullText)| > 0
      ensures !IsWhitespace(Layout(v.members[j].1, ind + 4, fmt, nullText)[0])
    {
      FirstChar(v.members[j].1, ind + 4, fmt, nullText);
    }
  }

  /** After its `{`, a non-empty object's layout is the member loop's text. */
  lemma {:induction false} ObjectStart(src: seq<char>, p: nat, v: Value, ind: nat, fmt: F64 -> string, nullText: string)
    requires v.Object? && |v.members| > 0 && At(src, p, Layout(v, ind, fmt, nullText))
    ensures p < |src| && src[p] == '{'
    ensures At(src, p + 1, Tail(EntryTexts(v, ind, fmt, nullText), 0, "\n", ",\n", Closing(ind)))
    ensures |Layout(v, ind, fmt, nullText)| == 1 + |Tail(EntryTexts(v, ind, fmt, nullText), 0, "\n", ",\n", Closing(ind))|
  {
    var tail := Tail(EntryTexts(v, ind, fmt, nullText), 0, "\n", ",\n", Closing(ind));
    ObjectTail(v, ind, fmt, nullText);
    AtConcat(src, p, "{", tail);
    AtIndex(src, p, "{", 0);
  }

  /** An array reads back once its elements do. */
  lemma {:induction false} ReadArray(src: seq<char>, p: nat, v: Value, ind: nat, fmt: F64 -> string, nullText: string, d: nat)
    requires v.Array? && Plain(v)
    requires At(src, p, Layout(v, ind, fmt, nullText)) && d + Count(v) <= RecursiveLimit
    requires ElementsReadBack(src, v.elements, ElementTexts(v, ind, fmt, nullText), ElementCounts(v.elements))
    ensures ReadsAt(src, p, d, v, |Layout(v, ind, fmt, nullText)|, Count(v))
  {
    var vs := v.elements;
    var es := ElementTexts(v, ind, fmt, nullText);
    var counts := ElementCounts(vs);
    ElementsShape(v, ind, fmt, nullText);
    ArrayStart(src, p, v, ind, fmt, nullText);
    ArrayFromElements(src, p, vs, es, counts, d);
  }

  /** An array whose elements are laid out after its `[` reads back. */
  lemma {:induction false} ArrayFromElements(src: seq<char>, p: nat, vs: seq<Value>, es: seq<string>, counts: seq<nat>, d: nat)
    requires |es| == |vs| && |counts| == |vs|
    requires forall j :: 0 <= j < |vs| ==> |es[j]| > 0 && !IsWhitespace(es[j][0])
    requires ElementsReadBack(src, vs, es, counts)
    requires p < |src| && src[p] == '[' && At(src, p + 1, Tail(es, 0, "", ", ", "]"))
    requires d + 1 + SumNat(counts) <= RecursiveLimit
    ensures Reads(src, p, d, Array(vs), p + 1 + |Tail(es, 0, "", ", ", "]")|, d + 1 + SumNat(counts))
  {
    assert vs[..0] == [] && counts[0..] == counts;
    ReadElements(src, p + 1, vs, es, counts, d + 1, 0);
    ValueArray(src, p, d, vs, p + 1 + |Tail(es, 0, "", ", ", "]")|, d + 1 + SumNat(counts));
  }

  /** Every element's text of a plain array starts with a character that is
      not whitespace. */
  lemma {:induction false} ElementsShape(v: Value, ind: nat, fmt: F64 -> string, nullText: string)
    requires v.Array? && Plain(v)
    ensures var es := ElementTexts(v, ind, fmt, nullText);
            forall j :: 0 <= j < |v.elements| ==> |es[j]| > 0 && !IsWhitespace(es[j][0])
  {
    var es := ElementTexts(v, ind, fmt, nullText);
    forall j | 0 <= j < |v.elements|
      ensures |es[j]| > 0 && !IsWhitespace(es[j][0])
    {
      ElementTextAt(v, ind, fmt, nullText, j);
      FirstChar(v.elements[j], ind, fmt, nullText);
    }
  }

  /** After its `[`, an array's layout is the element loop's text. */
  lemma {:induction false} ArrayStart(src: seq<char>, p: nat, v: Value, ind: nat, fmt: F64 -> string, nullText: string)
    requires v.Array? && At(src, p, Layout(v, ind, fmt, nullText))
    ensures p < |src| && src[p] == '['
    ensures At(src, p + 1, Tail(ElementTexts(v, ind, fmt, nullText), 0, "", ", ", "]"))
    ensures |Layout(v, ind, fmt, nullText)| == 1 + |Tail(ElementTexts(v, ind, fmt, nullText), 0, "", ", ", "]")|
  {
    var tail := Tail(ElementTexts(v, ind, fmt, nullText), 0, "", ", ", "]");
    ArrayTail(v, ind, fmt, nullText);
    AtConcat(src, p, "[", tail);
    AtIndex(src, p, "[", 0);
  }

  /** The texts of an object's values at indentation `inner`. */
  function ValueTexts(ms: seq<(string, Value)>, inner: nat, fmt: F64 -> string, nullText: string): (r: seq<string>)
    ensures |r| == |ms|
    ensures forall j :: 0 <= j < |ms| ==> r[j] == Layout(ms[j].1, inner, fmt, nullText)
  {
    seq(|ms|, j requires 0 <= j < |ms| => Layout(ms[j].1, inner, fmt, nullText))
  }

  lemma {:induction false} ValueScalar(src: seq<char>, p: nat, d: nat)
    requires p < |src| && d < RecursiveLimit && !IsWhitespace(src[p]) && src[p] != '{' && src[p] != '['
    ensures PScalar(src, p).Some? ==> PValue(src, p, d) == Some((PScalar(src, p).value.0, PScalar(src, p).value.1, d + 1))
  {
  }

  lemma {:induction false} ValueObject(src: seq<char>, p: nat, d: nat, ms: seq<(string, Value)>, e: nat, d': nat)
    requires p < |src| && src[p] == '{' && d < RecursiveLimit
    requires PObject(src, p + 1, d + 1, []).Some?
    requires PObject(src, p + 1, d + 1, []).value.0 == ms
    requires PObject(src, p + 1, d + 1, []).value.1 == e
    requires PObject(src, p + 1, d + 1, []).value.2 == d'
    ensures Reads(src, p, d, Object(ms), e, d')
  {
  }

  lemma {:induction false} ValueArray(src: seq<char>, p: nat, d: nat, vs: seq<Value>, e: nat, d': nat)
    requires p < |src| && src[p] == '[' && d < RecursiveLimit
    requires PArray(src, p + 1, d + 1, []).Some?
    requires PArray(src, p + 1, d + 1, []).value.0 == vs
    requires PArray(src, p + 1, d + 1, []).value.1 == e
    requires PArray(src, p + 1, d + 1, []).value.2 == d'
    ensures Reads(src, p, d, Array(vs), e, d')
  {
  }

  /** The member loop reads the entries from the `i`-th on and rebuilds the
      member list, given that every value reads back wherever its text
      stands. */
  lemma {:induction false} ReadMembers(src: seq<char>, p: nat, ms: seq<(string, Value)>, es: seq<string>, texts: seq<string>,
                                       counts: seq<nat>, ind: nat, d: nat, i: nat)
    requires |es| == |ms| && |texts| == |ms| && |counts| == |ms| && i <= |ms| && DistinctKeys(ms)
    requires forall j :: 0 <= j < |ms| ==> Clean(ms[j].0) && es[j] == Entry(ms[j].0, texts[j], ind + 4)
    requires forall j :: 0 <= j < |ms| ==> |texts[j]| > 0 && !IsWhitespace(texts[j][0])
    requires MembersReadBack(src, ms, texts, counts)
    requires At(src, p, Tail(es, i, "\n", ",\n", Closing(ind)))
    requires d + SumNat(counts[i..]) <= RecursiveLimit
    ensures PObject(src, p, d, ms[..i]).Some?
    ensures PObject(src, p, d, ms[..i]).value.0 == ms
    ensures PObject(src, p, d, ms[..i]).value.1 == p + |Tail(es, i, "\n", ",\n", Closing(ind))|
    ensures PObject(src, p, d, ms[..i]).value.2 == d + SumNat(counts[i..])
    decreases |ms| - i
  {
    if i == |ms| {
      ObjectEnd(src, p, d, ms[..i], ind);
      assert ms[..i] == ms;
      assert counts[i..] == [];
    } else {
      var w, vp, e, d' := MemberStep(src, p, ms, es, texts, counts, ind, d, i);
      MemberParse(src, p, w, ind + 4, ms[i].0, texts[i], d, vp, ms[i].1, e, d', ms[..i]);
      InsertNext(ms, i);
      ReadMembers(src, e, ms, es, texts, counts, ind, d', i + 1);
    }
  }

  /** Where the `i`-th entry stands and what its value reads as. */
  lemma {:induction false} MemberStep(src: seq<char>, p: nat, ms: seq<(string, Value)>, es: seq<string>, texts: seq<string>,
                   counts: seq<nat>, ind: nat, d: nat, i: nat)
    returns (w: string, vp: nat, e: nat, d': nat)
    requires |es| == |ms| && |texts| == |ms| && |counts| == |ms| && i < |ms| && DistinctKeys(ms)
    requires forall j :: 0 <= j < |ms| ==> Clean(ms[j].0) && es[j] == Entry(ms[j].0, texts[j], ind + 4)
    requires forall j :: 0 <= j < |ms| ==> |texts[j]| > 0 && !IsWhitespace(texts[j][0])
    requires MembersReadBack(src, ms, texts, counts)
    requires At(src, p, Tail(es, i, "\n", ",\n", Closing(ind)))
    requires d + SumNat(counts[i..]) <= RecursiveLimit
    ensures At(src, e, Tail(es, i + 1, "\n", ",\n", Closing(ind)))
    ensures d' + SumNat(counts[i + 1..]) == d + SumNat(counts[i..])
    ensures e + |Tail(es, i + 1, "\n", ",\n", Closing(ind))| == p + |Tail(es, i, "\n", ",\n", Closing(ind))|
    ensures w == "\n" || w == ",\n"
    ensures Clean(ms[i].0) && |texts[i]| > 0 && !IsWhitespace(texts[i][0])
    ensures At(src, p, w) && At(src, p + |w|, Entry(ms[i].0, texts[i], ind + 4))
    ensures vp == p + |w| + (ind + 4) + |ms[i].0| + 4
    ensures Reads(src, vp, d, ms[i].1, e, d')
  {
    w := if i == 0 then "\n" else ",\n";
    var key := ms[i].0;
    var text := texts[i];
    var rest := Tail(es, i + 1, "\n", ",\n", Closing(ind));
    assert Clean(key) && es[i] == Entry(key, text, ind + 4);
    assert |text| > 0 && !IsWhitespace(text[0]);
    assert Tail(es, i, "\n", ",\n", Closing(ind)) == w + es[i] + rest;
    EntryPieces(src, p, w, ind + 4, key, text, rest);
    vp := p + |w| + ind + 4 + |key| + 4;
    assert counts[i..][1..] == counts[i + 1..];
    assert ReadsAt(src, vp, d, ms[i].1, |text|, counts[i]);
    e := vp + |text|;
    d' := d + counts[i];
  }

  /** Where the pieces of a separator, an entry and what follows stand. */
  lemma {:induction false} EntryPieces(src: seq<char>, p: nat, w: string, inner: nat, key: string, text: string, rest: string)
    requires At(src, p, w + Entry(key, text, inner) + rest)
    ensures At(src, p, w) && At(src, p + |w|, Entry(key, text, inner))
    ensures At(src, p + |w| + inner + |key| + 4, text)
    ensures At(src, p + |w| + inner + |key| + 4 + |text|, rest)
    ensures |w + Entry(key, text, inner) + rest| == |w| + inner + |key| + 4 + |text| + |rest|
  {
    var entry := Entry(key, text, inner);
    AtConcat(src, p, w + entry, rest);
    AtConcat(src, p, w, entry);
    At4(src, p + |w|, Spaces(inner), Quoted(key), ": ", text);
  }

  lemma {:induction false} At4(src: seq<char>, p: nat, a: string, b: string, c: string, t: string)
    requires At(src, p, a + b + c + t)
    ensures At(src, p, a) && At(src, p + |a|, b) && At(src, p + |a| + |b|, c) && At(src, p + |a| + |b| + |c|, t)
  {
    AtConcat(src, p, a + b + c, t);
    AtConcat(src, p, a + b, c);
    AtConcat(src, p, a, b);
  }

  /** One member, read where its separator starts: the member loop goes on
      after its value with the member inserted. */
  lemma {:induction false} MemberParse(src: seq<char>, p: nat, w: string, inner: nat, key: string, text: string,
                    d: nat, vp: nat, val: Value, e: nat, d': nat, acc: seq<(string, Value)>)
    requires w == "\n" || w == ",\n"
    requires Clean(key) && |text| > 0 && !IsWhitespace(text[0])
    requires At(src, p, w) && At(src, p + |w|, Entry(key, text, inner))
    requires vp == p + |w| + inner + |key| + 4 && Reads(src, vp, d, val, e, d')
    ensures d' <= RecursiveLimit && e <= |src|
    ensures PObject(src, p, d, acc) == PObject(src, e, d', Insert(acc, key, val))
  {
    MemberText(src, p, w, inner, key, text);
    MemberNext(src, p, p + |w| + inner, d, acc, key, val, e, d');
  }

  /** One member's text, read where its separator starts: the member loop
      reaches the key, reads it and the colon, and stands before the value. */
  lemma {:induction false} MemberText(src: seq<char>, p: nat, w: string, inner: nat, key: string, text: string)
    requires w == "\n" || w == ",\n"
    requires Clean(key) && |text| > 0 && !IsWhitespace(text[0])
    requires At(src, p, w) && At(src, p + |w|, Entry(key, text, inner))
    ensures SkipWs(src, p) < |src| && src[SkipWs(src, p)] != '}'
    ensures var q := SkipWs(src, p);
            SkipWs(src, if src[q] == ',' then q + 1 else q) == p + |w| + inner
    ensures ScanString(src, p + |w| + inner) == Some((key, p + |w| + inner + |key| + 2))
    ensures p + |w| + inner + |key| + 2 < |src| && src[p + |w| + inner + |key| + 2] == ':'
    ensures SkipWs(src, p + |w| + inner + |key| + 3) == p + |w| + inner + |key| + 4
  {
    EntryAt(src, p + |w|, inner, key, text);
    SeparatorAt(src, p, w, p + |w| + inner);
  }

  /** What stands where in an entry at `ep`: the indentation is skipped,
      the key is read, the colon follows and the value starts after one
      space. */
  lemma {:induction false} EntryAt(src: seq<char>, ep: nat, inner: nat, key: string, text: string)
    requires Clean(key) && |text| > 0 && !IsWhitespace(text[0])
    requires At(src, ep, Entry(key, text, inner))
    ensures SkipWs(src, ep) == ep + inner
    ensures ScanString(src, ep + inner) == Some((key, ep + inner + |key| + 2))
    ensures ep + inner + |key| + 2 < |src| && src[ep + inner + |key| + 2] == ':'
    ensures SkipWs(src, ep + inner + |key| + 3) == ep + inner + |key| + 4
    ensures At(src, ep + inner + |key| + 4, text)
    ensures |Entry(key, text, inner)| == inner + |key| + 4 + |text|
  {
    var kp := ep + inner;
    EntryChars(src, ep, inner, key, text);
    QuotedAt(src, kp, key);
    AtIndex(src, kp, Quoted(key), 0);
    SkipSpaces(src, ep, inner);
    AtIndex(src, kp + |key| + 4, text, 0);
    SkipRun(src, kp + |key| + 3, 1);
  }

  /** The pieces of an entry at `ep`: indentation, quoted key, colon,
      space, value text. */
  lemma {:induction false} EntryChars(src: seq<char>, ep: nat, inner: nat, key: string, text: string)
    requires At(src, ep, Entry(key, text, inner))
    ensures At(src, ep, Spaces(inner)) && At(src, ep + inner, Quoted(key))
    ensures ep + inner + |key| + 3 < |src|
    ensures src[ep + inner + |key| + 2] == ':' && src[ep + inner + |key| + 3] == ' '
    ensures At(src, ep + inner + |key| + 4, text)
    ensures |Entry(key, text, inner)| == inner + |key| + 4 + |text|
  {
    var q := Quoted(key);
    At4(src, ep, Spaces(inner), q, ": ", text);
    AtIndex(src, ep + inner + |q|, ": ", 0);
    AtIndex(src, ep + inner + |q|, ": ", 1);
  }

  /** Before an entry: a line break for the first, a comma and a line break
      for the others; either way the member loop reaches the key. */
  lemma {:induction false} SeparatorAt(src: seq<char>, p: nat, w: string, kp: nat)
    requires w == "\n" || w == ",\n"
    requires At(src, p, w) && p + |w| < |src|
    requires SkipWs(src, p + |w|) == kp && kp < |src| && src[kp] == '"'
    ensures SkipWs(src, p) < |src| && src[SkipWs(src, p)] != '}'
    ensures SkipWs(src, if src[SkipWs(src, p)] == ',' then SkipWs(src, p) + 1 else SkipWs(src, p)) == kp
  {
    AtIndex(src, p, w, 0);
    if w == ",\n" {
      AtIndex(src, p, w, 1);
      SkipRun(src, p + 1, 1);
    } else {
      SkipRun(src, p, 1);
    }
  }

  /** The closing line of an object ends the member loop. */
  lemma {:induction false} ObjectEnd(src: seq<char>, p: nat, d: nat, acc: seq<(string, Value)>, ind: nat)
    requires At(src, p, Closing(ind)) && d <= RecursiveLimit
    ensures PObject(src, p, d, acc) == Some((acc, p + |Closing(ind)|, d))
  {
    AtConcat(src, p, "\n" + Spaces(ind), "}");
    AtConcat(src, p, "\n", Spaces(ind));
    AtIndex(src, p, "\n", 0);
    SkipRun(src, p, 1);
    SkipSpaces(src, p + 1, ind);
    AtIndex(src, p + 1 + ind, "}", 0);
  }

  /** The member loop, with a member's key and colon in place and its value
      reading back, goes on after the value with the member inserted. */
  lemma {:induction false} MemberNext(src: seq<char>, p: nat, kp: nat, d: nat, acc: seq<(string, Value)>, key: string, val: Value, e: nat, d': nat)
    requires p <= |src| && SkipWs(src, p) < |src| && src[SkipWs(src, p)] != '}'
    requires SkipWs(src, if src[SkipWs(src, p)] == ',' then SkipWs(src, p) + 1 else SkipWs(src, p)) == kp
    requires ScanString(src, kp) == Some((key, kp + |key| + 2))
    requires kp + |key| + 2 < |src| && src[kp + |key| + 2] == ':'
    requires SkipWs(src, kp + |key| + 3) == kp + |key| + 4
    requires Reads(src, kp + |key| + 4, d, val, e, d')
    ensures d' <= RecursiveLimit && e <= |src|
    ensures PObject(src, p, d, acc) == PObject(src, e, d', Insert(acc, key, val))
  {
    ReadMember(src, SkipWs(src, p), kp, key, d, val, e, d');
    ParseFacts.ObjectStep(src, p, d, acc, key, val, e, d');
  }

  /** One member read: an optional comma, the key, the colon and the value. */
  lemma {:induction false} ReadMember(src: seq<char>, q: nat, kp: nat, key: string, d: nat, val: Value, e: nat, d': nat)
    requires q < |src| && d < RecursiveLimit
    requires SkipWs(src, if src[q] == ',' then q + 1 else q) == kp
    requires ScanString(src, kp) == Some((key, kp + |key| + 2))
    requires kp + |key| + 2 < |src| && src[kp + |key| + 2] == ':'
    requires SkipWs(src, kp + |key| + 3) == kp + |key| + 4
    requires Reads(src, kp + |key| + 4, d, val, e, d')
    ensures PMember(src, q, d) == Some((key, val, e, d'))
  {
  }

  /** The element loop reads the elements from the `i`-th on and rebuilds
      the array, given that every element reads back wherever its text
      stands. */
  lemma {:induction false} ReadElements(src: seq<char>, p: nat, vs: seq<Value>, es: seq<string>, counts: seq<nat>, d: nat, i: nat)
    requires |es| == |vs| && |counts| == |vs| && i <= |vs|
    requires forall j :: 0 <= j < |vs| ==> |es[j]| > 0 && !IsWhitespace(es[j][0])
    requires ElementsReadBack(src, vs, es, counts)
    requires At(src, p, Tail(es, i, "", ", ", "]"))
    requires d + SumNat(counts[i..]) <= RecursiveLimit
    ensures PArray(src, p, d, vs[..i]).Some?
    ensures PArray(src, p, d, vs[..i]).value.0 == vs
    ensures PArray(src, p, d, vs[..i]).value.1 == p + |Tail(es, i, "", ", ", "]")|
    ensures PArray(src, p, d, vs[..i]).value.2 == d + SumNat(counts[i..])
    decreases |vs| - i
  {
    if i == |vs| {
      AtIndex(src, p, "]", 0);
      assert SkipWs(src, p) == p;
      assert vs[..i] == vs;
      assert counts[i..] == [];
    } else {
      var w, e, d' := ElementStep(src, p, vs, es, counts, d, i);
      ElementParse(src, p, w, d, vs[i], e, d', vs[..i]);
      assert vs[..i] + [vs[i]] == vs[..i + 1];
      ReadElements(src, e, vs, es, counts, d', i + 1);
    }
  }

  /** Where the `i`-th element stands and what it reads as. */
  lemma {:induction false} ElementStep(src: seq<char>, p: nat, vs: seq<Value>, es: seq<string>, counts: seq<nat>, d: nat, i: nat)
    returns (w: string, e: nat, d': nat)
    requires |es| == |vs| && |counts| == |vs| && i < |vs|
    requires forall j :: 0 <= j < |vs| ==> |es[j]| > 0 && !IsWhitespace(es[j][0])
    requires ElementsReadBack(src, vs, es, counts)
    requires At(src, p, Tail(es, i, "", ", ", "]"))
    requires d + SumNat(counts[i..]) <= RecursiveLimit
    ensures At(src, e, Tail(es, i + 1, "", ", ", "]"))
    ensures d' + SumNat(counts[i + 1..]) == d + SumNat(counts[i..])
    ensures e + |Tail(es, i + 1, "", ", ", "]")| == p + |Tail(es, i, "", ", ", "]")|
    ensures w == "" || w == ", "
    ensures At(src, p, w) && p + |w| < |src| && !IsWhitespace(src[p + |w|])
    ensures Reads(src, p + |w|, d, vs[i], e, d')
  {
    w := if i == 0 then "" else ", ";
    var rest := Tail(es, i + 1, "", ", ", "]");
    AtConcat(src, p, w + es[i], rest);
    AtConcat(src, p, w, es[i]);
    AtIndex(src, p + |w|, es[i], 0);
    assert counts[i..][1..] == counts[i + 1..];
    assert ReadsAt(src, p + |w|, d, vs[i], |es[i]|, counts[i]);
    e := p + |w| + |es[i]|;
    d' := d + counts[i];
  }

  /** One element, read where its separator starts: the element loop goes
      on after it with the element appended. */
  lemma {:induction false} ElementParse(src: seq<char>, p: nat, w: string, d: nat, val: Value, e: nat, d': nat, acc: seq<Value>)
    requires w == "" || w == ", "
    requires At(src, p, w) && p + |w| < |src| && !IsWhitespace(src[p + |w|])
    requires Reads(src, p + |w|, d, val, e, d')
    ensures d' <= RecursiveLimit && e <= |src|
    ensures PArray(src, p, d, acc) == PArray(src, e, d', acc + [val])
  {
    var vp := p + |w|;
    if w == ", " {
      AtIndex(src, p, w, 0);
      AtIndex(src, p, w, 1);
      SkipRun(src, p + 1, 1);
    }
    ReadElement(src, SkipWs(src, p), vp, d, val, e, d');
    ArrayStep(src, p, d, acc, val, e, d');
  }

  /** One element read: an optional comma, then the value after whitespace. */
  lemma {:induction false} ReadElement(src: seq<char>, q: nat, vp: nat, d: nat, val: Value, e: nat, d': nat)
    requires q < |src| && d <= RecursiveLimit
    requires SkipWs(src, if src[q] == ',' then q + 1 else q) == vp
    requires Reads(src, vp, d, val, e, d')
    ensures PElement(src, q, d) == Some((val, e, d'))
  {
  }

  /** The element loop, once an element has been read, goes on after it
      with the element appended. */
  lemma {:induction false} ArrayStep(src: seq<char>, p: nat, d: nat, acc: seq<Value>, val: Value, e: nat, d': nat)
    requires p <= |src| && d <= RecursiveLimit
    requires SkipWs(src, p) < |src| && src[SkipWs(src, p)] != ']'
    requires PElement(src, SkipWs(src, p), d) == Some((val, e, d'))
    ensures d' <= RecursiveLimit && e <= |src|
    ensures PArray(src, p, d, acc) == PArray(src, e, d', acc + [val])
  {
  }

  /** Parsing what either encoder wrote for a plain tree gives the tree back. */
  lemma {:induction false} ParseLayout(v: Value, ind: nat, fmt: F64 -> string, nullText: string)
    requires Plain(v) && Count(v) <= RecursiveLimit
    ensures Parse(Layout(v, ind, fmt, nullText)) == Some(v)
  {
    var t := Layout(v, ind, fmt, nullText);
    assert t[0..|t|] == t;
    ReadLayout(t, 0, v, ind, fmt, nullText, 0);
  }
}
