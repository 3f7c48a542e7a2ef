/** Properties of the parser's specification: how strings, escapes, objects,
    arrays, numbers and keywords are read, and what every successful parse
    guarantees about the tree it returns. */
module ParseFacts {
  import opened Base
  import opened Keyed
  import opened Json
  import opened FromStr

  // ---------------------------------------------------------------- strings

  lemma {:induction false} NoQuoteNoBody(src: seq<char>, i: nat, acc: string)
    requires i <= |src|
    requires forall k :: i <= k < |src| ==> src[k] != '"'
    ensures StringBody(src, i, acc).None?
    decreases |src| - i
  {
    match StringChar(src, i)
    case Next(c, j) => NoQuoteNoBody(src, j, acc + [c]);
    case _ =>
  }

  /** A string needs an opening quote, and fails when the source ends before
      a closing one. */
  lemma UnterminatedString(src: seq<char>, p: nat)
    requires p <= |src|
    requires p == |src| || src[p] != '"' || forall k :: p < k < |src| ==> src[k] != '"'
    ensures ScanString(src, p).None?
  {
    if p < |src| && src[p] == '"' {
      NoQuoteNoBody(src, p + 1, []);
    }
  }

  /** Where the string loop from `i` stops: at the first closing quote it
      meets, at the end of the source, or at a bad escape. Escaped quotes
      are stepped over. */
  function StopAt(src: seq<char>, i: nat): (k: nat)
    requires i <= |src|
    ensures i <= k <= |src|
    ensures !StringChar(src, k).Next?
    decreases |src| - i
  {
    match StringChar(src, i)
    case Next(_, j) => StopAt(src, j)
    case _ => i
  }

  /** The rest of a string is read exactly when the loop stops at a closing
      quote, and then it ends right after that quote: a source that ends
      first, even right after an escaped quote, gives nothing. */
  lemma {:induction false} BodyEndsAtClosingQuote(src: seq<char>, i: nat, acc: string)
    requires i <= |src|
    ensures StringBody(src, i, acc).Some? <==> StopAt(src, i) < |src| && src[StopAt(src, i)] == '"'
    ensures StringBody(src, i, acc).Some? ==> StringBody(src, i, acc).value.1 == StopAt(src, i) + 1
    decreases |src| - i
  {
    match StringChar(src, i)
    case Next(c, j) => BodyEndsAtClosingQuote(src, j, acc + [c]);
    case _ =>
  }

  lemma {:induction false} VerbatimBody(src: seq<char>, s: nat, i: nat, e: nat)
    requires s <= i <= e < |src| && src[e] == '"'
    requires forall k :: s <= k < e ==> src[k] != '"' && src[k] != '\\'
    ensures StringBody(src, i, src[s..i]) == Some((src[s..e], e + 1))
    decreases e - i
  {
    if i < e {
      assert src[s..i] + [src[i]] == src[s..i + 1];
      VerbatimBody(src, s, i + 1, e);
    }
  }

  /** Without a backslash, the text is exactly the characters between the two
      quotes (the slice of the source the unescaped path returns). */
  lemma VerbatimString(src: seq<char>, p: nat, e: nat)
    requires p < e < |src| && src[p] == '"' && src[e] == '"'
    requires forall k :: p < k < e ==> src[k] != '"' && src[k] != '\\'
    ensures ScanString(src, p) == Some((src[p + 1..e], e + 1))
  {
    VerbatimBody(src, p + 1, p + 1, e);
    assert src[p + 1..p + 1] == [];
  }

  /** A backslash and one character: the eight simple escapes decode to the
      character they name, anything else fails (`\u` here lacks its digits). */
  lemma SimpleEscapes(c: char)
    ensures ScanString(['"', '\\', c, '"'], 0)
         == match SimpleEscape(c) case Some(x) => Some(([x], 4)) case None => None
    ensures SimpleEscape('"') == Some('"') && SimpleEscape('/') == Some('/')
    ensures SimpleEscape('\\') == Some('\\') && SimpleEscape('n') == Some('\n')
    ensures SimpleEscape('b') == Some('\U{0008}') && SimpleEscape('f') == Some('\U{000C}')
    ensures SimpleEscape('r') == Some('\r') && SimpleEscape('t') == Some('\t')
  {
    var src := ['"', '\\', c, '"'];
    if SimpleEscape(c).None? {
      assert StringChar(src, 1) == Failed;
    } else {
      assert StringChar(src, 1) == Next(SimpleEscape(c).value, 3);
      assert StringBody(src, 1, []) == StringBody(src, 3, [] + [SimpleEscape(c).value]);
      assert [] + [SimpleEscape(c).value] == [SimpleEscape(c).value];
      assert StringBody(src, 3, [SimpleEscape(c).value]) == Some(([SimpleEscape(c).value], 4));
    }
    assert ScanString(src, 0) == StringBody(src, 1, []);
  }

  /** Any other character after a backslash fails the string. */
  lemma UnknownEscapeFails(src: seq<char>, i: nat, acc: string)
    requires i + 1 < |src| && src[i] == '\\'
    requires SimpleEscape(src[i + 1]).None? && src[i + 1] != 'u'
    ensures StringBody(src, i, acc).None?
  {
  }

  // ---------------------------------------------------------- \u escapes

  /** A `\u` escape outside the surrogate range is the character it names. */
  lemma BasicPlaneEscape(src: seq<char>, j: nat)
    requires j + 5 <= |src| && HexQuad(src, j + 1).Some?
    requires var u := HexQuad(src, j + 1).value; u < 0xD800 || u > 0xDFFF
    ensures UnicodeEscape(src, j).Some?
    ensures UnicodeEscape(src, j).value.0 as int == HexQuad(src, j + 1).value
    ensures UnicodeEscape(src, j).value.1 == j + 5
  {
  }

  /** A lone low surrogate is not a character. */
  lemma LoneLowSurrogateFails(src: seq<char>, j: nat)
    requires j + 5 <= |src| && HexQuad(src, j + 1).Some?
    requires 0xDC00 <= HexQuad(src, j + 1).value <= 0xDFFF
    ensures UnicodeEscape(src, j).None?
  {
  }

  /** A high surrogate must be followed, two characters later, by a low one. */
  lemma HighSurrogateNeedsLow(src: seq<char>, j: nat)
    requires j + 11 <= |src| && HexQuad(src, j + 1).Some?
    requires 0xD800 <= HexQuad(src, j + 1).value <= 0xDBFF
    requires HexQuad(src, j + 7).None? || HexQuad(src, j + 7).value < 0xDC00 || HexQuad(src, j + 7).value > 0xDFFF
    ensures UnicodeEscape(src, j).None?
  {
  }

  /** Every supplementary character written as its surrogate pair decodes to
      itself, and the two characters between the halves are not looked at
      beyond the second being ASCII. */
  lemma SurrogatePairDecodes(src: seq<char>, j: nat, c: char)
    requires j + 11 <= |src| && IsAscii(src[j + 6])
    requires 0x1_0000 <= c as int
    requires HexQuad(src, j + 1) == Some(SurrogatePair(c as int).0)
    requires HexQuad(src, j + 7) == Some(SurrogatePair(c as int).1)
    ensures UnicodeEscape(src, j) == Some((c, j + 11))
  {
    SurrogatesRoundTrip(c as int, SurrogatePair(c as int).0, SurrogatePair(c as int).1);
  }

  /** `\u0041` is `A`; `\uD83D\uDE00` is U+1F600. */
  lemma UnicodeEscapeExamples()
    ensures ScanString("\"\\u0041\"", 0) == Some(("A", 8))
    ensures ScanString("\"\\uD83D\\uDE00\"", 0) == Some(("\U{1F600}", 14))
    ensures ScanString("\"\\uDE00\"", 0).None?
  {
    var a := "\"\\u0041\"";
    assert HexQuad(a, 3) == Some(0x41);
    assert UnicodeEscape(a, 2) == Some(('A', 7));
    assert StringChar(a, 1) == Next('A', 7);
    assert StringBody(a, 7, ['A']) == Some((['A'], 8));
    assert StringBody(a, 1, "") == StringBody(a, 7, [] + ['A']);
    assert [] + ['A'] == ['A'];
    assert ScanString(a, 0) == StringBody(a, 1, "");
    var b := "\"\\uD83D\\uDE00\"";
    assert HexQuad(b, 3) == Some(0xD83D);
    assert HexQuad(b, 9) == Some(0xDE00);
    assert CombineSurrogates(0xD83D, 0xDE00) == 0x1F600;
    assert UnicodeEscape(b, 2) == Some(('\U{1F600}', 13));
    assert StringChar(b, 1) == Next('\U{1F600}', 13);
    assert StringBody(b, 13, ['\U{1F600}']) == Some((['\U{1F600}'], 14));
    assert StringBody(b, 1, "") == StringBody(b, 13, [] + ['\U{1F600}']);
    assert [] + ['\U{1F600}'] == ['\U{1F600}'];
    assert ScanString(b, 0) == StringBody(b, 1, "");
    var e := "\"\\uDE00\"";
    assert HexQuad(e, 3) == Some(0xDE00);
  }

  // ------------------------------------------------- numbers and keywords

  /** A number starts with a digit, after an optional `-`. */
  lemma NumberNeedsDigit(src: seq<char>, p: nat)
    requires p < |src|
    ensures var i := if src[p] == '-' then p + 1 else p;
            ScanNumber(src, p).Some? ==> i < |src| && IsDigit(src[i])
  {
  }

  /** Once `e` or `E` is there, an optional sign and at least one digit must
      follow, and the exponent reaches past that digit. */
  lemma ExponentNeedsDigit(src: seq<char>, j: nat)
    requires j < |src| && (src[j] == 'e' || src[j] == 'E')
    ensures var m := if j + 1 < |src| && (src[j + 1] == '-' || src[j + 1] == '+') then j + 2 else j + 1;
            var r := Exponent(src, j);
            (r.Some? <==> m < |src| && IsDigit(src[m])) && (r.Some? ==> m < r.value)
  {
  }

  /** Only the first letter of a keyword is looked at: `t`, `n` and `f` give
      `Boolean(true)` whenever four (for `f`, five) characters remain. */
  lemma KeywordsAreLenient(src: seq<char>, q: nat)
    requires q < |src| && (src[q] == 't' || src[q] == 'n' || src[q] == 'f')
    ensures PScalar(src, q).Some? <==> q + (if src[q] == 'f' then 5 else 4) <= |src|
    ensures PScalar(src, q).Some? ==> PScalar(src, q).value.0 == Boolean(true)
  {
  }

  // ------------------------------------------------- trees and the counter

  lemma InsertCount(ms: seq<(string, Value)>, k: string, v: Value)
    ensures Count(Object(Insert(ms, k, v))) <= Count(Object(ms)) + Count(v)
  {
    var r := Insert(ms, k, v);
    var i := IndexOf(ms, k);
    if i < |ms| {
      assert Keys(ms)[i] == k;
      assert MemberCounts(r) == MemberCounts(ms)[i := Count(v)];
      SumNatUpdate(MemberCounts(ms), i, Count(v));
    } else {
      assert MemberCounts(r) == MemberCounts(ms) + [Count(v)];
      SumNatAppend(MemberCounts(ms), Count(v));
    }
  }

  /** Inserting a member keeps keys distinct throughout the tree and adds at
      most the member's nodes. */
  lemma InsertFacts(ms: seq<(string, Value)>, k: string, v: Value)
    requires UniqueKeys(Object(ms)) && UniqueKeys(v)
    ensures UniqueKeys(Object(Insert(ms, k, v))) && Keys(ms) <= Keys(Insert(ms, k, v))
    ensures Count(Object(Insert(ms, k, v))) <= Count(Object(ms)) + Count(v)
  {
    var r := Insert(ms, k, v);
    InsertCount(ms, k, v);
    forall i | 0 <= i < |r| ensures UniqueKeys(r[i].1) {
      if r[i].0 != k {
        assert Lookup(r, r[i].0) == Lookup(ms, r[i].0);
      }
    }
  }

  lemma AppendCount(vs: seq<Value>, v: Value)
    ensures Count(Array(vs + [v])) == Count(Array(vs)) + Count(v)
  {
    assert ElementCounts(vs + [v]) == ElementCounts(vs) + [Count(v)];
    SumNatAppend(ElementCounts(vs), Count(v));
  }

  /** A value read from `p` after `d` calls has distinct keys in every object
      and no more nodes than the calls it took. */
  lemma {:induction false} PValueFacts(src: seq<char>, p: nat, d: nat)
    requires p <= |src| && d <= RecursiveLimit
    ensures var r := PValue(src, p, d);
            r.Some? ==> UniqueKeys(r.value.0) && d + Count(r.value.0) <= r.value.2
    decreases RecursiveLimit - d, 0, 1
  {
    if d + 1 <= RecursiveLimit {
      var q := SkipWs(src, p);
      if q < |src| {
        if src[q] == '{' {
          ObjectValueFacts(src, p, d);
        } else if src[q] == '[' {
          ArrayValueFacts(src, p, d);
        }
      }
    }
  }

  lemma {:induction false} ObjectValueFacts(src: seq<char>, p: nat, d: nat)
    requires p <= |src| && d < RecursiveLimit
    requires SkipWs(src, p) < |src| && src[SkipWs(src, p)] == '{'
    ensures var r := PValue(src, p, d);
            r.Some? ==> UniqueKeys(r.value.0) && d + Count(r.value.0) <= r.value.2
    decreases RecursiveLimit - d, 0, 0
  {
    var q := SkipWs(src, p);
    assert Count(Object([])) == 1 && UniqueKeys(Object([]));
    PObjectFacts(src, q + 1, d + 1, []);
    var o := PObject(src, q + 1, d + 1, []);
    if o.Some? {
      var ms, d' := o.value.0, o.value.2;
      assert d + 1 + Count(Object(ms)) <= 1 + d';
      assert PValue(src, p, d) == Some((Object(ms), o.value.1, d'));
    }
  }

  lemma {:induction false} ArrayValueFacts(src: seq<char>, p: nat, d: nat)
    requires p <= |src| && d < RecursiveLimit
    requires SkipWs(src, p) < |src| && src[SkipWs(src, p)] == '['
    ensures var r := PValue(src, p, d);
            r.Some? ==> UniqueKeys(r.value.0) && d + Count(r.value.0) <= r.value.2
    decreases RecursiveLimit - d, 0, 0
  {
    var q := SkipWs(src, p);
    assert Count(Array([])) == 1 && UniqueKeys(Array([]));
    PArrayFacts(src, q + 1, d + 1, []);
    var a := PArray(src, q + 1, d + 1, []);
    if a.Some? {
      var vs, d' := a.value.0, a.value.2;
      assert d + 1 + Count(Array(vs)) <= 1 + d';
      assert PValue(src, p, d) == Some((Array(vs), a.value.1, d'));
    }
  }

  lemma {:induction false} PObjectFacts(src: seq<char>, p: nat, d: nat, acc: seq<(string, Value)>)
    requires p <= |src| && d <= RecursiveLimit
    requires UniqueKeys(Object(acc))
    ensures var r := PObject(src, p, d, acc);
            r.Some? ==> UniqueKeys(Object(r.value.0)) && Keys(acc) <= Keys(r.value.0)
                        && d + Count(Object(r.value.0)) <= Count(Object(acc)) + r.value.2
    decreases RecursiveLimit - d, 1, |src| - p + 2
  {
    var q := SkipWs(src, p);
    if q < |src| && src[q] != '}' {
      PMemberFacts(src, q, d);
      match PMember(src, q, d)
      case None =>
      case Some((key, v, q', d')) =>
        assert PObject(src, p, d, acc) == PObject(src, q', d', Insert(acc, key, v));
        InsertFacts(acc, key, v);
        PObjectFacts(src, q', d', Insert(acc, key, v));
    }
  }

  lemma {:induction false} PMemberFacts(src: seq<char>, q: nat, d: nat)
    requires q < |src| && d <= RecursiveLimit
    ensures var r := PMember(src, q, d);
            r.Some? ==> UniqueKeys(r.value.1) && d + Count(r.value.1) <= r.value.3
    decreases RecursiveLimit - d, 1, 1
  {
    var q1 := if src[q] == ',' then q + 1 else q;
    match ScanString(src, SkipWs(src, q1))
    case None =>
    case Some((key, q3)) =>
      var q4 := SkipWs(src, q3);
      if q4 < |src| && src[q4] == ':' {
        PValueFacts(src, SkipWs(src, q4 + 1), d);
      }
  }

  lemma {:induction false} PArrayFacts(src: seq<char>, p: nat, d: nat, acc: seq<Value>)
    requires p <= |src| && d <= RecursiveLimit
    requires UniqueKeys(Array(acc))
    ensures var r := PArray(src, p, d, acc);
            r.Some? ==> UniqueKeys(Array(r.value.0)) && acc <= r.value.0
                        && d + Count(Array(r.value.0)) <= Count(Array(acc)) + r.value.2
    decreases RecursiveLimit - d, 1, |src| - p
  {
    var q := SkipWs(src, p);
    if q < |src| && src[q] != ']' {
      PElementFacts(src, q, d);
      match PElement(src, q, d)
      case None =>
      case Some((v, q3, d3)) =>
        assert PArray(src, p, d, acc) == PArray(src, q3, d3, acc + [v]);
        AppendCount(acc, v);
        PArrayFacts(src, q3, d3, acc + [v]);
    }
  }

  lemma {:induction false} PElementFacts(src: seq<char>, q: nat, d: nat)
    requires q < |src| && d <= RecursiveLimit
    ensures var r := PElement(src, q, d);
            r.Some? ==> UniqueKeys(r.value.0) && d + Count(r.value.0) <= r.value.2
    decreases RecursiveLimit - d, 1, 0
  {
    PValueFacts(src, SkipWs(src, if src[q] == ',' then q + 1 else q), d);
  }

  /** An object is read only up to a closing brace: a source that ends before
      one fails. */
  lemma {:induction false} ObjectEndsAtBrace(src: seq<char>, p: nat, d: nat, acc: seq<(string, Value)>)
    requires p <= |src| && d <= RecursiveLimit
    ensures var r := PObject(src, p, d, acc);
            r.Some? ==> src[r.value.1 - 1] == '}'
    decreases RecursiveLimit - d, |src| - p
  {
    var q := SkipWs(src, p);
    if q < |src| && src[q] != '}' {
      match PMember(src, q, d)
      case None =>
      case Some((key, v, q', d')) =>
        assert PObject(src, p, d, acc) == PObject(src, q', d', Insert(acc, key, v));
        ObjectEndsAtBrace(src, q', d', Insert(acc, key, v));
    }
  }

  /** The member loop, once a member has been read, goes on after it with
      the member inserted. */
  lemma ObjectStep(src: seq<char>, p: nat, d: nat, acc: seq<(string, Value)>, key: string, val: Value, e: nat, d': nat)
    requires p <= |src| && d <= RecursiveLimit
    requires SkipWs(src, p) < |src| && src[SkipWs(src, p)] != '}'
    requires PMember(src, SkipWs(src, p), d) == Some((key, val, e, d'))
    ensures d' <= RecursiveLimit && e <= |src|
    ensures PObject(src, p, d, acc) == PObject(src, e, d', Insert(acc, key, val))
  {
  }

  /** The member loop ends at a closing brace with the members read so far. */
  lemma ObjectClose(src: seq<char>, p: nat, d: nat, acc: seq<(string, Value)>)
    requires p <= |src| && d <= RecursiveLimit
    requires SkipWs(src, p) < |src| && src[SkipWs(src, p)] == '}'
    ensures PObject(src, p, d, acc) == Some((acc, SkipWs(src, p) + 1, d))
  {
  }

  /** No whitespace to skip before a character that is not whitespace. */
  lemma NothingToSkip(src: seq<char>, p: nat)
    requires p < |src| && !IsWhitespace(src[p])
    ensures SkipWs(src, p) == p
  {
  }

  /** A source starting with `{` parses as the object its member loop reads. */
  lemma ObjectSource(src: seq<char>, ms: seq<(string, Value)>, e: nat, d': nat)
    requires 0 < |src| && src[0] == '{'
    requires PObject(src, 1, 1, []) == Some((ms, e, d'))
    ensures Parse(src) == Some(Object(ms))
  {
    NothingToSkip(src, 0);
  }

  /** A key not followed by a colon (after whitespace) fails the member. */
  lemma MissingColonFails(src: seq<char>, key: string, q3: nat, d: nat)
    requires q3 <= |src| && d <= RecursiveLimit
    requires SkipWs(src, q3) == |src| || src[SkipWs(src, q3)] != ':'
    ensures PAfterKey(src, key, q3, d).None?
  {
  }

  /** ... and with it the whole object. */
  lemma MissingColonFailsObject(src: seq<char>, p: nat, d: nat, acc: seq<(string, Value)>, key: string, q3: nat)
    requires p <= |src| && d <= RecursiveLimit
    requires SkipWs(src, p) < |src| && src[SkipWs(src, p)] != '}'
    requires var q := SkipWs(src, p);
             ScanString(src, SkipWs(src, if src[q] == ',' then q + 1 else q)) == Some((key, q3))
    requires SkipWs(src, q3) == |src| || src[SkipWs(src, q3)] != ':'
    ensures PObject(src, p, d, acc).None?
  {
    var q := SkipWs(src, p);
    MissingColonFails(src, key, q3, d);
    assert PMember(src, q, d).None?;
  }

  /** A member whose key was read before replaces that key's value in place
      and the member loop goes on: a repeated key keeps the last value. */
  lemma RepeatedKeyReplaces(src: seq<char>, p: nat, d: nat, acc: seq<(string, Value)>, k: nat, val: Value, e: nat, d': nat)
    requires p <= |src| && d <= RecursiveLimit && DistinctKeys(acc) && k < |acc|
    requires SkipWs(src, p) < |src| && src[SkipWs(src, p)] != '}'
    requires PMember(src, SkipWs(src, p), d) == Some((acc[k].0, val, e, d'))
    ensures d' <= RecursiveLimit && e <= |src|
    ensures PObject(src, p, d, acc) == PObject(src, e, d', acc[k := (acc[k].0, val)])
  {
    InsertPresent(acc, k, val);
    ObjectStep(src, p, d, acc, acc[k].0, val, e, d');
  }

  /** An array is read only up to a closing bracket. */
  lemma {:induction false} ArrayEndsAtBracket(src: seq<char>, p: nat, d: nat, acc: seq<Value>)
    requires p <= |src| && d <= RecursiveLimit
    ensures var r := PArray(src, p, d, acc);
            r.Some? ==> src[r.value.1 - 1] == ']'
    decreases RecursiveLimit - d, |src| - p
  {
    var q := SkipWs(src, p);
    if q < |src| && src[q] != ']' {
      match PElement(src, q, d)
      case None =>
      case Some((v, q3, d3)) =>
        assert PArray(src, p, d, acc) == PArray(src, q3, d3, acc + [v]);
        ArrayEndsAtBracket(src, q3, d3, acc + [v]);
    }
  }

  /** Every tree `from_str` returns has distinct keys in each object and at
      most 1024 nodes: the call counter bounds the whole parse, not only its
      nesting depth. */
  lemma ParsedTreesAreBounded(src: seq<char>)
    ensures Parse(src).Some? ==> UniqueKeys(Parse(src).value) && Count(Parse(src).value) <= RecursiveLimit
  {
    PValueFacts(src, 0, 0);
  }
}
