/** Worked inputs for `from_str`, showing its leniencies: unchecked keywords,
    lenient numbers and ignored trailing input. */
module ParseExamples {
  import opened Base
  import opened Json
  import opened Keyed
  import opened FromStr
  import ParseFacts

  /** The letters after `t`, `f` and `n` are not checked, and all three give
      `true`. */
  lemma KeywordExamples()
    ensures Parse("false") == Some(Boolean(true))
    ensures Parse("null") == Some(Boolean(true))
    ensures Parse("t!?x") == Some(Boolean(true))
    ensures Parse("tru").None?
  {
  }

  /** A digit must follow the sign and the exponent marker, and a number
      cannot start with `.`. */
  lemma MalformedNumbers()
    ensures Parse("-").None?
    ensures Parse(".5").None?
    ensures Parse("1e").None?
    ensures Parse("1e+").None?
  {
  }

  /** A leading zero ends the integer part, and the fraction may be empty. */
  lemma LenientNumbers()
    ensures Parse("01") == Some(Number(F64("0")))
    ensures Parse("1.") == Some(Number(F64("1.")))
  {
    assert ScanNumber("01", 0) == Some(1);
    assert "01"[0..1] == "0";
    assert ScanNumber("1.", 0) == Some(2);
    assert "1."[0..2] == "1.";
  }

  /** Sign, integer part, fraction and signed exponent together. */
  lemma FullNumber()
    ensures Parse("-2.5E+3") == Some(Number(F64("-2.5E+3")))
  {
    assert Digits("-2.5E+3", 1) == 2;
    assert Digits("-2.5E+3", 3) == 4;
    assert Digits("-2.5E+3", 6) == 7;
    assert ScanNumber("-2.5E+3", 0) == Some(7);
    assert "-2.5E+3"[0..7] == "-2.5E+3";
  }

  /** Whatever follows the first value is ignored. */
  lemma TrailingInputIgnored()
    ensures Parse(" [] x") == Some(Array([]))
    ensures Parse("1 2") == Some(Number(F64("1")))
  {
    assert PArray(" [] x", 2, 1, []) == Some(([], 3, 1));
    assert ScanNumber("1 2", 0) == Some(1);
    assert "1 2"[0..1] == "1";
  }

  /** A key must be followed by a colon. */
  lemma MissingColonExample()
    ensures Parse("{\"a\" true}").None?
  {
    var src := "{\"a\" true}";
    ParseFacts.VerbatimString(src, 1, 3);
    assert src[2..3] == "a";
    assert SkipWs(src, 4) == 5;
    assert PAfterKey(src, "a", 4, 1).None?;
  }

  /** An object that gives the key `a` twice. */
  const twiceA := "{\"a\":true,\"a\":[]}"

  /** A repeated key keeps its place and takes the last value. */
  lemma RepeatedKeyExample()
    ensures Parse(twiceA) == Some(Object([("a", Array([]))]))
  {
    TwiceAChars();
    FirstA();
    SecondA();
    TwoMembers(twiceA);
  }

  /** An object of two members under the same key `a`, ending with `}`. */
  lemma TwoMembers(src: seq<char>)
    requires |src| == 17 && src[0] == '{' && src[1] == '"' && src[9] == ',' && src[16] == '}'
    requires PMember(src, 1, 1) == Some(("a", Boolean(true), 9, 2))
    requires PMember(src, 9, 2) == Some(("a", Array([]), 16, 3))
    ensures Parse(src) == Some(Object([("a", Array([]))]))
  {
    var first: seq<(string, Value)> := [("a", Boolean(true))];
    ParseFacts.NothingToSkip(src, 1);
    ParseFacts.NothingToSkip(src, 9);
    ParseFacts.NothingToSkip(src, 16);
    assert Insert([], "a", Boolean(true)) == first;
    ParseFacts.ObjectStep(src, 1, 1, [], "a", Boolean(true), 9, 2);
    ParseFacts.RepeatedKeyReplaces(src, 9, 2, first, 0, Array([]), 16, 3);
    assert first[0 := ("a", Array([]))] == [("a", Array([]))];
    ParseFacts.ObjectClose(src, 16, 3, [("a", Array([]))]);
    ParseFacts.ObjectSource(src, [("a", Array([]))], 17, 3);
  }

  lemma TwiceAChars()
    ensures |twiceA| == 17 && twiceA[0] == '{' && twiceA[1] == '"' && twiceA[9] == ',' && twiceA[16] == '}'
  {
  }

  lemma FirstA()
    ensures PMember(twiceA, 1, 1) == Some(("a", Boolean(true), 9, 2))
  {
    ParseFacts.VerbatimString(twiceA, 1, 3);
    assert twiceA[2..3] == "a";
    assert twiceA[4] == ':' && twiceA[5] == 't';
    assert PScalar(twiceA, 5) == Some((Boolean(true), 9));
    assert PValue(twiceA, 5, 1) == Some((Boolean(true), 9, 2));
  }

  lemma SecondA()
    ensures PMember(twiceA, 9, 2) == Some(("a", Array([]), 16, 3))
  {
    ParseFacts.VerbatimString(twiceA, 10, 12);
    assert twiceA[11..12] == "a";
    assert PArray(twiceA, 15, 3, []) == Some(([], 16, 3));
    assert PValue(twiceA, 14, 2) == Some((Array([]), 16, 3));
  }

  /** The source ends right after an escaped quote: the string is never
      closed. */
  lemma EscapedQuoteDoesNotClose()
    ensures ScanString("\"a\\\"", 0).None?
  {
    var src := "\"a\\\"";
    assert StringChar(src, 1) == Next('a', 2);
    assert StringChar(src, 2) == Next('"', 4);
    assert StringChar(src, 4) == Failed;
  }
}
