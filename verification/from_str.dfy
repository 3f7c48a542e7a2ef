/** The recursive-descent JSON parser of `from_str`.

    The source is a sequence of characters read through a cursor with one
    character of lookahead. The state-passing functions below (`SkipWs`,
    `ScanString`, `ScanNumber`, `PValue`, `PObject`, `PArray`) specify the
    parser: each takes the source, the cursor position and, where it matters,
    the number of `parse_value` calls made so far, and gives the result with the
    new position and count. The `Parser` class is the imperative parser, proved
    to compute exactly what they specify. */
module FromStr {
  import opened Base
  import opened Keyed
  import opened Json

  /** `RECURSIVE_LIMIT`: the most `parse_value` calls one parse may make. */
  const RecursiveLimit: nat := 1024

  /** Rust's `char::is_whitespace` (the Unicode White_Space property). */
  predicate IsWhitespace(c: char)
  {
    ('\t' <= c <= '\r') || c == ' ' || c == '\U{0085}' || c == '\U{00A0}' || c == '\U{1680}'
    || ('\U{2000}' <= c <= '\U{200A}') || c == '\U{2028}' || c == '\U{2029}'
    || c == '\U{202F}' || c == '\U{205F}' || c == '\U{3000}'
  }

  predicate IsDigit(c: char)
  {
    '0' <= c <= '9'
  }

  predicate IsAscii(c: char)
  {
    c as int < 0x80
  }

  /** `skip_whitespace`: the position after the run of whitespace starting at `p`. */
  function SkipWs(src: seq<char>, p: nat): (q: nat)
    requires p <= |src|
    ensures p <= q <= |src|
    decreases |src| - p
  {
    if p < |src| && IsWhitespace(src[p]) then SkipWs(src, p + 1) else p
  }

  /** `SkipWs` stops at the first character that is not whitespace. */
  lemma {:induction false} SkipWsIsMaximalRun(src: seq<char>, p: nat)
    requires p <= |src|
    ensures forall i :: p <= i < SkipWs(src, p) ==> IsWhitespace(src[i])
    ensures SkipWs(src, p) == |src| || !IsWhitespace(src[SkipWs(src, p)])
    decreases |src| - p
  {
    if p < |src| && IsWhitespace(src[p]) {
      SkipWsIsMaximalRun(src, p + 1);
    }
  }

  // ---------------------------------------------------------------- strings

  /** `char::to_digit(16)`. */
  function HexDigit(c: char): (r: Option<nat>)
    ensures r.Some? ==> r.value < 16
  {
    if '0' <= c <= '9' then Some(c as int - '0' as int)
    else if 'a' <= c <= 'f' then Some(c as int - 'a' as int + 10)
    else if 'A' <= c <= 'F' then Some(c as int - 'A' as int + 10)
    else None
  }

  /** `u32::from_str_radix(&source[k..k + 4], 16)`: the four characters after
      the `u` of an escape. As in Rust, a leading `+` is accepted, so they are
      either four hexadecimal digits or `+` and three. */
  function HexQuad(src: seq<char>, k: nat): (r: Option<nat>)
    requires k + 4 <= |src|
    ensures r.Some? ==> r.value < 0x1_0000
    ensures r.Some? && src[k] == '+' ==> r.value < 0x1000
  {
    var a := if src[k] == '+' then Some(0) else HexDigit(src[k]);
    var b := HexDigit(src[k + 1]);
    var c := HexDigit(src[k + 2]);
    var d := HexDigit(src[k + 3]);
    if a.Some? && b.Some? && c.Some? && d.Some? then
      Some(a.value * 0x1000 + b.value * 0x100 + c.value * 0x10 + d.value)
    else None
  }

  /** What `from_str_radix` accepts: four hexadecimal digits, or a plus sign
      and three. */
  lemma HexQuadAccepts(src: seq<char>, k: nat)
    requires k + 4 <= |src|
    ensures HexQuad(src, k).Some? <==>
              (forall i :: k <= i < k + 4 ==> HexDigit(src[i]).Some?)
              || (src[k] == '+' && forall i :: k < i < k + 4 ==> HexDigit(src[i]).Some?)
  {
  }

  /** `std::char::from_u32`: `None` for surrogates and for values past U+10FFFF. */
  function CharFromU32(n: nat): (r: Option<char>)
    ensures r.Some? <==> n < 0xD800 || (0xE000 <= n < 0x11_0000)
    ensures r.Some? ==> r.value as int == n
  {
    if n < 0xD800 || (0xE000 <= n < 0x11_0000) then Some(n as char) else None
  }

  /** The code point a UTF-16 surrogate pair stands for. The source shifts the
      high half's offset left by ten bits and ors in the low half's offset;
      as the low offset is below 0x400 that is a multiplication and an addition. */
  function CombineSurrogates(hi: nat, lo: nat): (n: nat)
    requires 0xD800 <= hi <= 0xDBFF && 0xDC00 <= lo <= 0xDFFF
    ensures 0x1_0000 <= n <= 0x10_FFFF
  {
    (hi - 0xD800) * 0x400 + (lo - 0xDC00) + 0x1_0000
  }

  /** The UTF-16 surrogate pair of a supplementary code point. */
  function SurrogatePair(c: nat): (r: (nat, nat))
    requires 0x1_0000 <= c <= 0x10_FFFF
    ensures 0xD800 <= r.0 <= 0xDBFF && 0xDC00 <= r.1 <= 0xDFFF
  {
    (0xD800 + (c - 0x1_0000) / 0x400, 0xDC00 + (c - 0x1_0000) % 0x400)
  }

  /** Combining is the inverse of splitting into a surrogate pair, both ways:
      every supplementary code point has exactly one pair. */
  lemma SurrogatesRoundTrip(c: nat, hi: nat, lo: nat)
    requires 0x1_0000 <= c <= 0x10_FFFF
    requires 0xD800 <= hi <= 0xDBFF && 0xDC00 <= lo <= 0xDFFF
    ensures CombineSurrogates(SurrogatePair(c).0, SurrogatePair(c).1) == c
    ensures SurrogatePair(CombineSurrogates(hi, lo)) == (hi, lo)
  {
    var m := CombineSurrogates(hi, lo) - 0x1_0000;
    assert m == (hi - 0xD800) * 0x400 + (lo - 0xDC00);
    assert m / 0x400 == hi - 0xD800 && m % 0x400 == lo - 0xDC00;
  }

  /** The character after a backslash for the simple escapes. */
  function SimpleEscape(c: char): Option<char>
  {
    match c
    case '"' => Some('"')
    case '/' => Some('/')
    case '\\' => Some('\\')
    case 'n' => Some('\n')
    case 'b' => Some('\U{0008}')
    case 'f' => Some('\U{000C}')
    case 'r' => Some('\r')
    case 't' => Some('\t')
    case _ => None
  }

  /** A `\u` escape whose `u` is at index `j`: the decoded character and the
      position after the escape. A high surrogate consumes the next two
      characters without looking at them (where a `\u` is expected) and must be
      followed by four hexadecimal digits naming a low surrogate. The slices
      are taken by byte offsets in the source; the character skipped before the
      second slice must be ASCII for its offset plus one to start a character. */
  function UnicodeEscape(src: seq<char>, j: nat): (r: Option<(char, nat)>)
    requires j < |src|
    ensures r.Some? ==> j + 5 <= r.value.1 <= |src|
    ensures r.Some? && r.value.1 == j + 5 ==>
              HexQuad(src, j + 1) == Some(r.value.0 as int)
              && !(0xD800 <= r.value.0 as int <= 0xDBFF)
    ensures r.Some? && r.value.1 != j + 5 ==>
              r.value.1 == j + 11
              && HexQuad(src, j + 1).Some? && 0xD800 <= HexQuad(src, j + 1).value <= 0xDBFF
              && HexQuad(src, j + 7).Some? && 0xDC00 <= HexQuad(src, j + 7).value <= 0xDFFF
              && r.value.0 as int == CombineSurrogates(HexQuad(src, j + 1).value,
                                                        HexQuad(src, j + 7).value)
  {
    if j + 5 > |src| then None
    else
      match HexQuad(src, j + 1)
      case None => None
      case Some(u) =>
        if 0xD800 <= u <= 0xDBFF then
          if j + 11 > |src| || !IsAscii(src[j + 6]) then None
          else
            match HexQuad(src, j + 7)
            case None => None
            case Some(lo) =>
              if lo < 0xDC00 || lo > 0xDFFF then None
              else
                match CharFromU32(CombineSurrogates(u, lo))
                case None => None
                case Some(c) => Some((c, j + 11))
        else
          match CharFromU32(u)
          case None => None
          case Some(c) => Some((c, j + 5))
  }

  /** What one turn of `parse_string`'s loop does with the character at `i`. */
  datatype StringStep =
    | Closed                      // the closing quote
    | Failed                      // the end of the source or a bad escape
    | Next(c: char, next: nat)    // a character of the text, and where the next turn starts

  function StringChar(src: seq<char>, i: nat): (r: StringStep)
    requires i <= |src|
    ensures r.Closed? <==> i < |src| && src[i] == '"'
    ensures r.Next? ==> i < r.next <= |src|
    ensures r.Next? && src[i] != '\\' ==> r == Next(src[i], i + 1)
  {
    if i == |src| then Failed
    else if src[i] == '"' then Closed
    else if src[i] == '\\' then Escape(src, i + 1)
    else Next(src[i], i + 1)
  }

  /** The escape after a backslash, with `j` the position after the backslash. */
  function Escape(src: seq<char>, j: nat): (r: StringStep)
    requires 0 < j <= |src|
    ensures !r.Closed?
    ensures r.Next? ==> j < r.next <= |src|
  {
    if j == |src| then Failed
    else if SimpleEscape(src[j]).Some? then Next(SimpleEscape(src[j]).value, j + 1)
    else if src[j] == 'u' then
      match UnicodeEscape(src, j)
      case None => Failed
      case Some((c, k)) => Next(c, k)
    else Failed
  }

  /** The rest of a string whose opening quote has been read: `acc` is the text
      decoded so far and `i` the position of the next character. */
  function StringBody(src: seq<char>, i: nat, acc: string): (r: Option<(string, nat)>)
    requires i <= |src|
    ensures r.Some? ==> i < r.value.1 <= |src|
    decreases |src| - i
  {
    match StringChar(src, i)
    case Failed => None
    case Closed => Some((acc, i + 1))
    case Next(c, j) => StringBody(src, j, acc + [c])
  }

  /** `parse_string`: the string starting at `p`, and the position after its
      closing quote. */
  function ScanString(src: seq<char>, p: nat): (r: Option<(string, nat)>)
    requires p <= |src|
    ensures r.Some? ==> p + 2 <= r.value.1 <= |src| && src[p] == '"'
  {
    if p < |src| && src[p] == '"' then StringBody(src, p + 1, []) else None
  }

  // ---------------------------------------------------------------- numbers

  /** The end of the run of decimal digits starting at `i`. */
  function Digits(src: seq<char>, i: nat): (j: nat)
    requires i <= |src|
    ensures i <= j <= |src|
    decreases |src| - i
  {
    if i < |src| && IsDigit(src[i]) then Digits(src, i + 1) else i
  }

  /** `Digits` stops at the first character that is not a digit. */
  lemma {:induction false} DigitsIsMaximalRun(src: seq<char>, i: nat)
    requires i <= |src|
    ensures forall k :: i <= k < Digits(src, i) ==> IsDigit(src[k])
    ensures Digits(src, i) == |src| || !IsDigit(src[Digits(src, i)])
    decreases |src| - i
  {
    if i < |src| && IsDigit(src[i]) {
      DigitsIsMaximalRun(src, i + 1);
    }
  }

  /** An unsigned digit run as `parse_number` reads it, for the integer part
      and for the exponent alike: a lone `0`, or a run of digits starting
      with a non-zero one. `None` when no digit is at `i`. */
  function UnsignedInt(src: seq<char>, i: nat): (r: Option<nat>)
    requires i <= |src|
    ensures r.Some? <==> i < |src| && IsDigit(src[i])
    ensures r.Some? ==> i < r.value <= |src|
    ensures r.Some? && src[i] == '0' ==> r.value == i + 1
    ensures r.Some? && src[i] != '0' ==> r.value == Digits(src, i)
  {
    if i == |src| then None
    else if src[i] == '0' then Some(i + 1)
    else if IsDigit(src[i]) then Some(Digits(src, i))
    else None
  }

  /** The end of the optional fraction `.` and digits (possibly none) at `j`. */
  function Fraction(src: seq<char>, j: nat): (f: nat)
    requires j <= |src|
    ensures j <= f <= |src|
    ensures f == j <==> j == |src| || src[j] != '.'
  {
    if j < |src| && src[j] == '.' then Digits(src, j + 1) else j
  }

  /** The end of the optional exponent at `j`: `e` or `E`, an optional sign and
      an unsigned digit run, which must be there once `e` is. */
  function Exponent(src: seq<char>, j: nat): (r: Option<nat>)
    requires j <= |src|
    ensures r.Some? ==> j <= r.value <= |src|
    ensures (j == |src| || (src[j] != 'e' && src[j] != 'E')) ==> r == Some(j)
  {
    if j < |src| && (src[j] == 'e' || src[j] == 'E') then
      var k := j + 1;
      var m := if k < |src| && (src[k] == '-' || src[k] == '+') then k + 1 else k;
      UnsignedInt(src, m)
    else Some(j)
  }

  /** `parse_number`: the position after the number literal starting at `p`.
      The literal's text stands for its value. */
  function ScanNumber(src: seq<char>, p: nat): (r: Option<nat>)
    requires p <= |src|
    ensures r.Some? ==> p < r.value <= |src|
  {
    var i := if p < |src| && src[p] == '-' then p + 1 else p;
    match UnsignedInt(src, i)
    case None => None
    case Some(j) => Exponent(src, Fraction(src, j))
  }

  // ----------------------------------------------------------------- values

  /** `parse_value` at position `p` after `d` earlier calls: the value, the
      position after it and the number of calls made once it is read. */
  function PValue(src: seq<char>, p: nat, d: nat): (r: Option<(Value, nat, nat)>)
    requires p <= |src| && d <= RecursiveLimit
    ensures r.Some? ==> p < r.value.1 <= |src| && d < r.value.2 <= RecursiveLimit
    decreases RecursiveLimit - d, 0
  {
    if d + 1 > RecursiveLimit then None
    else
      var q := SkipWs(src, p);
      if q == |src| then None
      else if src[q] == '{' then
        match PObject(src, q + 1, d + 1, [])
        case None => None
        case Some((ms, e, d')) => Some((Object(ms), e, d'))
      else if src[q] == '[' then
        match PArray(src, q + 1, d + 1, [])
        case None => None
        case Some((vs, e, d')) => Some((Array(vs), e, d'))
      else
        match PScalar(src, q)
        case None => None
        case Some((v, e)) => Some((v, e, d + 1))
  }

  /** The non-container branches of `parse_value`, read at `q`: a string, a
      keyword (only its first letter is looked at), or a number. */
  function PScalar(src: seq<char>, q: nat): (r: Option<(Value, nat)>)
    requires q < |src|
    ensures r.Some? ==> q < r.value.1 <= |src| && !r.value.0.Object? && !r.value.0.Array?
  {
    if src[q] == '"' then
      match ScanString(src, q)
      case None => None
      case Some((s, e)) => Some((String(s), e))
    else if src[q] == 't' || src[q] == 'n' then
      if q + 4 <= |src| then Some((Boolean(true), q + 4)) else None
    else if src[q] == 'f' then
      if q + 5 <= |src| then Some((Boolean(true), q + 5)) else None
    else if src[q] == '-' || IsDigit(src[q]) then
      match ScanNumber(src, q)
      case None => None
      case Some(e) => Some((Number(F64(src[q..e])), e))
    else None
  }

  /** The member loop of `parse_object` after `{`, with `acc` the members read
      so far; a repeated key overwrites. */
  function PObject(src: seq<char>, p: nat, d: nat, acc: seq<(string, Value)>)
    : (r: Option<(seq<(string, Value)>, nat, nat)>)
    requires p <= |src| && d <= RecursiveLimit
    ensures r.Some? ==> p < r.value.1 <= |src| && d <= r.value.2 <= RecursiveLimit
    decreases RecursiveLimit - d, 1, |src| - p + 2
  {
    var q := SkipWs(src, p);
    if q == |src| then None
    else if src[q] == '}' then Some((acc, q + 1, d))
    else
      match PMember(src, q, d)
      case None => None
      case Some((key, v, q', d')) => PObject(src, q', d', Insert(acc, key, v))
  }

  /** One member at `q`, which is neither the end nor `}`: an optional comma,
      the key, a colon and the value, with whitespace allowed between them. */
  function PMember(src: seq<char>, q: nat, d: nat): (r: Option<(string, Value, nat, nat)>)
    requires q < |src| && d <= RecursiveLimit
    ensures r.Some? ==> q < r.value.2 <= |src| && d < r.value.3 <= RecursiveLimit
    decreases RecursiveLimit - d, 1, 1
  {
    var q1 := if src[q] == ',' then q + 1 else q;
    match ScanString(src, SkipWs(src, q1))
    case None => None
    case Some((key, q3)) => PAfterKey(src, key, q3, d)
  }

  /** The rest of a member once its key has been read and `q3` is after it. */
  function PAfterKey(src: seq<char>, key: string, q3: nat, d: nat): (r: Option<(string, Value, nat, nat)>)
    requires q3 <= |src| && d <= RecursiveLimit
    ensures r.Some? ==> q3 < r.value.2 <= |src| && d < r.value.3 <= RecursiveLimit
    decreases RecursiveLimit - d, 1, 0
  {
    var q4 := SkipWs(src, q3);
    if q4 == |src| || src[q4] != ':' then None
    else
      match PValue(src, SkipWs(src, q4 + 1), d)
      case None => None
      case Some((v, q6, d6)) => Some((key, v, q6, d6))
  }

  /** The element loop of `parse_array` after `[`, with `acc` the elements read
      so far: a comma is optional before every element. */
  function PArray(src: seq<char>, p: nat, d: nat, acc: seq<Value>)
    : (r: Option<(seq<Value>, nat, nat)>)
    requires p <= |src| && d <= RecursiveLimit
    ensures r.Some? ==> p < r.value.1 <= |src| && d <= r.value.2 <= RecursiveLimit
    decreases RecursiveLimit - d, 1, |src| - p
  {
    var q := SkipWs(src, p);
    if q == |src| then None
    else if src[q] == ']' then Some((acc, q + 1, d))
    else
      match PElement(src, q, d)
      case None => None
      case Some((v, q3, d3)) => PArray(src, q3, d3, acc + [v])
  }

  /** One element at `q`, which is neither the end nor `]`: an optional comma,
      then the value after whitespace. */
  function PElement(src: seq<char>, q: nat, d: nat): (r: Option<(Value, nat, nat)>)
    requires q < |src| && d <= RecursiveLimit
    ensures r.Some? ==> q < r.value.1 <= |src| && d < r.value.2 <= RecursiveLimit
    decreases RecursiveLimit - d, 1, 0
  {
    var q1 := if src[q] == ',' then q + 1 else q;
    PValue(src, SkipWs(src, q1), d)
  }

  /** `from_str`: one value read from the start; what follows it is ignored. */
  function Parse(src: seq<char>): Option<Value>
  {
    match PValue(src, 0, 0)
    case None => None
    case Some((v, _, _)) => Some(v)
  }

  // ------------------------------------------------------------- the parser

  /** The parser's state: the source, the position of the character the
      `Peekable<CharIndices>` iterator would yield next, and the number of
      `parse_value` calls so far. */
  class Parser {
    const source: seq<char>
    var pos: nat
    var recursionDepth: nat

    ghost predicate Valid()
      reads this
    {
      pos <= |source| && recursionDepth <= RecursiveLimit
    }

    constructor(source: seq<char>)
      ensures this.source == source && pos == 0 && recursionDepth == 0
      ensures Valid()
    {
      this.source := source;
      pos := 0;
      recursionDepth := 0;
    }

    method SkipWhitespace()
      requires pos <= |source|
      modifies this`pos
      ensures pos == SkipWs(source, old(pos))
    {
      while pos < |source| && IsWhitespace(source[pos])
        invariant old(pos) <= pos <= |source|
        invariant SkipWs(source, pos) == SkipWs(source, old(pos))
        decreases |source| - pos
      {
        pos := pos + 1;
      }
    }

    /** Consumes `n` characters, failing at the end of the source. */
    method Advance(n: nat) returns (ok: bool)
      requires pos <= |source|
      modifies this`pos
      ensures ok <==> old(pos) + n <= |source|
      ensures ok ==> pos == old(pos) + n
    {
      for i := 0 to n
        invariant pos == old(pos) + i <= |source|
      {
        if pos == |source| {
          return false;
        }
        pos := pos + 1;
      }
      return true;
    }

    /** The escape after a backslash inside `parse_string`. */
    method ReadEscape() returns (r: Option<char>)
      requires 0 < pos <= |source|
      modifies this`pos
      ensures r.None? ==> Escape(source, old(pos)).Failed?
      ensures r.Some? ==> Escape(source, old(pos)) == Next(r.value, pos)
    {
      if pos == |source| {
        return None;
      }
      var next := source[pos];
      pos := pos + 1;
      var e := SimpleEscape(next);
      if e.Some? {
        return e;
      } else if next == 'u' {
        var u := UnicodeEscape(source, pos - 1);
        if u.None? {
          return None;
        }
        pos := u.value.1;
        return Some(u.value.0);
      }
      return None;
    }

    /** `parse_string`. Until the first escape the text is the slice of the
        source after the opening quote; after it, characters are pushed. */
    method ParseString() returns (r: Option<string>)
      requires pos <= |source|
      modifies this`pos
      ensures r.None? ==> ScanString(source, old(pos)).None?
      ensures r.Some? ==> ScanString(source, old(pos)) == Some((r.value, pos))
    {
      if pos == |source| || source[pos] != '"' {
        return None;
      }
      var start := pos;
      pos := pos + 1;
      var text: string := [];
      var owned := false;
      while true
        invariant start < pos <= |source|
        invariant StringBody(source, pos, text) == ScanString(source, start)
        invariant !owned ==> text == source[start + 1..pos]
        decreases |source| - pos
      {
        if pos == |source| {
          return None;
        }
        var c := source[pos];
        pos := pos + 1;
        if c == '"' {
          break;
        } else if c == '\\' {
          owned := true;
          var e := ReadEscape();
          if e.None? {
            return None;
          }
          text := text + [e.value];
        } else if owned {
          text := text + [c];
        } else {
          assert source[start + 1..pos] == source[start + 1..pos - 1] + [c];
          text := source[start + 1..pos];
        }
      }
      return Some(text);
    }

    /** Consumes the run of decimal digits at the position. */
    method SkipDigits()
      requires pos <= |source|
      modifies this`pos
      ensures pos == Digits(source, old(pos))
    {
      while pos < |source| && IsDigit(source[pos])
        invariant old(pos) <= pos <= |source|
        invariant Digits(source, pos) == Digits(source, old(pos))
        decreases |source| - pos
      {
        pos := pos + 1;
      }
    }

    /** The unsigned digit run `parse_number` reads twice. */
    method ReadUnsigned() returns (ok: bool)
      requires pos <= |source|
      modifies this`pos
      ensures var s := UnsignedInt(source, old(pos));
              (ok <==> s.Some?) && (ok ==> pos == s.value)
    {
      if pos == |source| {
        return false;
      }
      if source[pos] == '0' {
        pos := pos + 1;
      } else if IsDigit(source[pos]) {
        SkipDigits();
      } else {
        return false;
      }
      return true;
    }

    /** The optional fraction of `parse_number`. */
    method ReadFraction()
      requires pos <= |source|
      modifies this`pos
      ensures pos == Fraction(source, old(pos))
    {
      if pos < |source| && source[pos] == '.' {
        pos := pos + 1;
        SkipDigits();
      }
    }

    /** The optional exponent of `parse_number`. */
    method ReadExponent() returns (ok: bool)
      requires pos <= |source|
      modifies this`pos
      ensures var s := Exponent(source, old(pos));
              (ok <==> s.Some?) && (ok ==> pos == s.value)
    {
      if pos < |source| && (source[pos] == 'e' || source[pos] == 'E') {
        pos := pos + 1;
        if pos < |source| && (source[pos] == '-' || source[pos] == '+') {
          pos := pos + 1;
        }
        ok := ReadUnsigned();
      } else {
        ok := true;
      }
    }

    /** `parse_number`; the number is given by the text it was read from. */
    method ParseNumber() returns (r: Option<F64>)
      requires pos <= |source|
      modifies this`pos
      ensures r.None? ==> ScanNumber(source, old(pos)).None?
      ensures r.Some? ==> ScanNumber(source, old(pos)) == Some(pos) && r.value == F64(source[old(pos)..pos])
    {
      var start := pos;
      if pos < |source| && source[pos] == '-' {
        pos := pos + 1;
      }
      var ok := ReadUnsigned();
      if !ok {
        return None;
      }
      ReadFraction();
      ok := ReadExponent();
      if !ok {
        return None;
      }
      return Some(F64(source[start..pos]));
    }

    /** `parse_value`. */
    method ParseValue() returns (r: Option<Value>)
      requires Valid()
      modifies this
      ensures r.None? ==> PValue(source, old(pos), old(recursionDepth)).None?
      ensures r.Some? ==> PValue(source, old(pos), old(recursionDepth)) == Some((r.value, pos, recursionDepth))
      decreases RecursiveLimit - recursionDepth, 0
    {
      recursionDepth := recursionDepth + 1;
      if recursionDepth > RecursiveLimit {
        return None;
      }
      SkipWhitespace();
      if pos == |source| {
        return None;
      }
      var c := source[pos];
      if c == '{' {
        pos := pos + 1;
        var ms := ParseObject();
        if ms.None? {
          return None;
        }
        r := Some(Object(ms.value));
      } else if c == '[' {
        pos := pos + 1;
        var vs := ParseArray();
        if vs.None? {
          return None;
        }
        r := Some(Array(vs.value));
      } else if c == '"' {
        var s := ParseString();
        if s.None? {
          return None;
        }
        r := Some(String(s.value));
      } else if c == 't' || c == 'n' {
        var ok := Advance(4);
        if !ok {
          return None;
        }
        r := Some(Boolean(true));
      } else if c == 'f' {
        var ok := Advance(5);
        if !ok {
          return None;
        }
        r := Some(Boolean(true));
      } else if c == '-' || IsDigit(c) {
        var n := ParseNumber();
        if n.None? {
          return None;
        }
        r := Some(Number(n.value));
      } else {
        return None;
      }
    }

    /** `parse_object`, called after `{`. */
    method ParseObject() returns (r: Option<seq<(string, Value)>>)
      requires Valid()
      modifies this
      ensures r.None? ==> PObject(source, old(pos), old(recursionDepth), []).None?
      ensures r.Some? ==> PObject(source, old(pos), old(recursionDepth), []) == Some((r.value, pos, recursionDepth))
      decreases RecursiveLimit - recursionDepth, 1
    {
      var members: seq<(string, Value)> := [];
      while true
        invariant Valid() && old(recursionDepth) <= recursionDepth
        invariant PObject(source, pos, recursionDepth, members) == PObject(source, old(pos), old(recursionDepth), [])
        decreases |source| - pos
      {
        SkipWhitespace();
        if pos == |source| {
          return None;
        }
        ghost var q := pos;
        if source[pos] == ',' {
          pos := pos + 1;
        } else if source[pos] == '}' {
          pos := pos + 1;
          break;
        }
        var member := ParseMember(q);
        if member.None? {
          return None;
        }
        members := Insert(members, member.value.0, member.value.1);
      }
      return Some(members);
    }

    /** The body of `parse_object`'s loop after the optional comma: the key,
        the colon and the value, with whitespace between them. `q` is where
        the member began. */
    method ParseMember(ghost q: nat) returns (r: Option<(string, Value)>)
      requires Valid() && q < |source|
      requires pos == if source[q] == ',' then q + 1 else q
      modifies this
      ensures r.None? ==> PMember(source, q, old(recursionDepth)).None?
      ensures r.Some? ==> PMember(source, q, old(recursionDepth)) == Some((r.value.0, r.value.1, pos, recursionDepth))
      decreases RecursiveLimit - recursionDepth, 1, 1
    {
      SkipWhitespace();
      var key := ParseString();
      if key.None? {
        return None;
      }
      SkipWhitespace();
      if pos == |source| || source[pos] != ':' {
        return None;
      }
      pos := pos + 1;
      SkipWhitespace();
      var value := ParseValue();
      if value.None? {
        return None;
      }
      return Some((key.value, value.value));
    }

    /** `parse_array`, called after `[`. */
    method ParseArray() returns (r: Option<seq<Value>>)
      requires Valid()
      modifies this
      ensures r.None? ==> PArray(source, old(pos), old(recursionDepth), []).None?
      ensures r.Some? ==> PArray(source, old(pos), old(recursionDepth), []) == Some((r.value, pos, recursionDepth))
      decreases RecursiveLimit - recursionDepth, 1
    {
      var values: seq<Value> := [];
      while true
        invariant Valid() && old(recursionDepth) <= recursionDepth
        invariant PArray(source, pos, recursionDepth, values) == PArray(source, old(pos), old(recursionDepth), [])
        decreases |source| - pos
      {
        SkipWhitespace();
        if pos == |source| {
          return None;
        }
        ghost var q := pos;
        if source[pos] == ',' {
          pos := pos + 1;
        } else if source[pos] == ']' {
          pos := pos + 1;
          break;
        }
        SkipWhitespace();
        ghost var q2, d := pos, recursionDepth;
        var value := ParseValue();
        assert PElement(source, q, d) == PValue(source, q2, d);
        if value.None? {
          return None;
        }
        values := values + [value.value];
      }
      return Some(values);
    }
  }

  /** `from_str`: a fresh parser reads one value from the start of the source. */
  method FromStrMethod(source: seq<char>) returns (r: Option<Value>)
    ensures r == Parse(source)
  {
    var parser := new Parser(source);
    r := parser.ParseValue();
  }
}
