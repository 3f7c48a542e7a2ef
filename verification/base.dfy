/** Shared vocabulary of the model: optional results, the opaque f64 and the
    64-bit integer, and the text-building helpers that several components use. */
module Base {

  /** Rust's `Option`: every fallible operation of the library reports failure as `None`. */
  datatype Option<+T> = None | Some(value: T)

  /** An `f64`. The library's float arithmetic (digit accumulation, `powf`) and
      float-to-text conversion are not modelled: a float is identified by the
      number literal it was computed from, and printing one is a parameter. */
  datatype F64 = F64(text: string)

  /** Rust's `i64`. */
  newtype I64 = x: int | -0x8000_0000_0000_0000 <= x < 0x8000_0000_0000_0000

  /** `n` space characters: what `indent` appends. */
  function Spaces(n: nat): (r: string)
    ensures |r| == n
    ensures forall i :: 0 <= i < n ==> r[i] == ' '
  {
    seq(n, _ => ' ')
  }

  /** `String::pop` with the removed character dropped: the last character
      goes, and an empty text stays empty. */
  function Pop(s: string): string
  {
    if |s| == 0 then s else s[..|s| - 1]
  }

  /** Popping twice removes a two-character separator. */
  lemma PopSeparator(prefix: string, body: string, a: char, b: char)
    ensures Pop(Pop(prefix + body + [a, b])) == prefix + body
  {
    assert prefix + body + [a, b] == (prefix + body + [a]) + [b];
  }

  /** `xs` with `sep` between consecutive items. */
  function Join(xs: seq<string>, sep: string): string
  {
    if |xs| == 0 then "" else if |xs| == 1 then xs[0] else xs[0] + sep + Join(xs[1..], sep)
  }

  /** Every item of `xs` followed by `sep`: what a push-item-then-push-separator loop builds. */
  function Terminated(xs: seq<string>, sep: string): string
  {
    if |xs| == 0 then "" else xs[0] + sep + Terminated(xs[1..], sep)
  }

  lemma {:induction false} TerminatedSnoc(xs: seq<string>, x: string, sep: string)
    ensures Terminated(xs + [x], sep) == Terminated(xs, sep) + x + sep
  {
    if |xs| == 0 {
      assert xs + [x] == [x];
    } else {
      assert (xs + [x])[1..] == xs[1..] + [x];
      TerminatedSnoc(xs[1..], x, sep);
    }
  }

  /** One more item written after a terminated prefix. */
  lemma TerminatedStep(prefix: string, xs: seq<string>, i: nat, sep: string)
    requires i < |xs|
    ensures prefix + Terminated(xs[..i + 1], sep) == prefix + Terminated(xs[..i], sep) + xs[i] + sep
  {
    assert xs[..i + 1] == xs[..i] + [xs[i]];
    TerminatedSnoc(xs[..i], xs[i], sep);
  }

  /** An accumulator holding the first `i` items, each terminated, grows by
      the next item and its separator. */
  lemma TerminatedAppend(acc: string, xs: seq<string>, i: nat, piece: string, sep: string)
    requires i < |xs| && acc == Terminated(xs[..i], sep) && piece == xs[i] + sep
    ensures acc + piece == Terminated(xs[..i + 1], sep)
  {
    assert xs[..i + 1] == xs[..i] + [xs[i]];
    TerminatedSnoc(xs[..i], xs[i], sep);
    assert acc + piece == acc + xs[i] + sep;
  }

  /** Two terminated lists written one after the other are the terminated
      concatenation. */
  lemma {:induction false} TerminatedConcat(a: seq<string>, b: seq<string>, sep: string)
    ensures Terminated(a, sep) + Terminated(b, sep) == Terminated(a + b, sep)
  {
    if |a| == 0 {
      assert a + b == b;
    } else {
      assert (a + b)[1..] == a[1..] + b;
      TerminatedConcat(a[1..], b, sep);
    }
  }

  /** A non-empty terminated list is the joined list plus one trailing separator:
      the fact that lets the encoders pop the last separator. */
  lemma {:induction false} TerminatedIsJoinThenSep(xs: seq<string>, sep: string)
    requires |xs| > 0
    ensures Terminated(xs, sep) == Join(xs, sep) + sep
  {
    if |xs| > 1 {
      TerminatedIsJoinThenSep(xs[1..], sep);
    }
  }

  /** Splits a text made of `t`-terminated pieces back into the pieces; an
      unterminated remainder is dropped. */
  function SplitTerminated(s: string, t: char): seq<string>
    decreases |s|
  {
    if |s| == 0 then []
    else
      var k := FirstIndex(s, t);
      if k == |s| then [] else [s[..k]] + SplitTerminated(s[k + 1..], t)
  }

  /** The index of the first `t` in `s`, or `|s|` when there is none. */
  function FirstIndex(s: string, t: char): (k: nat)
    ensures k <= |s|
    ensures forall i :: 0 <= i < k ==> s[i] != t
    ensures k < |s| ==> s[k] == t
  {
    if |s| == 0 then 0 else if s[0] == t then 0 else 1 + FirstIndex(s[1..], t)
  }

  /** Splitting a terminated list of pieces, none of which holds the
      terminator, gives back exactly the pieces, in order. */
  lemma {:induction false} SplitTerminatedInverse(xs: seq<string>, t: char)
    requires forall i, j :: 0 <= i < |xs| && 0 <= j < |xs[i]| ==> xs[i][j] != t
    ensures SplitTerminated(Terminated(xs, [t]), t) == xs
  {
    if |xs| > 0 {
      var s := Terminated(xs, [t]);
      var rest := Terminated(xs[1..], [t]);
      assert s == xs[0] + [t] + rest;
      assert s[..|xs[0]|] == xs[0];
      assert s[|xs[0]|] == t;
      FirstIndexAt(s, t, |xs[0]|);
      assert s[|xs[0]| + 1..] == rest;
      SplitTerminatedInverse(xs[1..], t);
    }
  }

  lemma FirstIndexAt(s: string, t: char, k: nat)
    requires k < |s| && s[k] == t
    requires forall i :: 0 <= i < k ==> s[i] != t
    ensures FirstIndex(s, t) == k
  {
  }

  /** The sum of a sequence of naturals. */
  function SumNat(s: seq<nat>): nat
  {
    if |s| == 0 then 0 else s[0] + SumNat(s[1..])
  }

  lemma {:induction false} SumNatBounds(s: seq<nat>, i: nat)
    requires i < |s|
    ensures s[i] <= SumNat(s)
  {
    if i > 0 {
      SumNatBounds(s[1..], i - 1);
    }
  }

  lemma {:induction false} SumNatSplit(s: seq<nat>, k: nat)
    requires k <= |s|
    ensures SumNat(s) == SumNat(s[..k]) + SumNat(s[k..])
  {
    if k > 0 {
      assert s[..k][1..] == s[1..][..k - 1];
      assert s[k..] == s[1..][k - 1..];
      SumNatSplit(s[1..], k - 1);
    }
  }

  lemma {:induction false} SumNatAppend(s: seq<nat>, x: nat)
    ensures SumNat(s + [x]) == SumNat(s) + x
  {
    if |s| > 0 {
      assert (s + [x])[1..] == s[1..] + [x];
      SumNatAppend(s[1..], x);
    }
  }

  lemma {:induction false} SumNatUpdate(s: seq<nat>, i: nat, x: nat)
    requires i < |s|
    ensures SumNat(s[i := x]) + s[i] == SumNat(s) + x
  {
    if i > 0 {
      assert s[i := x][1..] == s[1..][i - 1 := x];
      SumNatUpdate(s[1..], i - 1, x);
    }
  }

  /** `src` holds `t` starting at index `q`. */
  predicate At<T(==)>(src: seq<T>, q: nat, t: seq<T>)
  {
    q + |t| <= |src| && src[q..q + |t|] == t
  }

  lemma AtConcat<T>(src: seq<T>, q: nat, a: seq<T>, b: seq<T>)
    ensures At(src, q, a + b) <==> At(src, q, a) && At(src, q + |a|, b)
  {
    if At(src, q, a) && At(src, q + |a|, b) {
      assert src[q..q + |a| + |b|] == src[q..q + |a|] + src[q + |a|..q + |a| + |b|];
    }
    if At(src, q, a + b) {
      assert src[q..q + |a|] == (a + b)[..|a|];
      assert src[q + |a|..q + |a| + |b|] == (a + b)[|a|..];
    }
  }

  lemma AtIndex<T>(src: seq<T>, q: nat, t: seq<T>, i: nat)
    requires At(src, q, t) && i < |t|
    ensures src[q + i] == t[i]
  {
    assert src[q..q + |t|][i] == t[i];
  }
}
