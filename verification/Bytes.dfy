/** Bytes, C strings and the relation "this text stands at that offset". */
module Bytes {
  type byte = b: int | 0 <= b < 256

  /** A byte that may stand inside a C string. */
  type nonzero = b: int | 1 <= b < 256 witness 1

  /** The contents of a C string, without the terminating NUL. */
  type Text = seq<nonzero>

  const NUL: byte := 0
  const TAB: nonzero := 9
  const NEWLINE: nonzero := 10
  const RETURN: nonzero := 13
  const SPACE: nonzero := 32
  const QUOTE: nonzero := 34
  const STAR: nonzero := 42
  const PLUS: nonzero := 43
  const COMMA: nonzero := 44
  const MINUS: nonzero := 45
  const DOT: nonzero := 46
  const SLASH: nonzero := 47
  const ZERO: nonzero := 48
  const COLON: nonzero := 58
  const UPPER_E: nonzero := 69
  const LBRACKET: nonzero := 91
  const BACKSLASH: nonzero := 92
  const RBRACKET: nonzero := 93
  const LOWER_E: nonzero := 101
  const LOWER_U: nonzero := 117
  const LOWER_X: nonzero := 120
  const LBRACE: nonzero := 123
  const RBRACE: nonzero := 125

  /** Byte `i` of `w`; the quantifier in `At` is used only where this is mentioned. */
  function Pick(w: seq<byte>, i: nat): byte
    requires i < |w|
  {
    w[i]
  }

  /** The text `w` stands in `s` at offset `o`. */
  predicate At(s: seq<byte>, o: nat, w: seq<byte>) {
    o + |w| <= |s| && forall i {:trigger Pick(w, i)} :: 0 <= i < |w| ==> s[o + i] == Pick(w, i)
  }

  lemma AtByte(s: seq<byte>, o: nat, w: seq<byte>, i: nat)
    requires At(s, o, w) && i < |w|
    ensures s[o + i] == w[i]
  {
    assert Pick(w, i) == w[i];
  }

  lemma AtSlice(s: seq<byte>, o: nat, w: seq<byte>)
    ensures At(s, o, w) <==> o + |w| <= |s| && s[o..o + |w|] == w
  {
    if o + |w| <= |s| {
      var t := s[o..o + |w|];
      assert forall i {:trigger Pick(w, i)} :: 0 <= i < |w| ==> t[i] == s[o + i] && w[i] == Pick(w, i);
      if At(s, o, w) {
        forall i | 0 <= i < |w| ensures t[i] == w[i] { AtByte(s, o, w, i); }
      }
    }
  }

  lemma AtSplit(s: seq<byte>, o: nat, a: seq<byte>, b: seq<byte>)
    ensures At(s, o, a + b) <==> At(s, o, a) && At(s, o + |a|, b)
  {
    AtSlice(s, o, a + b);
    AtSlice(s, o, a);
    AtSlice(s, o + |a|, b);
    if o + |a| + |b| <= |s| {
      var w := s[o..o + |a + b|];
      assert w == s[o..o + |a|] + s[o + |a|..o + |a| + |b|];
      assert w[..|a|] == s[o..o + |a|] && w[|a|..] == s[o + |a|..o + |a| + |b|];
      assert (a + b)[..|a|] == a && (a + b)[|a|..] == b;
    }
  }

  /** The text `w` is what stands in `s` from `a` up to `b`. */
  predicate Spans(s: seq<byte>, a: nat, b: nat, w: seq<byte>) {
    b == a + |w| && At(s, a, w)
  }

  /** A span of two texts, cut where the second one starts. */
  lemma SpanSplit(s: seq<byte>, a: nat, b: nat, x: seq<byte>, y: seq<byte>) returns (m: nat)
    requires Spans(s, a, b, x + y)
    ensures Spans(s, a, m, x) && Spans(s, m, b, y)
  {
    m := a + |x|;
    AtSplit(s, a, x, y);
  }

  lemma SpanByte(s: seq<byte>, a: nat, b: nat, w: seq<byte>)
    requires Spans(s, a, b, w) && |w| > 0
    ensures a < b && s[a] == w[0] && s[b - 1] == w[|w| - 1]
  {
    AtByte(s, a, w, 0);
    AtByte(s, a, w, |w| - 1);
  }

  /** The C string that starts a block of bytes: everything before the first NUL. */
  function CString(s: seq<byte>): (t: Text)
    ensures |t| <= |s|
  {
    if s == [] || s[0] == NUL then [] else [s[0]] + CString(s[1..])
  }

  lemma {:induction false} CStringIs(s: seq<byte>)
    ensures forall i :: 0 <= i < |CString(s)| ==> CString(s)[i] == s[i]
    ensures |CString(s)| < |s| ==> s[|CString(s)|] == NUL
  {
    if s != [] && s[0] != NUL { CStringIs(s[1..]); }
  }

  /** strlen and strcpy see exactly the text that precedes the first NUL. */
  lemma {:induction false} CStringOf(t: Text, rest: seq<byte>)
    requires rest == [] || rest[0] == NUL
    ensures CString(t + rest) == t
  {
    if t == [] {
      assert t + rest == rest;
    } else {
      assert (t + rest)[1..] == t[1..] + rest;
      CStringOf(t[1..], rest);
    }
  }

  function Repeat(c: nonzero, n: nat): (r: Text)
    ensures |r| == n && forall i :: 0 <= i < n ==> r[i] == c
  {
    if n == 0 then [] else [c] + Repeat(c, n - 1)
  }

  lemma Regroup(a: seq<byte>, b: seq<byte>, c: seq<byte>)
    ensures (a + b) + c == a + (b + c)
  {
  }

  lemma RegroupRight(a: seq<byte>, b: seq<byte>, c: seq<byte>, x: seq<byte>)
    ensures (a + (b + c)) + x == a + (b + (c + x))
  {
  }

  lemma RegroupLeft(q: seq<byte>, a: seq<byte>, b: seq<byte>, c: seq<byte>)
    ensures q + (a + (b + c)) == q + a + b + c
  {
  }

  /** tolower in the C locale. */
  function Lower(c: nonzero): nonzero { if 65 <= c <= 90 then c + 32 else c }

  function LowerText(t: Text): (r: Text)
    ensures |r| == |t| && forall i :: 0 <= i < |t| ==> r[i] == Lower(t[i])
  {
    if t == [] then [] else [Lower(t[0])] + LowerText(t[1..])
  }
}
