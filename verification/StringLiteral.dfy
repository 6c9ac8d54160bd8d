/** String literals: escaping for output, and the two passes that scan and unescape them. */
module StringLiteral {
  import opened Bytes
  import opened JsonValue
  import opened Utf

  // ---------- escaping ----------

  function HexChar(v: int): (h: nonzero)
    requires 0 <= v < 16
    ensures (48 <= h <= 57 || 97 <= h <= 102) && HexDigit(h) == v
  {
    if v < 10 then 48 + v else 87 + v
  }

  /** The letter of a one-character escape, or -1. */
  function EscapeLetter(c: byte): int {
    if c == QUOTE || c == BACKSLASH then c
    else if c == 8 then 98 else if c == 12 then 102 else if c == NEWLINE then 110
    else if c == RETURN then 114 else if c == TAB then 116 else -1
  }

  function EscapeByte(c: nonzero): (e: Text)
    ensures |e| >= 1
  {
    if c > 31 && c != QUOTE && c != BACKSLASH then [c]
    else if EscapeLetter(c) >= 0 then [BACKSLASH, EscapeLetter(c)]
    else [BACKSLASH, LOWER_U, 48, 48, HexChar(c / 16), HexChar(c % 16)]
  }

  function Escape(t: Text): Text {
    if t == [] then [] else EscapeByte(t[0]) + Escape(t[1..])
  }

  /** A NULL string prints like an empty one. */
  function Quoted(t: Option<Text>): Text {
    [QUOTE] + (if t.Some? then Escape(t.value) else []) + [QUOTE]
  }

  // ---------- the scanning pass ----------

  /** Where the literal whose contents start at `p` is closed, or -1. */
  function ClosingQuote(s: seq<byte>, p: nat): (end: int)
    decreases |s| - p
    ensures end == -1 || (p <= end < |s| && s[end] == QUOTE)
  {
    if p >= |s| then -1
    else if s[p] == QUOTE then p
    else if s[p] == BACKSLASH then
      if p + 1 >= |s| then -1 else ClosingQuote(s, p + 2)
    else ClosingQuote(s, p + 1)
  }

  /** The characters and escape pairs the scanning pass steps over from `p` to `end`. */
  function UnitCount(s: seq<byte>, p: nat, end: nat): nat
    requires end <= |s|
    decreases if p < end then end - p else 0
  {
    if p >= end then 0
    else if s[p] == BACKSLASH then 1 + UnitCount(s, p + 2, end)
    else 1 + UnitCount(s, p + 1, end)
  }

  method ScanString(s: seq<byte>, start: nat) returns (end: int, skipped: nat)
    requires start <= |s|
    ensures end == ClosingQuote(s, start)
    ensures end >= 0 ==> end - start - skipped == UnitCount(s, start, end)
  {
    var p: nat := start;
    skipped := 0;
    while p < |s| && s[p] != QUOTE
      invariant start <= p <= |s|
      invariant ClosingQuote(s, p) == ClosingQuote(s, start)
      invariant ClosingQuote(s, start) >= 0 ==>
                  p - start - skipped + UnitCount(s, p, ClosingQuote(s, start))
                  == UnitCount(s, start, ClosingQuote(s, start))
      decreases |s| - p
    {
      if s[p] == BACKSLASH {
        if p + 1 >= |s| {
          return -1, skipped;
        }
        skipped := skipped + 1;
        p := p + 1;
      }
      p := p + 1;
    }
    if p >= |s| || s[p] != QUOTE {
      return -1, skipped;
    }
    end := p;
  }

  // ---------- the unescaping pass ----------

  datatype Unescaped = Chars(bytes: seq<byte>) | Bad(pos: nat)

  /** The byte a two-character escape stands for, or -1. */
  function SimpleEscape(c: byte): int {
    if c == 98 then 8 else if c == 102 then 12 else if c == 110 then NEWLINE
    else if c == 114 then RETURN else if c == 116 then TAB
    else if c == QUOTE || c == BACKSLASH || c == SLASH then c else -1
  }

  function Prepend(bytes: seq<byte>, u: Unescaped): Unescaped {
    match u case Chars(rest) => Chars(bytes + rest) case Bad(_) => u
  }

  /** One step of the unescaping pass at `p`: what it writes and how far it moves, 0 for a failure. */
  function UnescapeStep(s: seq<byte>, p: nat, end: nat): (r: (seq<byte>, nat))
    requires p < end < |s|
    ensures r == ([], 0) || (r.1 == 1 && |r.0| == 1) || (r.1 % 2 == 0 && 1 <= |r.0| <= r.1 / 2)
    ensures r.1 > 2 ==> p + r.1 <= end
  {
    if s[p] != BACKSLASH then ([s[p]], 1)
    else if SimpleEscape(s[p + 1]) >= 0 then ([SimpleEscape(s[p + 1])], 2)
    else if s[p + 1] == LOWER_U then
      match Denotes(s, p, end)
      case Rejected => ([], 0)
      case Accepted(point, length) =>
        assert length == 6 ==> point < 0x10000;
        (Utf8(point), length)
    else ([], 0)
  }

  function Unescape(s: seq<byte>, p: nat, end: nat): Unescaped
    requires end < |s|
    decreases if p < end then end - p else 0
  {
    if p >= end then Chars([])
    else
      var (bytes, length) := UnescapeStep(s, p, end);
      if length == 0 then Bad(p) else Prepend(bytes, Unescape(s, p + length, end))
  }

  /**
   * The scanning pass visits `q`, at or just after `p`. Whatever the unescaping pass skips to get
   * from `p` to `t`, the scanning pass has a stop at `t` or just after it, and it has counted at
   * least one unit for every two bytes skipped.
   */
  lemma {:induction false} Resync(s: seq<byte>, p: nat, q: nat, end: nat, t: nat) returns (q': nat)
    requires ClosingQuote(s, q) == end && p <= q <= p + 1 && p <= t <= end
    ensures t <= q' <= t + 1 && ClosingQuote(s, q') == end
    ensures 2 * (UnitCount(s, q, end) + (q - p) - UnitCount(s, q', end) - (q' - t)) + 1 >= t - p
    decreases end - q
  {
    if q >= t {
      q' := q;
    } else if s[q] == BACKSLASH {
      if q + 2 <= t {
        q' := Resync(s, q + 2, q + 2, end, t);
      } else {
        q' := q + 2;
      }
    } else {
      q' := Resync(s, q + 1, q + 1, end, t);
    }
  }

  /** What is left of the space counted by the scan, whose next stop `q` is at or just after `p`. */
  ghost function Budget(s: seq<byte>, p: nat, q: nat, end: nat): int
    requires end <= |s|
  {
    if p <= end then UnitCount(s, q, end) + q - p else 0
  }

  ghost predicate InReach(s: seq<byte>, p: nat, q: nat, end: nat) {
    p <= end ==> p <= q <= p + 1 && ClosingQuote(s, q) == end
  }

  /** A step writes no more than the budget it uses up, and it passes `end` by at most one byte. */
  lemma StepFits(s: seq<byte>, p: nat, q: nat, end: nat) returns (q': nat)
    requires p < end < |s| && InReach(s, p, q, end)
    ensures var (bytes, length) := UnescapeStep(s, p, end);
            && InReach(s, p + length, q', end)
            && (length != 0 ==> p + length <= end + 1)
            && |bytes| + Budget(s, p + length, q', end) <= Budget(s, p, q, end)
  {
    var (bytes, length) := UnescapeStep(s, p, end);
    q' := if length == 1 && q == p then p + 1 else q;
    if length > 1 && p + length <= end {
      q' := Resync(s, p, q, end, p + length);
    }
  }

  lemma PrependTwice(a: seq<byte>, b: seq<byte>, u: Unescaped)
    ensures Prepend(a, Prepend(b, u)) == Prepend(a + b, u)
  {
    if u.Chars? {
      assert a + (b + u.bytes) == a + b + u.bytes;
    }
  }

  /** One turn of the unescaping loop. */
  method UnescapeOne(s: seq<byte>, p: nat, end: nat, out: array<byte>, w: nat) returns (length: nat, w': nat)
    requires p < end < |s| && w + |UnescapeStep(s, p, end).0| <= out.Length
    modifies out
    ensures length == UnescapeStep(s, p, end).1
    ensures length != 0 ==> w' == w + |UnescapeStep(s, p, end).0|
                            && out[..w'] == old(out[..w]) + UnescapeStep(s, p, end).0
  {
    if s[p] != BACKSLASH {
      out[w] := s[p];
      length, w' := 1, w + 1;
    } else {
      var c := SimpleEscape(s[p + 1]);
      if c >= 0 {
        out[w] := c;
        length, w' := 2, w + 1;
      } else if s[p + 1] == LOWER_U {
        length, w' := Utf16LiteralToUtf8(s, p, end, out, w);
        assert length != 0 ==> out[..w'] == out[..w] + out[w..w'];
      } else {
        length, w' := 0, w;
      }
    }
  }

  /** What has been written so far, followed by what the rest of the literal gives. */
  ghost predicate Resumes(s: seq<byte>, start: nat, end: nat, written: seq<byte>, p: nat)
    requires end < |s|
  {
    Unescape(s, start, end) == Prepend(written, Unescape(s, p, end))
  }

  lemma {:induction false} ResumesAfterStep(s: seq<byte>, start: nat, end: nat, written: seq<byte>, p: nat)
    requires p < end < |s| && Resumes(s, start, end, written, p)
    ensures var (bytes, length) := UnescapeStep(s, p, end);
      if length == 0 then Unescape(s, start, end) == Bad(p) else Resumes(s, start, end, written + bytes, p + length)
  {
    var (bytes, length) := UnescapeStep(s, p, end);
    PrependTwice(written, bytes, Unescape(s, p + length, end));
  }

  /** Where the unescaping pass is: `written` stands in the block, which has room for what is still to come. */
  ghost predicate Underway(s: seq<byte>, start: nat, end: nat, written: seq<byte>, p: nat, q: nat)
    requires end < |s|
  {
    && start <= p <= end + 1 && InReach(s, p, q, end)
    && |written| + Budget(s, p, q, end) <= UnitCount(s, start, end)
    && Resumes(s, start, end, written, p)
  }

  /** One turn of the loop; the block has room for it. */
  method UnescapeTurn(s: seq<byte>, start: nat, end: nat, out: array<byte>, p: nat, w: nat, ghost q: nat)
    returns (ok: bool, p': nat, w': nat, ghost q': nat)
    requires p < end < |s| && w <= out.Length && Underway(s, start, end, out[..w], p, q)
    requires out.Length == UnitCount(s, start, end) + 2
    modifies out
    ensures !ok ==> p' == p && Unescape(s, start, end) == Bad(p)
    ensures ok ==> p < p' && w' <= out.Length && Underway(s, start, end, out[..w'], p', q')
  {
    q' := StepFits(s, p, q, end);
    ResumesAfterStep(s, start, end, out[..w], p);
    var length;
    length, w' := UnescapeOne(s, p, end, out, w);
    ok, p' := length != 0, p + length;
  }

  /** Even when it falls out of step with the scan, unescaping stays inside the counted space. */
  method UnescapeInto(s: seq<byte>, start: nat, end: nat, out: array<byte>) returns (ok: bool, p: nat, w: nat)
    requires ClosingQuote(s, start) == end
    requires out.Length == UnitCount(s, start, end) + 2
    modifies out
    ensures start <= p <= end + 1
    ensures ok <==> Unescape(s, start, end).Chars?
    ensures ok ==> w + 2 <= out.Length && out[..w] == Unescape(s, start, end).bytes && out[w] == NUL
    ensures !ok ==> Unescape(s, start, end) == Bad(p)
  {
    p, w, ok := start, 0, true;
    ghost var q: nat := start;
    PrependTwice([], [], Unescape(s, start, end));
    while p < end
      invariant w <= out.Length && Underway(s, start, end, out[..w], p, q)
      decreases end + 1 - p
    {
      ok, p, w, q := UnescapeTurn(s, start, end, out, p, w, q);
      if !ok {
        return;
      }
    }
    assert Unescape(s, start, end) == Chars(out[..w] + []);
    out[w] := NUL;
  }

  // ---------- a whole literal ----------

  /** A value with the offset just past it, or the offset at which parsing stopped. */
  datatype Outcome<+T> = Done(value: T, pos: nat) | Error(pos: nat)

  /** What parse_string makes of a literal that was unescaped and is followed by `next`. */
  function Literally(u: Unescaped, next: nat): Outcome<Text> {
    match u case Bad(pos) => Error(pos) case Chars(bytes) => Done(CString(bytes), next)
  }

  /** parse_string: the C string read from the literal at `o`. */
  function ParseString(s: seq<byte>, o: nat): (r: Outcome<Text>)
    requires o < |s|
    ensures r.Done? ==> o + 1 < r.pos <= |s|
    ensures r.pos <= |s|
  {
    var end := if s[o] == QUOTE then ClosingQuote(s, o + 1) else -1;
    if end < 0 then Error(o + 1)
    else BadIsInside(s, o + 1, end); Literally(Unescape(s, o + 1, end), end + 1)
  }

  /** The second pass over a whole literal: the block holds its C string, or the error is at `p`. */
  method UnescapeLiteral(s: seq<byte>, o: nat, end: nat, out: array<byte>) returns (ok: bool, p: nat)
    requires o < |s| && s[o] == QUOTE && ClosingQuote(s, o + 1) == end
    requires out.Length == UnitCount(s, o + 1, end) + 2
    modifies out
    ensures var r := ParseString(s, o);
      if ok then r.Done? && r.pos == end + 1
                 && |r.value| < out.Length && out[..|r.value|] == r.value && out[|r.value|] == NUL
      else r == Error(p)
  {
    var w;
    ok, p, w := UnescapeInto(s, o + 1, end, out);
    if ok {
      var text := CString(out[..w]);
      CStringIs(out[..w]);
      assert out[..|text|] == text;
    }
  }

  lemma {:induction false} BadIsInside(s: seq<byte>, p: nat, end: nat)
    requires end < |s|
    ensures Unescape(s, p, end).Bad? ==> p <= Unescape(s, p, end).pos < end
    decreases if p < end then end - p else 0
  {
    if p < end {
      var length := UnescapeStep(s, p, end).1;
      if length != 0 {
        BadIsInside(s, p + length, end);
      }
    }
  }

  /** One escaped character is read back as that character by both passes. */
  lemma {:induction false} EscapeByteReadsBack(s: seq<byte>, p: nat, m: nat, end: nat, c: nonzero)
    requires Spans(s, p, m, EscapeByte(c)) && m <= end < |s|
    ensures p < end && UnescapeStep(s, p, end) == ([c], m - p)
    ensures ClosingQuote(s, p) == ClosingQuote(s, m)
  {
    var e := EscapeByte(c);
    if |e| == 6 {
      CodeReadsBack(s, p, m, end, c);
    } else {
      AtByte(s, p, e, 0);
      if |e| == 2 { AtByte(s, p, e, 1); }
    }
  }

  lemma {:induction false} CodeReadsBack(s: seq<byte>, p: nat, m: nat, end: nat, c: nonzero)
    requires |EscapeByte(c)| == 6 && Spans(s, p, m, EscapeByte(c)) && m <= end < |s|
    ensures UnescapeStep(s, p, end) == ([c], 6) && ClosingQuote(s, p) == ClosingQuote(s, m)
  {
    var e := EscapeByte(c);
    AtByte(s, p, e, 0); AtByte(s, p, e, 1); AtByte(s, p, e, 2); AtByte(s, p, e, 3); AtByte(s, p, e, 4); AtByte(s, p, e, 5);
    SkipsPlain(s, p + 2, 4);
    CodeDenotes(s, p, end, c);
    assert Utf8(c) == [c];
  }

  /** `\u00` and two digits. */
  lemma CodeDenotes(s: seq<byte>, p: nat, end: nat, c: nonzero)
    requires c < 32 && p + 6 <= end <= |s|
    requires s[p + 2] == 48 && s[p + 3] == 48 && s[p + 4] == HexChar(c / 16) && s[p + 5] == HexChar(c % 16)
    ensures Denotes(s, p, end) == Accepted(c, 6)
  {
    assert Hex4(s, p + 2) == c;
  }

  lemma {:induction false} SkipsPlain(s: seq<byte>, p: nat, n: nat)
    requires p + n <= |s| && forall i :: p <= i < p + n ==> s[i] != QUOTE && s[i] != BACKSLASH
    ensures ClosingQuote(s, p) == ClosingQuote(s, p + n)
    decreases n
  {
    if n > 0 { SkipsPlain(s, p + 1, n - 1); }
  }

  lemma {:induction false} UnescapeFrom(s: seq<byte>, p: nat, m: nat, end: nat, bytes: seq<byte>)
    requires p < m && p < end < |s| && UnescapeStep(s, p, end) == (bytes, m - p)
    ensures Unescape(s, p, end) == Prepend(bytes, Unescape(s, m, end))
  {
    assert p + (m - p) == m;
  }

  /** An escaped text is found whole by the scan and unescapes to itself. */
  lemma {:induction false} EscapeReadsBack(s: seq<byte>, p: nat, t: Text, end: nat)
    requires Spans(s, p, end, Escape(t)) && end < |s| && s[end] == QUOTE
    ensures ClosingQuote(s, p) == end && Unescape(s, p, end) == Chars(t)
    decreases t
  {
    if t != [] {
      var m := SpanSplit(s, p, end, EscapeByte(t[0]), Escape(t[1..]));
      EscapeReadsBack(s, m, t[1..], end);
      EscapeByteReadsBack(s, p, m, end, t[0]);
      UnescapeFrom(s, p, m, end, [t[0]]);
      assert [t[0]] + t[1..] == t;
    }
  }

  /** The printed form of a NUL-free string parses back to that string and is consumed exactly. */
  lemma QuotedReadsBack(s: seq<byte>, o: nat, t: Text)
    requires At(s, o, Quoted(Some(t)))
    ensures ParseString(s, o) == Done(t, o + |Quoted(Some(t))|)
  {
    var stop := o + |Quoted(Some(t))|;
    var end := SpanSplit(s, o, stop, [QUOTE] + Escape(t), [QUOTE]);
    var start := SpanSplit(s, o, end, [QUOTE], Escape(t));
    SpanByte(s, o, start, [QUOTE]);
    SpanByte(s, end, stop, [QUOTE]);
    EscapeReadsBack(s, start, t, end);
    assert t + [] == t;
    CStringOf(t, []);
  }
}
