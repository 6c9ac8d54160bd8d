/** What parsing reads: a literal up to its closing quote, and any text the same way wherever it stands. */
module Shifted {
  import opened Bytes
  import opened JsonValue
  import opened Utf
  import opened StringLiteral
  import opened Numbers
  import opened Grammar
  import P = ParseSteps

  /** The bytes of `s` from `a` up to `b` stand in `s'` too, `d` places later. */
  ghost predicate Alike(s: seq<byte>, s': seq<byte>, d: nat, a: nat, b: nat) {
    b <= |s| && b + d <= |s'| && forall i {:trigger s[i]} :: a <= i < b ==> s'[i + d] == s[i]
  }

  function Later<T>(r: Outcome<T>, d: nat): Outcome<T> {
    match r case Done(value, pos) => Done(value, pos + d) case Error(pos) => Error(pos + d)
  }

  // ---------- string literals ----------

  lemma HexAlike(s: seq<byte>, s': seq<byte>, d: nat, a: nat, b: nat, i: nat, i': nat)
    requires Alike(s, s', d, a, b) && a <= i && i + 4 <= b && i' == i + d
    ensures Hex4(s', i') == Hex4(s, i)
  {
    assert s'[i'] == s[i] && s'[i' + 1] == s[i + 1] && s'[i' + 2] == s[i + 2] && s'[i' + 3] == s[i + 3];
  }

  lemma DenotesAlike(s: seq<byte>, s': seq<byte>, d: nat, p: nat, p': nat, end: nat, end': nat)
    requires Alike(s, s', d, p, end) && p' == p + d && end' == end + d
    ensures Denotes(s', p', end') == Denotes(s, p, end)
  {
    if end - p >= 6 {
      HexAlike(s, s', d, p, end, p + 2, p' + 2);
      if end - (p + 6) >= 6 {
        HexAlike(s, s', d, p, end, p + 8, p' + 8);
        assert s'[p' + 6] == s[p + 6] && s'[p' + 7] == s[p + 7];
      }
    }
  }

  lemma StepAlike(s: seq<byte>, s': seq<byte>, d: nat, p: nat, p': nat, end: nat, end': nat)
    requires p < end < |s| && Alike(s, s', d, p, end + 1) && p' == p + d && end' == end + d
    ensures UnescapeStep(s', p', end') == UnescapeStep(s, p, end)
  {
    assert s'[p'] == s[p] && s'[p' + 1] == s[p + 1];
    DenotesAlike(s, s', d, p, p', end, end');
  }

  function LaterText(u: Unescaped, d: nat): Unescaped {
    match u case Chars(_) => u case Bad(pos) => Bad(pos + d)
  }

  lemma {:induction false} OneStep(s: seq<byte>, p: nat, next: nat, end: nat, bytes: seq<byte>, length: nat)
    requires p < end < |s| && UnescapeStep(s, p, end) == (bytes, length) && length > 0 && next == p + length
    ensures Unescape(s, p, end) == Prepend(bytes, Unescape(s, next, end))
  {
  }

  lemma {:induction false} StepFails(s: seq<byte>, p: nat, end: nat)
    requires p < end < |s| && UnescapeStep(s, p, end).1 == 0
    ensures Unescape(s, p, end) == Bad(p)
  {
  }

  /** Unescaping reads nothing in front of the literal and nothing behind its closing quote. */
  lemma {:induction false} UnescapeAlike(s: seq<byte>, s': seq<byte>, d: nat, p: nat, p': nat, end: nat, end': nat)
    requires end < |s| && Alike(s, s', d, p, end + 1) && p' == p + d && end' == end + d
    ensures Unescape(s', p', end') == LaterText(Unescape(s, p, end), d)
    decreases if p < end then end - p else 0
  {
    if p < end {
      StepAlike(s, s', d, p, p', end, end');
      var (bytes, length) := UnescapeStep(s, p, end);
      if length == 0 {
        StepFails(s, p, end);
        StepFails(s', p', end');
      } else {
        var next, next' := p + length, p' + length;
        UnescapeAlike(s, s', d, next, next', end, end');
        OneStep(s, p, next, end, bytes, length);
        OneStep(s', p', next', end', bytes, length);
      }
    }
  }

  lemma {:induction false} ClosingAlike(s: seq<byte>, s': seq<byte>, d: nat, p: nat, p': nat, end: nat, end': nat)
    requires ClosingQuote(s, p) == end && Alike(s, s', d, p, end + 1) && p' == p + d && end' == end + d
    ensures ClosingQuote(s', p') == end'
    decreases |s| - p
  {
    assert s'[p'] == s[p];
    if s[p] == BACKSLASH {
      ClosingAlike(s, s', d, p + 2, p' + 2, end, end');
    } else if s[p] != QUOTE {
      ClosingAlike(s, s', d, p + 1, p' + 1, end, end');
    }
  }

  lemma {:induction false} LiteralIs(s: seq<byte>, o: nat, p: nat, end: nat, next: nat, u: Unescaped, r: Outcome<Text>)
    requires o < |s| && p == o + 1 && next == end + 1 && s[o] == QUOTE && ClosingQuote(s, p) == end
    requires u == Unescape(s, p, end) && r == ParseString(s, o)
    ensures r == Literally(u, next)
  {
  }

  lemma LiterallyLater(u: Unescaped, u': Unescaped, d: nat, next: nat, next': nat)
    requires u' == LaterText(u, d) && next' == next + d
    ensures Literally(u', next') == Later(Literally(u, next), d)
  {
  }

  /** A literal is read the same way whatever is in front of it and behind its closing quote. */
  lemma {:induction false} LiteralAlike(s: seq<byte>, s': seq<byte>, d: nat, o: nat, o': nat, end: nat, end': nat)
    requires o < |s| && s[o] == QUOTE && ClosingQuote(s, o + 1) == end && Alike(s, s', d, o, end + 1)
    requires o' == o + d && end' == end + d
    ensures o' < |s'| && ParseString(s', o') == Later(ParseString(s, o), d)
  {
    var p, p', next, next' := o + 1, o' + 1, end + 1, end' + 1;
    assert s'[o'] == s[o];
    ClosingAlike(s, s', d, p, p', end, end');
    UnescapeAlike(s, s', d, p, p', end, end');
    var u, u', r, r' := Unescape(s, p, end), Unescape(s', p', end'), ParseString(s, o), ParseString(s', o');
    LiteralIs(s, o, p, end, next, u, r);
    LiteralIs(s', o', p', end', next', u', r');
    LiterallyLater(u, u', d, next, next');
  }

  /** Neither pass over a literal reads past its closing quote: with other bytes behind that, the answer is the same. */
  lemma {:induction false} ReadsUpToQuote(s: seq<byte>, s': seq<byte>, o: nat, end: nat)
    requires o < |s| && s[o] == QUOTE && ClosingQuote(s, o + 1) == end
    requires end < |s'| && s[o..end + 1] == s'[o..end + 1]
    ensures ParseString(s', o) == ParseString(s, o)
  {
    forall i | o <= i < end + 1 ensures s[i] == s'[i] {
      assert s[i] == s[o..end + 1][i - o] && s'[i] == s'[o..end + 1][i - o];
    }
    LiteralAlike(s, s', 0, o, o, end, end);
  }

  // ---------- a text behind another one ----------

  /** `s'` ends in `s`. */
  ghost predicate Behind(s: seq<byte>, s': seq<byte>, d: nat) { |s'| == |s| + d && Alike(s, s', d, 0, |s|) }

  lemma {:induction false} NotClosedAlike(s: seq<byte>, s': seq<byte>, d: nat, p: nat, p': nat)
    requires Behind(s, s', d) && ClosingQuote(s, p) < 0 && p' == p + d
    ensures ClosingQuote(s', p') < 0
    decreases |s| - p
  {
    if p < |s| {
      assert s'[p'] == s[p];
      if s[p] == BACKSLASH {
        if p + 1 < |s| { NotClosedAlike(s, s', d, p + 2, p' + 2); }
      } else {
        NotClosedAlike(s, s', d, p + 1, p' + 1);
      }
    }
  }

  lemma StringLater(s: seq<byte>, s': seq<byte>, d: nat, o: nat, o': nat)
    requires Behind(s, s', d) && o < |s| && o' == o + d
    ensures ParseString(s', o') == Later(ParseString(s, o), d)
  {
    assert s'[o'] == s[o];
    var end := ClosingQuote(s, o + 1);
    if end < 0 {
      NotClosedAlike(s, s', d, o + 1, o' + 1);
    } else if s[o] == QUOTE {
      LiteralAlike(s, s', d, o, o', end, end + d);
    }
  }

  lemma {:induction false} NumberRunLater(s: seq<byte>, s': seq<byte>, d: nat, o: nat, o': nat, i: nat)
    requires Behind(s, s', d) && i <= 63 && o + i <= |s| && o' == o + d
    ensures NumberRun(s', o', i) == NumberRun(s, o, i)
    decreases 63 - i
  {
    if i < 63 && o + i < |s| {
      assert s'[o' + i] == s[o + i];
      if NumberChar(s[o + i]) { NumberRunLater(s, s', d, o, o', i + 1); }
    }
  }

  lemma {:induction false} HexRunLater(s: seq<byte>, s': seq<byte>, d: nat, o: nat, o': nat, i: nat)
    requires Behind(s, s', d) && i <= 63 && o + i <= |s| && o' == o + d
    ensures HexRun(s', o', i) == HexRun(s, o, i)
    decreases 63 - i
  {
    if i < 63 && o + i < |s| {
      assert s'[o' + i] == s[o + i];
      if HexRunChar(s[o + i]) { HexRunLater(s, s', d, o, o', i + 1); }
    }
  }

  lemma SliceLater(s: seq<byte>, s': seq<byte>, d: nat, o: nat, o': nat, n: nat)
    requires Behind(s, s', d) && o + n <= |s| && o' == o + d
    ensures s'[o'..o' + n] == s[o..o + n]
  {
    var w, w' := s[o..o + n], s'[o'..o' + n];
    forall k | 0 <= k < n ensures w'[k] == w[k] {
      assert s'[o' + k] == s[o + k];
    }
  }

  lemma NumeralLater(w: seq<byte>, d: nat, o: nat, o': nat)
    requires o' == o + d
    ensures Numeral(w, o') == Later(Numeral(w, o), d)
  {
  }

  lemma NumberTextLater(s: seq<byte>, s': seq<byte>, d: nat, o: nat, o': nat)
    requires Behind(s, s', d) && o < |s| && o' == o + d
    ensures NumberText(s', o') == NumberText(s, o)
  {
    var n := NumberRun(s, o, 0);
    NumberRunLater(s, s', d, o, o', 0);
    SliceLater(s, s', d, o, o', n);
  }

  lemma NumberLater(s: seq<byte>, s': seq<byte>, d: nat, o: nat, o': nat)
    requires Behind(s, s', d) && o < |s| && o' == o + d
    ensures ParseNumber(s', o') == Later(ParseNumber(s, o), d)
  {
    NumberTextLater(s, s', d, o, o');
    var w := NumberText(s, o);
    NumeralLater(w, d, o, o');
  }

  lemma HexNumeralLater(w: seq<byte>, d: nat, pos: nat, pos': nat)
    requires pos' == pos + d
    ensures HexNumeral(w, pos') == Later(HexNumeral(w, pos), d)
  {
  }

  lemma {:induction false} HexNumberIs(s: seq<byte>, o: nat, n: nat, w: seq<byte>, pos: nat)
    requires o < |s| && n == HexRun(s, o, 0) && w == s[o..o + n] && pos == if n < 63 && o + n < |s| then o + n else o
    ensures ParseHexNumber(s, o) == HexNumeral(w, pos)
  {
  }

  lemma HexNumberLater(s: seq<byte>, s': seq<byte>, d: nat, o: nat, o': nat)
    requires Behind(s, s', d) && o < |s| && o' == o + d
    ensures ParseHexNumber(s', o') == Later(ParseHexNumber(s, o), d)
  {
    var n := HexRun(s, o, 0);
    HexRunLater(s, s', d, o, o', 0);
    SliceLater(s, s', d, o, o', n);
    var w, moves := s[o..o + n], n < 63 && o + n < |s|;
    var pos, pos' := if moves then o + n else o, if moves then o' + n else o';
    HexNumberIs(s, o, n, w, pos);
    HexNumberIs(s', o', n, w, pos');
    HexNumeralLater(w, d, pos, pos');
  }

  lemma {:induction false} SpaceLater(s: Buffer, s': Buffer, d: nat, o: nat, o': nat)
    requires Behind(s, s', d) && o < |s| && o' == o + d
    ensures SkipSpace(s', o') == SkipSpace(s, o) + d
    ensures s'[SkipSpace(s', o')] == s[SkipSpace(s, o)]
    decreases |s| - o
  {
    assert s'[o'] == s[o];
    if s[o] <= 32 && o + 1 < |s| { SpaceLater(s, s', d, o + 1, o' + 1); }
  }

  lemma WordLater(s: seq<byte>, s': seq<byte>, d: nat, o: nat, o': nat, w: Text)
    requires Behind(s, s', d) && o' == o + d
    ensures At(s', o', w) <==> At(s, o, w)
  {
    if o + |w| <= |s| { SliceLater(s, s', d, o, o', |w|); }
  }

  lemma {:induction false} ScalarLater(s: Buffer, s': Buffer, d: nat, o: nat, o': nat, n: nat)
    requires Behind(s, s', d) && o < |s| && o' == o + d && s[o] != LBRACKET && s[o] != LBRACE
    ensures ParseValue(s', o', n) == Later(ParseValue(s, o, n), d)
  {
    assert s'[o'] == s[o];
    WordLater(s, s', d, o, o', NULL_WORD);
    WordLater(s, s', d, o, o', FALSE_WORD);
    WordLater(s, s', d, o, o', TRUE_WORD);
    StringLater(s, s', d, o, o');
    NumberLater(s, s', d, o, o');
    HexNumberLater(s, s', d, o, o');
    if o + 1 < |s| { assert s'[o' + 1] == s[o + 1]; }
  }

  lemma {:induction false} ValueLater(s: Buffer, s': Buffer, d: nat, o: nat, o': nat, n: nat)
    requires Behind(s, s', d) && o < |s| && o' == o + d
    ensures P.Value(s', o', n) == Later(P.Value(s, o, n), d)
    decreases |s| - o, 5
  {
    assert s'[o'] == s[o];
    var r, r' := P.Value(s, o, n), P.Value(s', o', n);
    if s[o] != LBRACKET && s[o] != LBRACE {
      ScalarLater(s, s', d, o, o', n);
      P.OpenValue(s, o, n);
      P.OpenValue(s', o', n);
    } else if n >= NESTING_LIMIT {
      P.TooDeep(s, o, n, r);
      P.TooDeep(s', o', n, r');
    } else if s[o] == LBRACKET {
      ArrayLater(s, s', d, o, o', n, r, r');
    } else {
      ObjectLater(s, s', d, o, o', n, r, r');
    }
  }

  lemma {:induction false} ArrayLater(s: Buffer, s': Buffer, d: nat, o: nat, o': nat, n: nat, r: Outcome<Json>, r': Outcome<Json>)
    requires Behind(s, s', d) && o < |s| && o' == o + d && s[o] == s'[o'] == LBRACKET && n < NESTING_LIMIT
    requires P.ValueIs(s, o, n, r) && P.ValueIs(s', o', n, r')
    ensures r' == Later(r, d)
    decreases |s| - o, 4
  {
    SpaceLater(s, s', d, o + 1, o' + 1);
    var first, first' := SkipSpace(s, o + 1), SkipSpace(s', o' + 1);
    var v := P.ArrayParts(s, o, n, first, r);
    var v' := P.ArrayParts(s', o', n, first', r');
    if s[first] != RBRACKET {
      ElementsLater(s, s', d, first - 1, first' - 1, n + 1);
      if v.Done? { assert s'[v'.pos] == s[v.pos]; }
    }
  }

  lemma {:induction false} SpacedLater(s: Buffer, s': Buffer, d: nat, o: nat, o': nat, n: nat, r: Outcome<Json>, r': Outcome<Json>)
    requires Behind(s, s', d) && o' == o + d && P.SpacedIs(s, o, n, r) && P.SpacedIs(s', o', n, r')
    ensures r' == Later(r, d)
    decreases |s| - o, 1
  {
    SpaceLater(s, s', d, o + 1, o' + 1);
    var v := P.SpacedParts(s, o, n, r);
    var v' := P.SpacedParts(s', o', n, r');
    ValueLater(s, s', d, SkipSpace(s, o + 1), SkipSpace(s', o' + 1), n);
    if v.Done? { SpaceLater(s, s', d, v.pos, v'.pos); }
  }

  lemma {:induction false} ElementsLater(s: Buffer, s': Buffer, d: nat, o: nat, o': nat, n: nat)
    requires Behind(s, s', d) && o + 1 < |s| && o' == o + d
    ensures P.Elements(s', o', n) == Later(P.Elements(s, o, n), d)
    decreases |s| - o, 3
  {
    var r, r' := P.Elements(s, o, n), P.Elements(s', o', n);
    var w, rest := P.ElementsParts(s, o, n, r);
    var w', rest' := P.ElementsParts(s', o', n, r');
    SpacedLater(s, s', d, o, o', n, w, w');
    if w.Done? {
      assert s'[w'.pos] == s[w.pos];
      if s[w.pos] == COMMA { ElementsLater(s, s', d, w.pos, w'.pos, n); }
    }
  }

  lemma {:induction false} ObjectLater(s: Buffer, s': Buffer, d: nat, o: nat, o': nat, n: nat, r: Outcome<Json>, r': Outcome<Json>)
    requires Behind(s, s', d) && o < |s| && o' == o + d && s[o] == s'[o'] == LBRACE && n < NESTING_LIMIT
    requires P.ValueIs(s, o, n, r) && P.ValueIs(s', o', n, r')
    ensures r' == Later(r, d)
    decreases |s| - o, 4
  {
    SpaceLater(s, s', d, o + 1, o' + 1);
    var first, first' := SkipSpace(s, o + 1), SkipSpace(s', o' + 1);
    var v := P.ObjectParts(s, o, n, first, r);
    var v' := P.ObjectParts(s', o', n, first', r');
    if s[first] != RBRACE {
      MembersLater(s, s', d, first - 1, first' - 1, n + 1);
      if v.Done? { assert s'[v'.pos] == s[v.pos]; }
    }
  }

  lemma NameLater(s: Buffer, s': Buffer, d: nat, o: nat, o': nat, r: Outcome<Text>, r': Outcome<Text>)
    requires Behind(s, s', d) && o' == o + d && P.NameIs(s, o, r) && P.NameIs(s', o', r')
    ensures r' == Later(r, d)
  {
    SpaceLater(s, s', d, o + 1, o' + 1);
    var start, start' := SkipSpace(s, o + 1), SkipSpace(s', o' + 1);
    var t := P.NameParts(s, o, r);
    var t' := P.NameParts(s', o', r');
    StringLater(s, s', d, start, start');
    P.OpenStringAt(s, start);
    P.OpenStringAt(s', start');
    if t.Done? { SpaceLater(s, s', d, t.pos, t'.pos); }
  }

  lemma {:induction false} MemberLater(s: Buffer, s': Buffer, d: nat, o: nat, o': nat, n: nat, r: Outcome<Items>, r': Outcome<Items>)
    requires Behind(s, s', d) && o' == o + d && P.MemberIs(s, o, n, r) && P.MemberIs(s', o', n, r')
    ensures r' == Later(r, d)
    decreases |s| - o, 2
  {
    var name, w := P.MemberParts(s, o, n, r);
    var name', w' := P.MemberParts(s', o', n, r');
    NameLater(s, s', d, o, o', name, name');
    if name.Done? { SpacedLater(s, s', d, name.pos - 1, name'.pos - 1, n, w, w'); }
  }

  lemma {:induction false} MembersLater(s: Buffer, s': Buffer, d: nat, o: nat, o': nat, n: nat)
    requires Behind(s, s', d) && o + 1 < |s| && o' == o + d
    ensures P.Members(s', o', n) == Later(P.Members(s, o, n), d)
    decreases |s| - o, 3
  {
    var r, r' := P.Members(s, o, n), P.Members(s', o', n);
    var m, rest := P.MembersParts(s, o, n, r);
    var m', rest' := P.MembersParts(s', o', n, r');
    MemberLater(s, s', d, o, o', n, m, m');
    if m.Done? {
      assert s'[m'.pos] == s[m.pos];
      if s[m.pos] == COMMA { MembersLater(s, s', d, m.pos, m'.pos, n); }
    }
  }

  // ---------- the byte order mark ----------

  const BOM: seq<byte> := [0xEF, 0xBB, 0xBF]

  /** A byte order mark in front of a text changes nothing but the offsets. */
  lemma MarkIsSkipped(s: Buffer, marked: Buffer, requireNul: bool)
    requires |s| > 1 && marked == BOM + s && SkipBom(s) == 0
    ensures ParseText(marked, requireNul) == Later(ParseText(s, requireNul), 3)
  {
    assert Behind(s, marked, 3);
    assert SkipBom(marked) == 3;
    SpaceLater(s, marked, 3, 0, 3);
    DocumentLater(s, marked, 3, requireNul, SkipSpace(s, 0), SkipSpace(marked, 3));
  }

  lemma {:induction false} DocumentLater(s: Buffer, s': Buffer, d: nat, requireNul: bool, start: nat, start': nat)
    requires Behind(s, s', d) && start == SkipSpace(s, SkipBom(s)) && start' == SkipSpace(s', SkipBom(s')) && start' == start + d
    ensures ParseText(s', requireNul) == Later(ParseText(s, requireNul), d)
  {
    var r, r' := P.Document(s, requireNul), P.Document(s', requireNul);
    var v := P.DocumentParts(s, requireNul, start, r);
    var v' := P.DocumentParts(s', requireNul, start', r');
    ValueLater(s, s', d, start, start', 0);
    if v.Done? { SpaceLater(s, s', d, v.pos, v'.pos); }
    P.OpenDocument(s, requireNul);
    P.OpenDocument(s', requireNul);
  }
}
