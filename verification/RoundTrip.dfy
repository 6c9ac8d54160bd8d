/** Parsing the text of a faithful tree gives the tree back, exactly when it is not nested too deeply. */
module RoundTrip {
  import opened Bytes
  import opened JsonValue
  import opened StringLiteral
  import opened Numbers
  import opened Grammar
  import P = ParseSteps
  import opened JsonText

  /**
   * Trees the text determines: no raw or invalid nodes, strings and member names present, no names
   * in arrays, and valueint derived from the number as cJSON_CreateNumber derives it.
   */
  predicate Faithful(t: Json)
    decreases t, 1
  {
    match t
    case Invalid => false
    case Raw(_) => false
    case Number(value, intValue) => PlainInteger(value) && intValue == Saturate(value)
    case String(text) => text.Some?
    case Array(items) => AllFaithful(items, false)
    case Object(items) => AllFaithful(items, true)
    case _ => true
  }

  predicate AllFaithful(items: Items, named: bool)
    decreases items, 0
  {
    items.Cons? ==> items.name.Some? == named && Faithful(items.head) && AllFaithful(items.tail, named)
  }

  /** The first byte of a printed value: not blank, and it selects the right branch of parse_value. */
  lemma {:induction false} FirstByte(t: Json, format: bool, d: nat)
    requires Faithful(t)
    ensures |Rendered(t, format, d)| > 0
    ensures var c := Rendered(t, format, d)[0];
      match t
      case Null => c == 110
      case False => c == 102
      case True => c == 116
      case Number(_, _) => StartsNumber(c)
      case String(_) => c == QUOTE
      case Array(_) => c == LBRACKET
      case Object(_) => c == LBRACE
  {
    if t.Number? {
      var n := t.value.Floor;
      DigitsAreDigits(if n < 0 then -n else n);
    }
  }

  lemma {:induction false} SkipsNothing(s: Buffer, o: nat)
    requires o < |s| && s[o] > 32
    ensures SkipSpace(s, o) == o
  {
  }

  predicate Blank(w: Text) { forall i :: 0 <= i < |w| ==> w[i] <= 32 }

  /** Skipping from the start of a blank text is skipping from its end. */
  lemma {:induction false} SkipsOver(s: Buffer, a: nat, b: nat, w: Text)
    requires Spans(s, a, b, w) && Blank(w) && b < |s|
    ensures SkipSpace(s, a) == SkipSpace(s, b)
    decreases w
  {
    if w != [] {
      assert w == [w[0]] + w[1..];
      var m := SpanSplit(s, a, b, [w[0]], w[1..]);
      SpanByte(s, a, m, [w[0]]);
      SkipsOver(s, m, b, w[1..]);
    }
  }

  /** What parsing must give for a value whose nesting ends at or beyond the limit. */
  ghost predicate ReadBack(r: Outcome<Json>, value: Json, end: nat, depth: nat) {
    if depth <= NESTING_LIMIT then r == Done(value, end) else r.Error?
  }

  ghost predicate ReadItems(r: Outcome<Items>, items: Items, end: nat, depth: nat) {
    if depth <= NESTING_LIMIT then r == Done(items, end) else r.Error?
  }

  // ---------- what the parser does, given what its parts do ----------

  lemma ElementsStep(items: Items, d: nat, s: Buffer, o: nat, start: nat, end: nat, close: nat, v: Outcome<Json>, rest: Outcome<Items>)
    returns (r: Outcome<Items>)
    requires items.Cons? && items.name == None && o + 1 < |s| && start == SkipSpace(s, o + 1) && d <= NESTING_LIMIT
    requires end < |s| && s[end] > 32
    requires P.ValueIs(s, start, d, v) && ReadBack(v, items.head, end, d + Nesting(items.head))
    requires if items.tail.Nil? then s[end] != COMMA && close == end
             else s[end] == COMMA && end + 1 < |s|
                  && P.ElementsAre(s, end, d, rest) && ReadItems(rest, items.tail, close, d + NestingOf(items.tail))
    ensures P.ElementsAre(s, o, d, r) && ReadItems(r, items, close, d + NestingOf(items))
  {
    r := P.Elements(s, o, d);
    var w, rest' := P.ElementsParts(s, o, d, r);
    var v' := P.SpacedParts(s, o, d, w);
    SkipsNothing(s, end);
    if v.Done? && items.tail.Cons? {
      P.PrefixedOne(None, w, rest);
    } else {
      assert NestingOf(items.tail) == 0 || v.Error?;
    }
  }

  lemma MembersStep(items: Items, d: nat, s: Buffer, o: nat, from: nat, start: nat, end: nat, close: nat,
                    v: Outcome<Json>, rest: Outcome<Items>)
    returns (r: Outcome<Items>)
    requires items.Cons? && items.name.Some? && o + 1 < |s| && d <= NESTING_LIMIT
    requires P.NameIs(s, o, Done(items.name.value, from)) && 0 < from < |s| && start == SkipSpace(s, from) && end < |s|
    requires P.ValueIs(s, start, d, v) && ReadBack(v, items.head, end, d + Nesting(items.head))
    requires if items.tail.Nil? then s[SkipSpace(s, end)] != COMMA && close == SkipSpace(s, end)
             else s[end] == COMMA && end + 1 < |s|
                  && P.MembersAre(s, end, d, rest) && ReadItems(rest, items.tail, close, d + NestingOf(items.tail))
    ensures P.MembersAre(s, o, d, r) && ReadItems(r, items, close, d + NestingOf(items))
  {
    r := P.Members(s, o, d);
    var m, rest' := P.MembersParts(s, o, d, r);
    var n, w := P.MemberParts(s, o, d, m);
    var v' := P.SpacedParts(s, from - 1, d, w);
    if w.Done? && items.tail.Cons? {
      SkipsNothing(s, end);
      P.PrefixedOne(items.name, w, rest);
    } else {
      assert NestingOf(items.tail) == 0 || w.Error?;
    }
  }

  lemma ArrayStep(s: Buffer, o: nat, d: nat, inner: nat, items: Items, close: nat, e: Outcome<Items>) returns (r: Outcome<Json>)
    requires inner == d + 1 && o + 1 < |s| && s[o] == LBRACKET && close < |s| && s[close] == RBRACKET && SkipSpace(s, o + 1) == o + 1
    requires if items.Nil? then o + 1 == close
             else s[o + 1] != RBRACKET && (d < NESTING_LIMIT ==>
                    P.ElementsAre(s, o, inner, e) && ReadItems(e, items, close, inner + NestingOf(items)))
    ensures P.ValueIs(s, o, d, r) && ReadBack(r, Array(items), close + 1, inner + NestingOf(items))
  {
    r := P.Value(s, o, d);
    if d >= NESTING_LIMIT {
      P.TooDeep(s, o, d, r);
    } else {
      var e' := P.ArrayParts(s, o, d, o + 1, r);
    }
  }

  lemma ObjectStep(s: Buffer, o: nat, d: nat, inner: nat, items: Items, first: nat, brace: nat, m: Outcome<Items>)
    returns (r: Outcome<Json>)
    requires inner == d + 1 && o + 1 < |s| && s[o] == LBRACE && brace < |s| && s[brace] == RBRACE && first == SkipSpace(s, o + 1)
    requires if items.Nil? then first == brace
             else s[first] == QUOTE && (d < NESTING_LIMIT ==>
                    P.MembersAre(s, first - 1, inner, m) && ReadItems(m, items, brace, inner + NestingOf(items)))
    ensures P.ValueIs(s, o, d, r) && ReadBack(r, Object(items), brace + 1, inner + NestingOf(items))
  {
    r := P.Value(s, o, d);
    if d >= NESTING_LIMIT {
      P.TooDeep(s, o, d, r);
    } else {
      var m' := P.ObjectParts(s, o, d, first, r);
    }
  }

  // ---------- where the parts of a printed container stand ----------

  lemma ArrayParts(items: Items, format: bool, d: nat, inner: nat, s: Buffer, o: nat, end: nat) returns (close: nat)
    requires inner == d + 1 && Spans(s, o, end, Rendered(Array(items), format, d))
    ensures o + 1 < |s| && Spans(s, o + 1, close, RenderedElements(items, format, inner))
    ensures close < |s| && s[close] == RBRACKET && end == close + 1
  {
    var body := RenderedElements(items, format, inner);
    var open := SpanSplit(s, o, end, [LBRACKET], body + [RBRACKET]);
    close := SpanSplit(s, open, end, body, [RBRACKET]);
    SpanByte(s, close, end, [RBRACKET]);
  }

  lemma ElementsParts(items: Items, format: bool, d: nat, s: Buffer, start: nat, close: nat) returns (end: nat, next: nat)
    requires items.Cons? && Spans(s, start, close, RenderedElements(items, format, d))
    ensures Spans(s, start, end, Rendered(items.head, format, d))
    ensures Spans(s, end, next, ArrayComma(format, items.tail.Cons?))
    ensures Spans(s, next, close, RenderedElements(items.tail, format, d))
  {
    var comma, rest := ArrayComma(format, items.tail.Cons?), RenderedElements(items.tail, format, d);
    end := SpanSplit(s, start, close, Rendered(items.head, format, d), comma + rest);
    next := SpanSplit(s, end, close, comma, rest);
  }

  lemma ObjectParts(items: Items, format: bool, d: nat, inner: nat, s: Buffer, o: nat, end: nat) returns (start: nat, close: nat, brace: nat)
    requires inner == d + 1 && Spans(s, o, end, Rendered(Object(items), format, d))
    ensures Spans(s, o, start, Opening(format)) && Spans(s, start, close, RenderedMembers(items, format, inner))
    ensures Spans(s, close, brace, Indent(format, d)) && brace < |s| && s[brace] == RBRACE && end == brace + 1
  {
    var body, indent := RenderedMembers(items, format, inner), Indent(format, d);
    start := SpanSplit(s, o, end, Opening(format), body + Closing(format, d));
    close := SpanSplit(s, start, end, body, Closing(format, d));
    assert Closing(format, d) == indent + [RBRACE];
    brace := SpanSplit(s, close, end, indent, [RBRACE]);
    SpanByte(s, brace, end, [RBRACE]);
  }

  lemma MembersParts(items: Items, format: bool, d: nat, s: Buffer, start: nat, close: nat) returns (end: nat, next: nat)
    requires items.Cons? && Spans(s, start, close, RenderedMembers(items, format, d))
    ensures Spans(s, start, end, Member(items.name, Rendered(items.head, format, d), format, d))
    ensures Spans(s, end, next, AfterMember(format, items.tail.Cons?))
    ensures Spans(s, next, close, RenderedMembers(items.tail, format, d))
  {
    var after, rest := AfterMember(format, items.tail.Cons?), RenderedMembers(items.tail, format, d);
    end := SpanSplit(s, start, close, Member(items.name, Rendered(items.head, format, d), format, d), after + rest);
    next := SpanSplit(s, end, close, after, rest);
  }

  lemma MemberParts(name: Option<Text>, w: Text, format: bool, d: nat, s: Buffer, start: nat, end: nat)
    returns (quoted: nat, colon: nat, value: nat)
    requires Spans(s, start, end, Member(name, w, format, d))
    ensures Spans(s, start, quoted, Indent(format, d)) && Spans(s, quoted, colon, Quoted(name))
    ensures Spans(s, colon, value, AfterName(format)) && Spans(s, value, end, w)
  {
    quoted := SpanSplit(s, start, end, Indent(format, d), Quoted(name) + (AfterName(format) + w));
    colon := SpanSplit(s, quoted, end, Quoted(name), AfterName(format) + w);
    value := SpanSplit(s, colon, end, AfterName(format), w);
  }

  // ---------- the parts read back ----------

  lemma {:induction false} ValueComesBack(t: Json, format: bool, d: nat, s: Buffer, o: nat, end: nat) returns (r: Outcome<Json>)
    requires Faithful(t) && d <= NESTING_LIMIT
    requires Spans(s, o, end, Rendered(t, format, d)) && end < |s| && Delimiter(s[end])
    ensures P.ValueIs(s, o, d, r) && ReadBack(r, t, end, d + Nesting(t))
    decreases t, 1
  {
    FirstByte(t, format, d);
    SpanByte(s, o, end, Rendered(t, format, d));
    if t.Array? {
      var inner := d + 1;
      var close := ArrayParts(t.items, format, d, inner, s, o, end);
      r := ArrayComesBack(t.items, format, d, inner, s, o, close);
    } else if t.Object? {
      var inner := d + 1;
      var start, close, brace := ObjectParts(t.items, format, d, inner, s, o, end);
      r := ObjectComesBack(t.items, format, d, inner, s, o, start, close, brace);
    } else {
      ScalarReadsBack(t, format, d, s, o, end);
      P.OpenValue(s, o, d);
      r := P.Value(s, o, d);
    }
  }

  lemma {:induction false} ScalarReadsBack(t: Json, format: bool, d: nat, s: Buffer, o: nat, end: nat)
    requires Faithful(t) && !t.Array? && !t.Object?
    requires Spans(s, o, end, Rendered(t, format, d)) && end < |s| && Delimiter(s[end])
    ensures ParseValue(s, o, d) == Done(t, end) && Nesting(t) == 0
  {
    FirstByte(t, format, d);
    SpanByte(s, o, end, Rendered(t, format, d));
    P.NoWord(s, o);
    match t {
      case Null => case False => case True =>
      case Number(value, _) =>
        DecimalRun(s, o, value.Floor);
        DecimalReadsBack(s, o, value.Floor);
      case String(text) => QuotedReadsBack(s, o, text.value);
    }
  }

  lemma {:induction false} ArrayComesBack(items: Items, format: bool, d: nat, inner: nat, s: Buffer, o: nat, close: nat)
    returns (r: Outcome<Json>)
    requires AllFaithful(items, false) && d <= NESTING_LIMIT && inner == d + 1
    requires o + 1 < |s| && s[o] == LBRACKET && close < |s| && s[close] == RBRACKET
    requires Spans(s, o + 1, close, RenderedElements(items, format, inner))
    ensures P.ValueIs(s, o, d, r) && ReadBack(r, Array(items), close + 1, inner + NestingOf(items))
    decreases items, 1
  {
    var e: Outcome<Items> := Error(0);
    if items.Cons? {
      var start := o + 1;
      ElementsStart(items, format, inner, s, start, close);
      if d < NESTING_LIMIT {
        e := ElementsReadBack(items, format, inner, s, o, start, close);
      }
    } else {
      SkipsNothing(s, close);
    }
    r := ArrayStep(s, o, d, inner, items, close, e);
  }

  lemma {:induction false} ElementsStart(items: Items, format: bool, d: nat, s: Buffer, start: nat, close: nat)
    requires items.Cons? && AllFaithful(items, false) && Spans(s, start, close, RenderedElements(items, format, d))
    ensures start < |s| && s[start] > 32 && s[start] != RBRACKET && SkipSpace(s, start) == start
  {
    var end, next := ElementsParts(items, format, d, s, start, close);
    FirstByte(items.head, format, d);
    SpanByte(s, start, end, Rendered(items.head, format, d));
    SkipsNothing(s, start);
  }

  lemma {:induction false} ElementsReadBack(items: Items, format: bool, d: nat, s: Buffer, o: nat, start: nat, close: nat)
    returns (r: Outcome<Items>)
    requires items.Cons? && AllFaithful(items, false) && d <= NESTING_LIMIT
    requires Spans(s, start, close, RenderedElements(items, format, d)) && close < |s| && s[close] == RBRACKET
    requires o + 1 < |s| && SkipSpace(s, o + 1) == start
    ensures P.ElementsAre(s, o, d, r) && ReadItems(r, items, close, d + NestingOf(items))
    decreases items, 0
  {
    var end, next := ElementsParts(items, format, d, s, start, close);
    var rest: Outcome<Items> := Error(0);
    if items.tail.Cons? {
      CommaStart(items.tail, format, d, s, end, next, close);
      rest := ElementsReadBack(items.tail, format, d, s, end, next, close);
    }
    var v := ValueComesBack(items.head, format, d, s, start, end);
    r := ElementsStep(items, d, s, o, start, end, close, v, rest);
  }

  lemma {:induction false} CommaStart(items: Items, format: bool, d: nat, s: Buffer, end: nat, next: nat, close: nat)
    requires items.Cons? && AllFaithful(items, false) && Spans(s, end, next, ArrayComma(format, true))
    requires Spans(s, next, close, RenderedElements(items, format, d)) && close < |s|
    ensures end + 1 < |s| && s[end] == COMMA && SkipSpace(s, end + 1) == next
  {
    SpanByte(s, end, next, ArrayComma(format, true));
    ElementsStart(items, format, d, s, next, close);
  }

  /** The name and colon of a printed member are read, up to the value. */
  lemma {:induction false} NameReadsBack(name: Text, format: bool, s: Buffer, quoted: nat, colon: nat, value: nat)
    requires Spans(s, quoted, colon, Quoted(Some(name))) && Spans(s, colon, value, AfterName(format))
    requires value < |s| && s[value] > 32
    ensures ParseName(s, quoted) == Done(name, colon + 1) && SkipSpace(s, colon + 1) == value
  {
    QuotedReadsBack(s, quoted, name);
    ColonSkips(format, s, colon, value);
  }

  lemma ColonSkips(format: bool, s: Buffer, colon: nat, value: nat)
    requires Spans(s, colon, value, AfterName(format)) && value < |s| && s[value] > 32
    ensures colon + 1 < |s| && s[colon] == COLON && SkipSpace(s, colon) == colon && SkipSpace(s, colon + 1) == value
  {
    SpanByte(s, colon, value, AfterName(format));
    SkipsNothing(s, colon);
    SkipsNothing(s, value);
    if format { assert AfterName(format) == [COLON, TAB]; }
  }

  lemma {:induction false} ObjectComesBack(items: Items, format: bool, d: nat, inner: nat, s: Buffer, o: nat, start: nat, close: nat,
                                           brace: nat)
    returns (r: Outcome<Json>)
    requires AllFaithful(items, true) && d <= NESTING_LIMIT && inner == d + 1
    requires o < |s| && s[o] == LBRACE && brace < |s| && s[brace] == RBRACE
    requires Spans(s, o, start, Opening(format)) && Spans(s, start, close, RenderedMembers(items, format, inner))
    requires Spans(s, close, brace, Indent(format, d))
    ensures P.ValueIs(s, o, d, r) && ReadBack(r, Object(items), brace + 1, inner + NestingOf(items))
    decreases items, 2
  {
    var first := ObjectStart(items, format, inner, d, s, o, start, close, brace);
    var m: Outcome<Items> := Error(0);
    if d < NESTING_LIMIT && items.Cons? {
      m := MembersFrom(items, format, inner, d, s, first, start, close, brace);
    }
    r := ObjectStep(s, o, d, inner, items, first, brace, m);
  }

  /** Reading the members from the byte in front of their first visible one. */
  lemma {:induction false} MembersFrom(items: Items, format: bool, d: nat, outer: nat, s: Buffer, first: nat, start: nat, close: nat, brace: nat)
    returns (r: Outcome<Items>)
    requires items.Cons? && AllFaithful(items, true) && d <= NESTING_LIMIT
    requires Spans(s, start, close, RenderedMembers(items, format, d))
    requires Spans(s, close, brace, Indent(format, outer)) && brace < |s| && s[brace] == RBRACE
    requires 0 < first < |s| && start < |s| && SkipSpace(s, first) == SkipSpace(s, start)
    ensures P.MembersAre(s, first - 1, d, r) && ReadItems(r, items, brace, d + NestingOf(items))
    decreases items, 1
  {
    var before := first - 1;
    assert before + 1 == first;
    r := MembersReadBack(items, format, d, outer, s, before, start, close, brace);
  }

  lemma ObjectStart(items: Items, format: bool, d: nat, outer: nat, s: Buffer, o: nat, start: nat, close: nat, brace: nat) returns (first: nat)
    requires Spans(s, o, start, Opening(format)) && Spans(s, start, close, RenderedMembers(items, format, d))
    requires Spans(s, close, brace, Indent(format, outer)) && brace < |s| && s[brace] == RBRACE
    ensures o + 1 < |s| && first == SkipSpace(s, o + 1) && first > o && start < |s|
    ensures items.Cons? ==> s[first] == QUOTE && SkipSpace(s, first) == SkipSpace(s, start)
    ensures items.Nil? ==> first == brace
  {
    SpanByte(s, o, start, Opening(format));
    MembersStart(items, format, d, outer, s, start, close, brace);
    first := SkipSpace(s, o + 1);
    if items.Cons? { SkipsNothing(s, first); }
  }

  /** Skipping from here leads to the first member's name, or to the closing brace. */
  lemma {:induction false} MembersStart(items: Items, format: bool, d: nat, outer: nat, s: Buffer, start: nat, close: nat, brace: nat)
    requires Spans(s, start, close, RenderedMembers(items, format, d))
    requires Spans(s, close, brace, Indent(format, outer)) && brace < |s| && s[brace] == RBRACE
    ensures start < |s|
    ensures items.Cons? ==> s[SkipSpace(s, start)] == QUOTE
    ensures items.Nil? ==> SkipSpace(s, start) == brace
  {
    if items.Cons? {
      var end, next := MembersParts(items, format, d, s, start, close);
      var quoted, colon, value := MemberParts(items.name, Rendered(items.head, format, d), format, d, s, start, end);
      SpanByte(s, quoted, colon, Quoted(items.name));
      SkipsOver(s, start, quoted, Indent(format, d));
      SkipsNothing(s, quoted);
    } else {
      SkipsOver(s, close, brace, Indent(format, outer));
      SkipsNothing(s, brace);
    }
  }

  lemma {:induction false} MembersReadBack(items: Items, format: bool, d: nat, outer: nat, s: Buffer, o: nat, start: nat, close: nat, brace: nat)
    returns (r: Outcome<Items>)
    requires items.Cons? && AllFaithful(items, true) && d <= NESTING_LIMIT
    requires Spans(s, start, close, RenderedMembers(items, format, d))
    requires Spans(s, close, brace, Indent(format, outer)) && brace < |s| && s[brace] == RBRACE
    requires o + 1 < |s| && start < |s| && SkipSpace(s, o + 1) == SkipSpace(s, start)
    ensures P.MembersAre(s, o, d, r) && ReadItems(r, items, brace, d + NestingOf(items))
    decreases items, 0
  {
    var end, next := MembersParts(items, format, d, s, start, close);
    AfterSkips(items.tail, format, d, outer, s, end, next, close, brace);
    var rest: Outcome<Items> := Error(0);
    if items.tail.Cons? {
      rest := MembersReadBack(items.tail, format, d, outer, s, end, next, close, brace);
    }
    r := MemberReadsBack(items, format, d, s, o, start, end, brace, rest);
  }

  lemma AfterSkips(tail: Items, format: bool, d: nat, outer: nat, s: Buffer, end: nat, next: nat, close: nat, brace: nat)
    requires Spans(s, end, next, AfterMember(format, tail.Cons?)) && Spans(s, next, close, RenderedMembers(tail, format, d))
    requires Spans(s, close, brace, Indent(format, outer)) && brace < |s| && s[brace] == RBRACE
    ensures end < |s| && next < |s| && Delimiter(s[end])
    ensures tail.Cons? ==> end + 1 < |s| && s[end] == COMMA && SkipSpace(s, end + 1) == SkipSpace(s, next)
    ensures tail.Nil? ==> SkipSpace(s, end) == brace
  {
    MembersStart(tail, format, d, outer, s, next, close, brace);
    if tail.Cons? { CommaSkips(format, s, end, next); } else { NewlineSkips(format, s, end, next); }
    assert s[SkipSpace(s, end)] == COMMA || SkipSpace(s, end) == brace;
  }

  /** A comma, and the newline behind it if there is one. */
  lemma CommaSkips(format: bool, s: Buffer, end: nat, next: nat)
    requires Spans(s, end, next, AfterMember(format, true)) && next < |s|
    ensures end + 1 < |s| && s[end] == COMMA && SkipSpace(s, end + 1) == SkipSpace(s, next) && SkipSpace(s, end) == end
  {
    var w := AfterMember(format, true);
    SpanByte(s, end, next, w);
    if format { assert w == [COMMA, NEWLINE]; }
  }

  lemma {:induction false} NewlineSkips(format: bool, s: Buffer, end: nat, next: nat)
    requires Spans(s, end, next, AfterMember(format, false)) && next < |s|
    ensures end < |s| && SkipSpace(s, end) == SkipSpace(s, next) && (end == next || s[end] == NEWLINE)
  {
    var w := AfterMember(format, false);
    if format {
      assert w == [NEWLINE];
      SpanByte(s, end, next, w);
    }
  }

  lemma MemberNameReadsBack(name: Text, w: Text, format: bool, d: nat, s: Buffer, o: nat, start: nat, end: nat)
    returns (from: nat, value: nat)
    requires Spans(s, start, end, Member(Some(name), w, format, d)) && |w| > 0 && w[0] > 32
    requires o + 1 < |s| && start < |s| && SkipSpace(s, o + 1) == SkipSpace(s, start)
    ensures 0 < from < |s| && P.NameIs(s, o, Done(name, from)) && SkipSpace(s, from) == value
    ensures Spans(s, value, end, w)
  {
    var quoted, colon;
    quoted, colon, value := MemberParts(Some(name), w, format, d, s, start, end);
    from := colon + 1;
    SpanByte(s, value, end, w);
    NameReadsBack(name, format, s, quoted, colon, value);
    QuoteIsReached(name, format, d, s, start, quoted, colon);
    NameIsRead(name, s, o, quoted, from);
  }

  lemma {:induction false} NameIsRead(name: Text, s: Buffer, o: nat, quoted: nat, from: nat)
    requires o + 1 < |s| && quoted == SkipSpace(s, o + 1) && ParseName(s, quoted) == Done(name, from)
    ensures P.NameIs(s, o, Done(name, from))
  {
    P.OpenName(s, o);
  }

  /** Behind the indentation stands the quote of the name. */
  lemma {:induction false} QuoteIsReached(name: Text, format: bool, d: nat, s: Buffer, start: nat, quoted: nat, colon: nat)
    requires Spans(s, start, quoted, Indent(format, d)) && Spans(s, quoted, colon, Quoted(Some(name)))
    ensures quoted < |s| && start < |s| && SkipSpace(s, start) == quoted
  {
    SpanByte(s, quoted, colon, Quoted(Some(name)));
    SkipsOver(s, start, quoted, Indent(format, d));
    SkipsNothing(s, quoted);
  }

  lemma {:induction false} MemberReadsBack(items: Items, format: bool, d: nat, s: Buffer, o: nat, start: nat, end: nat, brace: nat,
                                           rest: Outcome<Items>)
    returns (r: Outcome<Items>)
    requires items.Cons? && AllFaithful(items, true) && d <= NESTING_LIMIT
    requires Spans(s, start, end, Member(items.name, Rendered(items.head, format, d), format, d))
    requires brace < |s| && s[brace] == RBRACE && end < |s| && Delimiter(s[end])
    requires o + 1 < |s| && start < |s| && SkipSpace(s, o + 1) == SkipSpace(s, start)
    requires if items.tail.Nil? then SkipSpace(s, end) == brace
             else s[end] == COMMA && end + 1 < |s|
                  && P.MembersAre(s, end, d, rest) && ReadItems(rest, items.tail, brace, d + NestingOf(items.tail))
    ensures P.MembersAre(s, o, d, r) && ReadItems(r, items, brace, d + NestingOf(items))
    decreases items.head, 2
  {
    var w := Rendered(items.head, format, d);
    FirstByte(items.head, format, d);
    var from, value := MemberNameReadsBack(items.name.value, w, format, d, s, o, start, end);
    var v := ValueComesBack(items.head, format, d, s, value, end);
    r := MembersStep(items, d, s, o, from, value, end, brace, v, rest);
  }

  /** The whole text of a faithful tree. */
  lemma {:induction false} FaithfulTextComesBack(t: Json, format: bool, requireNul: bool)
    requires Faithful(t)
    ensures var s := Rendered(t, format, 0) + [NUL];
      if Nesting(t) <= NESTING_LIMIT
      then ParseText(s, requireNul) == Done(t, |s| - 1)
      else ParseText(s, requireNul).Error?
  {
    var w := Rendered(t, format, 0);
    var s: Buffer := w + [NUL];
    FirstByte(t, format, 0);
    assert s[0] == w[0] && s[|w|] == NUL;
    SkipsNothing(s, 0);
    AtSlice(s, 0, w);
    var r := ValueComesBack(t, format, 0, s, 0, |w|);
    P.OpenValue(s, 0, 0);
    assert SkipSpace(s, |w|) == |w|;
  }
}
