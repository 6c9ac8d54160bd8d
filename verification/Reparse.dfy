/** What parsing gives for the text of any tree that prints, and printing for any text that parses. */
module Reparse {
  import opened Bytes
  import opened JsonValue
  import opened StringLiteral
  import opened Numbers
  import opened Grammar
  import opened JsonText
  import opened RoundTrip
  import P = ParseSteps

  /** Trees whose text is JSON: printable ones without raw text, with plain numbers. */
  predicate Textual(t: Json)
    decreases t, 1
  {
    match t
    case Invalid => false
    case Raw(_) => false
    case Number(value, _) => PlainInteger(value)
    case Array(items) => AllTextual(items)
    case Object(items) => AllTextual(items)
    case _ => true
  }

  predicate AllTextual(items: Items)
    decreases items, 0
  {
    items.Cons? ==> Textual(items.head) && AllTextual(items.tail)
  }

  lemma {:induction false} TextualIsPrintable(t: Json)
    requires Textual(t)
    ensures PlainNumbers(t) && Printable(t)
    decreases t, 1
  {
    if t.Array? { AllTextualIsPrintable(t.items); }
    if t.Object? { AllTextualIsPrintable(t.items); }
  }

  lemma {:induction false} AllTextualIsPrintable(items: Items)
    requires AllTextual(items)
    ensures AllPlainNumbers(items) && AllPrintable(items)
    decreases items, 0
  {
    if items.Cons? {
      TextualIsPrintable(items.head);
      AllTextualIsPrintable(items.tail);
    }
  }

  // ---------- what the text does not tell ----------

  /** A NULL string prints like an empty one. */
  function Present(text: Option<Text>): Option<Text> { if text.Some? then text else Some([]) }

  /**
   * The tree that the text tells: valueint follows from the number, a missing string or member name is an
   * empty one, and elements of arrays have no names.
   */
  function Normal(t: Json): Json
    decreases t, 1
  {
    match t
    case Number(value, _) => Number(value, Saturate(value))
    case String(text) => String(Present(text))
    case Array(items) => Array(NormalItems(items, false))
    case Object(items) => Object(NormalItems(items, true))
    case _ => t
  }

  function NormalItems(items: Items, named: bool): Items
    decreases items, 0
  {
    match items
    case Nil => Nil
    case Cons(name, v, tail) => Cons(if named then Present(name) else None, Normal(v), NormalItems(tail, named))
  }

  lemma {:induction false} NormalContainers(items: Items)
    ensures Normal(Array(items)) == Array(NormalItems(items, false))
    ensures Normal(Object(items)) == Object(NormalItems(items, true))
  {
  }

  /** The text does tell a faithful tree from all others. */
  lemma {:induction false} FaithfulIsNormal(t: Json)
    requires Faithful(t)
    ensures Normal(t) == t && Textual(t)
    decreases t, 1
  {
    if t.Array? { AllFaithfulIsNormal(t.items, false); }
    if t.Object? { AllFaithfulIsNormal(t.items, true); }
  }

  lemma {:induction false} AllFaithfulIsNormal(items: Items, named: bool)
    requires AllFaithful(items, named)
    ensures NormalItems(items, named) == items && AllTextual(items)
    decreases items, 0
  {
    if items.Cons? {
      FaithfulIsNormal(items.head);
      AllFaithfulIsNormal(items.tail, named);
    }
  }

  lemma {:induction false} NormalIsFaithful(t: Json)
    requires Textual(t)
    ensures Faithful(Normal(t)) && Nesting(Normal(t)) == Nesting(t)
    decreases t, 1
  {
    if t.Array? { AllNormalIsFaithful(t.items, false); }
    if t.Object? { AllNormalIsFaithful(t.items, true); }
  }

  lemma {:induction false} AllNormalIsFaithful(items: Items, named: bool)
    requires AllTextual(items)
    ensures AllFaithful(NormalItems(items, named), named) && NestingOf(NormalItems(items, named)) == NestingOf(items)
    decreases items, 0
  {
    if items.Cons? {
      NormalIsFaithful(items.head);
      AllNormalIsFaithful(items.tail, named);
    }
  }

  lemma QuotedPresent(text: Option<Text>)
    ensures Quoted(Present(text)) == Quoted(text)
  {
  }

  /** A tree and its normal form have the same text. */
  lemma {:induction false} NormalPrintsTheSame(t: Json, format: bool, d: nat)
    ensures Rendered(Normal(t), format, d) == Rendered(t, format, d)
    decreases t, 1
  {
    match t
    case String(text) => QuotedPresent(text);
    case Array(items) => NormalElements(items, format, d + 1);
    case Object(items) => NormalMembers(items, format, d + 1);
    case _ =>
  }

  lemma {:induction false} NormalElements(items: Items, format: bool, d: nat)
    ensures RenderedElements(NormalItems(items, false), format, d) == RenderedElements(items, format, d)
    decreases items, 0
  {
    if items.Cons? {
      NormalPrintsTheSame(items.head, format, d);
      NormalElements(items.tail, format, d);
    }
  }

  lemma {:induction false} NormalMembers(items: Items, format: bool, d: nat)
    ensures RenderedMembers(NormalItems(items, true), format, d) == RenderedMembers(items, format, d)
    decreases items, 0
  {
    if items.Cons? {
      QuotedPresent(items.name);
      NormalPrintsTheSame(items.head, format, d);
      NormalMembers(items.tail, format, d);
    }
  }

  // ---------- printed trees ----------

  /** A printed value in any text is read as its normal form, where a delimiter follows it. */
  lemma ValueReadsBack(t: Json, format: bool, d: nat, s: Buffer, o: nat, end: nat) returns (r: Outcome<Json>)
    requires Textual(t) && d <= NESTING_LIMIT
    requires Spans(s, o, end, Rendered(t, format, d)) && end < |s| && Delimiter(s[end])
    ensures P.ValueIs(s, o, d, r) && ReadBack(r, Normal(t), end, d + Nesting(t))
  {
    NormalIsFaithful(t);
    NormalPrintsTheSame(t, format, d);
    r := ValueComesBack(Normal(t), format, d, s, o, end);
  }

  /** Elements between brackets. */
  lemma ArrayReadsBack(items: Items, format: bool, d: nat, inner: nat, s: Buffer, o: nat, close: nat) returns (r: Outcome<Json>)
    requires AllTextual(items) && d <= NESTING_LIMIT && inner == d + 1
    requires o + 1 < |s| && s[o] == LBRACKET && close < |s| && s[close] == RBRACKET
    requires Spans(s, o + 1, close, RenderedElements(items, format, inner))
    ensures P.ValueIs(s, o, d, r) && ReadBack(r, Normal(Array(items)), close + 1, inner + NestingOf(items))
  {
    AllNormalIsFaithful(items, false);
    NormalElements(items, format, inner);
    r := ArrayComesBack(NormalItems(items, false), format, d, inner, s, o, close);
    NormalContainers(items);
  }

  /** Members between braces, with any layout. */
  lemma ObjectReadsBack(items: Items, format: bool, d: nat, inner: nat, s: Buffer, o: nat, start: nat, close: nat, brace: nat)
    returns (r: Outcome<Json>)
    requires AllTextual(items) && d <= NESTING_LIMIT && inner == d + 1
    requires o < |s| && s[o] == LBRACE && brace < |s| && s[brace] == RBRACE
    requires Spans(s, o, start, Opening(format)) && Spans(s, start, close, RenderedMembers(items, format, inner))
    requires Spans(s, close, brace, Indent(format, d))
    ensures P.ValueIs(s, o, d, r) && ReadBack(r, Normal(Object(items)), brace + 1, inner + NestingOf(items))
  {
    var normal := NormalItems(items, true);
    AllNormalIsFaithful(items, true);
    NormalMembers(items, format, inner);
    r := ObjectComesBack(normal, format, d, inner, s, o, start, close, brace);
    NormalContainers(items);
  }

  /** cJSON_Parse on what cJSON_Print or cJSON_PrintUnformatted wrote. */
  lemma {:induction false} PrintedTextParsesBack(t: Json, format: bool, requireNul: bool)
    requires Textual(t)
    ensures var s := Rendered(t, format, 0) + [NUL];
      if Nesting(t) <= NESTING_LIMIT
      then ParseText(s, requireNul) == Done(Normal(t), |s| - 1)
      else ParseText(s, requireNul).Error?
  {
    NormalIsFaithful(t);
    NormalPrintsTheSame(t, format, 0);
    FaithfulTextComesBack(Normal(t), format, requireNul);
  }

  /** Printing loses no more than the normal form does: two trees have the same text exactly if they have the same one. */
  lemma {:induction false} TextTellsNormalForm(t: Json, u: Json, format: bool)
    requires Textual(t) && Nesting(t) <= NESTING_LIMIT && Textual(u) && Nesting(u) <= NESTING_LIMIT
    ensures Rendered(t, format, 0) == Rendered(u, format, 0) <==> Normal(t) == Normal(u)
  {
    PrintedTextParsesBack(t, format, false);
    PrintedTextParsesBack(u, format, false);
    NormalPrintsTheSame(t, format, 0);
    NormalPrintsTheSame(u, format, 0);
  }

  // ---------- accepted texts ----------

  /** Strings are there, and names exactly in objects; there is no raw text. */
  predicate WellFormed(t: Json)
    decreases t, 1
  {
    match t
    case Invalid => false
    case Raw(_) => false
    case String(text) => text.Some?
    case Array(items) => AllWellFormed(items, false)
    case Object(items) => AllWellFormed(items, true)
    case _ => true
  }

  predicate AllWellFormed(items: Items, named: bool)
    decreases items, 0
  {
    items.Cons? ==> items.name.Some? == named && WellFormed(items.head) && AllWellFormed(items.tail, named)
  }

  lemma {:induction false} WellFormedIsTextual(t: Json)
    requires WellFormed(t) && PlainNumbers(t)
    ensures Textual(t)
    decreases t, 1
  {
    if t.Array? { AllWellFormedIsTextual(t.items, false); }
    if t.Object? { AllWellFormedIsTextual(t.items, true); }
  }

  lemma {:induction false} AllWellFormedIsTextual(items: Items, named: bool)
    requires AllWellFormed(items, named) && AllPlainNumbers(items)
    ensures AllTextual(items)
    decreases items, 0
  {
    if items.Cons? {
      WellFormedIsTextual(items.head);
      AllWellFormedIsTextual(items.tail, named);
    }
  }

  /** The value of an answer at depth `d`, if there is one, is well formed and not nested beyond the limit. */
  ghost predicate Fits(r: Outcome<Json>, d: nat) {
    r.Done? ==> WellFormed(r.value) && d + Nesting(r.value) <= NESTING_LIMIT
  }

  ghost predicate AllFit(r: Outcome<Items>, named: bool, d: nat) {
    r.Done? ==> AllWellFormed(r.value, named) && d + NestingOf(r.value) <= NESTING_LIMIT
  }

  lemma FitsInFront(name: Option<Text>, w: Outcome<Json>, rest: Outcome<Items>, named: bool, d: nat)
    requires w.Done? && Fits(w, d) && AllFit(rest, named, d) && name.Some? == named
    ensures AllFit(P.Prefixed(Cons(name, w.value, Nil), rest), named, d)
  {
    P.PrefixedOne(name, w, rest);
  }

  lemma {:induction false} ScalarFits(s: Buffer, o: nat, d: nat)
    requires o < |s| && d <= NESTING_LIMIT && s[o] != LBRACKET && s[o] != LBRACE
    ensures Fits(ParseValue(s, o, d), d)
  {
    P.NoWord(s, o);
  }

  lemma {:induction false} ValueFits(s: Buffer, o: nat, d: nat)
    requires o < |s| && d <= NESTING_LIMIT
    ensures Fits(P.Value(s, o, d), d)
    decreases |s| - o, 5
  {
    var r := P.Value(s, o, d);
    if s[o] != LBRACKET && s[o] != LBRACE {
      ScalarFits(s, o, d);
      P.OpenValue(s, o, d);
    } else if d >= NESTING_LIMIT {
      P.TooDeep(s, o, d, r);
    } else if s[o] == LBRACKET {
      ArrayFits(s, o, d, r);
    } else {
      ObjectFits(s, o, d, r);
    }
  }

  lemma {:induction false} ArrayFits(s: Buffer, o: nat, d: nat, r: Outcome<Json>)
    requires P.ValueIs(s, o, d, r) && s[o] == LBRACKET && d < NESTING_LIMIT
    ensures Fits(r, d)
    decreases |s| - o, 4
  {
    var first, inner := SkipSpace(s, o + 1), d + 1;
    var v := P.ArrayParts(s, o, d, first, r);
    if s[first] != RBRACKET { ElementsFit(s, first - 1, inner, v); }
  }

  lemma {:induction false} ObjectFits(s: Buffer, o: nat, d: nat, r: Outcome<Json>)
    requires P.ValueIs(s, o, d, r) && s[o] == LBRACE && d < NESTING_LIMIT
    ensures Fits(r, d)
    decreases |s| - o, 4
  {
    var first, inner := SkipSpace(s, o + 1), d + 1;
    var v := P.ObjectParts(s, o, d, first, r);
    if s[first] != RBRACE { MembersFit(s, first - 1, inner, v); }
  }

  lemma {:induction false} SpacedFits(s: Buffer, o: nat, d: nat, r: Outcome<Json>)
    requires P.SpacedIs(s, o, d, r) && d <= NESTING_LIMIT
    ensures Fits(r, d)
    decreases |s| - o, 1
  {
    var v := P.SpacedParts(s, o, d, r);
    ValueFits(s, SkipSpace(s, o + 1), d);
  }

  lemma {:induction false} ElementsFit(s: Buffer, o: nat, d: nat, r: Outcome<Items>)
    requires P.ElementsAre(s, o, d, r) && d <= NESTING_LIMIT
    ensures AllFit(r, false, d)
    decreases |s| - o, 3
  {
    var w, rest := P.ElementsParts(s, o, d, r);
    SpacedFits(s, o, d, w);
    if w.Done? && s[w.pos] == COMMA {
      ElementsFit(s, w.pos, d, rest);
      FitsInFront(None, w, rest, false, d);
    }
  }

  lemma {:induction false} MemberFits(s: Buffer, o: nat, d: nat, r: Outcome<Items>) returns (name: Option<Text>, w: Outcome<Json>)
    requires P.MemberIs(s, o, d, r) && d <= NESTING_LIMIT
    ensures r.Done? ==> w.Done? && name.Some? && r.value == Cons(name, w.value, Nil) && Fits(w, d)
    decreases |s| - o, 2
  {
    var n;
    n, w := P.MemberParts(s, o, d, r);
    name := None;
    if n.Done? {
      name := Some(n.value);
      SpacedFits(s, n.pos - 1, d, w);
    }
  }

  lemma {:induction false} MembersFit(s: Buffer, o: nat, d: nat, r: Outcome<Items>)
    requires P.MembersAre(s, o, d, r) && d <= NESTING_LIMIT
    ensures AllFit(r, true, d)
    decreases |s| - o, 3
  {
    var m, rest := P.MembersParts(s, o, d, r);
    var name, w := MemberFits(s, o, d, m);
    if m.Done? && s[m.pos] == COMMA {
      MembersFit(s, m.pos, d, rest);
      FitsInFront(name, w, rest, true, d);
    }
  }

  /** What is parsed from any text has its strings, names exactly in objects, and at most the nesting allowed. */
  lemma ParsedIsWellFormed(s: Buffer, requireNul: bool)
    ensures var r := ParseText(s, requireNul); r.Done? ==> WellFormed(r.value) && Nesting(r.value) <= NESTING_LIMIT
  {
    var start := SkipSpace(s, SkipBom(s));
    var r := P.Document(s, requireNul);
    var v := P.DocumentParts(s, requireNul, start, r);
    ValueFits(s, start, 0);
    P.OpenDocument(s, requireNul);
  }

  /** Every text the parser accepts, printed again, parses to the normal form of what was read from it. */
  lemma {:induction false} AcceptedTextReprints(s: Buffer, format: bool, requireNul: bool)
    ensures var r := ParseText(s, requireNul);
      r.Done? && PlainNumbers(r.value) ==>
        var again := Rendered(r.value, format, 0) + [NUL];
        ParseText(again, requireNul) == Done(Normal(r.value), |again| - 1)
  {
    ParsedIsWellFormed(s, requireNul);
    var r := ParseText(s, requireNul);
    if r.Done? && PlainNumbers(r.value) {
      WellFormedIsTextual(r.value);
      PrintedTextParsesBack(r.value, format, requireNul);
    }
  }
}
