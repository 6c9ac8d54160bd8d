/**
 * The grammar read as steps. Each predicate says that `r` is what one function of the grammar gives
 * at `o`; each lemma takes such an answer apart into those of the parts that the parser reads next.
 */
module ParseSteps {
  import opened Bytes
  import opened JsonValue
  import opened StringLiteral
  import opened Numbers
  import G = Grammar

  /** The definitions below are used only for offsets that are mentioned in this. */
  ghost predicate Seen(o: nat) { true }

  /** parse_value at `o`. */
  ghost function Value(s: G.Buffer, o: nat, d: nat): Outcome<Json> {
    assert HiddenValue(s, o, d, if o < |s| then G.ParseValue(s, o, d) else Error(0));
    var r :| HiddenValue(s, o, d, r);
    r
  }

  ghost predicate HiddenValue(s: G.Buffer, o: nat, d: nat, r: Outcome<Json>) {
    forall p: nat {:trigger Seen(p)} :: Seen(p) && p == o && p < |s| ==> r == G.ParseValue(s, p, d)
  }

  lemma {:induction false} OpenValue(s: G.Buffer, o: nat, d: nat)
    requires o < |s|
    ensures Value(s, o, d) == G.ParseValue(s, o, d)
  {
    assert Seen(o);
  }

  ghost predicate ValueIs(s: G.Buffer, o: nat, d: nat, r: Outcome<Json>) { o < |s| && r == Value(s, o, d) }

  /** The elements behind the byte at `o`. */
  ghost function Elements(s: G.Buffer, o: nat, d: nat): Outcome<Items> {
    assert HiddenElements(s, o, d, if o + 1 < |s| then G.ParseElements(s, o, d) else Error(0));
    var r :| HiddenElements(s, o, d, r);
    r
  }

  ghost predicate HiddenElements(s: G.Buffer, o: nat, d: nat, r: Outcome<Items>) {
    forall p: nat {:trigger Seen(p)} :: Seen(p) && p == o && p + 1 < |s| ==> r == G.ParseElements(s, p, d)
  }

  lemma {:induction false} OpenElements(s: G.Buffer, o: nat, d: nat)
    requires o + 1 < |s|
    ensures Elements(s, o, d) == G.ParseElements(s, o, d)
  {
    assert Seen(o);
  }

  ghost predicate ElementsAre(s: G.Buffer, o: nat, d: nat, r: Outcome<Items>) { o + 1 < |s| && r == Elements(s, o, d) }

  /** The members behind the byte at `o`. */
  ghost function Members(s: G.Buffer, o: nat, d: nat): Outcome<Items> {
    assert HiddenMembers(s, o, d, if o + 1 < |s| then G.ParseMembers(s, o, d) else Error(0));
    var r :| HiddenMembers(s, o, d, r);
    r
  }

  ghost predicate HiddenMembers(s: G.Buffer, o: nat, d: nat, r: Outcome<Items>) {
    forall p: nat {:trigger Seen(p)} :: Seen(p) && p == o && p + 1 < |s| ==> r == G.ParseMembers(s, p, d)
  }

  lemma {:induction false} OpenMembers(s: G.Buffer, o: nat, d: nat)
    requires o + 1 < |s|
    ensures Members(s, o, d) == G.ParseMembers(s, o, d)
  {
    assert Seen(o);
  }

  ghost predicate MembersAre(s: G.Buffer, o: nat, d: nat, r: Outcome<Items>) { o + 1 < |s| && r == Members(s, o, d) }

  /** parse_string at `o`. */
  ghost function StringAt(s: G.Buffer, o: nat): Outcome<Text> {
    assert HiddenStringAt(s, o, if o < |s| then ParseString(s, o) else Error(0));
    var r :| HiddenStringAt(s, o, r);
    r
  }

  ghost predicate HiddenStringAt(s: G.Buffer, o: nat, r: Outcome<Text>) {
    forall p: nat {:trigger Seen(p)} :: Seen(p) && p == o && p < |s| ==> r == ParseString(s, p)
  }

  lemma OpenStringAt(s: G.Buffer, o: nat)
    requires o < |s|
    ensures StringAt(s, o) == ParseString(s, o)
  {
    assert Seen(o);
  }

  ghost predicate StringIs(s: G.Buffer, o: nat, r: Outcome<Text>) { o < |s| && r == StringAt(s, o) }

  /** A name with the space around it, from the byte before it up to its colon. */
  ghost function Name(s: G.Buffer, o: nat): Outcome<Text> {
    assert HiddenName(s, o, if o + 1 < |s| then G.ParseName(s, G.SkipSpace(s, o + 1)) else Error(0));
    var r :| HiddenName(s, o, r);
    r
  }

  ghost predicate HiddenName(s: G.Buffer, o: nat, r: Outcome<Text>) {
    forall p: nat {:trigger Seen(p)} :: Seen(p) && p == o && p + 1 < |s| ==> r == G.ParseName(s, G.SkipSpace(s, p + 1))
  }

  lemma {:induction false} OpenName(s: G.Buffer, o: nat)
    requires o + 1 < |s|
    ensures Name(s, o) == G.ParseName(s, G.SkipSpace(s, o + 1))
  {
    assert Seen(o);
  }

  ghost predicate NameIs(s: G.Buffer, o: nat, r: Outcome<Text>) { o + 1 < |s| && r == Name(s, o) }

  /** A value with the byte before it and the space around it. */
  ghost function Spaced(s: G.Buffer, o: nat, d: nat): Outcome<Json> {
    assert HiddenSpaced(s, o, d, if o + 1 < |s| then Trimmed(s, G.ParseValue(s, G.SkipSpace(s, o + 1), d)) else Error(0));
    var r :| HiddenSpaced(s, o, d, r);
    r
  }

  ghost predicate HiddenSpaced(s: G.Buffer, o: nat, d: nat, r: Outcome<Json>) {
    forall p: nat {:trigger Seen(p)} :: Seen(p) && p == o && p + 1 < |s| ==> r == Trimmed(s, G.ParseValue(s, G.SkipSpace(s, p + 1), d))
  }

  lemma {:induction false} OpenSpaced(s: G.Buffer, o: nat, d: nat)
    requires o + 1 < |s|
    ensures Spaced(s, o, d) == Trimmed(s, G.ParseValue(s, G.SkipSpace(s, o + 1), d))
  {
    assert Seen(o);
  }

  ghost predicate SpacedIs(s: G.Buffer, o: nat, d: nat, r: Outcome<Json>) { o + 1 < |s| && r == Spaced(s, o, d) }

  /** cJSON_ParseWithLengthOpts on the whole text. */
  ghost function Document(s: G.Buffer, requireNul: bool): Outcome<Json> {
    assert HiddenDocument(s, requireNul, G.ParseText(s, requireNul));
    var r :| HiddenDocument(s, requireNul, r);
    r
  }

  ghost predicate HiddenDocument(s: G.Buffer, requireNul: bool, r: Outcome<Json>) {
    forall p: nat {:trigger Seen(p)} :: Seen(p) && p == 0 ==> r == G.ParseText(s, requireNul)
  }

  lemma OpenDocument(s: G.Buffer, requireNul: bool)
    ensures Document(s, requireNul) == G.ParseText(s, requireNul)
  {
    assert Seen(0);
  }

  /** The three literal names are not found where another byte starts the value. */
  lemma NoWord(s: G.Buffer, o: nat)
    requires o < |s|
    ensures At(s, o, G.NULL_WORD) ==> s[o] == 110
    ensures At(s, o, G.FALSE_WORD) ==> s[o] == 102
    ensures At(s, o, G.TRUE_WORD) ==> s[o] == 116
  {
    if At(s, o, G.NULL_WORD) { AtByte(s, o, G.NULL_WORD, 0); }
    if At(s, o, G.FALSE_WORD) { AtByte(s, o, G.FALSE_WORD, 0); }
    if At(s, o, G.TRUE_WORD) { AtByte(s, o, G.TRUE_WORD, 0); }
  }

  /** A bracket leads to parse_array. */
  lemma {:induction false} OpenBracket(s: G.Buffer, o: nat, d: nat, r: Outcome<Json>)
    requires ValueIs(s, o, d, r) && s[o] == LBRACKET
    ensures r == G.ParseArray(s, o, d)
  {
    NoWord(s, o);
    OpenValue(s, o, d);
  }

  /** A brace leads to parse_object. */
  lemma {:induction false} OpenBrace(s: G.Buffer, o: nat, d: nat, r: Outcome<Json>)
    requires ValueIs(s, o, d, r) && s[o] == LBRACE
    ensures r == G.ParseObject(s, o, d)
  {
    NoWord(s, o);
    OpenValue(s, o, d);
  }

  /** The answer of parse_value on a string literal. */
  ghost function StringValue(t: Outcome<Text>): Outcome<Json> {
    match t case Error(pos) => Error(pos) case Done(text, pos) => Done(String(Some(text)), pos)
  }

  /** A quote leads to parse_string. */
  lemma OpenQuote(s: G.Buffer, o: nat, d: nat, r: Outcome<Json>)
    requires ValueIs(s, o, d, r) && s[o] == QUOTE
    ensures r == StringValue(StringAt(s, o)) && (r.Done? ==> r.pos < |s|)
  {
    NoWord(s, o);
    OpenValue(s, o, d);
    OpenStringAt(s, o);
  }

  /** A zero and an x lead to parse_number_hex. */
  lemma OpenHex(s: G.Buffer, o: nat, d: nat, r: Outcome<Json>)
    requires ValueIs(s, o, d, r) && s[o] == ZERO && o + 1 < |s| && s[o + 1] == LOWER_X
    ensures r == ParseHexNumber(s, o) && (r.Done? ==> r.pos < |s|)
  {
    NoWord(s, o);
    OpenValue(s, o, d);
    G.HexStops(s, o);
  }

  /** Any other digit or a minus leads to parse_number. */
  lemma OpenNumber(s: G.Buffer, o: nat, d: nat, r: Outcome<Json>)
    requires ValueIs(s, o, d, r) && G.StartsNumber(s[o]) && !(s[o] == ZERO && o + 1 < |s| && s[o + 1] == LOWER_X)
    ensures r == ParseNumber(s, o) && (r.Done? ==> r.pos < |s|)
  {
    NoWord(s, o);
    OpenValue(s, o, d);
    G.NumberStops(s, o);
  }

  /** Nothing is read of any other byte, unless a name starts there. */
  lemma OpenNothing(s: G.Buffer, o: nat, d: nat, r: Outcome<Json>)
    requires ValueIs(s, o, d, r) && forall w <- [G.NULL_WORD, G.FALSE_WORD, G.TRUE_WORD] :: !At(s, o, w)
    requires s[o] != QUOTE && s[o] != LBRACKET && s[o] != LBRACE && !G.StartsNumber(s[o])
    ensures r == Error(o)
  {
    OpenValue(s, o, d);
  }

  /** The answer with the space behind it. */
  ghost function Trimmed(s: G.Buffer, v: Outcome<Json>): Outcome<Json> {
    if v.Done? && v.pos < |s| then Done(v.value, G.SkipSpace(s, v.pos)) else v
  }

  /** A name, its colon and its value, as the list of this one member. */
  ghost function MemberAt(s: G.Buffer, o: nat, d: nat): Outcome<Items> {
    var n := Name(s, o);
    if n.Error? then Error(n.pos)
    else
      var w := Spaced(s, if n.pos > 0 then n.pos - 1 else 0, d);
      if w.Error? then Error(w.pos) else Done(Cons(Some(n.value), w.value, Nil), w.pos)
  }

  ghost predicate MemberIs(s: G.Buffer, o: nat, d: nat, r: Outcome<Items>) { o + 1 < |s| && r == MemberAt(s, o, d) }

  function Prefixed(xs: Items, r: Outcome<Items>): Outcome<Items> {
    match r case Error(pos) => Error(pos) case Done(items, pos) => Done(Append(xs, items), pos)
  }

  lemma PrefixedNone(r: Outcome<Items>)
    ensures Prefixed(Nil, r) == r
  {
  }

  lemma {:induction false} PrefixedTwice(xs: Items, ys: Items, r: Outcome<Items>)
    ensures Prefixed(xs, Prefixed(ys, r)) == Prefixed(Append(xs, ys), r)
  {
    if r.Done? { AppendAssociative(xs, ys, r.value); }
  }

  lemma PrefixedOne(name: Option<Text>, w: Outcome<Json>, rest: Outcome<Items>)
    ensures w.Done? && rest.Done? ==>
              Prefixed(Cons(name, w.value, Nil), rest) == Done(Cons(name, w.value, rest.value), rest.pos)
  {
    if rest.Done? {
      assert Append(Nil, rest.value) == rest.value;
    }
  }

  // ---------- the cases of the grammar ----------

  lemma {:induction false} BadElement(s: G.Buffer, o: nat, d: nat, r: Outcome<Items>, pos: nat)
    requires o + 1 < |s| && G.ParseValue(s, G.SkipSpace(s, o + 1), d) == Error(pos) && r == G.ParseElements(s, o, d)
    ensures r == Error(pos)
  {
  }

  lemma LastElement(s: G.Buffer, o: nat, d: nat, r: Outcome<Items>, value: Json, pos: nat, next: nat)
    requires o + 1 < |s| && G.ParseValue(s, G.SkipSpace(s, o + 1), d) == Done(value, pos) && r == G.ParseElements(s, o, d)
    requires pos < |s| && next == G.SkipSpace(s, pos) && s[next] != COMMA
    ensures r == Done(Cons(None, value, Nil), next)
  {
  }

  lemma MoreElements(s: G.Buffer, o: nat, d: nat, r: Outcome<Items>, value: Json, pos: nat, next: nat, rest: Outcome<Items>)
    requires o + 1 < |s| && G.ParseValue(s, G.SkipSpace(s, o + 1), d) == Done(value, pos) && r == G.ParseElements(s, o, d)
    requires pos < |s| && next == G.SkipSpace(s, pos) && s[next] == COMMA && next + 1 < |s| && rest == G.ParseElements(s, next, d)
    ensures r == if rest.Done? then Done(Cons(None, value, rest.value), rest.pos) else Error(rest.pos)
  {
  }

  lemma {:induction false} BadName(s: G.Buffer, o: nat, d: nat, r: Outcome<Items>, pos: nat)
    requires o + 1 < |s| && G.ParseName(s, G.SkipSpace(s, o + 1)) == Error(pos) && r == G.ParseMembers(s, o, d)
    ensures r == Error(pos)
  {
  }

  lemma {:induction false} GoodName(s: G.Buffer, o: nat, d: nat, r: Outcome<Items>, name: Text, start: nat)
    requires o + 1 < |s| && G.ParseName(s, G.SkipSpace(s, o + 1)) == Done(name, start) && r == G.ParseMembers(s, o, d)
    ensures o < start < |s| && r == G.ParseNamed(s, name, start, d)
  {
  }

  lemma BadMember(s: G.Buffer, d: nat, r: Outcome<Items>, name: Text, start: nat, pos: nat)
    requires start < |s| && r == G.ParseNamed(s, name, start, d)
    requires G.ParseValue(s, G.SkipSpace(s, start), d) == Error(pos)
    ensures r == Error(pos)
  {
  }

  lemma LastMember(s: G.Buffer, d: nat, r: Outcome<Items>, name: Text, start: nat, value: Json, pos: nat, next: nat)
    requires start < |s| && r == G.ParseNamed(s, name, start, d)
    requires G.ParseValue(s, G.SkipSpace(s, start), d) == Done(value, pos)
    requires pos < |s| && next == G.SkipSpace(s, pos) && s[next] != COMMA
    ensures r == Done(Cons(Some(name), value, Nil), next)
  {
  }

  lemma MoreMembers(s: G.Buffer, d: nat, r: Outcome<Items>, name: Text, start: nat, value: Json, pos: nat, next: nat,
                    rest: Outcome<Items>)
    requires start < |s| && r == G.ParseNamed(s, name, start, d)
    requires G.ParseValue(s, G.SkipSpace(s, start), d) == Done(value, pos)
    requires pos < |s| && next == G.SkipSpace(s, pos) && s[next] == COMMA && next + 1 < |s| && rest == G.ParseMembers(s, next, d)
    ensures r == if rest.Done? then Done(Cons(Some(name), value, rest.value), rest.pos) else Error(rest.pos)
  {
  }

  lemma {:induction false} ArrayBody(s: G.Buffer, o: nat, d: nat, inner: nat, before: nat, first: nat, r: Outcome<Json>, v: Outcome<Items>)
    requires inner == d + 1 && first == before + 1 && o + 1 < |s| && s[o] == LBRACKET && d < G.NESTING_LIMIT && first == G.SkipSpace(s, o + 1)
    requires r == G.ParseArray(s, o, d) && v == G.ParseElements(s, before, inner)
    ensures s[first] == RBRACKET ==> r == Done(Array(Nil), first + 1)
    ensures s[first] != RBRACKET ==> ArrayEnds(s, v, r)
  {
  }

  /** The bracket behind the elements. */
  ghost predicate ArrayEnds(s: G.Buffer, v: Outcome<Items>, r: Outcome<Json>) {
    if v.Error? then r == Error(v.pos)
    else v.pos < |s| && r == if s[v.pos] == RBRACKET then Done(Array(v.value), v.pos + 1) else Error(v.pos)
  }

  lemma {:induction false} ObjectBody(s: G.Buffer, o: nat, d: nat, inner: nat, before: nat, first: nat, r: Outcome<Json>, v: Outcome<Items>)
    requires inner == d + 1 && first == before + 1 && o + 1 < |s| && s[o] == LBRACE && d < G.NESTING_LIMIT && first == G.SkipSpace(s, o + 1)
    requires r == G.ParseObject(s, o, d) && v == G.ParseMembers(s, before, inner)
    ensures s[first] == RBRACE ==> r == Done(Object(Nil), first + 1)
    ensures s[first] != RBRACE ==> ObjectEnds(s, v, r)
  {
  }

  /** The brace behind the members. */
  ghost predicate ObjectEnds(s: G.Buffer, v: Outcome<Items>, r: Outcome<Json>) {
    if v.Error? then r == Error(v.pos)
    else v.pos < |s| && r == if s[v.pos] == RBRACE then Done(Object(v.value), v.pos + 1) else Error(v.pos)
  }

  // ---------- taking answers apart ----------

  lemma DocumentParts(s: G.Buffer, requireNul: bool, start: nat, r: Outcome<Json>) returns (v: Outcome<Json>)
    requires r == Document(s, requireNul) && start == G.SkipSpace(s, G.SkipBom(s))
    ensures ValueIs(s, start, 0, v) && v.pos <= |s|
    ensures if v.Error? then r == Error(if v.pos < |s| then v.pos else |s| - 1)
      else v.pos < |s|
           && var end := if requireNul then G.SkipSpace(s, v.pos) else v.pos;
              r == if requireNul && s[end] != NUL then Error(end) else Done(v.value, end)
  {
    OpenDocument(s, requireNul);
    OpenValue(s, start, 0);
    v := Value(s, start, 0);
  }

  lemma SpacedParts(s: G.Buffer, o: nat, d: nat, r: Outcome<Json>) returns (v: Outcome<Json>)
    requires SpacedIs(s, o, d, r)
    ensures ValueIs(s, G.SkipSpace(s, o + 1), d, v) && v.pos <= |s|
    ensures if v.Error? then r == v else v.pos < |s| && r == Done(v.value, G.SkipSpace(s, v.pos))
  {
    OpenSpaced(s, o, d);
    OpenValue(s, G.SkipSpace(s, o + 1), d);
    v := Value(s, G.SkipSpace(s, o + 1), d);
  }

  lemma TooDeep(s: G.Buffer, o: nat, d: nat, r: Outcome<Json>)
    requires ValueIs(s, o, d, r) && (s[o] == LBRACKET || s[o] == LBRACE) && d >= G.NESTING_LIMIT
    ensures r == Error(o)
  {
    if s[o] == LBRACKET { OpenBracket(s, o, d, r); } else { OpenBrace(s, o, d, r); }
  }

  lemma {:induction false} ArrayParts(s: G.Buffer, o: nat, d: nat, first: nat, r: Outcome<Json>) returns (v: Outcome<Items>)
    requires ValueIs(s, o, d, r) && s[o] == LBRACKET && d < G.NESTING_LIMIT && o + 1 < |s| && first == G.SkipSpace(s, o + 1)
    ensures if s[first] == RBRACKET then r == Done(Array(Nil), first + 1)
      else ElementsAre(s, first - 1, d + 1, v) && v.pos <= |s| && (v.Done? ==> v.pos < |s|)
           && ArrayEnds(s, v, r)
  {
    var inner, before: nat := d + 1, first - 1;
    v := ArrayInside(s, o, d, inner, before, first, r);
  }

  lemma {:induction false} ArrayInside(s: G.Buffer, o: nat, d: nat, inner: nat, before: nat, first: nat, r: Outcome<Json>)
    returns (v: Outcome<Items>)
    requires inner == d + 1 && first == before + 1
    requires ValueIs(s, o, d, r) && s[o] == LBRACKET && d < G.NESTING_LIMIT && o + 1 < |s| && first == G.SkipSpace(s, o + 1)
    ensures if s[first] == RBRACKET then r == Done(Array(Nil), first + 1)
      else ElementsAre(s, before, inner, v) && v.pos <= |s| && (v.Done? ==> v.pos < |s|) && ArrayEnds(s, v, r)
  {
    OpenBracket(s, o, d, r);
    OpenElements(s, before, inner);
    v := Elements(s, before, inner);
    ArrayBody(s, o, d, inner, before, first, r, v);
  }

  lemma {:induction false} ObjectParts(s: G.Buffer, o: nat, d: nat, first: nat, r: Outcome<Json>) returns (v: Outcome<Items>)
    requires ValueIs(s, o, d, r) && s[o] == LBRACE && d < G.NESTING_LIMIT && o + 1 < |s| && first == G.SkipSpace(s, o + 1)
    ensures if s[first] == RBRACE then r == Done(Object(Nil), first + 1)
      else MembersAre(s, first - 1, d + 1, v) && v.pos <= |s| && (v.Done? ==> v.pos < |s|)
           && ObjectEnds(s, v, r)
  {
    var inner, before: nat := d + 1, first - 1;
    v := ObjectInside(s, o, d, inner, before, first, r);
  }

  lemma {:induction false} ObjectInside(s: G.Buffer, o: nat, d: nat, inner: nat, before: nat, first: nat, r: Outcome<Json>)
    returns (v: Outcome<Items>)
    requires inner == d + 1 && first == before + 1
    requires ValueIs(s, o, d, r) && s[o] == LBRACE && d < G.NESTING_LIMIT && o + 1 < |s| && first == G.SkipSpace(s, o + 1)
    ensures if s[first] == RBRACE then r == Done(Object(Nil), first + 1)
      else MembersAre(s, before, inner, v) && v.pos <= |s| && (v.Done? ==> v.pos < |s|) && ObjectEnds(s, v, r)
  {
    OpenBrace(s, o, d, r);
    OpenMembers(s, before, inner);
    v := Members(s, before, inner);
    ObjectBody(s, o, d, inner, before, first, r, v);
  }

  /** The elements from `o` are the one read next and, after a comma, those that `rest` says. */
  lemma ElementsParts(s: G.Buffer, o: nat, d: nat, r: Outcome<Items>) returns (w: Outcome<Json>, rest: Outcome<Items>)
    requires ElementsAre(s, o, d, r)
    ensures SpacedIs(s, o, d, w) && w.pos <= |s| && (w.Done? ==> o < w.pos < |s|)
    ensures if w.Error? then r == Error(w.pos)
      else if s[w.pos] == COMMA then
        ElementsAre(s, w.pos, d, rest) && w.pos + 1 < |s| && r == Prefixed(Cons(None, w.value, Nil), rest)
      else r == Done(Cons(None, w.value, Nil), w.pos)
  {
    OpenElements(s, o, d);
    OpenSpaced(s, o, d);
    w, rest := Spaced(s, o, d), r;
    var v := G.ParseValue(s, G.SkipSpace(s, o + 1), d);
    if v.Error? {
      BadElement(s, o, d, r, v.pos);
    } else if s[w.pos] == COMMA {
      OpenElements(s, w.pos, d);
      rest := Elements(s, w.pos, d);
      MoreElements(s, o, d, r, v.value, v.pos, w.pos, rest);
      PrefixedOne(None, w, rest);
    } else {
      LastElement(s, o, d, r, v.value, v.pos, w.pos);
    }
  }

  lemma MembersParts(s: G.Buffer, o: nat, d: nat, r: Outcome<Items>) returns (m: Outcome<Items>, rest: Outcome<Items>)
    requires MembersAre(s, o, d, r)
    ensures MemberIs(s, o, d, m) && m.pos <= |s| && (m.Done? ==> o < m.pos < |s|)
    ensures if m.Error? then r == Error(m.pos)
      else if s[m.pos] == COMMA then
        MembersAre(s, m.pos, d, rest) && m.pos + 1 < |s| && r == Prefixed(m.value, rest)
      else r == Done(m.value, m.pos)
  {
    OpenMembers(s, o, d);
    OpenName(s, o);
    var n := G.ParseName(s, G.SkipSpace(s, o + 1));
    m, rest := MemberAt(s, o, d), r;
    if n.Error? {
      BadName(s, o, d, r, n.pos);
    } else {
      GoodName(s, o, d, r, n.value, n.pos);
      rest := ValueParts(s, o, d, n, r);
    }
  }

  lemma SpacedBehind(s: G.Buffer, o: nat, d: nat) returns (w: Outcome<Json>)
    requires 0 < o < |s|
    ensures w == Spaced(s, o - 1, d) == Trimmed(s, G.ParseValue(s, G.SkipSpace(s, o), d))
  {
    var p := o - 1;
    OpenSpaced(s, p, d);
    assert p + 1 == o;
    w := Spaced(s, p, d);
  }

  /** The rest of a member whose name was read. */
  lemma ValueParts(s: G.Buffer, o: nat, d: nat, n: Outcome<Text>, r: Outcome<Items>) returns (rest: Outcome<Items>)
    requires n.Done? && n == Name(s, o) && o < n.pos < |s| && r == G.ParseNamed(s, n.value, n.pos, d)
    ensures var m := MemberAt(s, o, d);
      && m.pos <= |s| && (m.Done? ==> o < m.pos < |s|)
      && if m.Error? then r == Error(m.pos)
         else if s[m.pos] == COMMA then
           MembersAre(s, m.pos, d, rest) && m.pos + 1 < |s| && r == Prefixed(m.value, rest)
         else r == Done(m.value, m.pos)
  {
    var v := G.ParseValue(s, G.SkipSpace(s, n.pos), d);
    var w := SpacedBehind(s, n.pos, d);
    rest := r;
    if v.Error? {
      BadMember(s, d, r, n.value, n.pos, v.pos);
    } else if s[w.pos] == COMMA {
      OpenMembers(s, w.pos, d);
      rest := Members(s, w.pos, d);
      MoreMembers(s, d, r, n.value, n.pos, v.value, v.pos, w.pos, rest);
      PrefixedOne(Some(n.value), w, rest);
    } else {
      LastMember(s, d, r, n.value, n.pos, v.value, v.pos, w.pos);
    }
  }

  /** The string of a name: then the colon is looked for. */
  lemma NameParts(s: G.Buffer, o: nat, r: Outcome<Text>) returns (t: Outcome<Text>)
    requires NameIs(s, o, r)
    ensures StringIs(s, G.SkipSpace(s, o + 1), t) && t.pos <= |s| && (t.Done? ==> t.pos < |s|)
    ensures if t.Error? then r == t
      else var colon := G.SkipSpace(s, t.pos);
        r == if s[colon] == COLON then Done(t.value, colon + 1) else Error(colon)
  {
    OpenName(s, o);
    var start := G.SkipSpace(s, o + 1);
    OpenStringAt(s, start);
    t := StringAt(s, start);
  }

  lemma MemberParts(s: G.Buffer, o: nat, d: nat, r: Outcome<Items>) returns (n: Outcome<Text>, w: Outcome<Json>)
    requires MemberIs(s, o, d, r)
    ensures NameIs(s, o, n)
    ensures if n.Error? then r == Error(n.pos)
      else n.pos > o + 1 && SpacedIs(s, n.pos - 1, d, w)
           && r == if w.Error? then Error(w.pos) else Done(Cons(Some(n.value), w.value, Nil), w.pos)
  {
    OpenName(s, o);
    n := Name(s, o);
    w := Spaced(s, if n.pos > 0 then n.pos - 1 else 0, d);
  }
}
