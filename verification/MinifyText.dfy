/** What minifying does to minified text and to printed trees. */
module MinifyText {
  import opened Bytes
  import opened JsonValue
  import opened StringLiteral
  import opened Numbers
  import opened Grammar
  import opened JsonText
  import opened Minify

  // ---------- idempotence ----------

  lemma {:induction false} StringIsWhole(t: seq<byte>, x: seq<byte>)
    requires StringLength(t) < |t| || x == []
    ensures StringLength(t[..StringLength(t)] + x) == StringLength(t)
    decreases |t|
  {
    var n := StringLength(t);
    var u := t[..n] + x;
    if t == [] || t[0] == QUOTE {
    } else if t[0] == BACKSLASH && |t| > 1 && t[1] == QUOTE {
      assert u[2..] == t[2..][..StringLength(t[2..])] + x;
      StringIsWhole(t[2..], x);
    } else {
      assert u[1..] == t[1..][..StringLength(t[1..])] + x;
      StringIsWhole(t[1..], x);
    }
  }

  /** A kept piece, put in front of any text, is kept again and changes nothing behind it. */
  lemma {:induction false} KeptAgain(t: seq<byte>, x: seq<byte>)
    requires t != [] && Turn(t).1 > 0 && (Turn(t).1 < |t| || x == [])
    ensures Minified(t[..Turn(t).1] + x) == t[..Turn(t).1] + Minified(x)
  {
    var kept := Turn(t).1;
    var u := t[..kept] + x;
    if t[0] == QUOTE {
      assert u[1..] == t[1..][..StringLength(t[1..])] + x;
      StringIsWhole(t[1..], x);
    }
    assert Turn(u) == (kept, kept);
    assert u[..kept] == t[..kept] && u[kept..] == x;
  }

  lemma {:induction false} MinifyIsIdempotent(t: seq<byte>)
    ensures Minified(Minified(t)) == Minified(t)
    decreases |t|
  {
    if t != [] {
      var (read, kept) := Turn(t);
      MinifyIsIdempotent(t[read..]);
      if kept > 0 {
        assert kept == |t| ==> t[read..] == [] && Minified(t[read..]) == [];
        KeptAgain(t, Minified(t[read..]));
      } else {
        assert t[..0] + Minified(t[read..]) == Minified(t[read..]);
      }
    }
  }

  // ---------- printed trees ----------

  /** Trees with no raw text in them, whose print is therefore known. */
  predicate Plain(t: Json)
    decreases t, 1
  {
    match t
    case Invalid => false
    case Raw(_) => false
    case Number(value, _) => PlainInteger(value)
    case Array(items) => AllPlain(items)
    case Object(items) => AllPlain(items)
    case _ => true
  }

  predicate AllPlain(items: Items)
    decreases items, 0
  {
    items.Cons? ==> Plain(items.head) && AllPlain(items.tail)
  }

  predicate EndsInBackslash(text: Option<Text>) {
    text.Some? && |text.value| > 0 && text.value[|text.value| - 1] == BACKSLASH
  }

  /** No string and no member name ends in a backslash. */
  predicate Safe(t: Json)
    decreases t, 1
  {
    match t
    case String(text) => !EndsInBackslash(text)
    case Array(items) => AllSafe(items, false)
    case Object(items) => AllSafe(items, true)
    case _ => true
  }

  predicate AllSafe(items: Items, named: bool)
    decreases items, 0
  {
    items.Cons? ==> !(named && EndsInBackslash(items.name)) && Safe(items.head) && AllSafe(items.tail, named)
  }

  /** At most the very last token, with nothing but closing brackets behind it, ends in a backslash. */
  predicate SafeButLast(t: Json)
    decreases t, 1
  {
    match t
    case String(_) => true
    case Array(items) => AllSafeButLast(items)
    case _ => Safe(t)
  }

  predicate AllSafeButLast(items: Items)
    decreases items, 0
  {
    match items
    case Nil => true
    case Cons(_, v, Nil) => SafeButLast(v)
    case Cons(_, v, tail) => Safe(v) && AllSafeButLast(tail)
  }

  lemma {:induction false} DropByte(c: byte, x: seq<byte>)
    requires Space(c)
    ensures Minified([c] + x) == Minified(x)
  {
    assert ([c] + x)[1..] == x;
    assert ([c] + x)[..0] + Minified(x) == Minified(x);
  }

  lemma {:induction false} KeepByte(c: byte, x: seq<byte>)
    requires !Space(c) && c != SLASH && c != QUOTE
    ensures Minified([c] + x) == [c] + Minified(x)
  {
    assert ([c] + x)[1..] == x && ([c] + x)[..1] == [c];
  }

  /** Text outside strings is kept without its blanks. */
  function Unblanked(w: Text): Text {
    if w == [] then [] else (if Space(w[0]) then [] else [w[0]]) + Unblanked(w[1..])
  }

  predicate Outside(w: Text) {
    forall i :: 0 <= i < |w| ==> w[i] != SLASH && w[i] != QUOTE
  }

  lemma {:induction false} OutsideStrings(w: Text, x: seq<byte>)
    requires Outside(w)
    ensures Minified(w + x) == Unblanked(w) + Minified(x)
    decreases w
  {
    if w == [] {
      assert w + x == x && [] + Minified(x) == Minified(x);
    } else {
      var c, rest := w[0], w[1..];
      OutsideStrings(rest, x);
      OutsideByte(c, rest + x, Unblanked(rest), Minified(x));
      Regroup([c], rest, x);
      assert w == [c] + rest;
    }
  }

  lemma {:induction false} OutsideByte(c: nonzero, rest: seq<byte>, u: Text, m: seq<byte>)
    requires c != SLASH && c != QUOTE && Minified(rest) == u + m
    ensures Minified([c] + rest) == (if Space(c) then [] else [c]) + u + m
  {
    if Space(c) {
      DropByte(c, rest);
      assert [] + u + m == u + m;
    } else {
      KeepByte(c, rest);
      Regroup([c], u, m);
    }
  }

  lemma {:induction false} NoBlanks(w: Text)
    requires forall i :: 0 <= i < |w| ==> !Space(w[i])
    ensures Unblanked(w) == w
  {
    if w != [] { NoBlanks(w[1..]); assert w == [w[0]] + w[1..]; }
  }

  lemma {:induction false} AllBlanks(w: Text)
    requires forall i :: 0 <= i < |w| ==> Space(w[i])
    ensures Unblanked(w) == []
  {
    if w != [] { AllBlanks(w[1..]); }
  }

  /** Inside a string the minifier copies an escaped text, and it sees the closing quote unless the text ends in a backslash. */
  lemma {:induction false} EscapedLength(t: Text, x: seq<byte>)
    ensures StringLength(Escape(t) + ([QUOTE] + x))
            == |Escape(t)| + 1 + (if EndsInBackslash(Some(t)) then StringLength(x) else 0)
    decreases t
  {
    var y := [QUOTE] + x;
    if t == [] {
      assert Escape(t) + y == y;
    } else {
      var e, rest := EscapeByte(t[0]), Escape(t[1..]) + y;
      assert Escape(t) + y == e + rest;
      EscapedLength(t[1..], x);
      if t[0] == BACKSLASH && |t| == 1 {
        BackslashLast(x);
        assert e + rest == [BACKSLASH, BACKSLASH] + y;
      } else {
        if |t| > 1 { StartsOtherwise(t[1], Escape(t[2..])); }
        UnitLength(t[0], rest);
      }
    }
  }

  lemma {:induction false} BackslashLast(x: seq<byte>)
    ensures StringLength([BACKSLASH, BACKSLASH] + ([QUOTE] + x)) == 3 + StringLength(x)
  {
    var s := [BACKSLASH, BACKSLASH] + ([QUOTE] + x);
    assert s[1..][2..] == x;
  }

  lemma StartsOtherwise(c: nonzero, rest: Text)
    ensures (EscapeByte(c) + rest)[0] != QUOTE
  {
  }

  lemma {:induction false} OrdinaryLength(w: seq<byte>, rest: seq<byte>)
    requires forall i :: 0 <= i < |w| ==> w[i] != QUOTE && w[i] != BACKSLASH
    ensures StringLength(w + rest) == |w| + StringLength(rest)
    decreases w
  {
    if w == [] {
      assert w + rest == rest;
    } else {
      assert (w + rest)[1..] == w[1..] + rest;
      OrdinaryLength(w[1..], rest);
    }
  }

  lemma {:induction false} EscapedPair(c: byte, rest: seq<byte>)
    requires c == BACKSLASH ==> |rest| > 0 && rest[0] != QUOTE
    ensures StringLength([BACKSLASH, c] + rest) == 2 + StringLength(rest)
  {
    var s := [BACKSLASH, c] + rest;
    assert s[2..] == rest && s[1..][1..] == rest;
  }

  lemma {:induction false} EscapedCode(w: seq<byte>, rest: seq<byte>)
    requires |w| > 1 && w[0] == BACKSLASH && forall i :: 1 <= i < |w| ==> w[i] != QUOTE && w[i] != BACKSLASH
    ensures StringLength(w + rest) == |w| + StringLength(rest)
  {
    var s := w + rest;
    assert s[1..] == w[1..] + rest && s[1] == w[1];
    OrdinaryLength(w[1..], rest);
  }

  /** One escaped character inside a string is copied whole, if a backslash is not left before a quote. */
  lemma {:induction false} UnitLength(c: nonzero, rest: seq<byte>)
    requires c == BACKSLASH ==> |rest| > 0 && rest[0] != QUOTE
    ensures StringLength(EscapeByte(c) + rest) == |EscapeByte(c)| + StringLength(rest)
  {
    var e := EscapeByte(c);
    EscapeForm(c);
    if |e| == 1 {
      OrdinaryLength(e, rest);
    } else if |e| == 2 {
      EscapedPair(e[1], rest);
    } else {
      EscapedCode(e, rest);
    }
  }

  lemma EscapeForm(c: nonzero)
    ensures var e := EscapeByte(c);
      match |e|
      case 1 => e == [c] && c != QUOTE && c != BACKSLASH
      case 2 => e == [BACKSLASH, e[1]] && (e[1] == BACKSLASH ==> c == BACKSLASH)
      case _ => |e| == 6 && e[0] == BACKSLASH && forall i :: 1 <= i < |e| ==> e[i] != QUOTE && e[i] != BACKSLASH
  {
  }

  // ---------- safe trees ----------

  lemma {:induction false} MinifiedString(u: seq<byte>, n: nat)
    requires u != [] && u[0] == QUOTE && n == 1 + StringLength(u[1..])
    ensures Minified(u) == u[..n] + Minified(u[n..])
  {
  }

  lemma {:induction false} QuotedLength(text: Option<Text>, x: seq<byte>)
    ensures 1 + StringLength((Quoted(text) + x)[1..])
            == |Quoted(text)| + (if EndsInBackslash(text) then StringLength(x) else 0)
  {
    var t := if text.Some? then text.value else [];
    assert Quoted(text) == [QUOTE] + Escape(t) + [QUOTE];
    assert (Quoted(text) + x)[1..] == Escape(t) + ([QUOTE] + x);
    EscapedLength(t, x);
  }

  /** A string whose end is seen. */
  lemma {:induction false} ClosedString(w: seq<byte>, x: seq<byte>)
    requires w != [] && w[0] == QUOTE && 1 + StringLength((w + x)[1..]) == |w|
    ensures Minified(w + x) == w + Minified(x)
  {
    MinifiedString(w + x, |w|);
    assert (w + x)[..|w|] == w && (w + x)[|w|..] == x;
  }

  /** A string that takes in what follows it. */
  lemma {:induction false} OpenString(w: seq<byte>, x: seq<byte>, n: nat)
    requires w != [] && w[0] == QUOTE && n <= |x| && 1 + StringLength((w + x)[1..]) == |w| + n
    ensures Minified(w + x) == w + (x[..n] + Minified(x[n..]))
  {
    var all, m := w + x, |w| + n;
    MinifiedString(all, m);
    CutInside(w, x, n, all, m);
    Regroup(w, x[..n], Minified(x[n..]));
  }

  lemma CutInside(w: seq<byte>, x: seq<byte>, n: nat, all: seq<byte>, m: nat)
    requires n <= |x| && all == w + x && m == |w| + n
    ensures all[..m] == w + x[..n] && all[m..] == x[n..]
  {
  }

  lemma {:induction false} QuotedKept(text: Option<Text>, x: seq<byte>)
    requires !EndsInBackslash(text)
    ensures Minified(Quoted(text) + x) == Quoted(text) + Minified(x)
  {
    QuotedLength(text, x);
    ClosedString(Quoted(text), x);
  }

  /** A string that ends in a backslash stays open, and what follows it is copied like its contents. */
  lemma {:induction false} QuotedLeftOpen(text: Option<Text>, x: seq<byte>)
    requires EndsInBackslash(text)
    ensures Minified(Quoted(text) + x) == Quoted(text) + (x[..StringLength(x)] + Minified(x[StringLength(x)..]))
  {
    QuotedLength(text, x);
    OpenString(Quoted(text), x, StringLength(x));
  }

  /** Layout text loses its blanks and is otherwise kept. */
  lemma {:induction false} Layout(formatted: Text, plain: Text, x: seq<byte>)
    requires Outside(formatted) && Unblanked(formatted) == plain
    ensures Minified(formatted + x) == plain + Minified(x)
  {
    OutsideStrings(formatted, x);
  }

  lemma TwoBytes(a: nonzero, b: nonzero)
    ensures Unblanked([a, b]) == (if Space(a) then [] else [a]) + (if Space(b) then [] else [b])
  {
    UnblankedOne(a);
    UnblankedOne(b);
    UnblankedSplit([a], [b]);
    assert [a, b] == [a] + [b];
  }

  lemma BraceLayout(d: nat)
    ensures Outside(Opening(true)) && Unblanked(Opening(true)) == Opening(false)
    ensures Outside(Closing(true, d)) && Unblanked(Closing(true, d)) == Closing(false, d)
  {
    TwoBytes(LBRACE, NEWLINE);
    AllBlanks(Tabs(d));
    UnblankedOne(RBRACE);
    UnblankedSplit(Tabs(d), [RBRACE]);
  }

  lemma IndentLayout(d: nat)
    ensures Outside(Indent(true, d)) && Unblanked(Indent(true, d)) == Indent(false, d)
  {
    AllBlanks(Tabs(d));
  }

  lemma CommaLayout(more: bool)
    ensures Outside(ArrayComma(true, more)) && Unblanked(ArrayComma(true, more)) == ArrayComma(false, more)
  {
    TwoBytes(COMMA, SPACE);
  }

  lemma NameLayout()
    ensures Outside(AfterName(true)) && Unblanked(AfterName(true)) == AfterName(false)
  {
    TwoBytes(COLON, TAB);
  }

  lemma MemberLayout(more: bool)
    ensures Outside(AfterMember(true, more)) && Unblanked(AfterMember(true, more)) == AfterMember(false, more)
  {
    if more {
      TwoBytes(COMMA, NEWLINE);
      assert AfterMember(true, true) == [COMMA, NEWLINE] && AfterMember(false, true) == [COMMA];
    } else {
      UnblankedOne(NEWLINE);
      assert AfterMember(true, false) == [NEWLINE] && AfterMember(false, false) == [];
    }
  }

  lemma UnblankedOne(c: nonzero)
    ensures Unblanked([c]) == if Space(c) then [] else [c]
  {
    assert [c][1..] == [] && Unblanked([]) == [];
  }

  lemma {:induction false} UnblankedSplit(a: Text, b: Text)
    ensures Unblanked(a + b) == Unblanked(a) + Unblanked(b)
    decreases a
  {
    if a == [] {
      assert a + b == b;
    } else {
      assert (a + b)[1..] == a[1..] + b;
      UnblankedSplit(a[1..], b);
    }
  }

  lemma {:induction false} ScalarKept(t: Json, d: nat, x: seq<byte>)
    requires Plain(t) && Safe(t) && !t.Array? && !t.Object?
    ensures Minified(Rendered(t, true, d) + x) == Rendered(t, false, d) + Minified(x)
  {
    match t {
      case String(text) => QuotedKept(text, x);
      case Number(value, _) => NumberKept(value.Floor, x);
      case Null => WordKept(NULL_WORD, x);
      case False => WordKept(FALSE_WORD, x);
      case True => WordKept(TRUE_WORD, x);
    }
  }

  lemma {:induction false} WordKept(w: Text, x: seq<byte>)
    requires forall i :: 0 <= i < |w| ==> !Space(w[i]) && w[i] != SLASH && w[i] != QUOTE
    ensures Minified(w + x) == w + Minified(x)
  {
    NoBlanks(w);
    OutsideStrings(w, x);
  }

  lemma {:induction false} NumberKept(n: int, x: seq<byte>)
    ensures Minified(DecimalText(n) + x) == DecimalText(n) + Minified(x)
  {
    var m := if n < 0 then -n else n;
    DigitsAreDigits(m);
    var w := DecimalText(n);
    assert forall i :: 0 <= i < |w| ==> w[i] == MINUS || IsDigit(w[i]);
    WordKept(w, x);
  }

  /** Text between an opening and a closing bracket or brace. */
  lemma {:induction false} WrapKept(open: Text, open': Text, e: Text, u: Text, close: Text, close': Text, x: seq<byte>)
    requires Outside(open) && Unblanked(open) == open' && Outside(close) && Unblanked(close) == close'
    requires Minified(e + (close + x)) == u + Minified(close + x)
    ensures Minified((open + (e + close)) + x) == (open' + (u + close')) + Minified(x)
  {
    RegroupRight(open, e, close, x);
    Layout(open, open', e + (close + x));
    Layout(close, close', x);
    RegroupRight(open', u, close', Minified(x));
  }

  /** A text, a separator and the text behind it. */
  lemma {:induction false} JoinKept(w: Text, w': Text, comma: Text, comma': Text, rest: Text, rest': Text, x: seq<byte>)
    requires Minified(w + (comma + (rest + x))) == w' + Minified(comma + (rest + x))
    requires Outside(comma) && Unblanked(comma) == comma' && Minified(rest + x) == rest' + Minified(x)
    ensures Minified((w + (comma + rest)) + x) == (w' + (comma' + rest')) + Minified(x)
  {
    RegroupRight(w, comma, rest, x);
    Layout(comma, comma', rest + x);
    RegroupRight(w', comma', rest', Minified(x));
  }

  /** The formatted text of a safe tree, in front of any text, minifies to its unformatted text. */
  lemma {:induction false} SafeTree(t: Json, d: nat, x: seq<byte>)
    requires Plain(t) && Safe(t)
    ensures Minified(Rendered(t, true, d) + x) == Rendered(t, false, d) + Minified(x)
    decreases t, 1
  {
    match t {
      case Array(items) =>
        UnblankedOne(LBRACKET);
        UnblankedOne(RBRACKET);
        SafeElements(items, d + 1, [RBRACKET] + x);
        WrapKept([LBRACKET], [LBRACKET], RenderedElements(items, true, d + 1), RenderedElements(items, false, d + 1),
                 [RBRACKET], [RBRACKET], x);
      case Object(items) =>
        BraceLayout(d);
        SafeMembers(items, d + 1, Closing(true, d) + x);
        WrapKept(Opening(true), Opening(false), RenderedMembers(items, true, d + 1), RenderedMembers(items, false, d + 1),
                 Closing(true, d), Closing(false, d), x);
      case _ => ScalarKept(t, d, x);
    }
  }

  lemma {:induction false} SafeElements(items: Items, d: nat, x: seq<byte>)
    requires AllPlain(items) && AllSafe(items, false)
    ensures Minified(RenderedElements(items, true, d) + x) == RenderedElements(items, false, d) + Minified(x)
    decreases items, 0
  {
    if items.Nil? {
      assert [] + x == x && [] + Minified(x) == Minified(x);
    } else {
      var more := items.tail.Cons?;
      var w, rest := Rendered(items.head, true, d), RenderedElements(items.tail, true, d);
      SafeTree(items.head, d, ArrayComma(true, more) + (rest + x));
      SafeElements(items.tail, d, x);
      CommaLayout(more);
      JoinKept(w, Rendered(items.head, false, d), ArrayComma(true, more), ArrayComma(false, more),
               rest, RenderedElements(items.tail, false, d), x);
    }
  }

  lemma {:induction false} SafeMember(name: Option<Text>, w: Text, w': Text, d: nat, x: seq<byte>)
    requires !EndsInBackslash(name) && Minified(w + x) == w' + Minified(x)
    ensures Minified(Member(name, w, true, d) + x) == Member(name, w', false, d) + Minified(x)
  {
    var v, v' := NamedKept(name, w, w', x);
    IndentKept(d, v + x);
    TwoParts(Indent(true, d), Indent(false, d), v, v', x);
  }

  /** A name, its colon and its value. */
  lemma NamedKept(name: Option<Text>, w: Text, w': Text, x: seq<byte>) returns (v: Text, v': Text)
    requires !EndsInBackslash(name) && Minified(w + x) == w' + Minified(x)
    ensures v == Quoted(name) + (AfterName(true) + w) && v' == Quoted(name) + (AfterName(false) + w')
    ensures Minified(v + x) == v' + Minified(x)
  {
    var u, u' := ColonKept(w, w', x);
    v, v' := Quoted(name) + u, Quoted(name) + u';
    QuotedKept(name, u + x);
    TwoParts(Quoted(name), Quoted(name), u, u', x);
  }

  lemma ColonKept(w: Text, w': Text, x: seq<byte>) returns (u: Text, u': Text)
    requires Minified(w + x) == w' + Minified(x)
    ensures u == AfterName(true) + w && u' == AfterName(false) + w' && Minified(u + x) == u' + Minified(x)
  {
    u, u' := AfterName(true) + w, AfterName(false) + w';
    AfterNameKept(w + x);
    TwoParts(AfterName(true), AfterName(false), w, w', x);
  }

  lemma {:induction false} TwoParts(a: seq<byte>, a': seq<byte>, v: seq<byte>, v': seq<byte>, x: seq<byte>)
    requires Minified(a + (v + x)) == a' + Minified(v + x) && Minified(v + x) == v' + Minified(x)
    ensures Minified((a + v) + x) == (a' + v') + Minified(x)
  {
    Regroup(a, v, x);
    Regroup(a', v', Minified(x));
  }

  lemma {:induction false} IndentKept(d: nat, x: seq<byte>)
    ensures Minified(Indent(true, d) + x) == Indent(false, d) + Minified(x)
  {
    IndentLayout(d);
    Layout(Indent(true, d), Indent(false, d), x);
  }

  lemma {:induction false} AfterNameKept(x: seq<byte>)
    ensures Minified(AfterName(true) + x) == AfterName(false) + Minified(x)
  {
    NameLayout();
    Layout(AfterName(true), AfterName(false), x);
  }

  lemma {:induction false} SafeMembers(items: Items, d: nat, x: seq<byte>)
    requires AllPlain(items) && AllSafe(items, true)
    ensures Minified(RenderedMembers(items, true, d) + x) == RenderedMembers(items, false, d) + Minified(x)
    decreases items, 0
  {
    if items.Nil? {
      assert [] + x == x && [] + Minified(x) == Minified(x);
    } else {
      var more := items.tail.Cons?;
      var w, w' := Rendered(items.head, true, d), Rendered(items.head, false, d);
      var rest, after := RenderedMembers(items.tail, true, d), AfterMember(true, more);
      SafeTree(items.head, d, after + (rest + x));
      SafeMember(items.name, w, w', d, after + (rest + x));
      SafeMembers(items.tail, d, x);
      MemberLayout(more);
      JoinKept(Member(items.name, w, true, d), Member(items.name, w', false, d), after, AfterMember(false, more),
               rest, RenderedMembers(items.tail, false, d), x);
    }
  }
}
