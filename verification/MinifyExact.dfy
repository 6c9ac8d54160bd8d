/** Exactly which printed trees minify to their unformatted text. */
module MinifyExact {
  import opened Bytes
  import opened JsonValue
  import opened StringLiteral
  import opened Numbers
  import opened JsonText
  import opened Minify
  import opened MinifyText

  predicate DifferAt(a: seq<byte>, b: seq<byte>, k: nat) {
    k < |a| && k < |b| && a[k] != b[k]
  }

  lemma DifferLater(p: seq<byte>, a: seq<byte>, b: seq<byte>, k: nat)
    requires DifferAt(a, b, k)
    ensures DifferAt(p + a, p + b, |p| + k)
  {
  }

  /** Up to and including byte `k` there is nothing that ends or escapes in a string. */
  predicate Inert(x: seq<byte>, k: nat) {
    k < |x| && forall i :: 0 <= i <= k ==> x[i] != QUOTE && x[i] != BACKSLASH
  }

  lemma {:induction false} InertLength(x: seq<byte>, k: nat)
    requires Inert(x, k)
    ensures StringLength(x) > k
    decreases k
  {
    if k > 0 { InertLength(x[1..], k - 1); }
  }

  /** A string left open copies what makes the formatted text differ from the unformatted one. */
  lemma {:induction false} OpenDiffers(text: Option<Text>, x: seq<byte>, y: seq<byte>, k: nat)
    requires EndsInBackslash(text) && Inert(x, k) && DifferAt(x, y, k)
    ensures DifferAt(Minified(Quoted(text) + x), Quoted(text) + y, |Quoted(text)| + k)
  {
    InertLength(x, k);
    QuotedLeftOpen(text, x);
    var open := x[..StringLength(x)] + Minified(x[StringLength(x)..]);
    assert open[k] == x[k];
    DifferLater(Quoted(text), open, y, k);
  }

  lemma {:induction false} FirstVisible(t: Json, format: bool, d: nat)
    requires Plain(t)
    ensures |Rendered(t, format, d)| > 0 && Rendered(t, format, d)[0] > 32
  {
    if t.Number? {
      var n := t.value.Floor;
      DigitsAreDigits(if n < 0 then -n else n);
    }
  }

  // ---------- behind the string that stays open the texts differ ----------

  /** `x` and `y` follow a tree in the formatted and the unformatted text. */
  lemma {:induction false} TreeDiffers(t: Json, d: nat, x: seq<byte>, y: seq<byte>, k: nat) returns (j: nat)
    requires Plain(t) && !Safe(t) && Inert(x, k) && DifferAt(x, y, k)
    ensures DifferAt(Minified(Rendered(t, true, d) + x), Rendered(t, false, d) + y, j)
    decreases t, 1
  {
    match t {
      case String(text) =>
        OpenDiffers(text, x, y, k);
        j := |Quoted(text)| + k;
      case Array(items) =>
        j := ElementsDiffer(items, d + 1, [RBRACKET] + x, [RBRACKET] + y, k + 1);
        UnblankedOne(LBRACKET);
        j := WrapDiffers([LBRACKET], [LBRACKET], RenderedElements(items, true, d + 1), RenderedElements(items, false, d + 1),
                         [RBRACKET], [RBRACKET], x, y, j);
      case Object(items) =>
        j := ObjectDiffers(items, d, x, y);
    }
  }

  lemma WrapDiffers(open: Text, open': Text, e: Text, u: Text, close: Text, close': Text, x: seq<byte>, y: seq<byte>, i: nat)
    returns (j: nat)
    requires Outside(open) && Unblanked(open) == open'
    requires DifferAt(Minified(e + (close + x)), u + (close' + y), i)
    ensures DifferAt(Minified((open + (e + close)) + x), (open' + (u + close')) + y, j)
  {
    RegroupRight(open, e, close, x);
    RegroupRight(open', u, close', y);
    Layout(open, open', e + (close + x));
    DifferLater(open', Minified(e + (close + x)), u + (close' + y), i);
    j := |open'| + i;
  }

  /** Behind an element comes a comma and a space, or a comma and the next element. */
  lemma {:induction false} CommaDiffers(tail: Items, d: nat, x: seq<byte>, y: seq<byte>)
    requires tail.Cons? && AllPlain(tail)
    ensures var a := ArrayComma(true, true) + (RenderedElements(tail, true, d) + x);
      var b := ArrayComma(false, true) + (RenderedElements(tail, false, d) + y);
      Inert(a, 1) && DifferAt(a, b, 1)
  {
    FirstVisible(tail.head, false, d);
    var rest := RenderedElements(tail, false, d);
    assert rest[0] == Rendered(tail.head, false, d)[0];
    assert (ArrayComma(false, true) + (rest + y))[1] == rest[0];
  }

  lemma {:induction false} ElementsDiffer(items: Items, d: nat, x: seq<byte>, y: seq<byte>, k: nat) returns (j: nat)
    requires AllPlain(items) && !AllSafe(items, false) && Inert(x, k) && DifferAt(x, y, k)
    ensures DifferAt(Minified(RenderedElements(items, true, d) + x), RenderedElements(items, false, d) + y, j)
    decreases items, 0
  {
    var more := items.tail.Cons?;
    var comma, comma' := ArrayComma(true, more), ArrayComma(false, more);
    var rest, plain := RenderedElements(items.tail, true, d), RenderedElements(items.tail, false, d);
    var w, w' := Rendered(items.head, true, d), Rendered(items.head, false, d);
    if Safe(items.head) {
      j := ElementsDiffer(items.tail, d, x, y, k);
      SafeTree(items.head, d, comma + (rest + x));
      CommaLayout(more);
      j := JoinDiffers(w, w', comma, comma', rest, plain, x, y, j);
    } else {
      if more {
        CommaDiffers(items.tail, d, x, y);
        j := TreeDiffers(items.head, d, comma + (rest + x), comma' + (plain + y), 1);
      } else {
        assert comma + (rest + x) == x && comma' + (plain + y) == y;
        j := TreeDiffers(items.head, d, comma + (rest + x), comma' + (plain + y), k);
      }
      JoinDiffersHere(w, w', comma, comma', rest, plain, x, y, j);
    }
  }

  /** An object always has layout behind the string that stays open. */
  lemma {:induction false} ObjectDiffers(items: Items, d: nat, x: seq<byte>, y: seq<byte>) returns (j: nat)
    requires AllPlain(items) && !AllSafe(items, true)
    ensures DifferAt(Minified(Rendered(Object(items), true, d) + x), Rendered(Object(items), false, d) + y, j)
    decreases items, 1
  {
    var inner, open, open', close, close' := d + 1, Opening(true), Opening(false), Closing(true, d), Closing(false, d);
    var e, u := RenderedMembers(items, true, inner), RenderedMembers(items, false, inner);
    j := MembersDiffer(items, inner, close + x, close' + y);
    BraceLayout(d);
    j := WrapDiffers(open, open', e, u, close, close', x, y, j);
    ObjectIs(items, true, d, inner);
    ObjectIs(items, false, d, inner);
  }

  lemma {:induction false} ObjectIs(items: Items, format: bool, d: nat, inner: nat)
    requires inner == d + 1
    ensures Rendered(Object(items), format, d) == Opening(format) + (RenderedMembers(items, format, inner) + Closing(format, d))
  {
  }

  /** Behind a member comes a newline that the unformatted text does not have. */
  lemma AfterDiffers(more: bool, rest: Text, plain: Text, x: seq<byte>, y: seq<byte>) returns (k: nat)
    requires y != [] && y[0] == RBRACE && if more then plain != [] && plain[0] == QUOTE else plain == []
    ensures var a, b := AfterMember(true, more) + (rest + x), AfterMember(false, more) + (plain + y);
      Inert(a, k) && DifferAt(a, b, k)
  {
    var next := (plain + y)[0];
    if more {
      k := 1;
      assert AfterMember(true, true) == [COMMA, NEWLINE] && AfterMember(false, true) == [COMMA];
      assert ([COMMA] + (plain + y))[1] == next == QUOTE;
    } else {
      k := 0;
      assert AfterMember(true, false) == [NEWLINE] && AfterMember(false, false) == [];
      assert ([] + (plain + y))[0] == next == RBRACE;
    }
  }

  lemma {:induction false} FirstIsQuote(items: Items, d: nat)
    requires items.Cons?
    ensures RenderedMembers(items, false, d) != [] && RenderedMembers(items, false, d)[0] == QUOTE
  {
  }

  /** Two texts that differ behind what they begin with. */
  lemma JoinDiffers(m: Text, m': Text, comma: Text, comma': Text, rest: Text, plain: Text, x: seq<byte>, y: seq<byte>, i: nat)
    returns (j: nat)
    requires Minified(m + (comma + (rest + x))) == m' + Minified(comma + (rest + x))
    requires Outside(comma) && Unblanked(comma) == comma' && DifferAt(Minified(rest + x), plain + y, i)
    ensures DifferAt(Minified((m + (comma + rest)) + x), (m' + (comma' + plain)) + y, j)
  {
    RegroupRight(m, comma, rest, x);
    RegroupRight(m', comma', plain, y);
    Layout(comma, comma', rest + x);
    j := DifferTwice(m', comma', Minified(rest + x), plain + y, i);
  }

  lemma {:induction false} DifferTwice(m: seq<byte>, comma: seq<byte>, a: seq<byte>, b: seq<byte>, i: nat) returns (j: nat)
    requires DifferAt(a, b, i)
    ensures DifferAt(m + (comma + a), m + (comma + b), j)
  {
    DifferLater(comma, a, b, i);
    DifferLater(m, comma + a, comma + b, |comma| + i);
    j := |m| + (|comma| + i);
  }

  lemma {:induction false} JoinDiffersHere(m: Text, m': Text, comma: Text, comma': Text, rest: Text, plain: Text,
                                           x: seq<byte>, y: seq<byte>, j: nat)
    requires DifferAt(Minified(m + (comma + (rest + x))), m' + (comma' + (plain + y)), j)
    ensures DifferAt(Minified((m + (comma + rest)) + x), (m' + (comma' + plain)) + y, j)
  {
    RegroupRight(m, comma, rest, x);
    RegroupRight(m', comma', plain, y);
  }

  lemma {:induction false} MembersDiffer(items: Items, d: nat, x: seq<byte>, y: seq<byte>) returns (j: nat)
    requires AllPlain(items) && !AllSafe(items, true) && y != [] && y[0] == RBRACE
    ensures DifferAt(Minified(RenderedMembers(items, true, d) + x), RenderedMembers(items, false, d) + y, j)
    decreases items, 0
  {
    var more := items.tail.Cons?;
    var after, after' := AfterMember(true, more), AfterMember(false, more);
    var rest, plain := RenderedMembers(items.tail, true, d), RenderedMembers(items.tail, false, d);
    var w, w' := Rendered(items.head, true, d), Rendered(items.head, false, d);
    var m, m' := Member(items.name, w, true, d), Member(items.name, w', false, d);
    if EndsInBackslash(items.name) || !Safe(items.head) {
      if EndsInBackslash(items.name) {
        FirstVisible(items.head, false, d);
        j := NameDiffers(items.name, w, w', d, after + (rest + x), after' + (plain + y));
      } else {
        if more { FirstIsQuote(items.tail, d); }
        var k := AfterDiffers(more, rest, plain, x, y);
        j := TreeDiffers(items.head, d, after + (rest + x), after' + (plain + y), k);
        j := ValueDiffers(items.name, w, w', d, after + (rest + x), after' + (plain + y), j);
      }
      JoinDiffersHere(m, m', after, after', rest, plain, x, y, j);
    } else {
      j := MembersDiffer(items.tail, d, x, y);
      SafeTree(items.head, d, after + (rest + x));
      SafeMember(items.name, w, w', d, after + (rest + x));
      MemberLayout(more);
      j := JoinDiffers(m, m', after, after', rest, plain, x, y, j);
    }
  }

  lemma NameDiffers(name: Option<Text>, w: Text, w': Text, d: nat, a: seq<byte>, b: seq<byte>) returns (j: nat)
    requires EndsInBackslash(name) && |w'| > 0 && w'[0] > 32
    ensures DifferAt(Minified(Member(name, w, true, d) + a), Member(name, w', false, d) + b, j)
  {
    var v, v', k := OpenNameDiffers(name, w, w', a, b);
    IndentKept(d, v + a);
    j := PartDiffers(Indent(true, d), Indent(false, d), v, v', a, b, k);
  }

  /** What follows a name that stays open is not minified: behind the colon comes a tab there, and the value here. */
  lemma OpenNameDiffers(name: Option<Text>, w: Text, w': Text, a: seq<byte>, b: seq<byte>) returns (v: Text, v': Text, j: nat)
    requires EndsInBackslash(name) && |w'| > 0 && w'[0] > 32
    ensures v == Quoted(name) + (AfterName(true) + w) && v' == Quoted(name) + (AfterName(false) + w')
    ensures DifferAt(Minified(v + a), v' + b, j)
  {
    var q := Quoted(name);
    var u: Text, u': Text := AfterName(true) + w, AfterName(false) + w';
    v, v', j := q + u, q + u', |q| + 1;
    ColonsDiffer(w, w', a, b);
    OpenDiffers(name, u + a, u' + b, 1);
    Regroup(q, u, a);
    Regroup(q, u', b);
  }

  lemma ColonsDiffer(w: Text, w': Text, a: seq<byte>, b: seq<byte>)
    requires |w'| > 0 && w'[0] > 32
    ensures Inert((AfterName(true) + w) + a, 1) && DifferAt((AfterName(true) + w) + a, (AfterName(false) + w') + b, 1)
  {
    var x, y := (AfterName(true) + w) + a, (AfterName(false) + w') + b;
    assert x[0] == COLON && x[1] == TAB && y[1] == w'[0];
  }

  lemma ValueDiffers(name: Option<Text>, w: Text, w': Text, d: nat, a: seq<byte>, b: seq<byte>, i: nat) returns (j: nat)
    requires !EndsInBackslash(name) && DifferAt(Minified(w + a), w' + b, i)
    ensures DifferAt(Minified(Member(name, w, true, d) + a), Member(name, w', false, d) + b, j)
  {
    var v, v', k := NamedDiffers(name, w, w', a, b, i);
    IndentKept(d, v + a);
    j := PartDiffers(Indent(true, d), Indent(false, d), v, v', a, b, k);
  }

  lemma NamedDiffers(name: Option<Text>, w: Text, w': Text, a: seq<byte>, b: seq<byte>, i: nat) returns (v: Text, v': Text, j: nat)
    requires !EndsInBackslash(name) && DifferAt(Minified(w + a), w' + b, i)
    ensures v == Quoted(name) + (AfterName(true) + w) && v' == Quoted(name) + (AfterName(false) + w')
    ensures DifferAt(Minified(v + a), v' + b, j)
  {
    var u: Text, u': Text := AfterName(true) + w, AfterName(false) + w';
    AfterNameKept(w + a);
    j := PartDiffers(AfterName(true), AfterName(false), w, w', a, b, i);
    v, v' := Quoted(name) + u, Quoted(name) + u';
    QuotedKept(name, u + a);
    j := PartDiffers(Quoted(name), Quoted(name), u, u', a, b, j);
  }

  lemma PartDiffers(p: Text, p': Text, w: Text, w': Text, a: seq<byte>, b: seq<byte>, i: nat) returns (j: nat)
    requires Minified(p + (w + a)) == p' + Minified(w + a) && DifferAt(Minified(w + a), w' + b, i)
    ensures DifferAt(Minified((p + w) + a), (p' + w') + b, j)
  {
    Regroup(p, w, a);
    Regroup(p', w', b);
    DifferLater(p', Minified(w + a), w' + b, i);
    j := |p'| + i;
  }

  // ---------- the last token ----------

  function Brackets(n: nat): Text { Repeat(RBRACKET, n) }

  lemma BracketsKept(n: nat)
    ensures Minified(Brackets(n)) == Brackets(n) && StringLength(Brackets(n)) == n
  {
    NoBlanks(Brackets(n));
    OutsideStrings(Brackets(n), []);
    OrdinaryLength(Brackets(n), []);
    assert Brackets(n) + [] == Brackets(n);
  }

  /** Whether minifying gives the unformatted text when only closing brackets follow. */
  ghost predicate Agrees(w: Text, u: Text, n: nat) {
    Minified(w + Brackets(n)) == u + Brackets(n)
  }

  lemma StringAgrees(text: Option<Text>, n: nat)
    ensures Agrees(Quoted(text), Quoted(text), n)
  {
    BracketsKept(n);
    if EndsInBackslash(text) {
      QuotedLeftOpen(text, Brackets(n));
      assert Brackets(n)[..n] + Minified(Brackets(n)[n..]) == Brackets(n);
    } else {
      QuotedKept(text, Brackets(n));
    }
  }

  lemma {:induction false} TreeAgrees(t: Json, d: nat, n: nat)
    requires Plain(t)
    ensures Agrees(Rendered(t, true, d), Rendered(t, false, d), n) <==> SafeButLast(t)
    decreases t, 1
  {
    if t.String? {
      StringAgrees(t.text, n);
    } else if t.Array? {
      ElementsAgree(t.items, d + 1, n + 1);
      ArrayAgrees(RenderedElements(t.items, true, d + 1), RenderedElements(t.items, false, d + 1), n);
    } else if Safe(t) {
      SafeTree(t, d, Brackets(n));
      BracketsKept(n);
    } else {
      var j := ObjectDiffers(t.items, d, Brackets(n), Brackets(n));
    }
  }

  lemma ArrayAgrees(e: Text, u: Text, n: nat)
    ensures Agrees([LBRACKET] + (e + [RBRACKET]), [LBRACKET] + (u + [RBRACKET]), n) <==> Agrees(e, u, n + 1)
  {
    var b := Brackets(n);
    assert Brackets(n + 1) == [RBRACKET] + b;
    RegroupRight([LBRACKET], e, [RBRACKET], b);
    RegroupRight([LBRACKET], u, [RBRACKET], b);
    UnblankedOne(LBRACKET);
    Layout([LBRACKET], [LBRACKET], e + ([RBRACKET] + b));
    Cancel([LBRACKET], Minified(e + ([RBRACKET] + b)), u + ([RBRACKET] + b));
  }

  lemma Cancel(p: seq<byte>, a: seq<byte>, b: seq<byte>)
    ensures p + a == p + b <==> a == b
  {
    assert (p + a)[|p|..] == a && (p + b)[|p|..] == b;
  }

  lemma {:induction false} ElementsAgree(items: Items, d: nat, n: nat)
    requires AllPlain(items)
    ensures Agrees(RenderedElements(items, true, d), RenderedElements(items, false, d), n) <==> AllSafeButLast(items)
    decreases items, 0
  {
    if items.Nil? {
      BracketsKept(n);
      assert [] + Brackets(n) == Brackets(n);
    } else if items.tail.Nil? {
      TreeAgrees(items.head, d, n);
      assert RenderedElements(items, true, d) == Rendered(items.head, true, d);
      assert RenderedElements(items, false, d) == Rendered(items.head, false, d);
    } else {
      var w, w' := Rendered(items.head, true, d), Rendered(items.head, false, d);
      var rest, plain := RenderedElements(items.tail, true, d), RenderedElements(items.tail, false, d);
      if Safe(items.head) {
        ElementsAgree(items.tail, d, n);
        SafeTree(items.head, d, ArrayComma(true, true) + (rest + Brackets(n)));
        CommaLayout(true);
        JoinAgrees(w, w', ArrayComma(true, true), ArrayComma(false, true), rest, plain, n);
      } else {
        CommaDiffers(items.tail, d, Brackets(n), Brackets(n));
        var j := TreeDiffers(items.head, d, ArrayComma(true, true) + (rest + Brackets(n)),
                             ArrayComma(false, true) + (plain + Brackets(n)), 1);
        JoinDiffersHere(w, w', ArrayComma(true, true), ArrayComma(false, true), rest, plain, Brackets(n), Brackets(n), j);
      }
    }
  }

  /** Behind a text that is kept, the rest decides. */
  lemma {:induction false} JoinAgrees(w: Text, w': Text, comma: Text, comma': Text, rest: Text, plain: Text, n: nat)
    requires Minified(w + (comma + (rest + Brackets(n)))) == w' + Minified(comma + (rest + Brackets(n)))
    requires Outside(comma) && Unblanked(comma) == comma'
    ensures Agrees(w + (comma + rest), w' + (comma' + plain), n) <==> Agrees(rest, plain, n)
  {
    var b := Brackets(n);
    RegroupRight(w, comma, rest, b);
    RegroupRight(w', comma', plain, b);
    Layout(comma, comma', rest + b);
    Cancel(w', comma' + Minified(rest + b), comma' + (plain + b));
    Cancel(comma', Minified(rest + b), plain + b);
  }

  /** Minifying the formatted text of a tree gives its unformatted text exactly under this condition. */
  lemma {:induction false} MinifiedPrint(t: Json)
    requires Plain(t)
    ensures Minified(Rendered(t, true, 0)) == Rendered(t, false, 0) <==> SafeButLast(t)
  {
    TreeAgrees(t, 0, 0);
    assert Rendered(t, true, 0) + Brackets(0) == Rendered(t, true, 0);
    assert Rendered(t, false, 0) + Brackets(0) == Rendered(t, false, 0);
  }
}
