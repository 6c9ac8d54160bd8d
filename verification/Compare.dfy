/** cJSON_Compare: symmetric, and equality up to the order of members where names are distinct. */
module Compare {
  import opened Bytes
  import opened JsonValue

  // ---------- names ----------

  predicate SameName(m: Text, n: Text, caseSensitive: bool) {
    if caseSensitive then m == n else LowerText(m) == LowerText(n)
  }

  /** get_object_item: the case-sensitive search gives up at the first child without a name. */
  function Find(items: Items, name: Text, caseSensitive: bool): (r: Option<Json>)
    ensures r.Some? ==> Weight(r.value) < WeightOf(items)
  {
    match items
    case Nil => None
    case Cons(None, _, tail) => if caseSensitive then None else Find(tail, name, caseSensitive)
    case Cons(Some(n), v, tail) => if SameName(name, n, caseSensitive) then Some(v) else Find(tail, name, caseSensitive)
  }

  // ---------- comparing ----------

  function Abs(x: real): real { if x < 0.0 then -x else x }

  const EPSILON: real := 1.0 / 4503599627370496.0

  /** compare_double over the reals. */
  predicate CloseNumbers(x: real, y: real) {
    var largest := if Abs(x) > Abs(y) then Abs(x) else Abs(y);
    Abs(x - y) <= largest * EPSILON
  }

  predicate SameText(s: Option<Text>, t: Option<Text>) { s.Some? && s == t }

  /** cJSON_Compare on two trees that share no node. */
  predicate Equal(a: Json, b: Json, caseSensitive: bool)
    decreases Weight(a) + Weight(b), 2
  {
    match (a, b)
    case (False, False) => true
    case (True, True) => true
    case (Null, Null) => true
    case (Number(x, _), Number(y, _)) => CloseNumbers(x, y)
    case (String(s), String(t)) => SameText(s, t)
    case (Raw(s), Raw(t)) => SameText(s, t)
    case (Array(xs), Array(ys)) => EqualElements(xs, ys, caseSensitive)
    case (Object(xs), Object(ys)) => AllIn(xs, ys, caseSensitive) && AllIn(ys, xs, caseSensitive)
    case _ => false
  }

  predicate EqualElements(xs: Items, ys: Items, caseSensitive: bool)
    decreases WeightOf(xs) + WeightOf(ys), 0
  {
    match (xs, ys)
    case (Nil, Nil) => true
    case (Cons(_, v, xs'), Cons(_, w, ys')) => Equal(v, w, caseSensitive) && EqualElements(xs', ys', caseSensitive)
    case _ => false
  }

  /** Each of `xs` has a name under which `ys` holds an equal value. */
  predicate AllIn(xs: Items, ys: Items, caseSensitive: bool)
    decreases WeightOf(xs) + WeightOf(ys), 1
  {
    match xs
    case Nil => true
    case Cons(None, _, _) => false
    case Cons(Some(n), v, tail) =>
      var w := Find(ys, n, caseSensitive);
      w.Some? && Equal(v, w.value, caseSensitive) && AllIn(tail, ys, caseSensitive)
  }

  // ---------- symmetry ----------

  /** The answer does not depend on which tree comes first, whatever their names. */
  lemma {:induction false} Symmetric(a: Json, b: Json, caseSensitive: bool)
    ensures Equal(a, b, caseSensitive) == Equal(b, a, caseSensitive)
    decreases a
  {
    if a.Number? && b.Number? {
      assert Abs(a.value - b.value) == Abs(b.value - a.value);
    } else if a.Array? && b.Array? {
      SymmetricElements(a.items, b.items, caseSensitive);
    }
  }

  lemma {:induction false} SymmetricElements(xs: Items, ys: Items, caseSensitive: bool)
    ensures EqualElements(xs, ys, caseSensitive) == EqualElements(ys, xs, caseSensitive)
    decreases xs
  {
    if xs.Cons? && ys.Cons? {
      Symmetric(xs.head, ys.head, caseSensitive);
      SymmetricElements(xs.tail, ys.tail, caseSensitive);
    }
  }

  // ---------- equality up to the order of members ----------

  /** The value of the member named so and the members without it. */
  function Take(items: Items, name: Text, caseSensitive: bool): (r: Option<(Json, Items)>)
    ensures r.Some? ==> Length(r.value.1) + 1 == Length(items)
  {
    match items
    case Nil => None
    case Cons(n, v, tail) =>
      if n.Some? && SameName(name, n.value, caseSensitive) then Some((v, tail))
      else
        var r := Take(tail, name, caseSensitive);
        if r.Some? then Some((r.value.0, Cons(n, v, r.value.1))) else None
  }

  /** The same values; the members of one object are those of the other in some order. */
  predicate Same(a: Json, b: Json, caseSensitive: bool)
    decreases a
  {
    match (a, b)
    case (Number(x, _), Number(y, _)) => x == y
    case (Array(xs), Array(ys)) => SameElements(xs, ys, caseSensitive)
    case (Object(xs), Object(ys)) => SameMembers(xs, ys, caseSensitive)
    case _ => a == b
  }

  predicate SameElements(xs: Items, ys: Items, caseSensitive: bool)
    decreases xs
  {
    match (xs, ys)
    case (Nil, Nil) => true
    case (Cons(_, v, xs'), Cons(_, w, ys')) => Same(v, w, caseSensitive) && SameElements(xs', ys', caseSensitive)
    case _ => false
  }

  predicate SameMembers(xs: Items, ys: Items, caseSensitive: bool)
    decreases xs
  {
    match xs
    case Nil => ys == Nil
    case Cons(None, _, _) => false
    case Cons(Some(n), v, tail) =>
      var r := Take(ys, n, caseSensitive);
      r.Some? && Same(v, r.value.0, caseSensitive) && SameMembers(tail, r.value.1, caseSensitive)
  }

  /** No child is named like `name`. */
  predicate Absent(items: Items, name: Text, caseSensitive: bool) {
    match items
    case Nil => true
    case Cons(n, _, tail) =>
      (n.None? || !SameName(name, n.value, caseSensitive)) && Absent(tail, name, caseSensitive)
  }

  predicate DistinctNames(items: Items, caseSensitive: bool) {
    match items
    case Nil => true
    case Cons(n, _, tail) => n.Some? && Absent(tail, n.value, caseSensitive) && DistinctNames(tail, caseSensitive)
  }

  predicate ExactNumber(x: real) {
    x.Floor as real == x && -4503599627370496 < x.Floor < 4503599627370496
  }

  /** No missing text, integers that compare_double can tell apart, and distinct names in every object. */
  predicate Proper(t: Json, caseSensitive: bool)
    decreases t, 1
  {
    match t
    case Invalid => false
    case Number(x, _) => ExactNumber(x)
    case String(s) => s.Some?
    case Raw(s) => s.Some?
    case Array(items) => AllProper(items, caseSensitive)
    case Object(items) => DistinctNames(items, caseSensitive) && AllProper(items, caseSensitive)
    case _ => true
  }

  predicate AllProper(items: Items, caseSensitive: bool)
    decreases items, 0
  {
    match items
    case Nil => true
    case Cons(_, v, tail) => Proper(v, caseSensitive) && AllProper(tail, caseSensitive)
  }

  // ---------- finding and taking ----------

  lemma {:induction false} TakeFinds(items: Items, name: Text, cs: bool)
    requires DistinctNames(items, cs)
    ensures var r, f := Take(items, name, cs), Find(items, name, cs);
      && (r.Some? <==> f.Some?)
      && (r.Some? ==> r.value.0 == f.value && DistinctNames(r.value.1, cs) && Absent(r.value.1, name, cs))
      && (r.Some? && AllProper(items, cs) ==> Proper(r.value.0, cs) && AllProper(r.value.1, cs))
  {
    if items.Cons? {
      TakeFinds(items.tail, name, cs);
      if SameName(name, items.name.value, cs) {
        AbsentAlike(items.tail, items.name.value, name, cs);
      } else {
        AbsentAfterTake(items.tail, name, items.name.value, cs);
      }
    }
  }

  lemma {:induction false} AbsentAlike(items: Items, m: Text, n: Text, cs: bool)
    requires Absent(items, m, cs) && SameName(m, n, cs)
    ensures Absent(items, n, cs)
  {
    if items.Cons? { AbsentAlike(items.tail, m, n, cs); }
  }

  lemma {:induction false} AbsentAfterTake(items: Items, name: Text, other: Text, cs: bool)
    requires Absent(items, other, cs)
    ensures Take(items, name, cs).Some? ==> Absent(Take(items, name, cs).value.1, other, cs)
  {
    if items.Cons? { AbsentAfterTake(items.tail, name, other, cs); }
  }

  /** Other names are found as before when a member is taken out. */
  lemma {:induction false} FindAfterTake(items: Items, name: Text, other: Text, cs: bool)
    requires DistinctNames(items, cs) && !SameName(name, other, cs)
    ensures Take(items, name, cs).Some? ==> Find(Take(items, name, cs).value.1, other, cs) == Find(items, other, cs)
  {
    if items.Cons? { FindAfterTake(items.tail, name, other, cs); }
  }

  lemma {:induction false} AllInAfterTake(xs: Items, ys: Items, name: Text, cs: bool)
    requires DistinctNames(ys, cs) && Absent(xs, name, cs) && Take(ys, name, cs).Some?
    ensures AllIn(xs, Take(ys, name, cs).value.1, cs) == AllIn(xs, ys, cs)
  {
    if xs.Cons? && xs.name.Some? {
      FindAfterTake(ys, name, xs.name.value, cs);
      AllInAfterTake(xs.tail, ys, name, cs);
    }
  }

  /** The members of `xs` may be looked up behind a member of another name. */
  lemma {:induction false} AllInBehind(xs: Items, name: Text, v: Json, ys: Items, cs: bool)
    requires Absent(xs, name, cs)
    ensures AllIn(xs, Cons(Some(name), v, ys), cs) == AllIn(xs, ys, cs)
  {
    if xs.Cons? { AllInBehind(xs.tail, name, v, ys, cs); }
  }

  lemma {:induction false} AllInPutBack(xs: Items, name: Text, ys: Items, cs: bool)
    requires DistinctNames(xs, cs) && Take(xs, name, cs).Some?
    requires forall n: Text :: SameName(name, n, cs) ==>
               Find(ys, n, cs).Some? && Equal(Take(xs, name, cs).value.0, Find(ys, n, cs).value, cs)
    ensures AllIn(xs, ys, cs) == AllIn(Take(xs, name, cs).value.1, ys, cs)
  {
    if !SameName(name, xs.name.value, cs) { AllInPutBack(xs.tail, name, ys, cs); }
  }

  // ---------- equal is the same ----------

  /** Where names are distinct, cJSON_Compare decides equality up to the order of members. */
  lemma {:induction false} EqualIsSame(a: Json, b: Json, cs: bool)
    requires Proper(a, cs) && Proper(b, cs)
    ensures Equal(a, b, cs) <==> Same(a, b, cs)
    decreases a, 2
  {
    match a
    case Number(x, _) =>
      if b.Number? { CloseIsEqual(x, b.value); }
    case Array(xs) =>
      if b.Array? { ElementsSame(xs, b.items, cs); }
    case Object(xs) =>
      if b.Object? {
        if Equal(a, b, cs) {
          NamesFound(b.items, xs, cs);
          EqualMembersAreSame(xs, b.items, cs);
        }
        if Same(a, b, cs) {
          SameMembersAreEqual(xs, b.items, cs);
        }
      }
    case _ =>
  }

  lemma CloseIsEqual(x: real, y: real)
    requires ExactNumber(x) && ExactNumber(y)
    ensures CloseNumbers(x, y) <==> x == y
  {
    var largest := if Abs(x) > Abs(y) then Abs(x) else Abs(y);
    EpsilonIsSmall(largest);
    if x != y { WholeApart(x.Floor, y.Floor); }
  }

  lemma EpsilonIsSmall(largest: real)
    requires 0.0 <= largest < 4503599627370496.0
    ensures 0.0 <= largest * EPSILON < 1.0
  {
  }

  lemma WholeApart(m: int, n: int)
    requires m != n
    ensures Abs(m as real - n as real) >= 1.0
  {
    assert m as real - n as real == (m - n) as real;
  }

  lemma {:induction false} ElementsSame(xs: Items, ys: Items, cs: bool)
    requires AllProper(xs, cs) && AllProper(ys, cs)
    ensures EqualElements(xs, ys, cs) <==> SameElements(xs, ys, cs)
    decreases xs, 1
  {
    if xs.Cons? && ys.Cons? {
      EqualIsSame(xs.head, ys.head, cs);
      ElementsSame(xs.tail, ys.tail, cs);
    }
  }

  /** Every name of `xs` is one of `ys`. */
  predicate NamesIn(xs: Items, ys: Items, cs: bool) {
    match xs
    case Nil => true
    case Cons(n, _, tail) => n.Some? && Find(ys, n.value, cs).Some? && NamesIn(tail, ys, cs)
  }

  lemma {:induction false} NamesFound(xs: Items, ys: Items, cs: bool)
    requires AllIn(xs, ys, cs)
    ensures NamesIn(xs, ys, cs)
  {
    if xs.Cons? { NamesFound(xs.tail, ys, cs); }
  }

  lemma {:induction false} NamesInAfterTake(xs: Items, name: Text, ys: Items, cs: bool)
    requires NamesIn(xs, ys, cs) && Take(xs, name, cs).Some?
    ensures NamesIn(Take(xs, name, cs).value.1, ys, cs)
  {
    if !(xs.name.Some? && SameName(name, xs.name.value, cs)) { NamesInAfterTake(xs.tail, name, ys, cs); }
  }

  lemma {:induction false} NamesInTail(xs: Items, ys: Items, cs: bool)
    requires ys.Cons? && ys.name.Some? && NamesIn(xs, ys, cs) && Absent(xs, ys.name.value, cs)
    ensures NamesIn(xs, ys.tail, cs)
  {
    if xs.Cons? { NamesInTail(xs.tail, ys, cs); }
  }

  lemma {:induction false} EqualMembersAreSame(xs: Items, ys: Items, cs: bool)
    requires DistinctNames(xs, cs) && DistinctNames(ys, cs) && AllProper(xs, cs) && AllProper(ys, cs)
    requires AllIn(xs, ys, cs) && NamesIn(ys, xs, cs)
    ensures SameMembers(xs, ys, cs)
    decreases xs, 1
  {
    if xs.Cons? {
      var n := xs.name.value;
      TakeFinds(ys, n, cs);
      var (w, rest) := Take(ys, n, cs).value;
      EqualIsSame(xs.head, w, cs);
      AllInAfterTake(xs.tail, ys, n, cs);
      NamesInAfterTake(ys, n, xs, cs);
      NamesInTail(rest, xs, cs);
      EqualMembersAreSame(xs.tail, rest, cs);
    }
  }

  lemma {:induction false} SameMembersAreEqual(xs: Items, ys: Items, cs: bool)
    requires DistinctNames(xs, cs) && DistinctNames(ys, cs) && AllProper(xs, cs) && AllProper(ys, cs)
    requires SameMembers(xs, ys, cs)
    ensures AllIn(xs, ys, cs) && AllIn(ys, xs, cs)
    decreases xs, 1
  {
    if xs.Cons? {
      var n := xs.name.value;
      TakeFinds(ys, n, cs);
      var (w, rest) := Take(ys, n, cs).value;
      EqualIsSame(xs.head, w, cs);
      Symmetric(xs.head, w, cs);
      SameMembersAreEqual(xs.tail, rest, cs);
      AllInAfterTake(xs.tail, ys, n, cs);
      AllInBehind(rest, n, xs.head, xs.tail, cs);
      AllInPutBack(ys, n, xs, cs);
    }
  }

  // ---------- the shortcut for one and the same node ----------

  /** No value or text is missing and the names in every object are distinct; numbers are any. */
  predicate Sound(t: Json, cs: bool)
    decreases t, 1
  {
    match t
    case Invalid => false
    case String(s) => s.Some?
    case Raw(s) => s.Some?
    case Array(items) => AllSound(items, cs)
    case Object(items) => DistinctNames(items, cs) && AllSound(items, cs)
    case _ => true
  }

  predicate AllSound(items: Items, cs: bool)
    decreases items, 0
  {
    match items case Nil => true case Cons(_, v, tail) => Sound(v, cs) && AllSound(tail, cs)
  }

  lemma {:induction false} Reflexive(t: Json, cs: bool)
    requires Sound(t, cs)
    ensures Equal(t, t, cs)
    decreases t, 1
  {
    match t
    case Array(items) => ReflexiveElements(items, cs);
    case Object(items) => ReflexiveMembers(items, cs);
    case _ =>
  }

  lemma {:induction false} ReflexiveElements(items: Items, cs: bool)
    requires AllSound(items, cs)
    ensures EqualElements(items, items, cs)
    decreases items, 0
  {
    if items.Cons? {
      Reflexive(items.head, cs);
      ReflexiveElements(items.tail, cs);
    }
  }

  lemma {:induction false} ReflexiveMembers(items: Items, cs: bool)
    requires AllSound(items, cs) && DistinctNames(items, cs)
    ensures AllIn(items, items, cs)
    decreases items, 0
  {
    if items.Cons? {
      Reflexive(items.head, cs);
      ReflexiveMembers(items.tail, cs);
      AllInBehind(items.tail, items.name.value, items.head, items.tail, cs);
    }
  }

  /**
   * No value, text or name is missing, and each member that is not the first of its name is equal to
   * the first one; the first ones are in the same way.
   */
  predicate Consistent(t: Json, cs: bool)
    decreases t
  {
    match t
    case Invalid => false
    case String(s) => s.Some?
    case Raw(s) => s.Some?
    case Array(items) => AllConsistent(items, cs)
    case Object(items) => RepeatsAgree(items, items, cs)
    case _ => true
  }

  predicate AllConsistent(items: Items, cs: bool)
    decreases items
  {
    match items case Nil => true case Cons(_, v, tail) => Consistent(v, cs) && AllConsistent(tail, cs)
  }

  predicate RepeatsAgree(xs: Items, all: Items, cs: bool)
    decreases xs
  {
    match xs
    case Nil => true
    case Cons(n, v, tail) =>
      && n.Some? && RepeatsAgree(tail, all, cs)
      && var first := Find(all, n.value, cs);
         first.Some? && if first.value == v then Consistent(v, cs) else Equal(v, first.value, cs)
  }

  /** A tree is equal to itself, so that the shortcut agrees with the member-by-member answer, exactly if it is consistent. */
  lemma {:induction false} EqualToItself(t: Json, cs: bool)
    ensures Equal(t, t, cs) <==> Consistent(t, cs)
    decreases t
  {
    match t
    case Array(items) => ElementsEqualThemselves(items, cs);
    case Object(items) => MembersEqualThemselves(items, items, cs);
    case _ =>
  }

  lemma {:induction false} ElementsEqualThemselves(items: Items, cs: bool)
    ensures EqualElements(items, items, cs) <==> AllConsistent(items, cs)
    decreases items
  {
    if items.Cons? {
      EqualToItself(items.head, cs);
      ElementsEqualThemselves(items.tail, cs);
    }
  }

  lemma {:induction false} MembersEqualThemselves(xs: Items, all: Items, cs: bool)
    ensures AllIn(xs, all, cs) <==> RepeatsAgree(xs, all, cs)
    decreases xs
  {
    if xs.Cons? {
      EqualToItself(xs.head, cs);
      MembersEqualThemselves(xs.tail, all, cs);
    }
  }

  /** Without distinct names the shortcut and the member-by-member answer differ. */
  lemma {:induction false} RepeatedNameDiffersFromItself(cs: bool)
    ensures var name: Option<Text> := Some([97]);
      var t := Object(Cons(name, True, Cons(name, False, Nil)));
      !Equal(t, t, cs)
  {
    var name: Option<Text> := Some([97]);
    var items := Cons(name, True, Cons(name, False, Nil));
    assert Find(items, name.value, cs) == Some(True);
    assert !AllIn(Cons(name, False, Nil), items, cs);
  }
}
