/** The value a cJSON tree denotes, read off the node structure of cJSON.h. */
module JsonValue {
  import opened Bytes

  datatype Option<+T> = None | Some(value: T)

  /** `value` is valuedouble, `intValue` is valueint, and a missing text is a NULL valuestring. */
  datatype Json =
    | Invalid
    | Null
    | False
    | True
    | Number(value: real, intValue: int)
    | String(text: Option<Text>)
    | Raw(text: Option<Text>)
    | Array(items: Items)
    | Object(items: Items)

  /** A chain of siblings: each has its name (NULL in an array), its value and its successor. */
  datatype Items = Nil | Cons(name: Option<Text>, head: Json, tail: Items)

  const INT_MAX: int := 0x7FFF_FFFF
  const INT_MIN: int := -0x8000_0000

  function Length(items: Items): nat {
    match items case Nil => 0 case Cons(_, _, tail) => 1 + Length(tail)
  }

  function Append(xs: Items, ys: Items): Items {
    match xs case Nil => ys case Cons(n, v, tail) => Cons(n, v, Append(tail, ys))
  }

  lemma {:induction false} AppendAssociative(xs: Items, ys: Items, zs: Items)
    ensures Append(Append(xs, ys), zs) == Append(xs, Append(ys, zs))
  {
    match xs case Nil => case Cons(_, _, tail) => AppendAssociative(tail, ys, zs);
  }

  lemma {:induction false} AppendNil(xs: Items)
    ensures Append(xs, Nil) == xs
  {
    match xs case Nil => case Cons(_, _, tail) => AppendNil(tail);
  }

  /** The conversion of a double to valueint: truncation toward zero, saturated at the int range. */
  function Saturate(value: real): int {
    if value >= INT_MAX as real then INT_MAX
    else if value <= INT_MIN as real then INT_MIN
    else if value >= 0.0 then value.Floor
    else -((-value).Floor)
  }

  lemma SaturateWhole(n: int)
    ensures Saturate(n as real) == if n > INT_MAX then INT_MAX else if n < INT_MIN then INT_MIN else n
  {
    assert -(n as real) == (-n) as real;
  }

  /** The deepest nesting of arrays and objects. */
  function Nesting(t: Json): nat
    decreases t, 1
  {
    match t
    case Array(items) => 1 + NestingOf(items)
    case Object(items) => 1 + NestingOf(items)
    case _ => 0
  }

  function NestingOf(items: Items): nat
    decreases items, 0
  {
    match items
    case Nil => 0
    case Cons(_, v, tail) => if Nesting(v) > NestingOf(tail) then Nesting(v) else NestingOf(tail)
  }

  /** A size that bounds every walk over a tree. */
  function Weight(t: Json): nat
    decreases t, 1
  {
    match t
    case Array(items) => 1 + WeightOf(items)
    case Object(items) => 1 + WeightOf(items)
    case _ => 0
  }

  function WeightOf(items: Items): nat
    decreases items, 0
  {
    match items case Nil => 0 case Cons(_, v, tail) => 1 + Weight(v) + WeightOf(tail)
  }
}
