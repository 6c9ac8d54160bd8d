/** What the recursive-descent parser computes: a value and an end offset, or the offset of the error. */
module Grammar {
  import opened Bytes
  import opened JsonValue
  import opened StringLiteral
  import opened Numbers

  /** A parse buffer: the text of a C string with its final NUL. */
  type Buffer = s: seq<byte> | |s| > 0 && s[|s| - 1] == NUL witness [NUL]

  const NESTING_LIMIT: nat := 1000

  const NULL_WORD: Text := [110, 117, 108, 108]
  const FALSE_WORD: Text := [102, 97, 108, 115, 101]
  const TRUE_WORD: Text := [116, 114, 117, 101]

  /** buffer_skip_whitespace: to the first byte above 32, but never past the last byte. */
  function SkipSpace(s: Buffer, o: nat): (e: nat)
    requires o < |s|
    decreases |s| - o
    ensures o <= e < |s|
  {
    if s[o] <= 32 && o + 1 < |s| then SkipSpace(s, o + 1) else o
  }

  predicate StartsNumber(c: byte) { c == MINUS || IsDigit(c) }

  /** parse_value at offset `o`, inside `d` arrays and objects. */
  function ParseValue(s: Buffer, o: nat, d: nat): (r: Outcome<Json>)
    requires o < |s|
    decreases |s| - o, 2
    ensures r.pos <= |s| && (r.Done? ==> o <= r.pos < |s|)
  {
    if At(s, o, NULL_WORD) then LastByte(s, o, NULL_WORD); Done(Null, o + 4)
    else if At(s, o, FALSE_WORD) then LastByte(s, o, FALSE_WORD); Done(False, o + 5)
    else if At(s, o, TRUE_WORD) then LastByte(s, o, TRUE_WORD); Done(True, o + 4)
    else if s[o] == QUOTE then
      match ParseString(s, o)
      case Error(pos) => Error(pos)
      case Done(text, pos) => EndsBeforeNul(s, o); Done(String(Some(text)), pos)
    else if s[o] == ZERO && o + 1 < |s| && s[o + 1] == LOWER_X then HexStops(s, o); ParseHexNumber(s, o)
    else if StartsNumber(s[o]) then NumberStops(s, o); ParseNumber(s, o)
    else if s[o] == LBRACKET then ParseArray(s, o, d)
    else if s[o] == LBRACE then ParseObject(s, o, d)
    else Error(o)
  }

  function ParseArray(s: Buffer, o: nat, d: nat): (r: Outcome<Json>)
    requires o < |s| && s[o] == LBRACKET
    decreases |s| - o, 1
    ensures r.pos <= |s| && (r.Done? ==> o <= r.pos < |s|)
  {
    if d >= NESTING_LIMIT then Error(o)
    else
      var first := SkipSpace(s, o + 1);
      if s[first] == RBRACKET then Done(Array(Nil), first + 1)
      else
        match ParseElements(s, first - 1, d + 1)
        case Error(pos) => Error(pos)
        case Done(items, pos) => if s[pos] == RBRACKET then Done(Array(items), pos + 1) else Error(pos)
  }

  /** The elements after the bracket or comma at `o`, up to the byte that is not a comma. */
  function ParseElements(s: Buffer, o: nat, d: nat): (r: Outcome<Items>)
    requires o + 1 < |s|
    decreases |s| - o, 0
    ensures r.pos <= |s| && (r.Done? ==> o < r.pos < |s|)
  {
    match ParseValue(s, SkipSpace(s, o + 1), d)
    case Error(pos) => Error(pos)
    case Done(value, pos) =>
      var next := SkipSpace(s, pos);
      if s[next] != COMMA then Done(Cons(None, value, Nil), next)
      else FirstBefore(None, value, ParseElements(s, next, d))
  }

  /** An item in front of those that follow its comma. */
  function FirstBefore(name: Option<Text>, value: Json, rest: Outcome<Items>): Outcome<Items> {
    match rest
    case Error(pos) => Error(pos)
    case Done(items, end) => Done(Cons(name, value, items), end)
  }

  function ParseObject(s: Buffer, o: nat, d: nat): (r: Outcome<Json>)
    requires o < |s| && s[o] == LBRACE
    decreases |s| - o, 1
    ensures r.pos <= |s| && (r.Done? ==> o <= r.pos < |s|)
  {
    if d >= NESTING_LIMIT then Error(o)
    else
      var first := SkipSpace(s, o + 1);
      if s[first] == RBRACE then Done(Object(Nil), first + 1)
      else
        match ParseMembers(s, first - 1, d + 1)
        case Error(pos) => Error(pos)
        case Done(items, pos) => if s[pos] == RBRACE then Done(Object(items), pos + 1) else Error(pos)
  }

  /** The name at `o`, then the offset just past its colon. */
  function ParseName(s: Buffer, o: nat): (r: Outcome<Text>)
    requires o < |s|
    ensures r.pos <= |s| && (r.Done? ==> o < r.pos < |s|)
  {
    match ParseString(s, o)
    case Error(pos) => Error(pos)
    case Done(name, pos) =>
      EndsBeforeNul(s, o);
      var colon := SkipSpace(s, pos);
      if s[colon] == COLON then Done(name, colon + 1) else Error(colon)
  }

  /** The members after the brace or comma at `o`, up to the byte that is not a comma. */
  function ParseMembers(s: Buffer, o: nat, d: nat): (r: Outcome<Items>)
    requires o + 1 < |s|
    decreases |s| - o, 0
    ensures r.pos <= |s| && (r.Done? ==> o < r.pos < |s|)
  {
    match ParseName(s, SkipSpace(s, o + 1))
    case Error(pos) => Error(pos)
    case Done(name, start) => ParseNamed(s, name, start, d)
  }

  /** The value behind the colon of a member, and the members behind its comma. */
  function ParseNamed(s: Buffer, name: Text, start: nat, d: nat): (r: Outcome<Items>)
    requires start < |s|
    decreases |s| - start, 3
    ensures r.pos <= |s| && (r.Done? ==> start <= r.pos < |s|)
  {
    match ParseValue(s, SkipSpace(s, start), d)
    case Error(pos) => Error(pos)
    case Done(value, pos) =>
      var next := SkipSpace(s, pos);
      if s[next] != COMMA then Done(Cons(Some(name), value, Nil), next)
      else FirstBefore(Some(name), value, ParseMembers(s, next, d))
  }

  // ---------- no token reaches the final NUL ----------

  lemma LastByte(s: Buffer, o: nat, w: Text)
    requires |w| > 0 && At(s, o, w)
    ensures o + |w| < |s|
  {
    AtByte(s, o, w, |w| - 1);
  }

  lemma EndsBeforeNul(s: Buffer, o: nat)
    requires o < |s|
    ensures ParseString(s, o).Done? ==> ParseString(s, o).pos < |s|
  {
  }

  lemma {:induction false} HexRunStops(s: Buffer, o: nat, i: nat)
    requires i <= 63 && o + i < |s|
    ensures o + HexRun(s, o, i) < |s|
    decreases 63 - i
  {
    if i < 63 && HexRunChar(s[o + i]) { HexRunStops(s, o, i + 1); }
  }

  lemma HexStops(s: Buffer, o: nat)
    requires o < |s|
    ensures ParseHexNumber(s, o).pos < |s|
  {
    HexRunStops(s, o, 0);
  }

  lemma {:induction false} NumberRunStops(s: Buffer, o: nat, i: nat)
    requires i <= 63 && o + i < |s|
    ensures o + NumberRun(s, o, i) < |s|
    decreases 63 - i
  {
    if i < 63 && NumberChar(s[o + i]) { NumberRunStops(s, o, i + 1); }
  }

  lemma NumberStops(s: Buffer, o: nat)
    requires o < |s|
    ensures ParseNumber(s, o).Done? ==> ParseNumber(s, o).pos < |s|
  {
    NumberRunStops(s, o, 0);
  }

  // ---------- the whole text ----------

  /** skip_utf8_bom: only when five bytes are there. */
  function SkipBom(s: Buffer): (o: nat)
    ensures o < |s|
  {
    if 4 < |s| && s[0] == 0xEF && s[1] == 0xBB && s[2] == 0xBF then 3 else 0
  }

  /** cJSON_ParseWithLengthOpts: the tree and the parse end, or the reported error position. */
  function ParseText(s: Buffer, requireNul: bool): (r: Outcome<Json>)
    ensures r.pos < |s|
  {
    match ParseValue(s, SkipSpace(s, SkipBom(s)), 0)
    case Error(pos) => Error(if pos < |s| then pos else |s| - 1)
    case Done(value, pos) =>
      var end := if requireNul then SkipSpace(s, pos) else pos;
      if requireNul && s[end] != NUL then Error(end) else Done(value, end)
  }
}
