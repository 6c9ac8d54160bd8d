/** The text a tree prints to, formatted or not, inside `d` arrays and objects. */
module JsonText {
  import opened Bytes
  import opened JsonValue
  import opened StringLiteral
  import opened Numbers
  import opened Grammar

  /** Trees print_value does not refuse. */
  predicate Printable(t: Json)
    decreases t, 1
  {
    match t
    case Invalid => false
    case Raw(text) => text.Some?
    case Array(items) => AllPrintable(items)
    case Object(items) => AllPrintable(items)
    case _ => true
  }

  predicate AllPrintable(items: Items)
    decreases items, 0
  {
    items.Cons? ==> Printable(items.head) && AllPrintable(items.tail)
  }

  /** Trees whose numbers are the ones that print as plain decimals. */
  predicate PlainNumbers(t: Json)
    decreases t, 1
  {
    match t
    case Number(value, _) => PlainInteger(value)
    case Array(items) => AllPlainNumbers(items)
    case Object(items) => AllPlainNumbers(items)
    case _ => true
  }

  predicate AllPlainNumbers(items: Items)
    decreases items, 0
  {
    items.Cons? ==> PlainNumbers(items.head) && AllPlainNumbers(items.tail)
  }

  function Tabs(n: nat): (t: Text)
    ensures |t| == n
  {
    Repeat(TAB, n)
  }

  function Opening(format: bool): Text { if format then [LBRACE, NEWLINE] else [LBRACE] }

  function Closing(format: bool, d: nat): Text { if format then Tabs(d) + [RBRACE] else [RBRACE] }

  function ArrayComma(format: bool, more: bool): Text {
    if !more then [] else if format then [COMMA, SPACE] else [COMMA]
  }

  function Indent(format: bool, d: nat): Text { if format then Tabs(d) else [] }

  function AfterName(format: bool): Text { if format then [COLON, TAB] else [COLON] }

  /** A name and the text of its value. */
  function Member(name: Option<Text>, value: Text, format: bool, d: nat): Text {
    Indent(format, d) + (Quoted(name) + (AfterName(format) + value))
  }

  function AfterMember(format: bool, more: bool): Text {
    (if more then [COMMA] else []) + (if format then [NEWLINE] else [])
  }

  function Rendered(t: Json, format: bool, d: nat): Text
    decreases t, 1
  {
    match t
    case Invalid => []
    case Null => NULL_WORD
    case False => FALSE_WORD
    case True => TRUE_WORD
    case Number(value, _) => DecimalText(value.Floor)
    case Raw(text) => if text.Some? then text.value else []
    case String(text) => Quoted(text)
    case Array(items) => [LBRACKET] + (RenderedElements(items, format, d + 1) + [RBRACKET])
    case Object(items) => Opening(format) + (RenderedMembers(items, format, d + 1) + Closing(format, d))
  }

  function RenderedElements(items: Items, format: bool, d: nat): Text
    decreases items, 0
  {
    match items
    case Nil => []
    case Cons(_, value, tail) =>
      Rendered(value, format, d) + (ArrayComma(format, tail.Cons?) + RenderedElements(tail, format, d))
  }

  function RenderedMembers(items: Items, format: bool, d: nat): Text
    decreases items, 0
  {
    match items
    case Nil => []
    case Cons(name, value, tail) =>
      Member(name, Rendered(value, format, d), format, d)
      + (AfterMember(format, tail.Cons?) + RenderedMembers(tail, format, d))
  }
}
