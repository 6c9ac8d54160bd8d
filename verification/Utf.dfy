/** `\uXXXX` literals: hexadecimal digits, UTF-16 surrogate pairs and their UTF-8 form. */
module Utf {
  import opened Bytes
  import opened JsonValue

  // ---------- four hexadecimal digits ----------

  function HexDigit(c: byte): (v: int)
    ensures -1 <= v < 16
  {
    if 48 <= c <= 57 then c - 48
    else if 65 <= c <= 70 then 10 + c - 65
    else if 97 <= c <= 102 then 10 + c - 97
    else -1
  }

  predicate HexAt(s: seq<byte>, i: nat)
    requires i + 4 <= |s|
  {
    HexDigit(s[i]) >= 0 && HexDigit(s[i + 1]) >= 0 && HexDigit(s[i + 2]) >= 0 && HexDigit(s[i + 3]) >= 0
  }

  /** The number four digits denote; malformed digits read as 0. */
  function Hex4(s: seq<byte>, i: nat): (h: nat)
    requires i + 4 <= |s|
    ensures h < 0x10000
  {
    if HexAt(s, i)
    then 0x1000 * HexDigit(s[i]) + 0x100 * HexDigit(s[i + 1]) + 0x10 * HexDigit(s[i + 2]) + HexDigit(s[i + 3])
    else 0
  }

  /** What the first `k` digits denote when they are well formed. */
  function HexPrefix(s: seq<byte>, i: nat, k: nat): int
    requires k <= 4 && i + 4 <= |s|
  {
    if k == 0 then 0 else 16 * HexPrefix(s, i, k - 1) + HexDigit(s[i + k - 1])
  }

  method ParseHex4(s: seq<byte>, start: nat) returns (h: nat)
    requires start + 4 <= |s|
    ensures h == Hex4(s, start)
  {
    h := 0;
    var i := 0;
    while i < 4
      invariant i <= 4
      invariant forall j :: start <= j < start + i ==> HexDigit(s[j]) >= 0
      invariant 0 <= h
      invariant h == HexPrefix(s, start, i) * if i < 4 then 16 else 1
    {
      var digit := HexDigit(s[start + i]);
      if digit < 0 {
        return 0;
      }
      h := h + digit;
      if i < 3 {
        h := h * 16;
      }
      i := i + 1;
    }
    assert HexPrefix(s, start, 2) == 16 * HexPrefix(s, start, 1) + HexDigit(s[start + 1]);
    assert HexPrefix(s, start, 3) == 16 * HexPrefix(s, start, 2) + HexDigit(s[start + 2]);
  }

  // ---------- UTF-8, section 3 of RFC 3629 ----------

  type CodePoint = c: int | 0 <= c <= 0x10FFFF

  function Width(c: CodePoint): (n: nat)
    ensures 1 <= n <= 4
  {
    if c < 0x80 then 1 else if c < 0x800 then 2 else if c < 0x10000 then 3 else 4
  }

  /** Byte `i` of the UTF-8 form. */
  function Utf8Byte(c: CodePoint, i: nat): byte
    requires i < Width(c)
  {
    if c < 0x80 then c
    else if c < 0x800 then (if i == 0 then 0xC0 + c / 0x40 else 0x80 + c % 0x40)
    else if c < 0x10000 then
      (if i == 0 then 0xE0 + c / 0x1000 else if i == 1 then 0x80 + c / 0x40 % 0x40 else 0x80 + c % 0x40)
    else
      (if i == 0 then 0xF0 + c / 0x40000 else if i == 1 then 0x80 + c / 0x1000 % 0x40
       else if i == 2 then 0x80 + c / 0x40 % 0x40 else 0x80 + c % 0x40)
  }

  function Utf8(c: CodePoint): (bytes: seq<byte>)
    ensures |bytes| == Width(c)
  {
    seq(Width(c), i requires 0 <= i < Width(c) => Utf8Byte(c, i))
  }

  predicate Continuation(b: byte) { 0x80 <= b < 0xC0 }

  /** A decoder that accepts only the shortest form, as the RFC demands. */
  function DecodeUtf8(b: seq<byte>): Option<CodePoint> {
    var x: seq<int> := b;
    if |x| == 1 && x[0] < 0x80 then Some(x[0])
    else if |x| == 2 && 0xC2 <= x[0] < 0xE0 && Continuation(b[1]) then
      Some((x[0] - 0xC0) * 0x40 + x[1] - 0x80)
    else if |x| == 3 && 0xE0 <= x[0] < 0xF0 && Continuation(b[1]) && Continuation(b[2])
         && (x[0] == 0xE0 ==> x[1] >= 0xA0) then
      Some((x[0] - 0xE0) * 0x1000 + (x[1] - 0x80) * 0x40 + x[2] - 0x80)
    else if |x| == 4 && 0xF0 <= x[0] < 0xF5 && Continuation(b[1]) && Continuation(b[2]) && Continuation(b[3])
         && (x[0] == 0xF0 ==> x[1] >= 0x90) && (x[0] == 0xF4 ==> x[1] < 0x90) then
      Some((x[0] - 0xF0) * 0x40000 + (x[1] - 0x80) * 0x1000 + (x[2] - 0x80) * 0x40 + x[3] - 0x80)
    else None
  }

  lemma Utf8Decodes(c: CodePoint)
    ensures DecodeUtf8(Utf8(c)) == Some(c)
  {
    var b := Utf8(c);
    assert forall i :: 0 <= i < |b| ==> b[i] == Utf8Byte(c, i);
    if c >= 0x10000 {
      assert c / 0x40 / 0x40 == c / 0x1000 && c / 0x1000 / 0x40 == c / 0x40000;
    } else if c >= 0x800 {
      assert c / 0x40 / 0x40 == c / 0x1000;
    }
  }

  /** The bit masks of the source and the arithmetic used here agree on every 32-bit value. */
  lemma MaskIsArithmetic(c: bv32)
    ensures ((c | 0x80) & 0xBF) & 0xFF == 0x80 + c % 0x40
    ensures c >> 6 == c / 0x40
    ensures c < 0x20 ==> (c | 0xC0) & 0xFF == 0xC0 + c
    ensures c < 0x10 ==> (c | 0xE0) & 0xFF == 0xE0 + c
    ensures c < 0x08 ==> (c | 0xF0) & 0xFF == 0xF0 + c
    ensures 0xD800 <= c <= 0xDBFF ==> c & 0x3FF == c - 0xD800
    ensures 0xDC00 <= c <= 0xDFFF ==> c & 0x3FF == c - 0xDC00
  {
  }

  // ---------- UTF-16, section 2 of RFC 2781 ----------

  predicate HighSurrogate(u: int) { 0xD800 <= u <= 0xDBFF }
  predicate LowSurrogate(u: int) { 0xDC00 <= u <= 0xDFFF }

  /** The UTF-16 code units of a code point, section 2.1 of RFC 2781. */
  function Utf16(c: CodePoint): seq<int> {
    if c < 0x10000 then [c]
    else [0xD800 + (c - 0x10000) / 0x400, 0xDC00 + (c - 0x10000) % 0x400]
  }

  datatype Literal = Rejected | Accepted(point: CodePoint, length: nat)

  /** What the literal at `p` denotes when the string ends at `end`. */
  function Denotes(s: seq<byte>, p: nat, end: nat): (r: Literal)
    requires end <= |s|
    ensures r.Accepted? ==> (r.length == 6 || r.length == 12) && p + r.length <= end
  {
    if end - p < 6 then Rejected
    else
      var first := Hex4(s, p + 2);
      if LowSurrogate(first) then Rejected
      else if HighSurrogate(first) then
        if end - (p + 6) < 6 || s[p + 6] != BACKSLASH || s[p + 7] != LOWER_U then Rejected
        else
          var second := Hex4(s, p + 8);
          if !LowSurrogate(second) then Rejected
          else Accepted(0x10000 + (first - 0xD800) * 0x400 + (second - 0xDC00), 12)
      else Accepted(first, 6)
  }

  /** The code units spelled by a literal of one or two sequences. */
  function Units(s: seq<byte>, p: nat, length: nat): seq<int>
    requires p + length <= |s| && (length == 6 || length == 12)
  {
    if length == 6 then [Hex4(s, p + 2)] else [Hex4(s, p + 2), Hex4(s, p + 8)]
  }

  /** An accepted literal spells exactly the UTF-16 form of the code point, which is never a surrogate. */
  lemma AcceptedIsUtf16(s: seq<byte>, p: nat, end: nat)
    requires end <= |s| && Denotes(s, p, end).Accepted?
    ensures var r := Denotes(s, p, end);
      Units(s, p, r.length) == Utf16(r.point) && !HighSurrogate(r.point) && !LowSurrogate(r.point)
  {
    var r := Denotes(s, p, end);
    if r.length == 12 {
      PairOf(Hex4(s, p + 2), Hex4(s, p + 8));
    }
  }

  /** The code point of a surrogate pair, and back, section 2 of RFC 2781. */
  lemma PairOf(first: int, second: int)
    requires HighSurrogate(first) && LowSurrogate(second)
    ensures var c := 0x10000 + (first - 0xD800) * 0x400 + (second - 0xDC00);
      0x10000 <= c <= 0x10FFFF && Utf16(c) == [first, second]
  {
    var a, b := first - 0xD800, second - 0xDC00;
    assert (a * 0x400 + b) / 0x400 == a && (a * 0x400 + b) % 0x400 == b;
  }

  /** Every code point that is not a surrogate, written with its UTF-16 units, is accepted as itself. */
  lemma ScalarIsAccepted(s: seq<byte>, p: nat, end: nat, c: CodePoint)
    requires !HighSurrogate(c) && !LowSurrogate(c)
    requires var n := 6 * |Utf16(c)|; p + n <= end <= |s| && Units(s, p, n) == Utf16(c)
    requires |Utf16(c)| == 2 ==> s[p + 6] == BACKSLASH && s[p + 7] == LOWER_U
    ensures Denotes(s, p, end) == Accepted(c, 6 * |Utf16(c)|)
  {
    if c < 0x10000 {
      assert Hex4(s, p + 2) == Units(s, p, 6)[0] == c;
    } else {
      assert Hex4(s, p + 2) == Units(s, p, 12)[0] && Hex4(s, p + 8) == Units(s, p, 12)[1];
    }
  }

  /** A surrogate that is not the first half of a well-formed pair is rejected. */
  lemma LoneSurrogateIsRejected(s: seq<byte>, p: nat, end: nat)
    requires p + 6 <= end <= |s|
    requires HighSurrogate(Hex4(s, p + 2)) || LowSurrogate(Hex4(s, p + 2))
    ensures Denotes(s, p, end).Accepted? <==>
            HighSurrogate(Hex4(s, p + 2)) && p + 12 <= end
            && s[p + 6] == BACKSLASH && s[p + 7] == LOWER_U && LowSurrogate(Hex4(s, p + 8))
  {
  }

  /** The literal at `p` is converted into `out` from index `w` on; `length` is 0 when it is rejected. */
  method Utf16LiteralToUtf8(s: seq<byte>, p: nat, end: nat, out: array<byte>, w: nat)
    returns (length: nat, w': nat)
    requires end <= |s|
    requires Denotes(s, p, end).Accepted? ==> w + |Utf8(Denotes(s, p, end).point)| <= out.Length
    modifies out
    ensures length == 0 <==> Denotes(s, p, end).Rejected?
    ensures length == 0 ==> w' == w && out[..] == old(out[..])
    ensures length != 0 ==> length == Denotes(s, p, end).length && w' == w + |Utf8(Denotes(s, p, end).point)|
                            && out[..w] == old(out[..w]) && out[w..w'] == Utf8(Denotes(s, p, end).point)
  {
    var codepoint;
    length, codepoint := ReadCodePoint(s, p, end);
    if length == 0 {
      return 0, w;
    }
    w' := EncodeUtf8(codepoint, out, w);
  }

  /** Its first part: the code point of one or two literals. */
  method ReadCodePoint(s: seq<byte>, p: nat, end: nat) returns (length: nat, codepoint: CodePoint)
    requires end <= |s|
    ensures Denotes(s, p, end) == if length == 0 then Rejected else Accepted(codepoint, length)
  {
    length, codepoint := 0, 0;
    if end - p < 6 {
      return;
    }
    var first := ParseHex4(s, p + 2);
    if LowSurrogate(first) {
      return;
    }
    if HighSurrogate(first) {
      if end - (p + 6) < 6 || s[p + 6] != BACKSLASH || s[p + 7] != LOWER_U {
        return;
      }
      var second := ParseHex4(s, p + 8);
      if !LowSurrogate(second) {
        return;
      }
      length, codepoint := 12, 0x10000 + (first - 0xD800) * 0x400 + (second - 0xDC00);
    } else {
      length, codepoint := 6, first;
    }
  }

  /** The UTF-8 writer: continuation bytes from the last one back, then the first byte. */
  method EncodeUtf8(point: CodePoint, out: array<byte>, w: nat) returns (w': nat)
    requires w + |Utf8(point)| <= out.Length
    modifies out
    ensures w' == w + |Utf8(point)|
    ensures out[..w] == old(out[..w]) && out[w..w'] == Utf8(point)
  {
    var codepoint: int, utf8Length, firstByteMark := point, 1, 0;
    if codepoint < 0x80 {
    } else if codepoint < 0x800 {
      utf8Length, firstByteMark := 2, 0xC0;
    } else if codepoint < 0x10000 {
      utf8Length, firstByteMark := 3, 0xE0;
    } else if codepoint <= 0x10FFFF {
      utf8Length, firstByteMark := 4, 0xF0;
    } else {
      assert false;
    }
    ghost var before := out[..w];
    var position := utf8Length - 1;
    while position > 0
      invariant 0 <= position < utf8Length == |Utf8(point)|
      invariant codepoint == if position == utf8Length - 1 then point
                             else if position == utf8Length - 2 then point / 0x40
                             else if position == utf8Length - 3 then point / 0x1000 else point / 0x40000
      invariant out[..w] == before
      invariant forall k :: position < k < utf8Length ==> out[w + k] == Utf8(point)[k]
    {
      assert point / 0x40 / 0x40 == point / 0x1000 && point / 0x1000 / 0x40 == point / 0x40000;
      out[w + position] := 0x80 + codepoint % 0x40;
      codepoint := codepoint / 0x40;
      position := position - 1;
    }
    if utf8Length > 1 {
      out[w] := firstByteMark + codepoint;
    } else {
      out[w] := codepoint;
    }
    w' := w + utf8Length;
  }
}
