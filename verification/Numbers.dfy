/** Number tokens: decimal text, the prefix strtod reads, and the hexadecimal extension. */
module Numbers {
  import opened Bytes
  import opened JsonValue
  import opened StringLiteral
  import opened Utf

  // ---------- printing ----------

  function Digits(n: nat): (t: Text)
    ensures |t| >= 1
  {
    if n < 10 then [ZERO + n] else Digits(n / 10) + [ZERO + n % 10]
  }

  /** What %1.15g prints for an integer of at most 15 digits. */
  function DecimalText(n: int): Text {
    if n < 0 then [MINUS] + Digits(-n) else Digits(n)
  }

  const LARGEST_PLAIN: int := 999_999_999_999_999

  predicate PlainInteger(value: real) {
    value.Floor as real == value && -LARGEST_PLAIN <= value.Floor <= LARGEST_PLAIN
  }

  // ---------- reading ----------

  predicate IsDigit(c: byte) { 48 <= c <= 57 }

  predicate NumberChar(c: byte) {
    IsDigit(c) || c == PLUS || c == MINUS || c == LOWER_E || c == UPPER_E || c == DOT
  }

  /** The bytes parse_number copies: at most 63, up to the first one that no number contains. */
  function NumberRun(s: seq<byte>, o: nat, i: nat): (n: nat)
    requires i <= 63 && o + i <= |s|
    decreases |s| - (o + i)
    ensures i <= n <= 63 && o + n <= |s|
  {
    if i < 63 && o + i < |s| && NumberChar(s[o + i]) then NumberRun(s, o, i + 1) else i
  }

  /** The text that run copies. */
  function NumberText(s: seq<byte>, o: nat): seq<byte>
    requires o < |s|
  {
    s[o..o + NumberRun(s, o, 0)]
  }

  function DigitRun(w: seq<byte>, i: nat): (j: nat)
    requires i <= |w|
    decreases |w| - i
    ensures i <= j <= |w|
  {
    if i < |w| && IsDigit(w[i]) then DigitRun(w, i + 1) else i
  }

  /** The number written by the digits of `w`, other bytes being skipped. */
  function DigitsValue(w: seq<byte>): nat {
    if w == [] then 0
    else
      var last: byte := w[|w| - 1];
      if IsDigit(last) then 10 * DigitsValue(w[..|w| - 1]) + (last - 48) else DigitsValue(w[..|w| - 1])
  }

  /** `m` times ten to the power `k`. */
  function Scale(m: real, k: int): real
    decreases if k < 0 then -k else k
  {
    if k == 0 then m else if k > 0 then Scale(10.0 * m, k - 1) else Scale(m / 10.0, k + 1)
  }

  /** strtod on decimal text: the value of the longest number `w` starts with, and its length. */
  function Strtod(w: seq<byte>): (r: (real, nat))
    ensures r.1 <= |w|
  {
    var sign := if w != [] && (w[0] == MINUS || w[0] == PLUS) then 1 else 0;
    var whole := DigitRun(w, sign);
    var dotted := whole < |w| && w[whole] == DOT;
    var end := if dotted then DigitRun(w, whole + 1) else whole;
    var fraction := if dotted then end - whole - 1 else 0;
    if whole - sign + fraction == 0 then (0.0, 0)
    else
      var magnitude := DigitsValue(w[sign..end]) as real;
      var mantissa := if sign == 1 && w[0] == MINUS then -magnitude else magnitude;
      var mark := end < |w| && (w[end] == LOWER_E || w[end] == UPPER_E);
      var signed := mark && end + 1 < |w| && (w[end + 1] == MINUS || w[end + 1] == PLUS);
      var from := if signed then end + 2 else if mark then end + 1 else end;
      var stop := if mark then DigitRun(w, from) else end;
      if mark && stop > from then
        var exponent: int := DigitsValue(w[from..stop]);
        (Scale(mantissa, (if signed && w[end + 1] == MINUS then -exponent else exponent) - fraction), stop)
      else (Scale(mantissa, -fraction), end)
  }

  /** What parse_number makes of the bytes it copied. */
  function Numeral(w: seq<byte>, o: nat): (r: Outcome<Json>)
    ensures r.Done? ==> o < r.pos
    ensures r.pos <= o + |w|
  {
    var (value, length) := Strtod(w);
    if length == 0 then Error(o) else Done(Number(value, Saturate(value)), o + length)
  }

  function ParseNumber(s: seq<byte>, o: nat): (r: Outcome<Json>)
    requires o < |s|
    ensures r.Done? ==> o < r.pos <= |s|
    ensures r.pos <= |s|
  {
    Numeral(NumberText(s, o), o)
  }

  /** The conversion of a double inside the range of int. */
  function Truncated(value: real): int {
    if value >= 0.0 then value.Floor else -((-value).Floor)
  }

  /** parse_number: the value of the number at `o`, its int form and its length, 0 if there is none. */
  method ReadNumber(s: seq<byte>, o: nat) returns (value: real, intValue: int, length: nat)
    requires o < |s|
    ensures ParseNumber(s, o) == if length == 0 then Error(o) else Done(Number(value, intValue), o + length)
  {
    var text := CopyNumber(s, o);
    var number := Strtod(text);
    value, length := number.0, number.1;
    intValue := IntForm(value);
    NumeralIs(text, o, value, length);
  }

  lemma NumeralIs(w: seq<byte>, o: nat, value: real, length: nat)
    requires Strtod(w) == (value, length)
    ensures Numeral(w, o) == if length == 0 then Error(o) else Done(Number(value, Saturate(value)), o + length)
  {
  }

  /** valueint is saturated where the number does not fit. */
  method IntForm(value: real) returns (intValue: int)
    ensures intValue == Saturate(value)
  {
    if value >= INT_MAX as real {
      intValue := INT_MAX;
    } else if value <= INT_MIN as real {
      intValue := INT_MIN;
    } else {
      intValue := Truncated(value);
    }
  }

  // ---------- the hexadecimal extension ----------

  predicate HexRunChar(c: byte) { HexDigit(c) >= 0 || c == LOWER_X }

  function HexRun(s: seq<byte>, o: nat, i: nat): (n: nat)
    requires i <= 63 && o + i <= |s|
    decreases |s| - (o + i)
    ensures i <= n <= 63 && o + n <= |s|
  {
    if i < 63 && o + i < |s| && HexRunChar(s[o + i]) then HexRun(s, o, i + 1) else i
  }

  /** The hexadecimal digits of `w` from `i` up to the first other byte, added to `acc`. */
  function HexValue(w: seq<byte>, i: nat, acc: nat): nat
    requires i <= |w|
    decreases |w| - i
  {
    if i < |w| && HexDigit(w[i]) >= 0 then HexValue(w, i + 1, 16 * acc + HexDigit(w[i])) else acc
  }

  const ULONG_MAX: int := 0xFFFF_FFFF_FFFF_FFFF

  /** strtoul with base 0 on text that starts with "0x". */
  function Strtoul(w: seq<byte>): nat {
    if |w| < 3 then 0
    else var value := HexValue(w, 2, 0); if value > ULONG_MAX then ULONG_MAX else value
  }

  /** The conversion of an unsigned long to int keeps the low 32 bits. */
  function LowInt(n: nat): int {
    var low := n % 0x1_0000_0000;
    if low > INT_MAX then low - 0x1_0000_0000 else low
  }

  /** What parse_number_hex makes of the bytes it copied. */
  function HexNumeral(w: seq<byte>, pos: nat): Outcome<Json> {
    var number := Strtoul(w);
    Done(Number(number as real, LowInt(number)), pos)
  }

  /** The offset moves only when the run was ended by another byte. */
  function ParseHexNumber(s: seq<byte>, o: nat): (r: Outcome<Json>)
    requires o < |s|
    ensures r.Done? && o <= r.pos <= |s|
  {
    var run := HexRun(s, o, 0);
    HexNumeral(s[o..o + run], if run < 63 && o + run < |s| then o + run else o)
  }

  /** The first loop of parse_number: the number is copied to a 64-byte buffer. */
  method CopyNumber(s: seq<byte>, o: nat) returns (text: seq<byte>)
    requires o < |s|
    ensures text == NumberText(s, o)
  {
    var buffer := new byte[64];
    var i := 0;
    while i < 63 && o + i < |s| && NumberChar(s[o + i])
      invariant i <= 63 && o + i <= |s|
      invariant NumberRun(s, o, i) == NumberRun(s, o, 0)
      invariant forall k :: 0 <= k < i ==> buffer[k] == s[o + k]
    {
      buffer[i] := s[o + i];
      i := i + 1;
    }
    buffer[i] := NUL;
    text := buffer[..i];
  }

  /** parse_number_hex likewise; `advance` is left at 0 when nothing ended the run. */
  method CopyHexNumber(s: seq<byte>, o: nat) returns (text: seq<byte>, advance: nat)
    requires o < |s|
    ensures text == s[o..o + HexRun(s, o, 0)]
    ensures o + advance == ParseHexNumber(s, o).pos
  {
    var buffer := new byte[64];
    var i := 0;
    advance := 0;
    while i < 63 && o + i < |s|
      invariant i <= 63 && o + i <= |s| && advance == 0
      invariant HexRun(s, o, i) == HexRun(s, o, 0)
      invariant forall k :: 0 <= k < i ==> buffer[k] == s[o + k]
    {
      if !HexRunChar(s[o + i]) {
        advance := i;
        break;
      }
      buffer[i] := s[o + i];
      i := i + 1;
    }
    buffer[i] := NUL;
    text := buffer[..i];
  }

  // ---------- printed integers read back ----------

  lemma {:induction false} DigitsAreDigits(n: nat)
    ensures forall i :: 0 <= i < |Digits(n)| ==> IsDigit(Digits(n)[i])
    ensures n > 0 ==> Digits(n)[0] != ZERO
    ensures DigitsValue(Digits(n)) == n
    decreases n
  {
    if n >= 10 {
      DigitsAreDigits(n / 10);
      assert Digits(n)[..|Digits(n)| - 1] == Digits(n / 10);
    } else {
      assert Digits(n)[..0] == [] && DigitsValue([]) == 0;
    }
  }

  lemma {:induction false} DigitsAreFew(n: nat, k: nat)
    requires k >= 1 && n < Power10(k)
    ensures |Digits(n)| <= k
  {
    if n >= 10 {
      assert Power10(k) == 10 * Power10(k - 1);
      DigitsAreFew(n / 10, k - 1);
    }
  }

  function Power10(k: nat): nat {
    if k == 0 then 1 else 10 * Power10(k - 1)
  }

  lemma {:induction false} AllDigits(w: seq<byte>, i: nat)
    requires i <= |w| && forall j :: i <= j < |w| ==> IsDigit(w[j])
    ensures DigitRun(w, i) == |w|
    decreases |w| - i
  {
    if i < |w| { AllDigits(w, i + 1); }
  }

  /** A byte that can follow a printed value. */
  predicate Delimiter(c: byte) {
    c == NUL || c == NEWLINE || c == COMMA || c == RBRACKET || c == RBRACE
  }

  lemma {:induction false} RunCovers(s: seq<byte>, o: nat, n: nat, i: nat)
    requires i <= n <= 63 && o + n < |s| && !NumberChar(s[o + n])
    requires forall j :: o <= j < o + n ==> NumberChar(s[j])
    ensures NumberRun(s, o, i) == n
    decreases n - i
  {
    if i < n { RunCovers(s, o, n, i + 1); }
  }

  lemma StrtodOfDecimal(n: int)
    ensures Strtod(DecimalText(n)) == (n as real, |DecimalText(n)|)
  {
    var w, sign := DecimalText(n), if n < 0 then 1 else 0;
    var m := if n < 0 then -n else n;
    DigitsAreDigits(m);
    assert w[sign..] == Digits(m);
    AllDigits(w, sign);
    assert w[sign..|w|] == w[sign..];
    assert IsDigit(w[sign]) && (n >= 0 ==> w[0] == w[sign]);
    assert DigitsValue(w[sign..|w|]) as real == m as real;
    assert n < 0 ==> -(m as real) == n as real;
  }

  lemma DecimalRun(s: seq<byte>, o: nat, n: int)
    requires -LARGEST_PLAIN <= n <= LARGEST_PLAIN
    requires At(s, o, DecimalText(n)) && o + |DecimalText(n)| < |s| && Delimiter(s[o + |DecimalText(n)|])
    ensures NumberText(s, o) == DecimalText(n)
    ensures IsDigit(s[o]) || s[o] == MINUS
    ensures s[o] == ZERO ==> s[o + 1] != LOWER_X
  {
    var w := DecimalText(n);
    DecimalForm(n, w);
    TextRun(s, o, w);
    AtByte(s, o, w, 0);
  }

  /** Decimal text is short, made of characters of numbers, and has no leading zero but a single one. */
  lemma DecimalForm(n: int, w: Text)
    requires -LARGEST_PLAIN <= n <= LARGEST_PLAIN && w == DecimalText(n)
    ensures 1 <= |w| <= 16 && (forall i :: 0 <= i < |w| ==> NumberChar(w[i]))
    ensures IsDigit(w[0]) || w[0] == MINUS
    ensures w[0] == ZERO ==> |w| == 1
  {
    var m := if n < 0 then -n else n;
    DigitsAreDigits(m);
    Power15();
    DigitsAreFew(m, 15);
    if m == 0 { assert |w| == 1; }
  }

  lemma Power15()
    ensures Power10(15) == 1_000_000_000_000_000
  {
    assert Power10(5) == 100_000;
    assert Power10(10) == 10_000_000_000;
  }

  /** A text of such characters is what the first loop of parse_number copies, up to the delimiter. */
  lemma TextRun(s: seq<byte>, o: nat, w: Text)
    requires At(s, o, w) && |w| <= 16 && o + |w| < |s| && Delimiter(s[o + |w|])
    requires forall i :: 0 <= i < |w| ==> NumberChar(w[i])
    ensures NumberText(s, o) == w
  {
    forall j | o <= j < o + |w| ensures NumberChar(s[j]) { AtByte(s, o, w, j - o); }
    RunCovers(s, o, |w|, 0);
    AtSlice(s, o, w);
  }

  /** A printed integer is read back as the same number, and nothing more is consumed. */
  lemma DecimalReadsBack(s: seq<byte>, o: nat, n: int)
    requires -LARGEST_PLAIN <= n <= LARGEST_PLAIN
    requires At(s, o, DecimalText(n)) && o + |DecimalText(n)| < |s| && Delimiter(s[o + |DecimalText(n)|])
    ensures ParseNumber(s, o) == Done(Number(n as real, Saturate(n as real)), o + |DecimalText(n)|)
  {
    DecimalRun(s, o, n);
    StrtodOfDecimal(n);
    var w := DecimalText(n);
    NumeralIs(w, o, n as real, |w|);
  }
}
