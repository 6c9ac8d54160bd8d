/** UUIDs as hexadecimal text and back. */
module HexText {
  import opened Bytes
  import StringLiteral

  /** hex2num: letters beyond 'f' have values too, and -1 is for other characters. */
  function Hex2Num(c: byte): (v: int)
    ensures -1 <= v < 36
  {
    if 48 <= c <= 57 then c - 48 else if 97 <= c <= 122 then c - 87 else if 65 <= c <= 90 then c - 55 else -1
  }

  /** The values of the digits in a text, other characters being skipped. */
  function Digits(s: Text): seq<int> {
    if s == [] then []
    else
      var v := Hex2Num(s[|s| - 1]);
      if v < 0 then Digits(s[..|s| - 1]) else Digits(s[..|s| - 1]) + [v]
  }

  /** parse_hex_string: each two digits make a byte; it fails when there are too few. */
  method ParseHexString(hexStr: Text, max: nat, data: array<byte>) returns (ok: bool)
    requires 0 < max <= data.Length
    modifies data
    ensures ok <==> |Digits(hexStr)| >= 2 * max
    ensures ok ==> forall j :: 0 <= j < max ==> data[j] == (16 * Digits(hexStr)[2 * j] + Digits(hexStr)[2 * j + 1]) % 256
    ensures forall j :: max <= j < data.Length ==> data[j] == old(data[j])
  {
    var i, j, k := 0, 0, 0;
    ghost var digits := [];
    while i < |hexStr| && j < max
      invariant i <= |hexStr| && j <= max && (j == max ==> k == 0) && 0 <= k <= 1
      invariant digits == Digits(hexStr[..i]) && |digits| == 2 * j + k
      invariant forall m :: 0 <= m < j ==> data[m] == (16 * digits[2 * m] + digits[2 * m + 1]) % 256
      invariant k == 1 ==> data[j] == digits[2 * j]
      invariant forall m :: max <= m < data.Length ==> data[m] == old(data[m])
    {
      assert hexStr[..i + 1][..i] == hexStr[..i];
      var value := Hex2Num(hexStr[i]);
      if value >= 0 {
        digits := digits + [value];
        if k == 0 {
          data[j] := value;
          k := 1;
        } else {
          data[j] := (data[j] * 16 + value) % 256;
          k, j := 0, j + 1;
        }
      }
      i := i + 1;
    }
    DigitsGrow(hexStr, i);
    assert hexStr[..|hexStr|] == hexStr;
    ok := j == max;
  }

  lemma {:induction false} DigitsGrow(s: Text, i: nat)
    requires i <= |s|
    ensures |Digits(s[..i])| <= |Digits(s)| && Digits(s)[..|Digits(s[..i])|] == Digits(s[..i])
    decreases |s| - i
  {
    if i == |s| {
      assert s[..i] == s;
    } else {
      DigitsGrow(s, i + 1);
      assert s[..i + 1][..i] == s[..i];
    }
  }

  // ---------- printed and read back ----------

  /** The %02x form of a byte. */
  function Hex2(b: byte): Text { [StringLiteral.HexChar(b / 16), StringLiteral.HexChar(b % 16)] }

  function DashBefore(n: nat): Text { if n == 4 || n == 6 || n == 8 || n == 10 then [MINUS] else [] }

  /** The bytes in hexadecimal with dashes before those at 4, 6, 8 and 10. */
  function UuidText(bytes: seq<byte>): Text {
    if bytes == [] then []
    else var n := |bytes| - 1; UuidText(bytes[..n]) + DashBefore(n) + Hex2(bytes[n])
  }

  lemma {:induction false} DigitsOfSum(s: Text, c: nonzero)
    ensures Digits(s + [c]) == if Hex2Num(c) < 0 then Digits(s) else Digits(s) + [Hex2Num(c)]
  {
    assert (s + [c])[..|s|] == s;
  }

  /** The digits, taken two by two, are the bytes. */
  predicate Spell(digits: seq<int>, bytes: seq<byte>) {
    |digits| == 2 * |bytes| && forall j :: 0 <= j < |bytes| ==> 16 * digits[2 * j] + digits[2 * j + 1] == bytes[j]
  }

  lemma OneByteMore(digits: seq<int>, bytes: seq<byte>, b: byte)
    requires Spell(digits, bytes)
    ensures Spell(digits + [b / 16] + [b % 16], bytes + [b])
  {
    var more := digits + [b / 16] + [b % 16];
    assert more[|digits|] == b / 16 && more[|digits| + 1] == b % 16;
    assert forall j :: 0 <= j < |digits| ==> more[j] == digits[j];
  }

  lemma {:induction false} DigitsOfDash(s: Text, n: nat)
    ensures Digits(s + DashBefore(n)) == Digits(s)
  {
    if DashBefore(n) == [] {
      assert s + DashBefore(n) == s;
    } else {
      DigitsOfSum(s, MINUS);
    }
  }

  lemma {:induction false} DigitsOfHex(s: Text, b: byte)
    ensures Digits(s + Hex2(b)) == Digits(s) + [b / 16] + [b % 16]
  {
    var high, low := StringLiteral.HexChar(b / 16), StringLiteral.HexChar(b % 16);
    assert Hex2Num(high) == b / 16 && Hex2Num(low) == b % 16;
    DigitsOfSum(s, high);
    DigitsOfSum(s + [high], low);
    assert s + Hex2(b) == s + [high] + [low];
  }

  /** A printed UUID has the digits of its bytes, so parse_hex_string gives the bytes back. */
  lemma {:induction false} UuidDigits(bytes: seq<byte>)
    ensures Spell(Digits(UuidText(bytes)), bytes)
  {
    if bytes != [] {
      var n := |bytes| - 1;
      var before := bytes[..n];
      UuidDigits(before);
      DigitsOfDash(UuidText(before), n);
      DigitsOfHex(UuidText(before) + DashBefore(n), bytes[n]);
      OneByteMore(Digits(UuidText(before)), before, bytes[n]);
      assert before + [bytes[n]] == bytes;
    }
  }
}
