/** cJSON_Minify: the in-place loop, the text function it computes, and what that does to printed trees. */
module Minify {
  import opened Bytes

  predicate Space(c: byte) { c == SPACE || c == TAB || c == RETURN || c == NEWLINE }

  /** The rest of a one-line comment, its newline included. */
  function LineLength(t: seq<byte>): (n: nat)
    ensures n <= |t|
  {
    if t == [] then 0 else if t[0] == NEWLINE then 1 else 1 + LineLength(t[1..])
  }

  /** The rest of a multi-line comment, its closing mark included. */
  function BlockLength(t: seq<byte>): (n: nat)
    ensures n <= |t|
  {
    if t == [] then 0
    else if t[0] == STAR && |t| > 1 && t[1] == SLASH then 2
    else 1 + BlockLength(t[1..])
  }

  /** The rest of a string, its closing quote included; only a backslash right before a quote protects it. */
  function StringLength(t: seq<byte>): (n: nat)
    ensures n <= |t|
  {
    if t == [] then 0
    else if t[0] == QUOTE then 1
    else if t[0] == BACKSLASH && |t| > 1 && t[1] == QUOTE then 2 + StringLength(t[2..])
    else 1 + StringLength(t[1..])
  }

  /** How many bytes the minifier reads in one turn, and how many of them it keeps. */
  function Turn(t: seq<byte>): (r: (nat, nat))
    requires t != []
    ensures 0 < r.0 <= |t| && (r.1 == 0 || r.1 == r.0)
  {
    if Space(t[0]) then (1, 0)
    else if t[0] == SLASH then
      if |t| > 1 && t[1] == SLASH then (2 + LineLength(t[2..]), 0)
      else if |t| > 1 && t[1] == STAR then (2 + BlockLength(t[2..]), 0)
      else (1, 0)
    else if t[0] == QUOTE then (1 + StringLength(t[1..]), 1 + StringLength(t[1..]))
    else (1, 1)
  }

  function Minified(t: seq<byte>): (m: seq<byte>)
    ensures |m| <= |t|
  {
    if t == [] then [] else t[..Turn(t).1] + Minified(t[Turn(t).0..])
  }

  // ---------- the loop over one buffer ----------

  /** From `r` on the buffer still holds the text `t` and its terminator. */
  ghost predicate Unread(json: array<byte>, t: Text, r: nat)
    reads json
  {
    r <= |t| < json.Length && json[|t|] == NUL && forall i :: r <= i < |t| ==> json[i] == t[i]
  }

  /** Nothing from index `n` on has changed. */
  twostate predicate Kept(json: array<byte>, n: nat)
    reads json
  {
    forall i :: n <= i < json.Length ==> json[i] == old(json[i])
  }

  method SkipOneline(json: array<byte>, start: nat, ghost t: Text) returns (r: nat)
    requires Unread(json, t, start)
    ensures r == start + LineLength(t[start..])
  {
    r := start;
    while json[r] != NUL
      invariant start <= r <= |t|
      invariant r + LineLength(t[r..]) == start + LineLength(t[start..])
      decreases |t| - r
    {
      assert t[r..][1..] == t[r + 1..];
      if json[r] == NEWLINE {
        return r + 1;
      }
      r := r + 1;
    }
  }

  method SkipMultiline(json: array<byte>, start: nat, ghost t: Text) returns (r: nat)
    requires Unread(json, t, start)
    ensures r == start + BlockLength(t[start..])
  {
    r := start;
    while json[r] != NUL
      invariant start <= r <= |t|
      invariant r + BlockLength(t[r..]) == start + BlockLength(t[start..])
      decreases |t| - r
    {
      assert t[r..][1..] == t[r + 1..];
      if json[r] == STAR && json[r + 1] == SLASH {
        return r + 2;
      }
      r := r + 1;
    }
  }

  /** The buffer holds `done`, then what was moved down from `start` up to `r`, and is unread from `r` on. */
  ghost predicate Moved(json: array<byte>, t: Text, done: seq<byte>, start: nat, r: nat, w: nat)
    reads json
  {
    start <= r && w <= r && w == |done| + (r - start) && Unread(json, t, r) && json[..w] == done + t[start..r]
  }

  /** One byte is moved down. */
  method MoveByte(json: array<byte>, r: nat, w: nat, ghost t: Text, ghost done: seq<byte>, ghost start: nat)
    requires Moved(json, t, done, start, r, w) && r < |t|
    modifies json
    ensures Moved(json, t, done, start, r + 1, w + 1)
    ensures Kept(json, |t|)
  {
    json[w] := json[r];
    assert json[..w + 1] == old(json[..w]) + [t[r]];
    assert done + t[start..r] + [t[r]] == done + t[start..r + 1];
  }

  /** minify_string: the string at `start` is moved down to `into`. */
  method CopyString(json: array<byte>, start: nat, into: nat, ghost t: Text) returns (r: nat, w: nat)
    requires into <= start < |t| && t[start] == QUOTE && Unread(json, t, start)
    modifies json
    ensures r == start + 1 + StringLength(t[start + 1..])
    ensures Moved(json, t, old(json[..into]), start, r, w)
    ensures Kept(json, |t|)
  {
    ghost var done := json[..into];
    MoveByte(json, start, into, t, done, start);
    r, w := start + 1, into + 1;
    var closed := false;
    while !closed && json[r] != NUL
      invariant start < r <= |t|
      invariant r + (if closed then 0 else StringLength(t[r..])) == start + 1 + StringLength(t[start + 1..])
      invariant Moved(json, t, done, start, r, w)
      invariant Kept(json, |t|)
      decreases |t| - r
    {
      r, w, closed := CopyTurn(json, r, w, t, done, start);
    }
  }

  /** One turn of the loop of minify_string; a closing quote ends it. */
  method CopyTurn(json: array<byte>, from: nat, into: nat, ghost t: Text, ghost done: seq<byte>, ghost start: nat)
    returns (r: nat, w: nat, closed: bool)
    requires Moved(json, t, done, start, from, into) && from < |t|
    modifies json
    ensures from < r && Moved(json, t, done, start, r, w)
    ensures r + (if closed then 0 else StringLength(t[r..])) == from + StringLength(t[from..])
    ensures Kept(json, |t|)
  {
    StringTurn(t, from);
    var c := json[from];
    MoveByte(json, from, into, t, done, start);
    r, w, closed := from + 1, into + 1, c == QUOTE;
    if c == BACKSLASH && json[r] == QUOTE {
      MoveByte(json, r, w, t, done, start);
      r, w := r + 1, w + 1;
    }
  }

  lemma StringTurn(t: Text, r: nat)
    requires r < |t|
    ensures var n := StringLength(t[r..]);
      if t[r] == QUOTE then n == 1
      else if t[r] == BACKSLASH && r + 1 < |t| && t[r + 1] == QUOTE then n == 2 + StringLength(t[r + 2..])
      else n == 1 + StringLength(t[r + 1..])
  {
    assert t[r..][1..] == t[r + 1..];
    if r + 1 < |t| { assert t[r..][2..] == t[r + 2..]; }
  }

  /** One turn of the loop of cJSON_Minify. */
  method MinifyTurn(json: array<byte>, r: nat, w: nat, ghost t: Text) returns (r': nat, w': nat)
    requires w <= r < |t| && Unread(json, t, r)
    modifies json
    ensures var (read, kept) := Turn(t[r..]);
      r' == r + read && w' == w + kept && (kept == 0 || kept == read)
    ensures r' <= |t| && w' <= r' && Unread(json, t, r')
    ensures json[..w'] == old(json[..w]) + t[r..r + Turn(t[r..]).1]
    ensures Kept(json, |t|)
  {
    TurnAt(t, r);
    r', w' := r, w;
    if Space(json[r]) {
      r' := r + 1;
    } else if json[r] == SLASH {
      if json[r + 1] == SLASH {
        r' := SkipOneline(json, r + 2, t);
      } else if json[r + 1] == STAR {
        r' := SkipMultiline(json, r + 2, t);
      } else {
        r' := r + 1;
      }
    } else if json[r] == QUOTE {
      r', w' := CopyString(json, r, w, t);
    } else {
      MoveByte(json, r, w, t, json[..w], r);
      r', w' := r + 1, w + 1;
    }
  }

  /** What is written, with the minified rest, is the minified text. */
  ghost predicate Progress(json: array<byte>, t: Text, r: nat, w: nat)
    reads json
  {
    w <= r && Unread(json, t, r) && json[..w] + Minified(t[r..]) == Minified(t)
  }

  /** The write position never passes the read position, and what is left is the minified text. */
  method Minify(json: array<byte>, ghost t: Text)
    requires Unread(json, t, 0)
    modifies json
    ensures json[..|Minified(t)|] == Minified(t) && json[|Minified(t)|] == NUL
    ensures Kept(json, |t| + 1)
  {
    var r: nat, w: nat := 0, 0;
    assert t[0..] == t && json[..0] == [];
    while json[r] != NUL
      invariant r <= |t| && Progress(json, t, r, w)
      invariant Kept(json, |t|)
      decreases |t| - r
    {
      r, w := MinifyStep(json, r, w, t);
    }
    MinifiedEnd(json, t, r, w);
    Terminate(json, w, t);
  }

  method Terminate(json: array<byte>, w: nat, ghost t: Text)
    requires w <= |t| < json.Length && json[..w] == Minified(t) && w == |Minified(t)|
    modifies json
    ensures json[..|Minified(t)|] == Minified(t) && json[|Minified(t)|] == NUL
    ensures Kept(json, |t| + 1)
  {
    json[w] := NUL;
  }

  method MinifyStep(json: array<byte>, r: nat, w: nat, ghost t: Text) returns (r': nat, w': nat)
    requires r < |t| && Progress(json, t, r, w)
    modifies json
    ensures r < r' <= |t| && Progress(json, t, r', w') && Kept(json, |t|)
  {
    ghost var done: seq<byte> := json[..w];
    ghost var piece, rest := MinifiedTurn(t, r, done);
    r', w' := MinifyTurn(json, r, w, t);
    assert r' == rest;
    assert json[..w'] == done + piece;
  }

  lemma {:induction false} MinifiedEnd(json: array<byte>, t: Text, r: nat, w: nat)
    requires r <= |t| && Progress(json, t, r, w) && json[r] == NUL
    ensures json[..w] == Minified(t) && w == |Minified(t)| && w <= |t|
  {
    assert t[r..] == [];
    assert json[..w] + [] == json[..w];
  }

  lemma MinifiedTurn(t: Text, r: nat, done: seq<byte>) returns (piece: seq<byte>, rest: nat)
    requires r < |t|
    ensures rest == r + Turn(t[r..]).0 && piece == t[r..r + Turn(t[r..]).1]
    ensures rest <= |t| && done + piece + Minified(t[rest..]) == done + Minified(t[r..])
  {
    var u := t[r..];
    var (read, kept) := Turn(u);
    piece, rest := u[..kept], r + read;
    assert u[read..] == t[rest..] && piece == t[r..r + kept];
    Regroup(done, piece, Minified(t[rest..]));
  }

  lemma TurnAt(t: Text, r: nat)
    requires r < |t|
    ensures t[r..][0] == t[r] && t[r..][1..] == t[r + 1..]
    ensures r + 1 < |t| ==> t[r..][1] == t[r + 1] && t[r..][2..] == t[r + 2..]
  {
  }
}
