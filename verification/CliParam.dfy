/** cli_param_format: a command line is cut into words in place. */
module CliParam {
  import opened Bytes

  predicate Blank(c: byte) { c == SPACE || c == TAB }

  /** A word starts at the start of the line, even with a blank there, and at every byte behind a blank. */
  predicate IsStart(t: Text, k: nat)
    requires k < |t|
  {
    k == 0 || (!Blank(t[k]) && Blank(t[k - 1]))
  }

  /** The blank that ends a word. */
  predicate IsEnd(t: Text, k: nat)
    requires k < |t|
  {
    Blank(t[k]) && (k == 0 || !Blank(t[k - 1]))
  }

  /** The starts of words before `p`, in order. */
  function Starts(t: Text, p: nat): (starts: seq<nat>)
    requires p <= |t|
  {
    if p == 0 then [] else Starts(t, p - 1) + if IsStart(t, p - 1) then [p - 1] else []
  }

  lemma {:induction false} StartsAre(t: Text, p: nat)
    requires p <= |t|
    ensures forall i :: 0 <= i < |Starts(t, p)| ==> Starts(t, p)[i] < p && IsStart(t, Starts(t, p)[i])
    ensures forall i, j :: 0 <= i < j < |Starts(t, p)| ==> Starts(t, p)[i] < Starts(t, p)[j]
  {
    if p > 0 { StartsAre(t, p - 1); }
  }

  lemma {:induction false} StartsGrow(t: Text, p: nat, q: nat)
    requires p <= q <= |t|
    ensures |Starts(t, p)| <= |Starts(t, q)| && Starts(t, q)[..|Starts(t, p)|] == Starts(t, p)
    decreases q - p
  {
    if p < q { StartsGrow(t, p, q - 1); }
  }

  /** The first blank from `i` on, or the end. */
  function WordEnd(t: Text, i: nat): (e: nat)
    requires i <= |t|
    decreases |t| - i
    ensures i <= e <= |t|
  {
    if i == |t| || Blank(t[i]) then i else WordEnd(t, i + 1)
  }

  lemma {:induction false} WordEndIs(t: Text, i: nat)
    requires i <= |t|
    decreases |t| - i
    ensures WordEnd(t, i) < |t| ==> Blank(t[WordEnd(t, i)])
    ensures forall k :: i <= k < WordEnd(t, i) ==> !Blank(t[k])
  {
    if i < |t| && !Blank(t[i]) { WordEndIs(t, i + 1); }
  }

  /** The ends of words before `q` have become NULs, and nothing else has changed. */
  ghost predicate Marked(buffer: seq<byte>, t: Text, q: nat) {
    && |t| < |buffer| && buffer[|t|] == NUL
    && forall k {:trigger buffer[k]} :: 0 <= k < |t| ==> buffer[k] == if k < q && IsEnd(t, k) then NUL else t[k]
  }

  /** The word that starts there stands in the buffer as a C string. */
  ghost predicate IsCut(buffer: seq<byte>, t: Text, start: nat)
    requires start < |t| < |buffer|
  {
    var end := WordEnd(t, start);
    (forall k :: start <= k < end ==> buffer[k] == t[k]) && buffer[end] == NUL
  }

  lemma {:induction false} MarkedIsCut(buffer: seq<byte>, t: Text, q: nat, start: nat)
    requires Marked(buffer, t, q) && start < |t| && IsStart(t, start)
    requires WordEnd(t, start) < q || WordEnd(t, start) == |t|
    ensures IsCut(buffer, t, start)
  {
    var end := WordEnd(t, start);
    WordEndIs(t, start);
    if end < |t| {
      assert end > start ==> !Blank(t[end - 1]);
      assert IsEnd(t, end);
    }
  }

  lemma MarkedStep(buffer: seq<byte>, t: Text, p: nat)
    requires Marked(buffer, t, p) && p < |t|
    ensures Marked(if IsEnd(t, p) then buffer[p := NUL] else buffer, t, p + 1)
  {
  }

  /** Starts of words, in order. */
  ghost predicate AreStarts(t: Text, starts: seq<nat>) {
    && (forall i :: 0 <= i < |starts| ==> starts[i] < |t| && IsStart(t, starts[i]))
    && forall i, j :: 0 <= i < j < |starts| ==> starts[i] < starts[j]
  }

  /** All words but the last end before the next one starts. */
  lemma {:induction false} AllAreCut(buffer: seq<byte>, t: Text, starts: seq<nat>, last: nat, q: nat)
    requires AreStarts(t, starts) && Marked(buffer, t, q)
    requires starts != [] && last == starts[|starts| - 1] <= q
    requires WordEnd(t, last) < q || WordEnd(t, last) == |t|
    ensures forall start <- starts :: start < |t| && IsCut(buffer, t, start)
  {
    forall i | 0 <= i < |starts| ensures IsCut(buffer, t, starts[i]) {
      if i + 1 < |starts| {
        var next := starts[i + 1];
        assert starts[i] < next <= last && Blank(t[next - 1]);
        WordEndIs(t, starts[i]);
      }
      MarkedIsCut(buffer, t, q, starts[i]);
    }
  }

  /** The first word is there from the start. */
  function Seen(p: nat): nat { if p == 0 then 1 else p }

  lemma {:induction false} StartsStep(t: Text, p: nat)
    requires p < |t|
    ensures Starts(t, p + 1) == Starts(t, Seen(p)) + if p > 0 && IsStart(t, p) then [p] else []
  {
    assert Starts(t, 0) == [];
  }

  /** The main loop: words are found and ended until there are enough of them. */
  method CutWords(param: array<byte>, argv: array<nat>, maxCnt: nat, ghost t: Text) returns (cnt: nat, p: nat)
    requires |t| > 0 && Marked(param[..], t, 0) && 0 < maxCnt <= argv.Length
    modifies param, argv
    ensures 1 <= cnt <= maxCnt && p <= |t| && Marked(param[..], t, p)
    ensures argv[..cnt] == Starts(t, Seen(p))
    ensures cnt == maxCnt || p == |t|
    ensures p < |t| ==> IsStart(t, Seen(p) - 1) && (p > 0 ==> cnt > 1)
  {
    FirstWord(argv, t);
    cnt, p := 1, 0;
    var inWord := true;
    while cnt < maxCnt && param[p] != NUL
      invariant 1 <= cnt <= maxCnt && p <= |t| && Marked(param[..], t, p)
      invariant argv[..cnt] == Starts(t, Seen(p))
      invariant inWord <==> WordBefore(t, p)
      invariant (cnt == maxCnt ==> IsStart(t, Seen(p) - 1)) && (p > 0 ==> maxCnt > 1)
      decreases |t| - p
    {
      assert p < |t|;
      cnt, inWord := CutOne(param, argv, cnt, p, inWord, t);
      p := p + 1;
    }
  }

  method FirstWord(argv: array<nat>, ghost t: Text)
    requires |t| > 0 && argv.Length > 0
    modifies argv
    ensures argv[..1] == Starts(t, Seen(0))
  {
    StartsStep(t, 0);
    argv[0] := 0;
  }

  /** A word is under way in front of `p`. */
  predicate WordBefore(t: Text, p: nat)
    requires p <= |t|
  {
    p == 0 || !Blank(t[p - 1])
  }

  /** One turn of the main loop. */
  method CutOne(param: array<byte>, argv: array<nat>, cnt: nat, p: nat, inWord: bool, ghost t: Text)
    returns (cnt': nat, inWord': bool)
    requires p < |t| && Marked(param[..], t, p) && 0 < cnt < argv.Length && argv[..cnt] == Starts(t, Seen(p))
    requires inWord <==> WordBefore(t, p)
    modifies param, argv
    ensures Marked(param[..], t, p + 1) && cnt <= cnt' <= cnt + 1 && argv[..cnt'] == Starts(t, p + 1)
    ensures inWord' <==> WordBefore(t, p + 1)
    ensures cnt' > cnt ==> IsStart(t, p)
  {
    MarkedStep(param[..], t, p);
    StartsStep(t, p);
    cnt', inWord' := cnt, inWord;
    if !inWord && !Blank(param[p]) {
      argv[cnt] := p;
      cnt' := cnt + 1;
      inWord' := true;
    } else if inWord && Blank(param[p]) {
      inWord' := false;
      param[p] := NUL;
    }
  }

  /** The last loop: the word that is under way is ended. */
  method CutLast(param: array<byte>, from: nat, ghost t: Text, ghost start: nat) returns (ghost q: nat)
    requires from < |t| && Marked(param[..], t, from)
    requires start + 1 == Seen(from) && (from > 0 ==> !Blank(t[start]))
    modifies param
    ensures from <= q && Marked(param[..], t, q)
    ensures WordEnd(t, start) < q || WordEnd(t, start) == |t|
  {
    var p := from;
    WordEndIs(t, start);
    while param[p] != NUL
      invariant from <= p <= |t| && Marked(param[..], t, p)
      invariant forall k :: start <= k < p ==> !Blank(t[k])
      decreases |t| - p
    {
      MarkedStep(param[..], t, p);
      if Blank(param[p]) {
        assert IsEnd(t, p);
        param[p] := NUL;
        q := p + 1;
        return;
      }
      p := p + 1;
    }
    q := p;
  }

  /** The words of the line, at most `maxCnt`, become C strings in place. */
  method ParamFormat(param: array<byte>, argv: array<nat>, maxCnt: nat, ghost t: Text) returns (cnt: nat)
    requires Marked(param[..], t, 0) && 0 < maxCnt <= argv.Length
    modifies param, argv
    ensures cnt == if |Starts(t, |t|)| < maxCnt then |Starts(t, |t|)| else maxCnt
    ensures argv[..cnt] == Starts(t, |t|)[..cnt]
    ensures forall start <- Starts(t, |t|)[..cnt] :: start < |t| && IsCut(param[..], t, start)
  {
    if param[0] == NUL {
      return 0;
    }
    var p;
    cnt, p := CutWords(param, argv, maxCnt, t);
    ghost var starts, last := argv[..cnt], argv[cnt - 1];
    FirstStarts(t, Seen(p), starts);
    assert cnt > 1 ==> last > starts[0];
    ghost var q := p;
    if param[p] != NUL {
      LastStart(t, Seen(p), starts);
      q := CutLast(param, p, t, last);
    }
    AllAreCut(param[..], t, starts, last, q);
  }

  lemma {:induction false} LastStart(t: Text, p: nat, starts: seq<nat>)
    requires 0 < p <= |t| && IsStart(t, p - 1) && starts == Starts(t, p)
    ensures starts != [] && starts[|starts| - 1] == p - 1
  {
  }

  /** The words found so far are the first ones of the line. */
  lemma {:induction false} FirstStarts(t: Text, p: nat, starts: seq<nat>)
    requires p <= |t| && starts == Starts(t, p)
    ensures AreStarts(t, starts)
    ensures |starts| <= |Starts(t, |t|)| && Starts(t, |t|)[..|starts|] == starts
  {
    StartsGrow(t, p, |t|);
    StartsAre(t, p);
  }
}
