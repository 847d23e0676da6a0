/** Re-chunking a child's output so that no character is cut in two. */
module PtyOutput {
  import opened Prelude
  import opened Utf8

  /** runeLen: how many bytes a start byte asks for; 0 for an illegal one. */
  function RuneNeed(start: byte): nat {
    if 0xC0 <= start < 0xE0 then 2
    else if 0xE0 <= start < 0xF0 then 3
    else if 0xF0 <= start < 0xF8 then 4
    else 0
  }

  /** Where splitRune cuts p when it has looked at everything behind i. */
  function SplitScan(p: seq<byte>, i: int): nat
    requires -1 <= i < |p|
    decreases i + 1
  {
    if i < 0 || i < |p| - 3 || p[i] < 0x80 then |p|
    else if p[i] >= 0xC0 then
      if RuneNeed(p[i]) > 0 && |p| - i < RuneNeed(p[i]) then i else |p|
    else SplitScan(p, i - 1)
  }

  function SplitAt(p: seq<byte>): nat { SplitScan(p, |p| - 1) }

  method SplitRune(p: seq<byte>) returns (complete: seq<byte>, partial: seq<byte>)
    ensures complete + partial == p && |complete| == SplitAt(p) && |partial| <= 3
  {
    var i := |p| - 1;
    while i >= 0 && i >= |p| - 3
      invariant -1 <= i < |p| && i >= |p| - 4
      invariant SplitAt(p) == SplitScan(p, i)
    {
      var b := p[i];
      if b < 0x80 { return p, []; }
      if b >= 0xC0 {
        var need := RuneNeed(b);
        if need > 0 && |p| - i < need { return p[..i], p[i..]; }
        return p, [];
      }
      i := i - 1;
    }
    return p, [];
  }

  lemma {:induction false} SkipContinuations(p: seq<byte>, i: int, j: int)
    requires -1 <= j <= i < |p| && j >= |p| - 4
    requires forall n :: j < n <= i ==> Continuation(p[n])
    ensures SplitScan(p, i) == SplitScan(p, j)
    decreases i - j
  {
    if j < i { SkipContinuations(p, i - 1, j); }
  }

  lemma RuneShape(s: seq<byte>)
    requires RuneLen(s) > 0
    ensures RuneLen(s) == 1 <==> s[0] < 0x80
    ensures RuneLen(s) > 1 ==> s[0] >= 0xC0 && RuneNeed(s[0]) == RuneLen(s)
    ensures forall k :: 0 < k < RuneLen(s) ==> Continuation(s[k])
  {}

  /** The scan stops at the start d of the last character begun in p, whether it is complete or not. */
  lemma ScanStops(p: seq<byte>, s: seq<byte>, d: nat)
    requires p <= s && d < |p| && RuneLen(s[d..]) > 0 && |p| - d <= RuneLen(s[d..])
    ensures SplitAt(p) == if |p| - d == RuneLen(s[d..]) then |p| else d
  {
    var rune := s[d..];
    RuneShape(rune);
    forall k | d < k < |p| ensures Continuation(p[k]) { assert p[k] == s[k] == rune[k - d]; }
    assert p[d] == rune[0];
    SkipContinuations(p, |p| - 1, d);
  }

  /** On a prefix of well-formed text the cut is the last character boundary. */
  lemma SplitAtIsCut(p: seq<byte>, s: seq<byte>)
    requires WellFormed(s) && p <= s
    ensures SplitAt(p) == Cut(s, |p|)
  {
    var n := |p|;
    CutIsBoundary(s, n);
    if Cut(s, n) < n {
      ScanStops(p, s, Cut(s, n));
    } else if n > 0 {
      LastCharacter(s, n);
      ScanStops(p, s, Cut(s, n - 1));
    }
  }

  /** The character before boundary n ends at n. */
  lemma LastCharacter(s: seq<byte>, n: nat)
    requires WellFormed(s) && 0 < n <= |s| && Boundary(s, n)
    ensures var d := Cut(s, n - 1); d < n && RuneLen(s[d..]) == n - d
  {
    CutIsBoundary(s, n - 1);
    var d := Cut(s, n - 1);
    var rune := s[d..];
    assert rune != [];
    RuneShape(rune);
    StartIsBoundary(s, n);
    assert forall i :: 0 <= i < |rune| ==> s[d + i] == rune[i];
  }

  /** Cutting a prefix chunk of well-formed tail leaves well-formed text and the start of one character. */
  lemma CutTail(tail: seq<byte>, chunk: seq<byte>, complete: seq<byte>, rest: seq<byte>)
    requires WellFormed(tail) && chunk <= tail
    requires complete + rest == chunk && |complete| == SplitAt(chunk)
    ensures WellFormed(complete) && WellFormed(tail[|complete|..])
    ensures rest != [] ==> |rest| < RuneLen(tail[|complete|..])
  {
    SplitAtIsCut(chunk, tail);
    CutIsBoundary(tail, |chunk|);
    assert complete == tail[..|complete|];
  }

  /** One read: what is held back goes in front, and what may be incomplete is held back. */
  method Receive(partial: seq<byte>, input: seq<byte>, ghost tail: seq<byte>, ghost later: seq<byte>)
    returns (complete: seq<byte>, rest: seq<byte>, ghost tail': seq<byte>)
    requires tail == partial + input + later
    ensures tail == complete + tail' && tail' == rest + later
    ensures WellFormed(tail) ==> WellFormed(complete) && WellFormed(tail') && (rest != [] ==> |rest| < RuneLen(tail'))
  {
    var chunk := partial + input;
    complete, rest := SplitRune(chunk);
    if WellFormed(tail) { CutTail(tail, chunk, complete, rest); }
    tail' := tail[|complete|..];
    assert tail == (complete + rest) + later;
    assert tail == complete + (rest + later);
  }

  predicate AllWellFormed(chunks: seq<seq<byte>>) { forall c :: c in chunks ==> WellFormed(c) }

  predicate NoneEmpty(chunks: seq<seq<byte>>) { forall c :: c in chunks ==> c != [] }

  /** Pass a chunk on, unless there is nothing in it. */
  function Sent(chunks: seq<seq<byte>>, chunk: seq<byte>): (r: seq<seq<byte>>)
    requires NoneEmpty(chunks)
    ensures Flatten(r) == Flatten(chunks) + chunk && NoneEmpty(r)
    ensures AllWellFormed(chunks) && WellFormed(chunk) ==> AllWellFormed(r)
  {
    FlattenSnoc(chunks, chunk);
    if |chunk| > 0 then chunks + [chunk] else chunks
  }

  /** pumpOutput: inputs are what the pty returned until it failed; chunks are what was sent on. Every
      byte is passed on in order, and when the child wrote well-formed text every chunk is too. */
  method PumpOutput(inputs: seq<seq<byte>>) returns (chunks: seq<seq<byte>>)
    ensures Flatten(chunks) == Flatten(inputs) && NoneEmpty(chunks)
    ensures WellFormed(Flatten(inputs)) ==> AllWellFormed(chunks)
  {
    ghost var tail := Flatten(inputs);
    var partial := [];
    chunks := [];
    for i := 0 to |inputs|
      invariant NoneEmpty(chunks) && Flatten(inputs) == Flatten(chunks) + tail
      invariant tail == partial + Flatten(inputs[i..])
      invariant WellFormed(Flatten(inputs)) ==> AllWellFormed(chunks) && WellFormed(tail)
                                                && (partial != [] ==> |partial| < RuneLen(tail))
    {
      assert inputs[i..][0] == inputs[i] && inputs[i..][1..] == inputs[i + 1..];
      assert tail == partial + inputs[i] + Flatten(inputs[i + 1..]);
      if |inputs[i]| > 0 {
        ghost var before := tail;
        var complete;
        complete, partial, tail := Receive(partial, inputs[i], tail, Flatten(inputs[i + 1..]));
        assert Flatten(chunks) + before == Flatten(chunks) + complete + tail;
        chunks := Sent(chunks, complete);
      }
    }
    assert tail == partial;
    chunks := Sent(chunks, partial);
  }
}
