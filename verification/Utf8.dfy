/** Well-formed UTF-8, section 4 of RFC 3629, and where its characters begin: what every other module that
    cuts text into pieces relies on. */
module Utf8 {

  import opened Prelude

  predicate Continuation(b: byte) { 0x80 <= b < 0xC0 }

  predicate Tails(s: seq<byte>, n: nat) {
    |s| >= n && forall i :: 1 <= i < n ==> Continuation(s[i])
  }

  /** The length of the character s starts with; 0 when it starts with none. */
  function RuneLen(s: seq<byte>): (n: nat)
    ensures n <= |s| && n <= 4
    ensures n > 0 ==> !Continuation(s[0]) && Tails(s, n)
  {
    if s == [] then 0
    else if s[0] < 0x80 then 1
    else if 0xC2 <= s[0] <= 0xDF && Tails(s, 2) then 2
    else if 0xE0 <= s[0] <= 0xEF && Tails(s, 3)
            && (s[0] == 0xE0 ==> s[1] >= 0xA0) && (s[0] == 0xED ==> s[1] <= 0x9F) then 3
    else if 0xF0 <= s[0] <= 0xF4 && Tails(s, 4)
            && (s[0] == 0xF0 ==> s[1] >= 0x90) && (s[0] == 0xF4 ==> s[1] <= 0x8F) then 4
    else 0
  }

  predicate WellFormed(s: seq<byte>) {
    s == [] || (RuneLen(s) > 0 && WellFormed(s[RuneLen(s)..]))
  }

  /** A character does not depend on what follows it. */
  lemma RuneLenLocal(s: seq<byte>, t: seq<byte>)
    requires RuneLen(s) > 0
    ensures RuneLen(s + t) == RuneLen(s)
    ensures RuneLen(s[..RuneLen(s)]) == RuneLen(s)
  {
    assert forall i :: 0 <= i < |s| ==> (s + t)[i] == s[i];
    if s[0] >= 0x80 {
      var n := RuneLen(s);
      var u := s[..n];
      assert forall i :: 0 <= i < n ==> u[i] == s[i];
      assert Tails(u, n) && Tails(s + t, n);
    }
  }

  lemma {:induction false} Append(s: seq<byte>, t: seq<byte>)
    requires WellFormed(s) && WellFormed(t)
    ensures WellFormed(s + t)
  {
    if s == [] {
      assert s + t == t;
    } else {
      RuneLenLocal(s, t);
      var n := RuneLen(s);
      assert (s + t)[n..] == s[n..] + t;
      Append(s[n..], t);
    }
  }

  /** What follows a well-formed prefix of a well-formed string is well-formed. */
  lemma {:induction false} Rest(s: seq<byte>, n: nat)
    requires n <= |s| && WellFormed(s) && WellFormed(s[..n])
    ensures WellFormed(s[n..])
  {
    if n == 0 {
      assert s[0..] == s;
    } else {
      var r := RuneLen(s[..n]);
      RuneLenLocal(s[..n], s[n..]);
      assert s[..n] + s[n..] == s;
      assert s[r..][..n - r] == s[..n][r..];
      Rest(s[r..], n - r);
      assert s[r..][n - r..] == s[n..];
    }
  }

  /** n is between two characters of s. */
  predicate Boundary(s: seq<byte>, n: nat) {
    n <= |s| && WellFormed(s[..n]) && WellFormed(s[n..])
  }

  /** The last boundary at or before n. */
  function Cut(s: seq<byte>, n: nat): (c: nat)
    requires WellFormed(s) && n <= |s|
    ensures c <= n
    decreases n
  {
    if n == 0 || n < RuneLen(s) then 0
    else RuneLen(s) + Cut(s[RuneLen(s)..], n - RuneLen(s))
  }

  lemma FirstIsWellFormed(s: seq<byte>)
    requires RuneLen(s) > 0
    ensures WellFormed(s[..RuneLen(s)])
  {
    RuneLenLocal(s, []);
    assert s[..RuneLen(s)][RuneLen(s)..] == [];
  }

  /** A boundary of what follows the first character is one of the whole. */
  lemma BoundaryAfterFirst(s: seq<byte>, c: nat)
    requires RuneLen(s) > 0 && Boundary(s[RuneLen(s)..], c)
    ensures Boundary(s, RuneLen(s) + c) && s[RuneLen(s)..][c..] == s[RuneLen(s) + c..]
  {
    var r := RuneLen(s);
    assert s[r..][c..] == s[r + c..];
    assert s[..r + c] == s[..r] + s[r..][..c];
    FirstIsWellFormed(s);
    Append(s[..r], s[r..][..c]);
  }

  lemma ZeroIsBoundary(s: seq<byte>)
    requires WellFormed(s)
    ensures Boundary(s, 0) && s[0..] == s
  {
    assert s[..0] == [] && s[0..] == s;
  }

  lemma {:induction false} CutIsBoundary(s: seq<byte>, n: nat)
    requires WellFormed(s) && n <= |s|
    ensures Boundary(s, Cut(s, n))
    ensures Cut(s, n) == n || n - Cut(s, n) < RuneLen(s[Cut(s, n)..])
    decreases n
  {
    var r := RuneLen(s);
    if n == 0 || n < r {
      ZeroIsBoundary(s);
    } else {
      CutIsBoundary(s[r..], n - r);
      BoundaryAfterFirst(s, Cut(s[r..], n - r));
    }
  }

  /** In a well-formed string a position is a boundary exactly when it is the end or holds no continuation byte. */
  lemma StartIsBoundary(s: seq<byte>, n: nat)
    requires WellFormed(s) && n <= |s|
    ensures Boundary(s, n) <==> n == |s| || !Continuation(s[n])
  {
    CutIsBoundary(s, n);
    var c := Cut(s, n);
    if c < n {
      var rune := s[c..];
      assert Tails(rune, RuneLen(rune));
      assert s[n] == rune[n - c];
    }
    if Boundary(s, n) && n < |s| {
      assert s[n..][0] == s[n];
    }
  }

  /** Two boundaries enclose a well-formed string. */
  lemma Between(s: seq<byte>, a: nat, b: nat)
    requires a <= b <= |s| && Boundary(s, a) && Boundary(s, b)
    ensures WellFormed(s[a..b])
  {
    assert s[..b][..a] == s[..a] && s[..b][a..] == s[a..b];
    Rest(s[..b], a);
  }

  /** Four bytes in a row cannot all be continuation bytes. */
  lemma NoFourContinuations(s: seq<byte>, n: nat)
    requires WellFormed(s) && 3 <= n < |s|
    ensures exists i :: n - 3 <= i <= n && !Continuation(s[i])
  {
    CutIsBoundary(s, n);
    var c := Cut(s, n);
    StartIsBoundary(s, c);
  }

  function Flatten(parts: seq<seq<byte>>): seq<byte> {
    if parts == [] then [] else parts[0] + Flatten(parts[1..])
  }

  lemma {:induction false} FlattenAppend(a: seq<seq<byte>>, b: seq<seq<byte>>)
    ensures Flatten(a + b) == Flatten(a) + Flatten(b)
  {
    if a == [] {
      assert a + b == b;
    } else {
      assert (a + b)[1..] == a[1..] + b;
      FlattenAppend(a[1..], b);
    }
  }

  lemma FlattenSnoc(a: seq<seq<byte>>, last: seq<byte>)
    ensures Flatten(a + [last]) == Flatten(a) + last
  {
    FlattenAppend(a, [last]);
    assert Flatten([last]) == last + Flatten([]);
  }

  lemma {:induction false} FlattenWellFormed(parts: seq<seq<byte>>)
    requires forall i :: 0 <= i < |parts| ==> WellFormed(parts[i])
    ensures WellFormed(Flatten(parts))
  {
    if parts != [] {
      FlattenWellFormed(parts[1..]);
      Append(parts[0], Flatten(parts[1..]));
    }
  }
}
