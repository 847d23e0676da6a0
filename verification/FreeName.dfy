/** Session names, and finding one that no live session holds. */
module FreeName {
  import opened Prelude

  const MAX_NAME := 32
  const LAST_CANDIDATE := 100

  predicate NameChar(c: char) {
    'A' <= c <= 'Z' || 'a' <= c <= 'z' || '0' <= c <= '9' || c == '_' || c == '-'
  }

  /** validName. */
  predicate ValidName(s: string) { 1 <= |s| <= MAX_NAME && forall i :: 0 <= i < |s| ==> NameChar(s[i]) }

  function Digit(d: nat): (c: char)
    requires d < 10
    ensures NameChar(c)
  {
    '0' + d as char
  }

  /** "-2" to "-99". */
  function Suffix(i: nat): (s: string)
    requires 2 <= i < LAST_CANDIDATE
    ensures 2 <= |s| <= 3
  {
    if i < 10 then ['-', Digit(i)] else ['-', Digit(i / 10), Digit(i % 10)]
  }

  function Candidate(name: string, i: nat): string
    requires 2 <= i < LAST_CANDIDATE
  {
    var suffix := Suffix(i);
    (if |name| + |suffix| > MAX_NAME then name[..MAX_NAME - |suffix|] else name) + suffix
  }

  lemma CandidateIsValid(name: string, i: nat)
    requires 2 <= i < LAST_CANDIDATE && ValidName(name)
    ensures ValidName(Candidate(name, i))
  {}

  /** The last two characters of a candidate tell its number. */
  lemma CandidatesDiffer(name: string, i: nat, j: nat)
    requires 2 <= i < j < LAST_CANDIDATE
    ensures Candidate(name, i) != Candidate(name, j)
  {
    var a, b := Candidate(name, i), Candidate(name, j);
    assert a[|a| - 1] == Digit(i % 10) && b[|b| - 1] == Digit(j % 10);
    assert a[|a| - 2] == if i < 10 then '-' else Digit(i / 10);
    assert b[|b| - 2] == if j < 10 then '-' else Digit(j / 10);
  }

  ghost function CandidateSet(name: string, n: nat): set<string>
    requires 2 <= n <= LAST_CANDIDATE
  {
    set i | 2 <= i < n :: Candidate(name, i)
  }

  lemma {:induction false} CandidateCount(name: string, n: nat)
    requires 2 <= n <= LAST_CANDIDATE
    ensures |CandidateSet(name, n)| == n - 2
  {
    if n == 2 {
      assert CandidateSet(name, 2) == {};
    } else {
      CandidateCount(name, n - 1);
      forall i | 2 <= i < n - 1 ensures Candidate(name, i) != Candidate(name, n - 1) { CandidatesDiffer(name, i, n - 1); }
      assert CandidateSet(name, n) == CandidateSet(name, n - 1) + {Candidate(name, n - 1)};
    }
  }

  /** Fewer names than candidates cannot take them all. */
  lemma SomeCandidateIsFree(name: string, taken: set<string>)
    requires |taken| < LAST_CANDIDATE - 2
    ensures exists i :: 2 <= i < LAST_CANDIDATE && Candidate(name, i) !in taken
  {
    CandidateCount(name, LAST_CANDIDATE);
    if CandidateSet(name, LAST_CANDIDATE) <= taken {
      SubsetSize(CandidateSet(name, LAST_CANDIDATE), taken);
      assert false;
    }
  }

  /** freeName: name itself, or the first of its candidates that is not taken. */
  method FindFree(name: string, taken: set<string>) returns (free: string)
    ensures name !in taken ==> free == name
    ensures name in taken && free != name ==>
      exists i :: 2 <= i < LAST_CANDIDATE && free == Candidate(name, i) && free !in taken
                  && forall j :: 2 <= j < i ==> Candidate(name, j) in taken
    ensures ValidName(name) ==> ValidName(free)
    ensures |taken| < LAST_CANDIDATE - 2 ==> free !in taken
  {
    if name !in taken {
      return name;
    }
    for i := 2 to LAST_CANDIDATE
      invariant forall j :: 2 <= j < i ==> Candidate(name, j) in taken
    {
      if Candidate(name, i) !in taken {
        if ValidName(name) { CandidateIsValid(name, i); }
        return Candidate(name, i);
      }
    }
    if |taken| < LAST_CANDIDATE - 2 {
      SomeCandidateIsFree(name, taken);
      assert false;
    }
    free := name;
  }
}
