/** Parsing and ordering versions as Semantic Versioning 2.0.0 defines them. */
module Semver {
  import opened Prelude
  import opened Strings

  const MAX_LENGTH := 256
  const MAX_INT := 0x7FFF_FFFF_FFFF_FFFF

  datatype Version = Version(major: nat, minor: nat, patch: nat, prerelease: seq<string>, build: seq<string>)

  predicate Digit(c: char) { '0' <= c <= '9' }

  predicate IsDigits(s: string) { s != "" && forall i :: 0 <= i < |s| ==> Digit(s[i]) }

  /** Digits without a leading zero. */
  predicate IsNumeric(s: string) { IsDigits(s) && (s == "0" || s[0] != '0') }

  predicate IdentifierChar(c: char) {
    Digit(c) || 'A' <= c <= 'Z' || 'a' <= c <= 'z' || c == '-'
  }

  predicate IsIdentifier(s: string) { s != "" && forall i :: 0 <= i < |s| ==> IdentifierChar(s[i]) }

  predicate IsPrerelease(s: string) { IsIdentifier(s) && (IsDigits(s) ==> IsNumeric(s)) }

  predicate All(parts: seq<string>, p: string -> bool) { forall i :: 0 <= i < |parts| ==> p(parts[i]) }

  // ---- decimal numbers ----

  /** The number a digit string denotes; strconv.Atoi without its range. */
  function Value(s: string): nat
    requires forall i :: 0 <= i < |s| ==> Digit(s[i])
  {
    if s == "" then 0 else Value(s[..|s| - 1]) * 10 + DigitValue(s[|s| - 1])
  }

  function DigitValue(c: char): nat
    requires Digit(c)
  {
    c as int - '0' as int
  }

  function DigitChar(d: nat): char
    requires d < 10
  {
    '0' + d as char
  }

  function Decimal(n: nat): (s: string)
    ensures IsNumeric(s) && Value(s) == n
  {
    if n < 10 then [DigitChar(n)]
    else
      var s := Decimal(n / 10) + [DigitChar(n % 10)];
      assert s[..|s| - 1] == Decimal(n / 10);
      s
  }

  lemma {:induction false} DecimalOfValue(s: string)
    requires IsNumeric(s)
    ensures Decimal(Value(s)) == s
  {
    var front, d := s[..|s| - 1], DigitValue(s[|s| - 1]);
    if |s| == 1 {
      assert front == "";
    } else {
      assert IsNumeric(front);
      DecimalOfValue(front);
      PositiveValue(front);
      assert Value(s) / 10 == Value(front) && Value(s) % 10 == d;
    }
  }

  lemma {:induction false} PositiveValue(s: string)
    requires IsNumeric(s) && s[0] != '0'
    ensures Value(s) > 0
  {
    if |s| > 1 { PositiveValue(s[..|s| - 1]); }
  }

  // ---- the printer and what Parse accepts ----

  predicate ValidVersion(v: Version) {
    && v.major <= MAX_INT && v.minor <= MAX_INT && v.patch <= MAX_INT
    && All(v.prerelease, IsPrerelease) && All(v.build, IsIdentifier)
  }

  function Core(v: Version): string {
    Decimal(v.major) + "." + Decimal(v.minor) + "." + Decimal(v.patch)
  }

  function Suffix(mark: char, parts: seq<string>): string {
    if parts == [] then "" else [mark] + Join(parts, '.')
  }

  /** The spelling of a version: items 2, 9 and 10 of the standard. */
  function Print(v: Version): string { Core(v) + Suffix('-', v.prerelease) + Suffix('+', v.build) }

  /** What comes before the first mark, and the dotted parts after it; none when there is no mark. */
  function Cut(s: string, mark: char): (string, seq<string>) {
    var i := IndexOf(s, mark);
    if i < 0 then (s, []) else (s[..i], Split(s[i + 1..], '.'))
  }

  function Number(part: string): Option<nat> {
    if IsNumeric(part) && Value(part) <= MAX_INT then Some(Value(part)) else None
  }

  function ParseSpec(value: string): Option<Version> {
    if |value| == 0 || |value| > MAX_LENGTH then None
    else
      var (rest, build) := Cut(value, '+');
      var (front, prerelease) := Cut(rest, '-');
      var core := Split(front, '.');
      if !All(build, IsIdentifier) || !All(prerelease, IsPrerelease) || |core| != 3 then None
      else
        var (a, b, c) := (Number(core[0]), Number(core[1]), Number(core[2]));
        if a.None? || b.None? || c.None? then None
        else Some(Version(a.value, b.value, c.value, prerelease, build))
  }

  lemma CutSuffix(front: string, mark: char, parts: seq<string>)
    requires mark !in front
    requires forall i :: 0 <= i < |parts| ==> '.' !in parts[i]
    ensures Cut(front + Suffix(mark, parts), mark) == (front, parts)
  {
    if parts == [] {
      assert front + "" == front;
    } else {
      var s := front + Suffix(mark, parts);
      assert s == front + [mark] + Join(parts, '.');
      IndexOfFirst(front, mark, Join(parts, '.'));
      assert s[|front| + 1..] == Join(parts, '.') && s[..|front|] == front;
      SplitJoin(parts, '.');
    }
  }

  lemma {:induction false} JoinAvoids(parts: seq<string>, c: char)
    requires |parts| >= 1 && c != '.' && forall i :: 0 <= i < |parts| ==> c !in parts[i]
    ensures c !in Join(parts, '.')
  {
    if |parts| > 1 { JoinAvoids(parts[1..], c); }
  }

  lemma CoreParts(v: Version)
    ensures Split(Core(v), '.') == [Decimal(v.major), Decimal(v.minor), Decimal(v.patch)]
    ensures '-' !in Core(v) && '+' !in Core(v)
  {
    NumericAvoids(Decimal(v.major));
    NumericAvoids(Decimal(v.minor));
    NumericAvoids(Decimal(v.patch));
    SplitThree(Decimal(v.major), Decimal(v.minor), Decimal(v.patch), '.');
  }

  lemma NumericAvoids(s: string)
    requires IsDigits(s)
    ensures '.' !in s && '-' !in s && '+' !in s
  {}

  /** Parse reads back every spelling of a valid version that fits. */
  lemma ParseOfPrint(v: Version)
    requires ValidVersion(v) && |Print(v)| <= MAX_LENGTH
    ensures ParseSpec(Print(v)) == Some(v)
  {
    CoreParts(v);
    var front := Core(v) + Suffix('-', v.prerelease);
    if v.prerelease != [] { JoinAvoids(v.prerelease, '+'); }
    CutSuffix(front, '+', v.build);
    CutSuffix(Core(v), '-', v.prerelease);
    assert Print(v) == front + Suffix('+', v.build);
  }

  lemma PrintOfCut(s: string, mark: char)
    ensures var (front, parts) := Cut(s, mark); s == front + Suffix(mark, parts) && mark !in front
  {
    var i := IndexOf(s, mark);
    if i >= 0 {
      JoinSplit(s[i + 1..], '.');
      assert s == s[..i] + [mark] + s[i + 1..];
    }
  }

  /** And accepts nothing else: what it parses prints as what it was given. */
  lemma PrintOfParse(value: string)
    requires ParseSpec(value).Some?
    ensures ValidVersion(ParseSpec(value).value) && |value| <= MAX_LENGTH
    ensures Print(ParseSpec(value).value) == value
  {
    var v := ParseSpec(value).value;
    var (rest, build) := Cut(value, '+');
    var (front, prerelease) := Cut(rest, '-');
    PrintOfCut(value, '+');
    PrintOfCut(rest, '-');
    var core := Split(front, '.');
    JoinSplit(front, '.');
    JoinThree(core, '.');
    DecimalOfValue(core[0]);
    DecimalOfValue(core[1]);
    DecimalOfValue(core[2]);
    assert Core(v) == front;
  }

  /** Parse succeeds on precisely the spellings of valid versions within the limits. */
  lemma ParseIsExact(value: string, v: Version)
    ensures ParseSpec(value) == Some(v) <==> ValidVersion(v) && Print(v) == value && |value| <= MAX_LENGTH
  {
    if ParseSpec(value) == Some(v) { PrintOfParse(value); }
    if ValidVersion(v) && Print(v) == value && |value| <= MAX_LENGTH { ParseOfPrint(v); }
  }

  // ---- the parser's own loops ----

  method CheckDigits(s: string) returns (ok: bool)
    ensures ok == IsDigits(s)
  {
    if s == "" { return false; }
    for i := 0 to |s|
      invariant forall j :: 0 <= j < i ==> Digit(s[j])
    {
      if !Digit(s[i]) { return false; }
    }
    ok := true;
  }

  method CheckIdentifier(s: string) returns (ok: bool)
    ensures ok == IsIdentifier(s)
  {
    if s == "" { return false; }
    for i := 0 to |s|
      invariant forall j :: 0 <= j < i ==> IdentifierChar(s[j])
    {
      if !IdentifierChar(s[i]) { return false; }
    }
    ok := true;
  }

  method CheckBuild(parts: seq<string>) returns (ok: bool)
    ensures ok == All(parts, IsIdentifier)
  {
    for i := 0 to |parts|
      invariant forall j :: 0 <= j < i ==> IsIdentifier(parts[j])
    {
      ok := CheckIdentifier(parts[i]);
      if !ok { return; }
    }
    ok := true;
  }

  method CheckPrerelease(parts: seq<string>) returns (ok: bool)
    ensures ok == All(parts, IsPrerelease)
  {
    for i := 0 to |parts|
      invariant forall j :: 0 <= j < i ==> IsPrerelease(parts[j])
    {
      ok := CheckIdentifier(parts[i]);
      if !ok { return; }
      var digits := CheckDigits(parts[i]);
      if digits && !IsNumeric(parts[i]) { return false; }
    }
    ok := true;
  }

  method ParseCore(core: seq<string>) returns (numbers: Option<seq<nat>>)
    requires |core| == 3
    ensures numbers.Some? <==> Number(core[0]).Some? && Number(core[1]).Some? && Number(core[2]).Some?
    ensures numbers.Some? ==> |numbers.value| == 3 && forall i :: 0 <= i < 3 ==> Number(core[i]) == Some(numbers.value[i])
  {
    var read: seq<nat> := [];
    for i := 0 to 3
      invariant |read| == i && forall j :: 0 <= j < i ==> Number(core[j]) == Some(read[j])
    {
      var n := Number(core[i]);
      if n.None? { return None; }
      read := read + [n.value];
    }
    numbers := Some(read);
  }

  method StripBuild(value: string) returns (rest: string, build: seq<string>, ok: bool)
    ensures (rest, build) == Cut(value, '+') && ok == All(build, IsIdentifier)
  {
    rest, build, ok := value, [], true;
    var plus := IndexOf(rest, '+');
    if plus >= 0 {
      build, rest := Split(rest[plus + 1..], '.'), rest[..plus];
      ok := CheckBuild(build);
    }
  }

  method StripPrerelease(value: string) returns (rest: string, prerelease: seq<string>, ok: bool)
    ensures (rest, prerelease) == Cut(value, '-') && ok == All(prerelease, IsPrerelease)
  {
    rest, prerelease, ok := value, [], true;
    var dash := IndexOf(rest, '-');
    if dash >= 0 {
      prerelease, rest := Split(rest[dash + 1..], '.'), rest[..dash];
      ok := CheckPrerelease(prerelease);
    }
  }

  /** Parse. Build metadata comes off first, so a '-' inside it does not start a prerelease. */
  method Parse(value: string) returns (r: Option<Version>)
    ensures r == ParseSpec(value)
  {
    if |value| == 0 || |value| > MAX_LENGTH { return None; }
    var rest, build, buildOk := StripBuild(value);
    if !buildOk { return None; }
    var front, prerelease, prereleaseOk := StripPrerelease(rest);
    if !prereleaseOk { return None; }
    var core := Split(front, '.');
    if |core| != 3 { return None; }
    var numbers := ParseCore(core);
    if numbers.None? { return None; }
    var n := numbers.value;
    r := Some(Version(n[0], n[1], n[2], prerelease, build));
  }

  // ---- precedence, item 11 ----

  function Sign(n: int): int { if n < 0 then -1 else if n > 0 then 1 else 0 }

  /** strings.Compare. */
  function CompareBytes(a: string, b: string): (c: int)
    ensures -1 <= c <= 1
  {
    if a == "" then if b == "" then 0 else -1
    else if b == "" then 1
    else if a[0] != b[0] then if a[0] < b[0] then -1 else 1
    else CompareBytes(a[1..], b[1..])
  }

  function CompareIdentifiers(a: string, b: string): (c: int)
    ensures -1 <= c <= 1
  {
    if IsNumeric(a) != IsNumeric(b) then if IsNumeric(a) then -1 else 1
    else if IsNumeric(a) && |a| != |b| then if |a| < |b| then -1 else 1
    else CompareBytes(a, b)
  }

  /** Identifier by identifier; with a common prefix, more identifiers win. */
  function CompareLists(a: seq<string>, b: seq<string>): (c: int)
    ensures -1 <= c <= 1
  {
    if a == [] then if b == [] then 0 else -1
    else if b == [] then 1
    else if CompareIdentifiers(a[0], b[0]) != 0 then CompareIdentifiers(a[0], b[0])
    else CompareLists(a[1..], b[1..])
  }

  function CompareVersions(a: Version, b: Version): (c: int)
    ensures -1 <= c <= 1
  {
    if a.major != b.major then Sign(a.major - b.major)
    else if a.minor != b.minor then Sign(a.minor - b.minor)
    else if a.patch != b.patch then Sign(a.patch - b.patch)
    else if (a.prerelease == []) != (b.prerelease == []) then if a.prerelease == [] then 1 else -1
    else CompareLists(a.prerelease, b.prerelease)
  }

  lemma {:induction false} CommonPrefix(a: seq<string>, b: seq<string>, n: nat)
    requires n <= |a| && n <= |b| && forall i :: 0 <= i < n ==> CompareIdentifiers(a[i], b[i]) == 0
    ensures CompareLists(a, b) == CompareLists(a[n..], b[n..])
  {
    if n == 0 {
      assert a[0..] == a && b[0..] == b;
    } else {
      CommonPrefix(a[1..], b[1..], n - 1);
      assert a[1..][n - 1..] == a[n..] && b[1..][n - 1..] == b[n..];
    }
  }

  /** Compare. */
  method Compare(a: Version, b: Version) returns (c: int)
    ensures c == CompareVersions(a, b) && -1 <= c <= 1
    ensures (c < 0 <==> Lower(a, b)) && (c > 0 <==> Lower(b, a))
  {
    CompareIsPrecedence(a, b);
    var left, right := [a.major, a.minor, a.patch], [b.major, b.minor, b.patch];
    for i := 0 to 3
      invariant forall j :: 0 <= j < i ==> left[j] == right[j]
    {
      if left[i] != right[i] {
        assert left[0] == a.major && left[1] == a.minor && left[2] == a.patch;
        assert right[0] == b.major && right[1] == b.minor && right[2] == b.patch;
        return if left[i] < right[i] then -1 else 1;
      }
    }
    assert a.major == left[0] && a.minor == left[1] && a.patch == left[2];
    assert b.major == right[0] && b.minor == right[1] && b.patch == right[2];
    var aPre, bPre := |a.prerelease| > 0, |b.prerelease| > 0;
    if aPre != bPre { return if aPre then -1 else 1; }
    if !aPre { return 0; }
    var shared := Min(|a.prerelease|, |b.prerelease|);
    for i := 0 to shared
      invariant forall j :: 0 <= j < i ==> CompareIdentifiers(a.prerelease[j], b.prerelease[j]) == 0
    {
      var verdict := CompareIdentifiers(a.prerelease[i], b.prerelease[i]);
      if verdict != 0 {
        CommonPrefix(a.prerelease, b.prerelease, i);
        return verdict;
      }
    }
    CommonPrefix(a.prerelease, b.prerelease, shared);
    if |a.prerelease| == |b.prerelease| { return 0; }
    return if |a.prerelease| < |b.prerelease| then -1 else 1;
  }

  lemma {:induction false} BytesOrder(a: string, b: string, c: string)
    ensures CompareBytes(a, b) == -CompareBytes(b, a)
    ensures CompareBytes(a, b) == 0 <==> a == b
    ensures CompareBytes(a, b) <= 0 && CompareBytes(b, c) <= 0 ==> CompareBytes(a, c) <= 0
    decreases |a| + |b| + |c|
  {
    if a != "" && b != "" {
      BytesOrder(a[1..], b[1..], if c == "" then "" else c[1..]);
      assert a == [a[0]] + a[1..] && b == [b[0]] + b[1..];
    }
  }

  lemma IdentifierOrder(a: string, b: string, c: string)
    ensures CompareIdentifiers(a, b) == -CompareIdentifiers(b, a)
    ensures CompareIdentifiers(a, b) == 0 <==> a == b
    ensures CompareIdentifiers(a, b) <= 0 && CompareIdentifiers(b, c) <= 0 ==> CompareIdentifiers(a, c) <= 0
  {
    BytesOrder(a, b, c);
  }

  lemma {:induction false} ListOrder(a: seq<string>, b: seq<string>, c: seq<string>)
    ensures CompareLists(a, b) == -CompareLists(b, a)
    ensures CompareLists(a, b) == 0 <==> a == b
    ensures CompareLists(a, b) <= 0 && CompareLists(b, c) <= 0 ==> CompareLists(a, c) <= 0
    decreases |a| + |b| + |c|
  {
    if a != [] && b != [] {
      IdentifierOrder(a[0], b[0], if c == [] then "" else c[0]);
      ListOrder(a[1..], b[1..], if c == [] then [] else c[1..]);
      assert a == [a[0]] + a[1..] && b == [b[0]] + b[1..];
      if c != [] { IdentifierOrder(b[0], a[0], c[0]); IdentifierOrder(a[0], c[0], b[0]); IdentifierOrder(b[0], c[0], a[0]); }
    }
  }

  /** Compare is a total preorder on all versions, zero exactly when core and prerelease agree. */
  lemma PrecedenceIsTotalPreorder(a: Version, b: Version, c: Version)
    ensures CompareVersions(a, b) == -CompareVersions(b, a)
    ensures CompareVersions(a, b) <= 0 && CompareVersions(b, c) <= 0 ==> CompareVersions(a, c) <= 0
    ensures CompareVersions(a, b) == 0 <==>
            a.major == b.major && a.minor == b.minor && a.patch == b.patch && a.prerelease == b.prerelease
  {
    ListOrder(a.prerelease, b.prerelease, c.prerelease);
  }

  /** Build metadata never matters, on either side. */
  lemma BuildIsIgnored(a: Version, b: Version, x: seq<string>, y: seq<string>)
    ensures CompareVersions(a.(build := x), b.(build := y)) == CompareVersions(a, b)
  {}

  function Pow10(n: nat): nat { if n == 0 then 1 else 10 * Pow10(n - 1) }

  lemma {:induction false} ValueBelow(s: string)
    requires forall i :: 0 <= i < |s| ==> Digit(s[i])
    ensures Value(s) < Pow10(|s|)
  {
    if s != "" { ValueBelow(s[..|s| - 1]); }
  }

  lemma {:induction false} ValueAtLeast(s: string)
    requires IsNumeric(s) && s[0] != '0'
    ensures Value(s) >= Pow10(|s| - 1)
  {
    if |s| > 1 { ValueAtLeast(s[..|s| - 1]); }
  }

  lemma {:induction false} PowMonotone(m: nat, n: nat)
    requires m <= n
    ensures Pow10(m) <= Pow10(n)
    decreases n - m
  {
    if m < n { PowMonotone(m, n - 1); }
  }

  lemma {:induction false} ValueSplit(d: char, s: string)
    requires Digit(d) && forall i :: 0 <= i < |s| ==> Digit(s[i])
    ensures Value([d] + s) == DigitValue(d) * Pow10(|s|) + Value(s)
  {
    var t := [d] + s;
    if s == "" {
      assert t[..0] == "";
    } else {
      assert t[..|t| - 1] == [d] + s[..|s| - 1];
      ValueSplit(d, s[..|s| - 1]);
    }
  }

  lemma {:induction false} SameLengthOrder(a: string, b: string)
    requires |a| == |b|
    requires forall i :: 0 <= i < |a| ==> Digit(a[i]) && Digit(b[i])
    ensures CompareBytes(a, b) == Sign(Value(a) - Value(b))
  {
    if a != "" {
      assert a == [a[0]] + a[1..] && b == [b[0]] + b[1..];
      ValueSplit(a[0], a[1..]);
      ValueSplit(b[0], b[1..]);
      ValueBelow(a[1..]);
      ValueBelow(b[1..]);
      SameLengthOrder(a[1..], b[1..]);
      ScaledOrder(DigitValue(a[0]), DigitValue(b[0]), Pow10(|a| - 1), Value(a[1..]), Value(b[1..]));
    }
  }

  lemma ScaledOrder(d: int, e: int, p: int, x: int, y: int)
    requires 0 <= x < p && 0 <= y < p
    ensures d < e ==> d * p + x < e * p + y
    ensures d > e ==> d * p + x > e * p + y
  {
    if d < e { assert (d + 1) * p <= e * p; }
    if d > e { assert (e + 1) * p <= d * p; }
  }

  /** Length first, then bytes, is the order of the numbers themselves, however long they are. */
  lemma NumericOrderIsNumberOrder(a: string, b: string)
    requires IsNumeric(a) && IsNumeric(b)
    ensures CompareIdentifiers(a, b) == Sign(Value(a) - Value(b))
  {
    if |a| == |b| {
      SameLengthOrder(a, b);
    } else if |a| < |b| {
      ValueBelow(a);
      ValueAtLeast(b);
      PowMonotone(|a|, |b| - 1);
    } else {
      ValueBelow(b);
      ValueAtLeast(a);
      PowMonotone(|b|, |a| - 1);
    }
  }

  // ---- item 11 in its own words ----

  /** The core numbers differ, and the first that differs is the smaller one in a. */
  predicate LowerCore(a: Version, b: Version) {
    if a.major != b.major then a.major < b.major else if a.minor != b.minor then a.minor < b.minor else a.patch < b.patch
  }

  predicate SameCore(a: Version, b: Version) { a.major == b.major && a.minor == b.minor && a.patch == b.patch }

  /** a ends where b goes on, or has the smaller byte where they first differ. */
  predicate LowerText(a: string, b: string) {
    exists i :: 0 <= i <= |a| && i < |b| && a[..i] == b[..i] && (i == |a| || a[i] < b[i])
  }

  /** Numbers go by value, and are lower than words; words go byte by byte. */
  predicate LowerIdentifier(a: string, b: string) {
    if IsNumeric(a) && IsNumeric(b) then Value(a) < Value(b)
    else if IsNumeric(a) || IsNumeric(b) then IsNumeric(a)
    else LowerText(a, b)
  }

  /** a ends where b goes on, or has the lower identifier where they first differ. */
  predicate LowerPrerelease(a: seq<string>, b: seq<string>) {
    exists i :: 0 <= i <= |a| && i < |b| && a[..i] == b[..i] && (i == |a| || LowerIdentifier(a[i], b[i]))
  }

  /** Item 11 of the standard: core first; a prerelease comes before its release; then the identifiers. */
  predicate Lower(a: Version, b: Version) {
    if !SameCore(a, b) then LowerCore(a, b)
    else if a.prerelease == [] then false
    else b.prerelease == [] || LowerPrerelease(a.prerelease, b.prerelease)
  }

  lemma {:induction false} BytesIffLower(a: string, b: string)
    ensures CompareBytes(a, b) < 0 <==> LowerText(a, b)
  {
    if a == "" {
      if b != "" { assert a[..0] == b[..0]; }
    } else if b != "" {
      if a[0] != b[0] {
        if a[0] < b[0] { assert a[..0] == b[..0]; }
        forall i | 0 < i <= |a| && i < |b| ensures a[..i] != b[..i] { assert a[..i][0] != b[..i][0]; }
      } else {
        BytesIffLower(a[1..], b[1..]);
        TextTail(a, b);
      }
    }
  }

  lemma TextTail(a: string, b: string)
    requires a != "" && b != "" && a[0] == b[0]
    ensures LowerText(a, b) <==> LowerText(a[1..], b[1..])
  {
    if i :| 0 <= i <= |a| && i < |b| && a[..i] == b[..i] && (i == |a| || a[i] < b[i]) {
      assert i > 0 && a[1..][..i - 1] == a[..i][1..] && b[1..][..i - 1] == b[..i][1..];
    }
    if i :| 0 <= i <= |a[1..]| && i < |b[1..]| && a[1..][..i] == b[1..][..i] && (i == |a[1..]| || a[1..][i] < b[1..][i]) {
      assert a[..i + 1] == [a[0]] + a[1..][..i] && b[..i + 1] == [b[0]] + b[1..][..i];
    }
  }

  lemma IdentifierIffLower(a: string, b: string)
    ensures CompareIdentifiers(a, b) < 0 <==> LowerIdentifier(a, b)
  {
    BytesIffLower(a, b);
    if IsNumeric(a) && IsNumeric(b) { NumericOrderIsNumberOrder(a, b); }
  }

  lemma {:induction false} ListIffLower(a: seq<string>, b: seq<string>)
    ensures CompareLists(a, b) < 0 <==> LowerPrerelease(a, b)
  {
    if a == [] {
      if b != [] { assert a[..0] == b[..0]; }
    } else if b != [] {
      IdentifierIffLower(a[0], b[0]);
      IdentifierOrder(a[0], b[0], a[0]);
      if a[0] != b[0] {
        if LowerIdentifier(a[0], b[0]) { assert a[..0] == b[..0]; }
        forall i | 0 < i <= |a| && i < |b| ensures a[..i] != b[..i] { assert a[..i][0] != b[..i][0]; }
      } else {
        ListIffLower(a[1..], b[1..]);
        ListTail(a, b);
      }
    }
  }

  lemma ListTail(a: seq<string>, b: seq<string>)
    requires a != [] && b != [] && a[0] == b[0]
    ensures LowerPrerelease(a, b) <==> LowerPrerelease(a[1..], b[1..])
  {
    assert !LowerIdentifier(a[0], b[0]) by { IdentifierIffLower(a[0], b[0]); IdentifierOrder(a[0], b[0], a[0]); }
    if i :| 0 <= i <= |a| && i < |b| && a[..i] == b[..i] && (i == |a| || LowerIdentifier(a[i], b[i])) {
      assert i > 0 && a[1..][..i - 1] == a[..i][1..] && b[1..][..i - 1] == b[..i][1..];
    }
    if LowerPrerelease(a[1..], b[1..]) { LowerBehind(a, b); }
  }

  lemma LowerBehind(a: seq<string>, b: seq<string>)
    requires a != [] && b != [] && a[0] == b[0] && LowerPrerelease(a[1..], b[1..])
    ensures LowerPrerelease(a, b)
  {
    var i :| 0 <= i <= |a[1..]| && i < |b[1..]| && a[1..][..i] == b[1..][..i] && (i == |a[1..]| || LowerIdentifier(a[1..][i], b[1..][i]));
    assert a[..i + 1] == [a[0]] + a[1..][..i] && b[..i + 1] == [b[0]] + b[1..][..i];
  }

  /** Compare is negative exactly for the lower version of the two, positive exactly for the higher. */
  lemma CompareIsPrecedence(a: Version, b: Version)
    ensures CompareVersions(a, b) < 0 <==> Lower(a, b)
    ensures CompareVersions(a, b) > 0 <==> Lower(b, a)
  {
    ListIffLower(a.prerelease, b.prerelease);
    ListIffLower(b.prerelease, a.prerelease);
    ListOrder(a.prerelease, b.prerelease, a.prerelease);
  }

  /** CompareStrings: no order when either side does not parse. */
  method CompareStrings(a: string, b: string) returns (c: Option<int>)
    ensures c == CompareSpec(a, b)
    ensures c.None? <==> ParseSpec(a).None? || ParseSpec(b).None?
    ensures c.Some? ==> (c.value < 0 <==> Lower(ParseSpec(a).value, ParseSpec(b).value))
                        && (c.value > 0 <==> Lower(ParseSpec(b).value, ParseSpec(a).value))
  {
    var left := Parse(a);
    if left.None? { return None; }
    var right := Parse(b);
    if right.None? { return None; }
    var verdict := Compare(left.value, right.value);
    c := Some(verdict);
  }

  function CompareSpec(a: string, b: string): Option<int> {
    if ParseSpec(a).None? || ParseSpec(b).None? then None
    else Some(CompareVersions(ParseSpec(a).value, ParseSpec(b).value))
  }
}
