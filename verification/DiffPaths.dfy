/** Undoing the two ways git writes a path into a diff header. Strings are byte strings. */
module DiffPaths {
  import opened Prelude
  import opened Utf8

  type Bytes = seq<byte>

  const QUOTE: byte := 0x22
  const BACKSLASH: byte := 0x5C
  const SPACE: byte := 0x20
  const TAB: byte := 0x09
  const NEWLINE: byte := 0x0A

  predicate StartsWith(s: Bytes, prefix: string) {
    |s| >= |prefix| && forall i :: 0 <= i < |prefix| ==> s[i] == prefix[i] as int
  }

  // ---- strconv.Unquote on a double-quoted string ----

  predicate Octal(b: byte) { 0x30 <= b <= 0x37 }

  function Hex(b: byte): (r: Option<nat>)
    ensures r.Some? ==> r.value < 16
  {
    if 0x30 <= b <= 0x39 then Some(b - 0x30)
    else if 0x61 <= b <= 0x66 then Some(b - 0x61 + 10)
    else if 0x41 <= b <= 0x46 then Some(b - 0x41 + 10)
    else None
  }

  /** The byte a one-letter escape stands for. */
  function Letter(b: byte): Option<byte> {
    if b == 0x61 then Some(0x07) else if b == 0x62 then Some(0x08) else if b == 0x66 then Some(0x0C)
    else if b == 0x6E then Some(0x0A) else if b == 0x72 then Some(0x0D) else if b == 0x74 then Some(0x09)
    else if b == 0x76 then Some(0x0B) else if b == BACKSLASH then Some(BACKSLASH) else if b == QUOTE then Some(QUOTE)
    else None
  }

  /** The first character or escape of a quoted body: the bytes it stands for and how many it takes. */
  function Unit(s: Bytes): (r: Option<(Bytes, nat)>)
    requires s != []
    ensures r.Some? ==> 0 < r.value.1 <= |s|
  {
    if s[0] == QUOTE || s[0] == NEWLINE then None
    else if s[0] >= 0x80 then
      if RuneLen(s) > 0 then Some((s[..RuneLen(s)], RuneLen(s))) else Some(([0xEF, 0xBF, 0xBD], 1))
    else if s[0] != BACKSLASH then Some(([s[0]], 1))
    else if |s| < 2 then None
    else if Letter(s[1]).Some? then Some(([Letter(s[1]).value], 2))
    else if Octal(s[1]) then
      if |s| < 4 || !Octal(s[2]) || !Octal(s[3]) then None
      else
        var v: int := (s[1] as int - 0x30) * 64 + (s[2] as int - 0x30) * 8 + (s[3] as int - 0x30);
        if v > 255 then None else Some(([v as byte], 4))
    else if s[1] == 0x78 then
      if |s| < 4 || Hex(s[2]).None? || Hex(s[3]).None? then None
      else Some(([(Hex(s[2]).value * 16 + Hex(s[3]).value) as byte], 4))
    else None
  }

  function Unescape(s: Bytes): Option<Bytes> {
    if s == [] then Some([])
    else if Unit(s).None? then None
    else
      var (out, n) := Unit(s).value;
      var rest := Unescape(s[n..]);
      if rest.None? then None else Some(out + rest.value)
  }

  // ---- the parsers ----

  /** The index of the quote that closes a string, escapes skipped. */
  function ClosingQuote(s: Bytes, i: nat): (r: Option<nat>)
    ensures r.Some? ==> i <= r.value < |s|
    decreases |s| - i
  {
    if i >= |s| then None
    else if s[i] == BACKSLASH then ClosingQuote(s, i + 2)
    else if s[i] == QUOTE then Some(i)
    else ClosingQuote(s, i + 1)
  }

  /** patchQuotedPath: the path and the index behind its closing quote. */
  function QuotedPath(input: Bytes): Option<(Bytes, nat)> {
    if input == [] || input[0] != QUOTE || ClosingQuote(input, 1).None? then None
    else
      var end := ClosingQuote(input, 1).value;
      var value := Unescape(input[1..end]);
      if value.None? then None else Some((value.value, end + 1))
  }

  method PatchQuotedPath(input: Bytes) returns (r: Option<(Bytes, nat)>)
    ensures r == QuotedPath(input)
  {
    if |input| == 0 || input[0] != QUOTE { return None; }
    var index := 1;
    while index < |input|
      invariant 1 <= index && ClosingQuote(input, 1) == ClosingQuote(input, index)
      decreases |input| - index
    {
      if input[index] == BACKSLASH {
        index := index + 2;
        continue;
      }
      if input[index] == QUOTE {
        var value := Unescape(input[1..index]);
        return if value.None? then None else Some((value.value, index + 1));
      }
      index := index + 1;
    }
    return None;
  }

  /** patchPathValue. */
  function PathValue(input: Bytes): Option<Bytes> {
    if input == [] || input[0] != QUOTE then if input == [] then None else Some(input)
    else if QuotedPath(input).Some? && QuotedPath(input).value.1 == |input| then Some(QuotedPath(input).value.0)
    else None
  }

  datatype Pair = Pair(old_: Bytes, path: Bytes)

  predicate Separator(body: Bytes, i: nat)
    requires i <= |body|
  {
    StartsWith(body[i..], " b/") || StartsWith(body[i..], " \"b/")
  }

  /** The reading of an unquoted header that splits it at index i. */
  function CandidateAt(body: Bytes, i: nat): Option<Pair>
    requires i < |body|
  {
    if !Separator(body, i) then None
    else
      var path := PathValue(body[i + 1..]);
      if path.Some? && StartsWith(body[..i], "a/") && StartsWith(path.value, "b/") then
        Some(Pair(body[..i][2..], path.value[2..]))
      else None
  }

  function Candidates(body: Bytes, n: nat): seq<Pair>
    requires n <= |body|
  {
    if n == 0 then []
    else
      var c := CandidateAt(body, n - 1);
      Candidates(body, n - 1) + if c.Some? then [c.value] else []
  }

  function Same(cs: seq<Pair>): seq<Pair> {
    if cs == [] then []
    else Same(cs[..|cs| - 1]) + if cs[|cs| - 1].old_ == cs[|cs| - 1].path then [cs[|cs| - 1]] else []
  }

  /** The only reading, or else the only one that names the same path twice. */
  function Pick(cs: seq<Pair>): Option<Pair> {
    if |cs| == 1 then Some(cs[0]) else if |Same(cs)| == 1 then Some(Same(cs)[0]) else None
  }

  /** A header whose old path is quoted. */
  function QuotedPair(body: Bytes): Option<Pair> {
    var old_ := QuotedPath(body);
    if old_.None? || old_.value.1 >= |body| || body[old_.value.1] != SPACE then None
    else
      var path := PathValue(body[old_.value.1 + 1..]);
      if path.None? || !StartsWith(old_.value.0, "a/") || !StartsWith(path.value, "b/") then None
      else Some(Pair(old_.value.0[2..], path.value[2..]))
  }

  /** patchPathPair. */
  function PathPair(body: Bytes): Option<Pair> {
    if body != [] && body[0] == QUOTE then QuotedPair(body) else Pick(Candidates(body, |body|))
  }

  method PatchPathPair(body: Bytes) returns (r: Option<Pair>)
    ensures r == PathPair(body)
  {
    if body != [] && body[0] == QUOTE { return QuotedPair(body); }
    var candidates := [];
    for index := 0 to |body|
      invariant candidates == Candidates(body, index)
    {
      var c := CandidateAt(body, index);
      if c.Some? { candidates := candidates + [c.value]; }
    }
    if |candidates| == 1 { return Some(candidates[0]); }
    r := OnlySame(candidates);
  }

  /** The loop over the candidates that name one path twice: exactly one, or no answer. */
  method OnlySame(candidates: seq<Pair>) returns (found: Option<Pair>)
    ensures found == if |Same(candidates)| == 1 then Some(Same(candidates)[0]) else None
  {
    found := None;
    for index := 0 to |candidates|
      invariant Same(candidates[..index]) == if found.Some? then [found.value] else []
    {
      assert candidates[..index + 1][..index] == candidates[..index];
      if candidates[index].old_ == candidates[index].path {
        if found.Some? {
          SamePrefix(candidates, index + 1);
          return None;
        }
        found := Some(candidates[index]);
      }
    }
    assert candidates[..|candidates|] == candidates;
  }

  lemma {:induction false} SamePrefix(cs: seq<Pair>, n: nat)
    requires n <= |cs|
    ensures |Same(cs[..n])| <= |Same(cs)|
    decreases |cs| - n
  {
    if n < |cs| {
      assert cs[..n + 1][..n] == cs[..n];
      SamePrefix(cs, n + 1);
    } else {
      assert cs[..n] == cs;
    }
  }

  // ---- plain headers ----

  predicate NoQuote(p: Bytes) { QUOTE !in p }

  /** The text of a header for two unquoted paths. */
  function Header(old_: Bytes, path: Bytes): Bytes {
    [0x61, 0x2F] + old_ + [SPACE, 0x62, 0x2F] + path
  }

  /** In a header without quotes a reading is a split, and the two halves have the right lengths. */
  lemma CandidateShape(body: Bytes, i: nat)
    requires i < |body| && NoQuote(body) && CandidateAt(body, i).Some?
    ensures var c := CandidateAt(body, i).value; body == Header(c.old_, c.path) && |c.old_| == i - 2
  {
    var c := CandidateAt(body, i).value;
    assert body[i + 1..] != [] && body[i + 1..][0] == body[i..][1];
    assert body[i + 1..][0] != QUOTE;
    assert body[..i] == [0x61, 0x2F] + c.old_;
    assert body[i..] == [SPACE] + body[i + 1..];
    assert body[i + 1..] == [0x62, 0x2F] + c.path;
    assert body == body[..i] + body[i..];
  }

  /** And the true split is among them. */
  lemma TrueCandidate(old_: Bytes, path: Bytes)
    requires NoQuote(old_) && NoQuote(path)
    ensures CandidateAt(Header(old_, path), |old_| + 2) == Some(Pair(old_, path))
  {
    var body := Header(old_, path);
    var i := |old_| + 2;
    assert body[i..] == [SPACE, 0x62, 0x2F] + path;
    assert body[..i] == [0x61, 0x2F] + old_;
    assert body[i + 1..] == [0x62, 0x2F] + path;
  }

  lemma HeaderNoQuote(old_: Bytes, path: Bytes)
    requires NoQuote(old_) && NoQuote(path)
    ensures NoQuote(Header(old_, path))
  {}

  lemma {:induction false} CandidatesContain(body: Bytes, n: nat, i: nat)
    requires i < n <= |body| && CandidateAt(body, i).Some?
    ensures CandidateAt(body, i).value in Candidates(body, n)
    decreases n
  {
    if i < n - 1 { CandidatesContain(body, n - 1, i); }
  }

  lemma SameSnoc(cs: seq<Pair>, c: Pair)
    ensures Same(cs + [c]) == Same(cs) + if c.old_ == c.path then [c] else []
  {
    assert (cs + [c])[..|cs|] == cs;
  }

  /** The lengths allow a reading that names one path twice at one index only. */
  lemma EqualHalves(p: Bytes, i: nat)
    requires NoQuote(p) && i < |Header(p, p)| && CandidateAt(Header(p, p), i).Some?
    ensures var c := CandidateAt(Header(p, p), i).value; c.old_ == c.path <==> i == |p| + 2
    ensures i == |p| + 2 ==> CandidateAt(Header(p, p), i).value == Pair(p, p)
  {
    CandidateShape(Header(p, p), i);
    var c := CandidateAt(Header(p, p), i).value;
    assert |Header(p, p)| == 5 + |c.old_| + |c.path|;
    TrueCandidate(p, p);
  }

  /** The reading at index i names one path twice exactly when i is k, and then it is p. */
  predicate OnlyAt(body: Bytes, i: nat, k: nat, p: Pair)
    requires i < |body|
  {
    var c := CandidateAt(body, i);
    && (i == k ==> c == Some(p) && p.old_ == p.path)
    && (i != k && c.Some? ==> c.value.old_ != c.value.path)
  }

  lemma {:induction false} SameOnlyAt(body: Bytes, n: nat, k: nat, p: Pair)
    requires n <= |body| && forall i :: 0 <= i < |body| ==> OnlyAt(body, i, k, p)
    ensures Same(Candidates(body, n)) == if n > k then [p] else []
    decreases n
  {
    if n > 0 {
      SameOnlyAt(body, n - 1, k, p);
      assert OnlyAt(body, n - 1, k, p);
      var c := CandidateAt(body, n - 1);
      var before := Candidates(body, n - 1);
      if c.Some? { SameSnoc(before, c.value); } else { assert before + [] == before; }
    }
  }

  lemma SameCandidates(p: Bytes, n: nat)
    requires NoQuote(p) && n <= |Header(p, p)|
    ensures Same(Candidates(Header(p, p), n)) == if n > |p| + 2 then [Pair(p, p)] else []
  {
    var body, middle := Header(p, p), |p| + 2;
    TrueCandidate(p, p);
    forall i | 0 <= i < |body| ensures OnlyAt(body, i, middle, Pair(p, p)) {
      if CandidateAt(body, i).Some? { EqualHalves(p, i); }
    }
    SameOnlyAt(body, n, middle, Pair(p, p));
  }

  lemma {:induction false} SameNameOnePath(cs: seq<Pair>)
    ensures forall c :: c in Same(cs) ==> c.old_ == c.path
  {
    if cs != [] { SameNameOnePath(cs[..|cs| - 1]); }
  }

  /** A path without quotes that did not change is read back, even when it contains the separator. */
  lemma SamePathRoundTrip(p: Bytes)
    requires NoQuote(p)
    ensures PathPair(Header(p, p)) == Some(Pair(p, p))
  {
    var body := Header(p, p);
    var cs := Candidates(body, |body|);
    HeaderNoQuote(p, p);
    TrueCandidate(p, p);
    CandidatesContain(body, |body|, |p| + 2);
    SameCandidates(p, |body|);
    if |cs| == 1 { assert Pair(p, p) == cs[0]; }
  }

  // ---- renames ----

  /** p contains " b/" at i. */
  predicate SepAt(p: Bytes, i: int) { 0 <= i && i + 3 <= |p| && p[i] == SPACE && p[i + 1] == 0x62 && p[i + 2] == 0x2F }

  predicate NoSep(p: Bytes) { forall i :: 0 <= i < |p| ==> !SepAt(p, i) }

  /** A header without quotes has a reading wherever " b/" stands. */
  lemma CandidateIsSep(body: Bytes, i: nat)
    requires NoQuote(body) && 2 <= i < |body| && body[0] == 0x61 && body[1] == 0x2F
    ensures CandidateAt(body, i).Some? <==> SepAt(body, i)
  {
    if SepAt(body, i) {
      assert body[..i] == [0x61, 0x2F] + body[2..i];
      assert body[i..] == [SPACE, 0x62, 0x2F] + body[i + 3..];
      assert body == body[..i] + body[i..];
      assert body == Header(body[2..i], body[i + 3..]);
      TrueCandidate(body[2..i], body[i + 3..]);
    }
    if CandidateAt(body, i).Some? {
      CandidateShape(body, i);
      var c := CandidateAt(body, i).value;
      assert Header(c.old_, c.path)[i] == SPACE && Header(c.old_, c.path)[i + 1] == 0x62 && Header(c.old_, c.path)[i + 2] == 0x2F;
    }
  }

  /** In a header that is the one between the paths, or lies in one of them. */
  lemma SepsOfHeader(old_: Bytes, path: Bytes, i: int)
    ensures SepAt(Header(old_, path), i) <==>
            i == |old_| + 2 || SepAt(old_, i - 2) || SepAt(path, i - |old_| - 5)
  {
    var body := Header(old_, path);
    assert body[0] == 0x61 && body[1] == 0x2F;
    assert body[|old_| + 2] == SPACE && body[|old_| + 3] == 0x62 && body[|old_| + 4] == 0x2F;
    assert forall k :: 0 <= k < |old_| ==> body[k + 2] == old_[k];
    assert forall k :: 0 <= k < |path| ==> body[k + |old_| + 5] == path[k];
    if 2 <= i && i + 1 <= |old_| {
      assert body[i] == old_[i - 2] && body[i + 1] == (if i - 1 < |old_| then old_[i - 1] else SPACE);
      if i + 1 <= |old_| && i - 1 < |old_| { assert body[i + 2] == if i < |old_| then old_[i] else if i == |old_| then SPACE else 0x62; }
    }
  }

  function Readings(body: Bytes, n: nat): (r: seq<Option<Pair>>)
    requires n <= |body|
    ensures |r| == n && forall i :: 0 <= i < n ==> r[i] == CandidateAt(body, i)
  {
    seq(n, i requires 0 <= i < n => CandidateAt(body, i))
  }

  function Present(rs: seq<Option<Pair>>): seq<Pair> {
    if rs == [] then []
    else Present(rs[..|rs| - 1]) + if rs[|rs| - 1].Some? then [rs[|rs| - 1].value] else []
  }

  lemma {:induction false} CandidatesArePresent(body: Bytes, n: nat)
    requires n <= |body|
    ensures Candidates(body, n) == Present(Readings(body, n))
  {
    if n > 0 {
      CandidatesArePresent(body, n - 1);
      assert Readings(body, n)[..n - 1] == Readings(body, n - 1);
    }
  }

  predicate Only(rs: seq<Option<Pair>>, k: nat) { forall i :: 0 <= i < |rs| && rs[i].Some? ==> i == k }

  lemma {:induction false} OnePresent(rs: seq<Option<Pair>>, k: nat)
    requires k < |rs| && rs[k].Some?
    ensures |Present(rs)| >= 1 && (|Present(rs)| == 1 <==> Only(rs, k))
  {
    var n := |rs| - 1;
    if n == k {
      NonePresent(rs[..n]);
    } else {
      OnePresent(rs[..n], k);
    }
  }

  lemma {:induction false} NonePresent(rs: seq<Option<Pair>>)
    ensures |Present(rs)| == 0 <==> forall i :: 0 <= i < |rs| ==> rs[i].None?
  {
    if rs != [] { NonePresent(rs[..|rs| - 1]); }
  }

  /** A rename is read back exactly when neither path contains " b/". */
  lemma RenameRoundTrip(old_: Bytes, path: Bytes)
    requires NoQuote(old_) && NoQuote(path) && old_ != path
    ensures PathPair(Header(old_, path)) == Some(Pair(old_, path)) <==> NoSep(old_) && NoSep(path)
  {
    var body := Header(old_, path);
    var cs := Candidates(body, |body|);
    HeaderNoQuote(old_, path);
    TrueCandidate(old_, path);
    CandidatesContain(body, |body|, |old_| + 2);
    SameNameOnePath(cs);
    CandidatesArePresent(body, |body|);
    OnePresent(Readings(body, |body|), |old_| + 2);
    OneSep(old_, path);
  }

  lemma OneSep(old_: Bytes, path: Bytes)
    requires NoQuote(old_) && NoQuote(path)
    ensures Only(Readings(Header(old_, path), |Header(old_, path)|), |old_| + 2) <==> NoSep(old_) && NoSep(path)
  {
    var body := Header(old_, path);
    var rs := Readings(body, |body|);
    forall i | 0 <= i < |body| ensures rs[i].Some? <==> i == |old_| + 2 || SepAt(old_, i - 2) || SepAt(path, i - |old_| - 5) {
      ReadingIsSep(old_, path, i);
    }
    if i :| 0 <= i < |old_| && SepAt(old_, i) { assert rs[i + 2].Some?; }
    if i :| 0 <= i < |path| && SepAt(path, i) { assert rs[i + |old_| + 5].Some?; }
  }

  lemma ReadingIsSep(old_: Bytes, path: Bytes, i: nat)
    requires NoQuote(old_) && NoQuote(path) && i < |Header(old_, path)|
    ensures CandidateAt(Header(old_, path), i).Some? <==>
            i == |old_| + 2 || SepAt(old_, i - 2) || SepAt(path, i - |old_| - 5)
  {
    var body := Header(old_, path);
    HeaderNoQuote(old_, path);
    assert body[0] == 0x61 && body[1] == 0x2F;
    SepsOfHeader(old_, path, i);
    if i < 2 {
      if CandidateAt(body, i).Some? { CandidateShape(body, i); }
    } else {
      CandidateIsSep(body, i);
    }
  }

  /** And one that is not can be misread: x renamed to "x b/x b/x" reads as an unchanged "x b/x". */
  lemma RenameMisread(x: Bytes)
    requires NoQuote(x)
    ensures var sep := [SPACE, 0x62, 0x2F];
      PathPair(Header(x, x + sep + x + sep + x)) == Some(Pair(x + sep + x, x + sep + x))
  {
    var sep: Bytes := [SPACE, 0x62, 0x2F];
    var p := x + sep + x;
    assert Header(x, x + sep + x + sep + x) == Header(p, p);
    SamePathRoundTrip(p);
  }

  // ---- quoted paths ----

  /** How git writes one byte of a quoted path (quote.c, core.quotePath on). */
  function QuoteByte(b: byte): Bytes {
    if b == 0x07 then [BACKSLASH, 0x61] else if b == 0x08 then [BACKSLASH, 0x62] else if b == 0x09 then [BACKSLASH, 0x74]
    else if b == 0x0A then [BACKSLASH, 0x6E] else if b == 0x0B then [BACKSLASH, 0x76] else if b == 0x0C then [BACKSLASH, 0x66]
    else if b == 0x0D then [BACKSLASH, 0x72] else if b == QUOTE || b == BACKSLASH then [BACKSLASH, b]
    else if b < 0x20 || b >= 0x7F then [BACKSLASH, 0x30 + b / 64, 0x30 + b / 8 % 8, 0x30 + b % 8]
    else [b]
  }

  function QuoteBytes(p: Bytes): Bytes {
    if p == [] then [] else QuoteByte(p[0]) + QuoteBytes(p[1..])
  }

  function Quoted(p: Bytes): Bytes { [QUOTE] + QuoteBytes(p) + [QUOTE] }

  lemma UnitOfQuoteByte(b: byte, rest: Bytes)
    ensures Unit(QuoteByte(b) + rest) == Some(([b], |QuoteByte(b)|))
  {
    var q := QuoteByte(b);
    var s := q + rest;
    assert s[0] == q[0] && |s| >= |q|;
    if |q| == 4 { OctalUnit(s, b); } else if |q| == 2 { assert s[1] == q[1]; }
  }

  lemma OctalUnit(s: Bytes, b: byte)
    requires |s| >= 4 && s[0] == BACKSLASH
    requires s[1] == 0x30 + b / 64 && s[2] == 0x30 + b / 8 % 8 && s[3] == 0x30 + b % 8
    ensures Unit(s) == Some(([b], 4))
  {
    assert Octal(s[1]) && Octal(s[2]) && Octal(s[3]) && Letter(s[1]).None?;
    assert b == b / 64 * 64 + b / 8 % 8 * 8 + b % 8;
  }

  lemma {:induction false} UnescapeQuoted(p: Bytes)
    ensures Unescape(QuoteBytes(p)) == Some(p)
  {
    if p != [] {
      UnescapeQuoted(p[1..]);
      UnitOfQuoteByte(p[0], QuoteBytes(p[1..]));
      assert (QuoteByte(p[0]) + QuoteBytes(p[1..]))[|QuoteByte(p[0])|..] == QuoteBytes(p[1..]);
      assert [p[0]] + p[1..] == p;
    }
  }

  /** No byte's escape is mistaken for the closing quote. */
  lemma SkipByte(s: Bytes, i: nat, b: byte)
    requires i + |QuoteByte(b)| <= |s| && forall k :: 0 <= k < |QuoteByte(b)| ==> QuoteByte(b)[k] == s[i + k]
    ensures ClosingQuote(s, i) == ClosingQuote(s, i + |QuoteByte(b)|)
  {
    var q := QuoteByte(b);
    assert q[0] == s[i];
    if |q| == 4 {
      assert q[2] == s[i + 2] && q[3] == s[i + 3];
      assert ClosingQuote(s, i + 3) == ClosingQuote(s, i + 4);
      assert ClosingQuote(s, i + 2) == ClosingQuote(s, i + 3);
    }
  }

  lemma {:induction false} SkipBytes(s: Bytes, i: nat, p: Bytes)
    requires i + |QuoteBytes(p)| <= |s| && s[i..i + |QuoteBytes(p)|] == QuoteBytes(p)
    ensures ClosingQuote(s, i) == ClosingQuote(s, i + |QuoteBytes(p)|)
    decreases |p|
  {
    if p != [] {
      var next := SkipFirst(s, i, p);
      SkipBytes(s, next, p[1..]);
    }
  }

  /** The escape of the first byte of p stands in s, and behind it the quoted rest. */
  lemma SkipFirst(s: Bytes, i: nat, p: Bytes) returns (next: nat)
    requires p != [] && i + |QuoteBytes(p)| <= |s| && s[i..i + |QuoteBytes(p)|] == QuoteBytes(p)
    ensures next + |QuoteBytes(p[1..])| == i + |QuoteBytes(p)| && ClosingQuote(s, i) == ClosingQuote(s, next)
    ensures s[next..next + |QuoteBytes(p[1..])|] == QuoteBytes(p[1..])
  {
    next := i + |QuoteByte(p[0])|;
    Split(s, i, QuoteByte(p[0]), QuoteBytes(p[1..]));
    SkipByte(s, i, p[0]);
  }

  lemma Split(s: Bytes, i: nat, q: Bytes, rest: Bytes)
    requires i + |q + rest| <= |s| && s[i..i + |q + rest|] == q + rest
    ensures forall k :: 0 <= k < |q| ==> q[k] == s[i + k]
    ensures s[i + |q|..i + |q| + |rest|] == rest
  {
    var part := s[i..i + |q + rest|];
    assert forall k :: 0 <= k < |q| ==> part[k] == q[k];
    assert part[|q|..] == rest;
  }

  /** For every path, whatever follows its quoted form, the path and the end of the form are found. */
  lemma QuotedRoundTrip(p: Bytes, suffix: Bytes)
    ensures QuotedPath(Quoted(p) + suffix) == Some((p, |Quoted(p)|))
  {
    var s := Quoted(p) + suffix;
    QuotedShape(QuoteBytes(p), suffix);
    SkipBytes(s, 1, p);
    UnescapeQuoted(p);
  }

  lemma QuotedShape(body: Bytes, suffix: Bytes)
    ensures var s := [QUOTE] + body + [QUOTE] + suffix;
      s == [QUOTE] + body + ([QUOTE] + suffix) && s[1..1 + |body|] == body && s[1 + |body|] == QUOTE
  {}

  /** A header with both paths quoted is read back, for every pair of paths. */
  lemma QuotedPairRoundTrip(old_: Bytes, path: Bytes)
    ensures PathPair(Quoted([0x61, 0x2F] + old_) + [SPACE] + Quoted([0x62, 0x2F] + path)) == Some(Pair(old_, path))
  {
    var a, b := [0x61, 0x2F] + old_, [0x62, 0x2F] + path;
    var body := Quoted(a) + [SPACE] + Quoted(b);
    assert body == Quoted(a) + ([SPACE] + Quoted(b));
    QuotedRoundTrip(a, [SPACE] + Quoted(b));
    assert body[|Quoted(a)| + 1..] == Quoted(b);
    assert Quoted(b) + [] == Quoted(b);
    QuotedRoundTrip(b, []);
    assert a[2..] == old_ && b[2..] == path;
  }

  /** A header whose old path alone is quoted is read back, for every pair of paths. */
  lemma QuotedOldRoundTrip(old_: Bytes, path: Bytes)
    ensures PathPair(Quoted([0x61, 0x2F] + old_) + [SPACE, 0x62, 0x2F] + path) == Some(Pair(old_, path))
  {
    var a, rest := [0x61, 0x2F] + old_, [0x62, 0x2F] + path;
    var body := Quoted(a) + [SPACE, 0x62, 0x2F] + path;
    assert body == Quoted(a) + ([SPACE] + rest);
    QuotedRoundTrip(a, [SPACE] + rest);
    assert body[|Quoted(a)| + 1..] == rest;
    assert a[2..] == old_ && rest[2..] == path;
  }

  // ---- a header whose new path alone is quoted ----

  function HalfQuoted(old_: Bytes, path: Bytes): (r: Bytes)
    ensures |r| == |old_| + |QuoteBytes(path)| + 7
    ensures r[0] == 0x61 && r[1] == 0x2F && r[|old_| + 2] == SPACE && r[|old_| + 3] == QUOTE && r[|r| - 1] == QUOTE
    ensures r[|old_| + 4] == 0x62 && r[|old_| + 5] == 0x2F
    ensures forall i :: 0 <= i < |old_| ==> r[i + 2] == old_[i]
    ensures forall i :: 0 <= i < |QuoteBytes(path)| ==> r[i + |old_| + 6] == QuoteBytes(path)[i]
  {
    [0x61, 0x2F] + old_ + [SPACE, QUOTE, 0x62, 0x2F] + QuoteBytes(path) + [QUOTE]
  }

  lemma {:induction false} QuotesAreEscaped(p: Bytes, i: nat)
    requires i < |QuoteBytes(p)| && QuoteBytes(p)[i] == QUOTE
    ensures i > 0 && QuoteBytes(p)[i - 1] == BACKSLASH
  {
    var q := QuoteByte(p[0]);
    if i >= |q| { QuotesAreEscaped(p[1..], i - |q|); }
  }

  /** Quoting makes no separator and hides none. */
  lemma {:induction false} SepsSurviveQuoting(p: Bytes)
    ensures NoSep(QuoteBytes(p)) <==> NoSep(p)
  {
    if p != [] {
      var q, rest := QuoteByte(p[0]), QuoteBytes(p[1..]);
      SepsSurviveQuoting(p[1..]);
      assert p == [p[0]] + p[1..];
      NoSepBehind([p[0]], p[1..]);
      NoSepBehind(q, rest);
      PlainByte(p[0]);
      if |q| == 1 { SepAtFront(p[0], p[1..]); }
    }
  }

  lemma SepAtFront(b: byte, p: Bytes)
    ensures SepAt([b] + QuoteBytes(p), 0) <==> SepAt([b] + p, 0)
  {
    FirstQuoted(p);
    if p != [] && p[0] == 0x62 {
      FirstQuoted(p[1..]);
      assert ([b] + QuoteBytes(p))[1..] == QuoteBytes(p);
    }
    var s, t := [b] + QuoteBytes(p), [b] + p;
    assert |s| > 2 ==> s[1] == QuoteBytes(p)[0] && s[2] == QuoteBytes(p)[1];
    assert |t| > 2 ==> t[1] == p[0] && t[2] == p[1];
  }

  /** A separator starts in the first few bytes or behind them. */
  lemma NoSepBehind(q: Bytes, rest: Bytes)
    ensures NoSep(q + rest) <==> NoSep(rest) && forall i :: 0 <= i < |q| ==> !SepAt(q + rest, i)
  {
    forall i | 0 <= i < |rest| ensures SepAt(q + rest, i + |q|) == SepAt(rest, i) {}
    forall i | |q| <= i < |q + rest| ensures SepAt(q + rest, i) == SepAt(rest, i - |q|) {}
  }

  lemma FirstQuoted(p: Bytes)
    ensures QuoteBytes(p) == [] <==> p == []
    ensures p != [] ==> (QuoteBytes(p)[0] == 0x62 <==> p[0] == 0x62) && (QuoteBytes(p)[0] == 0x2F <==> p[0] == 0x2F)
    ensures p != [] && p[0] == 0x62 ==> QuoteBytes(p) == [p[0]] + QuoteBytes(p[1..])
  {
    if p != [] { PlainByte(p[0]); }
  }

  lemma PlainByte(b: byte)
    ensures var q := QuoteByte(b);
      && (if |q| == 1 then q == [b] else q[0] == BACKSLASH && b != 0x62 && b != 0x2F && b != SPACE)
      && forall i :: 0 < i < |q| ==> q[i] != SPACE
  {}

  /** The readings of such a header: the true one, and one at every " b/" in either path. */
  lemma ReadingOfHalf(old_: Bytes, path: Bytes, i: nat)
    requires NoQuote(old_) && i < |HalfQuoted(old_, path)|
    ensures var c := CandidateAt(HalfQuoted(old_, path), i);
      && (i == |old_| + 2 ==> c == Some(Pair(old_, path)))
      && (i != |old_| + 2 ==> (c.Some? <==> SepAt(old_, i - 2) || SepAt(QuoteBytes(path), i - |old_| - 6)))
      && (i != |old_| + 2 && c.Some? ==>
            c.value == Pair(HalfQuoted(old_, path)[2..i], HalfQuoted(old_, path)[i + 3..]) && (i < |old_| || i >= |old_| + 6))
  {
    var body := HalfQuoted(old_, path);
    if i == |old_| + 2 {
      TrueHalf(old_, path);
    } else {
      SepOfHalf(old_, path, i);
      if SepAt(body, i) { SepReading(body, i); } else { NoReading(body, i); }
    }
  }

  lemma SepReading(body: Bytes, i: nat)
    requires 2 <= i < |body| && body[0] == 0x61 && body[1] == 0x2F && SepAt(body, i)
    ensures CandidateAt(body, i) == Some(Pair(body[2..i], body[i + 3..]))
  {
    assert body[i..][0] == SPACE && body[i..][1] == 0x62 && body[i..][2] == 0x2F;
    assert body[i + 1..][0] == 0x62 && body[i + 1..][1] == 0x2F;
    assert body[..i][0] == 0x61 && body[..i][1] == 0x2F;
    assert body[..i][2..] == body[2..i] && body[i + 1..][2..] == body[i + 3..];
  }

  lemma NoReading(body: Bytes, i: nat)
    requires i < |body| && !SepAt(body, i) && !(body[i] == SPACE && i + 1 < |body| - 1 && body[i + 1] == QUOTE)
    ensures CandidateAt(body, i) == None
  {
    var rest := body[i..];
    assert forall k :: 0 <= k < |rest| ==> rest[k] == body[i + k];
    assert StartsWith(rest, " b/") ==> SepAt(body, i);
    assert |rest| > 1 ==> rest[1] == body[i + 1];
  }

  lemma TrueHalf(old_: Bytes, path: Bytes)
    ensures CandidateAt(HalfQuoted(old_, path), |old_| + 2) == Some(Pair(old_, path))
  {
    var body, b := HalfQuoted(old_, path), [0x62, 0x2F] + path;
    HalfIsHeader(old_, path);
    assert body[|old_| + 3..] == Quoted(b) + [];
    QuotedRoundTrip(b, []);
    assert Quoted(b) + [] == Quoted(b) && b[2..] == path;
    assert body[..|old_| + 2] == [0x61, 0x2F] + old_;
    assert body[|old_| + 2..][0] == SPACE && body[|old_| + 2..][1] == QUOTE;
    assert body[|old_| + 2..][2] == 0x62 && body[|old_| + 2..][3] == 0x2F;
  }

  lemma SepOfHalf(old_: Bytes, path: Bytes, i: nat)
    requires NoQuote(old_) && i < |HalfQuoted(old_, path)| && i != |old_| + 2
    ensures var body := HalfQuoted(old_, path);
      && (SepAt(body, i) <==> SepAt(old_, i - 2) || SepAt(QuoteBytes(path), i - |old_| - 6))
      && (SepAt(body, i) ==> 2 <= i < |old_| || i >= |old_| + 6)
      && !(body[i] == SPACE && i + 1 < |body| - 1 && body[i + 1] == QUOTE)
  {
    if i < |old_| + 2 { SepInOld(old_, path, i); } else { SepInQuoted(old_, path, i); }
  }

  lemma SepInOld(old_: Bytes, path: Bytes, i: nat)
    requires NoQuote(old_) && i < |old_| + 2
    ensures var body := HalfQuoted(old_, path);
      (SepAt(body, i) <==> SepAt(old_, i - 2)) && (SepAt(body, i) ==> 2 <= i < |old_|) && !(body[i] == SPACE && body[i + 1] == QUOTE)
  {
    var body := HalfQuoted(old_, path);
    assert 2 <= i ==> body[i] == old_[i - 2];
    assert 1 <= i <= |old_| ==> body[i + 1] == old_[i - 1];
    assert i < |old_| ==> body[i + 2] == old_[i];
  }

  lemma SepInQuoted(old_: Bytes, path: Bytes, i: nat)
    requires |old_| + 2 < i < |HalfQuoted(old_, path)|
    ensures var body := HalfQuoted(old_, path);
      && (SepAt(body, i) <==> SepAt(QuoteBytes(path), i - |old_| - 6)) && (SepAt(body, i) ==> i >= |old_| + 6)
      && !(body[i] == SPACE && i + 1 < |body| - 1 && body[i + 1] == QUOTE)
  {
    var body, q, k := HalfQuoted(old_, path), QuoteBytes(path), i - |old_| - 6;
    assert 0 <= k < |q| ==> body[i] == q[k];
    assert -1 <= k < |q| - 1 ==> body[i + 1] == q[k + 1];
    assert -2 <= k < |q| - 2 ==> body[i + 2] == q[k + 2];
    if -1 <= k < |q| - 1 && q[k + 1] == QUOTE { QuotesAreEscaped(path, k + 1); }
  }

  /** No reading but the true one names one path twice: its two halves have their quotes at different places. */
  lemma HalvesDiffer(old_: Bytes, path: Bytes, i: nat)
    requires NoQuote(old_) && i < |HalfQuoted(old_, path)| && i != |old_| + 2
    requires CandidateAt(HalfQuoted(old_, path), i).Some?
    ensures var c := CandidateAt(HalfQuoted(old_, path), i).value; c.old_ != c.path
  {
    var body := HalfQuoted(old_, path);
    ReadingOfHalf(old_, path, i);
    SepOfHalf(old_, path, i);
    var left, right := body[2..i], body[i + 3..];
    if i < |old_| {
      assert right[|right| - 1] == QUOTE;
      assert left != [] ==> left[|left| - 1] == old_[i - 3];
    } else if |left| == |right| {
      var k := i - 2;
      assert left[|old_| + 1] == QUOTE && left[|old_|] == SPACE;
      assert right[|old_| + 1] == QuoteBytes(path)[k] && right[|old_|] == QuoteBytes(path)[k - 1];
      if QuoteBytes(path)[k] == QUOTE { QuotesAreEscaped(path, k); }
    }
  }

  /** A header whose new path alone is quoted is read back exactly when neither path contains " b/", or both
      are the same. */
  lemma QuotedNewRoundTrip(old_: Bytes, path: Bytes)
    requires NoQuote(old_)
    ensures PathPair([0x61, 0x2F] + old_ + [SPACE] + Quoted([0x62, 0x2F] + path)) == Some(Pair(old_, path))
            <==> old_ == path || (NoSep(old_) && NoSep(path))
  {
    HalfIsHeader(old_, path);
    if old_ == path { SameHalves(path); } else { OtherHalves(old_, path); }
  }

  lemma OtherHalves(old_: Bytes, path: Bytes)
    requires NoQuote(old_) && old_ != path
    ensures PathPair(HalfQuoted(old_, path)) == Some(Pair(old_, path)) <==> NoSep(old_) && NoSep(path)
  {
    var body, k := HalfQuoted(old_, path), |old_| + 2;
    TrueHalf(old_, path);
    CandidatesContain(body, |body|, k);
    OneSepOfHalf(old_, path);
    OneReading(body, k, Pair(old_, path));
  }

  /** A reading that names two paths is the answer exactly when there is no other. */
  lemma OneReading(body: Bytes, k: nat, p: Pair)
    requires k < |body| && body[0] != QUOTE && CandidateAt(body, k) == Some(p) && p.old_ != p.path
    ensures PathPair(body) == Some(p) <==> Only(Readings(body, |body|), k)
  {
    var cs := Candidates(body, |body|);
    CandidatesContain(body, |body|, k);
    CandidatesArePresent(body, |body|);
    OnePresent(Readings(body, |body|), k);
    SameNameOnePath(cs);
    if |cs| == 1 { assert p == cs[0]; }
  }

  lemma SameHalves(p: Bytes)
    requires NoQuote(p)
    ensures PathPair(HalfQuoted(p, p)) == Some(Pair(p, p))
  {
    var body, k := HalfQuoted(p, p), |p| + 2;
    var cs := Candidates(body, |body|);
    ReadingOfHalf(p, p, k);
    CandidatesContain(body, |body|, k);
    forall i | 0 <= i < |body| ensures OnlyAt(body, i, k, Pair(p, p)) {
      if i != k && CandidateAt(body, i).Some? { HalvesDiffer(p, p, i); }
    }
    SameOnlyAt(body, |body|, k, Pair(p, p));
    if |cs| == 1 { assert Pair(p, p) == cs[0]; }
  }

  lemma HalfIsHeader(old_: Bytes, path: Bytes)
    ensures HalfQuoted(old_, path) == [0x61, 0x2F] + old_ + [SPACE] + Quoted([0x62, 0x2F] + path)
  {
    assert [0x62, 0x2F] + path == [0x62] + ([0x2F] + path);
    QuoteCons(0x62, [0x2F] + path);
    QuoteCons(0x2F, path);
  }

  lemma QuoteCons(b: byte, p: Bytes)
    requires QuoteByte(b) == [b]
    ensures QuoteBytes([b] + p) == [b] + QuoteBytes(p)
  {
    assert ([b] + p)[1..] == p;
  }

  lemma OneSepOfHalf(old_: Bytes, path: Bytes)
    requires NoQuote(old_)
    ensures var body := HalfQuoted(old_, path);
      Only(Readings(body, |body|), |old_| + 2) <==> NoSep(old_) && NoSep(path)
  {
    var body, q := HalfQuoted(old_, path), QuoteBytes(path);
    var rs := Readings(body, |body|);
    SepsSurviveQuoting(path);
    forall i | 0 <= i < |body| && i != |old_| + 2
      ensures rs[i].Some? <==> SepAt(old_, i - 2) || SepAt(q, i - |old_| - 6)
    {
      ReadingOfHalf(old_, path, i);
    }
    if i :| 0 <= i < |old_| && SepAt(old_, i) { assert rs[i + 2].Some?; }
    if i :| 0 <= i < |q| && SepAt(q, i) { assert rs[i + |old_| + 6].Some?; }
  }

  /** patchMarkerPath: the path of a --- or +++ line; empty for /dev/null. */
  function MarkerPath(input: Bytes, prefix: string): Option<Bytes> {
    var value :=
      if input != [] && input[0] == QUOTE then
        if QuotedPath(input).Some? then Some(QuotedPath(input).value.0) else None
      else if BeforeTab(input) != [] then Some(BeforeTab(input)) else None;
    if value.None? then None
    else if |value.value| == 9 && StartsWith(value.value, "/dev/null") then Some([])
    else if StartsWith(value.value, prefix) then Some(value.value[|prefix|..]) else value
  }

  function BeforeTab(s: Bytes): Bytes {
    if s == [] || s[0] == TAB then [] else [s[0]] + BeforeTab(s[1..])
  }
}
