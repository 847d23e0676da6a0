/** Reading unified-diff text into per-file patches, within caps on bytes, lines and line length. */
module Diff {
  import opened Prelude
  import opened DiffPaths

  const MAX_BYTES := 200000
  const MAX_FILE_LINES := 800
  const MAX_LINE_CHARS := 500
  const MIN_ROOM := 4096

  datatype Status = Modified | Added | Deleted | Renamed

  datatype DiffFile = DiffFile(
    path: Bytes, oldPath: Option<Bytes>, status: Status, binary: bool,
    add: nat, del: nat, lines: seq<Bytes>, truncated: bool)

  // ---- the byte cap over a whole diff ----

  /** What lines cost: their bytes and one newline each. */
  function Size(lines: seq<Bytes>): nat {
    if lines == [] then 0 else Size(lines[..|lines| - 1]) + |lines[|lines| - 1]| + 1
  }

  function Total(files: seq<DiffFile>): nat {
    if files == [] then 0 else Total(files[..|files| - 1]) + Size(files[|files| - 1].lines)
  }

  lemma {:induction false} SizePrefix(lines: seq<Bytes>, m: nat, n: nat)
    requires m <= n <= |lines|
    ensures Size(lines[..m]) <= Size(lines[..n])
    ensures m < n ==> Size(lines[..m]) < Size(lines[..n])
    decreases n
  {
    if m < n {
      assert lines[..n][..n - 1] == lines[..n - 1];
      SizePrefix(lines, m, n - 1);
    }
  }

  method MeasureLines(lines: seq<Bytes>) returns (size: nat)
    ensures size == Size(lines)
  {
    size := 0;
    for i := 0 to |lines|
      invariant size == Size(lines[..i])
    {
      assert lines[..i + 1][..i] == lines[..i];
      size := size + |lines[i]| + 1;
    }
    assert lines[..|lines|] == lines;
  }

  /** kept is file as it was, or cut to its longest prefix of lines within budget and marked so. */
  predicate CutTo(file: DiffFile, kept: DiffFile, budget: int) {
    && kept == file.(lines := kept.lines, truncated := true)
    && kept.lines <= file.lines
    && Size(kept.lines) <= budget
    && forall n :: |kept.lines| < n <= |file.lines| ==> Size(file.lines[..n]) > budget
  }

  method CutLines(file: DiffFile, budget: nat) returns (kept: DiffFile)
    ensures CutTo(file, kept, budget)
  {
    var lines, used, i := [], 0, 0;
    while i < |file.lines|
      invariant i <= |file.lines| && lines == file.lines[..i] && used == Size(lines) <= budget
    {
      assert file.lines[..i + 1][..i] == file.lines[..i];
      if used + |file.lines[i]| + 1 > budget {
        break;
      }
      lines := lines + [file.lines[i]];
      used := used + |file.lines[i]| + 1;
      i := i + 1;
    }
    forall n | i < n <= |file.lines| ensures Size(file.lines[..n]) > budget {
      SizePrefix(file.lines, i + 1, n);
    }
    kept := file.(lines := lines, truncated := true);
  }

  lemma TotalSnoc(files: seq<DiffFile>, f: DiffFile)
    ensures Total(files + [f]) == Total(files) + Size(f.lines)
  {
    assert (files + [f])[..|files|] == files;
  }

  predicate Ascending(from: seq<nat>, n: nat) {
    && (forall i :: 0 <= i < |from| ==> from[i] < n)
    && (forall i, j :: 0 <= i < j < |from| ==> from[i] < from[j])
  }

  /** The room a file comes to when those in kept are already in. */
  function Room(kept: seq<DiffFile>): int { MAX_BYTES - Total(kept) }

  /** What becomes of a file that is kept: whole if there is room for it, else cut to the room there is, but
      not to too little. */
  predicate Fitted(file: DiffFile, kept: DiffFile, room: int) {
    if Size(file.lines) <= room then kept == file else room > MIN_ROOM && CutTo(file, kept, room)
  }

  /** The i-th kept file is the one from names. */
  predicate Source(files: seq<DiffFile>, kept: seq<DiffFile>, from: seq<nat>, i: nat)
    requires i < |kept| == |from|
  {
    from[i] < |files| && Fitted(files[from[i]], kept[i], Room(kept[..i]))
  }

  /** File m is not kept: when its turn came it did not fit, and too little room was left to cut it to. */
  predicate SkippedAt(files: seq<DiffFile>, kept: seq<DiffFile>, from: seq<nat>, m: nat, k: nat)
    requires m < |files| && k <= |kept| == |from|
  {
    && (forall i :: 0 <= i < k ==> from[i] < m) && (forall i :: k <= i < |from| ==> m < from[i])
    && k > 0 && Size(files[m].lines) > Room(kept[..k]) && Room(kept[..k]) <= MIN_ROOM
  }

  ghost predicate Skipped(files: seq<DiffFile>, kept: seq<DiffFile>, from: seq<nat>, m: nat)
    requires m < |files| && |kept| == |from|
  {
    exists k :: 0 <= k <= |kept| && SkippedAt(files, kept, from, m, k)
  }

  /** Each kept file is one of the input's, and they keep its order. */
  predicate KeptFrom(files: seq<DiffFile>, kept: seq<DiffFile>, from: seq<nat>, n: nat) {
    && |from| == |kept|
    && Ascending(from, n)
    && forall i :: 0 <= i < |from| ==> Source(files, kept, from, i)
  }

  lemma SourceSnoc(files: seq<DiffFile>, kept: seq<DiffFile>, from: seq<nat>, n: nat, f: DiffFile, i: nat)
    requires i < |from| == |kept| && Source(files, kept, from, i)
    ensures Source(files, kept + [f], from + [n], i)
  {
    assert (kept + [f])[..i] == kept[..i];
  }

  lemma SkippedSnoc(files: seq<DiffFile>, kept: seq<DiffFile>, from: seq<nat>, n: nat, f: DiffFile, m: nat)
    requires m < n < |files| && |kept| == |from| && Skipped(files, kept, from, m)
    ensures Skipped(files, kept + [f], from + [n], m)
  {
    var k :| 0 <= k <= |kept| && SkippedAt(files, kept, from, m, k);
    assert (kept + [f])[..k] == kept[..k];
    assert SkippedAt(files, kept + [f], from + [n], m, k);
  }

  lemma KeptSnoc(files: seq<DiffFile>, kept: seq<DiffFile>, from: seq<nat>, n: nat, f: DiffFile)
    requires KeptFrom(files, kept, from, n) && n < |files|
    requires Fitted(files[n], f, Room(kept))
    ensures KeptFrom(files, kept + [f], from + [n], n + 1)
    ensures Total(kept + [f]) == Total(kept) + Size(f.lines)
  {
    TotalSnoc(kept, f);
    assert (kept + [f])[..|kept|] == kept;
    assert Source(files, kept + [f], from + [n], |kept|);
    forall i | 0 <= i < |kept| ensures Source(files, kept + [f], from + [n], i) {
      SourceSnoc(files, kept, from, n, f, i);
    }
  }

  /** What CapFiles has done with the first n files: each is kept or skipped. */
  ghost predicate Capped(files: seq<DiffFile>, n: nat, kept: seq<DiffFile>, dropped: nat, from: seq<nat>)
    requires n <= |files|
  {
    && |kept| + dropped == n
    && Total(kept) <= MAX_BYTES
    && KeptFrom(files, kept, from, n)
    && (forall m :: 0 <= m < n && m !in from ==> Skipped(files, kept, from, m))
    && (n > 0 ==> kept != [] && from[0] == 0)
    && (Total(files[..n]) <= MAX_BYTES ==> kept == files[..n])
  }

  lemma CappedKeeps(files: seq<DiffFile>, n: nat, kept: seq<DiffFile>, dropped: nat, from: seq<nat>, f: DiffFile)
    requires n < |files| && Capped(files, n, kept, dropped, from)
    requires Total(kept) + Size(f.lines) <= MAX_BYTES
    requires Fitted(files[n], f, Room(kept))
    ensures Capped(files, n + 1, kept + [f], dropped, from + [n])
  {
    KeptSnoc(files, kept, from, n, f);
    forall m | 0 <= m < n + 1 && m !in from + [n] ensures Skipped(files, kept + [f], from + [n], m) {
      assert m != n && m !in from by { assert (from + [n])[|from|] == n; }
      SkippedSnoc(files, kept, from, n, f, m);
    }
    assert files[..n + 1] == files[..n] + [files[n]];
    TotalSnoc(files[..n], files[n]);
  }

  lemma CappedDrops(files: seq<DiffFile>, n: nat, kept: seq<DiffFile>, dropped: nat, from: seq<nat>)
    requires n < |files| && Capped(files, n, kept, dropped, from)
    requires kept != [] && Room(kept) <= MIN_ROOM && Size(files[n].lines) > Room(kept)
    ensures Capped(files, n + 1, kept, dropped + 1, from)
  {
    assert kept[..|kept|] == kept;
    assert SkippedAt(files, kept, from, n, |kept|);
    assert files[..n + 1] == files[..n] + [files[n]];
    TotalSnoc(files[..n], files[n]);
  }

  /** CapFiles. The total is bounded; every file is kept, whole if it fits and cut if it does not, or
      skipped and counted; the first is always kept; and a diff that fits is untouched. */
  method CapFiles(files: seq<DiffFile>) returns (kept: seq<DiffFile>, dropped: nat, ghost from: seq<nat>)
    ensures Total(kept) <= MAX_BYTES
    ensures |kept| + dropped == |files|
    ensures KeptFrom(files, kept, from, |files|)
    ensures forall m :: 0 <= m < |files| && m !in from ==> Skipped(files, kept, from, m)
    ensures files != [] ==> kept != [] && from[0] == 0
    ensures Total(files) <= MAX_BYTES ==> kept == files
  {
    kept, dropped, from := [], 0, [];
    var total := 0;
    for n := 0 to |files|
      invariant total == Total(kept) && Capped(files, n, kept, dropped, from)
    {
      var file := files[n];
      var size := MeasureLines(file.lines);
      var room := MAX_BYTES - total;
      if size <= room {
        CappedKeeps(files, n, kept, dropped, from, file);
        TotalSnoc(kept, file);
        kept, from, total := kept + [file], from + [n], total + size;
      } else if |kept| > 0 && room <= MIN_ROOM {
        CappedDrops(files, n, kept, dropped, from);
        dropped := dropped + 1;
      } else {
        var budget := Max(room, MIN_ROOM);
        var cut := CutLines(file, budget);
        var used := MeasureLines(cut.lines);
        CappedKeeps(files, n, kept, dropped, from, cut);
        TotalSnoc(kept, cut);
        kept, from, total := kept + [cut], from + [n], total + used;
      }
    }
    assert files[..|files|] == files;
  }
}
