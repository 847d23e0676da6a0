/** Splitting unified-diff text into one patch per file, under the per-file caps on lines and on the
    length of each line. */
module Patch {
  import opened Prelude
  import opened Utf8
  import opened DiffPaths
  import opened Diff

  const PLUS: byte := 0x2B
  const MINUS: byte := 0x2D
  const ELLIPSIS: Bytes := [0x20, 0xE2, 0x80, 0xA6]

  function Text(s: string): (t: Bytes)
    requires forall i :: 0 <= i < |s| ==> (s[i] as int) < 128
    ensures |t| == |s| && forall i :: 0 <= i < |s| ==> t[i] == s[i] as int
  {
    seq(|s|, i requires 0 <= i < |s| => s[i] as int)
  }

  // ---- characters ----

  function Width(s: Bytes, i: nat): (w: nat)
    requires i < |s|
    ensures 1 <= w <= |s| - i
  {
    Max(RuneLen(s[i..]), 1)
  }

  /** Characters from index i on, a byte that starts none counting as one. */
  function RunesFrom(s: Bytes, i: nat): nat
    requires i <= |s|
    decreases |s| - i
  {
    if i == |s| then 0 else 1 + RunesFrom(s, i + Width(s, i))
  }

  function Runes(s: Bytes): nat { RunesFrom(s, 0) }

  /** Where the max characters that start at index i end. */
  function ClipEnd(s: Bytes, i: nat, max: nat): (end: nat)
    requires i <= |s|
    ensures i <= end <= |s|
    decreases max
  {
    if max == 0 || i == |s| then i else ClipEnd(s, i + Width(s, i), max - 1)
  }

  function Clipped(s: Bytes, max: nat): Bytes { s[..ClipEnd(s, 0, max)] }

  lemma {:induction false} RunesBound(s: Bytes, i: nat)
    requires i <= |s|
    ensures RunesFrom(s, i) <= |s| - i
    decreases |s| - i
  {
    if i < |s| { RunesBound(s, i + Width(s, i)); }
  }

  /** Clipping takes as many characters as asked for, or all there are. */
  lemma {:induction false} ClipCounts(s: Bytes, i: nat, max: nat)
    requires i <= |s|
    ensures RunesFrom(s, i) == Min(max, RunesFrom(s, i)) + RunesFrom(s, ClipEnd(s, i, max))
    decreases max
  {
    if max > 0 && i < |s| { ClipCounts(s, i + Width(s, i), max - 1); }
  }

  lemma NextBoundary(s: Bytes, i: nat)
    requires i < |s| && Boundary(s, i)
    ensures Boundary(s, i + Width(s, i))
  {
    var t, w := s[i..], Width(s, i);
    FirstIsWellFormed(t);
    Append(s[..i], t[..w]);
    assert s[..i + w] == s[..i] + t[..w] && s[i + w..] == t[w..];
  }

  /** Clipping never cuts a character of well-formed text. */
  lemma {:induction false} ClipIsBoundary(s: Bytes, i: nat, max: nat)
    requires Boundary(s, i)
    ensures Boundary(s, ClipEnd(s, i, max))
    decreases max
  {
    if max > 0 && i < |s| {
      NextBoundary(s, i);
      ClipIsBoundary(s, i + Width(s, i), max - 1);
    }
  }

  lemma ShortIsKept(s: Bytes, max: nat)
    requires Runes(s) <= max
    ensures Clipped(s, max) == s
  {
    ClipCounts(s, 0, max);
  }

  /** clip. */
  method Clip(s: Bytes, max: nat) returns (r: Bytes)
    ensures r == Clipped(s, max)
  {
    if max == 0 {
      return [];
    }
    if |s| <= max {
      RunesBound(s, 0);
      ShortIsKept(s, max);
      return s;
    }
    var index, count := 0, 0;
    while index < |s| && count < max
      invariant index <= |s| && count <= max && ClipEnd(s, 0, max) == ClipEnd(s, index, max - count)
    {
      index, count := index + Width(s, index), count + 1;
    }
    r := s[..index];
  }

  // ---- lines ----

  datatype Kind =
    | OldMarker | NewMarker | RenameFrom | RenameTo | NewFile | DeletedFile | BinaryFile | HunkHead | Body | Other

  predicate IsHeader(line: Bytes) { StartsWith(line, "diff --git ") }

  predicate IsHunkHead(line: Bytes) { StartsWith(line, "@@") }

  /** What a line is taken for; file markers and rename lines only count before the first hunk. */
  function KindOf(line: Bytes, inHunk: bool): Kind {
    if !inHunk && StartsWith(line, "--- ") then OldMarker
    else if !inHunk && StartsWith(line, "+++ ") then NewMarker
    else if !inHunk && StartsWith(line, "rename from ") then RenameFrom
    else if !inHunk && StartsWith(line, "rename to ") then RenameTo
    else if StartsWith(line, "new file") then NewFile
    else if StartsWith(line, "deleted file") then DeletedFile
    else if StartsWith(line, "Binary files") then BinaryFile
    else if IsHunkHead(line) then HunkHead
    else if StartsWith(line, "+") || StartsWith(line, "-") || StartsWith(line, " ") then Body
    else Other
  }

  /** A line starts with no text whose first byte is not its own. */
  lemma OtherFirst(line: Bytes, text: string)
    requires line != [] && text != "" && line[0] != text[0] as int
    ensures !StartsWith(line, text)
  {}

  lemma FirstByteKind(line: Bytes)
    requires line != []
    ensures line[0] != 0x2D ==> !StartsWith(line, "--- ") && !StartsWith(line, "-")
    ensures line[0] != 0x2B ==> !StartsWith(line, "+++ ") && !StartsWith(line, "+")
    ensures line[0] != 0x72 ==> !StartsWith(line, "rename from ") && !StartsWith(line, "rename to ")
    ensures line[0] != 0x6E ==> !StartsWith(line, "new file")
    ensures line[0] != 0x64 ==> !StartsWith(line, "deleted file") && !IsHeader(line)
    ensures line[0] != 0x42 ==> !StartsWith(line, "Binary files")
    ensures line[0] != 0x40 ==> !IsHunkHead(line)
    ensures line[0] != 0x20 ==> !StartsWith(line, " ")
  {
    if line[0] != 0x2D { OtherFirst(line, "--- "); OtherFirst(line, "-"); }
    if line[0] != 0x2B { OtherFirst(line, "+++ "); OtherFirst(line, "+"); }
    if line[0] != 0x72 { OtherFirst(line, "rename from "); OtherFirst(line, "rename to "); }
    if line[0] != 0x6E { OtherFirst(line, "new file"); }
    if line[0] != 0x64 { OtherFirst(line, "deleted file"); OtherFirst(line, "diff --git "); }
    if line[0] != 0x42 { OtherFirst(line, "Binary files"); }
    if line[0] != 0x40 { OtherFirst(line, "@@"); }
    if line[0] != 0x20 { OtherFirst(line, " "); }
  }

  predicate HasHunk(lines: seq<Bytes>) {
    lines != [] && (IsHunkHead(lines[0]) || HasHunk(lines[1..]))
  }

  /** The lines of a section that are hunk heads or hunk text. */
  function Content(lines: seq<Bytes>, inHunk: bool): seq<Bytes> {
    if lines == [] then []
    else
      (if KindOf(lines[0], inHunk) in {HunkHead, Body} then [lines[0]] else [])
      + Content(lines[1..], inHunk || IsHunkHead(lines[0]))
  }

  function Count(lines: seq<Bytes>, marker: byte): (n: nat)
    ensures n <= |lines|
  {
    if lines == [] then 0
    else Count(lines[..|lines| - 1], marker) + if lines[|lines| - 1] != [] && lines[|lines| - 1][0] == marker then 1 else 0
  }

  function Shown(line: Bytes): Bytes {
    if Runes(line) > MAX_LINE_CHARS then Clipped(line, MAX_LINE_CHARS) + ELLIPSIS else line
  }

  /** What of the content travels: the first lines, none of them too long. */
  function Carried(content: seq<Bytes>): (r: seq<Bytes>)
    ensures |r| == Min(|content|, MAX_FILE_LINES)
  {
    if content == [] then []
    else
      var n := |content| - 1;
      Carried(content[..n]) + if n < MAX_FILE_LINES then [Shown(content[n])] else []
  }

  predicate LosesText(content: seq<Bytes>) {
    || |content| > MAX_FILE_LINES
    || exists i :: 0 <= i < |content| && Runes(content[i]) > MAX_LINE_CHARS
  }

  // ---- names ----

  datatype Names = Names(path: Bytes, oldPath: Option<Bytes>, status: Status, binary: bool)

  function Begin(header: Bytes): Names {
    var pair := PathPair(header);
    if pair.None? then Names(header, None, Modified, false)
    else Names(pair.value.path, if pair.value.old_ != pair.value.path then Some(pair.value.old_) else None, Modified, false)
  }

  /** A new path, or for /dev/null the old one; a file is not renamed to itself. */
  function Retarget(n: Names, path: Bytes): Names {
    var m :=
      if path != [] then n.(path := path)
      else if n.oldPath.Some? then n.(path := n.oldPath.value, oldPath := None) else n;
    if m.oldPath == Some(m.path) then m.(oldPath := None) else m
  }

  function Name(n: Names, line: Bytes, inHunk: bool): Names {
    match KindOf(line, inHunk)
    case OldMarker =>
      var old_ := MarkerPath(line[4..], "a/");
      if old_.Some? && old_.value != [] && old_.value != n.path then n.(oldPath := old_) else n
    case NewMarker =>
      var path := MarkerPath(line[4..], "b/");
      if path.Some? then Retarget(n, path.value) else n
    case RenameFrom =>
      var old_ := PathValue(line[12..]);
      n.(status := Renamed, oldPath := if old_.Some? then old_ else n.oldPath)
    case RenameTo =>
      var path := PathValue(line[10..]);
      n.(status := Renamed, path := if path.Some? then path.value else n.path)
    case NewFile => n.(status := Added)
    case DeletedFile => n.(status := Deleted)
    case BinaryFile => n.(binary := true)
    case _ => n
  }

  function NamesAfter(n: Names, lines: seq<Bytes>, inHunk: bool): Names
    decreases |lines|
  {
    if lines == [] then n
    else NamesAfter(Name(n, lines[0], inHunk), lines[1..], inHunk || IsHunkHead(lines[0]))
  }

  lemma {:induction false} HasHunkAppend(a: seq<Bytes>, b: seq<Bytes>)
    ensures HasHunk(a + b) <==> HasHunk(a) || HasHunk(b)
  {
    if a == [] {
      assert a + b == b;
    } else {
      assert (a + b)[1..] == a[1..] + b;
      HasHunkAppend(a[1..], b);
    }
  }

  lemma {:induction false} ContentAppend(a: seq<Bytes>, b: seq<Bytes>, inHunk: bool)
    ensures Content(a + b, inHunk) == Content(a, inHunk) + Content(b, inHunk || HasHunk(a))
    decreases |a|
  {
    if a == [] {
      assert a + b == b;
    } else {
      assert (a + b)[1..] == a[1..] + b;
      ContentAppend(a[1..], b, inHunk || IsHunkHead(a[0]));
    }
  }

  lemma {:induction false} NamesAppend(n: Names, a: seq<Bytes>, b: seq<Bytes>, inHunk: bool)
    ensures NamesAfter(n, a + b, inHunk) == NamesAfter(NamesAfter(n, a, inHunk), b, inHunk || HasHunk(a))
    decreases |a|
  {
    if a == [] {
      assert a + b == b;
    } else {
      assert (a + b)[1..] == a[1..] + b;
      var next := Name(n, a[0], inHunk);
      NamesAppend(next, a[1..], b, inHunk || IsHunkHead(a[0]));
    }
  }

  // ---- sections ----

  datatype Section = Section(header: Bytes, lines: seq<Bytes>)

  /** One section per header line, holding what follows it; text before the first header is dropped. */
  function Sections(lines: seq<Bytes>): seq<Section> {
    if lines == [] then []
    else
      var before, line := Sections(lines[..|lines| - 1]), lines[|lines| - 1];
      if IsHeader(line) then before + [Section(line[11..], [])]
      else if before == [] then []
      else before[|before| - 1 := Section(before[|before| - 1].header, before[|before| - 1].lines + [line])]
  }

  /** The patch a section stands for: the counts are of all its content, whatever of it is carried. */
  function FileOf(s: Section): DiffFile {
    var n, content := NamesAfter(Begin(s.header), s.lines, false), Content(s.lines, false);
    DiffFile(n.path, n.oldPath, n.status, n.binary, Count(content, PLUS), Count(content, MINUS),
             Carried(content), LosesText(content))
  }

  function Files(sections: seq<Section>): (r: seq<DiffFile>)
    ensures |r| == |sections|
  {
    seq(|sections|, i requires 0 <= i < |sections| => FileOf(sections[i]))
  }

  lemma CountSnoc(lines: seq<Bytes>, line: Bytes, marker: byte)
    ensures Count(lines + [line], marker) == Count(lines, marker) + if line != [] && line[0] == marker then 1 else 0
  {
    assert (lines + [line])[..|lines|] == lines;
  }

  lemma CarriedSnoc(content: seq<Bytes>, line: Bytes)
    ensures Carried(content + [line]) == Carried(content) + if |content| < MAX_FILE_LINES then [Shown(line)] else []
  {
    assert (content + [line])[..|content|] == content;
  }

  lemma LosesTextSnoc(content: seq<Bytes>, line: Bytes)
    ensures LosesText(content + [line]) <==>
      LosesText(content) || |content| >= MAX_FILE_LINES || Runes(line) > MAX_LINE_CHARS
  {
    var c := content + [line];
    assert forall i :: 0 <= i < |content| ==> c[i] == content[i];
    assert c[|content|] == line;
  }

  predicate Stands(file: DiffFile, content: seq<Bytes>) {
    && file.add == Count(content, PLUS)
    && file.del == Count(content, MINUS)
    && file.lines == Carried(content)
    && (file.truncated <==> LosesText(content))
  }

  function NamesOf(file: DiffFile): Names { Names(file.path, file.oldPath, file.status, file.binary) }

  /** A content line of the current file: counted first, then carried as far as the caps allow. */
  method AddContent(file: DiffFile, line: Bytes, ghost content: seq<Bytes>) returns (r: DiffFile)
    requires line != [] && Stands(file, content)
    ensures Stands(r, content + [line]) && NamesOf(r) == NamesOf(file)
  {
    CountSnoc(content, line, PLUS);
    CountSnoc(content, line, MINUS);
    CarriedSnoc(content, line);
    LosesTextSnoc(content, line);
    r := file;
    if line[0] == PLUS {
      r := r.(add := r.add + 1);
    } else if line[0] == MINUS {
      r := r.(del := r.del + 1);
    }
    if |file.lines| >= MAX_FILE_LINES {
      r := r.(truncated := true);
    } else if Runes(line) > MAX_LINE_CHARS {
      var cut := Clip(line, MAX_LINE_CHARS);
      r := r.(lines := r.lines + [cut + ELLIPSIS], truncated := true);
    } else {
      r := r.(lines := r.lines + [line]);
    }
  }

  /** file is what has been read of section s, the last line of which was inside a hunk or not. */
  predicate Current(file: DiffFile, inHunk: bool, s: Section) {
    && NamesOf(file) == NamesAfter(Begin(s.header), s.lines, false)
    && Stands(file, Content(s.lines, false))
    && (inHunk <==> HasHunk(s.lines))
  }

  lemma SectionSnoc(s: Section, line: Bytes)
    ensures var t, inHunk := s.lines + [line], HasHunk(s.lines);
      && NamesAfter(Begin(s.header), t, false) == Name(NamesAfter(Begin(s.header), s.lines, false), line, inHunk)
      && Content(t, false) ==
           Content(s.lines, false) + (if KindOf(line, inHunk) in {HunkHead, Body} then [line] else [])
      && (HasHunk(t) <==> inHunk || IsHunkHead(line))
  {
    var n, inHunk := NamesAfter(Begin(s.header), s.lines, false), HasHunk(s.lines);
    var still := inHunk || IsHunkHead(line);
    HasHunkAppend(s.lines, [line]);
    ContentAppend(s.lines, [line], false);
    NamesAppend(Begin(s.header), s.lines, [line], false);
    assert Content([line], inHunk) == (if KindOf(line, inHunk) in {HunkHead, Body} then [line] else []) + Content([], still);
    assert NamesAfter(n, [line], inHunk) == NamesAfter(Name(n, line, inHunk), [], still);
  }

  lemma ContentLine(n: Names, line: Bytes, inHunk: bool)
    requires KindOf(line, inHunk) in {HunkHead, Body}
    ensures line != [] && Name(n, line, inHunk) == n
  {}

  method Add(file: DiffFile, line: Bytes, isContent: bool, names: Names, ghost content: seq<Bytes>) returns (r: DiffFile)
    requires Stands(file, content) && (isContent ==> line != [] && names == NamesOf(file))
    ensures Stands(r, content + if isContent then [line] else []) && NamesOf(r) == names
  {
    if isContent {
      r := AddContent(file, line, content);
    } else {
      assert content + [] == content;
      r := file.(path := names.path, oldPath := names.oldPath, status := names.status, binary := names.binary);
    }
  }

  /** One line after a header. */
  method AddLine(file: DiffFile, line: Bytes, inHunk: bool, ghost s: Section) returns (r: DiffFile)
    requires Current(file, inHunk, s)
    ensures Current(r, inHunk || IsHunkHead(line), Section(s.header, s.lines + [line]))
  {
    SectionSnoc(s, line);
    if KindOf(line, inHunk) in {HunkHead, Body} {
      ContentLine(NamesOf(file), line, inHunk);
      r := Add(file, line, true, NamesOf(file), Content(s.lines, false));
    } else {
      r := Add(file, line, false, Name(NamesOf(file), line, inHunk), Content(s.lines, false));
    }
  }

  lemma SectionsSnoc(lines: seq<Bytes>, line: Bytes)
    ensures var before := Sections(lines);
      Sections(lines + [line]) ==
        if IsHeader(line) then before + [Section(line[11..], [])]
        else if before == [] then []
        else before[..|before| - 1] + [Section(before[|before| - 1].header, before[|before| - 1].lines + [line])]
  {
    assert (lines + [line])[..|lines|] == lines;
  }

  lemma FilesSnoc(sections: seq<Section>, file: DiffFile, inHunk: bool)
    requires sections != [] && Current(file, inHunk, sections[|sections| - 1])
    ensures Files(sections) == Files(sections[..|sections| - 1]) + [file]
  {}

  /** The current file, if there is one, is complete. */
  method Finish(files: seq<DiffFile>, current: Option<DiffFile>, inHunk: bool, ghost s: seq<Section>) returns (all: seq<DiffFile>)
    requires current.None? <==> s == []
    requires current.None? ==> files == []
    requires current.Some? ==> files == Files(s[..|s| - 1]) && Current(current.value, inHunk, s[|s| - 1])
    ensures all == Files(s)
  {
    all := files;
    if current.Some? {
      FilesSnoc(s, current.value, inHunk);
      all := files + [current.value];
    }
  }

  /** SplitPatch, on text already split at its newlines: one file per header, each with its true counts. */
  method SplitPatch(lines: seq<Bytes>) returns (files: seq<DiffFile>)
    ensures files == Files(Sections(lines))
  {
    files := [];
    var current: Option<DiffFile>, inHunk := None, false;
    ghost var s: seq<Section> := [];
    for k := 0 to |lines|
      invariant s == Sections(lines[..k])
      invariant current.None? <==> s == []
      invariant current.None? ==> files == []
      invariant current.Some? ==> files == Files(s[..|s| - 1]) && Current(current.value, inHunk, s[|s| - 1])
    {
      var line := lines[k];
      assert lines[..k + 1] == lines[..k] + [line];
      SectionsSnoc(lines[..k], line);
      if IsHeader(line) {
        files := Finish(files, current, inHunk, s);
        var names := Begin(line[11..]);
        current := Some(DiffFile(names.path, names.oldPath, Modified, false, 0, 0, [], false));
        inHunk := false;
        s := s + [Section(line[11..], [])];
      } else if current.Some? {
        var next := AddLine(current.value, line, inHunk, s[|s| - 1]);
        current, inHunk := Some(next), inHunk || IsHunkHead(line);
        s := s[..|s| - 1] + [Section(s[|s| - 1].header, s[|s| - 1].lines + [line])];
      }
    }
    assert lines[..|lines|] == lines;
    files := Finish(files, current, inHunk, s);
  }
}
