/** What git prints for a change, and that splitting it gives the change back. */
module PatchRoundTrip {
  import opened Prelude
  import opened DiffPaths
  import opened Diff
  import opened Patch

  datatype HunkLine = Insert(text: Bytes) | Remove(text: Bytes) | Keep(text: Bytes) | NoNewline

  datatype Hunk = Hunk(head: Bytes, lines: seq<HunkLine>)

  datatype Change = Edit(path: Bytes) | Create(path: Bytes) | Delete(path: Bytes) | Rename(old_: Bytes, path: Bytes)
  {
    function From(): Bytes { if Rename? then old_ else path }

    predicate Valid() { path != [] && (Rename? ==> old_ != [] && old_ != path) }
  }

  datatype Text = Nothing | BinaryText(text: Bytes) | Hunks(hunks: seq<Hunk>)

  /** One file's change; before and after are the mode, similarity and index lines around its status. */
  datatype FilePatch = FilePatch(change: Change, before: seq<Bytes>, after: seq<Bytes>, text: Text)
  {
    predicate Valid() { change.Valid() && AllInert(before) && AllInert(after) && (text.Hunks? ==> text.hunks != []) }
  }

  /** A line outside hunks that says nothing the splitter uses. */
  predicate Inert(line: Bytes) { KindOf(line, false) == Other && !IsHeader(line) }

  predicate AllInert(lines: seq<Bytes>) { forall i :: 0 <= i < |lines| ==> Inert(lines[i]) }

  // ---- how git writes it ----

  const A_SLASH: Bytes := [0x61, 0x2F]
  const B_SLASH: Bytes := [0x62, 0x2F]

  predicate Plain(p: Bytes) { forall i :: 0 <= i < |p| ==> QuoteByte(p[i]) == [p[i]] }

  function Written(prefix: Bytes, p: Bytes): Bytes { if Plain(p) then prefix + p else Quoted(prefix + p) }

  function HeaderText(old_: Bytes, path: Bytes): Bytes { Written(A_SLASH, old_) + [SPACE] + Written(B_SLASH, path) }

  /** A name with a space in it is followed by a tab on a file marker. */
  function Marked(prefix: Bytes, p: Bytes): Bytes { Written(prefix, p) + if SPACE in p then [TAB] else [] }

  function HunkText(line: HunkLine): Bytes {
    match line
    case Insert(text) => [PLUS] + text
    case Remove(text) => [MINUS] + text
    case Keep(text) => [SPACE] + text
    case NoNewline => [BACKSLASH] + Patch.Text(" No newline at end of file")
  }

  function HunkTexts(lines: seq<HunkLine>): seq<Bytes> {
    if lines == [] then [] else [HunkText(lines[0])] + HunkTexts(lines[1..])
  }

  function HeadText(h: Hunk): Bytes { Patch.Text("@@") + h.head }

  function RenderHunks(hunks: seq<Hunk>): seq<Bytes> {
    if hunks == [] then [] else [HeadText(hunks[0])] + HunkTexts(hunks[0].lines) + RenderHunks(hunks[1..])
  }

  function StatusLines(c: Change): seq<Bytes> {
    match c
    case Edit(_) => []
    case Create(_) => [Patch.Text("new file") + Patch.Text(" mode 100644")]
    case Delete(_) => [Patch.Text("deleted file") + Patch.Text(" mode 100644")]
    case Rename(old_, path) =>
      [Patch.Text("rename from ") + Written([], old_), Patch.Text("rename to ") + Written([], path)]
  }

  function OldText(c: Change): Bytes { if c.Create? then Patch.Text("/dev/null") else Marked(A_SLASH, c.From()) }

  function NewText(c: Change): Bytes { if c.Delete? then Patch.Text("/dev/null") else Marked(B_SLASH, c.path) }

  function Markers(c: Change): seq<Bytes> {
    [Patch.Text("--- ") + OldText(c), Patch.Text("+++ ") + NewText(c)]
  }

  function BodyLines(f: FilePatch): seq<Bytes> {
    match f.text
    case Nothing => []
    case BinaryText(text) => [Patch.Text("Binary files") + text]
    case Hunks(hunks) => Markers(f.change) + RenderHunks(hunks)
  }

  function RenderSection(f: FilePatch): Section {
    Section(HeaderText(f.change.From(), f.change.path), f.before + StatusLines(f.change) + f.after + BodyLines(f))
  }

  function HeaderLine(header: Bytes): Bytes { Patch.Text("diff --git ") + header }

  function Printed(sections: seq<Section>): seq<Bytes> {
    if sections == [] then []
    else
      var s := sections[|sections| - 1];
      Printed(sections[..|sections| - 1]) + [HeaderLine(s.header)] + s.lines
  }

  function Rendered(patches: seq<FilePatch>): (r: seq<Section>)
    ensures |r| == |patches|
  {
    seq(|patches|, i requires 0 <= i < |patches| => RenderSection(patches[i]))
  }

  /** All git prints for a list of changes. */
  function Render(patches: seq<FilePatch>): seq<Bytes> { Printed(Rendered(patches)) }

  // ---- what it means ----

  function Shows(lines: seq<HunkLine>): seq<Bytes> {
    if lines == [] then []
    else (if lines[0].NoNewline? then [] else [HunkText(lines[0])]) + Shows(lines[1..])
  }

  /** Every hunk head and every line of text, in order. */
  function Content(hunks: seq<Hunk>): seq<Bytes> {
    if hunks == [] then [] else [HeadText(hunks[0])] + Shows(hunks[0].lines) + Content(hunks[1..])
  }

  function Inserted(lines: seq<HunkLine>): nat {
    if lines == [] then 0 else (if lines[0].Insert? then 1 else 0) + Inserted(lines[1..])
  }

  function Removed(lines: seq<HunkLine>): nat {
    if lines == [] then 0 else (if lines[0].Remove? then 1 else 0) + Removed(lines[1..])
  }

  function AllLines(hunks: seq<Hunk>): seq<HunkLine> {
    if hunks == [] then [] else hunks[0].lines + AllLines(hunks[1..])
  }

  function HunksOf(t: Text): seq<Hunk> { if t.Hunks? then t.hunks else [] }

  function Meaning(f: FilePatch): DiffFile {
    var hunks, c := HunksOf(f.text), f.change;
    DiffFile(
      c.path,
      if c.Rename? then Some(c.old_) else None,
      match c { case Edit(_) => Modified case Create(_) => Added case Delete(_) => Deleted case Rename(_, _) => Renamed },
      f.text.BinaryText?,
      Inserted(AllLines(hunks)), Removed(AllLines(hunks)),
      Carried(Content(hunks)), LosesText(Content(hunks)))
  }

  // ---- paths ----

  lemma PlainHasNone(p: Bytes, b: byte)
    requires Plain(p) && QuoteByte(b) != [b]
    ensures b !in p
  {}

  lemma SameHeader(p: Bytes)
    ensures PathPair(HeaderText(p, p)) == Some(Pair(p, p))
  {
    if Plain(p) {
      PlainHasNone(p, QUOTE);
      assert HeaderText(p, p) == Header(p, p);
      SamePathRoundTrip(p);
    } else {
      QuotedPairRoundTrip(p, p);
    }
  }

  lemma {:induction false} BeforeTabKeeps(s: Bytes)
    requires TAB !in s
    ensures BeforeTab(s) == s && BeforeTab(s + [TAB]) == s
  {
    if s == [] {
      assert BeforeTab([TAB]) == [];
    } else {
      assert (s + [TAB])[1..] == s[1..] + [TAB];
      BeforeTabKeeps(s[1..]);
    }
  }

  lemma MarkerRoundTrip(p: Bytes, prefix: Bytes, name: string)
    requires p != [] && ((prefix == A_SLASH && name == "a/") || (prefix == B_SLASH && name == "b/"))
    ensures MarkerPath(Marked(prefix, p), name) == Some(p)
  {
    var value := prefix + p;
    assert StartsWith(value, name) && value[2..] == p;
    assert value[0] != "/dev/null"[0] as int;
    var tail: Bytes := if SPACE in p then [TAB] else [];
    if Plain(p) {
      PlainHasNone(p, TAB);
      BeforeTabKeeps(value);
      assert value + [] == value;
    } else {
      QuotedRoundTrip(value, tail);
    }
  }

  lemma PathValueRoundTrip(p: Bytes)
    requires p != []
    ensures PathValue(Written([], p)) == Some(p)
  {
    assert [] + p == p;
    if Plain(p) {
      PlainHasNone(p, QUOTE);
      assert p[0] != QUOTE;
    } else {
      QuotedRoundTrip(p, []);
      assert Quoted(p) + [] == Quoted(p);
    }
  }

  // ---- one section ----

  lemma {:induction false} InertLines(n: Names, lines: seq<Bytes>)
    requires AllInert(lines)
    ensures NamesAfter(n, lines, false) == n && Patch.Content(lines, false) == [] && !HasHunk(lines)
  {
    if lines != [] {
      assert Inert(lines[0]);
      InertLines(n, lines[1..]);
    }
  }

  lemma TextKind(line: HunkLine)
    ensures KindOf(HunkText(line), true) == if line.NoNewline? then Other else Body
    ensures !IsHeader(HunkText(line)) && !IsHunkHead(HunkText(line))
  {
    assert HunkText(line)[0] in {PLUS, MINUS, SPACE, BACKSLASH};
    FirstByteKind(HunkText(line));
  }

  lemma TextName(n: Names, line: HunkLine)
    ensures Name(n, HunkText(line), true) == n
    ensures KindOf(HunkText(line), true) in {HunkHead, Body} <==> !line.NoNewline?
  {
    TextKind(line);
  }

  lemma {:induction false} HunkLines(n: Names, lines: seq<HunkLine>)
    ensures NamesAfter(n, HunkTexts(lines), true) == n
    ensures Patch.Content(HunkTexts(lines), true) == Shows(lines)
  {
    if lines != [] {
      TextName(n, lines[0]);
      HunkLines(n, lines[1..]);
      assert HunkTexts(lines)[1..] == HunkTexts(lines[1..]);
    }
  }

  lemma HeadKind(h: Hunk, inHunk: bool)
    ensures KindOf(HeadText(h), inHunk) == HunkHead && IsHunkHead(HeadText(h)) && !IsHeader(HeadText(h))
  {
    assert HeadText(h)[0] == 0x40;
    FirstByteKind(HeadText(h));
  }

  lemma {:induction false} HunksRead(n: Names, hunks: seq<Hunk>, inHunk: bool)
    ensures NamesAfter(n, RenderHunks(hunks), inHunk) == n
    ensures Patch.Content(RenderHunks(hunks), inHunk) == Content(hunks)
    decreases |hunks|
  {
    if hunks != [] {
      var head, lines, rest := HeadText(hunks[0]), HunkTexts(hunks[0].lines), RenderHunks(hunks[1..]);
      HeadKind(hunks[0], inHunk);
      assert RenderHunks(hunks) == [head] + (lines + rest);
      assert RenderHunks(hunks)[1..] == lines + rest;
      NamesAppend(n, lines, rest, true);
      ContentAppend(lines, rest, true);
      HunkLines(n, hunks[0].lines);
      HunksRead(n, hunks[1..], true);
    }
  }

  lemma {:induction false} CountAppend(a: seq<Bytes>, b: seq<Bytes>, marker: byte)
    ensures Count(a + b, marker) == Count(a, marker) + Count(b, marker)
  {
    if b == [] {
      assert a + b == a;
    } else {
      assert (a + b)[..|a + b| - 1] == a + b[..|b| - 1];
      CountAppend(a, b[..|b| - 1], marker);
    }
  }

  lemma CountOne(line: Bytes, marker: byte)
    ensures Count([line], marker) == if line != [] && line[0] == marker then 1 else 0
  {
    assert [line][..0] == [];
  }

  lemma {:induction false} CountShows(lines: seq<HunkLine>)
    ensures Count(Shows(lines), PLUS) == Inserted(lines) && Count(Shows(lines), MINUS) == Removed(lines)
  {
    if lines != [] {
      CountShows(lines[1..]);
      if !lines[0].NoNewline? {
        var text := HunkText(lines[0]);
        CountOne(text, PLUS);
        CountOne(text, MINUS);
        CountAppend([text], Shows(lines[1..]), PLUS);
        CountAppend([text], Shows(lines[1..]), MINUS);
      } else {
        assert [] + Shows(lines[1..]) == Shows(lines[1..]);
      }
    }
  }

  lemma {:induction false} InsertedAppend(a: seq<HunkLine>, b: seq<HunkLine>)
    ensures Inserted(a + b) == Inserted(a) + Inserted(b) && Removed(a + b) == Removed(a) + Removed(b)
  {
    if a == [] {
      assert a + b == b;
    } else {
      assert (a + b)[1..] == a[1..] + b;
      InsertedAppend(a[1..], b);
    }
  }

  lemma {:induction false} CountContent(hunks: seq<Hunk>)
    ensures Count(Content(hunks), PLUS) == Inserted(AllLines(hunks))
    ensures Count(Content(hunks), MINUS) == Removed(AllLines(hunks))
  {
    if hunks != [] {
      var head, lines, rest := HeadText(hunks[0]), Shows(hunks[0].lines), Content(hunks[1..]);
      CountContent(hunks[1..]);
      CountShows(hunks[0].lines);
      InsertedAppend(hunks[0].lines, AllLines(hunks[1..]));
      assert head[0] == 0x40;
      CountOne(head, PLUS);
      CountOne(head, MINUS);
      CountAppend([head] + lines, rest, PLUS);
      CountAppend([head] + lines, rest, MINUS);
      CountAppend([head], lines, PLUS);
      CountAppend([head], lines, MINUS);
    }
  }

  function Named(c: Change, n: Names): Names {
    match c
    case Edit(_) => n
    case Create(_) => n.(status := Added)
    case Delete(_) => n.(status := Deleted)
    case Rename(old_, path) => n.(status := Renamed, oldPath := Some(old_), path := path)
  }

  /** Lines before any hunk that hold no content and lead from the names n to the names m. */
  predicate Leads(n: Names, lines: seq<Bytes>, m: Names) {
    NamesAfter(n, lines, false) == m && Patch.Content(lines, false) == [] && !HasHunk(lines)
  }

  lemma LeadsThrough(n: Names, a: seq<Bytes>, m: Names, b: seq<Bytes>, k: Names)
    requires Leads(n, a, m) && Leads(m, b, k)
    ensures Leads(n, a + b, k)
  {
    HasHunkAppend(a, b);
    ContentAppend(a, b, false);
    NamesAppend(n, a, b, false);
  }

  /** A line before any hunk that is no content. */
  lemma LeadsOne(n: Names, line: Bytes)
    requires KindOf(line, false) !in {HunkHead, Body} && !IsHunkHead(line)
    ensures Leads(n, [line], Name(n, line, false))
  {
    assert NamesAfter(n, [line], false) == NamesAfter(Name(n, line, false), [], false);
    assert Patch.Content([line], false) == [] + Patch.Content([], false);
    assert [line][1..] == [];
  }

  lemma LeadsTwo(n: Names, a: Bytes, b: Bytes)
    requires Leads(n, [a], n) && Leads(n, [b], n)
    ensures Leads(n, [a, b], n)
  {
    LeadsThrough(n, [a], n, [b], n);
    assert [a] + [b] == [a, b];
  }

  lemma TextStarts(s: string, rest: Bytes)
    requires forall i :: 0 <= i < |s| ==> (s[i] as int) < 128
    ensures StartsWith(Patch.Text(s) + rest, s) && (Patch.Text(s) + rest)[|s|..] == rest
  {}

  lemma StatusLead(c: Change, n: Names)
    requires c.Valid()
    ensures Leads(n, StatusLines(c), Named(c, n))
  {
    match c
    case Edit(_) =>
    case Create(_) =>
      CreateLead(Patch.Text(" mode 100644"), n);
    case Delete(_) =>
      DeleteLead(Patch.Text(" mode 100644"), n);
    case Rename(old_, path) =>
      RenameLead(old_, path, n);
  }

  lemma CreateLead(rest: Bytes, n: Names)
    ensures Leads(n, [Patch.Text("new file") + rest], n.(status := Added))
  {
    var line := Patch.Text("new file") + rest;
    TextStarts("new file", rest);
    assert line[0] == 0x6E;
    FirstByteKind(line);
    LeadsOne(n, line);
  }

  lemma DeleteLead(rest: Bytes, n: Names)
    ensures Leads(n, [Patch.Text("deleted file") + rest], n.(status := Deleted))
  {
    var line := Patch.Text("deleted file") + rest;
    TextStarts("deleted file", rest);
    assert line[0] == 0x64;
    FirstByteKind(line);
    LeadsOne(n, line);
  }

  lemma RenameFromLead(value: Bytes, old_: Bytes, n: Names)
    requires PathValue(value) == Some(old_)
    ensures Leads(n, [Patch.Text("rename from ") + value], n.(status := Renamed, oldPath := Some(old_)))
  {
    var line := Patch.Text("rename from ") + value;
    TextStarts("rename from ", value);
    assert line[0] == 0x72;
    FirstByteKind(line);
    LeadsOne(n, line);
  }

  lemma NotRenameFrom(line: Bytes)
    requires |line| > 7 && line[7] == 0x74
    ensures !StartsWith(line, "rename from ")
  {
    assert line[7] != "rename from "[7] as int;
  }

  lemma RenameToLead(value: Bytes, path: Bytes, n: Names)
    requires PathValue(value) == Some(path)
    ensures Leads(n, [Patch.Text("rename to ") + value], n.(status := Renamed, path := path))
  {
    var line := Patch.Text("rename to ") + value;
    TextStarts("rename to ", value);
    assert line[0] == 0x72 && line[7] == 0x74;
    FirstByteKind(line);
    NotRenameFrom(line);
    LeadsOne(n, line);
  }

  lemma RenameLead(old_: Bytes, path: Bytes, n: Names)
    requires old_ != [] && path != []
    ensures Leads(n, StatusLines(Rename(old_, path)), n.(status := Renamed, oldPath := Some(old_), path := path))
  {
    var from, to := Patch.Text("rename from ") + Written([], old_), Patch.Text("rename to ") + Written([], path);
    var m := n.(status := Renamed, oldPath := Some(old_));
    PathValueRoundTrip(old_);
    PathValueRoundTrip(path);
    RenameFromLead(Written([], old_), old_, n);
    RenameToLead(Written([], path), path, m);
    LeadsThrough(n, [from], m, [to], m.(path := path));
  }

  /** The names a change ends with, before the text of its section is read. */
  predicate Settled(c: Change, n: Names) {
    n.path == c.path && n.oldPath == if c.Rename? then Some(c.old_) else None
  }

  lemma OldMarkerLead(value: Bytes, p: Bytes, n: Names)
    requires MarkerPath(value, "a/") == Some(p) && (p == [] || p == n.path || Some(p) == n.oldPath)
    ensures Leads(n, [Patch.Text("--- ") + value], n)
  {
    var line := Patch.Text("--- ") + value;
    TextStarts("--- ", value);
    assert line[0] == MINUS;
    FirstByteKind(line);
    LeadsOne(n, line);
  }

  lemma NewMarkerLead(value: Bytes, p: Bytes, n: Names)
    requires MarkerPath(value, "b/") == Some(p) && Retarget(n, p) == n
    ensures Leads(n, [Patch.Text("+++ ") + value], n)
  {
    var line := Patch.Text("+++ ") + value;
    TextStarts("+++ ", value);
    assert line[0] == PLUS;
    FirstByteKind(line);
    LeadsOne(n, line);
  }

  lemma DevNull(prefix: string)
    ensures MarkerPath(Patch.Text("/dev/null"), prefix) == Some([])
  {
    BeforeTabKeeps(Patch.Text("/dev/null"));
  }

  lemma MarkersRead(c: Change)
    requires c.Valid()
    ensures MarkerPath(OldText(c), "a/") == Some(if c.Create? then [] else c.From())
    ensures MarkerPath(NewText(c), "b/") == Some(if c.Delete? then [] else c.path)
  {
    if c.Create? { DevNull("a/"); } else { MarkerRoundTrip(c.From(), A_SLASH, "a/"); }
    if c.Delete? { DevNull("b/"); } else { MarkerRoundTrip(c.path, B_SLASH, "b/"); }
  }

  lemma OldLead(c: Change, n: Names)
    requires c.Valid() && Settled(c, n)
    ensures Leads(n, [Patch.Text("--- ") + OldText(c)], n)
  {
    MarkersRead(c);
    OldMarkerLead(OldText(c), if c.Create? then [] else c.From(), n);
  }

  lemma NewLead(c: Change, n: Names)
    requires c.Valid() && Settled(c, n)
    ensures Leads(n, [Patch.Text("+++ ") + NewText(c)], n)
  {
    MarkersRead(c);
    NewMarkerLead(NewText(c), if c.Delete? then [] else c.path, n);
  }

  lemma MarkersLead(c: Change, n: Names)
    requires c.Valid() && Settled(c, n)
    ensures Leads(n, Markers(c), n)
  {
    OldLead(c, n);
    NewLead(c, n);
    LeadsTwo(n, Markers(c)[0], Markers(c)[1]);
  }

  lemma BeginSettles(c: Change)
    requires c.Valid()
    ensures var n := Named(c, Begin(HeaderText(c.From(), c.path)));
      var m := Meaning(FilePatch(c, [], [], Nothing));
      Settled(c, n) && n == Names(c.path, m.oldPath, m.status, false)
  {
    if !c.Rename? {
      SameHeader(c.path);
    }
  }

  /** All a section has before its text. */
  lemma FrontLead(f: FilePatch)
    requires f.Valid()
    ensures var n := Begin(HeaderText(f.change.From(), f.change.path));
      Leads(n, f.before + StatusLines(f.change) + f.after, Named(f.change, n))
  {
    var n := Begin(HeaderText(f.change.From(), f.change.path));
    var m := Named(f.change, n);
    InertLines(n, f.before);
    StatusLead(f.change, n);
    InertLines(m, f.after);
    LeadsThrough(n, f.before, n, StatusLines(f.change), m);
    LeadsThrough(n, f.before + StatusLines(f.change), m, f.after, m);
  }

  lemma BodyReads(f: FilePatch, n: Names)
    requires f.Valid() && Settled(f.change, n)
    ensures NamesAfter(n, BodyLines(f), false) == if f.text.BinaryText? then n.(binary := true) else n
    ensures Patch.Content(BodyLines(f), false) == Content(HunksOf(f.text))
  {
    match f.text
    case Nothing =>
    case BinaryText(text) =>
      TextStarts("Binary files", text);
      var line := Patch.Text("Binary files") + text;
      assert line[0] == 0x42;
      FirstByteKind(line);
      LeadsOne(n, line);
    case Hunks(hunks) =>
      var markers := Markers(f.change);
      MarkersLead(f.change, n);
      NamesAppend(n, markers, RenderHunks(hunks), false);
      ContentAppend(markers, RenderHunks(hunks), false);
      HunksRead(n, hunks, false);
  }

  lemma SectionReads(f: FilePatch)
    requires f.Valid()
    ensures var s, m := RenderSection(f), Meaning(f);
      && NamesAfter(Begin(s.header), s.lines, false) == NamesOf(m)
      && Patch.Content(s.lines, false) == Content(HunksOf(f.text))
  {
    var n := Begin(HeaderText(f.change.From(), f.change.path));
    var m := Named(f.change, n);
    var front := f.before + StatusLines(f.change) + f.after;
    BeginSettles(f.change);
    FrontLead(f);
    BodyReads(f, m);
    NamesAppend(n, front, BodyLines(f), false);
    ContentAppend(front, BodyLines(f), false);
    assert [] + Content(HunksOf(f.text)) == Content(HunksOf(f.text));
  }

  lemma SectionMeaning(f: FilePatch)
    requires f.Valid()
    ensures FileOf(RenderSection(f)) == Meaning(f)
  {
    SectionReads(f);
    CountContent(HunksOf(f.text));
  }

  // ---- the whole text ----

  predicate NoHeader(lines: seq<Bytes>) { forall i :: 0 <= i < |lines| ==> !IsHeader(lines[i]) }

  lemma {:induction false} HunkTextsNoHeader(lines: seq<HunkLine>)
    ensures NoHeader(HunkTexts(lines))
  {
    if lines != [] {
      TextKind(lines[0]);
      HunkTextsNoHeader(lines[1..]);
    }
  }

  lemma {:induction false} HunksNoHeader(hunks: seq<Hunk>)
    ensures NoHeader(RenderHunks(hunks))
  {
    if hunks != [] {
      HeadKind(hunks[0], false);
      HunkTextsNoHeader(hunks[0].lines);
      HunksNoHeader(hunks[1..]);
    }
  }

  lemma StatusNoHeader(c: Change)
    ensures NoHeader(StatusLines(c))
  {
    match c
    case Edit(_) =>
    case Create(_) =>
      FirstByteKind(StatusLines(c)[0]);
    case Delete(_) =>
      assert StatusLines(c)[0][1] != "diff --git "[1] as int;
    case Rename(_, _) =>
      FirstByteKind(StatusLines(c)[0]);
      FirstByteKind(StatusLines(c)[1]);
  }

  lemma BodyNoHeader(f: FilePatch)
    ensures NoHeader(BodyLines(f))
  {
    match f.text
    case Nothing =>
    case BinaryText(text) =>
      FirstByteKind(Patch.Text("Binary files") + text);
    case Hunks(hunks) =>
      FirstByteKind(Markers(f.change)[0]);
      FirstByteKind(Markers(f.change)[1]);
      HunksNoHeader(hunks);
  }

  lemma SectionNoHeader(f: FilePatch)
    requires f.Valid()
    ensures NoHeader(RenderSection(f).lines)
  {
    StatusNoHeader(f.change);
    BodyNoHeader(f);
    assert NoHeader(f.before) && NoHeader(f.after) by {
      assert forall i :: 0 <= i < |f.before| ==> Inert(f.before[i]);
      assert forall i :: 0 <= i < |f.after| ==> Inert(f.after[i]);
    }
  }

  lemma SectionsHeader(lines: seq<Bytes>, header: Bytes)
    ensures Sections(lines + [HeaderLine(header)]) == Sections(lines) + [Section(header, [])]
  {
    TextStarts("diff --git ", header);
    SectionsSnoc(lines, HeaderLine(header));
  }

  lemma {:induction false} SectionsAppend(lines: seq<Bytes>, header: Bytes, body: seq<Bytes>)
    requires NoHeader(body)
    ensures Sections(lines + [HeaderLine(header)] + body) == Sections(lines) + [Section(header, body)]
    decreases |body|
  {
    var line := HeaderLine(header);
    if body == [] {
      SectionsHeader(lines, header);
      assert lines + [line] + body == lines + [line];
    } else {
      var n := |body| - 1;
      SectionsAppend(lines, header, body[..n]);
      SectionsSnoc(lines + [line] + body[..n], body[n]);
      assert lines + [line] + body == lines + [line] + body[..n] + [body[n]];
      assert body == body[..n] + [body[n]];
    }
  }

  lemma {:induction false} SectionsOfPrinted(sections: seq<Section>)
    requires forall i :: 0 <= i < |sections| ==> NoHeader(sections[i].lines)
    ensures Sections(Printed(sections)) == sections
  {
    if sections != [] {
      var n := |sections| - 1;
      SectionsOfPrinted(sections[..n]);
      SectionsAppend(Printed(sections[..n]), sections[n].header, sections[n].lines);
    }
  }

  lemma EmptyLineKind(n: Names, inHunk: bool)
    ensures KindOf([], inHunk) == Other && Name(n, [], inHunk) == n
  {}

  lemma SameReading(s: Section, t: Section)
    requires NamesAfter(Begin(s.header), s.lines, false) == NamesAfter(Begin(t.header), t.lines, false)
    requires Patch.Content(s.lines, false) == Patch.Content(t.lines, false)
    ensures FileOf(s) == FileOf(t)
  {}

  lemma TrailingEmpty(s: Section)
    ensures FileOf(Section(s.header, s.lines + [[]])) == FileOf(s)
  {
    SectionSnoc(s, []);
    EmptyLineKind(NamesAfter(Begin(s.header), s.lines, false), HasHunk(s.lines));
    assert Patch.Content(s.lines, false) + [] == Patch.Content(s.lines, false);
    SameReading(Section(s.header, s.lines + [[]]), s);
  }

  lemma FilesOfUpdate(sections: seq<Section>, n: nat, s: Section)
    requires n < |sections| && FileOf(s) == FileOf(sections[n])
    ensures Files(sections[n := s]) == Files(sections)
  {}

  /** The empty line a final newline leaves changes nothing. */
  lemma LastNewline(lines: seq<Bytes>)
    ensures Files(Sections(lines + [[]])) == Files(Sections(lines))
  {
    var sections := Sections(lines);
    SectionsSnoc(lines, []);
    if sections != [] {
      var n := |sections| - 1;
      var longer := Section(sections[n].header, sections[n].lines + [[]]);
      TrailingEmpty(sections[n]);
      FilesOfUpdate(sections, n, longer);
      assert sections[n := longer] == sections[..n] + [longer];
    }
  }

  /** Splitting what git prints for any list of changes gives every change back: its paths, whatever
      bytes are in them and however ambiguous the header is, its status, and the true number of lines
      inserted and removed, even where a line's own text looks like a header or a file marker. */
  lemma SplitRender(patches: seq<FilePatch>)
    requires forall i :: 0 <= i < |patches| ==> patches[i].Valid()
    ensures var files := Files(Sections(Render(patches) + [[]]));
      |files| == |patches| && forall i :: 0 <= i < |patches| ==> files[i] == Meaning(patches[i])
  {
    LastNewline(Render(patches));
    forall i | 0 <= i < |patches| ensures NoHeader(Rendered(patches)[i].lines) {
      SectionNoHeader(patches[i]);
    }
    SectionsOfPrinted(Rendered(patches));
    forall i | 0 <= i < |patches| ensures Files(Rendered(patches))[i] == Meaning(patches[i]) {
      SectionMeaning(patches[i]);
    }
  }
}
