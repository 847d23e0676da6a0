/** Each primitive keeps the invariant. */
module TransferSteps {
  import opened Prelude
  import opened TransferNames
  import opened TransferDisk
  import opened TransferSpec

  // Each filesystem primitive is a function of the disk; it touches unreserved names only as StepSafe allows.

  // ---- the primitives, as functions of the disk ----

  function SetName(d: Disk, p: Path, node: Node): Disk { d.(names := d.names[p := node]) }
  function DropName(d: Disk, p: Path): Disk { d.(names := d.names - {p}) }

  /** The in-progress journal file: created, truncated, or holding a record. */
  lemma NextWritten(a: Disk, g: History, h: Hash, k: Key, node: Node)
    requires Inv(a, g, h) && IsKey(k) && (node.Torn? || node.Record?)
    ensures Inv(SetName(a, NextFile(k), node), g, h)
    ensures forall j, acc :: Consistent(a, g, h, k, j, acc) ==> Consistent(SetName(a, NextFile(k), node), g, h, k, j, acc)
    ensures SameJournals(a, SetName(a, NextFile(k), node))
    ensures NodeAt(SetName(a, NextFile(k), node), JournalFile(k)) == NodeAt(a, JournalFile(k))
    ensures StepSafe(h, Step(a, SetName(a, NextFile(k), node), Plain))
  {
    var b := SetName(a, NextFile(k), node);
    ProtocolNamesReserved(k, []);
    forall x | IsKey(x) ensures SameFor(a, b, x) && KeyInv(b, g, h, x) && RecordOf(b, x) == RecordOf(a, x) {
      NextIsNoOther(k, x);
      OtherName(a, b, NextFile(k), x);
      KeyFrame(a, b, g, g, h, x);
    }
    forall j, acc | Consistent(a, g, h, k, j, acc) ensures Consistent(b, g, h, k, j, acc) {
      ConsistentFrame(a, b, g, g, h, k, j, acc);
    }
  }

  /** A change confined to a name that is none of x's, and that brings no new name for a file, leaves x alone. */
  lemma OtherName(a: Disk, b: Disk, p: Path, x: Key)
    requires IsKey(x)
    requires a.data == b.data
    requires forall q :: q != p ==> NodeAt(a, q) == NodeAt(b, q)
    requires p in b.names && b.names[p].File? ==> forall dir :: Alone(a, StageIn(x, dir)) ==> a.names[StageIn(x, dir)] != b.names[p]
    requires p != JournalFile(x) && forall dir :: p != StageIn(x, dir)
    ensures SameFor(a, b, x)
  {
    forall dir ensures SameAt(a, b, StageIn(x, dir)) && (Alone(a, StageIn(x, dir)) ==> Alone(b, StageIn(x, dir))) {
      var sp := StageIn(x, dir);
      assert NodeAt(a, sp) == NodeAt(b, sp);
      if Alone(a, sp) {
        forall q | q in b.names && b.names[q] == b.names[sp] ensures q == sp {
          assert NodeAt(a, q) == NodeAt(b, q) || q == p;
        }
      }
    }
    assert NodeAt(a, JournalFile(x)) == NodeAt(b, JournalFile(x));
  }

  lemma NextIsNoOther(k: Key, x: Key)
    requires IsKey(k) && IsKey(x)
    ensures NextFile(k) != JournalFile(x) && forall dir :: NextFile(k) != StageIn(x, dir)
  {
    UploadsNeverShareNames(x, k, [], []);
    forall dir ensures NextFile(k) != StageIn(x, dir) { UploadsNeverShareNames(x, k, dir, []); }
  }

  function Saved(d: Disk, k: Key, j: Journal): Disk {
    DropName(SetName(d, JournalFile(k), Record(j)), NextFile(k))
  }

  /** Renaming the finished record over the journal: the journal on disk becomes j. */
  lemma SaveKeeps(a: Disk, g: History, h: Hash, k: Key, j: Journal, acc: seq<byte>)
    requires Inv(a, g, h) && IsKey(k)
    requires NodeAt(a, NextFile(k)) == Some(Record(j))
    requires Consistent(a, g, h, k, j, acc)
    requires RecordOf(a, k).Some? ==> RecordOf(a, k).value.path == j.path
    requires k in g.acked ==> AckHolds(g.acked[k], j)
    ensures Inv(Saved(a, k, j), g.(accepted := g.accepted[k := acc]), h)
    ensures RecordOf(Saved(a, k, j), k) == Some(j)
    ensures StepSafe(h, Step(a, Saved(a, k, j), Plain))
    ensures Consistent(Saved(a, k, j), g.(accepted := g.accepted[k := acc]), h, k, j, acc)
  {
    var b := Saved(a, k, j);
    var g' := g.(accepted := g.accepted[k := acc]);
    ProtocolNamesReserved(k, []);
    UploadsNeverShareNames(k, k, [], []);
    forall x | IsKey(x) && x != k ensures KeyInv(b, g', h, x) {
      SaveSame(a, k, j, x);
      KeyFrame(a, b, g, g', h, x);
    }
    StagesSurviveSave(a, k, j);
    ConsistentStages(a, b, g, g', h, k, j, acc);
    assert KeyInv(a, g, h, k);
    forall dir | StageIn(k, dir) in b.names ensures dir == Parent(j.path) {
      assert SameAt(a, b, StageIn(k, dir));
      assert NodeAt(a, StageIn(k, dir)) == NodeAt(b, StageIn(k, dir));
    }
    assert JournalFile(k) in b.names && RecordOf(b, k) == Some(j);
    assert KeyInv(b, g', h, k);
    assert WellFormed(b);
  }

  lemma SaveSame(a: Disk, k: Key, j: Journal, x: Key)
    requires IsKey(k) && IsKey(x) && x != k
    ensures SameFor(a, Saved(a, k, j), x)
  {
    var mid := SetName(a, JournalFile(k), Record(j));
    NextIsNoOther(k, x);
    forall dir ensures JournalFile(k) != StageIn(x, dir) { UploadsNeverShareNames(x, k, dir, []); }
    UploadsNeverShareNames(x, k, [], []);
    OtherName(a, mid, JournalFile(k), x);
    OtherName(mid, Saved(a, k, j), NextFile(k), x);
  }

  lemma SaveIsOwn(a: Disk, k: Key, j: Journal)
    requires IsKey(k)
    ensures SameBut(k, a, Saved(a, k, j))
  {
    forall x | IsKey(x) && x != k ensures RecordOf(Saved(a, k, j), x) == RecordOf(a, x) {
      SaveSame(a, k, j, x);
      assert NodeAt(a, JournalFile(x)) == NodeAt(Saved(a, k, j), JournalFile(x));
    }
  }

  /** What is done to the in-progress name, a staging name or a name outside the protocol changes no journal. */
  lemma NoJournal(k: Key, dir: Path)
    requires IsKey(k)
    ensures forall x :: IsKey(x) ==> StageIn(k, dir) != JournalFile(x) && NextFile(k) != JournalFile(x)
    ensures forall x, p :: IsKey(x) && !Reserved(p) ==> p != JournalFile(x)
  {
    forall x | IsKey(x) ensures StageIn(k, dir) != JournalFile(x) && NextFile(k) != JournalFile(x) && Reserved(JournalFile(x)) {
      UploadsNeverShareNames(k, x, dir, []);
      NextIsNoOther(k, x);
      ProtocolNamesReserved(x, []);
    }
  }

  lemma StagesSurviveSave(a: Disk, k: Key, j: Journal)
    requires IsKey(k)
    ensures forall dir :: SameAt(a, Saved(a, k, j), StageIn(k, dir))
    ensures forall dir :: Alone(a, StageIn(k, dir)) ==> Alone(Saved(a, k, j), StageIn(k, dir))
  {
    forall dir
      ensures SameAt(a, Saved(a, k, j), StageIn(k, dir)) && (Alone(a, StageIn(k, dir)) ==> Alone(Saved(a, k, j), StageIn(k, dir)))
    {
      UploadsNeverShareNames(k, k, dir, dir);
    }
  }

  /** Consistent mentions only k's staging names, not the journal on disk. */
  lemma ConsistentStages(a: Disk, b: Disk, g: History, g': History, h: Hash, k: Key, j: Journal, acc: seq<byte>)
    requires Consistent(a, g, h, k, j, acc)
    requires forall dir :: SameAt(a, b, StageIn(k, dir))
    requires forall dir :: Alone(a, StageIn(k, dir)) ==> Alone(b, StageIn(k, dir))
    requires k in g.published <==> k in g'.published
    requires k in g.abandoned <==> k in g'.abandoned
    requires forall p :: p in g.proven ==> p in g'.proven
    ensures Consistent(b, g', h, k, j, acc)
  {
    assert SameAt(a, b, StageIn(k, Parent(j.path)));
    assert NodeAt(a, StageOf(j)) == NodeAt(b, StageOf(j));
  }

  lemma StageIsNoOther(k: Key, dir: Path, x: Key)
    requires IsKey(k) && IsKey(x) && x != k
    ensures StageIn(k, dir) != JournalFile(x) && forall d :: StageIn(k, dir) != StageIn(x, d)
  {
    UploadsNeverShareNames(k, x, dir, []);
    forall d ensures StageIn(k, dir) != StageIn(x, d) { UploadsNeverShareNames(k, x, dir, d); }
  }

  /** Opening the staging file when there is none: an empty file on a fresh inode. */
  function Created(d: Disk, p: Path): Disk {
    Disk(d.names[p := File(d.next)], d.data[d.next := []], d.next + 1)
  }

  lemma CreateKeeps(a: Disk, g: History, h: Hash, k: Key, j: Journal, acc: seq<byte>)
    requires Inv(a, g, h) && IsKey(k) && RecordOf(a, k).Some? && RecordOf(a, k).value.path == j.path
    requires Consistent(a, g, h, k, j, acc)
    requires StageOf(j) !in a.names && (k in g.published ==> j.offset == 0)
    requires j.offset == RecordOf(a, k).value.offset
    ensures Inv(Created(a, StageOf(j)), g, h)
    ensures SameJournals(a, Created(a, StageOf(j)))
    ensures Consistent(Created(a, StageOf(j)), g, h, k, j, acc)
    ensures FileAt(Created(a, StageOf(j)), StageOf(j)) == Some([])
    ensures StepSafe(h, Step(a, Created(a, StageOf(j)), Plain))
  {
    var sp := StageOf(j);
    var b := Created(a, sp);
    var dir := Parent(j.path);
    ProtocolNamesReserved(k, dir);
    assert WellFormed(b);
    forall x | IsKey(x) && x != k ensures KeyInv(b, g, h, x) {
      StageIsNoOther(k, dir, x);
      CreatedSame(a, sp, x);
      KeyFrame(a, b, g, g, h, x);
    }
    UploadsNeverShareNames(k, k, dir, dir);
    assert KeyInv(a, g, h, k);
    NoJournal(k, dir);
    assert RecordOf(b, k) == RecordOf(a, k);
    assert Alone(b, sp);
    forall d | StageIn(k, d) in b.names ensures d == dir {
      UploadsNeverShareNames(k, k, d, dir);
    }
    assert KeyInv(b, g, h, k);
  }

  lemma CreatedSame(a: Disk, sp: Path, x: Key)
    requires WellFormed(a) && sp !in a.names
    requires sp != JournalFile(x) && forall d :: sp != StageIn(x, d)
    ensures SameFor(a, Created(a, sp), x)
  {
    var b := Created(a, sp);
    forall d ensures SameAt(a, b, StageIn(x, d)) && (Alone(a, StageIn(x, d)) ==> Alone(b, StageIn(x, d))) {
      assert NodeAt(a, StageIn(x, d)) == NodeAt(b, StageIn(x, d));
      assert StageIn(x, d) in a.names && a.names[StageIn(x, d)].File? ==> a.names[StageIn(x, d)].ino != a.next;
    }
  }

  /** The bytes of a file after data was written at offset: a hole, if any, reads as zeros. */
  function Overlay(c: seq<byte>, offset: nat, data: seq<byte>): (r: seq<byte>)
    ensures |r| == Max(|c|, if data == [] then 0 else offset + |data|)
    ensures Min(offset, |c|) <= |r| && r[..Min(offset, |c|)] == c[..Min(offset, |c|)]
    ensures data != [] ==> r[offset..offset + |data|] == data
  {
    if data == [] then c
    else
      var padded := if |c| < offset then c + seq(offset - |c|, _ => 0) else c;
      padded[..offset] + data + (if offset + |data| < |padded| then padded[offset + |data|..] else [])
  }

  function Written(d: Disk, p: Path, offset: nat, data: seq<byte>): Disk
    requires FileAt(d, p).Some?
  {
    d.(data := d.data[d.names[p].ino := Overlay(FileAt(d, p).value, offset, data)])
  }

  /** Writing (any prefix of) a chunk at the journal's offset. */
  lemma WriteKeeps(a: Disk, g: History, h: Hash, k: Key, data: seq<byte>)
    requires Inv(a, g, h) && IsKey(k) && RecordOf(a, k).Some?
    requires |RecordOf(a, k).value.path| > 0 && RecordOf(a, k).value.key == k
    requires FileAt(a, StageOf(RecordOf(a, k).value)).Some?
    requires RecordOf(a, k).value.offset >= 0
    requires data != [] ==> RecordOf(a, k).value.offset + |data| <= RecordOf(a, k).value.size
    ensures var j := RecordOf(a, k).value;
      var b := Written(a, StageOf(j), j.offset, data);
      && Inv(b, g, h) && RecordOf(b, k) == Some(j)
      && b.names == a.names
      && FileAt(b, StageOf(j)) == Some(Overlay(FileAt(a, StageOf(j)).value, j.offset, data))
      && StepSafe(h, Step(a, b, Plain))
  {
    var j := RecordOf(a, k).value;
    var sp := StageOf(j);
    var b := Written(a, sp, j.offset, data);
    var i := a.names[sp].ino;
    assert KeyInv(a, g, h, k);
    if data == [] {
      assert a.data[i := a.data[i]] == a.data;
      assert b == a;
    } else {
      assert k !in g.published && Alone(a, sp);
      ProtocolNamesReserved(k, Parent(j.path));
      forall p | p != sp ensures SameAt(a, b, p) {}
      forall x | IsKey(x) && x != k ensures KeyInv(b, g, h, x) {
        StageIsNoOther(k, Parent(j.path), x);
        forall dir ensures Alone(a, StageIn(x, dir)) ==> Alone(b, StageIn(x, dir)) {}
        KeyFrame(a, b, g, g, h, x);
      }
      if k !in g.abandoned {
        assert g.accepted[k] <= FileAt(a, sp).value;
      }
      assert StageFits(b, g, k, j, g.accepted[k]);
      assert KeyInv(b, g, h, k);
    }
  }

  /** Removing the staging file. Unless the upload was published, its content is now given up. */
  function StageDropped(g: History, k: Key): History {
    if k in g.published then g else g.(abandoned := g.abandoned + {k})
  }

  lemma RemoveStageKeeps(a: Disk, g: History, h: Hash, k: Key, j: Journal, acc: seq<byte>)
    requires Inv(a, g, h) && IsKey(k) && RecordOf(a, k).Some? && RecordOf(a, k).value.path == j.path
    requires Consistent(a, g, h, k, j, acc)
    requires StageOf(j) in a.names
    ensures Inv(DropName(a, StageOf(j)), StageDropped(g, k), h)
    ensures RecordOf(DropName(a, StageOf(j)), k) == RecordOf(a, k)
    ensures StepSafe(h, Step(a, DropName(a, StageOf(j)), Plain))
    ensures Consistent(DropName(a, StageOf(j)), StageDropped(g, k), h, k, j, acc)
  {
    var sp := StageOf(j);
    var b := DropName(a, sp);
    var g' := StageDropped(g, k);
    var dir := Parent(j.path);
    ProtocolNamesReserved(k, dir);
    forall x | IsKey(x) && x != k ensures KeyInv(b, g', h, x) {
      StageIsNoOther(k, dir, x);
      OtherName(a, b, sp, x);
      KeyFrame(a, b, g, g', h, x);
    }
    UploadsNeverShareNames(k, k, dir, dir);
    assert KeyInv(a, g, h, k);
    assert KeyInv(b, g', h, k);
    assert WellFormed(b);
  }

  function Forgotten(g: History, k: Key): History {
    g.(published := g.published - {k}, abandoned := g.abandoned - {k}, accepted := g.accepted - {k}, acked := g.acked - {k})
  }

  /** Removing the journal, once the staging file is gone, ends the upload. */
  lemma RemoveJournalKeeps(a: Disk, g: History, h: Hash, k: Key)
    requires Inv(a, g, h) && IsKey(k) && RecordOf(a, k).Some?
    requires |RecordOf(a, k).value.path| > 0 && RecordOf(a, k).value.key == k
    requires StageOf(RecordOf(a, k).value) !in a.names
    ensures Inv(DropName(a, JournalFile(k)), Forgotten(g, k), h)
    ensures StepSafe(h, Step(a, DropName(a, JournalFile(k)), Plain))
  {
    var b := DropName(a, JournalFile(k));
    var g' := Forgotten(g, k);
    ProtocolNamesReserved(k, []);
    forall x | IsKey(x) && x != k ensures KeyInv(b, g', h, x) {
      UploadsNeverShareNames(x, k, [], []);
      forall dir ensures JournalFile(k) != StageIn(x, dir) { UploadsNeverShareNames(x, k, dir, []); }
      OtherName(a, b, JournalFile(k), x);
      KeyFrame(a, b, g, g', h, x);
    }
    assert KeyInv(a, g, h, k);
    assert KeyInv(b, g', h, k);
    assert WellFormed(b);
  }

  /** A hard link at p to the file named sp; and a rename, which on two names of one file does nothing. */
  function Linked(d: Disk, sp: Path, p: Path): Disk
    requires sp in d.names
  {
    SetName(d, p, d.names[sp])
  }

  function Renamed(d: Disk, sp: Path, p: Path): Disk
    requires sp in d.names
  {
    if NodeAt(d, p) == Some(d.names[sp]) then d else DropName(Linked(d, sp, p), sp)
  }

  function Publicized(g: History, k: Key, j: Journal): History {
    g.(published := g.published + {k}, proven := g.proven + {PublicationOf(k, j)})
  }

  lemma PublishKeeps(a: Disk, g: History, h: Hash, k: Key, j: Journal, replace: bool)
    requires Inv(a, g, h) && IsKey(k) && RecordOf(a, k) == Some(j)
    requires k in g.accepted && Consistent(a, g, h, k, j, g.accepted[k])
    requires j.committing && !Reserved(j.path)
    requires StageOf(j) in a.names && |FileAt(a, StageOf(j)).value| == j.size && ChunkHashes(h, FileAt(a, StageOf(j)).value) == j.hashes
    requires !replace ==> NodeAt(a, j.path) == None
    ensures var b := if replace then Renamed(a, StageOf(j), j.path) else Linked(a, StageOf(j), j.path);
      && Inv(b, Publicized(g, k, j), h) && RecordOf(b, k) == Some(j)
      && StepSafe(h, Step(a, b, Publish(k, replace, g.accepted[k])))
      && Consistent(b, Publicized(g, k, j), h, k, j, g.accepted[k])
  {
    var b := if replace then Renamed(a, StageOf(j), j.path) else Linked(a, StageOf(j), j.path);
    var g' := Publicized(g, k, j);
    PublishedAt(a, b, h, k, j, replace, g.accepted[k]);
    PublishOwn(a, b, g, h, k, j, replace);
    forall x | IsKey(x) && x != k ensures KeyInv(b, g', h, x) {
      PublishSame(a, b, g, h, k, j, replace, x);
      KeyFrame(a, b, g, g', h, x);
    }
    assert WellFormed(b);
  }

  lemma PublishIsNoJournal(a: Disk, k: Key, j: Journal, replace: bool)
    requires IsKey(k) && j.key == k && |j.path| > 0 && !Reserved(j.path) && StageOf(j) in a.names
    ensures SameJournals(a, if replace then Renamed(a, StageOf(j), j.path) else Linked(a, StageOf(j), j.path))
  {
    NoJournal(k, Parent(j.path));
    ProtocolNamesReserved(k, []);
    UploadsNeverShareNames(k, k, Parent(j.path), []);
  }

  lemma PublishOwn(a: Disk, b: Disk, g: History, h: Hash, k: Key, j: Journal, replace: bool)
    requires Inv(a, g, h) && IsKey(k) && RecordOf(a, k) == Some(j) && k in g.accepted
    requires Consistent(a, g, h, k, j, g.accepted[k])
    requires j.committing && !Reserved(j.path) && StageOf(j) in a.names
    requires b == if replace then Renamed(a, StageOf(j), j.path) else Linked(a, StageOf(j), j.path)
    ensures RecordOf(b, k) == Some(j)
    ensures Consistent(b, Publicized(g, k, j), h, k, j, g.accepted[k])
    ensures KeyInv(b, Publicized(g, k, j), h, k)
  {
    var sp := StageOf(j);
    var dir := Parent(j.path);
    ProtocolNamesReserved(k, dir);
    UploadsNeverShareNames(k, k, dir, dir);
    assert KeyInv(a, g, h, k);
    forall d | StageIn(k, d) in b.names ensures d == dir {
      ProtocolNamesReserved(k, d);
      assert StageIn(k, d) in a.names;
    }
    assert sp in b.names ==> FileAt(b, sp) == FileAt(a, sp);
  }

  lemma PublishedAt(a: Disk, b: Disk, h: Hash, k: Key, j: Journal, replace: bool, acc: seq<byte>)
    requires WellFormed(a) && IsKey(k) && RecordOf(a, k) == Some(j) && JournalOk(k, j)
    requires j.committing && !Reserved(j.path)
    requires |acc| == j.size && ChunkHashes(h, acc) == j.hashes
    requires StageOf(j) in a.names && FileAt(a, StageOf(j)).Some?
    requires |FileAt(a, StageOf(j)).value| == j.size && ChunkHashes(h, FileAt(a, StageOf(j)).value) == j.hashes
    requires !replace ==> NodeAt(a, j.path) == None
    requires b == if replace then Renamed(a, StageOf(j), j.path) else Linked(a, StageOf(j), j.path)
    ensures StepSafe(h, Step(a, b, Publish(k, replace, acc)))
    ensures Holds(h, b, PublicationOf(k, j))
  {
    ProtocolNamesReserved(k, Parent(j.path));
    assert FileAt(b, j.path) == FileAt(a, StageOf(j));
    assert Reads(b, j.path, HOPS) == FileAt(b, j.path);
  }

  lemma PublishSame(a: Disk, b: Disk, g: History, h: Hash, k: Key, j: Journal, replace: bool, x: Key)
    requires Inv(a, g, h) && IsKey(k) && IsKey(x) && x != k && JournalOk(k, j) && !Reserved(j.path)
    requires StageOf(j) in a.names
    requires b == if replace then Renamed(a, StageOf(j), j.path) else Linked(a, StageOf(j), j.path)
    ensures SameFor(a, b, x)
  {
    var sp := StageOf(j);
    var dir := Parent(j.path);
    StageIsNoOther(k, dir, x);
    ProtocolNamesReserved(x, []);
    forall d ensures j.path != StageIn(x, d) { ProtocolNamesReserved(x, d); }
    if b != a {
      var mid := Linked(a, sp, j.path);
      OtherName(a, mid, j.path, x);
      if replace { OtherName(mid, b, sp, x); }
    }
  }

  /** mkdir, of the protocol's own directory or of one a request names. */
  lemma MkdirKeeps(a: Disk, g: History, h: Hash, p: Path)
    requires Inv(a, g, h) && p !in a.names
    requires !Reserved(p) || p == [STATE_DIR]
    ensures Inv(SetName(a, p, Directory), g, h)
    ensures StepSafe(h, Step(a, SetName(a, p, Directory), MakeDir))
  {
    var b := SetName(a, p, Directory);
    forall x | IsKey(x) ensures KeyInv(b, g, h, x) {
      ProtocolNamesReserved(x, []);
      forall d ensures p != StageIn(x, d) { ProtocolNamesReserved(x, d); UploadsNeverShareNames(x, x, d, d); }
      UploadsNeverShareNames(x, x, [], []);
      OtherName(a, b, p, x);
      KeyFrame(a, b, g, g, h, x);
    }
  }

  /** Seeing a publication hold, and reporting a journal that is on disk, only add to the history. */
  lemma ProvenKeeps(a: Disk, g: History, h: Hash, p: Publication)
    requires Inv(a, g, h)
    ensures Inv(a, g.(proven := g.proven + {p}), h)
  {
    forall k | IsKey(k) ensures KeyInv(a, g.(proven := g.proven + {p}), h, k) {
      KeyFrame(a, a, g, g.(proven := g.proven + {p}), h, k);
    }
  }

  lemma AckKeeps(a: Disk, g: History, h: Hash, k: Key, j: Journal)
    requires Inv(a, g, h) && IsKey(k) && RecordOf(a, k) == Some(j)
    ensures Inv(a, g.(acked := g.acked[k := Ack(j.offset, j.committed)]), h)
  {
    var g' := g.(acked := g.acked[k := Ack(j.offset, j.committed)]);
    forall x | IsKey(x) ensures KeyInv(a, g', h, x) {
      if x != k { KeyFrame(a, a, g, g', h, x); }
      else {
        assert KeyInv(a, g, h, k);
        ConsistentFrame(a, a, g, g', h, k, j, g.accepted[k]);
      }
    }
  }

  // ---- what the invariant does and does not promise ----

  /** Wherever a crash leaves a publication (after the rename, after the link, or after the link and
      the removal), the next request finds the evidence it needs to call the upload committed. */
  lemma CrashAfterPublishIsRecovered(a: Disk, g: History, h: Hash, k: Key, j: Journal, replace: bool, removed: bool)
    requires Inv(a, g, h) && IsKey(k) && RecordOf(a, k) == Some(j) && k in g.accepted
    requires Consistent(a, g, h, k, j, g.accepted[k]) && j.committing && !j.committed && !Reserved(j.path)
    requires StageOf(j) in a.names && |FileAt(a, StageOf(j)).value| == j.size && ChunkHashes(h, FileAt(a, StageOf(j)).value) == j.hashes
    requires !replace ==> NodeAt(a, j.path) == None
    ensures var b := if replace then Renamed(a, StageOf(j), j.path) else Linked(a, StageOf(j), j.path);
      var c := if removed then DropName(b, StageOf(j)) else b;
      WasPublishing(c, j) && Holds(h, c, PublicationOf(k, j))
  {
    var b := if replace then Renamed(a, StageOf(j), j.path) else Linked(a, StageOf(j), j.path);
    ProtocolNamesReserved(k, Parent(j.path));
    PublishedAt(a, b, h, k, j, replace, g.accepted[k]);
    assert FileAt(b, j.path) == FileAt(a, StageOf(j));
  }

  /** A crash may have interrupted publication: the staging file is gone, or is the destination's file too. */
  predicate WasPublishing(d: Disk, j: Journal)
    requires |j.path| > 0
  {
    && j.committing && !j.committed
    && (StageOf(j) !in d.names || (d.names[StageOf(j)].File? && NodeAt(d, j.path) == Some(d.names[StageOf(j)])))
  }

  /** Before publication, the staging file starts with exactly the bytes the journal accounts for,
      unless a discard or cleanup already took it away. */
  lemma StageHoldsAccepted(d: Disk, g: History, h: Hash, k: Key)
    requires Inv(d, g, h) && IsKey(k) && RecordOf(d, k).Some?
    requires k !in g.published && k !in g.abandoned
    ensures var j := RecordOf(d, k).value;
      && |j.path| > 0 && k in g.accepted && ChunkHashes(h, g.accepted[k]) == j.hashes
      && (j.offset > 0 ==> FileAt(d, StageOf(j)).Some?)
      && (FileAt(d, StageOf(j)).Some? ==> |FileAt(d, StageOf(j)).value| <= j.size
                                          && 0 <= j.offset <= |FileAt(d, StageOf(j)).value|
                                          && FileAt(d, StageOf(j)).value[..j.offset] == g.accepted[k])
  {
    assert KeyInv(d, g, h, k);
    var j := RecordOf(d, k).value;
    if FileAt(d, StageOf(j)).Some? {
      assert g.accepted[k] <= FileAt(d, StageOf(j)).value;
    }
  }

  /** A crash between the two removals of a discard is the exception: the journal still claims bytes
      that no staging file holds. */
  lemma InterruptedDiscardLosesBytes(a: Disk, g: History, h: Hash, k: Key)
    requires Inv(a, g, h) && IsKey(k) && RecordOf(a, k).Some? && RecordOf(a, k).value.offset > 0
    requires k !in g.published && k !in g.abandoned
    ensures var j := RecordOf(a, k).value;
      && |j.path| > 0 && k in g.accepted
      && Inv(DropName(a, StageOf(j)), StageDropped(g, k), h)
      && RecordOf(DropName(a, StageOf(j)), k) == Some(j)
      && FileAt(DropName(a, StageOf(j)), StageOf(j)) == None
  {
    assert KeyInv(a, g, h, k);
    RemoveStageKeeps(a, g, h, k, RecordOf(a, k).value, g.accepted[k]);
  }

  /** A committed upload's destination keeps its content through every step of the agent but one:
      the publication, at the same path, of an upload with another size or other digests. */
  lemma CommittedUntilReplaced(h: Hash, s: Step, p: Publication)
    requires StepSafe(h, s) && !s.effect.Others? && !Reserved(p.path)
    requires NodeAt(s.before, p.path).Some? && NodeAt(s.before, p.path).value.File? && Holds(h, s.before, p)
    ensures Holds(h, s.after, p) <==> !(s.effect.Publish? && Replaces(RecordOf(s.before, s.effect.key), p))
  {
    assert !(s.effect.Publish? && RecordOf(s.before, s.effect.key).value.path == p.path) ==> SameAt(s.before, s.after, p.path);
  }

  /** The journal is of another file for p's path. */
  predicate Replaces(j: Option<Journal>, p: Publication) {
    j.Some? && j.value.path == p.path && (j.value.size != p.size || j.value.hashes != p.hashes)
  }

  /** And that one exists: publishing upload b over committed upload a leaves a's journal saying
      Committed while the destination no longer has a's chunk digests. */
  lemma AnotherUploadReplaces(d: Disk, g: History, h: Hash, a: Key, b: Key)
    requires Inv(d, g, h) && IsKey(a) && IsKey(b) && a != b
    requires RecordOf(d, a).Some? && RecordOf(d, b).Some? && b in g.accepted
    requires RecordOf(d, a).value.committed && RecordOf(d, b).value.path == RecordOf(d, a).value.path
    requires var j := RecordOf(d, b).value;
      && Consistent(d, g, h, b, j, g.accepted[b]) && j.committing && !Reserved(j.path)
      && StageOf(j) in d.names && |FileAt(d, StageOf(j)).value| == j.size && ChunkHashes(h, FileAt(d, StageOf(j)).value) == j.hashes
    requires RecordOf(d, b).value.hashes != RecordOf(d, a).value.hashes
    ensures var j := RecordOf(d, b).value;
      var after := Renamed(d, StageOf(j), j.path);
      && Inv(after, Publicized(g, b, j), h)
      && RecordOf(after, a) == RecordOf(d, a)
      && !Holds(h, after, PublicationOf(a, RecordOf(d, a).value))
  {
    var j := RecordOf(d, b).value;
    var after := Renamed(d, StageOf(j), j.path);
    PublishKeeps(d, g, h, b, j, true);
    PublishSame(d, after, g, h, b, j, true, a);
    assert NodeAt(d, JournalFile(a)) == NodeAt(after, JournalFile(a));
    ProtocolNamesReserved(b, Parent(j.path));
    assert FileAt(after, j.path) == FileAt(d, StageOf(j));
  }

  /** Recovery opens the destination by name and follows links. After a crash behind the rename other
      programs may move the published file elsewhere and leave a link: the next request that recovers
      this journal takes the link's target for the published file. */
  lemma LinkBehindCrash(a: Disk, g: History, h: Hash, k: Key, elsewhere: Path)
    requires Inv(a, g, h) && IsKey(k) && RecordOf(a, k).Some? && k in g.accepted
    requires var j := RecordOf(a, k).value;
      && Consistent(a, g, h, k, j, g.accepted[k]) && j.committing && !j.committed && !Reserved(j.path)
      && StageOf(j) in a.names && |FileAt(a, StageOf(j)).value| == j.size && ChunkHashes(h, FileAt(a, StageOf(j)).value) == j.hashes
      && NodeAt(a, j.path) == None && elsewhere != j.path
    requires !Reserved(elsewhere) && elsewhere !in a.names
    ensures var j := RecordOf(a, k).value;
      var published := Renamed(a, StageOf(j), j.path);
      var moved := Moved(published, j.path, elsewhere);
      && EnvStep(published, moved) && Inv(moved, Publicized(g, k, j), h) && RecordOf(moved, k) == Some(j)
      && WasPublishing(moved, j) && Holds(h, moved, PublicationOf(k, j)) && NodeAt(moved, j.path) == Some(Symlink(elsewhere))
  {
    var j := RecordOf(a, k).value;
    var published := Renamed(a, StageOf(j), j.path);
    var moved := Moved(published, j.path, elsewhere);
    ProtocolNamesReserved(k, Parent(j.path));
    PublishKeeps(a, g, h, k, j, true);
    MovingIsAllowed(published, j.path, elsewhere);
    EnvKeeps(published, moved, Publicized(g, k, j), h);
    ProtocolNamesReserved(k, []);
    assert Reads(moved, j.path, HOPS) == Reads(moved, elsewhere, HOPS - 1) == FileAt(moved, elsewhere);
  }

  lemma MovingIsAllowed(d: Disk, p: Path, q: Path)
    requires WellFormed(d) && p in d.names && d.names[p].File? && !Reserved(p) && !Reserved(q) && q !in d.names
    ensures EnvStep(d, Moved(d, p, q))
  {}

  /** mv p q; ln -s q p. */
  function Moved(d: Disk, p: Path, q: Path): Disk
    requires p in d.names
  {
    SetName(SetName(d, q, d.names[p]), p, Symlink(q))
  }
}
