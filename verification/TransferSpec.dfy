/** The invariant of the upload protocol. */
module TransferSpec {
  import opened Prelude
  import opened TransferNames
  import opened TransferDisk

  // What every reachable or post-crash state satisfies, what a step may do to names that are not its own, and
  // the trail of disks a run goes through.

  /** "The file at path had these chunk hashes." */
  datatype Publication = Publication(key: Key, path: Path, size: int, hashes: seq<Digest>)

  /** What a client was last told about an upload. */
  datatype Ack = Ack(offset: int, committed: bool)

  /** Facts about the past that the disk does not show.
      published: uploads whose staging file was renamed or linked to its destination;
      abandoned: uploads a discard or cleanup took the staging file from, their journal still there;
      accepted: the bytes of the chunks accepted so far, as of the journal on disk;
      proven: the publications the agent saw hold;
      acked: what was reported since the upload began. */
  datatype History = History(
    published: set<Key>, abandoned: set<Key>, accepted: map<Key, seq<byte>>,
    proven: set<Publication>, acked: map<Key, Ack>)

  /** Who changed the disk: other programs at the at-th instant, or the agent: within its own names,
      by making a directory, or by publishing an upload whose accepted bytes these are. */
  datatype Effect = Others(at: nat) | Plain | MakeDir | Publish(key: Key, replace: bool, accepted: seq<byte>)

  datatype Step = Step(before: Disk, after: Disk, effect: Effect)

  // ---- journals ----

  predicate JournalOk(k: Key, j: Journal) {
    && j.version == 1 && j.key == k && AcceptedPath(j.path)
    && 0 <= j.offset <= j.size <= BYTE_LIMIT
    && (j.offset % CHUNK == 0 || j.offset == j.size)
    && (j.committing ==> j.offset == j.size)
    && (j.committed ==> j.committing)
  }

  function RecordOf(d: Disk, k: Key): Option<Journal> {
    if JournalFile(k) in d.names && d.names[JournalFile(k)].Record? then Some(d.names[JournalFile(k)].journal) else None
  }

  /** The directory of the protocol's files. */
  predicate HasState(d: Disk) { NodeAt(d, [STATE_DIR]) == Some(Directory) }

  /** No upload's journal differs, none but k's; and the directory they are in stays. */
  ghost predicate SameJournals(a: Disk, b: Disk) {
    (HasState(a) ==> HasState(b)) && forall x :: IsKey(x) ==> RecordOf(b, x) == RecordOf(a, x)
  }
  ghost predicate SameBut(k: Key, a: Disk, b: Disk) {
    (HasState(a) ==> HasState(b)) && forall x :: IsKey(x) && x != k ==> RecordOf(b, x) == RecordOf(a, x)
  }

  function StageOf(j: Journal): Path
    requires |j.path| > 0
  {
    StageIn(j.key, Parent(j.path))
  }

  function PublicationOf(k: Key, j: Journal): Publication { Publication(k, j.path, j.size, j.hashes) }

  predicate Holds(h: Hash, d: Disk, p: Publication) {
    var c := Reads(d, p.path, HOPS);
    c.Some? && |c.value| == p.size && ChunkHashes(h, c.value) == p.hashes
  }

  ghost predicate Alone(d: Disk, p: Path) {
    p in d.names && d.names[p].File? && forall q :: q in d.names && d.names[q] == d.names[p] ==> q == p
  }

  /** Journal j, with accepted bytes acc, truly describes upload k on disk d. */
  ghost predicate Consistent(d: Disk, g: History, h: Hash, k: Key, j: Journal, acc: seq<byte>) {
    && JournalOk(k, j)
    && |acc| == j.offset && ChunkHashes(h, acc) == j.hashes
    && (k in g.published ==> j.committing)
    && (j.committed ==> PublicationOf(k, j) in g.proven)
    && StageFits(d, g, k, j, acc)
  }

  ghost predicate StageFits(d: Disk, g: History, k: Key, j: Journal, acc: seq<byte>)
    requires |j.path| > 0 && j.key == k
  {
    && (StageOf(j) in d.names ==>
          && FileAt(d, StageOf(j)).Some?
          && |FileAt(d, StageOf(j)).value| <= j.size
          && (k !in g.published ==> Alone(d, StageOf(j)))
          && (k !in g.abandoned ==> acc <= FileAt(d, StageOf(j)).value))
    && (k !in g.abandoned && k !in g.published && j.offset > 0 ==> StageOf(j) in d.names)
  }

  ghost predicate KeyInv(d: Disk, g: History, h: Hash, k: Key) {
    if JournalFile(k) !in d.names then
      k !in g.published && k !in g.abandoned && k !in g.acked
      && forall dir :: StageIn(k, dir) !in d.names
    else
      && RecordOf(d, k).Some?
      && k in g.accepted
      && Consistent(d, g, h, k, RecordOf(d, k).value, g.accepted[k])
      && (forall dir :: StageIn(k, dir) in d.names ==> dir == Parent(RecordOf(d, k).value.path))
      && (k in g.acked ==> AckHolds(g.acked[k], RecordOf(d, k).value))
  }

  predicate AckHolds(a: Ack, j: Journal) { a.offset <= j.offset && (a.committed ==> j.committed) }

  ghost predicate Inv(d: Disk, g: History, h: Hash) {
    WellFormed(d) && forall k {:trigger KeyInv(d, g, h, k)} :: IsKey(k) ==> KeyInv(d, g, h, k)
  }

  // ---- what one primitive of the agent may do to names that are not its own ----

  /** p now holds the complete staged file of upload effect.key, whose journal said so beforehand. */
  ghost predicate Published(h: Hash, a: Disk, b: Disk, effect: Effect, p: Path)
    requires effect.Publish?
  {
    var j := RecordOf(a, effect.key);
    && j.Some? && j.value.path == p && j.value.committing
    && NodeAt(b, p).Some? && NodeAt(b, p).value.File? && FileAt(b, p).Some?
    && |FileAt(b, p).value| == j.value.size
    && ChunkHashes(h, FileAt(b, p).value) == j.value.hashes
    && |effect.accepted| == j.value.size && ChunkHashes(h, effect.accepted) == j.value.hashes
    && (!effect.replace ==> NodeAt(a, p) == None)
  }

  /** What a step may do to names that are not the protocol's: nothing, unless it makes a directory
      where there was nothing, or publishes an upload at the path its journal names. */
  ghost predicate StepSafe(h: Hash, s: Step) {
    match s.effect
    case Others(_) => EnvStep(s.before, s.after)
    case Plain => forall p :: !Reserved(p) ==> SameAt(s.before, s.after, p)
    case MakeDir =>
      forall p :: !Reserved(p) ==>
        SameAt(s.before, s.after, p) || (NodeAt(s.before, p) == None && NodeAt(s.after, p) == Some(Directory))
    case Publish(key, _, _) =>
      && RecordOf(s.before, key).Some?
      && var path := RecordOf(s.before, key).value.path;
      && !Reserved(path) && Published(h, s.before, s.after, s.effect, path)
      && forall p :: !Reserved(p) && p != path ==> SameAt(s.before, s.after, p)
  }

  // ---- the disks a run went through ----

  /** log is every change of the disk from start to end, each starting where the one before it ended. */
  ghost predicate Chained(start: Disk, log: seq<Step>, end: Disk) {
    if log == [] then start == end
    else
      var last := log[|log| - 1];
      last.after == end && Chained(start, log[..|log| - 1], last.before)
  }

  lemma ChainedSnoc(start: Disk, log: seq<Step>, s: Step)
    requires Chained(start, log, s.before)
    ensures Chained(start, log + [s], s.after)
  {
    assert (log + [s])[..|log|] == log;
  }

  /** The chain names the state between any two steps of it. */
  lemma {:induction false} ChainedAt(start: Disk, log: seq<Step>, end: Disk, n: nat)
    requires Chained(start, log, end) && n < |log|
    ensures log[n].before == if n == 0 then start else log[n - 1].after
    ensures log[n].after == if n == |log| - 1 then end else log[n + 1].before
  {
    var m := |log| - 1;
    if m > 0 {
      ChainedAt(start, log[..m], log[m].before, if n < m then n else m - 1);
    }
  }

  /** From the from-th step on there was a disk on which publication p held. */
  ghost predicate HoldsSince(h: Hash, log: seq<Step>, from: nat, p: Publication) {
    exists n :: from <= n < |log| && Holds(h, log[n].after, p)
  }

  lemma HoldsSinceGrows(h: Hash, log: seq<Step>, longer: seq<Step>, from: nat, p: Publication)
    requires log <= longer && HoldsSince(h, log, from, p)
    ensures HoldsSince(h, longer, from, p)
  {
    var n :| from <= n < |log| && Holds(h, log[n].after, p);
    assert longer[n] == log[n];
  }

  // ---- consequences of the invariant ----

  /** Offset = min(Size, chunk * len(Hashes)), and the journal passes every check a later load makes. */
  lemma JournalShape(d: Disk, g: History, h: Hash, k: Key, j: Journal, acc: seq<byte>)
    requires Consistent(d, g, h, k, j, acc)
    ensures j.offset == Min(j.size, CHUNK * |j.hashes|)
    ensures |j.hashes| <= HASH_LIMIT
  {
    assert |ChunkHashes(h, acc)| == (j.offset + CHUNK - 1) / CHUNK;
  }

  /** With collision-free hashing a published destination is, byte for byte, the accepted chunks. */
  lemma PublishedBytes(h: Hash, s: Step)
    requires Injective(h.chunk)
    requires s.effect.Publish? && StepSafe(h, s)
    ensures RecordOf(s.before, s.effect.key).Some?
    ensures FileAt(s.after, RecordOf(s.before, s.effect.key).value.path) == Some(s.effect.accepted)
  {
    var p := RecordOf(s.before, s.effect.key).value.path;
    EqualHashesEqualBytes(h, FileAt(s.after, p).value, s.effect.accepted);
  }

  /** So is any regular file that has the size and the digests of a journal on disk. */
  lemma WholeIsAccepted(d: Disk, g: History, h: Hash, k: Key, content: seq<byte>)
    requires Injective(h.chunk) && Inv(d, g, h) && IsKey(k) && RecordOf(d, k).Some?
    requires RecordOf(d, k).value.offset == RecordOf(d, k).value.size == |content|
    requires ChunkHashes(h, content) == RecordOf(d, k).value.hashes
    ensures k in g.accepted && content == g.accepted[k]
  {
    assert KeyInv(d, g, h, k);
    EqualHashesEqualBytes(h, content, g.accepted[k]);
  }

  /** The chunk guard of transferWrite. */
  predicate ChunkAllowed(size: int, offset: int, length: int) {
    && length <= CHUNK && offset + length <= size
    && !(offset + length < size && length != CHUNK)
    && !(length == 0 && size != 0)
    && offset % CHUNK == 0
  }

  /** It leaves exactly one legal length at each offset: a whole chunk, or what is left of the file. */
  lemma OneLegalLength(size: nat, offset: nat, length: nat)
    ensures ChunkAllowed(size, offset, length) <==>
            && offset % CHUNK == 0
            && (offset < size || offset == size == 0)
            && length == Min(CHUNK, size - offset)
  {}

  // ---- keeping the invariant ----

  ghost predicate AgreeOn(g: History, g': History, k: Key) {
    && (k in g.published <==> k in g'.published)
    && (k in g.abandoned <==> k in g'.abandoned)
    && (k in g.accepted <==> k in g'.accepted)
    && (k in g.accepted ==> g.accepted[k] == g'.accepted[k])
    && (k in g.acked <==> k in g'.acked)
    && (k in g.acked ==> g.acked[k] == g'.acked[k])
    && (forall p :: p in g.proven ==> p in g'.proven)
  }

  /** Nothing about k's journal and staging names differs between a and b. */
  ghost predicate SameFor(a: Disk, b: Disk, k: Key) {
    && NodeAt(a, JournalFile(k)) == NodeAt(b, JournalFile(k))
    && (forall dir :: SameAt(a, b, StageIn(k, dir)))
    && (forall dir :: Alone(a, StageIn(k, dir)) ==> Alone(b, StageIn(k, dir)))
  }

  lemma ConsistentFrame(a: Disk, b: Disk, g: History, g': History, h: Hash, k: Key, j: Journal, acc: seq<byte>)
    requires Consistent(a, g, h, k, j, acc) && SameFor(a, b, k)
    requires k in g.published <==> k in g'.published
    requires k in g.abandoned <==> k in g'.abandoned
    requires forall p :: p in g.proven ==> p in g'.proven
    ensures Consistent(b, g', h, k, j, acc)
  {
    assert SameAt(a, b, StageIn(k, Parent(j.path)));
    assert NodeAt(a, StageOf(j)) == NodeAt(b, StageOf(j));
  }

  lemma KeyFrame(a: Disk, b: Disk, g: History, g': History, h: Hash, k: Key)
    requires KeyInv(a, g, h, k) && SameFor(a, b, k) && AgreeOn(g, g', k)
    ensures KeyInv(b, g', h, k)
  {
    forall dir ensures StageIn(k, dir) in a.names <==> StageIn(k, dir) in b.names {
      assert SameAt(a, b, StageIn(k, dir));
      assert NodeAt(a, StageIn(k, dir)) == NodeAt(b, StageIn(k, dir));
    }
    assert JournalFile(k) in a.names <==> JournalFile(k) in b.names by {
      assert NodeAt(a, JournalFile(k)) == NodeAt(b, JournalFile(k));
    }
    if JournalFile(k) in a.names {
      ConsistentFrame(a, b, g, g', h, k, RecordOf(a, k).value, g.accepted[k]);
    }
  }

  lemma EnvSameFor(a: Disk, b: Disk, k: Key)
    requires WellFormed(a) && EnvStep(a, b)
    ensures SameFor(a, b, k)
  {
    ProtocolNamesReserved(k, []);
    forall dir ensures SameAt(a, b, StageIn(k, dir)) && (Alone(a, StageIn(k, dir)) ==> Alone(b, StageIn(k, dir))) {
      ProtocolNamesReserved(k, dir);
      var sp := StageIn(k, dir);
      assert NodeAt(a, sp) == NodeAt(b, sp);
      if Alone(a, sp) {
        var i := a.names[sp].ino;
        assert Hidden(a, i);
        forall q | q in b.names && b.names[q] == b.names[sp] ensures q == sp {
          assert Reserved(q);
          assert NodeAt(a, q) == NodeAt(b, q);
        }
      }
    }
  }

  /** Other programs cannot break the invariant. */
  lemma EnvKeeps(a: Disk, b: Disk, g: History, h: Hash)
    requires Inv(a, g, h) && EnvStep(a, b)
    ensures Inv(b, g, h)
  {
    forall k | IsKey(k) ensures KeyInv(b, g, h, k) {
      EnvSameFor(a, b, k);
      KeyFrame(a, b, g, g, h, k);
    }
  }

  /** What an upload in progress can rely on while other programs run: its journal on disk, its
      staging file, and everything Consistent says. */
  ghost predicate Undisturbed(a: Disk, b: Disk, g: History, h: Hash) {
    && EnvStep(a, b) && HasState(a) == HasState(b)
    && (forall k :: RecordOf(a, k) == RecordOf(b, k))
    && (forall k, dir :: SameAt(a, b, StageIn(k, dir)))
    && (forall k, j, acc :: Consistent(a, g, h, k, j, acc) ==> Consistent(b, g, h, k, j, acc))
  }

  lemma EnvUndisturbed(a: Disk, b: Disk, g: History, h: Hash)
    requires WellFormed(a) && EnvStep(a, b)
    ensures Undisturbed(a, b, g, h)
  {
    forall k ensures SameFor(a, b, k) && RecordOf(a, k) == RecordOf(b, k) {
      EnvSameFor(a, b, k);
      assert NodeAt(a, JournalFile(k)) == NodeAt(b, JournalFile(k));
    }
    assert NodeAt(a, [STATE_DIR]) == NodeAt(b, [STATE_DIR]) by { ProtocolNamesReserved(Key("", ""), []); }
    forall k, dir ensures SameAt(a, b, StageIn(k, dir)) {
      assert SameFor(a, b, k);
    }
    forall k, j, acc | Consistent(a, g, h, k, j, acc) ensures Consistent(b, g, h, k, j, acc) {
      ConsistentFrame(a, b, g, g, h, k, j, acc);
    }
  }

  lemma UndisturbedTrans(a: Disk, b: Disk, c: Disk, g: History, h: Hash)
    requires WellFormed(a) && Undisturbed(a, b, g, h) && Undisturbed(b, c, g, h)
    ensures Undisturbed(a, c, g, h)
  {
    forall p | Reserved(p) ensures NodeAt(a, p) == NodeAt(c, p) && FileAt(a, p) == FileAt(c, p) {
      assert NodeAt(a, p) == NodeAt(b, p);
    }
    forall p | Reserved(p) && p in a.names && a.names[p].File? && Hidden(a, a.names[p].ino)
      ensures Hidden(c, a.names[p].ino)
    {
      assert NodeAt(a, p) == NodeAt(b, p);
    }
    EnvUndisturbed(a, c, g, h);
  }
}
