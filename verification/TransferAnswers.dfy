/** Requests, their answers, and runs. */
module TransferAnswers {
  import opened Prelude
  import opened TransferNames
  import opened TransferDisk
  import opened TransferSpec
  import opened TransferSteps

  // What a request on one moment of the disk is answered, and what it leaves behind; the cleanup sweep; and
  // what follows for whole runs.

  datatype Fault = NoFault | IoError | Crash

  /** Everything outside the agent: what other programs do before the n-th primitive, how it
      fails, how much of a failing write still reached the file, and the clock. */
  datatype World = World(env: (nat, Disk) -> Disk, fault: nat -> Fault, tear: nat -> nat, time: nat -> int)

  ghost predicate Fair(w: World) {
    forall n, d :: WellFormed(d) ==> EnvStep(d, w.env(n, d))
  }

  ghost predicate CalmFrom(w: World, n: nat) {
    forall i, d :: i >= n ==> w.env(i, d) == d && w.fault(i) == NoFault
  }

  lemma CalmStep(w: World, n: nat, d: Disk)
    requires CalmFrom(w, n)
    ensures CalmFrom(w, n + 1) && w.env(n, d) == d && w.fault(n) == NoFault
  {
    forall i, e | i >= n + 1 ensures w.env(i, e) == e && w.fault(i) == NoFault {}
  }

  ghost predicate InjectiveList(f: seq<Digest> -> Digest) {
    forall x, y :: f(x) == f(y) ==> x == y
  }

  datatype Failure = NotExist | Exist | Io | Code(code: string)
  datatype Outcome<+T> = Ok(value: T) | Err(failure: Failure)
  datatype Unit = Unit

  datatype Action = Mkdir | Stat | Touch | Write | Commit | Discard | Unknown

  /** data is None when it was not base64. */
  datatype Request = Request(
    action: Action, key: Key, path: string, size: int, offset: int,
    data: Option<seq<byte>>, digest: Digest, replace: bool)

  datatype Reply = Reply(offset: int, committed: bool)

  const INVALID := "FILES_TRANSFER_INVALID"
  const PATH := "FILES_TRANSFER_PATH"
  const LINK := "FILES_TRANSFER_LINK"
  const TYPE_CONFLICT := "FILES_TRANSFER_TYPE_CONFLICT"
  const OFFSET := "FILES_TRANSFER_OFFSET"
  const SOURCE_CHANGED := "FILES_TRANSFER_SOURCE_CHANGED"
  const DIGEST := "FILES_TRANSFER_DIGEST"
  const CONFLICT := "FILES_TRANSFER_CONFLICT"
  const CHUNK_CODE := "FILES_TRANSFER_CHUNK"
  const STATE := "FILES_TRANSFER_STATE"

  /** The checks loadTransferJournal makes on a decoded journal. */
  predicate LoadOk(k: Key, j: Journal) {
    && j.version == 1 && j.key == k && AcceptedPath(j.path)
    && 0 <= j.size <= BYTE_LIMIT && 0 <= j.offset <= j.size && |j.hashes| <= HASH_LIMIT
  }

  /** A step the agent or the rest of the world took: safe, and if it is the world's, the world's doing. */
  ghost predicate Took(h: Hash, w: World, s: Step) {
    StepSafe(h, s) && (s.effect.Others? ==> s.after == w.env(s.effect.at, s.before))
  }

  /** log is every change from start to disk, and shows each of the proven publications holding. */
  ghost predicate Trail(h: Hash, w: World, start: Disk, log: seq<Step>, disk: Disk, proven: set<Publication>) {
    && Chained(start, log, disk)
    && (forall n {:trigger Took(h, w, log[n])} :: 0 <= n < |log| ==> Took(h, w, log[n]))
    && (forall p :: p in proven ==> HoldsSince(h, log, 0, p))
  }

  lemma TrailGrows(h: Hash, w: World, start: Disk, log: seq<Step>, disk: Disk, proven: set<Publication>, s: Step, more: set<Publication>)
    requires Trail(h, w, start, log, disk, proven) && s.before == disk && Took(h, w, s)
    requires forall p :: p in more ==> p in proven || Holds(h, s.after, p)
    ensures Trail(h, w, start, log + [s], s.after, more)
  {
    ChainedSnoc(start, log, s);
    forall p | p in more ensures HoldsSince(h, log + [s], 0, p) {
      if p in proven { HoldsSinceGrows(h, log, log + [s], 0, p); }
      else { assert (log + [s])[|log|] == s; }
    }
  }

  /** From the from-th step on the accepted bytes acc were published as upload k at path. */
  ghost predicate PublishedSince(log: seq<Step>, from: nat, k: Key, replace: bool, acc: seq<byte>, path: Path) {
    exists n :: from <= n < |log| && log[n].effect == Publish(k, replace, acc)
                && RecordOf(log[n].before, k).Some? && RecordOf(log[n].before, k).value.path == path
  }

  lemma PublishedSinceGrows(log: seq<Step>, longer: seq<Step>, from: nat, k: Key, replace: bool, acc: seq<byte>, path: Path)
    requires log <= longer && PublishedSince(log, from, k, replace, acc, path)
    ensures PublishedSince(longer, from, k, replace, acc, path)
  {
    var n :| from <= n < |log| && log[n].effect == Publish(k, replace, acc)
             && RecordOf(log[n].before, k).Some? && RecordOf(log[n].before, k).value.path == path;
    assert longer[n] == log[n];
  }

  /** The n-th component of p exists, is no symbolic link, and is a directory unless it is the last. */
  predicate PlainComponent(d: Disk, p: Path, n: nat)
    requires n < |p|
  {
    && p[..n + 1] in d.names && !d.names[p[..n + 1]].Symlink?
    && (n < |p| - 1 ==> d.names[p[..n + 1]].Directory?)
  }

  predicate PlainPath(d: Disk, p: Path) { forall n :: 0 <= n < |p| ==> PlainComponent(d, p, n) }

  /** What stands at the n-th component of p, everything above it being plain directories, is a link, or no
      directory although more components follow. */
  predicate BlockedAt(d: Disk, p: Path, n: nat)
    requires n < |p|
  {
    !PlainComponent(d, p, n) && p[..n + 1] in d.names && forall m :: 0 <= m < n ==> PlainComponent(d, p, m)
  }

  predicate Blocked(d: Disk, p: Path) { exists n :: 0 <= n < |p| && BlockedAt(d, p, n) }

  /** Every component of p is a directory or can be made one. */
  predicate Makeable(d: Disk, p: Path) { forall n :: 0 < n <= |p| ==> NodeAt(d, p[..n]) == None || NodeAt(d, p[..n]) == Some(Directory) }

  /** No name outside the protocol changed. */
  ghost predicate Untouched(a: Disk, b: Disk) { forall p :: !Reserved(p) ==> SameAt(a, b, p) }

  /** The protocol's directory is there, or its name is free. */
  predicate StateReady(d: Disk) { NodeAt(d, [STATE_DIR]) == None || HasState(d) }

  /** transferTTL in milliseconds. */
  const TTL := 24 * 60 * 60 * 1000

  // ---- the cleanup sweep on a calm disk ----

  /** The upload a directory entry is the journal of, as CleanupTransfers reads its name. */
  function ListedKey(name: string): (k: Option<Key>)
    ensures k.Some? ==> IsKey(k.value)
  {
    if |name| == 78 && name[73..] == ".json" && IsUuid(name[..36]) && IsUuid(name[37..73])
    then Some(Key(name[..36], name[37..73]))
    else None
  }

  predicate Listed(listing: seq<string>, k: Key) {
    exists i :: 0 <= i < |listing| && ListedKey(listing[i]) == Some(k)
  }

  /** k's upload is a day old, and no link stands between the root and its destination's directory. */
  predicate Expired(d: Disk, k: Key, now: int) {
    && RecordOf(d, k).Some? && LoadOk(k, RecordOf(d, k).value)
    && now - RecordOf(d, k).value.updated >= TTL
    && PlainPath(d, Parent(RecordOf(d, k).value.path))
  }

  function Erased(d: Disk, k: Key): Disk
    requires RecordOf(d, k).Some? && |RecordOf(d, k).value.path| > 0
  {
    DropName(DropName(d, StageOf(RecordOf(d, k).value)), JournalFile(k))
  }

  function Swept(d: Disk, listing: seq<string>, now: int): Disk {
    if listing == [] then d
    else
      var b := Swept(d, listing[..|listing| - 1], now);
      match ListedKey(listing[|listing| - 1])
      case Some(k) => if Expired(b, k, now) then Erased(b, k) else b
      case None => b
  }

  lemma {:induction false} SweepKeepsDestinations(d: Disk, listing: seq<string>, now: int, p: Path)
    requires !Reserved(p)
    ensures SameAt(d, Swept(d, listing, now), p) && Swept(d, listing, now).data == d.data
  {
    if listing != [] {
      SweepKeepsDestinations(d, listing[..|listing| - 1], now, p);
      var b := Swept(d, listing[..|listing| - 1], now);
      var last := ListedKey(listing[|listing| - 1]);
      if last.Some? && Expired(b, last.value, now) {
        ProtocolNamesReserved(last.value, Parent(RecordOf(b, last.value).value.path));
      }
    }
  }

  /** Whether an upload has expired depends on its own record and on names the sweep never touches. */
  lemma SweepKeepsExpiry(d: Disk, listing: seq<string>, now: int, k: Key)
    requires RecordOf(Swept(d, listing, now), k) == RecordOf(d, k)
    ensures Expired(Swept(d, listing, now), k, now) == Expired(d, k, now)
  {
    var b := Swept(d, listing, now);
    if RecordOf(d, k).Some? && LoadOk(k, RecordOf(d, k).value) {
      var p := Parent(RecordOf(d, k).value.path);
      forall n | 0 <= n < |p| ensures PlainComponent(b, p, n) == PlainComponent(d, p, n) {
        SweepKeepsDestinations(d, listing, now, p[..n + 1]);
        assert NodeAt(b, p[..n + 1]) == NodeAt(d, p[..n + 1]);
      }
    }
  }

  /** The sweep removes journal and staging file of the listed uploads that have expired, and of no other. */
  lemma {:induction false} SweepRemovesExactlyExpired(d: Disk, listing: seq<string>, now: int, k: Key)
    requires IsKey(k)
    ensures Listed(listing, k) && Expired(d, k, now)
            ==> JournalFile(k) !in Swept(d, listing, now).names
                && StageOf(RecordOf(d, k).value) !in Swept(d, listing, now).names
    ensures !(Listed(listing, k) && Expired(d, k, now))
            ==> SameAt(d, Swept(d, listing, now), JournalFile(k))
                && forall dir :: SameAt(d, Swept(d, listing, now), StageIn(k, dir))
  {
    if listing != [] {
      var n := |listing| - 1;
      SweepRemovesExactlyExpired(d, listing[..n], now, k);
      SweepKeepsDestinations(d, listing[..n], now, []);
      var b := Swept(d, listing[..n], now);
      var last := ListedKey(listing[n]);
      if Listed(listing[..n], k) {
        var i :| 0 <= i < n && ListedKey(listing[..n][i]) == Some(k);
        assert listing[i] == listing[..n][i];
      }
      if Listed(listing, k) && last != Some(k) {
        var i :| 0 <= i < |listing| && ListedKey(listing[i]) == Some(k);
        assert listing[..n][i] == listing[i];
      }
      if last == Some(k) {
        if !(Listed(listing[..n], k) && Expired(d, k, now)) {
          assert NodeAt(b, JournalFile(k)) == NodeAt(d, JournalFile(k));
          SweepKeepsExpiry(d, listing[..n], now, k);
        }
      } else if last.Some? && Expired(b, last.value, now) {
        var dir := Parent(RecordOf(b, last.value).value.path);
        StageIsNoOther(last.value, dir, k);
        StageIsNoOther(k, [], last.value);
        UploadsNeverShareNames(k, last.value, [], dir);
        forall own ensures StageIn(k, own) != JournalFile(last.value) { UploadsNeverShareNames(k, last.value, own, dir); }
      }
    }
  }

  predicate RequestOk(req: Request) {
    IsKey(req.key) && req.offset >= 0 && 0 <= req.size <= BYTE_LIMIT
  }

  predicate WholeFile(d: Disk, h: Hash, req: Request, j: Journal)
    requires |j.path| > 0
  {
    && j.offset == j.size && req.digest == h.list(j.hashes)
    && FileAt(d, StageOf(j)).Some? && |FileAt(d, StageOf(j)).value| == j.size
    && h.list(ChunkHashes(h, FileAt(d, StageOf(j)).value)) == req.digest
  }

  predicate PublishAllowed(d: Disk, j: Journal, replace: bool)
    requires |j.path| > 0
  {
    && StageOf(j) in d.names && IsDirectory(d, Parent(j.path))
    && (if replace then NodeAt(d, j.path) != Some(Directory) else NodeAt(d, j.path) == None)
  }

  /** How the filesystem refuses to rename or link the staging file to its destination. */
  function MoveRefused(d: Disk, j: Journal, replace: bool): (r: Option<Failure>)
    requires |j.path| > 0
    ensures r.None? <==> PublishAllowed(d, j, replace)
  {
    if StageOf(j) !in d.names || !IsDirectory(d, Parent(j.path)) then Some(NotExist)
    else if !replace && j.path in d.names then Some(Exist)
    else if replace && NodeAt(d, j.path) == Some(Directory) then Some(Io)
    else None
  }

  /** A commit goes through exactly when the whole file was accepted, the client and the staging file
      agree on it, and the destination is free, or is a file the client agreed to replace. */
  predicate CommitAllowed(d: Disk, h: Hash, req: Request, j: Journal)
    requires |j.path| > 0
  {
    && WholeFile(d, h, req, j)
    && IsDirectory(d, Parent(j.path))
    && (NodeAt(d, j.path) == None || (NodeAt(d, j.path).value.File? && req.replace))
  }

  /** Why a commit is refused, the first reason that applies. */
  function CommitRefused(d: Disk, h: Hash, req: Request, j: Journal): (r: Option<Failure>)
    requires |j.path| > 0
    ensures r.None? <==> CommitAllowed(d, h, req, j)
  {
    if StageRefused(d, h, req, j).Some? then StageRefused(d, h, req, j)
    else if NodeAt(d, j.path).Some? && !NodeAt(d, j.path).value.File? then Some(Code(TYPE_CONFLICT))
    else if NodeAt(d, j.path).Some? && !req.replace then Some(Code(CONFLICT))
    else if !IsDirectory(d, Parent(j.path)) then Some(NotExist)
    else None
  }

  /** The file is not whole: in the journal, or on the disk. */
  function StageRefused(d: Disk, h: Hash, req: Request, j: Journal): (r: Option<Failure>)
    requires |j.path| > 0
    ensures r.None? <==> WholeFile(d, h, req, j)
  {
    var staged := FileAt(d, StageOf(j));
    if j.offset != j.size || req.digest != h.list(j.hashes) then Some(Code(DIGEST))
    else if staged.None? then Some(Io)
    else if |staged.value| != j.size then Some(Code(SOURCE_CHANGED))
    else if h.list(ChunkHashes(h, staged.value)) != req.digest then Some(Code(DIGEST))
    else None
  }

  /** A staging file is never a symbolic link. */
  lemma StageReads(d: Disk, g: History, h: Hash, k: Key, j: Journal, acc: seq<byte>)
    requires Consistent(d, g, h, k, j, acc)
    ensures Reads(d, StageOf(j), HOPS) == FileAt(d, StageOf(j))
  {}

  /** The staging file's bytes; none when it does not exist. */
  function StageBytes(d: Disk, j: Journal): seq<byte>
    requires |j.path| > 0
  {
    if FileAt(d, StageOf(j)).Some? then FileAt(d, StageOf(j)).value else []
  }

  /** The chunk of req is one the journal accepts: legal, undamaged, and either next or a true replay. */
  predicate ChunkFits(h: Hash, req: Request, j: Journal) {
    && req.data.Some? && ChunkAllowed(j.size, req.offset, |req.data.value|)
    && h.chunk(req.data.value) == req.digest
    && 0 <= req.offset <= j.offset
    && (req.offset < j.offset ==> req.offset / CHUNK < |j.hashes| && j.hashes[req.offset / CHUNK] == req.digest)
  }

  /** Why a chunk is refused, the first reason that applies. */
  function ChunkRefused(h: Hash, req: Request, j: Journal): (r: Option<Failure>)
    requires req.offset >= 0
    ensures r.None? <==> ChunkFits(h, req, j)
  {
    if req.data.None? || !ChunkAllowed(j.size, req.offset, |req.data.value|) then Some(Code(CHUNK_CODE))
    else if h.chunk(req.data.value) != req.digest then Some(Code(DIGEST))
    else if req.offset < j.offset then
      if req.offset / CHUNK >= |j.hashes| || j.hashes[req.offset / CHUNK] != req.digest then Some(Code(SOURCE_CHANGED)) else None
    else if req.offset != j.offset then Some(Code(OFFSET))
    else None
  }

  /** The journal behind a chunk that fits. */
  function WithChunk(req: Request, j: Journal): Journal
    requires req.data.Some?
  {
    if req.offset < j.offset then j
    else j.(offset := j.offset + |req.data.value|, hashes := if req.data.value == [] then j.hashes else j.hashes + [req.digest])
  }

  /** What a write to an upload that is not committed does without faults. */
  ghost predicate WroteTo(h: Hash, req: Request, j: Journal, a: Disk, r: Outcome<Reply>, b: Disk)
    requires |j.path| > 0 && req.offset >= 0
  {
    && Untouched(a, b)
    && if !ChunkFits(h, req, j) then r == Err(ChunkRefused(h, req, j).value) && b == a
       else if req.offset >= j.offset && StageOf(j) !in a.names && !IsDirectory(a, Parent(j.path)) then
         r == Err(NotExist) && RecordOf(b, req.key) == RecordOf(a, req.key)
       else
         && r == Ok(Reply(WithChunk(req, j).offset, false))
         && RecordOf(b, req.key).Some?
         && RecordOf(b, req.key).value == WithChunk(req, j).(updated := RecordOf(b, req.key).value.updated)
         && FileAt(b, StageOf(j)) ==
              if req.offset < j.offset then FileAt(a, StageOf(j)) else Some(Overlay(StageBytes(a, j), j.offset, req.data.value))
  }

  /** What transferWrite and the save behind it come to. */
  lemma WritingIsExact(h: Hash, req: Request, j: Journal, a: Disk, wrote: Outcome<Journal>, m: Disk, r: Outcome<Reply>, b: Disk)
    requires |j.path| > 0 && req.offset >= 0 && IsKey(req.key) && Untouched(a, m) && SameJournals(a, m)
    requires wrote.Ok? <==> ChunkFits(h, req, j) && (req.offset < j.offset || StageOf(j) in a.names || IsDirectory(a, Parent(j.path)))
    requires !ChunkFits(h, req, j) ==> wrote == Err(ChunkRefused(h, req, j).value) && m == a
    requires wrote.Err? && ChunkFits(h, req, j) ==> wrote == Err(NotExist)
    requires wrote.Ok? ==> wrote.value == WithChunk(req, j)
    requires wrote.Ok? && req.offset < j.offset ==> FileAt(m, StageOf(j)) == FileAt(a, StageOf(j))
    requires wrote.Ok? && req.offset >= j.offset ==> FileAt(m, StageOf(j)) == Some(Overlay(StageBytes(a, j), j.offset, req.data.value))
    requires if wrote.Err? then b == m && r == Err(wrote.failure)
             else r == Ok(Reply(wrote.value.offset, false)) && RecordOf(b, req.key).Some?
                  && RecordOf(b, req.key).value == wrote.value.(updated := RecordOf(b, req.key).value.updated)
                  && SameAt(m, b, StageOf(j)) && Untouched(m, b)
    ensures WroteTo(h, req, j, a, r, b)
  {
    forall q | !Reserved(q) ensures SameAt(a, b, q) { assert SameAt(a, m, q); }
  }

  /** The chunk of req is one the journal accounts for. */
  predicate ChunkIn(h: Hash, req: Request, j: Journal) {
    ChunkFits(h, req, j) && req.offset + |req.data.value| <= j.offset
  }

  /** So is a replayed chunk, and the chunk a journal was extended by. */
  lemma FitsAfter(h: Hash, req: Request, d: Disk, g: History, j: Journal, acc: seq<byte>)
    requires Consistent(d, g, h, req.key, j, acc) && ChunkFits(h, req, j)
    ensures ChunkIn(h, req, WithChunk(req, j))
  {
    JournalShape(d, g, h, req.key, j, acc);
  }

  lemma ExtendedConsistent(a: Disk, b: Disk, g: History, h: Hash, k: Key, j: Journal, acc: seq<byte>, data: seq<byte>)
    requires Consistent(a, g, h, k, j, acc) && !j.committed
    requires RecordOf(b, k) == Some(j) && IsKey(k)
    requires Inv(b, g, h)
    requires j.offset % CHUNK == 0 && |data| <= CHUNK && j.offset + |data| <= j.size
    requires j.offset + |data| < j.size ==> |data| == CHUNK
    requires FileAt(a, StageOf(j)).Some? && k in g.accepted && g.accepted[k] == acc
    requires FileAt(b, StageOf(j)) == Some(Overlay(FileAt(a, StageOf(j)).value, j.offset, data))
    ensures Consistent(b, g, h, k,
      j.(offset := j.offset + |data|, hashes := if data == [] then j.hashes else j.hashes + [h.chunk(data)]), acc + data)
  {
    var j' := j.(offset := j.offset + |data|, hashes := if data == [] then j.hashes else j.hashes + [h.chunk(data)]);
    assert KeyInv(b, g, h, k);
    assert JournalOk(k, j');
    if data == [] {
      assert acc + data == acc;
    } else {
      HashesAppend(h, acc, data);
      assert !j.committing && k !in g.published && StageOf(j') == StageOf(j);
      if k !in g.abandoned { OverlayExtends(acc, FileAt(a, StageOf(j)).value, data); }
      assert Alone(b, StageOf(j));
      assert StageFits(b, g, k, j', acc + data);
    }
  }

  lemma OverlayExtends(acc: seq<byte>, c: seq<byte>, data: seq<byte>)
    requires acc <= c && data != []
    ensures acc + data <= Overlay(c, |acc|, data)
  {
    var r := Overlay(c, |acc|, data);
    assert r[..|acc| + |data|] == r[..|acc|] + r[|acc|..|acc| + |data|];
  }

  function JournalOn(d: Disk, k: Key): Journal
    requires RecordOf(d, k).Some?
  {
    RecordOf(d, k).value
  }

  /** Removing a staging name leaves the destination alone. */
  lemma StageIsNotDestination(k: Key, j: Journal)
    requires AcceptedPath(j.path) && j.key == k
    ensures StageOf(j) != j.path
    ensures forall d :: SameAt(d, DropName(d, StageOf(j)), j.path)
  {
    AcceptedNotReserved(j.path);
    ProtocolNamesReserved(k, Parent(j.path));
  }

  /** A staging file that is also the destination's file has been published. */
  lemma LinkedWasPublished(a: Disk, b: Disk, g: History, h: Hash, k: Key, j: Journal, acc: seq<byte>)
    requires Consistent(b, g, h, k, j, acc) && EnvStep(a, b)
    requires StageOf(j) in a.names && a.names[StageOf(j)].File? && NodeAt(b, j.path) == NodeAt(a, StageOf(j))
    ensures k in g.published
  {
    ProtocolNamesReserved(k, Parent(j.path));
    assert NodeAt(a, StageOf(j)) == NodeAt(b, StageOf(j));
    assert StageOf(j)[|j.path| - 1] == StageName(k) && !ReservedName(j.path[|j.path| - 1]);
  }

  /** Nothing was published between a and b; nothing but the bytes acc as upload k. */
  ghost predicate Quiet(a: seq<Step>, b: seq<Step>) {
    a <= b && forall n :: |a| <= n < |b| ==> !b[n].effect.Publish?
  }

  ghost predicate OnlyPublishes(k: Key, replace: bool, acc: seq<byte>, a: seq<Step>, b: seq<Step>) {
    a <= b && forall n :: |a| <= n < |b| && b[n].effect.Publish? ==> b[n].effect == Publish(k, replace, acc)
  }

  lemma OnlyPublishesThenQuiet(k: Key, replace: bool, acc: seq<byte>, a: seq<Step>, m: seq<Step>, b: seq<Step>)
    requires OnlyPublishes(k, replace, acc, a, m) && Quiet(m, b)
    ensures OnlyPublishes(k, replace, acc, a, b)
  {}

  // ---- answers ----

  /** What a request finds and leaves: the disk, the history, every change so far, and whether from
      here on nothing fails and no other program acts. */
  datatype Moment = Moment(disk: Disk, g: History, log: seq<Step>, calm: bool)

  predicate Grew(a: Ack, b: Ack) { a.offset <= b.offset && (a.committed ==> b.committed) }

  predicate Committing(d: Disk, k: Key) { RecordOf(d, k).Some? && RecordOf(d, k).value.committing }

  /** What a request leaves of its own upload if it fails: all that was accepted, under the same journal,
      but that a write may have begun it and a commit may have noted its intention. */
  predicate Refused(req: Request, a: Moment, b: Moment) {
    var before, after := RecordOf(a.disk, req.key), RecordOf(b.disk, req.key);
    && AcceptedAt(b, req.key) == AcceptedAt(a, req.key)
    && (|| after == before
        || (before == None && after.Some? && req.action.Write? && after.value == Begun(req, after.value.updated))
        || (before.Some? && req.action.Commit? && Marked(before.value, after)))
  }

  /** The journal of an upload that has just begun. */
  function Begun(req: Request, updated: int): Journal {
    Journal(1, req.key, TransferPath(req.path), req.size, 0, [], false, false, updated)
  }

  /** k's journal is as it was, and what was accepted for it. */
  predicate Kept(a: Moment, b: Moment, k: Key) {
    RecordOf(b.disk, k) == RecordOf(a.disk, k) && AcceptedAt(b, k) == AcceptedAt(a, k)
  }

  ghost predicate OthersKept(k: Key, a: Moment, b: Moment) {
    (HasState(a.disk) ==> HasState(b.disk)) && forall x :: IsKey(x) && x != k ==> Kept(a, b, x)
  }

  /** What a discard of k may do, wherever it is cut short: once its journal is gone the upload has ended;
      until then nothing is forgotten, but the staging file may be gone. */
  ghost predicate GaveUp(k: Key, a: Moment, r: Outcome<Unit>, b: Moment) {
    && Quiet(a.log, b.log) && (a.calm ==> b.calm) && OthersKept(k, a, b)
    && (forall x :: x in a.g.acked && x != k ==> x in b.g.acked && b.g.acked[x] == a.g.acked[x])
    && (if r.Ok? then RecordOf(b.disk, k) == None && JournalFile(k) !in b.disk.names && b.g.abandoned <= a.g.abandoned
        else Kept(a, b, k) && b.g.acked == a.g.acked && b.g.abandoned <= a.g.abandoned + {k})
  }

  lemma GivenUp(k: Key, a: Moment, m: Moment, r: Outcome<Unit>, b: Moment)
    requires Quiet(a.log, m.log) && Quiet(m.log, b.log) && (a.calm ==> b.calm) && SameJournals(a.disk, m.disk) && SameBut(k, m.disk, b.disk)
    requires IsKey(k) && (m.g == a.g || m.g == StageDropped(a.g, k))
    requires if r.Ok? then JournalFile(k) !in b.disk.names && b.g == Forgotten(m.g, k)
             else b.g == m.g && RecordOf(b.disk, k) == RecordOf(m.disk, k)
    ensures GaveUp(k, a, r, b)
  {}

  /** The sweep gave up k's upload, or looked at it and went on. */
  lemma SweepGoesOn(k: Key, now: int, a: Moment, m: Moment, r: Outcome<Unit>, b: Moment)
    requires Quiet(a.log, m.log) && (a.calm ==> m.calm) && m.g == a.g && SameJournals(a.disk, m.disk) && IsKey(k)
    requires (b == m && r.Ok?) || (Stale(m.disk, k, now) && GaveUp(k, m, r, b))
    ensures WentOn(k, now, a, r, b)
  {}

  lemma GivingUpFrames(h: Hash, req: Request, a: Moment, gone: Outcome<Unit>, b: Moment)
    requires GaveUp(req.key, a, gone, b) && req.action.Discard?
    ensures Frames(h, req, a, if gone.Ok? then Ok(Reply(0, false)) else Err(gone.failure), b)
  {}

  /** The journal, or the journal with a commit noted in it. */
  predicate Marked(j: Journal, after: Option<Journal>) {
    after == Some(j) || (after.Some? && after.value == j.(committing := true, updated := after.value.updated))
  }

  /** Only a commit that knows the digest of the accepted chunks marks a journal for publication. */
  predicate MarkedRightly(h: Hash, req: Request, a: Disk, b: Disk) {
    Committing(b, req.key) && !Committing(a, req.key) ==>
      req.action.Commit? && req.digest == h.list(RecordOf(b, req.key).value.hashes)
  }

  /** Only a commit that knows the digest of what was accepted for its upload publishes, and exactly that. */
  ghost predicate Publishes(h: Hash, req: Request, a: Moment, b: Moment) {
    && a.log <= b.log
    && forall n :: |a.log| <= n < |b.log| && b.log[n].effect.Publish? ==>
      && req.action.Commit? && b.log[n].effect == Publish(req.key, req.replace, AcceptedAt(a, req.key))
      && req.digest == h.list(ChunkHashes(h, AcceptedAt(a, req.key)))
  }

  /** Nothing reported or accepted is taken back or made up, except that a discard that succeeds ends its
      own upload; and only a discard that fails may leave a journal without its bytes. */
  ghost predicate Frames(h: Hash, req: Request, a: Moment, r: Outcome<Reply>, b: Moment) {
    && Publishes(h, req, a, b) && (a.calm ==> b.calm)
    && OthersKept(req.key, a, b)
    && (r.Err? || req.action.Mkdir? ==> Refused(req, a, b))
    && MarkedRightly(h, req, a.disk, b.disk)
    && (forall x :: x in a.g.acked && !(x == req.key && req.action.Discard? && r.Ok?)
                    ==> x in b.g.acked && Grew(a.g.acked[x], b.g.acked[x]))
    && (forall x :: x in a.g.acked && x != req.key ==> b.g.acked[x] == a.g.acked[x])
    && b.g.abandoned <= a.g.abandoned + (if req.action.Discard? && r.Err? then {req.key} else {})
  }

  lemma FramesFrom(h: Hash, req: Request, a: Moment, m: Moment, r: Outcome<Reply>, b: Moment)
    requires Frames(h, req, m, r, b) && Onward(h, req, a, m) && MarkedRightly(h, req, a.disk, b.disk)
    ensures Frames(h, req, a, r, b)
  {}

  lemma RefusedFrames(h: Hash, req: Request, a: Moment, b: Moment, f: Failure)
    requires Onward(h, req, a, b) && MarkedRightly(h, req, a.disk, b.disk)
    ensures Frames(h, req, a, Err(f), b)
  {}

  /** A journal saved and reported. */
  lemma SavedFrames(h: Hash, req: Request, a: Moment, r: Outcome<Reply>, b: Moment, acc: seq<byte>, ack: Ack)
    requires Quiet(a.log, b.log) && (a.calm ==> b.calm) && r.Ok? && !req.action.Mkdir?
    requires OthersKept(req.key, a, b) && (Committing(b.disk, req.key) ==> Committing(a.disk, req.key))
    requires b.g.abandoned == a.g.abandoned && b.g.accepted == a.g.accepted[req.key := acc]
    requires b.g.acked == a.g.acked[req.key := ack] && (req.key in a.g.acked ==> Grew(a.g.acked[req.key], ack))
    ensures Frames(h, req, a, r, b)
  {}

  /** The bytes accepted for an upload, after a request that found these accepted. */
  function Extended(req: Request, before: seq<byte>, committed: bool): seq<byte> {
    if req.action.Write? && !committed && req.data.Some? && req.offset >= |before| then before + req.data.value else before
  }

  function AcceptedAt(m: Moment, k: Key): seq<byte> {
    if RecordOf(m.disk, k).Some? && k in m.g.accepted then m.g.accepted[k] else []
  }

  predicate CommittedAt(d: Disk, k: Key) { RecordOf(d, k).Some? && RecordOf(d, k).value.committed }

  /** The reply is the journal's, of the upload of size bytes to p, and stays on record; a committed
      upload's destination was seen to hold exactly the journal's chunks. */
  ghost predicate Reported(h: Hash, m: Moment, k: Key, p: Path, size: int, reply: Reply) {
    && RecordOf(m.disk, k).Some?
    && var j := RecordOf(m.disk, k).value;
    && j.path == p && j.size == size && j.offset == reply.offset && j.committed == reply.committed
    && k in m.g.acked && m.g.acked[k] == Ack(reply.offset, reply.committed) && k in m.g.accepted
    && (reply.committed ==> HoldsSince(h, m.log, 0, PublicationOf(k, j)))
  }

  /** j is the journal of the same file as before, no step taken back. */
  predicate Resumes(before: Journal, j: Journal) {
    j.path == before.path && j.size == before.size && (before.committing ==> j.committing)
  }

  /** What an upload's reply says when it is no error; from is how far the log was when the request came. */
  ghost predicate Reports(h: Hash, req: Request, p: Path, from: nat, a: Moment, reply: Reply, b: Moment) {
    var k := req.key;
    if req.action.Discard? then JournalFile(k) !in b.disk.names
    else if RecordOf(b.disk, k) == None then
      reply == Reply(0, false) && (req.action.Stat? || req.action.Touch?) && RecordOf(a.disk, k) == None && k !in a.g.acked
    else
      && Reported(h, b, k, p, req.size, reply)
      && (RecordOf(a.disk, k).Some? ==> Resumes(RecordOf(a.disk, k).value, RecordOf(b.disk, k).value))
      && (k in a.g.acked ==> Grew(a.g.acked[k], Ack(reply.offset, reply.committed)))
      && (req.action.Commit? ==> reply.committed)
      && (req.action.Write? && !reply.committed ==> ChunkIn(h, req, RecordOf(b.disk, k).value))
      && b.g.accepted[k] == Extended(req, AcceptedAt(a, k), reply.committed)
      && (reply.committed && !CommittedAt(a.disk, k) ==>
            HoldsSince(h, b.log, from, PublicationOf(k, RecordOf(b.disk, k).value)))
  }

  /** Without faults the reply is determined by what the request finds. */
  ghost predicate Exact(h: Hash, req: Request, a: Disk, j: Journal, r: Outcome<Reply>, b: Disk)
    requires |j.path| > 0 && req.offset >= 0
  {
    if WasPublishing(a, j) then
      if !Holds(h, a, PublicationOf(req.key, j)) then r == Err(Code(SOURCE_CHANGED))
      else r == Ok(if req.action.Discard? then Reply(0, false) else Reply(j.size, true))
    else if req.action.Discard? then r == Ok(Reply(0, false)) && RecordOf(b, req.key) == None
    else if req.action.Commit? && !j.committed then
      r == if CommitAllowed(a, h, req, j) then Ok(Reply(j.size, true)) else Err(CommitRefused(a, h, req, j).value)
    else if req.action.Write? && !j.committed then WroteTo(h, req, j, a, r, b)
    else r == Ok(Reply(j.offset, j.committed))
  }

  /** A committed upload's destination is the whole file, or a link. */
  ghost predicate Arrived(h: Hash, d: Disk, j: Journal) {
    NodeAt(d, j.path).Some?
    && if FileAt(d, j.path).Some?
       then |FileAt(d, j.path).value| == j.size && ChunkHashes(h, FileAt(d, j.path).value) == j.hashes
       else NodeAt(d, j.path).value.Symlink?
  }

  lemma HeldArrives(h: Hash, d: Disk, k: Key, j: Journal)
    requires Holds(h, d, PublicationOf(k, j))
    ensures Arrived(h, d, j)
  {}

  lemma ArrivedStays(h: Hash, a: Disk, b: Disk, j: Journal)
    requires Arrived(h, a, j) && SameAt(a, b, j.path)
    ensures Arrived(h, b, j) && LinkAt(a, j.path) == LinkAt(b, j.path)
  {}

  /** Between a and m the request only looked around, began its upload or noted a commit. */
  ghost predicate Onward(h: Hash, req: Request, a: Moment, m: Moment) {
    && Publishes(h, req, a, m) && (a.calm ==> m.calm)
    && m.g.acked == a.g.acked && m.g.abandoned == a.g.abandoned
    && OthersKept(req.key, a, m) && Refused(req, a, m)
  }

  lemma LookingIsOnward(h: Hash, req: Request, a: Moment, m: Moment)
    requires Quiet(a.log, m.log) && (a.calm ==> m.calm) && m.g == a.g.(proven := m.g.proven) && SameJournals(a.disk, m.disk) && IsKey(req.key)
    ensures Onward(h, req, a, m) && CommittedAt(m.disk, req.key) == CommittedAt(a.disk, req.key)
    ensures Committing(m.disk, req.key) == Committing(a.disk, req.key)
  {}

  lemma LookingFrames(h: Hash, req: Request, a: Moment, r: Outcome<Reply>, m: Moment)
    requires Quiet(a.log, m.log) && (a.calm ==> m.calm) && m.g == a.g.(proven := m.g.proven) && SameJournals(a.disk, m.disk)
    requires IsKey(req.key) && (r.Err? || req.action.Mkdir?)
    ensures Frames(h, req, a, r, m)
  {}

  lemma LookingThenOnward(h: Hash, req: Request, a: Moment, m: Moment, b: Moment)
    requires Quiet(a.log, m.log) && (a.calm ==> m.calm) && m.g == a.g && SameJournals(a.disk, m.disk) && IsKey(req.key)
    requires Onward(h, req, m, b)
    ensures Onward(h, req, a, b)
  {}

  lemma BeginningIsOnward(h: Hash, req: Request, a: Moment, m: Moment, j: Journal)
    requires Quiet(a.log, m.log) && (a.calm ==> m.calm) && SameBut(req.key, a.disk, m.disk) && IsKey(req.key)
    requires m.g == a.g.(accepted := a.g.accepted[req.key := []]) && RecordOf(a.disk, req.key) == None
    requires RecordOf(m.disk, req.key) == Some(j) && j == Begun(req, j.updated) && req.action.Write?
    ensures Onward(h, req, a, m)
  {}

  lemma AnswerFrom(h: Hash, req: Request, p: Path, from: nat, a: Moment, m: Moment, r: Outcome<Reply>, b: Moment)
    requires Onward(h, req, a, m) && (Committing(m.disk, req.key) ==> Committing(a.disk, req.key))
    ensures Frames(h, req, m, r, b) ==> Frames(h, req, a, r, b)
    ensures r.Ok? && Reports(h, req, p, from, m, r.value, b) ==> Reports(h, req, p, from, a, r.value, b)
  {}

  /** Every name is in the root or in a directory. */
  ghost predicate Tree(d: Disk) { forall p :: p in d.names && |p| > 1 ==> NodeAt(d, Parent(p)) == Some(Directory) }

  /** What makes the reply of a commit a true one. */
  lemma CommitReports(h: Hash, req: Request, p: Path, from: nat, a: Moment, reply: Reply, b: Moment)
    requires Frames(h, req, a, Ok(reply), b) && req.action.Commit? && reply.committed && from <= |a.log|
    requires Reported(h, b, req.key, p, req.size, reply)
    requires RecordOf(a.disk, req.key).Some? && Resumes(RecordOf(a.disk, req.key).value, RecordOf(b.disk, req.key).value)
    requires b.g.accepted[req.key] == AcceptedAt(a, req.key)
    requires HoldsSince(h, b.log, |a.log|, PublicationOf(req.key, RecordOf(b.disk, req.key).value))
    ensures Reports(h, req, p, from, a, reply, b)
  {}

  predicate LinkAt(d: Disk, p: Path) { NodeAt(d, p).Some? && NodeAt(d, p).value.Symlink? }

  /** The path transferNoLinks is asked about. */
  function Checked(req: Request, p: Path): Path
    requires |p| > 0
  {
    if req.action.Stat? then Parent(p) else p
  }

  /** On a tree, a link on the way is always found. */
  lemma LinkBlocks(d: Disk, p: Path)
    requires Tree(d) && |p| > 0 && LinkAt(d, p)
    ensures Blocked(d, p)
  {
    assert p[..|p|] == p;
    assert !PlainComponent(d, p, |p| - 1);
    forall m | 0 <= m < |p| - 1 ensures PlainComponent(d, p, m) { AboveIsDirectory(d, p, m + 1); }
    assert BlockedAt(d, p, |p| - 1);
  }

  lemma {:induction false} AboveIsDirectory(d: Disk, p: Path, n: nat)
    requires Tree(d) && p in d.names && 0 < n < |p|
    ensures NodeAt(d, p[..n]) == Some(Directory)
    decreases |p|
  {
    if n < |p| - 1 {
      AboveIsDirectory(d, Parent(p), n);
      assert Parent(p)[..n] == p[..n];
    }
  }

  /** Without faults, a request that finds its journal gets the exact reply; one that newly says Committed
      leaves the whole file at the destination, or what was a link there already. */
  ghost predicate Resumed(h: Hash, req: Request, p: Path, a: Disk, r: Outcome<Reply>, b: Disk)
    requires |p| > 0 && req.offset >= 0
  {
    HasState(a) && RecordOf(a, req.key).Some? ==>
      |RecordOf(a, req.key).value.path| > 0 && Checks(h, req, p, RecordOf(a, req.key).value, a, r, b)
  }

  ghost predicate Checks(h: Hash, req: Request, p: Path, j: Journal, a: Disk, r: Outcome<Reply>, b: Disk)
    requires |j.path| > 0 && req.offset >= 0
  {
    && (if j.path == p && j.size == req.size then Exact(h, req, a, j, r, b) else r == Err(Code(SOURCE_CHANGED)))
    && (!j.committed && !req.action.Discard? && r.Ok? && r.value.committed ==>
          j.path == p && CommittedAt(b, req.key) && RecordOf(b, req.key).value.path == p
          && Arrived(h, b, RecordOf(b, req.key).value) && LinkAt(b, p) == LinkAt(a, p))
  }

  /** Without faults, a request that finds no journal: a write at offset 0 begins the upload, and if its chunk
      is legal and undamaged and the directory is there, it is written; there is nothing to tell, touch or
      discard; everything else comes too early. */
  ghost predicate Began(h: Hash, req: Request, p: Path, a: Disk, r: Outcome<Reply>, b: Disk)
    requires |p| > 0 && req.offset >= 0
  {
    RecordOf(a, req.key) == None ==>
      && Untouched(a, b)
      && if !StateReady(a) then r == Err(Code(STATE)) && b == a
         else if req.action.Stat? || req.action.Touch? || req.action.Discard? then
           r == Ok(Reply(0, false)) && RecordOf(b, req.key) == None && HasState(b)
         else if !req.action.Write? || req.offset != 0 then
           r == Err(Code(OFFSET)) && RecordOf(b, req.key) == None && HasState(b)
         else HasState(b) && FirstWrite(h, req, p, a, r, b)
  }

  ghost predicate FirstWrite(h: Hash, req: Request, p: Path, a: Disk, r: Outcome<Reply>, b: Disk)
    requires |p| > 0 && req.offset == 0
  {
    RecordOf(b, req.key).Some?
    && var j, t := RecordOf(b, req.key).value, RecordOf(b, req.key).value.updated;
    if req.data.None? || !ChunkAllowed(req.size, 0, |req.data.value|) then r == Err(Code(CHUNK_CODE)) && j == Begun(req, t)
    else if h.chunk(req.data.value) != req.digest then r == Err(Code(DIGEST)) && j == Begun(req, t)
    else if !IsDirectory(a, Parent(p)) then r == Err(NotExist) && j == Begun(req, t)
    else
      var data := req.data.value;
      && r == Ok(Reply(|data|, false))
      && j == Journal(1, req.key, p, req.size, |data|, if data == [] then [] else [req.digest], false, false, t)
      && FileAt(b, StageIn(req.key, Parent(p))) == Some(data)
  }

  /** What finding no journal comes to without faults, the protocol's directory being there. */
  ghost predicate FoundNone(req: Request, p: Path, a: Disk, loaded: Outcome<Journal>, none: bool, m: Disk)
    requires |p| > 0
  {
    && Untouched(a, m)
    && if req.action.Stat? || req.action.Touch? || req.action.Discard? then none && RecordOf(m, req.key) == None
       else if !req.action.Write? || req.offset != 0 then !none && loaded == Err(Code(OFFSET)) && RecordOf(m, req.key) == None
       else
         && !none && loaded.Ok? && loaded.value == Begun(req, loaded.value.updated)
         && RecordOf(m, req.key) == Some(loaded.value) && StageIn(req.key, Parent(p)) !in m.names
  }

  lemma FoundIsAnswered(h: Hash, req: Request, p: Path, a: Disk, loaded: Outcome<Journal>, none: bool, m: Disk, r: Outcome<Reply>, b: Disk)
    requires p == TransferPath(req.path) && AcceptedPath(p) && req.offset >= 0 && 0 <= req.size && |p| > 0
    requires if none || loaded.Err? then b == m && r == (if none then Ok(Reply(0, false)) else Err(loaded.failure))
             else |loaded.value.path| > 0 && Checks(h, req, p, loaded.value, m, r, b) && (HasState(m) ==> HasState(b))
    requires !StateReady(a) ==> !none && loaded == Err(Code(STATE)) && m == a
    requires StateReady(a) && RecordOf(a, req.key) == None ==> HasState(m) && FoundNone(req, p, a, loaded, none, m)
    requires HasState(a) && RecordOf(a, req.key).Some? ==>
      !none && loaded.Ok? && m == a && RecordOf(a, req.key) == Some(loaded.value)
    ensures Resumed(h, req, p, a, r, b) && Began(h, req, p, a, r, b)
  {
    if RecordOf(a, req.key) == None && StateReady(a) && !none && loaded.Ok? { BegunIsFirst(h, req, p, a, m, r, b); }
  }

  /** The reply to a request that finds no journal and needs none. */
  lemma NothingToTell(h: Hash, req: Request, p: Path, from: nat, a: Moment, m: Moment)
    requires Onward(h, req, a, m) && Inv(a.disk, a.g, h) && Inv(m.disk, m.g, h) && IsKey(req.key)
    requires JournalFile(req.key) !in m.disk.names && (req.action.Stat? || req.action.Touch? || req.action.Discard?)
    ensures Frames(h, req, a, Ok(Reply(0, false)), m) && Reports(h, req, p, from, a, Reply(0, false), m)
  {
    assert KeyInv(a.disk, a.g, h, req.key) && KeyInv(m.disk, m.g, h, req.key);
  }

  /** A journal that was just begun is written to as Began says. */
  lemma BegunIsFirst(h: Hash, req: Request, p: Path, a: Disk, m: Disk, r: Outcome<Reply>, b: Disk)
    requires p == TransferPath(req.path) && AcceptedPath(p) && req.offset == 0 && 0 <= req.size
    requires Untouched(a, m) && RecordOf(m, req.key).Some?
    requires RecordOf(m, req.key).value == Begun(req, RecordOf(m, req.key).value.updated) && StageIn(req.key, Parent(p)) !in m.names
    requires WroteTo(h, req, RecordOf(m, req.key).value, m, r, b)
    ensures FirstWrite(h, req, p, a, r, b) && Untouched(a, b)
  {
    AcceptedNotReserved(p);
    assert Parent(p) == p[..|p| - 1];
    assert SameAt(a, m, Parent(p));
    forall q | !Reserved(q) ensures SameAt(a, b, q) { assert SameAt(a, m, q) && SameAt(m, b, q); }
    var j := RecordOf(m, req.key).value;
    if ChunkFits(h, req, j) {
      var data := req.data.value;
      assert Overlay([], 0, data) == data by { assert Overlay([], 0, data)[..|data|] == Overlay([], 0, data)[0..|data|]; }
    }
  }

  /** Without faults: a request whose way is blocked changes nothing; mkdir makes the directory wherever one
      can be; a request that finds its journal gets the exact reply, and one that newly says Committed leaves
      the whole file at the destination itself, unless it is a stat and there is a link. */
  ghost predicate CalmReply(h: Hash, req: Request, p: Path, a: Moment, r: Outcome<Reply>, b: Moment)
    requires |p| > 0 && req.offset >= 0
  {
    && (forall n :: 0 <= n < |Checked(req, p)| && BlockedAt(a.disk, Checked(req, p), n) ==>
          b.disk == a.disk && r == Err(Code(if LinkAt(a.disk, Checked(req, p)[..n + 1]) then LINK else TYPE_CONFLICT)))
    && (req.action.Mkdir? && !Blocked(a.disk, p) ==> Made(p, a.disk, r, b.disk))
    && (!req.action.Mkdir? && !Blocked(a.disk, Checked(req, p)) ==>
          && Resumed(h, req, p, a.disk, r, b.disk) && Began(h, req, p, a.disk, r, b.disk)
          && (HasState(a.disk) && Tree(a.disk) && Uncommitted(a.disk, req.key)
              && !req.action.Discard? && r.Ok? && r.value.committed ==>
                (FileAt(b.disk, p).Some? <==> !(req.action.Stat? && LinkAt(a.disk, p)))))
  }

  ghost predicate Made(p: Path, a: Disk, r: Outcome<Reply>, b: Disk) {
    if NodeAt(a, p).Some? && !IsDirectory(a, p) then r == Err(Code(TYPE_CONFLICT)) && b == a
    else if Makeable(a, p) then r == Ok(Reply(0, true)) && PlainPath(b, p) && IsDirectory(b, p)
    else r == Err(Io)
  }

  predicate Uncommitted(d: Disk, k: Key) { RecordOf(d, k).Some? && !RecordOf(d, k).value.committed }

  lemma ResumedIsExact(h: Hash, req: Request, p: Path, a: Moment, r: Outcome<Reply>, b: Moment)
    requires |p| > 0 && req.offset >= 0 && Resumed(h, req, p, a.disk, r, b.disk) && Began(h, req, p, a.disk, r, b.disk)
    requires !req.action.Mkdir? && !Blocked(a.disk, Checked(req, p))
    ensures CalmReply(h, req, p, a, r, b)
  {
    if Tree(a.disk) && LinkAt(a.disk, p) && !req.action.Stat? { LinkBlocks(a.disk, p); }
    forall n | 0 <= n < |Checked(req, p)| ensures !BlockedAt(a.disk, Checked(req, p), n) {}
  }

  /** The whole contract of a request. */
  ghost predicate Answered(h: Hash, req: Request, a: Moment, r: Outcome<Reply>, b: Moment) {
    && Frames(h, req, a, r, b) && Inv(b.disk, b.g, h)
    && if !RequestOk(req) then r == Err(Code(INVALID)) && b == a
       else
         var p := TransferPath(req.path);
         if p == [] then r == Err(Code(PATH)) && b == a
         else (r.Ok? && !req.action.Mkdir? ==> Reports(h, req, p, |a.log|, a, r.value, b))
              && (a.calm ==> CalmReply(h, req, p, a, r, b))
  }

  /** Without faults, a request that makes a journal Committed leaves, byte for byte, the accepted chunks
      in a regular file at its path; except a stat where there is a link, which leaves none. */
  lemma NewlyCommittedIsWhole(h: Hash, req: Request, a: Moment, r: Outcome<Reply>, b: Moment)
    requires Answered(h, req, a, r, b) && a.calm && Injective(h.chunk) && Tree(a.disk)
    requires HasState(a.disk) && Uncommitted(a.disk, req.key)
    requires !req.action.Mkdir? && !req.action.Discard? && r.Ok? && r.value.committed
    ensures var p := TransferPath(req.path);
      if req.action.Stat? && LinkAt(a.disk, p) then FileAt(b.disk, p) == None
      else req.key in b.g.accepted && FileAt(b.disk, p) == Some(b.g.accepted[req.key])
  {
    var p := TransferPath(req.path);
    CommittedArrived(h, req, p, a, r, b);
    assert KeyInv(b.disk, b.g, h, req.key);
    if FileAt(b.disk, p).Some? { WholeIsAccepted(b.disk, b.g, h, req.key, FileAt(b.disk, p).value); }
  }

  lemma CommittedArrived(h: Hash, req: Request, p: Path, a: Moment, r: Outcome<Reply>, b: Moment)
    requires |p| > 0 && req.offset >= 0 && CalmReply(h, req, p, a, r, b) && Tree(a.disk) && HasState(a.disk) && Uncommitted(a.disk, req.key)
    requires !req.action.Mkdir? && !req.action.Discard? && r.Ok? && r.value.committed
    ensures CommittedAt(b.disk, req.key) && RecordOf(b.disk, req.key).value.path == p && Arrived(h, b.disk, RecordOf(b.disk, req.key).value)
    ensures FileAt(b.disk, p).Some? <==> !(req.action.Stat? && LinkAt(a.disk, p))
  {
    if n :| 0 <= n < |Checked(req, p)| && BlockedAt(a.disk, Checked(req, p), n) { assert false; }
  }

  // ---- runs ----

  datatype Command = Serve(req: Request) | Sweep(listing: seq<string>, now: int) | Restart

  datatype Answer = Replied(reply: Outcome<Reply>) | Cleaned(result: Outcome<Unit>) | Restarted

  /** k's journal is a day old. */
  predicate Stale(d: Disk, k: Key, now: int) { RecordOf(d, k).Some? && now - RecordOf(d, k).value.updated >= TTL }

  /** k's upload was listed, a day old, and is gone. */
  predicate SweptAway(listing: seq<string>, now: int, a: Moment, b: Moment, k: Key) {
    Listed(listing, k) && Stale(a.disk, k, now) && RecordOf(b.disk, k) == None
  }

  /** What the sweep may do at k's entry: only a day-old upload is ended, and only a failure may leave its
      journal without its bytes. */
  ghost predicate WentOn(k: Key, now: int, a: Moment, r: Outcome<Unit>, b: Moment) {
    && Quiet(a.log, b.log) && (a.calm ==> b.calm)
    && OthersKept(k, a, b)
    && (Kept(a, b, k) || (Stale(a.disk, k, now) && RecordOf(b.disk, k) == None))
    && (forall x :: x in a.g.acked && !(x == k && Stale(a.disk, k, now)) ==> x in b.g.acked && b.g.acked[x] == a.g.acked[x])
    && b.g.abandoned <= a.g.abandoned + (if r.Err? && Stale(a.disk, k, now) then {k} else {})
  }

  /** What a cleanup that has met no failure so far has left. */
  ghost predicate Sweeping(listing: seq<string>, now: int, a: Moment, b: Moment) {
    && Quiet(a.log, b.log) && (a.calm ==> b.calm)
    && (forall x :: IsKey(x) ==> Kept(a, b, x) || SweptAway(listing, now, a, b, x))
    && (forall x :: x in a.g.acked && !(Listed(listing, x) && Stale(a.disk, x, now)) ==>
          x in b.g.acked && b.g.acked[x] == a.g.acked[x])
    && b.g.abandoned <= a.g.abandoned
  }

  lemma StillSweeping(listing: seq<string>, now: int, a: Moment, k: Key, m: Moment, r: Outcome<Unit>, b: Moment)
    requires Sweeping(listing, now, a, m) && WentOn(k, now, m, r, b) && Listed(listing, k) && IsKey(k)
    ensures if r.Err? && Stale(a.disk, k, now)
            then Sweeping(listing, now, a, b.(g := b.g.(abandoned := b.g.abandoned - {k})))
            else Sweeping(listing, now, a, b)
  {
    assert Stale(m.disk, k, now) ==> Stale(a.disk, k, now) by { assert Kept(a, m, k) || SweptAway(listing, now, a, m, k); }
    forall x | IsKey(x) ensures Kept(a, b, x) || SweptAway(listing, now, a, b, x) {
      assert Kept(a, m, x) || SweptAway(listing, now, a, m, x);
    }
  }

  /** The whole contract of a cleanup. */
  ghost predicate CleanedUp(h: Hash, listing: seq<string>, now: int, a: Moment, r: Outcome<Unit>, b: Moment) {
    && Inv(b.disk, b.g, h)
    && (|| Sweeping(listing, now, a, b)
        || (r.Err? && exists k :: Listed(listing, k) && Stale(a.disk, k, now)
                                  && Sweeping(listing, now, a, b.(g := b.g.(abandoned := b.g.abandoned - {k})))))
    && (a.calm && HasState(a.disk) ==> r.Ok? && b.disk == Swept(a.disk, listing, now))
  }

  ghost predicate Did(h: Hash, c: Command, a: Moment, r: Answer, b: Moment) {
    match c
    case Serve(req) => r.Replied? && Answered(h, req, a, r.reply, b)
    case Sweep(listing, now) => r.Cleaned? && CleanedUp(h, listing, now, a, r.result, b)
    case Restart => r.Restarted? && b == a.(calm := b.calm)
  }

  /** The i-th command was answered as its contract says. */
  ghost predicate DidAt(h: Hash, commands: seq<Command>, moments: seq<Moment>, answers: seq<Answer>, i: nat)
    requires i < |commands| && i < |answers| && i + 1 < |moments|
  {
    Did(h, commands[i], moments[i], answers[i], moments[i + 1])
  }

  ghost predicate IsRun(h: Hash, commands: seq<Command>, moments: seq<Moment>, answers: seq<Answer>) {
    && |moments| == |commands| + 1 && |answers| == |commands|
    && (forall i :: 0 <= i < |moments| ==> Inv(moments[i].disk, moments[i].g, h))
    && forall i {:trigger DidAt(h, commands, moments, answers, i)} :: 0 <= i < |commands| ==> DidAt(h, commands, moments, answers, i)
  }

  /** The command may end upload k: a discard of it that succeeds, or a sweep that finds it a day old. */
  predicate Ends(c: Command, m: Moment, r: Answer, k: Key) {
    match c
    case Serve(req) => req.key == k && req.action.Discard? && r.Replied? && r.reply.Ok?
    case Sweep(listing, now) => Listed(listing, k) && Stale(m.disk, k, now)
    case Restart => false
  }

  lemma {:induction false} AckSurvives(h: Hash, commands: seq<Command>, moments: seq<Moment>, answers: seq<Answer>,
                                       from: nat, upto: nat, k: Key)
    requires IsRun(h, commands, moments, answers) && from <= upto <= |commands|
    requires k in moments[from].g.acked
    requires forall n :: from <= n < upto ==> !Ends(commands[n], moments[n], answers[n], k)
    ensures k in moments[upto].g.acked && Grew(moments[from].g.acked[k], moments[upto].g.acked[k])
    ensures moments[from].log <= moments[upto].log
    decreases upto - from
  {
    if from < upto {
      AckSurvives(h, commands, moments, answers, from, upto - 1, k);
      var n := upto - 1;
      assert DidAt(h, commands, moments, answers, n) && !Ends(commands[n], moments[n], answers[n], k);
    }
  }

  /** The reply command i got about upload k; None when it got none. */
  function ReplyOf(c: Command, r: Answer, k: Key): Option<Reply> {
    if c.Serve? && c.req.key == k && !c.req.action.Mkdir? && !c.req.action.Discard? && r.Replied? && r.reply.Ok?
    then Some(r.reply.value) else None
  }

  /** Over any run, until upload k is discarded or swept, the offsets its replies report never go back,
      and once Committed it stays so. */
  lemma OffsetsNeverGoBack(h: Hash, commands: seq<Command>, moments: seq<Moment>, answers: seq<Answer>, i: nat, j: nat, k: Key)
    requires IsRun(h, commands, moments, answers) && i < j < |commands|
    requires ReplyOf(commands[i], answers[i], k).Some? && ReplyOf(commands[j], answers[j], k).Some?
    requires forall n :: i < n < j ==> !Ends(commands[n], moments[n], answers[n], k)
    ensures var first, second := ReplyOf(commands[i], answers[i], k).value, ReplyOf(commands[j], answers[j], k).value;
      first.offset <= second.offset && (first.committed ==> second.committed)
  {
    assert DidAt(h, commands, moments, answers, i);
    assert DidAt(h, commands, moments, answers, j);
    assert KeyInv(moments[j + 1].disk, moments[j + 1].g, h, k);
    if ReplyOf(commands[i], answers[i], k).value != Reply(0, false) {
      AckSurvives(h, commands, moments, answers, i + 1, j, k);
    }
  }

  lemma {:induction false} LogGrows(h: Hash, commands: seq<Command>, moments: seq<Moment>, answers: seq<Answer>, from: nat, upto: nat)
    requires IsRun(h, commands, moments, answers) && from <= upto <= |commands|
    ensures moments[from].log <= moments[upto].log
    decreases upto - from
  {
    if from < upto {
      LogGrows(h, commands, moments, answers, from, upto - 1);
      assert DidAt(h, commands, moments, answers, upto - 1);
    }
  }

  // ---- what the client sent ----

  /** The command was a write of a chunk of upload k that was answered Ok. */
  predicate Wrote(c: Command, r: Answer, k: Key) {
    && c.Serve? && c.req.key == k && c.req.action.Write? && c.req.data.Some?
    && r.Replied? && r.reply.Ok? && !r.reply.value.committed
  }

  /** The data of all chunks of upload k answered Ok before the n-th command, in their order, replays left
      out, since k last had no journal. */
  function Sent(commands: seq<Command>, moments: seq<Moment>, answers: seq<Answer>, n: nat, k: Key): (r: seq<byte>)
    requires n <= |commands| == |answers| < |moments|
  {
    if n == 0 || RecordOf(moments[n].disk, k) == None then []
    else
      var before := Sent(commands, moments, answers, n - 1, k);
      var c := commands[n - 1];
      if Wrote(c, answers[n - 1], k) && c.req.offset >= |before| then before + c.req.data.value else before
  }

  /** What the agent takes for accepted is what the client sent, whatever failed and whoever else uploads. */
  lemma {:induction false} AcceptedIsSent(h: Hash, commands: seq<Command>, moments: seq<Moment>, answers: seq<Answer>, n: nat, k: Key)
    requires IsRun(h, commands, moments, answers) && n <= |commands| && IsKey(k) && RecordOf(moments[0].disk, k) == None
    ensures AcceptedAt(moments[n], k) == Sent(commands, moments, answers, n, k)
  {
    if n > 0 {
      AcceptedIsSent(h, commands, moments, answers, n - 1, k);
      assert DidAt(h, commands, moments, answers, n - 1);
      if RecordOf(moments[n].disk, k).Some? {
        AcceptedStep(h, commands[n - 1], moments[n - 1], answers[n - 1], moments[n], k);
      }
    }
  }

  lemma AcceptedStep(h: Hash, c: Command, a: Moment, r: Answer, b: Moment, k: Key)
    requires Did(h, c, a, r, b) && IsKey(k) && RecordOf(b.disk, k).Some?
    ensures AcceptedAt(b, k) == if Wrote(c, r, k) && c.req.offset >= |AcceptedAt(a, k)|
                                then AcceptedAt(a, k) + c.req.data.value else AcceptedAt(a, k)
  {
    match c
    case Serve(req) =>
    case Sweep(listing, now) => SweepSteps(h, listing, now, a, r.result, b, k);
    case Restart =>
  }

  lemma SweepSteps(h: Hash, listing: seq<string>, now: int, a: Moment, r: Outcome<Unit>, b: Moment, k: Key)
    requires CleanedUp(h, listing, now, a, r, b)
    ensures IsKey(k) ==> Kept(a, b, k) || SweptAway(listing, now, a, b, k)
    ensures Quiet(a.log, b.log)
  {
    if !Sweeping(listing, now, a, b) {
      var x :| Listed(listing, x) && Stale(a.disk, x, now)
               && Sweeping(listing, now, a, b.(g := b.g.(abandoned := b.g.abandoned - {x})));
      var b' := b.(g := b.g.(abandoned := b.g.abandoned - {x}));
      assert IsKey(k) ==> Kept(a, b', k) || SweptAway(listing, now, a, b', k);
    }
  }

  /** A chunk the journal accounts for is, byte for byte, at its place in the accepted bytes. */
  lemma FitsIsThere(h: Hash, d: Disk, g: History, req: Request, j: Journal, acc: seq<byte>)
    requires Consistent(d, g, h, req.key, j, acc) && ChunkIn(h, req, j) && Injective(h.chunk)
    ensures acc[req.offset..req.offset + |req.data.value|] == req.data.value
  {
    var i := req.offset / CHUNK;
    assert req.offset == CHUNK * i;
    if req.offset < j.offset {
      ChunkHashAt(h, acc, i);
      assert h.chunk(acc[CHUNK * i..Min(CHUNK * i + CHUNK, |acc|)]) == h.chunk(req.data.value);
    }
  }

  lemma {:induction false} ChunkHashAt(h: Hash, acc: seq<byte>, i: nat)
    requires CHUNK * i < |acc|
    ensures i < |ChunkHashes(h, acc)|
    ensures ChunkHashes(h, acc)[i] == h.chunk(acc[CHUNK * i..Min(CHUNK * i + CHUNK, |acc|)])
  {
    if i == 0 {
      assert acc[0..Min(CHUNK, |acc|)] == acc[..Min(CHUNK, |acc|)];
    } else {
      var rest, lo, hi := acc[CHUNK..], CHUNK * (i - 1), Min(CHUNK * i, |acc| - CHUNK);
      ChunkHashAt(h, rest, i - 1);
      SliceOfRest(acc, CHUNK, lo, hi);
    }
  }

  lemma SliceOfRest(s: seq<byte>, n: nat, lo: nat, hi: nat)
    requires lo <= hi && n + hi <= |s|
    ensures s[n..][lo..hi] == s[n + lo..n + hi]
  {}

  /** Upload k had a journal at every moment after w and up to n. */
  predicate Lives(moments: seq<Moment>, w: nat, n: nat, k: Key)
    requires n < |moments|
  {
    forall m :: w < m <= n ==> RecordOf(moments[m].disk, k).Some?
  }

  lemma {:induction false} SentGrows(commands: seq<Command>, moments: seq<Moment>, answers: seq<Answer>, w: nat, n: nat, k: Key)
    requires w <= n <= |commands| == |answers| < |moments| && Lives(moments, w, n, k)
    ensures Sent(commands, moments, answers, w, k) <= Sent(commands, moments, answers, n, k)
  {
    if w < n { SentGrows(commands, moments, answers, w, n - 1, k); }
  }

  lemma WriteIsAccepted(h: Hash, c: Command, a: Moment, r: Answer, b: Moment, k: Key)
    requires Did(h, c, a, r, b) && IsKey(k) && Inv(b.disk, b.g, h) && Injective(h.chunk)
    requires Wrote(c, r, k) && RecordOf(b.disk, k).Some?
    ensures 0 <= c.req.offset && c.req.offset + |c.req.data.value| <= |AcceptedAt(b, k)|
    ensures AcceptedAt(b, k)[c.req.offset..c.req.offset + |c.req.data.value|] == c.req.data.value
  {
    assert KeyInv(b.disk, b.g, h, k);
    FitsIsThere(h, b.disk, b.g, c.req, RecordOf(b.disk, k).value, b.g.accepted[k]);
  }

  lemma WroteThen(h: Hash, commands: seq<Command>, moments: seq<Moment>, answers: seq<Answer>, w: nat, k: Key)
    requires IsRun(h, commands, moments, answers) && w < |commands| && IsKey(k) && Injective(h.chunk)
    requires Wrote(commands[w], answers[w], k) && RecordOf(moments[w + 1].disk, k).Some?
    ensures var req := commands[w].req;
      && 0 <= req.offset && req.offset + |req.data.value| <= |AcceptedAt(moments[w + 1], k)|
      && AcceptedAt(moments[w + 1], k)[req.offset..req.offset + |req.data.value|] == req.data.value
  {
    assert DidAt(h, commands, moments, answers, w);
    WriteIsAccepted(h, commands[w], moments[w], answers[w], moments[w + 1], k);
  }

  /** Every chunk of upload k that was answered Ok, replays too, is at its offset in what was sent, until
      the upload ends. */
  lemma WritesArePlaced(h: Hash, commands: seq<Command>, moments: seq<Moment>, answers: seq<Answer>, w: nat, n: nat, k: Key)
    requires IsRun(h, commands, moments, answers) && IsKey(k) && RecordOf(moments[0].disk, k) == None && Injective(h.chunk)
    requires w < n <= |commands| && Wrote(commands[w], answers[w], k) && Lives(moments, w, n, k)
    ensures var content, req := Sent(commands, moments, answers, n, k), commands[w].req;
      && 0 <= req.offset && req.offset + |req.data.value| <= |content|
      && content[req.offset..req.offset + |req.data.value|] == req.data.value
  {
    WroteThen(h, commands, moments, answers, w, k);
    AcceptedIsSent(h, commands, moments, answers, w + 1, k);
    SentGrows(commands, moments, answers, w + 1, n, k);
  }

  /** Command c was a commit of upload k that knew the digest of content. */
  predicate Confirms(h: Hash, c: Command, k: Key, content: seq<byte>) {
    c.Serve? && c.req.key == k && c.req.action.Commit? && c.req.digest == h.list(ChunkHashes(h, content))
  }

  /** A journal is marked for publication only after a commit that knew the digest of what was sent. */
  lemma {:induction false} MarkedWasConfirmed(h: Hash, commands: seq<Command>, moments: seq<Moment>, answers: seq<Answer>, n: nat, k: Key)
      returns (c: nat)
    requires IsRun(h, commands, moments, answers) && n <= |commands| && IsKey(k)
    requires RecordOf(moments[0].disk, k) == None && Committing(moments[n].disk, k)
    ensures c < n && Confirms(h, commands[c], k, AcceptedAt(moments[n], k)) && Lives(moments, c, n, k)
  {
    c := n - 1;
    assert DidAt(h, commands, moments, answers, c);
    MarkedStep(h, commands[c], moments[c], answers[c], moments[n], k);
    if Committing(moments[c].disk, k) {
      c := MarkedWasConfirmed(h, commands, moments, answers, n - 1, k);
      LivesOn(moments, c, n, k);
    }
  }

  lemma LivesOn(moments: seq<Moment>, w: nat, n: nat, k: Key)
    requires 0 < n < |moments| && Lives(moments, w, n - 1, k) && RecordOf(moments[n].disk, k).Some?
    ensures Lives(moments, w, n, k)
  {}

  lemma MarkedStep(h: Hash, c: Command, a: Moment, r: Answer, b: Moment, k: Key)
    requires Did(h, c, a, r, b) && IsKey(k) && Committing(b.disk, k) && Inv(a.disk, a.g, h) && Inv(b.disk, b.g, h)
    ensures if Committing(a.disk, k) then AcceptedAt(b, k) == AcceptedAt(a, k) else Confirms(h, c, k, AcceptedAt(b, k))
  {
    assert KeyInv(b.disk, b.g, h, k) && KeyInv(a.disk, a.g, h, k);
    if c.Sweep? { SweepSteps(h, c.listing, c.now, a, r.result, b, k); }
    if Committing(a.disk, k) {
      AcceptedStep(h, c, a, r, b, k);
      SameSize(h, c, a, r, b, k);
      assert |AcceptedAt(a, k)| == |AcceptedAt(b, k)|;
    }
  }

  lemma SameSize(h: Hash, c: Command, a: Moment, r: Answer, b: Moment, k: Key)
    requires Did(h, c, a, r, b) && IsKey(k) && RecordOf(a.disk, k).Some? && RecordOf(b.disk, k).Some?
    ensures RecordOf(b.disk, k).value.size == RecordOf(a.disk, k).value.size
  {
    if c.Sweep? { SweepSteps(h, c.listing, c.now, a, r.result, b, k); }
  }

  /** Over any run, whatever is published was sent in full, and is published by a commit that knew its digest. */
  lemma {:induction false} PublishedWasSent(h: Hash, commands: seq<Command>, moments: seq<Moment>, answers: seq<Answer>, upto: nat, n: nat)
      returns (c: nat)
    requires IsRun(h, commands, moments, answers) && upto <= |commands|
    requires |moments[0].log| <= n < |moments[upto].log| && moments[upto].log[n].effect.Publish?
    requires RecordOf(moments[0].disk, moments[upto].log[n].effect.key) == None
    ensures c < upto
    ensures var k := moments[upto].log[n].effect.key;
      var content := Sent(commands, moments, answers, c, k);
      moments[upto].log[n].effect.accepted == content && Confirms(h, commands[c], k, content)
    decreases upto
  {
    c := upto - 1;
    assert DidAt(h, commands, moments, answers, c);
    if commands[c].Sweep? {
      SweepSteps(h, commands[c].listing, commands[c].now, moments[c], answers[c].result, moments[upto], Key("", ""));
    }
    assert moments[c].log <= moments[upto].log;
    if n < |moments[c].log| {
      c := PublishedWasSent(h, commands, moments, answers, upto - 1, n);
    } else {
      AcceptedIsSent(h, commands, moments, answers, c, commands[c].req.key);
    }
  }

  /** Over any run, whenever an upload is reported Committed, what the client had sent for it was the whole
      file, a commit of the client knew its digest, and there was a disk in that run on which the
      destination held it byte for byte. */
  lemma CommittedWasWhole(h: Hash, commands: seq<Command>, moments: seq<Moment>, answers: seq<Answer>, i: nat, k: Key)
    requires IsRun(h, commands, moments, answers) && i < |commands| && Injective(h.chunk)
    requires IsKey(k) && RecordOf(moments[0].disk, k) == None
    requires ReplyOf(commands[i], answers[i], k).Some? && ReplyOf(commands[i], answers[i], k).value.committed
    ensures var content := Sent(commands, moments, answers, i + 1, k);
      && |content| == commands[i].req.size
      && ReadOnce(moments[|commands|].log, TransferPath(commands[i].req.path), content)
      && exists c :: 0 <= c <= i && Confirms(h, commands[c], k, content) && Lives(moments, c, i + 1, k)
  {
    assert DidAt(h, commands, moments, answers, i);
    var m, p := moments[i + 1], TransferPath(commands[i].req.path);
    assert Reported(h, m, k, p, commands[i].req.size, answers[i].reply.value);
    WholeOnce(h, m, k, p, commands[i].req.size, answers[i].reply.value);
    LogGrows(h, commands, moments, answers, i + 1, |commands|);
    ReadOnceGrows(m.log, moments[|commands|].log, p, m.g.accepted[k]);
    AcceptedIsSent(h, commands, moments, answers, i + 1, k);
    assert KeyInv(m.disk, m.g, h, k);
    var c := MarkedWasConfirmed(h, commands, moments, answers, i + 1, k);
  }

  /** Some disk of the log shows content at path p. */
  ghost predicate ReadOnce(log: seq<Step>, p: Path, content: seq<byte>) {
    exists n :: 0 <= n < |log| && Reads(log[n].after, p, HOPS) == Some(content)
  }

  lemma ReadOnceGrows(log: seq<Step>, longer: seq<Step>, p: Path, content: seq<byte>)
    requires log <= longer && ReadOnce(log, p, content)
    ensures ReadOnce(longer, p, content)
  {
    var n :| 0 <= n < |log| && Reads(log[n].after, p, HOPS) == Some(content);
    assert longer[n] == log[n];
  }

  lemma WholeOnce(h: Hash, m: Moment, k: Key, p: Path, size: int, reply: Reply)
    requires Injective(h.chunk) && Inv(m.disk, m.g, h) && IsKey(k)
    requires Reported(h, m, k, p, size, reply) && reply.committed
    ensures ReadOnce(m.log, p, m.g.accepted[k])
  {
    var j := RecordOf(m.disk, k).value;
    var n :| 0 <= n < |m.log| && Holds(h, m.log[n].after, PublicationOf(k, j));
    assert KeyInv(m.disk, m.g, h, k);
    WholeIsAccepted(m.disk, m.g, h, k, Reads(m.log[n].after, p, HOPS).value);
  }

  /** The command was no discard of upload k, and no sweep over it, that was cut short. */
  predicate Uninterrupted(c: Command, r: Answer, k: Key) {
    match c
    case Serve(req) => !(req.key == k && req.action.Discard? && r.Replied? && r.reply.Err?)
    case Sweep(listing, _) => !(Listed(listing, k) && r.Cleaned? && r.result.Err?)
    case Restart => true
  }

  /** In a run in which no discard of upload k and no sweep over it was cut short, its staging file starts,
      until it is published, with exactly the bytes the journal accounts for, through all other crashes. */
  lemma {:induction false} StagingIsTrue(h: Hash, commands: seq<Command>, moments: seq<Moment>, answers: seq<Answer>, i: nat, k: Key)
    requires IsRun(h, commands, moments, answers) && i <= |commands| && IsKey(k)
    requires k !in moments[0].g.abandoned
    requires forall n :: 0 <= n < i ==> Uninterrupted(commands[n], answers[n], k)
    ensures k !in moments[i].g.abandoned
    ensures RecordOf(moments[i].disk, k).Some? && k !in moments[i].g.published ==>
      var d, j := moments[i].disk, RecordOf(moments[i].disk, k).value;
      && |j.path| > 0 && k in moments[i].g.accepted && ChunkHashes(h, moments[i].g.accepted[k]) == j.hashes
      && (j.offset > 0 ==> FileAt(d, StageOf(j)).Some?)
      && (FileAt(d, StageOf(j)).Some? ==> |FileAt(d, StageOf(j)).value| <= j.size
                                          && 0 <= j.offset <= |FileAt(d, StageOf(j)).value|
                                          && FileAt(d, StageOf(j)).value[..j.offset] == moments[i].g.accepted[k])
    decreases i
  {
    if i > 0 {
      StagingIsTrue(h, commands, moments, answers, i - 1, k);
      assert DidAt(h, commands, moments, answers, i - 1) && Uninterrupted(commands[i - 1], answers[i - 1], k);
    }
    if RecordOf(moments[i].disk, k).Some? && k !in moments[i].g.published {
      StageHoldsAccepted(moments[i].disk, moments[i].g, h, k);
    }
  }
}
