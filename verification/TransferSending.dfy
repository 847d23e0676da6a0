/** A whole upload, from a client's side. */
module TransferSending {
  import opened Prelude
  import opened TransferNames
  import opened TransferDisk
  import opened TransferSpec
  import opened TransferSteps
  import opened TransferAnswers
  import opened Transfer

  // While nothing fails and nobody else acts, sending a file's chunks in order and then the commit works.

  /** p is free, in a directory reached without links. */
  predicate FreePath(d: Disk, p: Path) {
    |p| > 0 && NodeAt(d, p) == None && forall n :: 0 < n < |p| ==> NodeAt(d, p[..n]) == Some(Directory)
  }

  /** Upload k of content to p has come as far as offset. */
  ghost predicate Sending(h: Hash, m: Moment, k: Key, p: Path, content: seq<byte>, offset: nat) {
    && m.calm && Inv(m.disk, m.g, h) && IsKey(k) && FreePath(m.disk, p) && offset <= |content|
    && if RecordOf(m.disk, k) == None then offset == 0 && StateReady(m.disk)
       else
         var j := RecordOf(m.disk, k).value;
         && HasState(m.disk) && j.path == p && j.size == |content| && j.offset == offset && !j.committing
         && k !in m.g.abandoned && AcceptedAt(m, k) == content[..offset] && FileAt(m.disk, StageIn(k, Parent(p))).Some?
  }

  function WriteOf(h: Hash, k: Key, path: string, content: seq<byte>, offset: nat): Request
    requires offset <= |content|
  {
    var data := content[offset..offset + Min(CHUNK, |content| - offset)];
    Request(Write, k, path, |content|, offset, Some(data), h.chunk(data), false)
  }

  function CommitOf(h: Hash, k: Key, path: string, content: seq<byte>): Request {
    Request(Commit, k, path, |content|, 0, None, h.list(ChunkHashes(h, content)), false)
  }

  lemma FreeIsNotBlocked(d: Disk, p: Path)
    requires FreePath(d, p)
    ensures !Blocked(d, p) && IsDirectory(d, Parent(p))
  {
    assert Parent(p) == p[..|p| - 1] && p[..|p|] == p;
    forall n | 0 <= n < |p| ensures !BlockedAt(d, p, n) {
      if n < |p| - 1 { assert NodeAt(d, p[..n + 1]) == Some(Directory); }
    }
  }

  lemma FreeStays(a: Disk, b: Disk, p: Path)
    requires FreePath(a, p) && AcceptedPath(p) && Untouched(a, b)
    ensures FreePath(b, p)
  {
    AcceptedNotReserved(p);
    assert p[..|p|] == p && SameAt(a, b, p);
    forall n | 0 < n < |p| ensures NodeAt(b, p[..n]) == Some(Directory) { assert SameAt(a, b, p[..n]); }
  }

  /** What the contract of a request says when nothing fails and its way is clear. */
  lemma CalmAnswer(h: Hash, req: Request, p: Path, a: Moment, r: Outcome<Reply>, b: Moment)
    requires Answered(h, req, a, r, b) && a.calm && RequestOk(req) && p == TransferPath(req.path) && FreePath(a.disk, p)
    requires req.action.Write? || req.action.Commit?
    ensures Resumed(h, req, p, a.disk, r, b.disk) && Began(h, req, p, a.disk, r, b.disk)
    ensures Frames(h, req, a, r, b) && Inv(b.disk, b.g, h) && (r.Ok? ==> Reports(h, req, p, |a.log|, a, r.value, b))
  {
    FreeIsNotBlocked(a.disk, p);
    assert !Blocked(a.disk, Checked(req, p));
  }

  /** The first chunk is taken. */
  lemma FirstIsTaken(h: Hash, a: Disk, k: Key, path: string, content: seq<byte>, r: Outcome<Reply>, b: Disk)
    requires |content| <= BYTE_LIMIT && FreePath(a, TransferPath(path)) && StateReady(a) && RecordOf(a, k) == None
    requires Began(h, WriteOf(h, k, path, content, 0), TransferPath(path), a, r, b)
    ensures Taken(k, TransferPath(path), content, Min(CHUNK, |content|), a, r, b)
  {
    FreeIsNotBlocked(a, TransferPath(path));
    assert FirstWrite(h, WriteOf(h, k, path, content, 0), TransferPath(path), a, r, b);
  }

  /** So is the next one. */
  lemma NextIsTaken(h: Hash, a: Disk, k: Key, path: string, content: seq<byte>, offset: nat, r: Outcome<Reply>, b: Disk)
    requires |content| <= BYTE_LIMIT && TransferPath(path) != [] && HasState(a) && (HasState(a) ==> HasState(b)) && RecordOf(a, k).Some?
    requires var j := RecordOf(a, k).value;
      j.key == k && j.path == TransferPath(path) && j.size == |content| && j.offset == offset && !j.committing && !j.committed
    requires offset % CHUNK == 0 && 0 < offset < |content| && FileAt(a, StageIn(k, Parent(TransferPath(path)))).Some?
    requires Resumed(h, WriteOf(h, k, path, content, offset), TransferPath(path), a, r, b)
    ensures Taken(k, TransferPath(path), content, offset + Min(CHUNK, |content| - offset), a, r, b)
  {
    var req, j := WriteOf(h, k, path, content, offset), RecordOf(a, k).value;
    assert ChunkFits(h, req, j) && StageOf(j) in a.names;
    assert WroteTo(h, req, j, a, r, b);
  }

  ghost predicate Taken(k: Key, p: Path, content: seq<byte>, end: nat, a: Disk, r: Outcome<Reply>, b: Disk)
    requires |p| > 0
  {
    && r == Ok(Reply(end, false)) && Untouched(a, b) && HasState(b) && RecordOf(b, k).Some?
    && var j := RecordOf(b, k).value;
    && j.path == p && j.size == |content| && j.offset == end && !j.committing && FileAt(b, StageIn(k, Parent(p))).Some?
  }

  /** What the agent holds then. */
  lemma TakenIsAccepted(h: Hash, a: Moment, k: Key, path: string, content: seq<byte>, offset: nat, r: Outcome<Reply>, b: Moment)
    requires offset <= |content| && IsKey(k) && AcceptedAt(a, k) == content[..offset] && k !in a.g.abandoned && r.Ok? && !r.value.committed
    requires Frames(h, WriteOf(h, k, path, content, offset), a, r, b) && RecordOf(b.disk, k).Some?
    requires Reports(h, WriteOf(h, k, path, content, offset), TransferPath(path), |a.log|, a, r.value, b)
    ensures k !in b.g.abandoned && AcceptedAt(b, k) == content[..offset + Min(CHUNK, |content| - offset)]
  {
    var data := content[offset..offset + Min(CHUNK, |content| - offset)];
    assert content[..offset] + data == content[..offset + |data|];
  }

  /** The next chunk is taken. */
  lemma WriteGoesOn(h: Hash, a: Moment, k: Key, path: string, content: seq<byte>, offset: nat, r: Outcome<Reply>, b: Moment)
    requires |content| <= BYTE_LIMIT && Sending(h, a, k, TransferPath(path), content, offset)
    requires offset % CHUNK == 0 && (offset < |content| || content == [])
    requires RecordOf(a.disk, k).Some? <==> offset > 0
    requires Answered(h, WriteOf(h, k, path, content, offset), a, r, b)
    ensures var end := offset + Min(CHUNK, |content| - offset);
      r == Ok(Reply(end, false)) && RecordOf(b.disk, k).Some? && Sending(h, b, k, TransferPath(path), content, end)
  {
    var req, p := WriteOf(h, k, path, content, offset), TransferPath(path);
    CalmAnswer(h, req, p, a, r, b);
    assert KeyInv(a.disk, a.g, h, k);
    if offset > 0 { NextIsTaken(h, a.disk, k, path, content, offset, r, b.disk); } else { FirstIsTaken(h, a.disk, k, path, content, r, b.disk); }
    TakenIsAccepted(h, a, k, path, content, offset, r, b);
    FreeStays(a.disk, b.disk, p);
  }

  /** Everything is there for the commit. */
  lemma WholeIsStaged(h: Hash, a: Moment, k: Key, path: string, content: seq<byte>)
    requires |content| <= BYTE_LIMIT && Sending(h, a, k, TransferPath(path), content, |content|) && RecordOf(a.disk, k).Some?
    ensures var j := RecordOf(a.disk, k).value;
      && j.key == k && !j.committed && CommitAllowed(a.disk, h, CommitOf(h, k, path, content), j)
  {
    FreeIsNotBlocked(a.disk, TransferPath(path));
    assert KeyInv(a.disk, a.g, h, k);
    var j := RecordOf(a.disk, k).value;
    assert content[..|content|] == content && a.g.accepted[k] == content;
    assert StageOf(j) == StageIn(k, Parent(TransferPath(path))) && k !in a.g.published;
    var staged := FileAt(a.disk, StageOf(j)).value;
    assert content <= staged && |staged| <= |content|;
    assert staged == content;
  }

  /** The commit puts the whole content at the destination. */
  lemma CommitGoesThrough(h: Hash, a: Moment, k: Key, path: string, content: seq<byte>, r: Outcome<Reply>, b: Moment)
    requires |content| <= BYTE_LIMIT && Injective(h.chunk)
    requires Sending(h, a, k, TransferPath(path), content, |content|) && RecordOf(a.disk, k).Some?
    requires Answered(h, CommitOf(h, k, path, content), a, r, b)
    ensures r == Ok(Reply(|content|, true)) && FileAt(b.disk, TransferPath(path)) == Some(content)
  {
    var req, p := CommitOf(h, k, path, content), TransferPath(path);
    CalmAnswer(h, req, p, a, r, b);
    WholeIsStaged(h, a, k, path, content);
    CommitIsGranted(h, req, p, a.disk, r, b.disk);
    assert content[..|content|] == content;
    assert KeyInv(b.disk, b.g, h, k);
    WholeIsAccepted(b.disk, b.g, h, k, FileAt(b.disk, p).value);
  }

  lemma CommitIsGranted(h: Hash, req: Request, p: Path, a: Disk, r: Outcome<Reply>, b: Disk)
    requires req.action.Commit? && req.offset >= 0 && FreePath(a, p) && HasState(a) && RecordOf(a, req.key).Some?
    requires var j := RecordOf(a, req.key).value;
      j.path == p && j.size == req.size && !j.committing && !j.committed && CommitAllowed(a, h, req, j)
    requires Resumed(h, req, p, a, r, b)
    ensures r == Ok(Reply(req.size, true)) && FileAt(b, p).Some? && RecordOf(b, req.key).Some?
    ensures |FileAt(b, p).value| == RecordOf(b, req.key).value.size && ChunkHashes(h, FileAt(b, p).value) == RecordOf(b, req.key).value.hashes
  {
    var j := RecordOf(a, req.key).value;
    assert Checks(h, req, p, j, a, r, b);
    assert !WasPublishing(a, j);
    assert Exact(h, req, a, j, r, b);
    assert !LinkAt(b, p);
  }

  method SendChunk(root: Root, k: Key, path: string, content: seq<byte>, offset: nat) returns (r: Outcome<Reply>)
    requires root.Valid() && |content| <= BYTE_LIMIT && Sending(root.h, root.Now(), k, TransferPath(path), content, offset)
    requires offset % CHUNK == 0 && (offset < |content| || content == []) && (RecordOf(root.disk, k).Some? <==> offset > 0)
    modifies root
    ensures root.Valid() && RecordOf(root.disk, k).Some?
    ensures r == Ok(Reply(offset + Min(CHUNK, |content| - offset), false))
    ensures Sending(root.h, root.Now(), k, TransferPath(path), content, offset + Min(CHUNK, |content| - offset))
  {
    ghost var a := root.Now();
    r := root.Transfer(WriteOf(root.h, k, path, content, offset));
    WriteGoesOn(root.h, a, k, path, content, offset, r, root.Now());
  }

  /** How far n chunks get. */
  function Upto(n: nat, size: nat): nat { Min(n * CHUNK, size) }

  lemma UptoStep(n: nat, size: nat)
    requires n * CHUNK < size || n == 0
    ensures Upto(n + 1, size) == n * CHUNK + Min(CHUNK, size - n * CHUNK)
  {}

  /** So many replies, each to a chunk taken. */
  predicate AllTaken(replies: seq<Outcome<Reply>>, size: nat) {
    forall i :: 0 <= i < |replies| ==> replies[i] == Ok(Reply(Upto(i + 1, size), false))
  }

  /** The replies so far, and where the upload is. */
  ghost predicate SentSoFar(root: Root, k: Key, p: Path, content: seq<byte>, replies: seq<Outcome<Reply>>)
    reads root
  {
    && root.Valid() && RecordOf(root.disk, k).Some? && |replies| > 0 && AllTaken(replies, |content|)
    && Sending(root.h, root.Now(), k, p, content, Upto(|replies|, |content|))
  }

  method SendNext(root: Root, k: Key, path: string, content: seq<byte>, before: seq<Outcome<Reply>>) returns (replies: seq<Outcome<Reply>>)
    requires |content| <= BYTE_LIMIT && SentSoFar(root, k, TransferPath(path), content, before) && |before| * CHUNK < |content|
    modifies root
    ensures |replies| == |before| + 1 && SentSoFar(root, k, TransferPath(path), content, replies)
  {
    UptoStep(|before|, |content|);
    var r := SendChunk(root, k, path, content, |before| * CHUNK);
    replies := before + [r];
  }

  /** The chunks, in order; an empty file is one empty chunk. */
  method SendChunks(root: Root, k: Key, path: string, content: seq<byte>) returns (replies: seq<Outcome<Reply>>)
    requires root.Valid() && |content| <= BYTE_LIMIT && Sending(root.h, root.Now(), k, TransferPath(path), content, 0)
    requires RecordOf(root.disk, k) == None
    modifies root
    ensures SentSoFar(root, k, TransferPath(path), content, replies) && Upto(|replies|, |content|) == |content|
    ensures |replies| == Max(1, (|content| + CHUNK - 1) / CHUNK)
  {
    var r := SendChunk(root, k, path, content, 0);
    UptoStep(0, |content|);
    replies := [r];
    while |replies| * CHUNK < |content|
      invariant SentSoFar(root, k, TransferPath(path), content, replies)
      invariant |replies| == 1 || (|replies| - 1) * CHUNK < |content|
      decreases |content| - |replies| * CHUNK
    {
      replies := SendNext(root, k, path, content, replies);
    }
  }

  /** For every content and every free path: each chunk is taken, the commit is granted, and the file is there. */
  method SendFile(root: Root, k: Key, path: string, content: seq<byte>) returns (replies: seq<Outcome<Reply>>, committed: Outcome<Reply>)
    requires root.Valid() && root.Calm() && Injective(root.h.chunk) && IsKey(k) && JournalFile(k) !in root.disk.names
    requires StateReady(root.disk) && FreePath(root.disk, TransferPath(path)) && |content| <= BYTE_LIMIT
    modifies root
    ensures root.Valid() && FileAt(root.disk, TransferPath(path)) == Some(content)
    ensures |replies| == Max(1, (|content| + CHUNK - 1) / CHUNK) && AllTaken(replies, |content|)
    ensures committed == Ok(Reply(|content|, true))
  {
    assert KeyInv(root.disk, root.g, root.h, k);
    replies := SendChunks(root, k, path, content);
    ghost var a := root.Now();
    committed := root.Transfer(CommitOf(root.h, k, path, content));
    CommitGoesThrough(root.h, a, k, path, content, committed, root.Now());
  }
}
