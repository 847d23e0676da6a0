/** The filesystem an upload runs on, the journal record, and chunk hashing. */
module TransferDisk {
  import opened Prelude
  import opened TransferNames

  type Digest = nat

  /** SHA-256 of a chunk, and of a list of chunk digests: uninterpreted. */
  datatype Hash = Hash(chunk: seq<byte> -> Digest, list: seq<Digest> -> Digest)

  const CHUNK := 1_048_576
  const BYTE_LIMIT := 10 * 1024 * 1024 * 1024
  const HASH_LIMIT := 10240
  /** How many symbolic links Open follows before it gives up. */
  const HOPS := 40

  datatype Journal = Journal(
    version: int, key: Key, path: Path, size: int, offset: int,
    hashes: seq<Digest>, committing: bool, committed: bool, updated: int)

  /** A name's meaning. The protocol's own JSON files are never hard-linked, so a Record
      carries its decoded content; Torn is one whose content does not decode. */
  datatype Node = Directory | Symlink(target: Path) | Special | File(ino: nat) | Record(journal: Journal) | Torn

  datatype Disk = Disk(names: map<Path, Node>, data: map<nat, seq<byte>>, next: nat)

  ghost predicate WellFormed(d: Disk) {
    && (forall p :: p in d.names && d.names[p].File? ==> d.names[p].ino in d.data)
    && (forall i :: i in d.data ==> i < d.next)
  }

  function NodeAt(d: Disk, p: Path): Option<Node> {
    if p in d.names then Some(d.names[p]) else None
  }

  function FileAt(d: Disk, p: Path): Option<seq<byte>> {
    if p in d.names && d.names[p].File? && d.names[p].ino in d.data then Some(d.data[d.names[p].ino]) else None
  }

  /** What opening p for reading sees: a regular file, symbolic links followed. */
  function Reads(d: Disk, p: Path, hops: nat): Option<seq<byte>>
    decreases hops
  {
    if p in d.names && d.names[p].Symlink? then
      if hops == 0 then None else Reads(d, d.names[p].target, hops - 1)
    else FileAt(d, p)
  }

  predicate IsDirectory(d: Disk, p: Path) { p == [] || NodeAt(d, p) == Some(Directory) }

  // ---- chunk hashing ----

  function ChunkHashes(h: Hash, data: seq<byte>): (r: seq<Digest>)
    ensures |r| == (|data| + CHUNK - 1) / CHUNK
  {
    if data == [] then []
    else
      var n := Min(CHUNK, |data|);
      [h.chunk(data[..n])] + ChunkHashes(h, data[n..])
  }

  /** Hashing a further chunk behind whole chunks extends the list by that chunk's digest. */
  lemma {:induction false} HashesAppend(h: Hash, data: seq<byte>, chunk: seq<byte>)
    requires |data| % CHUNK == 0 && 0 < |chunk| <= CHUNK
    ensures ChunkHashes(h, data + chunk) == ChunkHashes(h, data) + [h.chunk(chunk)]
  {
    if data == [] {
      assert data + chunk == chunk && chunk[..|chunk|] == chunk && chunk[|chunk|..] == [];
      assert ChunkHashes(h, []) == [];
    } else {
      assert (data + chunk)[..CHUNK] == data[..CHUNK];
      assert (data + chunk)[CHUNK..] == data[CHUNK..] + chunk;
      HashesAppend(h, data[CHUNK..], chunk);
    }
  }

  ghost predicate Injective(f: seq<byte> -> Digest) {
    forall x, y :: f(x) == f(y) ==> x == y
  }

  /** With collision-free hashing, equal size and equal chunk digests mean equal bytes. */
  lemma {:induction false} EqualHashesEqualBytes(h: Hash, a: seq<byte>, b: seq<byte>)
    requires Injective(h.chunk)
    requires |a| == |b| && ChunkHashes(h, a) == ChunkHashes(h, b)
    ensures a == b
  {
    if a != [] {
      var n := Min(CHUNK, |a|);
      assert ChunkHashes(h, a)[0] == h.chunk(a[..n]);
      assert ChunkHashes(h, b)[0] == h.chunk(b[..n]);
      assert ChunkHashes(h, a)[1..] == ChunkHashes(h, a[n..]);
      assert ChunkHashes(h, b)[1..] == ChunkHashes(h, b[n..]);
      EqualHashesEqualBytes(h, a[n..], b[n..]);
      assert a == a[..n] + a[n..] && b == b[..n] + b[n..];
    }
  }

  // ---- the environment ----

  /** No name outside the protocol's own refers to inode i. */
  ghost predicate Hidden(d: Disk, i: nat) {
    forall p :: p in d.names && d.names[p] == File(i) ==> Reserved(p)
  }

  /** Anything other programs may do: every change to unreserved names and to files, except that
      reserved names stay put, a file that has a reserved name keeps its bytes, and a hidden file stays hidden. */
  ghost predicate EnvStep(a: Disk, b: Disk) {
    && WellFormed(b)
    && (forall p :: Reserved(p) ==> NodeAt(a, p) == NodeAt(b, p))
    && (forall p :: Reserved(p) ==> FileAt(a, p) == FileAt(b, p))
    && (forall p :: Reserved(p) && p in a.names && a.names[p].File? && Hidden(a, a.names[p].ino)
                    ==> Hidden(b, a.names[p].ino))
  }

  lemma EnvRefl(a: Disk)
    requires WellFormed(a)
    ensures EnvStep(a, a)
  {}

  // ---- what the agent's own steps may do to a name ----

  /** Path p means the same, byte for byte, before and after. */
  predicate SameAt(a: Disk, b: Disk, p: Path) {
    NodeAt(a, p) == NodeAt(b, p) && FileAt(a, p) == FileAt(b, p)
  }
}
