/** Paths, and the names uploads reserve. */
module TransferNames {
  import opened Strings

  // A string is a sequence of bytes; a filesystem path is its list of components.

  type Path = seq<string>

  /** One upload: its transfer id and its entry id. */
  datatype Key = Key(transferId: string, entryId: string)

  const STATE_DIR := ".pdmux-file-transfers"
  const STAGE_PREFIX := ".pdmux-transfer-"
  const PATH_BYTES := 1024

  predicate HexLower(c: char) { '0' <= c <= '9' || 'a' <= c <= 'f' }

  /** transferUUID: 8-4-4-4-12 lower-case hex digits. */
  predicate IsUuid(s: string) {
    && |s| == 36
    && forall i :: 0 <= i < 36 ==>
      if i == 8 || i == 13 || i == 18 || i == 23 then s[i] == '-' else HexLower(s[i])
  }

  predicate IsKey(k: Key) { IsUuid(k.transferId) && IsUuid(k.entryId) }

  predicate ReservedName(part: string) { part == STATE_DIR || STAGE_PREFIX <= part }

  /** A path some component of which belongs to the protocol. */
  predicate Reserved(p: Path) { exists i :: 0 <= i < |p| && ReservedName(p[i]) }

  predicate PlainPart(part: string) {
    part != "" && part != "." && part != ".." && !ReservedName(part)
  }

  /** transferPath for every action but list: the components of an accepted name. */
  function TransferPath(name: string): (r: seq<string>) {
    if name == "" || |name| > PATH_BYTES || '\\' in name || '\0' in name || ':' in name || name[0] == '/' then []
    else
      var parts := Split(name, '/');
      if forall i :: 0 <= i < |parts| ==> PlainPart(parts[i]) then parts else []
  }

  predicate AcceptedPath(p: Path) {
    |p| > 0 && forall i :: 0 <= i < |p| ==> PlainPart(p[i])
  }

  function Parent(p: Path): Path
    requires |p| > 0
  {
    p[..|p| - 1]
  }

  function JournalName(k: Key): string { k.transferId + "-" + k.entryId + ".json" }
  function StageName(k: Key): string { STAGE_PREFIX + k.transferId + "-" + k.entryId + ".part" }

  function JournalFile(k: Key): Path { [STATE_DIR, JournalName(k)] }
  function NextFile(k: Key): Path { [STATE_DIR, JournalName(k) + ".next"] }
  function StageIn(k: Key, dir: Path): Path { dir + [StageName(k)] }

  // ---- properties ----

  /** Different accepted spellings are different paths. */
  lemma SpellingsAreUnique(a: string, b: string)
    requires TransferPath(a) != [] && TransferPath(a) == TransferPath(b)
    ensures a == b
  {
    JoinSplit(a, '/');
    JoinSplit(b, '/');
  }

  /** No accepted path is, or lies below, a name the protocol reserves; and every journal and
      staging name is reserved. */
  lemma AcceptedIsNotReserved(name: string, k: Key, dir: Path)
    requires TransferPath(name) != []
    ensures AcceptedPath(TransferPath(name)) && !Reserved(TransferPath(name))
    ensures Reserved(JournalFile(k)) && Reserved(NextFile(k)) && Reserved(StageIn(k, dir))
    ensures TransferPath(name) != JournalFile(k)
    ensures TransferPath(name) != NextFile(k)
    ensures TransferPath(name) != StageIn(k, dir)
  {
    ProtocolNamesReserved(k, dir);
  }

  lemma ProtocolNamesReserved(k: Key, dir: Path)
    ensures Reserved(JournalFile(k)) && Reserved(NextFile(k)) && Reserved(StageIn(k, dir)) && Reserved([STATE_DIR])
  {
    assert ReservedName(JournalFile(k)[0]);
    assert ReservedName(NextFile(k)[0]);
    assert ReservedName(StageIn(k, dir)[|dir|]);
    assert ReservedName([STATE_DIR][0]);
  }

  lemma JournalNameInjective(a: Key, b: Key, suffix: string, tail: string)
    requires IsKey(a) && IsKey(b)
    requires a.transferId + "-" + a.entryId + suffix == b.transferId + "-" + b.entryId + tail
    ensures a == b && suffix == tail
  {
    var s := a.transferId + "-" + a.entryId + suffix;
    assert s[..36] == a.transferId && s[..36] == b.transferId;
    assert s[37..73] == a.entryId && s[37..73] == b.entryId;
    assert s[73..] == suffix && s[73..] == tail;
  }

  /** Journal, journal-in-progress and staging names of two uploads, in any directories, are all different. */
  lemma UploadsNeverShareNames(a: Key, b: Key, dirA: Path, dirB: Path)
    requires IsKey(a) && IsKey(b)
    ensures a != b ==> JournalFile(a) != JournalFile(b) && NextFile(a) != NextFile(b)
    ensures a != b || dirA != dirB ==> StageIn(a, dirA) != StageIn(b, dirB)
    ensures JournalFile(a) != NextFile(b)
    ensures StageIn(a, dirA) != JournalFile(b) && StageIn(a, dirA) != NextFile(b)
    ensures StageIn(a, dirA) != [STATE_DIR] && JournalFile(a) != [STATE_DIR] && NextFile(a) != [STATE_DIR]
  {
    if JournalFile(a) == JournalFile(b) {
      assert JournalFile(a)[1] == JournalFile(b)[1];
      JournalNameInjective(a, b, ".json", ".json");
    }
    if NextFile(a) == NextFile(b) {
      assert NextFile(a)[1] == NextFile(b)[1];
      assert JournalName(a) + ".next" == a.transferId + "-" + a.entryId + ".json.next";
      assert JournalName(b) + ".next" == b.transferId + "-" + b.entryId + ".json.next";
      JournalNameInjective(a, b, ".json.next", ".json.next");
    }
    if StageIn(a, dirA) == StageIn(b, dirB) {
      assert |dirA| == |dirB|;
      assert StageIn(a, dirA)[|dirA|] == StageIn(b, dirB)[|dirB|];
      assert StageIn(a, dirA)[..|dirA|] == dirA && StageIn(b, dirB)[..|dirB|] == dirB;
      assert StageName(a)[|STAGE_PREFIX|..] == a.transferId + "-" + a.entryId + ".part";
      assert StageName(b)[|STAGE_PREFIX|..] == b.transferId + "-" + b.entryId + ".part";
      JournalNameInjective(a, b, ".part", ".part");
    }
    StageIsNoJournal(a, dirA, b);
    assert STATE_DIR[7] == 'f' && StageName(a)[7] == STAGE_PREFIX[7] == 't';
    assert Last(StageIn(a, dirA)) == StageName(a) && Last([STATE_DIR]) == STATE_DIR;
  }

  function Last(p: Path): string
    requires |p| > 0
  {
    p[|p| - 1]
  }

  lemma StageIsNoJournal(a: Key, dir: Path, b: Key)
    requires IsKey(a) && IsKey(b)
    ensures StageIn(a, dir) != JournalFile(b) && StageIn(a, dir) != NextFile(b)
  {
    // a staging name starts with '.', a journal name with a hex digit
    assert StageName(a)[0] == STAGE_PREFIX[0] == '.';
    assert JournalName(b)[0] == b.transferId[0] && HexLower(b.transferId[0]);
    assert Last(StageIn(a, dir)) == StageName(a);
    assert Last(JournalFile(b)) == JournalName(b) && Last(NextFile(b)) == JournalName(b) + ".next";
  }

  lemma AcceptedNotReserved(p: Path)
    requires AcceptedPath(p)
    ensures forall n :: 0 <= n <= |p| ==> !Reserved(p[..n])
    ensures !Reserved(p)
  {
    assert p[..|p|] == p;
  }
}
