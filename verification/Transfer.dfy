/** The resumable upload. */
module Transfer {
  import opened Prelude
  import opened TransferNames
  import opened TransferDisk
  import opened TransferSpec
  import opened TransferSteps
  import opened TransferAnswers

  // One request at a time (transferMu), each broken into the filesystem primitives it performs. Between any
  // two of them other programs may act, the primitive may fail, and the process may die.

  /** The reading loop of transferHashes. */
  method HashChunks(h: Hash, content: seq<byte>) returns (hashes: seq<Digest>)
    ensures hashes == ChunkHashes(h, content)
  {
    var offset := 0;
    hashes := [];
    assert content[0..] == content;
    while offset < |content|
      invariant 0 <= offset <= |content|
      invariant hashes + ChunkHashes(h, content[offset..]) == ChunkHashes(h, content)
    {
      var n := Min(CHUNK, |content| - offset);
      var digest := h.chunk(content[offset..offset + n]);
      FirstChunk(h, content, offset, n);
      assert (hashes + [digest]) + ChunkHashes(h, content[offset + n..]) == hashes + ([digest] + ChunkHashes(h, content[offset + n..]));
      hashes := hashes + [digest];
      offset := offset + n;
    }
  }

  lemma FirstChunk(h: Hash, content: seq<byte>, offset: nat, n: nat)
    requires offset < |content| && n == Min(CHUNK, |content| - offset)
    ensures ChunkHashes(h, content[offset..]) == [h.chunk(content[offset..offset + n])] + ChunkHashes(h, content[offset + n..])
  {
    var rest := content[offset..];
    assert rest[..n] == content[offset..offset + n] && rest[n..] == content[offset + n..];
  }

  class Root {
    const h: Hash
    const world: World
    var disk: Disk
    var crashed: bool
    var clock: nat
    ghost var g: History
    /** Every change of the disk since the start. */
    ghost var log: seq<Step>
    ghost const start: Disk

    ghost predicate Valid()
      reads this
    {
      && Fair(world) && InjectiveList(h.list)
      && Inv(disk, g, h)
      && Trail(h, world, start, log, disk, g.proven)
    }

    ghost function Now(): Moment
      reads this
    {
      Moment(disk, g, log, Calm())
    }

    /** From here on nothing fails and no other program acts. */
    ghost predicate Calm()
      reads this
    {
      !crashed && CalmFrom(world, clock)
    }

    /** The next primitive happens. */
    predicate Works()
      reads this
    {
      !crashed && world.fault(clock) == NoFault
    }

    /** A root without protocol files. */
    constructor (h: Hash, world: World, disk: Disk)
      requires Fair(world) && InjectiveList(h.list)
      requires WellFormed(disk) && forall p :: p in disk.names ==> !Reserved(p)
      ensures Valid() && this.h == h && this.world == world && this.disk == disk && !crashed
      ensures log == [] && start == disk && g == History({}, {}, map[], {}, map[])
    {
      this.h := h;
      this.world := world;
      this.disk := disk;
      crashed, clock := false, 0;
      g := History({}, {}, map[], {}, map[]);
      start, log := disk, [];
      new;
      forall k | IsKey(k) ensures KeyInv(disk, g, h, k) {
        ProtocolNamesReserved(k, []);
        forall dir ensures StageIn(k, dir) !in disk.names { ProtocolNamesReserved(k, dir); }
      }
    }

    /** The instant before a primitive: other programs run, and the primitive may fail or never happen. */
    method Tick() returns (ok: bool)
      requires Valid()
      modifies `disk, `crashed, `clock, `log
      ensures Valid() && Quiet(old(log), log) && Undisturbed(old(disk), disk, g, h)
      ensures ok ==> |log| > |old(log)|
      ensures ok == old(Works()) && (ok ==> clock == old(clock) + 1 && !crashed)
      ensures old(Calm()) ==> Calm() && ok && disk == old(disk)
    {
      EnvRefl(disk);
      EnvUndisturbed(disk, disk, g, h);
      if crashed { return false; }
      ghost var before := disk;
      if Calm() { CalmStep(world, clock, disk); }
      disk := world.env(clock, disk);
      EnvKeeps(before, disk, g, h);
      EnvUndisturbed(before, disk, g, h);
      ok := world.fault(clock) == NoFault;
      crashed := world.fault(clock) == Crash;
      TrailGrows(h, world, start, log, before, g.proven, Step(before, disk, Others(clock)), g.proven);
      log := log + [Step(before, disk, Others(clock))];
      clock := clock + 1;
    }

    /** Bookkeeping for a primitive that changed the disk. */
    method Change(after: Disk, ghost effect: Effect, ghost g': History)
      requires Valid() && Inv(after, g', h) && StepSafe(h, Step(disk, after, effect)) && !effect.Others?
      requires forall p :: p in g'.proven ==> p in g.proven || Holds(h, after, p)
      modifies `disk, `g, `log
      ensures Valid() && disk == after && g == g'
      ensures log == old(log) + [Step(old(disk), after, effect)]
    {
      TrailGrows(h, world, start, log, disk, g.proven, Step(disk, after, effect), g'.proven);
      log := log + [Step(disk, after, effect)];
      disk := after;
      g := g';
    }

    method Lstat(p: Path) returns (r: Outcome<Node>)
      requires Valid()
      modifies `disk, `crashed, `clock, `log
      ensures Valid() && Quiet(old(log), log) && Undisturbed(old(disk), disk, g, h)
      ensures r == Err(Io) || r == if p in disk.names then Ok(disk.names[p]) else Err(NotExist)
      ensures old(Calm()) ==> Calm() && r != Err(Io) && disk == old(disk)
    {
      var ok := Tick();
      if !ok { return Err(Io); }
      r := if p in disk.names then Ok(disk.names[p]) else Err(NotExist);
    }

    /** transferHashes: the chunk digests of the regular file that opening p reaches. */
    method HashFile(p: Path, size: int) returns (r: Outcome<seq<Digest>>)
      requires Valid()
      modifies `disk, `crashed, `clock, `log
      ensures Valid() && Quiet(old(log), log) && Undisturbed(old(disk), disk, g, h)
      ensures r.Ok? ==> Reads(disk, p, HOPS).Some? && |Reads(disk, p, HOPS).value| == size
                        && r.value == ChunkHashes(h, Reads(disk, p, HOPS).value) && |log| > |old(log)|
      ensures old(Calm()) ==> Calm() && disk == old(disk)
                              && (r.Ok? <==> Reads(disk, p, HOPS).Some? && |Reads(disk, p, HOPS).value| == size)
                              && (r.Err? ==> r == Err(if Reads(disk, p, HOPS).None? then Io else Code(SOURCE_CHANGED)))
    {
      var ok := Tick();
      if !ok { return Err(Io); }
      var content := Reads(disk, p, HOPS);
      if content.None? { return Err(Io); }
      if |content.value| != size { return Err(Code(SOURCE_CHANGED)); }
      var hashes := HashChunks(h, content.value);
      r := Ok(hashes);
    }

    /** transferNoLinks: no component of p was a symbolic link when it was looked at, and every one
        but the last was a directory; seen are the disks it looked at. */
    method NoLinks(p: Path, allowMissing: bool) returns (r: Outcome<Unit>, ghost seen: seq<Disk>)
      requires Valid()
      modifies `disk, `crashed, `clock, `log
      ensures Valid() && Quiet(old(log), log) && Undisturbed(old(disk), disk, g, h)
      ensures r.Ok? ==>
        || (|seen| == |p| && forall n :: 0 <= n < |p| ==> PlainComponent(seen[n], p, n))
        || (allowMissing && 0 < |seen| <= |p| && NodeAt(seen[|seen| - 1], p[..|seen|]) == None
            && forall n :: 0 <= n < |seen| - 1 ==> PlainComponent(seen[n], p, n))
      ensures old(Calm()) ==> Calm() && disk == old(disk)
                              && (r.Ok? <==> if allowMissing then !Blocked(disk, p) else PlainPath(disk, p))
      ensures old(Calm()) ==> forall n :: 0 <= n < |p| && BlockedAt(disk, p, n) ==>
        r == Err(Code(if LinkAt(disk, p[..n + 1]) then LINK else TYPE_CONFLICT))
    {
      EnvRefl(disk);
      seen := [];
      for i := 0 to |p|
        invariant Valid() && Quiet(old(log), log) && Undisturbed(old(disk), disk, g, h)
        invariant |seen| == i && forall n :: 0 <= n < i ==> PlainComponent(seen[n], p, n)
        invariant old(Calm()) ==> Calm() && disk == old(disk) && forall n :: 0 <= n < i ==> PlainComponent(disk, p, n)
      {
        ghost var before := disk;
        var info := Lstat(p[..i + 1]);
        seen := seen + [disk];
        UndisturbedTrans(old(disk), before, disk, g, h);
        assert info != Err(Io) ==> (PlainComponent(disk, p, i)
                                    <==> info.Ok? && !info.value.Symlink? && (i < |p| - 1 ==> info.value.Directory?));
        if info == Err(NotExist) && allowMissing { return Ok(Unit), seen; }
        if info.Err? { return Err(info.failure), seen; }
        assert PlainComponent(disk, p, i) || !old(Calm()) || BlockedAt(disk, p, i);
        if info.value.Symlink? { return Err(Code(LINK)), seen; }
        if i < |p| - 1 && !info.value.Directory? { return Err(Code(TYPE_CONFLICT)), seen; }
      }
      r := Ok(Unit);
    }

    /** saveTransferJournal: write the new record beside the journal, then rename it over. */
    method Save(k: Key, j: Journal, ghost acc: seq<byte>) returns (r: Outcome<Journal>)
      requires Valid() && IsKey(k) && Consistent(disk, g, h, k, j, acc)
      requires RecordOf(disk, k).Some? ==> RecordOf(disk, k).value.path == j.path
      requires k in g.acked ==> AckHolds(g.acked[k], j)
      modifies `disk, `crashed, `clock, `g, `log
      ensures Valid() && Quiet(old(log), log)
      ensures r.Ok? ==> (exists t :: r.value == j.(updated := t)) && RecordOf(disk, k) == Some(r.value)
                        && g == old(g).(accepted := old(g).accepted[k := acc])
                        && Consistent(disk, g, h, k, r.value, acc)
      ensures r.Err? ==> g == old(g) && RecordOf(disk, k) == old(RecordOf(disk, k))
      ensures SameBut(k, old(disk), disk)
      ensures forall dir :: SameAt(old(disk), disk, StageIn(k, dir))
      ensures old(Calm()) ==> Calm() && r.Ok? && forall p :: !Reserved(p) ==> SameAt(old(disk), disk, p)
    {
      var saved := j.(updated := world.time(clock));
      assert Consistent(disk, g, h, k, saved, acc);
      var ok := WriteNext(k, Torn, saved, acc);
      if !ok { return Err(Io); }
      ok := WriteNext(k, Record(saved), saved, acc);
      if !ok { return Err(Io); }
      ok := RenameNext(k, saved, acc);
      r := if ok then Ok(saved) else Err(Io);
    }

    /** Leave node under the in-progress name of k's journal. */
    method WriteNext(k: Key, node: Node, ghost j: Journal, ghost acc: seq<byte>) returns (ok: bool)
      requires Valid() && IsKey(k) && (node.Torn? || node.Record?)
      requires Consistent(disk, g, h, k, j, acc)
      modifies `disk, `crashed, `clock, `g, `log
      ensures Valid() && Quiet(old(log), log) && g == old(g)
      ensures ok ==> NodeAt(disk, NextFile(k)) == Some(node)
      ensures SameJournals(old(disk), disk)
      ensures forall dir :: SameAt(old(disk), disk, StageIn(k, dir))
      ensures Consistent(disk, g, h, k, j, acc)
      ensures old(Calm()) ==> Calm() && ok && forall p :: !Reserved(p) ==> SameAt(old(disk), disk, p)
    {
      ProtocolNamesReserved(k, []);
      ok := Tick();
      if ok {
        NextIsNoOther(k, k);
        NextWritten(disk, g, h, k, node);
        Change(SetName(disk, NextFile(k), node), Plain, g);
      }
    }

    /** Rename the finished record over the journal. */
    method RenameNext(k: Key, j: Journal, ghost acc: seq<byte>) returns (ok: bool)
      requires Valid() && IsKey(k) && NodeAt(disk, NextFile(k)) == Some(Record(j))
      requires Consistent(disk, g, h, k, j, acc)
      requires RecordOf(disk, k).Some? ==> RecordOf(disk, k).value.path == j.path
      requires k in g.acked ==> AckHolds(g.acked[k], j)
      modifies `disk, `crashed, `clock, `g, `log
      ensures Valid() && Quiet(old(log), log)
      ensures ok ==> RecordOf(disk, k) == Some(j)
                     && g == old(g).(accepted := old(g).accepted[k := acc])
                     && Consistent(disk, g, h, k, j, acc)
      ensures !ok ==> g == old(g) && RecordOf(disk, k) == old(RecordOf(disk, k))
      ensures SameBut(k, old(disk), disk)
      ensures forall dir :: SameAt(old(disk), disk, StageIn(k, dir))
      ensures old(Calm()) ==> Calm() && ok && forall p :: !Reserved(p) ==> SameAt(old(disk), disk, p)
    {
      ProtocolNamesReserved(k, []);
      ok := Tick();
      if ok {
        SaveKeeps(disk, g, h, k, j, acc);
        StagesSurviveSave(disk, k, j);
        SaveIsOwn(disk, k, j);
        Change(Saved(disk, k, j), Plain, g.(accepted := g.accepted[k := acc]));
      }
    }

    /** loadTransferJournal. A journal this program wrote always passes its checks. */
    method Load(k: Key) returns (r: Outcome<Journal>)
      requires Valid() && IsKey(k)
      modifies `disk, `crashed, `clock, `log
      ensures Valid() && Quiet(old(log), log) && Undisturbed(old(disk), disk, g, h)
      ensures r.Ok? ==> RecordOf(disk, k) == Some(r.value) && LoadOk(k, r.value)
      ensures r.Ok? ==> k in g.accepted && Consistent(disk, g, h, k, r.value, g.accepted[k])
      ensures r == Err(NotExist) ==> RecordOf(disk, k) == None && JournalFile(k) !in disk.names
      ensures r.Err? ==> r == Err(NotExist) || r == Err(Io)
      ensures old(Calm()) ==> Calm() && disk == old(disk) && r != Err(Io)
    {
      var ok := Tick();
      if !ok { return Err(Io); }
      assert KeyInv(disk, g, h, k);
      if JournalFile(k) !in disk.names { return Err(NotExist); }
      var j := disk.names[JournalFile(k)].journal;
      JournalShape(disk, g, h, k, j, g.accepted[k]);
      r := if LoadOk(k, j) then Ok(j) else Err(Code(STATE));
    }

    /** os.Root.Remove of the staging file of j. */
    method RemoveStage(k: Key, j: Journal, ghost acc: seq<byte>) returns (r: Outcome<Unit>)
      requires Valid() && IsKey(k) && Consistent(disk, g, h, k, j, acc)
      requires RecordOf(disk, k).Some? && RecordOf(disk, k).value.path == j.path
      modifies `disk, `crashed, `clock, `g, `log
      ensures Valid() && Quiet(old(log), log) && SameJournals(old(disk), disk)
      ensures Consistent(disk, g, h, k, j, acc)
      ensures r.Ok? || r == Err(NotExist) ==> StageOf(j) !in disk.names && clock == old(clock) + 1 && !crashed
      ensures r.Err? ==> r == Err(Io) || r == Err(NotExist)
      ensures r == Err(Io) <==> !old(Works())
      ensures r.Ok? <==> old(Works()) && StageOf(j) in old(disk).names
      ensures if r.Ok? then g == StageDropped(old(g), k)
              else g == old(g) && (StageOf(j) in disk.names <==> StageOf(j) in old(disk).names)
      ensures old(Calm()) ==> Calm() && r != Err(Io)
      ensures old(Calm()) ==> disk == DropName(old(disk), StageOf(j))
    {
      ghost var before := disk;
      var ok := Tick();
      assert SameAt(before, disk, StageIn(k, Parent(j.path)));
      assert NodeAt(before, StageOf(j)) == NodeAt(disk, StageOf(j));
      if !ok { return Err(Io); }
      if StageOf(j) !in disk.names {
        assert disk.names - {StageOf(j)} == disk.names;
        return Err(NotExist);
      }
      DropStage(k, j, acc);
      r := Ok(Unit);
    }

    method DropStage(k: Key, j: Journal, ghost acc: seq<byte>)
      requires Valid() && IsKey(k) && Consistent(disk, g, h, k, j, acc) && StageOf(j) in disk.names
      requires RecordOf(disk, k).Some? && RecordOf(disk, k).value.path == j.path
      modifies `disk, `g, `log
      ensures Valid() && Quiet(old(log), log) && disk == DropName(old(disk), StageOf(j)) && g == StageDropped(old(g), k)
      ensures Consistent(disk, g, h, k, j, acc)
      ensures SameJournals(old(disk), disk)
    {
      RemoveStageKeeps(disk, g, h, k, j, acc);
      NoJournal(k, Parent(j.path));
      Change(DropName(disk, StageOf(j)), Plain, StageDropped(g, k));
    }

    /** os.Root.Remove of k's journal, its staging file being gone. */
    method RemoveJournal(k: Key) returns (r: Outcome<Unit>)
      requires Valid() && IsKey(k)
      requires RecordOf(disk, k).Some? && |JournalOn(disk, k).path| > 0 && StageOf(JournalOn(disk, k)) !in disk.names
      modifies `disk, `crashed, `clock, `g, `log
      ensures Valid() && Quiet(old(log), log)
      ensures r.Ok? ==> JournalFile(k) !in disk.names && g == Forgotten(old(g), k)
      ensures r.Err? ==> RecordOf(disk, k) == RecordOf(old(disk), k) && g == old(g) && r == Err(Io)
      ensures SameBut(k, old(disk), disk)
      ensures r.Ok? <==> old(Works())
      ensures r.Err? ==> StageOf(JournalOn(old(disk), k)) !in disk.names
      ensures old(Calm()) ==> Calm() && r.Ok? && disk == DropName(old(disk), JournalFile(k))
    {
      assert KeyInv(disk, g, h, k);
      ghost var j := JournalOn(disk, k);
      ghost var before := disk;
      var ok := Tick();
      assert SameAt(before, disk, StageIn(k, Parent(j.path)));
      assert NodeAt(before, StageOf(j)) == NodeAt(disk, StageOf(j));
      if !ok { return Err(Io); }
      RemoveJournalKeeps(disk, g, h, k);
      forall x | IsKey(x) && x != k ensures JournalFile(k) != JournalFile(x) { UploadsNeverShareNames(k, x, [], []); }
      Change(DropName(disk, JournalFile(k)), Plain, Forgotten(g, k));
      r := Ok(Unit);
    }

    /** The two looks recovery takes: whether the staging file is gone, and whether it is the destination. */
    method Probe(k: Key, j: Journal) returns (missing: bool, linked: bool)
      requires Valid() && IsKey(k) && RecordOf(disk, k) == Some(j)
      requires k in g.accepted && Consistent(disk, g, h, k, j, g.accepted[k])
      modifies `disk, `crashed, `clock, `log
      ensures SameJournals(old(disk), disk)
      ensures Valid() && Quiet(old(log), log) && RecordOf(disk, k) == Some(j) && Consistent(disk, g, h, k, j, g.accepted[k])
      ensures linked ==> k in g.published
      ensures old(Calm()) ==>
        && Calm() && disk == old(disk)
        && (missing <==> StageOf(j) !in disk.names)
        && (linked <==> StageOf(j) in disk.names && disk.names[StageOf(j)].File? && NodeAt(disk, j.path) == NodeAt(disk, StageOf(j)))
    {
      var staged := Lstat(StageOf(j));
      ghost var mid := disk;
      var published := Lstat(j.path);
      missing := staged == Err(NotExist);
      linked := staged.Ok? && published.Ok? && staged.value.File? && staged.value == published.value;
      if linked { LinkedWasPublished(mid, disk, g, h, k, j, g.accepted[k]); }
    }

    /** The check a request makes on a journal that says Committing but not Committed: was the file
        published before the crash? If so it is committed now, and a leftover staging link is removed. */
    method Recover(k: Key, j: Journal) returns (r: Outcome<Journal>)
      requires Valid() && IsKey(k) && RecordOf(disk, k) == Some(j)
      requires k in g.accepted && Consistent(disk, g, h, k, j, g.accepted[k])
      modifies `disk, `crashed, `clock, `g, `log
      ensures SameJournals(old(disk), disk)
      ensures Valid() && Quiet(old(log), log) && RecordOf(disk, k) == Some(j)
      ensures g == old(g).(proven := g.proven) && old(g).proven <= g.proven
      ensures r.Ok? ==> r.value == j || r.value == j.(committed := true)
      ensures r.Ok? && r.value.committed && !j.committed ==> HoldsSince(h, log, |old(log)|, PublicationOf(k, j))
      ensures r.Ok? ==> Consistent(disk, g, h, k, r.value, g.accepted[k])
      ensures old(Calm()) ==> Calm() && r == if !WasPublishing(old(disk), j) then Ok(j)
                                             else if Holds(h, old(disk), PublicationOf(k, j)) then Ok(j.(committed := true))
                                             else Err(Code(SOURCE_CHANGED))
      ensures old(Calm()) && r.Ok? && r.value.committed && !j.committed ==>
        StageOf(j) !in disk.names && Arrived(h, disk, j) && LinkAt(disk, j.path) == LinkAt(old(disk), j.path)
      ensures old(Calm()) && !WasPublishing(old(disk), j) ==> disk == old(disk)
    {
      r := Ok(j);
      if j.committing && !j.committed {
        var missing, linked := Probe(k, j);
        if missing || linked { r := RecoverFound(k, j, linked); }
      }
    }

    /** The file is taken for published if the destination is what the journal says. */
    method RecoverFound(k: Key, j: Journal, linked: bool) returns (r: Outcome<Journal>)
      requires Valid() && IsKey(k) && RecordOf(disk, k) == Some(j) && j.committing && !j.committed
      requires k in g.accepted && Consistent(disk, g, h, k, j, g.accepted[k]) && (linked ==> k in g.published)
      modifies `disk, `crashed, `clock, `g, `log
      ensures SameJournals(old(disk), disk)
      ensures Valid() && Quiet(old(log), log) && RecordOf(disk, k) == Some(j)
      ensures g == old(g).(proven := g.proven) && old(g).proven <= g.proven
      ensures r.Ok? ==> r.value == j.(committed := true) && HoldsSince(h, log, |old(log)|, PublicationOf(k, j))
                        && Consistent(disk, g, h, k, r.value, g.accepted[k])
      ensures old(Calm()) && (StageOf(j) in old(disk).names <==> linked) ==>
        && Calm() && r == (if Holds(h, old(disk), PublicationOf(k, j)) then Ok(j.(committed := true)) else Err(Code(SOURCE_CHANGED)))
        && (r.Ok? ==> StageOf(j) !in disk.names && Arrived(h, disk, j) && LinkAt(disk, j.path) == LinkAt(old(disk), j.path))
    {
      r := Confirm(k, j);
      if r.Err? { return; }
      HeldArrives(h, disk, k, j);
      if linked {
        ghost var from, seen, held := |old(log)|, log, disk;
        var removed := RemoveStage(k, r.value, g.accepted[k]);
        if removed.Err? { return Err(removed.failure); }
        HoldsSinceGrows(h, seen, log, from, PublicationOf(k, j));
        if old(Calm()) {
          StageIsNotDestination(k, j);
          ArrivedStays(h, held, disk, j);
        }
      }
    }

    /** Compare the destination with the journal; equal chunk digests mean it was published. */
    method Confirm(k: Key, j: Journal) returns (r: Outcome<Journal>)
      requires Valid() && IsKey(k) && RecordOf(disk, k) == Some(j)
      requires k in g.accepted && Consistent(disk, g, h, k, j, g.accepted[k]) && j.committing
      modifies `disk, `crashed, `clock, `g, `log
      ensures SameJournals(old(disk), disk)
      ensures Valid() && Quiet(old(log), log) && RecordOf(disk, k) == Some(j)
      ensures g == old(g).(proven := g.proven) && old(g).proven <= g.proven
      ensures r.Ok? ==> r.value == j.(committed := true) && Consistent(disk, g, h, k, r.value, g.accepted[k])
                        && Holds(h, disk, PublicationOf(k, j)) && HoldsSince(h, log, |old(log)|, PublicationOf(k, j))
      ensures old(Calm()) ==> Calm() && disk == old(disk)
                              && r == if Holds(h, disk, PublicationOf(k, j)) then Ok(j.(committed := true)) else Err(Code(SOURCE_CHANGED))
    {
      var hashes := HashFile(j.path, j.size);
      if hashes.Err? || h.list(hashes.value) != h.list(j.hashes) { return Err(Code(SOURCE_CHANGED)); }
      ProvenKeeps(disk, g, h, PublicationOf(k, j));
      ghost var g' := g.(proven := g.proven + {PublicationOf(k, j)});
      assert log[|log| - 1].after == disk;
      ConsistentFrame(disk, disk, g, g', h, k, j, g.accepted[k]);
      g := g';
      r := Ok(j.(committed := true));
    }

    /** OpenFile with O_CREATE. */
    method OpenStage(k: Key, j: Journal, ghost acc: seq<byte>) returns (r: Outcome<Unit>)
      requires Valid() && IsKey(k) && RecordOf(disk, k) == Some(j) && Consistent(disk, g, h, k, j, acc)
      requires k in g.published ==> j.offset == 0
      modifies `disk, `crashed, `clock, `g, `log
      ensures SameJournals(old(disk), disk)
      ensures Valid() && Quiet(old(log), log) && g == old(g)
      ensures RecordOf(disk, k) == Some(j) && Consistent(disk, g, h, k, j, acc)
      ensures r.Ok? ==> FileAt(disk, StageOf(j)) == Some(StageBytes(old(disk), j))
      ensures r.Err? ==> r == Err(Io) || r == Err(NotExist)
      ensures old(Calm()) ==> r != Err(Io) && Untouched(old(disk), disk)
      ensures old(Calm()) ==> Calm() && (r.Ok? <==> StageOf(j) in old(disk).names || IsDirectory(old(disk), Parent(j.path)))
    {
      ghost var before := disk;
      var ok := Tick();
      assert SameAt(before, disk, StageIn(k, Parent(j.path)));
      assert NodeAt(before, StageOf(j)) == NodeAt(disk, StageOf(j));
      if !ok { return Err(Io); }
      if StageOf(j) !in disk.names {
        if !IsDirectory(disk, Parent(j.path)) { return Err(NotExist); }
        CreateKeeps(disk, g, h, k, j, acc);
        Change(Created(disk, StageOf(j)), Plain, g);
      }
      r := Ok(Unit);
    }

    /** WriteAt and Sync. */
    method WriteStage(k: Key, j: Journal, data: seq<byte>) returns (r: Outcome<Unit>)
      requires Valid() && IsKey(k) && RecordOf(disk, k) == Some(j)
      requires k in g.accepted && Consistent(disk, g, h, k, j, g.accepted[k])
      requires FileAt(disk, StageOf(j)).Some?
      requires data != [] ==> j.offset + |data| <= j.size
      modifies `disk, `crashed, `clock, `g, `log
      ensures SameJournals(old(disk), disk)
      ensures Valid() && Quiet(old(log), log) && g == old(g)
      ensures RecordOf(disk, k) == Some(j)
      ensures r.Ok? ==> FileAt(disk, StageOf(j)) == Some(Overlay(FileAt(old(disk), StageOf(j)).value, j.offset, data))
      ensures old(Calm()) ==> Untouched(old(disk), disk)
      ensures old(Calm()) ==> Calm() && r.Ok?
    {
      var ok := WriteAt(k, j, data);
      if !ok { return Err(Io); }
      ghost var written := disk;
      ok := Tick();
      assert SameAt(written, disk, StageIn(k, Parent(j.path)));
      r := if ok then Ok(Unit) else Err(Io);
    }

    /** A failing write may still have put any prefix of the data in the file. */
    method WriteAt(k: Key, j: Journal, data: seq<byte>) returns (ok: bool)
      requires Valid() && IsKey(k) && RecordOf(disk, k) == Some(j)
      requires k in g.accepted && Consistent(disk, g, h, k, j, g.accepted[k])
      requires FileAt(disk, StageOf(j)).Some?
      requires data != [] ==> j.offset + |data| <= j.size
      modifies `disk, `crashed, `clock, `g, `log
      ensures SameJournals(old(disk), disk)
      ensures Valid() && Quiet(old(log), log) && g == old(g)
      ensures RecordOf(disk, k) == Some(j)
      ensures ok ==> FileAt(disk, StageOf(j)) == Some(Overlay(FileAt(old(disk), StageOf(j)).value, j.offset, data))
      ensures old(Calm()) ==> Untouched(old(disk), disk)
      ensures old(Calm()) ==> Calm() && ok
    {
      ghost var before := disk;
      var at := clock;
      ok := Tick();
      assert SameAt(before, disk, StageIn(k, Parent(j.path)));
      var reached := if ok then data else data[..Min(world.tear(at), |data|)];
      if reached != [] || ok {
        WriteKeeps(disk, g, h, k, reached);
        Change(Written(disk, StageOf(j), j.offset, reached), Plain, g);
      }
    }

    method LstatStage(k: Key, j: Journal) returns (info: Outcome<Node>)
      requires Valid() && IsKey(k) && RecordOf(disk, k) == Some(j)
      requires k in g.accepted && Consistent(disk, g, h, k, j, g.accepted[k])
      modifies `disk, `crashed, `clock, `log
      ensures SameJournals(old(disk), disk)
      ensures Valid() && Quiet(old(log), log) && RecordOf(disk, k) == Some(j) && Consistent(disk, g, h, k, j, g.accepted[k])
      ensures (StageOf(j) in disk.names <==> StageOf(j) in old(disk).names) && StageBytes(disk, j) == StageBytes(old(disk), j)
      ensures info.Ok? ==> FileAt(disk, StageOf(j)).Some? && info.value.File?
      ensures old(Calm()) ==> Calm() && disk == old(disk)
    {
      ghost var before := disk;
      info := Lstat(StageOf(j));
      assert SameAt(before, disk, StageIn(k, Parent(j.path)));
      assert NodeAt(before, StageOf(j)) == NodeAt(disk, StageOf(j));
    }

    /** The end of transferWrite: the chunk at the journal's offset. */
    method Extend(k: Key, j: Journal, data: seq<byte>) returns (r: Outcome<Journal>)
      requires Valid() && IsKey(k) && RecordOf(disk, k) == Some(j) && !j.committed
      requires k in g.accepted && Consistent(disk, g, h, k, j, g.accepted[k])
      requires ChunkAllowed(j.size, j.offset, |data|)
      modifies `disk, `crashed, `clock, `g, `log
      ensures SameJournals(old(disk), disk)
      ensures Valid() && Quiet(old(log), log) && g == old(g) && RecordOf(disk, k) == Some(j)
      ensures r.Ok? ==>
        && Consistent(disk, g, h, k, r.value, g.accepted[k] + data)
        && r.value == j.(offset := j.offset + |data|, hashes := if data == [] then j.hashes else j.hashes + [h.chunk(data)])
        && FileAt(disk, StageOf(j)) == Some(Overlay(StageBytes(old(disk), j), j.offset, data))
      ensures old(Calm()) ==> (r.Err? ==> r == Err(NotExist)) && Untouched(old(disk), disk)
      ensures old(Calm()) ==> Calm() && (r.Ok? <==> StageOf(j) in old(disk).names || IsDirectory(old(disk), Parent(j.path)))
    {
      var info := LstatStage(k, j);
      if info.Ok? && !info.value.File? { return Err(Code(PATH)); }
      var handle := OpenStage(k, j, g.accepted[k]);
      if handle.Err? { return Err(handle.failure); }
      ghost var mid := disk;
      var wrote := WriteStage(k, j, data);
      if wrote.Err? { return Err(wrote.failure); }
      ExtendedConsistent(mid, disk, g, h, k, j, g.accepted[k], data);
      r := Ok(j.(offset := j.offset + |data|, hashes := if data == [] then j.hashes else j.hashes + [h.chunk(data)]));
    }

    /** transferWrite. A chunk behind the journal's offset is checked and changes nothing; the chunk
        at the offset extends the staging file and the journal. */
    method WriteChunk(req: Request, j: Journal) returns (r: Outcome<Journal>, ghost acc: seq<byte>)
      requires Valid() && IsKey(req.key) && RecordOf(disk, req.key) == Some(j) && !j.committed
      requires req.key in g.accepted && Consistent(disk, g, h, req.key, j, g.accepted[req.key])
      requires req.offset >= 0
      modifies `disk, `crashed, `clock, `g, `log
      ensures SameJournals(old(disk), disk)
      ensures Valid() && Quiet(old(log), log) && g == old(g) && RecordOf(disk, req.key) == Some(j)
      ensures r.Ok? ==> Consistent(disk, g, h, req.key, r.value, acc) && ChunkFits(h, req, j) && ChunkIn(h, req, r.value)
      ensures r.Ok? && req.offset < j.offset ==> r.value == j && acc == g.accepted[req.key] && disk == old(disk)
      ensures r.Ok? ==> r.value == WithChunk(req, j) && req.offset <= j.offset
      ensures r.Ok? && req.offset == j.offset ==>
        && acc == g.accepted[req.key] + req.data.value
        && r.value == j.(offset := j.offset + |req.data.value|,
                         hashes := if req.data.value == [] then j.hashes else j.hashes + [req.digest])
        && FileAt(disk, StageOf(j)) == Some(Overlay(StageBytes(old(disk), j), j.offset, req.data.value))
      ensures !ChunkFits(h, req, j) ==> r == Err(ChunkRefused(h, req, j).value) && disk == old(disk)
      ensures old(Calm()) ==> (r.Err? && ChunkFits(h, req, j) ==> r == Err(NotExist)) && Untouched(old(disk), disk)
      ensures old(Calm()) ==> Calm() && (r.Ok? <==> (ChunkFits(h, req, j)
        && (req.offset < j.offset || StageOf(j) in old(disk).names || IsDirectory(old(disk), Parent(j.path)))))
    {
      var k := req.key;
      acc := g.accepted[k];
      if req.data.None? || !ChunkAllowed(j.size, req.offset, |req.data.value|) { return Err(Code(CHUNK_CODE)), acc; }
      var data := req.data.value;
      var digest := h.chunk(data);
      if digest != req.digest { return Err(Code(DIGEST)), acc; }
      var index := req.offset / CHUNK;
      if req.offset < j.offset {
        if index >= |j.hashes| || j.hashes[index] != digest { return Err(Code(SOURCE_CHANGED)), acc; }
        FitsAfter(h, req, disk, g, j, acc);
        return Ok(j), acc;
      }
      if req.offset != j.offset { return Err(Code(OFFSET)), acc; }
      FitsAfter(h, req, disk, g, j, acc);
      r := Extend(k, j, data);
      acc := acc + data;
    }

    /** The instant before publishing: the journal and the staging file stay what they are. */
    method TickKeepingStage(k: Key, j: Journal) returns (ok: bool)
      requires Valid() && IsKey(k) && RecordOf(disk, k) == Some(j)
      requires k in g.accepted && Consistent(disk, g, h, k, j, g.accepted[k])
      modifies `disk, `crashed, `clock, `log
      ensures SameJournals(old(disk), disk)
      ensures Valid() && Quiet(old(log), log) && RecordOf(disk, k) == Some(j) && Consistent(disk, g, h, k, j, g.accepted[k])
      ensures NodeAt(disk, StageOf(j)) == NodeAt(old(disk), StageOf(j)) && FileAt(disk, StageOf(j)) == FileAt(old(disk), StageOf(j))
      ensures old(Calm()) ==> Calm() && ok && disk == old(disk)
    {
      ghost var before := disk;
      ok := Tick();
      assert SameAt(before, disk, StageIn(k, Parent(j.path)));
    }

    /** Rename (replacing) or Link (never replacing) the staging file to its destination: the one
        primitive that gives a destination its content. */
    method PublishStage(k: Key, j: Journal, replace: bool) returns (r: Outcome<Unit>)
      requires Valid() && IsKey(k) && RecordOf(disk, k) == Some(j) && j.committing
      requires k in g.accepted && Consistent(disk, g, h, k, j, g.accepted[k])
      requires FileAt(disk, StageOf(j)).Some? ==> |FileAt(disk, StageOf(j)).value| == j.size
                                                  && ChunkHashes(h, FileAt(disk, StageOf(j)).value) == j.hashes
      modifies `disk, `crashed, `clock, `g, `log
      ensures SameJournals(old(disk), disk)
      ensures Valid() && OnlyPublishes(k, replace, old(g).accepted[k], old(log), log) && RecordOf(disk, k) == Some(j)
      ensures r.Err? ==> g == old(g)
      ensures r.Ok? ==> g == Publicized(old(g), k, j) && Consistent(disk, g, h, k, j, g.accepted[k])
      ensures r.Ok? ==> PublishedSince(log, |old(log)|, k, replace, g.accepted[k], j.path)
                        && HoldsSince(h, log, |old(log)|, PublicationOf(k, j))
                        && FileAt(disk, j.path) == FileAt(old(disk), StageOf(j)) && FileAt(disk, j.path).Some?
                        && Arrived(h, disk, j) && !LinkAt(disk, j.path)
                        && (!replace ==> StageOf(j) in disk.names)
      ensures old(Calm()) ==> Calm() && (r.Ok? <==> PublishAllowed(old(disk), j, replace))
                              && (r.Err? ==> r == Err(MoveRefused(old(disk), j, replace).value))
    {
      var ok := TickKeepingStage(k, j);
      if !ok { return Err(Io); }
      var refused := MoveRefused(disk, j, replace);
      if refused.Some? { return Err(refused.value); }
      MoveStage(k, j, replace, |old(log)|);
      r := Ok(Unit);
    }

    /** The rename or link itself. */
    method MoveStage(k: Key, j: Journal, replace: bool, ghost from: nat)
      requires Valid() && IsKey(k) && RecordOf(disk, k) == Some(j) && j.committing
      requires k in g.accepted && Consistent(disk, g, h, k, j, g.accepted[k])
      requires StageOf(j) in disk.names && |FileAt(disk, StageOf(j)).value| == j.size
      requires ChunkHashes(h, FileAt(disk, StageOf(j)).value) == j.hashes
      requires (!replace ==> j.path !in disk.names) && from <= |log|
      modifies `disk, `g, `log
      ensures SameJournals(old(disk), disk)
      ensures Valid() && RecordOf(disk, k) == Some(j)
      ensures g == Publicized(old(g), k, j) && Consistent(disk, g, h, k, j, g.accepted[k])
      ensures log == old(log) + [Step(old(disk), disk, Publish(k, replace, g.accepted[k]))]
      ensures PublishedSince(log, from, k, replace, g.accepted[k], j.path) && HoldsSince(h, log, from, PublicationOf(k, j))
      ensures FileAt(disk, j.path) == FileAt(old(disk), StageOf(j)) && FileAt(disk, j.path).Some?
      ensures Arrived(h, disk, j) && !LinkAt(disk, j.path)
      ensures !replace ==> StageOf(j) in disk.names
    {
      AcceptedNotReserved(j.path);
      ProtocolNamesReserved(k, Parent(j.path));
      PublishKeeps(disk, g, h, k, j, replace);
      PublishIsNoJournal(disk, k, j, replace);
      PublishedAt(disk, if replace then Renamed(disk, StageOf(j), j.path) else Linked(disk, StageOf(j), j.path),
                  h, k, j, replace, g.accepted[k]);
      var after := if replace then Renamed(disk, StageOf(j), j.path) else Linked(disk, StageOf(j), j.path);
      ghost var n := |log|;
      Change(after, Publish(k, replace, g.accepted[k]), Publicized(g, k, j));
      assert log[n].effect == Publish(k, replace, g.accepted[k]) && Holds(h, log[n].after, PublicationOf(k, j));
      HeldArrives(h, disk, k, j);
    }

    /** The commit branch: re-hash the staging file, look at the destination, note the intention in
        the journal, publish. */
    method CommitUpload(req: Request, j: Journal) returns (r: Outcome<Journal>)
      requires Valid() && IsKey(req.key) && RecordOf(disk, req.key) == Some(j) && !j.committed
      requires req.key in g.accepted && Consistent(disk, g, h, req.key, j, g.accepted[req.key])
      modifies `disk, `crashed, `clock, `g, `log
      ensures Valid() && OnlyPublishes(req.key, req.replace, old(g).accepted[req.key], old(log), log)
      ensures g.acked == old(g).acked && g.abandoned == old(g).abandoned && g.accepted == old(g).accepted
      ensures SameBut(req.key, old(disk), disk) && Marked(j, RecordOf(disk, req.key))
      ensures RecordOf(disk, req.key) != Some(j) || !Quiet(old(log), log) ==> req.digest == h.list(j.hashes)
      ensures r.Ok? ==> Committing(disk, req.key) && Consistent(disk, g, h, req.key, r.value, g.accepted[req.key])
                        && r.value == j.(committing := true, committed := true, updated := r.value.updated)
                        && PublishedSince(log, |old(log)|, req.key, req.replace, g.accepted[req.key], j.path)
                        && HoldsSince(h, log, |old(log)|, PublicationOf(req.key, j))
      ensures old(Calm()) ==> Calm() && (r.Ok? <==> CommitAllowed(old(disk), h, req, j))
                              && (r.Err? ==> r == Err(CommitRefused(old(disk), h, req, j).value))
      ensures old(Calm()) && r.Ok? ==> Arrived(h, disk, j) && !LinkAt(disk, j.path)
    {
      var k := req.key;
      AcceptedNotReserved(j.path);
      var whole := StageMatches(req, j);
      if whole.Err? { return Err(whole.failure); }
      ghost var hashed := disk;
      var free := TargetFree(j.path, req.replace);
      if free.Err? { return Err(free.failure); }
      assert SameAt(hashed, disk, StageIn(k, Parent(j.path)));
      r := MarkAndPublish(k, j, req.replace);
    }

    /** The destination is free, or a file that may be replaced. */
    method TargetFree(p: Path, replace: bool) returns (r: Outcome<Unit>)
      requires Valid()
      modifies `disk, `crashed, `clock, `log
      ensures Valid() && Quiet(old(log), log) && Undisturbed(old(disk), disk, g, h)
      ensures old(Calm()) ==> Calm() && disk == old(disk)
                              && r == if NodeAt(disk, p) == None || (NodeAt(disk, p).value.File? && replace) then Ok(Unit)
                                      else Err(Code(if NodeAt(disk, p).value.File? then CONFLICT else TYPE_CONFLICT))
    {
      var dest := Lstat(p);
      if dest == Err(Io) { return Err(Io); }
      if dest.Ok? && (!dest.value.File? || !replace) {
        return Err(Code(if !dest.value.File? then TYPE_CONFLICT else CONFLICT));
      }
      r := Ok(Unit);
    }

    /** The journal, the client's digest and the staging file all describe the same whole file. */
    method StageMatches(req: Request, j: Journal) returns (r: Outcome<Unit>)
      requires Valid() && IsKey(req.key) && RecordOf(disk, req.key) == Some(j)
      requires req.key in g.accepted && Consistent(disk, g, h, req.key, j, g.accepted[req.key])
      modifies `disk, `crashed, `clock, `log
      ensures Valid() && Quiet(old(log), log) && Undisturbed(old(disk), disk, g, h)
      ensures r.Ok? ==> WholeFile(disk, h, req, j)
      ensures old(Calm()) ==> Calm() && disk == old(disk)
                              && r == if WholeFile(disk, h, req, j) then Ok(Unit) else Err(StageRefused(disk, h, req, j).value)
    {
      EnvRefl(disk);
      EnvUndisturbed(disk, disk, g, h);
      if j.offset != j.size || req.digest != h.list(j.hashes) { return Err(Code(DIGEST)); }
      var hashes := HashFile(StageOf(j), j.size);
      StageReads(disk, g, h, req.key, j, g.accepted[req.key]);
      if hashes.Err? { return Err(hashes.failure); }
      if h.list(hashes.value) != req.digest { return Err(Code(DIGEST)); }
      r := Ok(Unit);
    }

    method MarkAndPublish(k: Key, j: Journal, replace: bool) returns (r: Outcome<Journal>)
      requires Valid() && IsKey(k) && RecordOf(disk, k) == Some(j) && j.offset == j.size && !j.committed
      requires k in g.accepted && Consistent(disk, g, h, k, j, g.accepted[k])
      requires FileAt(disk, StageOf(j)).Some? && |FileAt(disk, StageOf(j)).value| == j.size
      requires ChunkHashes(h, FileAt(disk, StageOf(j)).value) == j.hashes
      modifies `disk, `crashed, `clock, `g, `log
      ensures Valid() && OnlyPublishes(k, replace, old(g).accepted[k], old(log), log)
      ensures g.acked == old(g).acked && g.abandoned == old(g).abandoned && g.accepted == old(g).accepted
      ensures SameBut(k, old(disk), disk) && Marked(j, RecordOf(disk, k))
      ensures k in g.accepted
      ensures r.Ok? ==> Committing(disk, k) && Consistent(disk, g, h, k, r.value, g.accepted[k])
                        && r.value == j.(committing := true, committed := true, updated := r.value.updated)
                        && PublishedSince(log, |old(log)|, k, replace, g.accepted[k], j.path)
                        && HoldsSince(h, log, |old(log)|, PublicationOf(k, j))
      ensures old(Calm()) ==> Calm() && (r.Ok? <==> PublishAllowed(old(disk), j, replace))
      ensures old(Calm()) && r.Err? ==>
        r == Err(if MoveRefused(old(disk), j, replace) == Some(Exist) then Code(CONFLICT) else MoveRefused(old(disk), j, replace).value)
      ensures old(Calm()) && r.Ok? ==> Arrived(h, disk, j) && !LinkAt(disk, j.path)
    {
      AcceptedNotReserved(j.path);
      var marked := Mark(k, j);
      if marked.Err? { return Err(marked.failure); }
      r := FinishPublish(k, marked.value, replace);
    }

    /** Note the intention in the journal. */
    method Mark(k: Key, j: Journal) returns (r: Outcome<Journal>)
      requires Valid() && IsKey(k) && RecordOf(disk, k) == Some(j) && j.offset == j.size && !j.committed
      requires k in g.accepted && Consistent(disk, g, h, k, j, g.accepted[k])
      modifies `disk, `crashed, `clock, `g, `log
      ensures Valid() && Quiet(old(log), log) && g == old(g)
      ensures SameBut(k, old(disk), disk)
      ensures r.Err? ==> RecordOf(disk, k) == Some(j)
      ensures r.Ok? ==> RecordOf(disk, k) == Some(r.value) && r.value == j.(committing := true, updated := r.value.updated)
                        && Consistent(disk, g, h, k, r.value, g.accepted[k])
      ensures NodeAt(disk, StageOf(j)) == NodeAt(old(disk), StageOf(j)) && FileAt(disk, StageOf(j)) == FileAt(old(disk), StageOf(j))
      ensures old(Calm()) ==> Calm() && r.Ok? && forall p :: !Reserved(p) ==> SameAt(old(disk), disk, p)
    {
      var marked := j.(committing := true);
      assert KeyInv(disk, g, h, k);
      assert Consistent(disk, g, h, k, marked, g.accepted[k]);
      ghost var unmarked := disk;
      r := Save(k, marked, g.accepted[k]);
      assert SameAt(unmarked, disk, StageIn(k, Parent(j.path)));
      assert g.accepted == old(g).accepted;
    }

    method FinishPublish(k: Key, j: Journal, replace: bool) returns (r: Outcome<Journal>)
      requires Valid() && IsKey(k) && RecordOf(disk, k) == Some(j) && j.committing
      requires k in g.accepted && Consistent(disk, g, h, k, j, g.accepted[k])
      requires FileAt(disk, StageOf(j)).Some? ==> |FileAt(disk, StageOf(j)).value| == j.size
                                                  && ChunkHashes(h, FileAt(disk, StageOf(j)).value) == j.hashes
      modifies `disk, `crashed, `clock, `g, `log
      ensures SameJournals(old(disk), disk)
      ensures Valid() && OnlyPublishes(k, replace, old(g).accepted[k], old(log), log) && RecordOf(disk, k) == Some(j)
      ensures g.acked == old(g).acked && g.abandoned == old(g).abandoned && g.accepted == old(g).accepted
      ensures r.Ok? ==> r.value == j.(committed := true) && Consistent(disk, g, h, k, r.value, g.accepted[k])
                        && PublishedSince(log, |old(log)|, k, replace, g.accepted[k], j.path)
                        && HoldsSince(h, log, |old(log)|, PublicationOf(k, j))
      ensures old(Calm()) ==> Calm() && (r.Ok? <==> PublishAllowed(old(disk), j, replace))
      ensures old(Calm()) && r.Err? ==>
        r == Err(if MoveRefused(old(disk), j, replace) == Some(Exist) then Code(CONFLICT) else MoveRefused(old(disk), j, replace).value)
      ensures old(Calm()) && r.Ok? ==> Arrived(h, disk, j) && !LinkAt(disk, j.path)
    {
      var published := PublishStage(k, j, replace);
      if published.Err? { return Err(if published.failure == Exist then Code(CONFLICT) else published.failure); }
      if !replace {
        ghost var middle := log;
        var removed := RemoveLeftover(k, j, replace, |old(log)|);
        OnlyPublishesThenQuiet(k, replace, g.accepted[k], old(log), middle, log);
        if removed.Err? { return Err(removed.failure); }
      }
      r := Ok(j.(committed := true));
    }

    /** Remove the staging name of a file that was linked to its destination. */
    method RemoveLeftover(k: Key, j: Journal, ghost replace: bool, ghost from: nat) returns (r: Outcome<Unit>)
      requires Valid() && IsKey(k) && RecordOf(disk, k) == Some(j) && k in g.published
      requires k in g.accepted && Consistent(disk, g, h, k, j, g.accepted[k]) && StageOf(j) in disk.names
      requires PublishedSince(log, from, k, replace, g.accepted[k], j.path) && HoldsSince(h, log, from, PublicationOf(k, j))
      requires Arrived(h, disk, j) && !LinkAt(disk, j.path)
      modifies `disk, `crashed, `clock, `g, `log
      ensures SameJournals(old(disk), disk)
      ensures Valid() && Quiet(old(log), log) && RecordOf(disk, k) == Some(j) && g == old(g)
      ensures Consistent(disk, g, h, k, j, g.accepted[k])
      ensures PublishedSince(log, from, k, replace, g.accepted[k], j.path) && HoldsSince(h, log, from, PublicationOf(k, j))
      ensures old(Calm()) ==> Calm() && r.Ok? && Arrived(h, disk, j) && !LinkAt(disk, j.path)
    {
      r := RemoveStage(k, j, g.accepted[k]);
      PublishedSinceGrows(old(log), log, from, k, replace, g.accepted[k], j.path);
      HoldsSinceGrows(h, old(log), log, from, PublicationOf(k, j));
      if old(Calm()) {
        StageIsNotDestination(k, j);
        ArrivedStays(h, old(disk), disk, j);
      }
    }

    /** The discard branch: the staging file first, then the journal. */
    method DiscardUpload(k: Key, j: Journal) returns (r: Outcome<Unit>)
      requires Valid() && IsKey(k) && k in g.accepted && Consistent(disk, g, h, k, j, g.accepted[k])
      requires RecordOf(disk, k).Some? && RecordOf(disk, k).value.path == j.path
      modifies `disk, `crashed, `clock, `g, `log
      ensures Valid() && GaveUp(k, old(Now()), r, Now())
      ensures r.Ok? <==> old(Works()) && world.fault(old(clock) + 1) == NoFault
      ensures r.Err? ==> RecordOf(disk, k) == RecordOf(old(disk), k)
      ensures r.Err? ==> (StageOf(j) in disk.names <==> StageOf(j) in old(disk).names && !old(Works()))
      ensures old(Calm()) ==> r.Ok? && disk == DropName(DropName(old(disk), StageOf(j)), JournalFile(k))
    {
      assert KeyInv(disk, g, h, k);
      ghost var a := Now();
      var removed := RemoveStage(k, j, g.accepted[k]);
      ghost var m := Now();
      if removed.Err? && removed != Err(NotExist) {
        r := Err(removed.failure);
      } else {
        var forgotten := RemoveJournal(k);
        r := if forgotten.Err? && forgotten != Err(NotExist) then Err(forgotten.failure) else Ok(Unit);
      }
      GivenUp(k, a, m, r, Now());
    }

    /** One directory of MkdirAll. */
    method MakeOne(p: Path) returns (r: Outcome<Unit>)
      requires Valid() && !Reserved(p) && |p| > 0
      modifies `disk, `crashed, `clock, `g, `log
      ensures Valid() && Quiet(old(log), log) && g == old(g) && SameJournals(old(disk), disk)
      ensures old(Calm()) ==> Calm() && (r.Err? ==> disk == old(disk)) && (r.Ok? ==> disk == SetName(old(disk), p, Directory))
                              && (r.Ok? <==> NodeAt(old(disk), p) == None || NodeAt(old(disk), p) == Some(Directory))
    {
      var info := Lstat(p);
      if info == Err(Io) || (info.Ok? && !info.value.Directory?) { return Err(Io); }
      if info == Err(NotExist) {
        MkdirKeeps(disk, g, h, p);
        Change(SetName(disk, p, Directory), MakeDir, g);
      } else {
        assert disk.names[p := Directory] == disk.names;
      }
      r := Ok(Unit);
    }

    /** os.Root.MkdirAll. */
    method MkdirAll(p: Path) returns (r: Outcome<Unit>)
      requires Valid() && AcceptedPath(p)
      modifies `disk, `crashed, `clock, `g, `log
      ensures Valid() && Quiet(old(log), log) && g == old(g) && SameJournals(old(disk), disk)
      ensures old(Calm()) ==> r == if Makeable(old(disk), p) then Ok(Unit) else Err(Io)
      ensures old(Calm()) ==> Calm() && (r.Ok? ==> forall n :: 0 < n <= |p| ==> IsDirectory(disk, p[..n]))
    {
      AcceptedNotReserved(p);
      for i := 0 to |p|
        invariant Valid() && Quiet(old(log), log) && g == old(g) && SameJournals(old(disk), disk)
        invariant old(Calm()) ==> forall n :: i < n <= |p| ==> NodeAt(disk, p[..n]) == NodeAt(old(disk), p[..n])
        invariant old(Calm()) ==> forall n :: 0 < n <= i ==> NodeAt(old(disk), p[..n]) == None || NodeAt(old(disk), p[..n]) == Some(Directory)
        invariant old(Calm()) ==> Calm() && forall n :: 0 < n <= i ==> IsDirectory(disk, p[..n])
      {
        var made := MakeOne(p[..i + 1]);
        if made.Err? { return Err(Io); }
      }
      r := Ok(Unit);
    }

    /** ensureTransferState: the protocol's directory exists. */
    method EnsureState() returns (r: Outcome<Unit>)
      requires Valid()
      modifies `disk, `crashed, `clock, `g, `log
      ensures Valid() && Quiet(old(log), log) && g == old(g)
      ensures SameJournals(old(disk), disk)
      ensures old(Calm()) ==> Calm() && Untouched(old(disk), disk)
      ensures old(Calm()) ==> r == if StateReady(old(disk)) then Ok(Unit) else Err(Code(STATE))
      ensures old(Calm()) && StateReady(old(disk)) ==> HasState(disk)
      ensures old(Calm()) && !StateReady(old(disk)) ==> disk == old(disk)
      ensures old(Calm()) && HasState(old(disk)) ==> r.Ok? && disk == old(disk)
    {
      ProtocolNamesReserved(Key("", ""), []);
      var ok := Tick();
      if !ok { return Err(Io); }
      if [STATE_DIR] !in disk.names {
        MkdirKeeps(disk, g, h, [STATE_DIR]);
        Change(SetName(disk, [STATE_DIR], Directory), MakeDir, g);
      }
      var info := Lstat([STATE_DIR]);
      if info.Err? { return Err(info.failure); }
      r := if info.value.Directory? then Ok(Unit) else Err(Code(STATE));
    }

    /** A new journal, saved before any staging file exists. */
    method Begin(req: Request, p: Path) returns (r: Outcome<Journal>)
      requires Valid() && IsKey(req.key) && JournalFile(req.key) !in disk.names
      requires p == TransferPath(req.path) && p != [] && 0 <= req.size <= BYTE_LIMIT
      modifies `disk, `crashed, `clock, `g, `log
      ensures Valid() && Quiet(old(log), log) && SameBut(req.key, old(disk), disk)
      ensures r.Ok? ==> g == old(g).(accepted := old(g).accepted[req.key := []])
                        && RecordOf(disk, req.key) == Some(r.value) && r.value == Begun(req, r.value.updated)
                        && Consistent(disk, g, h, req.key, r.value, [])
      ensures r.Err? ==> g == old(g) && RecordOf(disk, req.key) == None
      ensures r.Ok? ==> StageIn(req.key, Parent(p)) !in disk.names
      ensures old(Calm()) ==> Calm() && r.Ok? && Untouched(old(disk), disk)
    {
      assert KeyInv(disk, g, h, req.key);
      var j := Begun(req, 0);
      assert StageOf(j) !in disk.names;
      assert ChunkHashes(h, []) == [];
      assert Consistent(disk, g, h, req.key, j, []);
      ghost var before := disk;
      r := Save(req.key, j, []);
      assert SameAt(before, disk, StageIn(req.key, Parent(p)));
    }

    /** Save the journal and report it. */
    method Finish(ghost req: Request, k: Key, j: Journal, ghost acc: seq<byte>) returns (r: Outcome<Reply>)
      requires Valid() && IsKey(k) && Consistent(disk, g, h, k, j, acc) && req.key == k && !req.action.Discard? && !req.action.Mkdir?
      requires RecordOf(disk, k).Some? && RecordOf(disk, k).value.path == j.path
      requires j.committing ==> RecordOf(disk, k).value.committing
      requires k in g.acked ==> AckHolds(g.acked[k], j)
      modifies `disk, `crashed, `clock, `g, `log
      ensures Valid() && Quiet(old(log), log) && Frames(h, req, old(Now()), r, Now())
      ensures r.Ok? ==> r.value == Reply(j.offset, j.committed) && Reported(h, Now(), k, j.path, j.size, r.value)
                        && RecordOf(disk, k) == Some(j.(updated := RecordOf(disk, k).value.updated))
                        && g.accepted[k] == acc
      ensures forall dir :: SameAt(old(disk), disk, StageIn(k, dir))
      ensures old(Calm()) ==> Calm() && r.Ok? && forall p :: !Reserved(p) ==> SameAt(old(disk), disk, p)
    {
      ghost var a := Now();
      var saved := Save(k, j, acc);
      if saved.Err? {
        RefusedFrames(h, req, a, Now(), saved.failure);
        return Err(saved.failure);
      }
      AckKeeps(disk, g, h, k, saved.value);
      g := g.(acked := g.acked[k := Ack(j.offset, j.committed)]);
      assert j.committed ==> PublicationOf(k, j) in g.proven;
      r := Ok(Reply(j.offset, j.committed));
      SavedFrames(h, req, a, r, Now(), acc, Ack(j.offset, j.committed));
    }

    /** Save and report j, the request having looked around, begun the upload or noted a commit since a. */
    method FinishFrom(req: Request, j: Journal, ghost acc: seq<byte>, ghost a: Moment) returns (r: Outcome<Reply>)
      requires Valid() && IsKey(req.key) && Consistent(disk, g, h, req.key, j, acc) && !req.action.Discard? && !req.action.Mkdir?
      requires RecordOf(disk, req.key).Some? && RecordOf(disk, req.key).value.path == j.path
      requires j.committing ==> RecordOf(disk, req.key).value.committing
      requires req.key in g.acked ==> AckHolds(g.acked[req.key], j)
      requires Onward(h, req, a, Now()) && MarkedRightly(h, req, a.disk, disk)
      requires Committing(disk, req.key) && !Committing(a.disk, req.key) ==> RecordOf(disk, req.key).value.hashes == j.hashes
      modifies `disk, `crashed, `clock, `g, `log
      ensures Valid() && Quiet(old(log), log) && Frames(h, req, a, r, Now())
      ensures r.Ok? ==> r.value == Reply(j.offset, j.committed) && Reported(h, Now(), req.key, j.path, j.size, r.value)
                        && RecordOf(disk, req.key) == Some(j.(updated := RecordOf(disk, req.key).value.updated))
                        && g.accepted[req.key] == acc
      ensures forall dir :: SameAt(old(disk), disk, StageIn(req.key, dir))
      ensures old(Calm()) ==> Calm() && r.Ok? && forall p :: !Reserved(p) ==> SameAt(old(disk), disk, p)
    {
      ghost var m := Now();
      r := Finish(req, req.key, j, acc);
      FramesFrom(h, req, a, m, r, Now());
    }

    /** What a request does once its journal is loaded or begun. */
    method Act(req: Request, j0: Journal) returns (r: Outcome<Reply>)
      requires Valid() && IsKey(req.key) && RecordOf(disk, req.key) == Some(j0) && req.offset >= 0 && j0.size == req.size
      requires req.key in g.accepted && Consistent(disk, g, h, req.key, j0, g.accepted[req.key]) && !req.action.Mkdir?
      modifies `disk, `crashed, `clock, `g, `log
      ensures Valid() && Frames(h, req, old(Now()), r, Now())
      ensures r.Ok? ==> Reports(h, req, j0.path, |old(log)|, old(Now()), r.value, Now())
      ensures old(Calm()) ==> Exact(h, req, old(disk), j0, r, disk)
      ensures old(Calm()) && !j0.committed && !req.action.Discard? && r.Ok? && r.value.committed ==>
        && RecordOf(disk, req.key).Some? && Arrived(h, disk, RecordOf(disk, req.key).value)
        && LinkAt(disk, j0.path) == LinkAt(old(disk), j0.path)
    {
      ghost var a := Now();
      var recovered := Recover(req.key, j0);
      ghost var m := Now();
      LookingIsOnward(h, req, a, m);
      if recovered.Err? {
        LookingFrames(h, req, a, Err(recovered.failure), m);
        return Err(recovered.failure);
      }
      if req.action.Discard? {
        r := Forget(req, recovered.value);
      } else {
        r := Perform(req, j0, recovered.value, |a.log|);
      }
      AnswerFrom(h, req, j0.path, |a.log|, a, m, r, Now());
    }

    method Forget(req: Request, j: Journal) returns (r: Outcome<Reply>)
      requires Valid() && IsKey(req.key) && req.action.Discard?
      requires req.key in g.accepted && Consistent(disk, g, h, req.key, j, g.accepted[req.key])
      requires RecordOf(disk, req.key).Some? && RecordOf(disk, req.key).value.path == j.path
      modifies `disk, `crashed, `clock, `g, `log
      ensures Valid() && Frames(h, req, old(Now()), r, Now())
      ensures r.Ok? ==> JournalFile(req.key) !in disk.names
      ensures old(Calm()) ==> r == Ok(Reply(0, false))
    {
      ghost var a := Now();
      var gone := DiscardUpload(req.key, j);
      r := if gone.Ok? then Ok(Reply(0, false)) else Err(gone.failure);
      GivingUpFrames(h, req, a, gone, Now());
    }

    /** The rest of it: j is the journal on disk, or that journal found to be published since from. */
    method Perform(req: Request, ghost j0: Journal, j: Journal, ghost from: nat) returns (r: Outcome<Reply>)
      requires Valid() && IsKey(req.key) && RecordOf(disk, req.key) == Some(j0) && req.offset >= 0 && j.size == req.size
      requires req.key in g.accepted && Consistent(disk, g, h, req.key, j, g.accepted[req.key]) && !req.action.Mkdir? && !req.action.Discard?
      requires from <= |log| && (j == j0 || (j == j0.(committed := true) && HoldsSince(h, log, from, PublicationOf(req.key, j))))
      modifies `disk, `crashed, `clock, `g, `log
      ensures Valid() && Frames(h, req, old(Now()), r, Now())
      ensures r.Ok? ==> Reports(h, req, j.path, from, old(Now()), r.value, Now())
      ensures old(Calm()) ==>
        if req.action.Commit? && !j.committed then
          r == if CommitAllowed(old(disk), h, req, j) then Ok(Reply(j.size, true)) else Err(CommitRefused(old(disk), h, req, j).value)
        else if req.action.Write? && !j.committed then WroteTo(h, req, j, old(disk), r, disk)
        else r == Ok(Reply(j.offset, j.committed))
      ensures old(Calm()) && r.Ok? && r.value.committed && (j.committed ==> Arrived(h, old(disk), j)) ==>
        && RecordOf(disk, req.key).Some? && Arrived(h, disk, RecordOf(disk, req.key).value)
        && LinkAt(disk, j.path) == LinkAt(old(disk), j.path)
    {
      assert KeyInv(disk, g, h, req.key);
      if req.action.Write? && !j.committed {
        r := WriteAndFinish(req, j, from);
      } else if req.action.Commit? && !j.committed {
        r := CommitAndFinish(req, j, from);
      } else {
        r := Confirmed(req, j0, j, from);
      }
    }

    /** Nothing is left to do but to save and report. */
    method Confirmed(req: Request, ghost j0: Journal, j: Journal, ghost from: nat) returns (r: Outcome<Reply>)
      requires Valid() && IsKey(req.key) && RecordOf(disk, req.key) == Some(j0) && j.size == req.size
      requires req.key in g.accepted && Consistent(disk, g, h, req.key, j, g.accepted[req.key])
      requires !req.action.Mkdir? && !req.action.Discard? && ((req.action.Write? || req.action.Commit?) ==> j.committed)
      requires from <= |log| && (j == j0 || (j == j0.(committed := true) && HoldsSince(h, log, from, PublicationOf(req.key, j))))
      modifies `disk, `crashed, `clock, `g, `log
      ensures Valid() && Frames(h, req, old(Now()), r, Now())
      ensures r.Ok? ==> Reports(h, req, j.path, from, old(Now()), r.value, Now())
      ensures old(Calm()) ==> r == Ok(Reply(j.offset, j.committed))
      ensures old(Calm()) && Arrived(h, old(disk), j) ==>
        && RecordOf(disk, req.key).Some? && Arrived(h, disk, RecordOf(disk, req.key).value)
        && LinkAt(disk, j.path) == LinkAt(old(disk), j.path)
    {
      assert KeyInv(disk, g, h, req.key);
      AcceptedNotReserved(j.path);
      r := Finish(req, req.key, j, g.accepted[req.key]);
      if r.Ok? && j != j0 { HoldsSinceGrows(h, old(log), log, from, PublicationOf(req.key, j)); }
      if old(Calm()) && Arrived(h, old(disk), j) { ArrivedStays(h, old(disk), disk, j); }
    }

    method WriteAndFinish(req: Request, j: Journal, ghost from: nat) returns (r: Outcome<Reply>)
      requires Valid() && IsKey(req.key) && RecordOf(disk, req.key) == Some(j) && !j.committed && req.offset >= 0 && j.size == req.size
      requires req.key in g.accepted && Consistent(disk, g, h, req.key, j, g.accepted[req.key]) && req.action.Write?
      modifies `disk, `crashed, `clock, `g, `log
      ensures Valid() && Frames(h, req, old(Now()), r, Now())
      ensures r.Ok? ==> !r.value.committed && Reports(h, req, j.path, from, old(Now()), r.value, Now())
      ensures old(Calm()) ==> WroteTo(h, req, j, old(disk), r, disk)
    {
      assert KeyInv(disk, g, h, req.key);
      ghost var a := Now();
      var wrote, acc := WriteChunk(req, j);
      LookingIsOnward(h, req, a, Now());
      ghost var m := disk;
      if wrote.Err? {
        RefusedFrames(h, req, a, Now(), wrote.failure);
        r := Err(wrote.failure);
      } else {
        r := ReportWrite(req, j, wrote.value, acc, a, from);
        assert SameAt(m, disk, StageIn(req.key, Parent(j.path)));
      }
      if a.calm { WritingIsExact(h, req, j, a.disk, wrote, m, r, disk); }
    }

    /** Save and report an upload a chunk was just written to. */
    method ReportWrite(req: Request, ghost j0: Journal, j: Journal, ghost acc: seq<byte>, ghost a: Moment, ghost from: nat)
        returns (r: Outcome<Reply>)
      requires Valid() && IsKey(req.key) && RecordOf(disk, req.key) == Some(j0) && req.action.Write? && j.size == req.size
      requires Consistent(disk, g, h, req.key, j, acc) && Resumes(j0, j) && !j.committed && !j0.committed
      requires j0.offset <= j.offset && j.committing == j0.committing
      requires RecordOf(a.disk, req.key) == Some(j0) && req.key in a.g.accepted && Onward(h, req, a, Now()) && g == a.g
      requires ChunkIn(h, req, j) && acc == Extended(req, a.g.accepted[req.key], false)
      modifies `disk, `crashed, `clock, `g, `log
      ensures Valid() && Frames(h, req, a, r, Now())
      ensures r.Ok? ==> !r.value.committed && Reports(h, req, j.path, from, a, r.value, Now())
      ensures r.Ok? ==> r.value == Reply(j.offset, false)
                        && RecordOf(disk, req.key) == Some(j.(updated := RecordOf(disk, req.key).value.updated))
      ensures forall dir :: SameAt(old(disk), disk, StageIn(req.key, dir))
      ensures old(Calm()) ==> r.Ok? && Untouched(old(disk), disk)
    {
      assert KeyInv(disk, g, h, req.key);
      r := FinishFrom(req, j, acc, a);
    }

    method CommitAndFinish(req: Request, j: Journal, ghost from: nat) returns (r: Outcome<Reply>)
      requires Valid() && IsKey(req.key) && RecordOf(disk, req.key) == Some(j) && !j.committed && j.size == req.size && from <= |log|
      requires req.key in g.accepted && Consistent(disk, g, h, req.key, j, g.accepted[req.key]) && req.action.Commit?
      modifies `disk, `crashed, `clock, `g, `log
      ensures Valid() && Frames(h, req, old(Now()), r, Now())
      ensures r.Ok? ==> Reports(h, req, j.path, from, old(Now()), r.value, Now())
      ensures old(Calm()) ==>
        r == if CommitAllowed(old(disk), h, req, j) then Ok(Reply(j.size, true)) else Err(CommitRefused(old(disk), h, req, j).value)
      ensures old(Calm()) && r.Ok? ==> Arrived(h, disk, RecordOf(disk, req.key).value) && !LinkAt(disk, j.path)
    {
      assert KeyInv(disk, g, h, req.key);
      ghost var a := Now();
      var published := CommitUpload(req, j);
      if published.Err? {
        RefusedFrames(h, req, a, Now(), published.failure);
        return Err(published.failure);
      }
      ghost var there := disk;
      r := ReportCommit(req, j, published.value, a, from);
      if a.calm { ArrivedStays(h, there, disk, j); }
    }

    /** Save and report an upload that was just published. */
    method ReportCommit(req: Request, ghost j0: Journal, j: Journal, ghost a: Moment, ghost from: nat) returns (r: Outcome<Reply>)
      requires Valid() && IsKey(req.key) && req.action.Commit? && j == j0.(committing := true, committed := true, updated := j.updated)
      requires req.key in g.accepted && Consistent(disk, g, h, req.key, j, g.accepted[req.key])
      requires Onward(h, req, a, Now()) && MarkedRightly(h, req, a.disk, disk) && Committing(disk, req.key)
      requires RecordOf(disk, req.key).value.path == j.path && RecordOf(disk, req.key).value.hashes == j.hashes
      requires RecordOf(a.disk, req.key) == Some(j0) && j.size == req.size
      requires req.key in a.g.accepted && g.accepted[req.key] == a.g.accepted[req.key]
      requires from <= |a.log| && HoldsSince(h, log, |a.log|, PublicationOf(req.key, j))
      modifies `disk, `crashed, `clock, `g, `log
      ensures Valid() && Frames(h, req, a, r, Now())
      ensures r.Ok? ==> Reports(h, req, j.path, from, a, r.value, Now())
      ensures r.Ok? ==> RecordOf(disk, req.key) == Some(j.(updated := RecordOf(disk, req.key).value.updated))
      ensures r.Ok? ==> r.value == Reply(j.offset, true)
      ensures old(Calm()) ==> r.Ok? && SameAt(old(disk), disk, j.path)
    {
      AcceptedNotReserved(j.path);
      assert KeyInv(disk, g, h, req.key);
      ghost var m := Now();
      r := FinishFrom(req, j, g.accepted[req.key], a);
      if r.Ok? {
        HoldsSinceGrows(h, m.log, log, |a.log|, PublicationOf(req.key, j));
        CommitReports(h, req, j.path, from, a, r.value, Now());
      }
    }

    /** The protocol's directory, and the journal in it; a write at offset 0 begins one. none: there is
        no journal, and the action needs none. */
    method Find(req: Request, p: Path) returns (loaded: Outcome<Journal>, none: bool)
      requires Valid() && IsKey(req.key) && p == TransferPath(req.path) && p != [] && req.offset >= 0 && 0 <= req.size <= BYTE_LIMIT
      modifies `disk, `crashed, `clock, `g, `log
      ensures Valid() && Onward(h, req, old(Now()), Now())
      ensures Committing(disk, req.key) ==> Committing(old(disk), req.key)
      ensures none ==> (req.action.Stat? || req.action.Discard? || req.action.Touch?) && JournalFile(req.key) !in disk.names
      ensures !none && loaded.Ok? ==> RecordOf(disk, req.key) == Some(loaded.value) && req.key in g.accepted
                                      && Consistent(disk, g, h, req.key, loaded.value, g.accepted[req.key])
      ensures old(Calm()) && HasState(old(disk)) && RecordOf(old(disk), req.key).Some? ==>
        !none && loaded.Ok? && disk == old(disk)
      ensures old(Calm()) && !StateReady(old(disk)) ==> !none && loaded == Err(Code(STATE)) && disk == old(disk)
      ensures old(Calm()) && StateReady(old(disk)) && RecordOf(old(disk), req.key) == None ==>
        HasState(disk) && FoundNone(req, p, old(disk), loaded, none, disk)
    {
      ghost var a := Now();
      none := false;
      var state := EnsureState();
      LookingIsOnward(h, req, a, Now());
      if state.Err? { return Err(state.failure), false; }
      loaded := Load(req.key);
      ghost var m := Now();
      LookingIsOnward(h, req, a, m);
      if loaded == Err(NotExist) {
        loaded, none := WithoutJournal(req, p);
        LookingThenOnward(h, req, a, m, Now());
      }
    }

    method WithoutJournal(req: Request, p: Path) returns (loaded: Outcome<Journal>, none: bool)
      requires Valid() && IsKey(req.key) && p == TransferPath(req.path) && p != [] && req.offset >= 0 && 0 <= req.size <= BYTE_LIMIT
      requires JournalFile(req.key) !in disk.names
      modifies `disk, `crashed, `clock, `g, `log
      ensures Valid() && Onward(h, req, old(Now()), Now()) && !Committing(disk, req.key)
      ensures none ==> (req.action.Stat? || req.action.Discard? || req.action.Touch?) && JournalFile(req.key) !in disk.names
      ensures !none && loaded.Ok? ==> RecordOf(disk, req.key) == Some(loaded.value) && req.key in g.accepted
                                      && Consistent(disk, g, h, req.key, loaded.value, g.accepted[req.key])
      ensures old(Calm()) ==> FoundNone(req, p, old(disk), loaded, none, disk)
    {
      ghost var a := Now();
      LookingIsOnward(h, req, a, a);
      none := req.action.Stat? || req.action.Discard? || req.action.Touch?;
      if none { return Err(NotExist), true; }
      if !req.action.Write? || req.offset != 0 { return Err(Code(OFFSET)), false; }
      loaded := Begin(req, p);
      if loaded.Ok? { BeginningIsOnward(h, req, a, Now(), loaded.value); }
    }

    /** From the protocol's directory on: load or begin the journal, check it is this file's, act. */
    method Resume(req: Request, p: Path) returns (r: Outcome<Reply>)
      requires Valid() && IsKey(req.key) && p == TransferPath(req.path) && p != [] && req.offset >= 0 && 0 <= req.size <= BYTE_LIMIT
      requires !req.action.Mkdir?
      modifies `disk, `crashed, `clock, `g, `log
      ensures Valid() && Frames(h, req, old(Now()), r, Now())
      ensures r.Ok? ==> Reports(h, req, p, |old(log)|, old(Now()), r.value, Now())
      ensures old(Calm()) ==> Resumed(h, req, p, old(disk), r, disk) && Began(h, req, p, old(disk), r, disk)
    {
      ghost var a := Now();
      var loaded, none := Find(req, p);
      ghost var m := Now();
      if none {
        NothingToTell(h, req, p, |a.log|, a, m);
        r := Ok(Reply(0, false));
      } else if loaded.Err? {
        RefusedFrames(h, req, a, m, loaded.failure);
        r := Err(loaded.failure);
      } else {
        assert KeyInv(disk, g, h, req.key);
        r := CheckAndAct(req, p, loaded.value);
        AnswerFrom(h, req, p, |m.log|, a, m, r, Now());
      }
      if a.calm { FoundIsAnswered(h, req, p, a.disk, loaded, none, m.disk, r, disk); }
    }

    /** The journal must be this file's. */
    method CheckAndAct(req: Request, p: Path, j: Journal) returns (r: Outcome<Reply>)
      requires Valid() && IsKey(req.key) && RecordOf(disk, req.key) == Some(j) && req.offset >= 0 && !req.action.Mkdir?
      requires req.key in g.accepted && Consistent(disk, g, h, req.key, j, g.accepted[req.key])
      modifies `disk, `crashed, `clock, `g, `log
      ensures Valid() && Frames(h, req, old(Now()), r, Now())
      ensures r.Ok? ==> Reports(h, req, p, |old(log)|, old(Now()), r.value, Now())
      ensures old(Calm()) ==> Checks(h, req, p, j, old(disk), r, disk)
    {
      if j.path != p || j.size != req.size {
        ghost var a := Now();
        LookingIsOnward(h, req, a, a);
        LookingFrames(h, req, a, Err(Code(SOURCE_CHANGED)), a);
        return Err(Code(SOURCE_CHANGED));
      }
      r := Act(req, j);
      assert j.path == p && KeyInv(disk, g, h, req.key);
    }

    /** A request whose way is clear. */
    method Upload(req: Request, p: Path) returns (r: Outcome<Reply>)
      requires Valid() && IsKey(req.key) && p == TransferPath(req.path) && p != [] && req.offset >= 0 && 0 <= req.size <= BYTE_LIMIT
      requires !req.action.Mkdir?
      modifies `disk, `crashed, `clock, `g, `log
      ensures Valid() && Frames(h, req, old(Now()), r, Now())
      ensures r.Ok? ==> Reports(h, req, p, |old(log)|, old(Now()), r.value, Now())
      ensures old(Calm()) ==> Resumed(h, req, p, old(disk), r, disk) && Began(h, req, p, old(disk), r, disk)
    {
      ghost var a := Now();
      if req.action.Stat? {
        var info := Lstat(p);
        if info == Err(Io) { return Err(Io); }
      }
      ghost var m := Now();
      LookingIsOnward(h, req, a, m);
      r := Resume(req, p);
      AnswerFrom(h, req, p, |m.log|, a, m, r, Now());
    }

    method Mkdir(p: Path) returns (r: Outcome<Reply>)
      requires Valid() && AcceptedPath(p)
      modifies `disk, `crashed, `clock, `g, `log
      ensures Valid() && Quiet(old(log), log) && g == old(g) && SameJournals(old(disk), disk)
      ensures old(Calm()) ==> Calm() && Made(p, old(disk), r, disk)
    {
      var info := Lstat(p);
      if info == Err(Io) { return Err(Io); }
      if info.Ok? && !info.value.Directory? { return Err(Code(TYPE_CONFLICT)); }
      var made := MkdirAll(p);
      assert p[..|p|] == p;
      r := if made.Ok? then Ok(Reply(0, true)) else Err(made.failure);
    }

    /** A request with a path, from the look for links on. */
    method Admitted(req: Request, p: Path) returns (r: Outcome<Reply>)
      requires Valid() && IsKey(req.key) && p == TransferPath(req.path) && p != [] && req.offset >= 0 && 0 <= req.size <= BYTE_LIMIT
      modifies `disk, `crashed, `clock, `g, `log
      ensures Valid() && Frames(h, req, old(Now()), r, Now())
      ensures r.Ok? && !req.action.Mkdir? ==> Reports(h, req, p, |old(log)|, old(Now()), r.value, Now())
      ensures old(Calm()) ==> CalmReply(h, req, p, old(Now()), r, Now())
    {
      ghost var a := Now();
      var links, _ := NoLinks(Checked(req, p), true);
      if links.Err? {
        LookingFrames(h, req, a, Err(links.failure), Now());
        return Err(links.failure);
      }
      if req.action.Mkdir? {
        r := Mkdir(p);
        LookingFrames(h, req, a, r, Now());
      } else {
        ghost var m := Now();
        LookingIsOnward(h, req, a, m);
        r := Upload(req, p);
        AnswerFrom(h, req, p, |m.log|, a, m, r, Now());
        if a.calm { ResumedIsExact(h, req, p, a, r, Now()); }
      }
    }

    /** transferOperation for every action but list and read. */
    method Transfer(req: Request) returns (r: Outcome<Reply>)
      requires Valid()
      modifies `disk, `crashed, `clock, `g, `log
      ensures Valid() && Answered(h, req, old(Now()), r, Now())
    {
      if !RequestOk(req) { return Err(Code(INVALID)); }
      var p := TransferPath(req.path);
      if p == [] { return Err(Code(PATH)); }
      r := Admitted(req, p);
    }

    /** The journal of k's upload if that is to go: a day old, and no link leads to its directory. */
    method LoadExpired(k: Key, now: int) returns (expired: Option<Journal>)
      requires Valid() && IsKey(k)
      modifies `disk, `crashed, `clock, `log
      ensures Valid() && Quiet(old(log), log) && SameJournals(old(disk), disk)
      ensures expired.Some? ==> Stale(disk, k, now) && RecordOf(disk, k) == expired
                                && k in g.accepted && Consistent(disk, g, h, k, expired.value, g.accepted[k])
      ensures old(Calm()) ==> Calm() && disk == old(disk) && (expired.Some? <==> Expired(disk, k, now))
    {
      var loaded := Load(k);
      if loaded.Err? { return None; }
      var j := loaded.value;
      if now - j.updated < TTL { return None; }
      var links, _ := NoLinks(Parent(j.path), false);
      expired := if links.Err? then None else Some(j);
    }

    /** One entry of the cleanup sweep: an expired upload loses its staging file, then its journal. */
    method Expire(k: Key, now: int) returns (r: Outcome<Unit>)
      requires Valid() && IsKey(k)
      modifies `disk, `crashed, `clock, `g, `log
      ensures Valid() && WentOn(k, now, old(Now()), r, Now())
      ensures old(Calm()) ==> r.Ok? && disk == if Expired(old(disk), k, now) then Erased(old(disk), k) else old(disk)
    {
      ghost var a := Now();
      var expired := LoadExpired(k, now);
      ghost var m := Now();
      r := Ok(Unit);
      if expired.Some? { r := DiscardUpload(k, expired.value); }
      SweepGoesOn(k, now, a, m, r, Now());
    }

    /** CleanupTransfers over the names the protocol's directory listed. */
    method Cleanup(listing: seq<string>, now: int) returns (r: Outcome<Unit>)
      requires Valid()
      modifies `disk, `crashed, `clock, `g, `log
      ensures Valid() && CleanedUp(h, listing, now, old(Now()), r, Now())
    {
      ghost var a := Now();
      ghost var ready := Calm() && HasState(disk);
      var state := EnsureState();
      if state.Err? { return state; }
      for i := 0 to |listing|
        invariant Valid() && Sweeping(listing, now, a, Now())
        invariant ready ==> disk == Swept(a.disk, listing[..i], now)
      {
        assert listing[..i + 1][..i] == listing[..i];
        var listed := ListedKey(listing[i]);
        if listed.Some? {
          assert Listed(listing, listed.value);
          ghost var m := Now();
          var expired := Expire(listed.value, now);
          StillSweeping(listing, now, a, listed.value, m, expired, Now());
          if expired.Err? { return expired; }
        }
      }
      assert listing[..|listing|] == listing;
      r := Ok(Unit);
    }

    /** The agent is started again after a crash. */
    method Relaunch()
      requires Valid()
      modifies `crashed
      ensures Valid() && !crashed
    {
      crashed := false;
    }

    method Do(command: Command) returns (answer: Answer)
      requires Valid()
      modifies `disk, `crashed, `clock, `g, `log
      ensures Valid() && Did(h, command, old(Now()), answer, Now())
    {
      match command
      case Serve(req) =>
        var reply := Transfer(req);
        answer := Replied(reply);
      case Sweep(listing, now) =>
        var result := Cleanup(listing, now);
        answer := Cleaned(result);
      case Restart =>
        Relaunch();
        answer := Restarted;
    }

    /** Any run: requests, cleanups and restarts in any order. Each is answered as its contract says, every
        change of the disk since the start was safe, and every publication left the accepted bytes. */
    method Run(commands: seq<Command>) returns (answers: seq<Answer>, ghost moments: seq<Moment>)
      requires Valid()
      modifies `disk, `crashed, `clock, `g, `log
      ensures Valid() && IsRun(h, commands, moments, answers)
      ensures moments[0] == old(Now()) && moments[|commands|] == Now()
      ensures Chained(start, log, disk) && forall n :: 0 <= n < |log| ==> Took(h, world, log[n])
      ensures Injective(h.chunk) ==> forall n :: 0 <= n < |log| && log[n].effect.Publish? ==>
        FileAt(log[n].after, RecordOf(log[n].before, log[n].effect.key).value.path) == Some(log[n].effect.accepted)
    {
      answers, moments := [], [Now()];
      for i := 0 to |commands|
        invariant Valid() && |moments| == i + 1 && |answers| == i
        invariant moments[0] == old(Now()) && moments[i] == Now()
        invariant forall n :: 0 <= n <= i ==> Inv(moments[n].disk, moments[n].g, h)
        invariant forall n {:trigger DidAt(h, commands, moments, answers, n)} :: 0 <= n < i ==> DidAt(h, commands, moments, answers, n)
      {
        ghost var before, given := moments, answers;
        var answer := Do(commands[i]);
        answers, moments := answers + [answer], moments + [Now()];
        forall n | 0 <= n <= i ensures DidAt(h, commands, moments, answers, n) {
          if n < i { assert DidAt(h, commands, before, given, n); }
        }
      }
      if Injective(h.chunk) {
        forall n | 0 <= n < |log| && log[n].effect.Publish?
          ensures RecordOf(log[n].before, log[n].effect.key).Some?
          ensures FileAt(log[n].after, RecordOf(log[n].before, log[n].effect.key).value.path) == Some(log[n].effect.accepted)
        {
          assert Took(h, world, log[n]);
          PublishedBytes(h, log[n]);
        }
      }
    }
  }

  /** A discard whose second removal fails: the journal still claims bytes, and no staging file holds any. */
  method DiscardCutShort(root: Root, k: Key, j: Journal) returns (r: Outcome<Unit>)
    requires root.Valid() && IsKey(k) && RecordOf(root.disk, k) == Some(j) && |j.path| > 0
    requires root.Works() && root.world.fault(root.clock + 1) != NoFault
    modifies root
    ensures root.Valid() && r.Err? && RecordOf(root.disk, k) == Some(j)
    ensures FileAt(root.disk, StageOf(j)) == None
  {
    assert KeyInv(root.disk, root.g, root.h, k);
    r := root.DiscardUpload(k, j);
  }

  /** The run on which a journal becomes Committed although its path is no regular file: a commit renamed
      the file to its destination on disk a and crashed, another program moved the file and left a link,
      and a stat, which does not look for a link at the path itself, recovers the upload through it. */
  method StatCommitsThroughLink(root: Root, ghost a: Disk, ghost g: History, elsewhere: Path, req: Request) returns (r: Outcome<Reply>)
    requires Inv(a, g, root.h) && RequestOk(req) && req.action.Stat? && TransferPath(req.path) != []
    requires RecordOf(a, req.key).Some? && req.key in g.accepted
    requires var j := RecordOf(a, req.key).value;
      && Consistent(a, g, root.h, req.key, j, g.accepted[req.key]) && j.committing && !j.committed
      && StageOf(j) in a.names && |FileAt(a, StageOf(j)).value| == j.size
      && ChunkHashes(root.h, FileAt(a, StageOf(j)).value) == j.hashes
      && j.path == TransferPath(req.path) && j.size == req.size && NodeAt(a, j.path) == None && elsewhere != j.path
      && root.disk == Moved(Renamed(a, StageOf(j), j.path), j.path, elsewhere)
    requires !Reserved(elsewhere) && elsewhere !in a.names
    requires root.Valid() && root.Calm() && HasState(root.disk)
    requires !Blocked(root.disk, Parent(TransferPath(req.path)))
    modifies root
    ensures root.Valid() && r == Ok(Reply(req.size, true)) && CommittedAt(root.disk, req.key)
    ensures FileAt(root.disk, TransferPath(req.path)) == None
  {
    AcceptedIsNotReserved(req.path, req.key, []);
    LinkBehindCrash(a, g, root.h, req.key, elsewhere);
    r := root.Transfer(req);
  }
}
