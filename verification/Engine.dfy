/** The engine's sessions, their viewers, who decides a screen's size, and what the engine records of its live
    sessions for the next boot. Every request is one atomic operation. */
module Engine {
  import opened Prelude
  import opened Sizes
  import opened FreeName
  import opened Restore

  type ViewId = nat

  const MAX_SESSIONS := 16
  const MAX_VIEWERS := 64

  /** A live session: directory is where its shell was started, screen its size, active the viewer that last
      typed into it or resized it. */
  datatype Running = Running(
    name: string, directory: string, screen: Size, views: map<ViewId, Size>, active: Option<ViewId>, terminated: bool)

  type Sessions = map<Uuid, Running>

  predicate Proper(s: Size) { Dimensions(s) == s }

  predicate RunningOk(r: Running) {
    && ValidName(r.name) && Proper(r.screen)
    && (forall v :: v in r.views ==> Proper(r.views[v]))
    && (r.active.Some? ==> r.active.value in r.views)
    && (r.views != map[] ==> Rule(r.views, r.active, r.screen))
  }

  ghost function ViewIds(sessions: Sessions): set<ViewId> {
    set u, v | u in sessions && v in sessions[u].views :: v
  }

  ghost predicate NamesDiffer(sessions: Sessions) {
    forall u, w :: u in sessions && w in sessions && u != w ==> sessions[u].name != sessions[w].name
  }

  ghost predicate ViewsDiffer(sessions: Sessions) {
    forall u, w :: u in sessions && w in sessions && u != w ==> sessions[u].views.Keys !! sessions[w].views.Keys
  }

  ghost predicate SessionsOk(sessions: Sessions) {
    && |sessions| <= MAX_SESSIONS && |ViewIds(sessions)| <= MAX_VIEWERS
    && NamesDiffer(sessions) && ViewsDiffer(sessions)
    && forall u :: u in sessions ==> RunningOk(sessions[u])
  }

  predicate Free(sessions: Sessions, name: string) { forall u :: u in sessions ==> sessions[u].name != name }

  ghost predicate AllNamed(sessions: Sessions) { forall u :: u in sessions ==> ValidName(sessions[u].name) }

  /** Another session than id has that name. */
  predicate HeldByOther(sessions: Sessions, id: Uuid, name: string) {
    exists w :: w in sessions && w != id && sessions[w].name == name
  }

  // ---- counting viewers ----

  /** The viewers once session u is added or replaced by one with r's viewers. */
  lemma ViewIdsOf(sessions: Sessions, u: Uuid, r: Running)
    ensures ViewIds(sessions[u := r]) == ViewIds(sessions - {u}) + r.views.Keys
  {
    var more, rest := sessions[u := r], sessions - {u};
    forall v ensures v in ViewIds(more) <==> v in ViewIds(rest) || v in r.views {
      if v in ViewIds(rest) {
        var w :| w in rest && v in rest[w].views;
        assert w in more && v in more[w].views;
      }
      if v in r.views {
        assert u in more && v in more[u].views;
      }
      if v in ViewIds(more) {
        var w :| w in more && v in more[w].views;
        if w != u { assert w in rest && v in rest[w].views; }
      }
    }
  }

  lemma ViewIdsWith(sessions: Sessions, done: Sessions, u: Uuid)
    requires ViewsDiffer(sessions) && u in sessions && done.Keys <= sessions.Keys && u !in done
    requires forall w :: w in done ==> done[w] == sessions[w]
    ensures |ViewIds(done[u := sessions[u]])| == |ViewIds(done)| + |sessions[u].views|
  {
    ViewIdsOf(done, u, sessions[u]);
    assert done - {u} == done;
    assert ViewIds(done) !! sessions[u].views.Keys;
  }

  method CountViewers(sessions: Sessions) returns (viewers: nat)
    requires ViewsDiffer(sessions)
    ensures viewers == |ViewIds(sessions)|
  {
    viewers := 0;
    var todo := sessions.Keys;
    ghost var done: Sessions := map[];
    while todo != {}
      invariant todo <= sessions.Keys && done.Keys == sessions.Keys - todo
      invariant forall w :: w in done ==> done[w] == sessions[w]
      invariant viewers == |ViewIds(done)|
      decreases |todo|
    {
      var u :| u in todo;
      ViewIdsWith(sessions, done, u);
      viewers := viewers + |sessions[u].views|;
      todo, done := todo - {u}, done[u := sessions[u]];
    }
    assert done == sessions;
  }

  // ---- the screen ----

  /** The loop of resize: the componentwise maximum, from 1 by 1 up. */
  method LargestView(views: map<ViewId, Size>) returns (largest: Size)
    requires views != map[] && forall v :: v in views ==> Proper(views[v])
    ensures Largest(views, largest) && Proper(largest)
  {
    var cols, rows := 1, 1;
    var todo := views.Keys;
    while todo != {}
      invariant todo <= views.Keys && cols >= 1 && rows >= 1
      invariant forall v :: v in views.Keys - todo ==> views[v].cols <= cols && views[v].rows <= rows
      invariant cols > 1 ==> exists v :: v in views && views[v].cols == cols
      invariant rows > 1 ==> exists v :: v in views && views[v].rows == rows
      decreases |todo|
    {
      var v :| v in todo;
      todo := todo - {v};
      cols, rows := Max(cols, views[v].cols), Max(rows, views[v].rows);
    }
    largest := Size(cols, rows);
    var v :| v in views.Keys;
    assert views[v].cols >= 1 && views[v].rows >= 1;
  }

  /** resize: what the screen of a session becomes. */
  method Resized(r: Running) returns (s: Running)
    requires ValidName(r.name) && Proper(r.screen)
    requires forall v :: v in r.views ==> Proper(r.views[v])
    requires r.active.Some? ==> r.active.value in r.views
    ensures RunningOk(s) && s == r.(screen := s.screen) && (r.views == map[] ==> s == r)
  {
    if |r.views| == 0 {
      return r;
    }
    var screen: Size;
    if r.active.Some? {
      screen := r.views[r.active.value];
    } else {
      screen := LargestView(r.views);
    }
    s := r.(screen := screen);
  }

  // ---- what keeps the sessions sound ----

  lemma Parts(sessions: Sessions, u: Uuid)
    requires ViewsDiffer(sessions) && u in sessions
    ensures ViewIds(sessions) == ViewIds(sessions - {u}) + sessions[u].views.Keys
    ensures ViewIds(sessions - {u}) !! sessions[u].views.Keys
    ensures |ViewIds(sessions)| == |ViewIds(sessions - {u})| + |sessions[u].views|
  {
    ViewIdsOf(sessions, u, sessions[u]);
    assert sessions[u := sessions[u]] == sessions;
  }

  lemma PutViews(sessions: Sessions, u: Uuid, r: Running)
    requires ViewsDiffer(sessions) && ViewIds(sessions - {u}) !! r.views.Keys
    ensures ViewsDiffer(sessions[u := r])
  {
    forall w | w in sessions && w != u ensures sessions[w].views.Keys !! r.views.Keys {
      forall v | v in sessions[w].views ensures v !in r.views {
        assert w in sessions - {u} && v in (sessions - {u})[w].views;
        assert v in ViewIds(sessions - {u});
      }
    }
  }

  lemma PutNames(sessions: Sessions, u: Uuid, r: Running)
    requires NamesDiffer(sessions) && forall w :: w in sessions && w != u ==> sessions[w].name != r.name
    ensures NamesDiffer(sessions[u := r])
  {}

  lemma PutSize(sessions: Sessions, u: Uuid, r: Running)
    ensures |sessions[u := r]| == |sessions| + if u in sessions then 0 else 1
  {
    assert sessions[u := r].Keys == sessions.Keys + {u};
  }

  lemma PutKeeps(sessions: Sessions, u: Uuid, r: Running)
    requires SessionsOk(sessions) && RunningOk(r) && (u in sessions || |sessions| < MAX_SESSIONS)
    requires forall w :: w in sessions && w != u ==> sessions[w].name != r.name
    requires ViewIds(sessions - {u}) !! r.views.Keys && |ViewIds(sessions - {u})| + |r.views| <= MAX_VIEWERS
    ensures SessionsOk(sessions[u := r])
  {
    ViewIdsOf(sessions, u, r);
    PutViews(sessions, u, r);
    PutNames(sessions, u, r);
    PutSize(sessions, u, r);
  }

  lemma DropKeeps(sessions: Sessions, u: Uuid)
    requires SessionsOk(sessions) && u in sessions
    ensures SessionsOk(sessions - {u}) && |sessions - {u}| == |sessions| - 1
  {
    Parts(sessions, u);
    assert (sessions - {u}).Keys == sessions.Keys - {u};
  }

  /** A session whose name and viewers stay within what they were. */
  lemma ReplaceKeeps(sessions: Sessions, u: Uuid, r: Running)
    requires SessionsOk(sessions) && u in sessions && RunningOk(r)
    requires r.name == sessions[u].name && r.views.Keys <= sessions[u].views.Keys
    ensures SessionsOk(sessions[u := r])
  {
    Parts(sessions, u);
    SubsetSize(r.views.Keys, sessions[u].views.Keys);
    PutKeeps(sessions, u, r);
  }

  lemma RenameKeeps(sessions: Sessions, u: Uuid, name: string)
    requires SessionsOk(sessions) && u in sessions && ValidName(name)
    requires forall w :: w in sessions && w != u ==> sessions[w].name != name
    ensures SessionsOk(sessions[u := sessions[u].(name := name)])
  {
    Parts(sessions, u);
    PutKeeps(sessions, u, sessions[u].(name := name));
  }

  lemma NewViewKeeps(sessions: Sessions, u: Uuid, v: ViewId, r: Running)
    requires SessionsOk(sessions) && u in sessions && RunningOk(r)
    requires v !in ViewIds(sessions) && |ViewIds(sessions)| < MAX_VIEWERS
    requires r.name == sessions[u].name && r.views.Keys == sessions[u].views.Keys + {v}
    ensures SessionsOk(sessions[u := r])
  {
    Parts(sessions, u);
    PutKeeps(sessions, u, r);
  }

  lemma PutThenDrop(sessions: Sessions, id: Uuid, s: Running)
    requires id !in sessions
    ensures sessions[id := s] - {id} == sessions
  {}

  lemma ViewOfSession(sessions: Sessions, u: Uuid, v: ViewId)
    requires u in sessions && v !in ViewIds(sessions)
    ensures v !in sessions[u].views
  {}

  lemma NewSessionKeeps(sessions: Sessions, u: Uuid, r: Running)
    requires SessionsOk(sessions) && u !in sessions && |sessions| < MAX_SESSIONS && RunningOk(r) && r.views == map[]
    requires forall w :: w in sessions ==> sessions[w].name != r.name
    ensures SessionsOk(sessions[u := r])
  {
    assert sessions - {u} == sessions;
    PutKeeps(sessions, u, r);
  }

  ghost function Names(sessions: Sessions): set<string> { set u | u in sessions :: sessions[u].name }

  lemma {:induction false} NamesCount(sessions: Sessions)
    ensures |Names(sessions)| <= |sessions|
    decreases |sessions|
  {
    if sessions != map[] {
      var u :| u in sessions;
      var rest := sessions - {u};
      assert rest.Keys == sessions.Keys - {u};
      NamesCount(rest);
      assert Names(sessions) == Names(rest) + {sessions[u].name} by {
        forall n | n in Names(sessions) ensures n in Names(rest) + {sessions[u].name} {
          var w :| w in sessions && sessions[w].name == n;
          if w != u { assert rest[w].name == n; }
        }
        forall n | n in Names(rest) ensures n in Names(sessions) {
          var w :| w in rest && rest[w].name == n;
          assert sessions[w].name == n;
        }
      }
    }
  }

  // ---- the restore record ----

  /** The record of a helper's own boot: nothing but its live sessions until the helper is closing, and
      every live session, under its current name, unless one was opened after that. */
  ghost predicate Kept(entries: Entries, boot: Boot, sessions: Sessions, closing: bool, lateOpen: bool) {
    && (forall u :: u in entries && entries[u].boot == boot ==> u in sessions || closing)
    && (!lateOpen ==> forall u :: u in sessions ==>
         u in entries && entries[u].boot == boot && entries[u].name == sessions[u].name)
  }

  lemma KeptWithoutEarlier(entries: Entries, boot: Boot, sessions: Sessions, id: Uuid, closing: bool, lateOpen: bool)
    requires Kept(entries, boot, sessions, closing, lateOpen) && id in entries && entries[id].boot != boot
    ensures Kept(entries - {id}, boot, sessions, closing, lateOpen)
  {}

  lemma KeptRenamed(entries: Entries, after: Entries, boot: Boot, sessions: Sessions, id: Uuid, name: string,
                    closing: bool, lateOpen: bool)
    requires Kept(entries, boot, sessions, closing, lateOpen) && id in sessions
    requires after == entries
      || (id in entries && exists e: Entry :: e.boot == entries[id].boot && e.name == name && after == entries[id := e])
    requires id in entries && entries[id].boot == boot ==> id in after && after[id].name == name
    ensures Kept(after, boot, sessions[id := sessions[id].(name := name)], closing, lateOpen)
  {}

  lemma KeptWithout(entries: Entries, boot: Boot, sessions: Sessions, id: Uuid, closing: bool, lateOpen: bool)
    requires Kept(entries, boot, sessions, closing, lateOpen)
    ensures Kept(entries - {id}, boot, sessions - {id}, closing, lateOpen)
  {}

  /** A helper's own entries are newer than the moment it opened the record, all others are not. */
  ghost predicate NewerOwn(entries: Entries, boot: Boot, since: int) {
    forall u :: u in entries ==> (entries[u].boot == boot <==> entries[u].updated > since)
  }

  ghost predicate OwnWithin(entries: Entries, boot: Boot, live: set<Uuid>) {
    forall u :: u in entries && entries[u].boot == boot ==> u in live
  }

  /** Trimming never evicts a live session: all of them are newer than what an earlier boot left, and
      there are fewer of them than the record holds. */
  lemma LiveSurviveTrim(all: Entries, kept: Entries, boot: Boot, since: int, live: set<Uuid>)
    requires Newest(all, kept) && |live| <= MAX_SESSIONS
    requires NewerOwn(all, boot, since)
    requires OwnWithin(all, boot, live)
    ensures forall u :: u in all && all[u].boot == boot ==> u in kept
  {
    forall u | u in all && all[u].boot == boot ensures u in kept {
      if u !in kept {
        forall w | w in kept ensures w in live { assert Before(w, all[w], u, all[u]); }
        SubsetSize(kept.Keys, live);
        SubsetSize(kept.Keys, all.Keys - {u});
        assert false;
      }
    }
  }

  /** A session recorded by a helper that is not closing leaves every live session in the record. */
  lemma KeptStarted(entries: Entries, kept: Entries, boot: Boot, since: int, sessions: Sessions, id: Uuid, e: Entry, r: Running,
                    closing: bool, lateOpen: bool)
    requires Kept(entries, boot, sessions, closing, lateOpen) && id !in sessions && |sessions| < MAX_SESSIONS
    requires e.boot == boot && e.name == r.name && e.updated > since && Newest(entries[id := e], kept)
    requires NewerOwn(entries, boot, since)
    ensures Kept(kept, boot, sessions[id := r], closing, lateOpen || closing)
  {
    if !closing && !lateOpen {
      StartedSurvives(entries, kept, boot, since, sessions, id, e, lateOpen);
    }
  }

  lemma StartedSurvives(entries: Entries, kept: Entries, boot: Boot, since: int, sessions: Sessions, id: Uuid, e: Entry, lateOpen: bool)
    requires Kept(entries, boot, sessions, false, lateOpen) && id !in sessions && |sessions| < MAX_SESSIONS
    requires e.boot == boot && e.updated > since && Newest(entries[id := e], kept)
    requires NewerOwn(entries, boot, since)
    ensures id in kept && forall u :: u in entries && entries[u].boot == boot ==> u in kept
  {
    var live := sessions.Keys + {id};
    assert |live| == |sessions| + 1;
    OwnWith(entries, boot, since, sessions.Keys, id, e);
    LiveSurviveTrim(entries[id := e], kept, boot, since, live);
  }

  lemma OwnWith(entries: Entries, boot: Boot, since: int, live: set<Uuid>, id: Uuid, e: Entry)
    requires NewerOwn(entries, boot, since) && OwnWithin(entries, boot, live) && e.boot == boot && e.updated > since
    ensures NewerOwn(entries[id := e], boot, since) && OwnWithin(entries[id := e], boot, live + {id})
  {}

  // ---- requests ----

  datatype Action = Attach | Ensure | Create

  datatype Request = Request(id: Option<Uuid>, name: string, action: Action, directory: string, size: Size, restore: bool)

  datatype Failure = Stopping | ViewerLimit | NotFound | Exists | InvalidName | SessionLimit | StartFailed | Busy | Closed

  datatype Result<+T> = Ok(value: T) | Err(failure: Failure)

  /** What opening does to a viewer that works in the session: typing, resizing, or anything else. */
  datatype Use = Typing | Resizing(size: Size) | Looking

  /** restoreDirectory: the recorded directory when it still is one, else the default. */
  function RestoreDirectory(cwd: string, isDirectory: string -> bool): string {
    if cwd != "" && cwd[0] == '/' && isDirectory(cwd) then cwd else ""
  }

  /** An entry of this boot after a refresh says what its session is and where it is now. */
  predicate RefreshedEntry(before: Entry, after: Entry, s: Running, directory: string) {
    after == before.(name := s.name, size := s.screen, cwd := if directory != "" then directory else before.cwd, updated := after.updated)
  }

  /** The entries of the sessions in done are refreshed, all others are as they were. */
  ghost predicate RefreshedAll(before: Entries, after: Entries, live: Sessions, done: set<Uuid>, boot: Boot, directories: Uuid -> string)
    requires done <= live.Keys
  {
    && after.Keys == before.Keys
    && forall u :: u in before ==>
      if u in done && before[u].boot == boot then RefreshedEntry(before[u], after[u], live[u], directories(u)) else after[u] == before[u]
  }

  /** Only id's entry is refreshed, and only if it is of this boot. */
  predicate RefreshedOne(before: Entries, after: Entries, s: Running, id: Uuid, boot: Boot, directory: string) {
    && after.Keys == before.Keys
    && forall u :: u in before ==>
      if u == id && before[u].boot == boot then RefreshedEntry(before[u], after[u], s, directory) else after[u] == before[u]
  }

  lemma KeptRefreshed(before: Entries, after: Entries, boot: Boot, sessions: Sessions, id: Uuid, directory: string,
                      closing: bool, lateOpen: bool)
    requires Kept(before, boot, sessions, closing, lateOpen) && id in sessions
    requires RefreshedOne(before, after, sessions[id], id, boot, directory)
    ensures Kept(after, boot, sessions, closing, lateOpen)
  {}

  lemma RefreshStep(before: Entries, mid: Entries, after: Entries, live: Sessions, done: set<Uuid>, id: Uuid, boot: Boot,
                    directories: Uuid -> string)
    requires done <= live.Keys && id in live && id !in done
    requires RefreshedAll(before, mid, live, done, boot, directories)
    requires RefreshedOne(mid, after, live[id], id, boot, directories(id))
    ensures RefreshedAll(before, after, live, done + {id}, boot, directories)
  {}

  predicate Means(request: Request, id: Uuid, s: Running) {
    if request.id.Some? then id == request.id.value else s.name == request.name
  }

  /** The session id is the one the request means; if it is new it is the only change. */
  predicate Provided(before: Sessions, after: Sessions, request: Request, id: Uuid) {
    && id in after && Means(request, id, after[id])
    && if id in before then after == before else after - {id} == before && Fresh(after[id])
  }

  /** Nobody has joined the session, used it or terminated it. */
  predicate Fresh(s: Running) { s.views == map[] && s.active == None && !s.terminated }

  /** The viewer v has joined the session the request means, and nothing else changed. */
  predicate Entered(before: Sessions, after: Sessions, request: Request, id: Uuid, v: ViewId) {
    && id in after && Means(request, id, after[id]) && after - {id} == before - {id}
    && if id in before then
         after[id] == before[id].(views := before[id].views[v := Dimensions(request.size)], screen := after[id].screen)
       else after[id].views == map[v := Dimensions(request.size)] && after[id].active == None && !after[id].terminated
  }

  /** Where a session started for a request starts, and what is then left of the entries: a reopened one where
      it was; an ensure that restores, where the most recent earlier session of its name was, if there is one,
      and that entry is spent; every other one where its request says. */
  ghost predicate Placed(request: Request, entries: Entries, boot: Boot, isDirectory: string -> bool, directory: string, left: Entries) {
    if request.id.Some? then
      request.id.value in entries && left == entries && directory == RestoreDirectory(entries[request.id.value].cwd, isDirectory)
    else if request.restore && request.action.Ensure? && exists w :: w in entries && NamedEarlier(entries[w], request.name, boot) then
      exists u :: u in entries && NamedEarlier(entries[u], request.name, boot)
        && (forall w :: w in entries && NamedEarlier(entries[w], request.name, boot) ==> entries[w].updated <= entries[u].updated)
        && left == entries - {u} && directory == RestoreDirectory(entries[u].cwd, isDirectory)
    else left == entries && directory == request.directory
  }

  lemma SpentIsPlaced(request: Request, entries: Entries, boot: Boot, isDirectory: string -> bool, u: Uuid)
    requires request.id.None? && request.restore && request.action.Ensure? && u in entries && NamedEarlier(entries[u], request.name, boot)
    requires forall w :: w in entries && NamedEarlier(entries[w], request.name, boot) ==> w == u || Before(u, entries[u], w, entries[w])
    ensures Placed(request, entries, boot, isDirectory, RestoreDirectory(entries[u].cwd, isDirectory), entries - {u})
  {}

  lemma StartedStays(request: Request, stored: bool, before: Entries, boot: Boot, isDirectory: string -> bool, id: Uuid,
                     s: Running, after: Entries, now: Running)
    requires StartedFor(request, stored, before, boot, isDirectory, id, s, after) && now.name == s.name && now.directory == s.directory
    ensures StartedFor(request, stored, before, boot, isDirectory, id, now, after)
  {}

  lemma NoneIsPlaced(request: Request, entries: Entries, boot: Boot, isDirectory: string -> bool)
    requires request.id.None?
    requires request.restore && request.action.Ensure? ==> forall w :: w in entries ==> !NamedEarlier(entries[w], request.name, boot)
    ensures Placed(request, entries, boot, isDirectory, request.directory, entries)
  {}

  /** What looking for the session a request means, and starting it if need be, leaves of the record. */
  ghost predicate RecordAfter(request: Request, stored: bool, before: Sessions, entries: Entries, boot: Boot, isDirectory: string -> bool,
                              r: Result<Uuid>, after: Sessions, left: Entries) {
    match r
    case Ok(id) =>
      id in after && if id in before then left == entries else StartedFor(request, stored, entries, boot, isDirectory, id, after[id], left)
    case Err(_) => left == entries || exists d :: Placed(request, entries, boot, isDirectory, d, left)
  }

  lemma ReopenedFor(request: Request, before: Sessions, entries: Entries, boot: Boot, isDirectory: string -> bool, id: Uuid,
                    after: Sessions, left: Entries)
    requires request.id == Some(id) && id in entries && id !in before && id in after
    requires after[id].directory == RestoreDirectory(entries[id].cwd, isDirectory)
    requires Written(entries, boot, id, after[id].name, after[id].directory, Dimensions(request.size), left)
    ensures RecordAfter(request, true, before, entries, boot, isDirectory, Ok(id), after, left)
  {}

  lemma StartedAfter(request: Request, stored: bool, before: Sessions, entries: Entries, boot: Boot, isDirectory: string -> bool,
                     directory: string, mid: Entries, r: Result<Uuid>, after: Sessions, left: Entries)
    requires Placed(request, entries, boot, isDirectory, directory, mid)
    requires r.Err? ==> left == mid
    requires r.Ok? ==> r.value !in before && r.value in after && after[r.value].directory == directory
    requires r.Ok? && stored ==> Written(mid, boot, r.value, after[r.value].name, directory, Dimensions(request.size), left)
    ensures RecordAfter(request, stored, before, entries, boot, isDirectory, r, after, left)
  {}

  predicate NamedEarlier(e: Entry, name: string, boot: Boot) { e.name == name && e.boot != boot }

  /** What recording a started session makes of the entries: it is there, and the newest are kept. */
  ghost predicate Written(left: Entries, boot: Boot, id: Uuid, name: string, directory: string, size: Size, after: Entries) {
    exists t :: Newest(left[id := Entry(name, directory, size, boot, t)], after)
  }

  /** Session s was started for the request where it should, and recorded so if there is a store. */
  ghost predicate StartedFor(request: Request, stored: bool, before: Entries, boot: Boot, isDirectory: string -> bool, id: Uuid,
                             s: Running, after: Entries) {
    exists left :: Placed(request, before, boot, isDirectory, s.directory, left)
      && (stored ==> Written(left, boot, id, s.name, s.directory, Dimensions(request.size), after))
  }

  lemma EnteredAfter(before: Sessions, mid: Sessions, after: Sessions, request: Request, id: Uuid, v: ViewId)
    requires Provided(before, mid, request, id) && id in after
    requires after == mid[id := mid[id].(views := mid[id].views[v := Dimensions(request.size)], screen := after[id].screen)]
    ensures Entered(before, after, request, id, v)
  {
    assert after - {id} == mid - {id};
    if id !in before { assert before - {id} == before; }
  }

  /** The session without viewer v; nobody is in use if v was. */
  predicate ViewLeft(was: Running, now: Running, v: ViewId) {
    && now == was.(views := was.views - {v}, active := if was.active == Some(v) then None else was.active, screen := now.screen)
    && (now.views == map[] ==> now.screen == was.screen)
  }

  class Engine {
    var sessions: Sessions
    var stopping: bool
    /** The helper itself is going down; sessions that end from now on did not end, the machine did. */
    var closing: bool
    const machine: Machine
    const restore: RestoreStore?
    /** A session was started while the helper was closing. */
    ghost var lateOpen: bool

    ghost predicate Valid()
      reads this, machine, restore
    {
      SessionsOk(sessions) && (stopping ==> sessions == map[]) && RecordOk(sessions)
    }

    /** The record is right for these live sessions. */
    ghost predicate RecordOk(live: Sessions)
      reads `closing, `lateOpen, machine, restore
    {
      && AtRest(machine)
      && live.Keys <= machine.used && live.Keys !! machine.gone
      && (restore == null ==> live.Keys !! machine.Stored().Keys)
      && (restore != null ==> restore.machine == machine && restore.Valid()
                              && Kept(restore.entries, restore.boot, live, closing, lateOpen))
    }

    /** NewEngine and EnableRestore. */
    constructor (machine: Machine, restore: RestoreStore?)
      requires AtRest(machine)
      requires restore != null ==> restore.machine == machine && restore.Valid()
                                   && forall u :: u in restore.entries ==> restore.entries[u].boot != restore.boot
      ensures Valid() && this.machine == machine && this.restore == restore
      ensures sessions == map[] && !stopping && !closing && !lateOpen
    {
      sessions, stopping, closing, lateOpen := map[], false, false, false;
      this.machine, this.restore := machine, restore;
      new;
      assert ViewIds(map[]) == {};
    }

    method MarkClosing()
      requires Valid()
      modifies `closing
      ensures Valid() && closing
    {
      closing := true;
    }

    /** Once an engine may stop it has no sessions and accepts none. */
    method StopIdle() returns (r: Result<()>)
      requires Valid()
      modifies `stopping
      ensures Valid() && (r.Ok? <==> sessions == map[]) && (r.Ok? ==> stopping) && (old(stopping) ==> stopping)
      ensures r.Err? ==> r.failure == Busy && stopping == old(stopping)
    {
      if |sessions| != 0 {
        return Err(Busy);
      }
      stopping := true;
      r := Ok(());
    }

    /** Idle; expired says whether the last use is long enough ago. */
    method Idle(expired: bool) returns (stop: bool)
      requires Valid()
      modifies `stopping
      ensures Valid() && stop == stopping == (old(stopping) || (sessions == map[] && expired))
    {
      if |sessions| == 0 && expired {
        stopping := true;
      }
      stop := stopping;
    }

    /** Rename. */
    method Rename(id: Uuid, name: string) returns (r: Result<()>)
      requires Valid()
      modifies `sessions, restore, machine
      ensures Valid() && (old(machine.gone) == machine.gone)
      ensures r == if id !in old(sessions) then Err(NotFound) else if !ValidName(name) then Err(InvalidName)
                   else if HeldByOther(old(sessions), id, name) then Err(Exists) else Ok(())
      ensures sessions == if r.Ok? then old(sessions)[id := old(sessions)[id].(name := name)] else old(sessions)
    {
      if id !in sessions {
        return Err(NotFound);
      }
      if !ValidName(name) {
        return Err(InvalidName);
      }
      var todo := sessions.Keys;
      while todo != {}
        invariant todo <= sessions.Keys && forall w :: w in sessions.Keys - todo && w != id ==> sessions[w].name != name
        decreases |todo|
      {
        var w :| w in todo;
        todo := todo - {w};
        if w != id && sessions[w].name == name {
          return Err(Exists);
        }
      }
      SetName(id, name);
      r := Ok(());
    }

    method SetName(id: Uuid, name: string)
      requires Valid() && id in sessions && ValidName(name) && !HeldByOther(sessions, id, name)
      modifies `sessions, restore, machine
      ensures Valid() && machine.gone == old(machine.gone)
      ensures sessions == old(sessions)[id := old(sessions)[id].(name := name)]
    {
      RenameKeeps(sessions, id, name);
      RecordName(id, name);
      Insert(id, sessions[id].(name := name));
    }

    method RecordName(id: Uuid, name: string)
      requires RecordOk(sessions) && id in sessions && ValidName(name)
      modifies restore, machine
      ensures RecordOk(sessions[id := sessions[id].(name := name)]) && machine.gone == old(machine.gone)
    {
      if restore != null {
        ghost var before := restore.entries;
        restore.Update(id, (e: Entry) => e.(name := name));
        KeptRenamed(before, restore.entries, restore.boot, sessions, id, name, closing, lateOpen);
      }
    }

    // ---- viewers ----

    method Replace(id: Uuid, r: Running)
      requires Valid() && id in sessions && RunningOk(r)
      requires r.name == sessions[id].name && r.views.Keys <= sessions[id].views.Keys
      modifies `sessions
      ensures Valid() && sessions == old(sessions)[id := r]
    {
      ReplaceKeeps(sessions, id, r);
      Put(id, r);
    }

    /** View.Apply, as far as it decides who is in use: whoever types or resizes is, and the screen takes
        that viewer's size; looking changes nothing. */
    method Apply(id: Uuid, v: ViewId, use: Use) returns (r: Result<()>)
      requires Valid()
      modifies `sessions
      ensures Valid() && (r.Ok? <==> id in old(sessions) && v in old(sessions)[id].views)
      ensures r.Err? || use.Looking? ==> sessions == old(sessions)
      ensures r.Ok? && !use.Looking? ==>
        var was := old(sessions)[id];
        var size := if use.Resizing? then Dimensions(use.size) else was.views[v];
        sessions == old(sessions)[id := was.(active := Some(v), views := was.views[v := size], screen := size)]
    {
      if id !in sessions || v !in sessions[id].views {
        return Err(Closed);
      }
      if !use.Looking? {
        UseView(id, v, if use.Resizing? then Dimensions(use.size) else sessions[id].views[v]);
      }
      r := Ok(());
    }

    /** Viewer v of size works in the session. */
    method UseView(id: Uuid, v: ViewId, size: Size)
      requires Valid() && id in sessions && v in sessions[id].views && Proper(size)
      modifies `sessions
      ensures Valid()
      ensures var was := old(sessions)[id];
        sessions == old(sessions)[id := was.(active := Some(v), views := was.views[v := size], screen := size)]
    {
      var s := sessions[id];
      var views := s.views[v := size];
      if s.active == Some(v) && views == s.views {
        return;
      }
      s := Resized(s.(active := Some(v), views := views));
      Replace(id, s);
    }

    /** View.Close. */
    method CloseView(id: Uuid, v: ViewId)
      requires Valid()
      modifies `sessions
      ensures sessions.Keys == old(sessions).Keys
      ensures id in sessions ==> ViewLeft(old(sessions)[id], sessions[id], v) && sessions == old(sessions)[id := sessions[id]]
      ensures id !in sessions ==> sessions == old(sessions)
      ensures Valid()
    {
      if id !in sessions {
        return;
      }
      var was := sessions[id];
      var s := Resized(was.(views := was.views - {v}, active := if was.active == Some(v) then None else was.active));
      Replace(id, s);
    }

    // ---- ends ----

    method Terminate(id: Uuid) returns (r: Result<()>)
      requires Valid()
      modifies `sessions
      ensures Valid() && (r.Ok? <==> id in old(sessions))
      ensures sessions == if r.Ok? then old(sessions)[id := old(sessions)[id].(terminated := true)] else old(sessions)
    {
      if id !in sessions {
        return Err(NotFound);
      }
      Replace(id, sessions[id].(terminated := true));
      r := Ok(());
    }

    /** The exit branch of pump. A session that ended by itself or was terminated is gone for good; one
        the closing helper took down keeps its entry. */
    method End(id: Uuid)
      requires Valid() && id in sessions
      modifies `sessions, restore, machine
      ensures Valid() && sessions == old(sessions) - {id}
      ensures machine.gone == if old(sessions)[id].terminated || !closing then old(machine.gone) + {id} else old(machine.gone)
      ensures restore != null ==>
        restore.entries == (if old(sessions)[id].terminated || !closing then old(restore.entries) - {id} else old(restore.entries))
    {
      if sessions[id].terminated || !closing {
        EndForGood(id);
      } else {
        ClosingKeepsEntry(id);
        Drop(id);
      }
    }

    method EndForGood(id: Uuid)
      requires Valid() && id in sessions
      modifies `sessions, restore, machine
      ensures Valid() && sessions == old(sessions) - {id} && machine.gone == old(machine.gone) + {id}
      ensures restore != null ==> restore.entries == old(restore.entries) - {id}
    {
      ForgetEnded(id);
      Drop(id);
    }

    lemma ClosingKeepsEntry(id: Uuid)
      requires RecordOk(sessions) && closing
      ensures RecordOk(sessions - {id})
    {}

    method Drop(id: Uuid)
      requires SessionsOk(sessions) && id in sessions && !stopping && RecordOk(sessions - {id})
      modifies `sessions
      ensures Valid() && sessions == old(sessions) - {id}
    {
      DropKeeps(sessions, id);
      sessions := sessions - {id};
    }

    method ForgetEnded(id: Uuid)
      requires RecordOk(sessions) && id in sessions
      modifies restore, machine
      ensures RecordOk(sessions - {id}) && machine.gone == old(machine.gone) + {id}
      ensures restore != null ==> restore.entries == old(restore.entries) - {id}
    {
      if restore != null {
        KeptWithout(restore.entries, restore.boot, sessions, id, closing, lateOpen);
        restore.Forget(id);
      }
      Bury(id);
    }

    ghost method Bury(id: Uuid)
      requires AtRest(machine) && id in machine.used && id !in machine.Stored()
      requires restore != null ==> restore.machine == machine && restore.Valid()
      modifies machine`gone
      ensures AtRest(machine) && machine.gone == old(machine.gone) + {id}
      ensures restore != null ==> restore.Valid()
    {
      machine.gone := machine.gone + {id};
    }

    // ---- opening ----

    method FindName(name: string) returns (found: Option<Uuid>)
      requires Valid()
      ensures found.Some? ==> found.value in sessions && sessions[found.value].name == name
      ensures found.None? ==> forall u :: u in sessions ==> sessions[u].name != name
    {
      var todo := sessions.Keys;
      while todo != {}
        invariant todo <= sessions.Keys && forall u :: u in sessions.Keys - todo ==> sessions[u].name != name
        decreases |todo|
      {
        var u :| u in todo;
        todo := todo - {u};
        if sessions[u].name == name {
          return Some(u);
        }
      }
      found := None;
    }

    /** A new session that stands in for a lost one of that name starts where the record last saw it; the
        record is used up. */
    method Predecessor(request: Request, isDirectory: string -> bool) returns (directory: string)
      requires Valid() && request.id.None?
      modifies restore, machine
      ensures Valid() && machine.gone == old(machine.gone) && machine.used == old(machine.used)
      ensures restore == null ==> machine.file == old(machine.file)
      ensures Placed(request, old(Entries()), TheBoot(), isDirectory, directory, Entries())
    {
      directory := request.directory;
      if !request.restore || !request.action.Ensure? || restore == null {
        NoneIsPlaced(request, Entries(), TheBoot(), isDirectory);
        return;
      }
      var found := restore.RestorableByName(request.name);
      if found.Some? {
        directory := Stead(request, found.value, isDirectory);
      } else {
        NoneIsPlaced(request, restore.entries, restore.boot, isDirectory);
      }
    }

    /** Where the session recorded as u was; its entry is spent. */
    method Stead(request: Request, u: Uuid, isDirectory: string -> bool) returns (directory: string)
      requires RecordOk(sessions) && restore != null && request.id.None? && request.restore && request.action.Ensure?
      requires u in restore.entries && NamedEarlier(restore.entries[u], request.name, restore.boot)
      requires forall w :: w in restore.entries && NamedEarlier(restore.entries[w], request.name, restore.boot) ==>
        w == u || Before(u, restore.entries[u], w, restore.entries[w])
      modifies restore, machine
      ensures RecordOk(sessions) && machine.gone == old(machine.gone) && machine.used == old(machine.used)
      ensures Placed(request, old(restore.entries), restore.boot, isDirectory, directory, restore.entries)
    {
      SpentIsPlaced(request, restore.entries, restore.boot, isDirectory, u);
      directory := RestoreDirectory(restore.entries[u].cwd, isDirectory);
      UseUp(u);
    }

    /** The record, empty without a store. */
    ghost function Entries(): Entries
      reads this, restore
    {
      if restore == null then map[] else restore.entries
    }

    ghost function TheBoot(): Boot
      reads this, restore
    {
      if restore == null then "" else restore.boot
    }

    method UseUp(id: Uuid)
      requires RecordOk(sessions) && restore != null && id in restore.entries && restore.entries[id].boot != restore.boot
      modifies restore, machine
      ensures RecordOk(sessions) && machine.gone == old(machine.gone) && machine.used == old(machine.used)
      ensures restore.entries == old(restore.entries) - {id}
    {
      KeptWithoutEarlier(restore.entries, restore.boot, sessions, id, closing, lateOpen);
      restore.Forget(id);
    }

    /** The record says of session id what it is, and where it started. */
    ghost predicate Recorded(id: Uuid, r: Running)
      requires restore != null
      reads restore
    {
      id in restore.entries && var e := restore.entries[id];
        e.name == r.name && e.size == r.screen && e.cwd == r.directory && e.boot == restore.boot
    }

    method RecordStart(id: Uuid, r: Running)
      requires RecordOk(sessions) && |sessions| < MAX_SESSIONS
      requires id !in sessions && id in machine.used && id !in machine.gone && ValidName(r.name)
      requires restore == null ==> id !in machine.Stored()
      modifies restore, machine, `lateOpen
      ensures RecordOk(sessions[id := r]) && machine.gone == old(machine.gone) && machine.used == old(machine.used)
      ensures lateOpen == (old(lateOpen) || (restore != null && closing))
      ensures restore != null && !closing && !lateOpen ==> Recorded(id, r)
      ensures restore != null ==> Written(old(restore.entries), restore.boot, id, r.name, r.directory, r.screen, restore.entries)
    {
      if restore != null {
        ghost var before, since := restore.entries, restore.since;
        restore.Record(id, r.name, r.directory, r.screen);
        KeptStarted(before, restore.entries, restore.boot, since, sessions, id,
                    Entry(r.name, r.directory, r.screen, restore.boot, machine.now), r, closing, lateOpen);
        lateOpen := lateOpen || closing;
      }
    }

    /** The checks before a session is started, and the start. */
    method Start(id: Uuid, name: string, directory: string, size: Size, spawns: bool) returns (r: Result<()>)
      requires Valid() && !stopping && id !in sessions && id in machine.used && id !in machine.gone
      requires restore == null ==> id !in machine.Stored()
      requires ValidName(name) ==> forall u :: u in sessions ==> sessions[u].name != name
      modifies `sessions, restore, machine, `lateOpen
      ensures Valid() && machine.gone == old(machine.gone) && machine.used == old(machine.used)
      ensures r == if !ValidName(name) then Err(InvalidName) else if |old(sessions)| >= MAX_SESSIONS then Err(SessionLimit)
                   else if !spawns then Err(StartFailed) else Ok(())
      ensures sessions == if r.Ok? then old(sessions)[id := Running(name, directory, Dimensions(size), map[], None, false)] else old(sessions)
      ensures r.Ok? ==> sessions - {id} == old(sessions)
      ensures !closing ==> lateOpen == old(lateOpen)
      ensures r.Ok? && restore != null && !closing && !lateOpen ==> Recorded(id, sessions[id])
      ensures r.Ok? && restore != null ==> Written(old(restore.entries), restore.boot, id, name, directory, Dimensions(size), restore.entries)
      ensures r.Err? ==> Entries() == old(Entries())
    {
      if !ValidName(name) {
        return Err(InvalidName);
      }
      if |sessions| >= MAX_SESSIONS {
        return Err(SessionLimit);
      }
      if !spawns {
        return Err(StartFailed);
      }
      Begin(id, Running(name, directory, Dimensions(size), map[], None, false));
      r := Ok(());
    }

    method Begin(id: Uuid, s: Running)
      requires Valid() && !stopping && id !in sessions && id in machine.used && id !in machine.gone
      requires restore == null ==> id !in machine.Stored()
      requires |sessions| < MAX_SESSIONS && RunningOk(s) && s.views == map[] && forall u :: u in sessions ==> sessions[u].name != s.name
      modifies `sessions, restore, machine, `lateOpen
      ensures Valid() && machine.gone == old(machine.gone) && machine.used == old(machine.used)
      ensures sessions == old(sessions)[id := s] && sessions - {id} == old(sessions)
      ensures !closing ==> lateOpen == old(lateOpen)
      ensures restore != null && !closing && !lateOpen ==> Recorded(id, s)
      ensures restore != null ==> Written(old(restore.entries), restore.boot, id, s.name, s.directory, s.screen, restore.entries)
    {
      NewSessionKeeps(sessions, id, s);
      PutThenDrop(sessions, id, s);
      RecordStart(id, s);
      Insert(id, s);
    }

    method Insert(id: Uuid, s: Running)
      requires !stopping && SessionsOk(sessions[id := s]) && RecordOk(sessions[id := s])
      modifies `sessions
      ensures Valid() && sessions == old(sessions)[id := s]
    {
      sessions := sessions[id := s];
    }

    /** The end of Open: the viewer joins the session, and the screen is sized again. */
    method AddView(id: Uuid, v: ViewId, size: Size)
      requires Valid() && id in sessions && v !in ViewIds(sessions) && |ViewIds(sessions)| < MAX_VIEWERS
      modifies `sessions
      ensures Valid() && id in sessions && v in sessions[id].views
      ensures var was := old(sessions)[id];
        sessions == old(sessions)[id := was.(views := was.views[v := Dimensions(size)], screen := sessions[id].screen)]
    {
      var was := sessions[id];
      ViewOfSession(sessions, id, v);
      var s := Resized(was.(views := was.views[v := Dimensions(size)]));
      NewViewKeeps(sessions, id, v, s);
      Put(id, s);
    }

    method Put(id: Uuid, s: Running)
      requires Valid() && id in sessions && SessionsOk(sessions[id := s]) && s.name == sessions[id].name
      modifies `sessions
      ensures Valid() && sessions == old(sessions)[id := s]
    {
      SameNames(sessions[id := s]);
      Insert(id, s);
    }

    lemma SameNames(live: Sessions)
      requires RecordOk(sessions) && live.Keys == sessions.Keys && forall u :: u in live ==> live[u].name == sessions[u].name
      ensures RecordOk(live)
    {}

    /** Whether Open lets a viewer in. */
    ghost predicate Accepts(request: Request, spawns: bool)
      reads this, restore
    {
      !stopping && |ViewIds(sessions)| < MAX_VIEWERS && Welcomes(request, spawns)
    }

    /** Why a request is refused, the first reason that applies. */
    ghost function Refusal(request: Request, spawns: bool): Failure
      reads this, restore
    {
      if stopping then Stopping
      else if |ViewIds(sessions)| >= MAX_VIEWERS then ViewerLimit
      else if Target(request).Some? then Exists
      else if request.id.Some? && (restore == null || restore.Restorable(request.id.value).None?) then NotFound
      else if request.id.None? && request.action.Attach? then NotFound
      else if request.id.None? && !ValidName(request.name) then InvalidName
      else if |sessions| >= MAX_SESSIONS then SessionLimit
      else StartFailed
    }

    /** Whether there is, or can be, a session for a request. */
    ghost predicate Welcomes(request: Request, spawns: bool)
      reads this, restore
    {
      if Target(request).Some? then !request.action.Create?
      else
        && |sessions| < MAX_SESSIONS && spawns
        && if request.id.Some? then restore != null && restore.Restorable(request.id.value).Some?
           else !request.action.Attach? && ValidName(request.name)
    }

    /** The name a session started for a request should get. */
    ghost function Wanted(request: Request): string
      reads this, restore
    {
      if request.id.Some? && restore != null && restore.Restorable(request.id.value).Some?
      then restore.Restorable(request.id.value).value.name else request.name
    }

    /** Where the session a request reopens was when it was last recorded. */
    ghost function LastDirectory(request: Request): string
      reads this, restore
    {
      if request.id.Some? && restore != null && restore.Restorable(request.id.value).Some?
      then restore.Restorable(request.id.value).value.cwd else ""
    }

    /** The record says that session id was started in directory. */
    ghost predicate StartedIn(id: Uuid, directory: string)
      reads restore
    {
      restore != null && id in restore.entries && restore.entries[id].cwd == directory
    }

    /** The live session a request means: the one with its id, or without an id the one with its name. */
    ghost function Target(request: Request): Option<Uuid>
      reads this
    {
      if request.id.Some? then if request.id.value in sessions then request.id else None
      else if u :| u in sessions && sessions[u].name == request.name then Some(u) else None
    }

    /** Reopen the session an earlier boot recorded under this UUID, under a name that is free. */
    method Reopen(id: Uuid, size: Size, spawns: bool, isDirectory: string -> bool) returns (r: Result<()>)
      requires Valid() && !stopping && id !in sessions
      modifies `sessions, restore, machine, `lateOpen
      ensures Valid() && machine.gone == old(machine.gone) && (!closing ==> lateOpen == old(lateOpen))
      ensures r.Ok? <==> restore != null && old(restore.Restorable(id).Some?) && |old(sessions)| < MAX_SESSIONS && spawns
      ensures r.Err? ==> sessions == old(sessions)
      ensures r.Ok? ==> id in sessions && Fresh(sessions[id]) && sessions - {id} == old(sessions)
      ensures r.Ok? && Free(old(sessions), old(restore.Restorable(id)).value.name) ==>
        sessions[id].name == old(restore.Restorable(id)).value.name
      ensures r.Ok? && !closing && !lateOpen ==>
        Recorded(id, sessions[id])
      ensures r.Ok? ==> sessions[id].directory == RestoreDirectory(old(restore.Restorable(id)).value.cwd, isDirectory)
      ensures r.Ok? ==>
        Written(old(restore.entries), restore.boot, id, sessions[id].name, sessions[id].directory, Dimensions(size), restore.entries)
      ensures r.Err? ==> Entries() == old(Entries())
      ensures r.Err? ==> r.failure == if restore == null || old(restore.Restorable(id)).None? then NotFound
                                      else if |old(sessions)| >= MAX_SESSIONS then SessionLimit else StartFailed
    {
      if restore == null {
        return Err(NotFound);
      }
      var entry := restore.Restorable(id);
      if entry.None? {
        return Err(NotFound);
      }
      var name := FreeSessionName(entry.value.name);
      r := Start(id, name, RestoreDirectory(entry.value.cwd, isDirectory), size, spawns);
    }

    method FreeSessionName(wanted: string) returns (name: string)
      requires Valid()
      ensures ValidName(wanted) ==> ValidName(name)
      ensures forall u :: u in sessions ==> sessions[u].name != name
      ensures Free(sessions, wanted) ==> name == wanted
    {
      NamesCount(sessions);
      name := FindFree(wanted, set u | u in sessions :: sessions[u].name);
      forall u | u in sessions ensures sessions[u].name != name { assert sessions[u].name in Names(sessions); }
    }

    /** Open for a request that names a session without a UUID. */
    method StartNamed(request: Request, spawns: bool, isDirectory: string -> bool) returns (r: Result<Uuid>)
      requires Valid() && !stopping && request.id.None? && forall u :: u in sessions ==> sessions[u].name != request.name
      modifies `sessions, restore, machine, `lateOpen
      ensures Valid() && machine.gone == old(machine.gone) && (!closing ==> lateOpen == old(lateOpen))
      ensures r.Ok? <==> !request.action.Attach? && ValidName(request.name) && |old(sessions)| < MAX_SESSIONS && spawns
      ensures r.Err? ==> sessions == old(sessions)
      ensures r.Ok? ==> r.value !in old(sessions) && r.value in sessions && sessions[r.value].name == request.name
                        && Fresh(sessions[r.value]) && sessions - {r.value} == old(sessions)
      ensures RecordAfter(request, restore != null, old(sessions), old(Entries()), TheBoot(), isDirectory, r, sessions, Entries())
      ensures r.Err? ==> r.failure == if request.action.Attach? then NotFound else if !ValidName(request.name) then InvalidName
                                      else if |old(sessions)| >= MAX_SESSIONS then SessionLimit else StartFailed
    {
      ghost var before, entries := sessions, Entries();
      if request.action.Attach? {
        return Err(NotFound);
      }
      var id := NewId();
      var directory := Predecessor(request, isDirectory);
      ghost var left := Entries();
      var started := Start(id, request.name, directory, request.size, spawns);
      r := if started.Ok? then Ok(id) else Err(started.failure);
      StartedAfter(request, restore != null, before, entries, TheBoot(), isDirectory, directory, left, r, sessions, Entries());
    }

    method NewId() returns (id: Uuid)
      requires Valid()
      modifies machine`drawn, machine`used
      ensures Valid() && id in machine.used && id !in machine.gone && id !in machine.Stored() && id !in sessions
    {
      id := machine.RandomId();
    }

    /** The session a request opens: found, reopened or started. */
    method Provide(request: Request, spawns: bool, isDirectory: string -> bool) returns (r: Result<Uuid>)
      requires Valid() && !stopping && |ViewIds(sessions)| < MAX_VIEWERS
      modifies `sessions, restore, machine, `lateOpen
      ensures Valid() && machine.gone == old(machine.gone) && (!closing ==> lateOpen == old(lateOpen))
      ensures r.Ok? <==> old(Welcomes(request, spawns))
      ensures r.Err? ==> sessions == old(sessions)
      ensures r.Ok? ==> Provided(old(sessions), sessions, request, r.value)
      ensures r.Ok? && r.value !in old(sessions) && Free(old(sessions), old(Wanted(request))) ==>
        sessions[r.value].name == old(Wanted(request))
      ensures RecordAfter(request, restore != null, old(sessions), old(Entries()), TheBoot(), isDirectory, r, sessions, Entries())
      ensures r.Err? ==> r.failure == old(Refusal(request, spawns))
      ensures r.Ok? && r.value !in old(sessions) && request.id.Some? && !closing && !lateOpen ==>
        StartedIn(r.value, RestoreDirectory(old(LastDirectory(request)), isDirectory))
    {
      ghost var welcome, why, wanted, last := Welcomes(request, spawns), Refusal(request, spawns), Wanted(request), LastDirectory(request);
      if request.id.Some? {
        var id := request.id.value;
        ghost var entry := if restore == null then None else restore.Restorable(id);
        assert welcome == if id in sessions then !request.action.Create? else entry.Some? && |sessions| < MAX_SESSIONS && spawns;
        assert !welcome ==> why == if id in sessions then Exists else if entry.None? then NotFound
                                   else if |sessions| >= MAX_SESSIONS then SessionLimit else StartFailed;
        assert entry.Some? ==> wanted == entry.value.name && last == entry.value.cwd;
        r := ProvideId(request, request.id.value, spawns, isDirectory);
      } else {
        ghost var found := !Free(sessions, request.name);
        assert Target(request).Some? <==> found;
        assert welcome == if found then !request.action.Create?
                          else !request.action.Attach? && ValidName(request.name) && |sessions| < MAX_SESSIONS && spawns;
        assert !welcome ==> why == if found then Exists else if request.action.Attach? then NotFound
          else if !ValidName(request.name) then InvalidName else if |sessions| >= MAX_SESSIONS then SessionLimit else StartFailed;
        assert wanted == request.name;
        r := ProvideNamed(request, spawns, isDirectory);
      }
    }

    method ProvideId(request: Request, id: Uuid, spawns: bool, isDirectory: string -> bool) returns (r: Result<Uuid>)
      requires Valid() && !stopping && |ViewIds(sessions)| < MAX_VIEWERS && request.id == Some(id)
      modifies `sessions, restore, machine, `lateOpen
      ensures Valid() && machine.gone == old(machine.gone) && (!closing ==> lateOpen == old(lateOpen))
      ensures r == if id in old(sessions) then if request.action.Create? then Err(Exists) else Ok(id)
                   else if restore == null || old(restore.Restorable(id)).None? then Err(NotFound)
                   else if |old(sessions)| >= MAX_SESSIONS then Err(SessionLimit) else if !spawns then Err(StartFailed) else Ok(id)
      ensures r.Err? ==> sessions == old(sessions)
      ensures r.Ok? ==> Provided(old(sessions), sessions, request, r.value)
      ensures r.Ok? && id !in old(sessions) && Free(old(sessions), old(restore.Restorable(id)).value.name) ==>
        sessions[id].name == old(restore.Restorable(id)).value.name
      ensures RecordAfter(request, restore != null, old(sessions), old(Entries()), TheBoot(), isDirectory, r, sessions, Entries())
      ensures r.Ok? && id !in old(sessions) && !closing && !lateOpen ==>
        StartedIn(id, RestoreDirectory(old(restore.Restorable(id)).value.cwd, isDirectory))
    {
      ghost var before, entries := sessions, Entries();
      if id in sessions {
        return if request.action.Create? then Err(Exists) else Ok(id);
      }
      var started := Reopen(id, request.size, spawns, isDirectory);
      if started.Ok? { ReopenedFor(request, before, entries, TheBoot(), isDirectory, id, sessions, Entries()); }
      r := if started.Ok? then Ok(id) else Err(started.failure);
    }

    method ProvideNamed(request: Request, spawns: bool, isDirectory: string -> bool) returns (r: Result<Uuid>)
      requires Valid() && !stopping && |ViewIds(sessions)| < MAX_VIEWERS && request.id.None?
      modifies `sessions, restore, machine, `lateOpen
      ensures Valid() && machine.gone == old(machine.gone) && (!closing ==> lateOpen == old(lateOpen))
      ensures r.Ok? <==> if Free(old(sessions), request.name)
        then !request.action.Attach? && ValidName(request.name) && |old(sessions)| < MAX_SESSIONS && spawns else !request.action.Create?
      ensures r.Err? ==> sessions == old(sessions)
      ensures r.Ok? ==> Provided(old(sessions), sessions, request, r.value)
      ensures RecordAfter(request, restore != null, old(sessions), old(Entries()), TheBoot(), isDirectory, r, sessions, Entries())
      ensures r.Err? ==> r.failure == if !Free(old(sessions), request.name) then Exists
        else if request.action.Attach? then NotFound else if !ValidName(request.name) then InvalidName
        else if |old(sessions)| >= MAX_SESSIONS then SessionLimit else StartFailed
    {
      var found := FindName(request.name);
      if found.Some? {
        return if request.action.Create? then Err(Exists) else Ok(found.value);
      }
      r := StartNamed(request, spawns, isDirectory);
    }

    /** Open. v is the new viewer, spawns whether a shell can be started. */
    method Open(request: Request, v: ViewId, spawns: bool, isDirectory: string -> bool) returns (r: Result<Uuid>)
      requires Valid() && v !in ViewIds(sessions)
      modifies `sessions, restore, machine, `lateOpen
      ensures Valid() && machine.gone == old(machine.gone) && (!closing ==> lateOpen == old(lateOpen))
      ensures r.Ok? <==> old(Accepts(request, spawns))
      ensures r.Err? ==> sessions == old(sessions)
      ensures r.Ok? ==> Entered(old(sessions), sessions, request, r.value, v)
      ensures r.Ok? && r.value !in old(sessions) && Free(old(sessions), old(Wanted(request))) ==>
        sessions[r.value].name == old(Wanted(request))
      ensures RecordAfter(request, restore != null, old(sessions), old(Entries()), TheBoot(), isDirectory, r, sessions, Entries())
      ensures r.Err? ==> r.failure == old(Refusal(request, spawns))
      ensures r.Ok? && r.value !in old(sessions) && request.id.Some? && !closing && !lateOpen ==>
        StartedIn(r.value, RestoreDirectory(old(LastDirectory(request)), isDirectory))
    {
      ghost var accepts, why := Accepts(request, spawns), Refusal(request, spawns);
      if stopping {
        return Err(Stopping);
      }
      var viewers := CountViewers(sessions);
      if viewers >= MAX_VIEWERS {
        return Err(ViewerLimit);
      }
      r := Join(request, v, spawns, isDirectory);
    }

    method Join(request: Request, v: ViewId, spawns: bool, isDirectory: string -> bool) returns (r: Result<Uuid>)
      requires Valid() && !stopping && v !in ViewIds(sessions) && |ViewIds(sessions)| < MAX_VIEWERS
      modifies `sessions, restore, machine, `lateOpen
      ensures Valid() && machine.gone == old(machine.gone) && (!closing ==> lateOpen == old(lateOpen))
      ensures r.Ok? <==> old(Welcomes(request, spawns))
      ensures r.Err? ==> sessions == old(sessions)
      ensures r.Ok? ==> Entered(old(sessions), sessions, request, r.value, v)
      ensures r.Ok? && r.value !in old(sessions) && Free(old(sessions), old(Wanted(request))) ==>
        sessions[r.value].name == old(Wanted(request))
      ensures RecordAfter(request, restore != null, old(sessions), old(Entries()), TheBoot(), isDirectory, r, sessions, Entries())
      ensures r.Err? ==> r.failure == old(Refusal(request, spawns))
      ensures r.Ok? && r.value !in old(sessions) && request.id.Some? && !closing && !lateOpen ==>
        StartedIn(r.value, RestoreDirectory(old(LastDirectory(request)), isDirectory))
    {
      ghost var before, entries := sessions, Entries();
      r := Provide(request, spawns, isDirectory);
      if r.Err? { return; }
      ghost var provided := sessions[r.value];
      Admit(request, r.value, v, before);
      if r.value !in before {
        StartedStays(request, restore != null, entries, TheBoot(), isDirectory, r.value, provided, Entries(), sessions[r.value]);
      }
    }

    method Admit(request: Request, id: Uuid, v: ViewId, ghost before: Sessions)
      requires Valid() && v !in ViewIds(before) && |ViewIds(before)| < MAX_VIEWERS && Provided(before, sessions, request, id)
      modifies `sessions
      ensures Valid() && Entered(before, sessions, request, id, v) && sessions[id].name == old(sessions)[id].name && sessions[id].directory == old(sessions)[id].directory
    {
      ghost var mid := sessions;
      SameViewIds(before, sessions, request, id);
      AddView(id, v, request.size);
      EnteredAfter(before, mid, sessions, request, id, v);
    }

    /** RefreshRestore: every live session's name, size and directory are copied into its entry. */
    method Refresh(directories: Uuid -> string)
      requires Valid()
      modifies restore, machine
      ensures Valid() && machine.gone == old(machine.gone) && machine.used == old(machine.used)
      ensures restore != null ==>
        RefreshedAll(old(restore.entries), restore.entries, sessions, sessions.Keys, restore.boot, directories)
    {
      if restore == null {
        return;
      }
      RefreshSessions(directories);
    }

    method RefreshSessions(directories: Uuid -> string)
      requires RecordOk(sessions) && AllNamed(sessions) && restore != null
      modifies restore, machine
      ensures RecordOk(sessions) && machine.gone == old(machine.gone) && machine.used == old(machine.used)
      ensures RefreshedAll(old(restore.entries), restore.entries, sessions, sessions.Keys, restore.boot, directories)
    {
      ghost var before, all := restore.entries, sessions.Keys;
      var todo := sessions.Keys;
      ghost var done: set<Uuid> := {};
      while todo != {}
        invariant RecordOk(sessions) && machine.gone == old(machine.gone) && machine.used == old(machine.used)
        invariant todo <= all && done == all - todo
        invariant RefreshedAll(before, restore.entries, sessions, done, restore.boot, directories)
        decreases todo
      {
        var u :| u in todo;
        RefreshNext(u, directories, before, done);
        OneLess(all, todo, u);
        todo, done := todo - {u}, done + {u};
      }
      assert done == all;
    }

    method RefreshNext(u: Uuid, directories: Uuid -> string, ghost before: Entries, ghost done: set<Uuid>)
      requires RecordOk(sessions) && u in sessions && u !in done && done <= sessions.Keys && ValidName(sessions[u].name) && restore != null
      requires RefreshedAll(before, restore.entries, sessions, done, restore.boot, directories)
      modifies restore, machine
      ensures RecordOk(sessions) && machine.gone == old(machine.gone) && machine.used == old(machine.used)
      ensures RefreshedAll(before, restore.entries, sessions, done + {u}, restore.boot, directories)
    {
      ghost var mid := restore.entries;
      RefreshOne(u, directories(u));
      RefreshStep(before, mid, restore.entries, sessions, done, u, restore.boot, directories);
    }

    method RefreshOne(id: Uuid, directory: string)
      requires RecordOk(sessions) && id in sessions && ValidName(sessions[id].name) && restore != null
      modifies restore, machine
      ensures RecordOk(sessions) && machine.gone == old(machine.gone) && machine.used == old(machine.used)
      ensures RefreshedOne(old(restore.entries), restore.entries, sessions[id], id, restore.boot, directory)
    {
      ghost var before := restore.entries;
      UpdateEntry(restore, id, sessions[id], directory);
      KeptRefreshed(before, restore.entries, restore.boot, sessions, id, directory, closing, lateOpen);
    }
  }

  /** What RefreshRestore writes into one entry. */
  method UpdateEntry(store: RestoreStore, id: Uuid, s: Running, directory: string)
    requires store.Valid() && ValidName(s.name)
    modifies store, store.machine
    ensures store.Valid() && store.machine.gone == old(store.machine.gone) && store.machine.used == old(store.machine.used)
    ensures RefreshedOne(old(store.entries), store.entries, s, id, store.boot, directory)
  {
    store.Update(id, (e: Entry) => e.(name := s.name, size := s.screen, cwd := if directory != "" then directory else e.cwd));
  }

  lemma OneLess(all: set<Uuid>, todo: set<Uuid>, u: Uuid)
    requires u in todo && todo <= all
    ensures all - (todo - {u}) == (all - todo) + {u} && todo - {u} <= all
  {}

  lemma SameViewIds(a: Sessions, b: Sessions, request: Request, id: Uuid)
    requires Provided(a, b, request, id)
    ensures ViewIds(a) == ViewIds(b)
  {
    if id !in a {
      ViewIdsOf(b, id, b[id]);
      assert b[id := b[id]] == b;
    }
  }
}
