/** Helpers coming and going over the boots of one machine: which sessions live on from one to the next,
    and which never come back. */
module Boots {
  import opened Prelude
  import opened Sizes
  import opened FreeName
  import opened Restore
  import opened Engine

  datatype Step =
    | Opens(request: Request, v: ViewId, spawns: bool)
    | Renames(id: Uuid, name: string)
    | Uses(id: Uuid, v: ViewId, use: Use)
    | Leaves(id: Uuid, v: ViewId)
    | Terminates(id: Uuid)
    | SessionEnds(id: Uuid)
    | Refreshes
    | AsksToStop
    | IdleTick(expired: bool)
    | GoesDown
    | HelperStops
    | HelperStarts
    | Reboots(boot: Boot)

  /** What the helper asks the machine. */
  datatype Host = Host(isDirectory: string -> bool, directories: Uuid -> string)

  /** A running helper as its viewers see it, and the sessions of earlier boots it could reopen. */
  datatype Helper = Down | Up(sessions: Sessions, stopping: bool, closing: bool, restorable: set<Uuid>)

  function Earlier(entries: Entries, boot: Boot): set<Uuid> {
    set u | u in entries && entries[u].boot != "" && entries[u].boot != boot
  }

  ghost function At(e: Engine): Helper
    reads e, e.restore
  {
    Up(e.sessions, e.stopping, e.closing, if e.restore == null then {} else Earlier(e.restore.entries, e.restore.boot))
  }

  /** Whether a request gets in: to a live session unless it insists on a new one, and otherwise, when there
      is room and a shell starts, to one that an earlier boot recorded or to a new one of a valid name. */
  ghost predicate Admits(h: Helper, request: Request, spawns: bool)
    requires h.Up?
  {
    && !h.stopping && |ViewIds(h.sessions)| < MAX_VIEWERS
    && if (if request.id.Some? then request.id.value in h.sessions
           else exists u :: u in h.sessions && h.sessions[u].name == request.name)
       then !request.action.Create?
       else |h.sessions| < MAX_SESSIONS && spawns
            && if request.id.Some? then request.id.value in h.restorable
               else !request.action.Attach? && ValidName(request.name)
  }

  ghost predicate Attached(h: Helper, v: ViewId)
    requires h.Up?
  {
    exists u :: u in h.sessions && v in h.sessions[u].views
  }

  /** The end of session id was seen, and it was no end the closing helper brought about. */
  predicate SawEnd(h: Helper, step: Step) {
    h.Up? && step.SessionEnds? && step.id in h.sessions && (!h.closing || h.sessions[step.id].terminated)
  }

  /** What a step of a running helper makes of it. */
  ghost predicate Acted(h: Helper, step: Step, k: Helper)
    requires h.Up?
  {
    && k.Up? && (h.closing || step.GoesDown? <==> k.closing)
    && k.stopping == (h.stopping || (h.sessions == map[] && (step.AsksToStop? || (step.IdleTick? && step.expired))))
    && match step
       case Opens(request, v, spawns) =>
         if Attached(h, v) || !Admits(h, request, spawns) then k.sessions == h.sessions
         else exists id :: Entered(h.sessions, k.sessions, request, id, v)
       case Renames(id, name) =>
         k.sessions == if id in h.sessions && ValidName(name) && !HeldByOther(h.sessions, id, name)
                       then h.sessions[id := h.sessions[id].(name := name)] else h.sessions
       case Uses(id, v, use) =>
         k.sessions == if id in h.sessions && v in h.sessions[id].views && !use.Looking? then
           var was := h.sessions[id];
           var size := if use.Resizing? then Dimensions(use.size) else was.views[v];
           h.sessions[id := was.(active := Some(v), views := was.views[v := size], screen := size)] else h.sessions
       case Leaves(id, v) =>
         if id in h.sessions then
           id in k.sessions && ViewLeft(h.sessions[id], k.sessions[id], v) && k.sessions == h.sessions[id := k.sessions[id]]
         else k.sessions == h.sessions
       case Terminates(id) =>
         k.sessions == if id in h.sessions then h.sessions[id := h.sessions[id].(terminated := true)] else h.sessions
       case SessionEnds(id) => k.sessions == h.sessions - {id}
       case _ => k.sessions == h.sessions
  }

  method Enter(e: Engine, request: Request, v: ViewId, spawns: bool, host: Host)
    requires e.Valid()
    modifies e, e.restore, e.machine
    ensures e.Valid() && e.machine.gone == old(e.machine.gone)
    ensures Acted(old(At(e)), Opens(request, v, spawns), At(e))
  {
    ghost var before := At(e);
    if !exists u :: u in e.sessions && v in e.sessions[u].views {
      AdmitsIsAccepts(e, request, spawns);
      var joined := e.Open(request, v, spawns, host.isDirectory);
      if joined.Ok? { Enters(before, request, v, spawns, joined.value, At(e)); } else { StaysOut(before, request, v, spawns, At(e)); }
    } else {
      StaysOut(before, request, v, spawns, At(e));
    }
  }

  lemma Enters(h: Helper, request: Request, v: ViewId, spawns: bool, id: Uuid, k: Helper)
    requires h.Up? && k.Up? && k.closing == h.closing && k.stopping == h.stopping
    requires !Attached(h, v) && Admits(h, request, spawns) && Entered(h.sessions, k.sessions, request, id, v)
    ensures Acted(h, Opens(request, v, spawns), k)
  {}

  lemma StaysOut(h: Helper, request: Request, v: ViewId, spawns: bool, k: Helper)
    requires h.Up? && k.Up? && k.closing == h.closing && k.stopping == h.stopping && k.sessions == h.sessions
    requires Attached(h, v) || !Admits(h, request, spawns)
    ensures Acted(h, Opens(request, v, spawns), k)
  {}

  lemma AdmitsIsAccepts(e: Engine, request: Request, spawns: bool)
    requires e.Valid()
    ensures Admits(At(e), request, spawns) <==> e.Accepts(request, spawns)
  {}

  /** A request about one live session. */
  method Command(e: Engine, step: Step)
    requires e.Valid() && (step.Renames? || step.Uses? || step.Leaves? || step.Terminates?)
    modifies e, e.restore, e.machine
    ensures e.Valid() && Acted(old(At(e)), step, At(e)) && e.machine.gone == old(e.machine.gone)
  {
    match step
    case Renames(id, name) =>
      var _ := e.Rename(id, name);
    case Terminates(id) =>
      var _ := e.Terminate(id);
    case Uses(id, v, use) =>
      UseOn(e, id, v, use);
    case Leaves(id, v) =>
      LeaveFrom(e, id, v);
  }

  method UseOn(e: Engine, id: Uuid, v: ViewId, use: Use)
    requires e.Valid()
    modifies e, e.restore, e.machine
    ensures e.Valid() && Acted(old(At(e)), Uses(id, v, use), At(e)) && e.machine.gone == old(e.machine.gone)
  {
    var _ := e.Apply(id, v, use);
  }

  method LeaveFrom(e: Engine, id: Uuid, v: ViewId)
    requires e.Valid()
    modifies e, e.restore, e.machine
    ensures e.Valid() && Acted(old(At(e)), Leaves(id, v), At(e)) && e.machine.gone == old(e.machine.gone)
  {
    e.CloseView(id, v);
  }

  /** A session's program ended. */
  method ProgramEnds(e: Engine, id: Uuid)
    requires e.Valid()
    modifies e`sessions, e.restore, e.machine
    ensures e.Valid() && e.sessions == old(e.sessions) - {id}
    ensures e.machine.gone ==
      if id in old(e.sessions) && (!e.closing || old(e.sessions)[id].terminated) then old(e.machine.gone) + {id}
      else old(e.machine.gone)
  {
    if id in e.sessions {
      e.End(id);
    } else {
      NotThere(e.sessions, id);
    }
  }

  lemma NotThere(live: Sessions, id: Uuid)
    requires id !in live
    ensures live - {id} == live
  {}

  lemma Winds(h: Helper, step: Step, k: Helper)
    requires h.Up? && k.Up? && (step.Refreshes? || step.AsksToStop? || step.IdleTick? || step.GoesDown?)
    requires k.sessions == h.sessions && k.closing == (h.closing || step.GoesDown?)
    requires k.stopping == (h.stopping || (h.sessions == map[] && (step.AsksToStop? || (step.IdleTick? && step.expired))))
    ensures Acted(h, step, k)
  {}

  /** What goes on without any session changing. */
  method Wind(e: Engine, step: Step, host: Host)
    requires e.Valid() && (step.Refreshes? || step.AsksToStop? || step.IdleTick? || step.GoesDown?)
    modifies e, e.restore, e.machine
    ensures e.Valid() && Acted(old(At(e)), step, At(e)) && e.machine.gone == old(e.machine.gone)
  {
    ghost var before := At(e);
    match step
    case Refreshes =>
      e.Refresh(host.directories);
      Winds(before, step, At(e));
    case AsksToStop =>
      var _ := e.StopIdle();
      Winds(before, step, At(e));
    case IdleTick(expired) =>
      var _ := e.Idle(expired);
      Winds(before, step, At(e));
    case GoesDown =>
      e.MarkClosing();
      Winds(before, step, At(e));
  }

  /** One step of a running helper. */
  method Act(e: Engine, step: Step, host: Host)
    requires e.Valid() && !step.HelperStops? && !step.HelperStarts? && !step.Reboots?
    modifies e, e.restore, e.machine
    ensures e.Valid() && Acted(old(At(e)), step, At(e))
    ensures e.machine.gone == if SawEnd(old(At(e)), step) then old(e.machine.gone) + {step.id} else old(e.machine.gone)
  {
    if step.Opens? {
      Enter(e, step.request, step.v, step.spawns, host);
    } else if step.SessionEnds? {
      ProgramEnds(e, step.id);
    } else if step.Renames? || step.Uses? || step.Leaves? || step.Terminates? {
      Command(e, step);
    } else {
      Wind(e, step, host);
    }
  }

  method StartHelper(machine: Machine, boot: Boot) returns (e: Engine)
    requires AtRest(machine)
    modifies machine`file, machine`now, machine`reads_
    ensures fresh(e) && e.Valid() && e.machine == machine && e.sessions == map[] && !e.stopping && !e.closing && !e.lateOpen
    ensures (e.restore == null) <==> boot == ""
    ensures e.restore != null ==> fresh(e.restore) && e.restore.boot == boot
                                  && e.restore.entries == TakenOver(old(machine.Stored()), boot, machine.now)
  {
    var store := OpenStore(machine, boot);
    e := new Engine(machine, store);
  }

  // ---- runs ----

  /** The helper, if one runs, and the sessions whose end was seen. */
  datatype Moment = Moment(helper: Helper, gone: set<Uuid>)

  /** What a step makes of helper and boot. */
  ghost predicate Passes(m: Moment, step: Step, n: Moment) {
    && n.gone == (if SawEnd(m.helper, step) then m.gone + {step.id} else m.gone)
    && match step
       case HelperStops => n.helper == Down
       case Reboots(_) => n.helper == Down
       case HelperStarts =>
         if m.helper.Down? then n.helper.Up? && n.helper == Up(map[], false, false, n.helper.restorable) else n.helper == m.helper
       case _ => if m.helper.Down? then n.helper == Down else Acted(m.helper, step, n.helper)
  }

  /** Nothing that is gone is live, or could be reopened. */
  predicate Sound(m: Moment) {
    m.helper.Up? ==> m.helper.sessions.Keys !! m.gone && m.helper.restorable !! m.gone
  }

  ghost predicate IsRun(steps: seq<Step>, moments: seq<Moment>) {
    && |moments| == |steps| + 1
    && (forall i :: 0 <= i < |moments| ==> Sound(moments[i]))
    && forall i :: 0 <= i < |steps| ==> Passes(moments[i], steps[i], moments[i + 1])
  }

  lemma OneMoreStep(steps: seq<Step>, moments: seq<Moment>, i: nat, m: Moment)
    requires i < |steps| && IsRun(steps[..i], moments) && Passes(moments[i], steps[i], m) && Sound(m)
    ensures IsRun(steps[..i + 1], moments + [m])
  {
    var more := moments + [m];
    forall k | 0 <= k < i + 1 ensures Passes(more[k], steps[..i + 1][k], more[k + 1]) {
      assert k < i ==> steps[..i][k] == steps[k];
    }
  }

  ghost function MomentOf(machine: Machine, helper: Engine?): Moment
    reads machine, helper, if helper == null then {} else {helper.restore}
  {
    Moment(if helper == null then Down else At(helper), machine.gone)
  }

  /** One step on the machine; helper is the one that runs, boot the machine's. */
  method Pass(machine: Machine, helper: Engine?, boot: Boot, step: Step, host: Host) returns (after: Engine?, next: Boot)
    requires AtRest(machine) && (helper != null ==> helper.Valid() && helper.machine == machine)
    modifies machine, helper, if helper == null then {} else {helper.restore}
    ensures AtRest(machine) && (after != null ==> after.Valid() && after.machine == machine)
    ensures after != null && after != helper ==> fresh(after) && (after.restore != null ==> fresh(after.restore))
    ensures Passes(old(MomentOf(machine, helper)), step, MomentOf(machine, after)) && Sound(MomentOf(machine, after))
  {
    after, next := helper, boot;
    match step {
      case HelperStops =>
        after := null;
      case Reboots(rebooted) =>
        after, next := null, rebooted;
      case HelperStarts =>
        if helper == null { after := StartHelper(machine, boot); }
      case _ =>
        if helper != null { Act(helper, step, host); }
    }
    if after != null { NothingGoneIsLeft(after); }
  }

  /** Any run of helpers and boots, each helper stopping at any point. */
  method Run(machine: Machine, first: Boot, steps: seq<Step>, host: Host) returns (ghost moments: seq<Moment>)
    requires AtRest(machine)
    modifies machine
    ensures AtRest(machine) && machine.Stored().Keys !! machine.gone
    ensures IsRun(steps, moments)
    ensures moments[0] == Moment(Down, old(machine.gone)) && moments[|steps|].gone == machine.gone
  {
    var boot := first;
    var helper: Engine? := null;
    moments := [Moment(Down, machine.gone)];
    for i := 0 to |steps|
      invariant AtRest(machine)
      invariant helper != null ==> fresh(helper) && helper.Valid() && helper.machine == machine
      invariant helper != null && helper.restore != null ==> fresh(helper.restore)
      invariant IsRun(steps[..i], moments)
      invariant moments[0] == Moment(Down, old(machine.gone)) && moments[i] == MomentOf(machine, helper)
    {
      helper, boot := Pass(machine, helper, boot, steps[i], host);
      OneMoreStep(steps, moments, i, MomentOf(machine, helper));
      moments := moments + [MomentOf(machine, helper)];
    }
    assert steps[..|steps|] == steps;
  }

  lemma NothingGoneIsLeft(e: Engine)
    requires e.Valid()
    ensures e.sessions.Keys !! e.machine.gone
    ensures e.restore != null ==> e.restore.entries.Keys !! e.machine.gone
  {}

  /** Once a helper that was not closing saw a session end, or saw the end of a terminated one, that session is
      never live and never restorable again, in this boot or any later one. */
  lemma {:induction false} GoneStaysGone(steps: seq<Step>, moments: seq<Moment>, i: nat, j: nat)
    requires IsRun(steps, moments) && i < j <= |steps| && SawEnd(moments[i].helper, steps[i])
    ensures steps[i].id in moments[j].gone
    ensures moments[j].helper.Up? ==> steps[i].id !in moments[j].helper.sessions && steps[i].id !in moments[j].helper.restorable
    decreases j
  {
    assert Passes(moments[j - 1], steps[j - 1], moments[j]) && Sound(moments[j]);
    if i < j - 1 { GoneStaysGone(steps, moments, i, j - 1); }
  }

  /** A viewer asks a new helper for a session an earlier boot recorded. */
  method AskAgain(e: Engine, id: Uuid, v: ViewId, size: Size, host: Host)
    requires e.Valid() && e.sessions == map[] && !e.stopping && !e.closing && !e.lateOpen
    requires e.restore != null && e.restore.Restorable(id).Some?
    modifies e, e.restore, e.machine
    ensures e.Valid() && id in e.sessions && v in e.sessions[id].views
    ensures e.sessions[id].name == old(e.restore.Restorable(id)).value.name
    ensures e.StartedIn(id, RestoreDirectory(old(e.restore.Restorable(id)).value.cwd, host.isDirectory))
  {
    var request := Request(Some(id), "", Attach, "", size, false);
    assert ViewIds(e.sessions) == {};
    var _ := e.Open(request, v, true, host.isDirectory);
  }

  /** A session that was live when the last helper of its boot stopped is in the record the next boot
      takes over, under its name; a helper of its own boot does not take it over. */
  lemma LiveIsTakenOver(e: Engine, id: Uuid, boot: Boot, now: int)
    requires e.Valid() && e.restore != null && id in e.sessions && !e.lateOpen && boot != ""
    ensures var record := TakenOver(e.machine.Stored(), boot, now);
      && id in e.restore.entries
      && (id in record <==> boot != e.restore.boot && e.restore.entries[id].updated >= now - MAX_AGE)
      && (id in record ==> record[id] == e.restore.entries[id] && record[id].name == e.sessions[id].name && record[id].boot != boot)
  {}

  /** And so it comes back in the next boot, to the first viewer that asks for its UUID. */
  method LiveSessionComesBack(e: Engine, id: Uuid, next: Boot, v: ViewId, size: Size, host: Host) returns (after: Engine)
    requires e.Valid() && e.restore != null && id in e.sessions && !e.lateOpen
    requires next != "" && next != e.restore.boot
    modifies e.machine
    ensures fresh(after) && after.Valid() && after.machine == e.machine
    ensures old(e.restore.entries[id].updated) >= e.machine.now - MAX_AGE ==>
      && id in after.sessions && v in after.sessions[id].views && after.sessions[id].name == old(e.sessions[id].name)
      && after.StartedIn(id, RestoreDirectory(old(e.restore.entries[id].cwd), host.isDirectory))
  {
    ghost var stored, entry := e.machine.Stored(), e.restore.entries[id];
    after := StartHelper(e.machine, next);
    assert after.restore.entries == TakenOver(stored, next, e.machine.now);
    if after.restore.Restorable(id).Some? {
      assert after.restore.Restorable(id) == Some(entry);
      AskAgain(after, id, v, size, host);
    }
  }

  /** A terminate alone does not keep a session from coming back: until the helper has seen it end its
      entry stays, so a machine that stops in between gives it back after all. */
  method TerminatedBeforeItsEndComesBack(e: Engine, id: Uuid, next: Boot, v: ViewId, size: Size, host: Host) returns (after: Engine)
    requires e.Valid() && e.restore != null && id in e.sessions && !e.lateOpen
    requires next != "" && next != e.restore.boot
    modifies e`sessions, e.machine
    ensures e.sessions == old(e.sessions)[id := old(e.sessions[id]).(terminated := true)]
    ensures after.Valid() && (old(e.restore.entries[id].updated) >= e.machine.now - MAX_AGE ==> id in after.sessions)
  {
    var _ := e.Terminate(id);
    after := LiveSessionComesBack(e, id, next, v, size, host);
  }
}
