/** One engine per root, and its upgrades. */
module Ipc {
  import opened Prelude
  import Semver

  // The engine lock, the endpoint file, and clients that start or upgrade an engine.

  type Pid = nat
  type ClientId = nat

  /** Where an engine process is in Serve. */
  datatype Phase = Starting | Locked | Listening | Serving | Leaving | Removed | Exited | Crashed

  datatype Proc = Proc(version: string, phase: Phase, sessions: nat, stopping: bool)

  /** Where a client is in Ensure. */
  datatype Stage =
    | Idle
    | Holding
    | Shutting(pinged: Pid)
    | Waiting
    | Testing
    | Launching
    | Polling
    | Done(ok: bool)

  datatype Client = Client(version: string, stage: Stage)

  /** The engine lock is held by an engine, or for a moment by a client that tests it. */
  datatype Owner = Engine(pid: Pid) | Tester(client: ClientId)

  type Procs = map<Pid, Proc>
  type Clients = map<ClientId, Client>

  /** The first version is newer than the second; an unreadable version compares to nothing. */
  predicate Newer(a: string, b: string) {
    var order := Semver.CompareSpec(a, b);
    order.Some? && order.value > 0
  }

  method CompareVersions(a: string, b: string) returns (newer: bool)
    ensures newer == Newer(a, b)
    ensures newer <==> Semver.ParseSpec(a).Some? && Semver.ParseSpec(b).Some?
                       && Semver.Lower(Semver.ParseSpec(b).value, Semver.ParseSpec(a).value)
  {
    var order := Semver.CompareStrings(a, b);
    newer := order.Some? && order.value > 0;
  }

  predicate HasLock(p: Phase) { p.Locked? || p.Listening? || p.Serving? || p.Leaving? || p.Removed? }

  predicate Alive(p: Phase) { HasLock(p) || p.Starting? }

  predicate WroteEndpoint(p: Phase) { p.Serving? || p.Leaving? || p.Crashed? }

  predicate HasStart(s: Stage) { !s.Idle? && !s.Done? }

  /** Whoever needs the engine lock has it, so nobody else does. */
  ghost predicate LockOk(owner: Option<Owner>, engines: Procs, clients: Clients) {
    && (forall p :: p in engines && HasLock(engines[p].phase) ==> owner == Some(Engine(p)))
    && (forall c :: c in clients && clients[c].stage.Testing? ==> owner == Some(Tester(c)))
    && (owner.Some? && owner.value.Engine? ==> owner.value.pid in engines && HasLock(engines[owner.value.pid].phase))
    && (owner.Some? && owner.value.Tester? ==> owner.value.client in clients && clients[owner.value.client].stage.Testing?)
  }

  /** The endpoint is that of the engine that serves, or was left by one that crashed. */
  ghost predicate EndpointOk(endpoint: Option<Pid>, engines: Procs) {
    && (endpoint.Some? ==> endpoint.value in engines && WroteEndpoint(engines[endpoint.value].phase))
    && (forall p :: p in engines && (engines[p].phase.Serving? || engines[p].phase.Leaving?) ==> endpoint == Some(p))
  }

  ghost predicate EnginesOk(engines: Procs, upgraded: set<Pid>, next: Pid) {
    && (forall p :: p in engines ==> p < next && (engines[p].stopping ==> engines[p].sessions == 0))
    && forall p :: p in upgraded ==> p in engines && engines[p].stopping
  }

  ghost predicate StartOk(startLock: Option<ClientId>, clients: Clients) {
    && (forall c :: c in clients && HasStart(clients[c].stage) ==> startLock == Some(c))
    && (startLock.Some? ==> startLock.value in clients && HasStart(clients[startLock.value].stage))
  }

  /** A client asks only an engine older than itself to stop. */
  ghost predicate AskersOk(clients: Clients, engines: Procs, newer: (string, string) -> bool) {
    forall c :: c in clients && clients[c].stage.Shutting? ==>
      clients[c].stage.pinged in engines && newer(clients[c].version, engines[clients[c].stage.pinged].version)
  }

  // ---- the root as a value, and what each step makes of it ----

  datatype State = State(
    engineLock: Option<Owner>, endpoint: Option<Pid>, startLock: Option<ClientId>,
    engines: Procs, clients: Clients, next: Pid, upgraded: set<Pid>)

  ghost predicate Sound(s: State, newer: (string, string) -> bool) {
    && LockOk(s.engineLock, s.engines, s.clients)
    && EndpointOk(s.endpoint, s.engines)
    && EnginesOk(s.engines, s.upgraded, s.next)
    && StartOk(s.startLock, s.clients)
    && AskersOk(s.clients, s.engines, newer)
  }

  /** The engine a request through the endpoint file reaches. */
  function Answering(s: State): Option<Pid> {
    if s.endpoint.Some? && s.endpoint.value in s.engines && s.engines[s.endpoint.value].phase.Serving? then s.endpoint else None
  }

  function Entering(s: State, p: Pid, phase: Phase): State
    requires p in s.engines
  {
    s.(engines := s.engines[p := s.engines[p].(phase := phase)])
  }

  /** The next step of Serve in process p: whether what it tries succeeds, and whether a signal came. */
  function Served(s: State, p: Pid, ok: bool, signal: bool): State
    requires p in s.engines
  {
    match s.engines[p].phase
    case Starting =>
      if s.engineLock.None? then Entering(s, p, Locked).(engineLock := Some(Engine(p))) else Entering(s, p, Exited)
    case Locked => if ok then Entering(s, p, Listening) else Entering(s, p, Exited).(engineLock := None)
    case Listening =>
      if ok then Entering(s, p, Serving).(endpoint := Some(p)) else Entering(s, p, Exited).(engineLock := None)
    case Serving => if signal || s.engines[p].stopping then Entering(s, p, Leaving) else s
    case Leaving => Entering(s, p, Removed).(endpoint := None)
    case Removed => Entering(s, p, Exited).(engineLock := None)
    case _ => s
  }

  function Moving(s: State, c: ClientId, stage: Stage): State
    requires c in s.clients
  {
    s.(clients := s.clients[c := s.clients[c].(stage := stage)])
  }

  /** Ensure returns: the start lock is given up. */
  function Finished(s: State, c: ClientId, ok: bool): State
    requires c in s.clients
  {
    Moving(s, c, Done(ok)).(startLock := None)
  }

  function Stopping(s: State, p: Pid): State
    requires p in s.engines
  {
    s.(engines := s.engines[p := s.engines[p].(stopping := true)])
  }

  function Abandoned(s: State, c: ClientId): State
    requires c in s.clients
  {
    Finished(s, c, false).(engineLock := if s.engineLock == Some(Tester(c)) then None else s.engineLock)
  }

  function Spawned(s: State, version: string): State {
    s.(engines := s.engines[s.next := Proc(version, Starting, 0, false)], next := s.next + 1)
  }

  /** The next step of Ensure in client c. notRunning: which error an unanswered ping gives. */
  function Ensured(s: State, c: ClientId, notRunning: bool, deadline: bool, newer: (string, string) -> bool): State
    requires c in s.clients
  {
    var p := Answering(s);
    match s.clients[c].stage
    case Idle => if s.startLock.None? then Moving(s, c, Holding).(startLock := Some(c)) else s
    case Holding =>
      if p.Some? then
        if newer(s.clients[c].version, s.engines[p.value].version) then Moving(s, c, Shutting(p.value)) else Finished(s, c, true)
      else if notRunning then Moving(s, c, Launching) else Finished(s, c, false)
    case Shutting(_) =>
      if p.None? then Finished(s, c, false)
      else if s.engines[p.value].sessions == 0 then
        Moving(Stopping(s, p.value), c, Waiting).(upgraded := s.upgraded + {p.value})
      else Finished(s, c, true)
    case Waiting =>
      if deadline then Abandoned(s, c)
      else if s.engineLock.None? then Moving(s, c, Testing).(engineLock := Some(Tester(c))) else s
    case Testing => Moving(s, c, Launching).(engineLock := None)
    case Launching => Spawned(Moving(s, c, Polling), s.clients[c].version)
    case Polling => if p.Some? then Finished(s, c, true) else if deadline then Finished(s, c, false) else s
    case Done(_) => s
  }

  class Root {
    var engineLock: Option<Owner>
    var endpoint: Option<Pid>
    var startLock: Option<ClientId>
    var engines: Procs
    var clients: Clients
    var next: Pid
    const newer: (string, string) -> bool
    /** Engines that agreed to stop for an upgrade. */
    ghost var upgraded: set<Pid>

    ghost predicate Valid()
      reads this
    {
      Sound(Now(), newer)
    }

    ghost function Now(): State
      reads this
    {
      State(engineLock, endpoint, startLock, engines, clients, next, upgraded)
    }

    constructor (clients: Clients)
      requires forall c :: c in clients ==> clients[c].stage.Idle?
      ensures Valid() && this.clients == clients && engines == map[] && newer == Newer
    {
      engineLock, endpoint, startLock, engines, this.clients, next := None, None, None, map[], clients, 0;
      newer := Newer;
      upgraded := {};
    }

    // ---- Serve ----

    /** The engine lock, or an engine that is already running. */
    method Lock(p: Pid)
      requires Valid() && p in engines && engines[p].phase.Starting?
      modifies `engineLock, `engines
      ensures Valid()
      ensures engines == old(engines)[p := old(engines[p]).(phase := if old(engineLock).None? then Locked else Exited)]
      ensures engineLock == if old(engineLock).None? then Some(Engine(p)) else old(engineLock)
    {
      if engineLock.None? {
        engineLock := Some(Engine(p));
        engines := engines[p := engines[p].(phase := Locked)];
      } else {
        engines := engines[p := engines[p].(phase := Exited)];
      }
    }

    /** Listening; a failure gives the lock back and leaves the endpoint file alone. */
    method Listen(p: Pid, ok: bool)
      requires Valid() && p in engines && engines[p].phase.Locked?
      modifies `engineLock, `engines
      ensures Valid() && engines == old(engines)[p := old(engines[p]).(phase := if ok then Listening else Exited)]
      ensures engineLock == if ok then old(engineLock) else None
    {
      engines := engines[p := engines[p].(phase := if ok then Listening else Exited)];
      if !ok { engineLock := None; }
    }

    /** The endpoint file is written aside and renamed into place. */
    method Publish(p: Pid, ok: bool)
      requires Valid() && p in engines && engines[p].phase.Listening?
      modifies `engineLock, `engines, `endpoint
      ensures Valid() && endpoint == (if ok then Some(p) else old(endpoint)) && engineLock == if ok then old(engineLock) else None
      ensures engines == old(engines)[p := old(engines[p]).(phase := if ok then Serving else Exited)]
    {
      engines := engines[p := engines[p].(phase := if ok then Serving else Exited)];
      if ok { endpoint := Some(p); } else { engineLock := None; }
    }

    /** A program starts in an engine, unless the engine has agreed to stop. */
    method StartProgram(p: Pid) returns (ok: bool)
      requires Valid() && p in engines && (engines[p].phase.Serving? || engines[p].phase.Leaving? || engines[p].phase.Removed?)
      modifies `engines
      ensures Valid() && (ok <==> !old(engines[p]).stopping)
      ensures engines == if ok then old(engines)[p := old(engines[p]).(sessions := old(engines[p]).sessions + 1)] else old(engines)
    {
      ok := !engines[p].stopping;
      if ok { engines := engines[p := engines[p].(sessions := engines[p].sessions + 1)]; }
    }

    method EndProgram(p: Pid)
      requires Valid() && p in engines && engines[p].sessions > 0
      modifies `engines
      ensures Valid() && engines == old(engines)[p := old(engines[p]).(sessions := old(engines[p]).sessions - 1)]
    {
      engines := engines[p := engines[p].(sessions := engines[p].sessions - 1)];
    }

    /** StopIdle, for an upgrade or because nothing ran for a while. */
    method StopIdle(p: Pid) returns (ok: bool)
      requires Valid() && p in engines && engines[p].phase.Serving?
      modifies `engines
      ensures Valid() && (ok <==> old(engines[p]).sessions == 0)
      ensures engines == if ok then old(engines)[p := old(engines[p]).(stopping := true)] else old(engines)
    {
      ok := engines[p].sessions == 0;
      if ok { engines := engines[p := engines[p].(stopping := true)]; }
    }

    /** The accept loop ends: the engine is stopping, or was told to by a signal. */
    method Leave(p: Pid, signal: bool)
      requires Valid() && p in engines && engines[p].phase.Serving? && (signal || engines[p].stopping)
      modifies `engines
      ensures Valid() && engines == old(engines)[p := old(engines[p]).(phase := Leaving)]
      ensures !signal ==> engines[p].sessions == 0
    {
      engines := engines[p := engines[p].(phase := Leaving)];
    }

    /** The deferred removal: what is removed is the engine's own endpoint. */
    method RemoveEndpoint(p: Pid)
      requires Valid() && p in engines && engines[p].phase.Leaving?
      modifies `engines, `endpoint
      ensures Valid() && old(endpoint) == Some(p) && endpoint == None
      ensures engines == old(engines)[p := old(engines[p]).(phase := Removed)]
    {
      endpoint := None;
      engines := engines[p := engines[p].(phase := Removed)];
    }

    method Unlock(p: Pid)
      requires Valid() && p in engines && engines[p].phase.Removed?
      modifies `engines, `engineLock
      ensures Valid() && engineLock == None && engines == old(engines)[p := old(engines[p]).(phase := Exited)]
    {
      engineLock := None;
      engines := engines[p := engines[p].(phase := Exited)];
    }

    /** A process dies where it is: its lock is released, its endpoint stays. */
    method Crash(p: Pid)
      requires Valid() && p in engines && Alive(engines[p].phase)
      modifies `engines, `engineLock
      ensures Valid() && engines == old(engines)[p := old(engines[p]).(phase := Crashed)]
      ensures engineLock == if old(engineLock) == Some(Engine(p)) then None else old(engineLock)
    {
      if engineLock == Some(Engine(p)) { engineLock := None; }
      engines := engines[p := engines[p].(phase := Crashed)];
    }

    // ---- Ensure ----

    method SetStage(c: ClientId, stage: Stage)
      requires Valid() && c in clients && HasStart(clients[c].stage) && HasStart(stage)
      requires !clients[c].stage.Testing? && !stage.Testing?
      requires stage.Shutting? ==> stage.pinged in engines && newer(clients[c].version, engines[stage.pinged].version)
      modifies `clients
      ensures Valid() && clients == old(clients)[c := old(clients[c]).(stage := stage)]
    {
      clients := clients[c := clients[c].(stage := stage)];
    }

    /** Ensure returns, giving up the start lock. */
    method Finish(c: ClientId, ok: bool)
      requires Valid() && c in clients && HasStart(clients[c].stage) && !clients[c].stage.Testing?
      modifies `clients, `startLock
      ensures Valid() && startLock == None && clients == old(clients)[c := old(clients[c]).(stage := Done(ok))]
    {
      startLock := None;
      clients := clients[c := clients[c].(stage := Done(ok))];
    }

    method TakeStart(c: ClientId) returns (ok: bool)
      requires Valid() && c in clients && clients[c].stage.Idle?
      modifies `clients, `startLock
      ensures Valid() && (ok <==> old(startLock).None?)
      ensures Now() == Ensured(old(Now()), c, false, false, newer)
    {
      ok := startLock.None?;
      if ok {
        startLock := Some(c);
        clients := clients[c := clients[c].(stage := Holding)];
      }
    }

    /** The engine a request through the endpoint file reaches. */
    function Reached(): (r: Option<Pid>)
      reads this
      ensures r == Answering(Now())
    {
      if endpoint.Some? && endpoint.value in engines && engines[endpoint.value].phase.Serving? then endpoint else None
    }

    /** The ping that decides: an engine that is not older is left alone, an older one is asked to stop,
        and without an engine one is started. notRunning says which error an unanswered ping gave. */
    method Ping(c: ClientId, notRunning: bool)
      requires Valid() && c in clients && clients[c].stage.Holding?
      modifies `clients, `startLock
      ensures Valid() && Now() == Ensured(old(Now()), c, notRunning, false, newer)
    {
      var p := Reached();
      if p.Some? {
        if newer(clients[c].version, engines[p.value].version) {
          SetStage(c, Shutting(p.value));
        } else {
          Finish(c, true);
        }
      } else if notRunning {
        SetStage(c, Launching);
      } else {
        Finish(c, false);
      }
    }

    /** The upgrade: only an engine without programs agrees, and from then on it starts none. */
    method AskToStop(c: ClientId)
      requires Valid() && c in clients && clients[c].stage.Shutting?
      modifies `clients, `startLock, `engines, `upgraded
      ensures Valid() && Now() == Ensured(old(Now()), c, false, false, newer)
    {
      var p := Reached();
      if p.None? {
        Finish(c, false);
        return;
      }
      var ok := StopIdle(p.value);
      if ok {
        upgraded := upgraded + {p.value};
        SetStage(c, Waiting);
      } else {
        Finish(c, true);
      }
    }

    /** Wait for the old engine to be gone: take the engine lock, and give it back at once. */
    method TestLock(c: ClientId)
      requires Valid() && c in clients && clients[c].stage.Waiting?
      modifies `clients, `engineLock
      ensures Valid() && clients == if old(engineLock).None? then old(clients)[c := old(clients[c]).(stage := Testing)] else old(clients)
      ensures engineLock == if old(engineLock).None? then Some(Tester(c)) else old(engineLock)
    {
      if engineLock.None? {
        engineLock := Some(Tester(c));
        clients := clients[c := clients[c].(stage := Testing)];
      }
    }

    method ReleaseTest(c: ClientId)
      requires Valid() && c in clients && clients[c].stage.Testing?
      modifies `clients, `engineLock
      ensures Valid() && engineLock == None && clients == old(clients)[c := old(clients[c]).(stage := Launching)]
    {
      engineLock := None;
      clients := clients[c := clients[c].(stage := Launching)];
    }

    /** A new engine process of the client's own version. */
    method Launch(c: ClientId)
      requires Valid() && c in clients && clients[c].stage.Launching?
      modifies `clients, `engines, `next
      ensures Valid() && Now() == Ensured(old(Now()), c, false, false, newer)
    {
      SetStage(c, Polling);
      Spawn(clients[c].version);
    }

    method Spawn(version: string)
      requires Valid()
      modifies `engines, `next
      ensures Valid() && next == old(next) + 1 && engines == old(engines)[old(next) := Proc(version, Starting, 0, false)]
    {
      engines := engines[next := Proc(version, Starting, 0, false)];
      next := next + 1;
    }

    /** The pings that wait for it; the deadline may come first. */
    method Poll(c: ClientId, deadline: bool)
      requires Valid() && c in clients && clients[c].stage.Polling?
      modifies `clients, `startLock
      ensures Valid() && Now() == Ensured(old(Now()), c, false, deadline, newer)
    {
      if Reached().Some? {
        Finish(c, true);
      } else if deadline {
        Finish(c, false);
      }
    }

    /** A client dies, or gives up: its locks are released. */
    method Abandon(c: ClientId)
      requires Valid() && c in clients && HasStart(clients[c].stage)
      modifies `clients, `startLock, `engineLock
      ensures Valid() && Now() == Abandoned(old(Now()), c)
    {
      if engineLock == Some(Tester(c)) { engineLock := None; }
      startLock := None;
      clients := clients[c := clients[c].(stage := Done(false))];
    }
  }

  // ---- what holds in every state ----

  /** At most one engine serves, or is anywhere between its lock and its unlock. */
  lemma AtMostOneServes(s: State, newer: (string, string) -> bool, p: Pid, q: Pid)
    requires Sound(s, newer) && p in s.engines && q in s.engines && HasLock(s.engines[p].phase) && HasLock(s.engines[q].phase)
    ensures p == q
  {
    assert s.engineLock == Some(Engine(p)) && s.engineLock == Some(Engine(q));
  }

  /** Every request that is answered reaches the one engine that serves; an endpoint nobody answers at
      was left by a crash or belongs to the engine that is leaving. */
  lemma EndpointIsTheServers(s: State, newer: (string, string) -> bool)
    requires Sound(s, newer)
    ensures forall p :: p in s.engines && s.engines[p].phase.Serving? ==> Answering(s) == Some(p)
    ensures s.endpoint.Some? && Answering(s).None? ==>
      s.endpoint.value in s.engines && (s.engines[s.endpoint.value].phase.Crashed? || s.engines[s.endpoint.value].phase.Leaving?)
  {
    forall p | p in s.engines && s.engines[p].phase.Serving? ensures Answering(s) == Some(p) {
      assert s.endpoint == Some(p);
    }
  }

  /** An engine that agreed to an upgrade runs nothing. */
  lemma UpgradeEndsNoProgram(s: State, newer: (string, string) -> bool, p: Pid)
    requires Sound(s, newer) && p in s.upgraded
    ensures p in s.engines && s.engines[p].sessions == 0 && s.engines[p].stopping
  {}

  // ---- runs ----

  datatype Step =
    | ServeOn(pid: Pid, ok: bool, signal: bool)
    | ProgramStarts(pid: Pid)
    | ProgramEnds(pid: Pid)
    | IdleTick(pid: Pid)
    | ProcessDies(pid: Pid)
    | StartedByHand(version: string)
    | EnsureOn(client: ClientId, notRunning: bool, deadline: bool)
    | ClientDies(client: ClientId)

  predicate Serves(p: Phase) { p.Serving? || p.Leaving? || p.Removed? }

  /** What a step makes of the root. */
  function Next(s: State, step: Step, newer: (string, string) -> bool): State {
    match step
    case ServeOn(p, ok, signal) => if p in s.engines then Served(s, p, ok, signal) else s
    case ProgramStarts(p) =>
      if p in s.engines && Serves(s.engines[p].phase) && !s.engines[p].stopping
      then s.(engines := s.engines[p := s.engines[p].(sessions := s.engines[p].sessions + 1)]) else s
    case ProgramEnds(p) =>
      if p in s.engines && s.engines[p].sessions > 0
      then s.(engines := s.engines[p := s.engines[p].(sessions := s.engines[p].sessions - 1)]) else s
    case IdleTick(p) =>
      if p in s.engines && s.engines[p].phase.Serving? && s.engines[p].sessions == 0 then Stopping(s, p) else s
    case ProcessDies(p) =>
      if p in s.engines && Alive(s.engines[p].phase)
      then Entering(s, p, Crashed).(engineLock := if s.engineLock == Some(Engine(p)) then None else s.engineLock) else s
    case StartedByHand(version) => Spawned(s, version)
    case EnsureOn(c, notRunning, deadline) => if c in s.clients then Ensured(s, c, notRunning, deadline, newer) else s
    case ClientDies(c) => if c in s.clients && HasStart(s.clients[c].stage) then Abandoned(s, c) else s
  }

  function States(s: State, steps: seq<Step>, newer: (string, string) -> bool): (r: seq<State>)
    ensures |r| == |steps| + 1
  {
    if steps == [] then [s]
    else
      var before := States(s, steps[..|steps| - 1], newer);
      before + [Next(before[|steps| - 1], steps[|steps| - 1], newer)]
  }

  /** The endpoint file changes only when the engine that holds the lock writes it, or when the one that
      wrote it leaves: no exit removes another engine's endpoint. */
  lemma EndpointChanges(s: State, step: Step, newer: (string, string) -> bool)
    requires Sound(s, newer) && Next(s, step, newer).endpoint != s.endpoint
    ensures step.ServeOn? && step.pid in s.engines && s.engineLock == Some(Engine(step.pid))
    ensures if s.engines[step.pid].phase.Listening? then Next(s, step, newer).endpoint == Some(step.pid)
            else s.engines[step.pid].phase.Leaving? && s.endpoint == Some(step.pid) && Next(s, step, newer).endpoint == None
  {}

  /** An engine stops serving because of a signal or a crash, or it has no program; and the upgrade asks only
      engines older than the client that pinged them. */
  lemma EndsWithoutPrograms(s: State, step: Step, newer: (string, string) -> bool, p: Pid)
    requires Sound(s, newer) && p in s.engines && s.engines[p].phase.Serving?
    ensures var t := Next(s, step, newer);
      && p in t.engines
      && (!t.engines[p].phase.Serving? ==>
            step == ProcessDies(p) || (step.ServeOn? && step.pid == p && (step.signal || s.engines[p].sessions == 0)))
      && (t.engines[p].stopping && !s.engines[p].stopping ==> s.engines[p].sessions == 0)
  {}

  lemma StoppingStays(s: State, step: Step, newer: (string, string) -> bool, p: Pid)
    requires Sound(s, newer) && p in s.engines && s.engines[p].stopping
    ensures p in Next(s, step, newer).engines && Next(s, step, newer).engines[p].stopping
  {
    match step {
      case EnsureOn(c, notRunning, deadline) => if c in s.clients { EnsuredStays(s, c, notRunning, deadline, newer, p); }
      case StartedByHand(_) => assert p < s.next;
      case _ =>
    }
  }

  lemma EnsuredStays(s: State, c: ClientId, notRunning: bool, deadline: bool, newer: (string, string) -> bool, p: Pid)
    requires Sound(s, newer) && p in s.engines && s.engines[p].stopping && c in s.clients
    ensures var t := Ensured(s, c, notRunning, deadline, newer); p in t.engines && t.engines[p].stopping
  {
    assert p < s.next;
  }

  /** Once an engine has agreed to stop it never runs a program again. */
  lemma {:induction false} StoppingStaysEmpty(s: State, steps: seq<Step>, newer: (string, string) -> bool, p: Pid)
    requires p in s.engines && s.engines[p].stopping
    requires forall i :: 0 <= i <= |steps| ==> Sound(States(s, steps, newer)[i], newer)
    ensures var t := States(s, steps, newer)[|steps|]; p in t.engines && t.engines[p].stopping && t.engines[p].sessions == 0
  {
    var states := States(s, steps, newer);
    assert Sound(states[|steps|], newer);
    if steps != [] {
      var n := |steps| - 1;
      var before := States(s, steps[..n], newer);
      assert states == before + [Next(before[n], steps[n], newer)];
      forall i | 0 <= i <= n ensures Sound(before[i], newer) { assert states[i] == before[i]; }
      StoppingStaysEmpty(s, steps[..n], newer, p);
      StoppingStays(before[n], steps[n], newer, p);
    }
  }

  // ---- what a client that comes back with success has ----

  predicate Stands(s: State, c: ClientId, stage: Stage) { c in s.clients && s.clients[c].stage == stage }

  predicate Succeeded(s: State, c: ClientId) { Stands(s, c, Done(true)) }

  /** Engine p is older than client c, and runs nothing. */
  predicate OlderAndIdle(s: State, c: ClientId, p: Pid, newer: (string, string) -> bool)
    requires c in s.clients && p in s.engines
  {
    newer(s.clients[c].version, s.engines[p].version) && s.engines[p].sessions == 0
  }

  /** Ensure comes back with success only while an engine answers; unless the client was waiting for an engine
      it had started, that engine is not older than the client, or has programs. */
  lemma SuccessIsAnswered(s: State, step: Step, newer: (string, string) -> bool, c: ClientId)
    requires Sound(s, newer) && c in s.clients && !Succeeded(s, c) && Succeeded(Next(s, step, newer), c)
    ensures var t := Next(s, step, newer);
      && step.EnsureOn? && step.client == c && Answering(t).Some? && Answering(t).value in t.engines
      && t.engines[Answering(t).value].phase.Serving?
      && (OlderAndIdle(t, c, Answering(t).value, newer) ==> s.clients[c].stage.Polling?)
  {}

  /** No engine older than client c can still come to answer. */
  ghost predicate NoOlderComing(s: State, c: ClientId, newer: (string, string) -> bool)
    requires c in s.clients
  {
    forall p :: p in s.engines && newer(s.clients[c].version, s.engines[p].version) ==>
      !(s.engines[p].phase.Starting? || s.engines[p].phase.Locked? || s.engines[p].phase.Listening? || s.engines[p].phase.Serving?)
  }

  /** No engine older than client c is on its way to serve. */
  ghost predicate NoOlderStarting(s: State, c: ClientId, newer: (string, string) -> bool)
    requires c in s.clients
  {
    forall p :: p in s.engines && newer(s.clients[c].version, s.engines[p].version) ==>
      !(s.engines[p].phase.Starting? || s.engines[p].phase.Locked? || s.engines[p].phase.Listening?)
  }

  predicate Awaits(s: State, c: ClientId) { c in s.clients && (s.clients[c].stage.Launching? || s.clients[c].stage.Polling?) }

  lemma NoOlderStays(s: State, step: Step, newer: (string, string) -> bool, c: ClientId)
    requires Sound(s, newer) && c in s.clients && c in Next(s, step, newer).clients && Awaits(Next(s, step, newer), c)
    requires Awaits(s, c) ==> NoOlderComing(s, c, newer)
    requires NoOlderStarting(Next(s, step, newer), c, newer)
    ensures NoOlderComing(Next(s, step, newer), c, newer)
  {
    var t := Next(s, step, newer);
    forall p | p in t.engines && newer(t.clients[c].version, t.engines[p].version) ensures !t.engines[p].phase.Serving? {
      if t.engines[p].phase.Serving? {
        assert p in s.engines;
        NewlyServing(s, step, newer, c, p);
      }
    }
  }

  /** An engine that serves once c awaits one was on its way, or c awaited one already. */
  lemma NewlyServing(s: State, step: Step, newer: (string, string) -> bool, c: ClientId, p: Pid)
    requires Sound(s, newer) && c in s.clients && p in s.engines
    requires Awaits(Next(s, step, newer), c) && p in Next(s, step, newer).engines && Next(s, step, newer).engines[p].phase.Serving?
    ensures Awaits(s, c) && s.clients[c].version == Next(s, step, newer).clients[c].version
    ensures s.engines[p].version == Next(s, step, newer).engines[p].version && (s.engines[p].phase.Serving? || s.engines[p].phase.Listening?)
  {
    if step.EnsureOn? && step.client in s.clients {
      assert p < s.next;
      EnsureKeepsEngines(s, step.client, step.notRunning, step.deadline, newer, p);
      EnsureKeepsClients(s, step.client, step.notRunning, step.deadline, newer, c);
      EnsureServesNobody(s, step.client, step.notRunning, step.deadline, newer, c, p);
    }
  }

  lemma EnsureServesNobody(s: State, d: ClientId, notRunning: bool, deadline: bool, newer: (string, string) -> bool, c: ClientId, p: Pid)
    requires Sound(s, newer) && c in s.clients && d in s.clients && p in s.engines
    ensures var t := Ensured(s, d, notRunning, deadline, newer);
      Awaits(t, c) && !Awaits(s, c) ==> !s.engines[p].phase.Serving?
  {
    if s.engines[p].phase.Serving? { assert Answering(s) == Some(p); }
  }

  lemma EnsureKeepsEngines(s: State, d: ClientId, notRunning: bool, deadline: bool, newer: (string, string) -> bool, p: Pid)
    requires d in s.clients && p in s.engines && p < s.next
    ensures var t := Ensured(s, d, notRunning, deadline, newer);
      p in t.engines && t.engines[p].phase == s.engines[p].phase && t.engines[p].version == s.engines[p].version && s.next <= t.next
  {}

  lemma EnsureKeepsClients(s: State, d: ClientId, notRunning: bool, deadline: bool, newer: (string, string) -> bool, c: ClientId)
    requires c in s.clients && d in s.clients
    ensures var t := Ensured(s, d, notRunning, deadline, newer); c in t.clients && t.clients[c].version == s.clients[c].version
  {}

  /** Over any run: if no older engine is on its way to serve while the client awaits one, the engine it comes
      back with is not older, or has programs. */
  lemma {:induction false} SuccessIsNotOlder(s: State, steps: seq<Step>, newer: (string, string) -> bool, c: ClientId, n: nat)
    requires n < |steps| && c in s.clients && !Awaits(s, c)
    requires forall i :: 0 <= i <= |steps| ==> Sound(States(s, steps, newer)[i], newer)
    requires forall i :: 0 <= i <= n && Awaits(States(s, steps, newer)[i], c) ==> NoOlderStarting(States(s, steps, newer)[i], c, newer)
    requires !Succeeded(States(s, steps, newer)[n], c) && Succeeded(States(s, steps, newer)[n + 1], c)
    ensures var t := States(s, steps, newer)[n + 1];
      && Answering(t).Some? && Answering(t).value in t.engines && !OlderAndIdle(t, c, Answering(t).value, newer)
  {
    var states := States(s, steps, newer);
    AwaitingIsSafe(s, steps, newer, c, n);
    StatesAt(s, steps, newer, n);
    SuccessIsAnswered(states[n], steps[n], newer, c);
  }

  lemma {:induction false} StatesAt(s: State, steps: seq<Step>, newer: (string, string) -> bool, n: nat)
    requires n < |steps|
    ensures States(s, steps, newer)[0] == s
    ensures States(s, steps, newer)[n + 1] == Next(States(s, steps, newer)[n], steps[n], newer)
  {
    var m := |steps| - 1;
    if n < m {
      StatesAt(s, steps[..m], newer, n);
    } else if m > 0 {
      StatesAt(s, steps[..m], newer, 0);
    }
  }

  lemma {:induction false} AwaitingIsSafe(s: State, steps: seq<Step>, newer: (string, string) -> bool, c: ClientId, n: nat)
    requires n <= |steps| && c in s.clients && !Awaits(s, c)
    requires forall i :: 0 <= i <= |steps| ==> Sound(States(s, steps, newer)[i], newer)
    requires forall i :: 0 <= i <= n && Awaits(States(s, steps, newer)[i], c) ==> NoOlderStarting(States(s, steps, newer)[i], c, newer)
    ensures c in States(s, steps, newer)[n].clients
    ensures Awaits(States(s, steps, newer)[n], c) ==> NoOlderComing(States(s, steps, newer)[n], c, newer)
    decreases n
  {
    var states := States(s, steps, newer);
    if n == 0 {
      if |steps| > 0 { StatesAt(s, steps, newer, 0); }
    } else {
      AwaitingIsSafe(s, steps, newer, c, n - 1);
      StatesAt(s, steps, newer, n - 1);
      ClientsStay(states[n - 1], steps[n - 1], newer, c);
      if Awaits(states[n], c) { NoOlderStays(states[n - 1], steps[n - 1], newer, c); }
    }
  }

  lemma ClientsStay(s: State, step: Step, newer: (string, string) -> bool, c: ClientId)
    requires c in s.clients
    ensures c in Next(s, step, newer).clients && Next(s, step, newer).clients[c].version == s.clients[c].version
  {
    if step.EnsureOn? && step.client in s.clients {
      EnsureKeepsClients(s, step.client, step.notRunning, step.deadline, newer, c);
    }
  }

  // ---- runs that get somewhere ----

  /** steps lead from s to t. */
  predicate Leads(s: State, steps: seq<Step>, t: State, newer: (string, string) -> bool) { States(s, steps, newer)[|steps|] == t }

  lemma LeadsOn(s: State, steps: seq<Step>, t: State, step: Step, newer: (string, string) -> bool)
    requires Leads(s, steps, t, newer)
    ensures Leads(s, steps + [step], Next(t, step, newer), newer)
  {
    assert (steps + [step])[..|steps|] == steps;
  }

  predicate Own(step: Step, c: ClientId, p: Pid) { step == EnsureOn(c, true, false) || step == ServeOn(p, true, false) }

  function InPhase(s: State, p: Pid, phase: Phase): State
    requires p in s.engines
  {
    s.(engines := s.engines[p := s.engines[p].(phase := phase)])
  }

  lemma PhaseTwice(s: State, p: Pid, a: Phase, b: Phase)
    requires p in s.engines
    ensures InPhase(InPhase(s, p, a), p, b) == InPhase(s, p, b)
  {
    assert s.engines[p := s.engines[p].(phase := a)][p := s.engines[p].(phase := b)] == s.engines[p := s.engines[p].(phase := b)];
  }

  lemma ThreeSteps(s: State, s1: State, s2: State, t: State, step: Step, newer: (string, string) -> bool) returns (steps: seq<Step>)
    requires Next(s, step, newer) == s1 && Next(s1, step, newer) == s2 && Next(s2, step, newer) == t
    ensures Leads(s, steps, t, newer) && forall i :: 0 <= i < |steps| ==> steps[i] == step
  {
    assert Leads(s, [], s, newer);
    LeadsOn(s, [], s, step, newer);
    LeadsOn(s, [] + [step], s1, step, newer);
    LeadsOn(s, [] + [step] + [step], s2, step, newer);
    steps := [] + [step] + [step] + [step];
  }

  /** The ping that nobody answers, or the test of the lock, and the launch. */
  lemma Launched(s: State, c: ClientId, newer: (string, string) -> bool) returns (t: State)
    requires (Stands(s, c, Holding) && Answering(s).None?) || Stands(s, c, Testing)
    requires s.engineLock.None? || Stands(s, c, Testing)
    ensures var step := EnsureOn(c, true, false); t == Next(Next(s, step, newer), step, newer)
    ensures Stands(t, c, Polling) && t.clients[c].version == s.clients[c].version && t.engineLock.None?
    ensures s.next in t.engines && t.engines[s.next] == Proc(s.clients[c].version, Starting, 0, false)
  {
    var step := EnsureOn(c, true, false);
    t := Next(Next(s, step, newer), step, newer);
  }

  /** Engine p gets from its start to serving when it meets no other engine and no failure. */
  lemma EngineComesUp(s: State, p: Pid, newer: (string, string) -> bool) returns (steps: seq<Step>, t: State)
    requires p in s.engines && s.engines[p].phase.Starting? && s.engineLock.None?
    ensures Leads(s, steps, t, newer) && forall i :: 0 <= i < |steps| ==> steps[i] == ServeOn(p, true, false)
    ensures t == s.(engines := s.engines[p := s.engines[p].(phase := Serving)], engineLock := Some(Engine(p)), endpoint := Some(p))
  {
    var step := ServeOn(p, true, false);
    var s1 := InPhase(s, p, Locked).(engineLock := Some(Engine(p)));
    var s2 := InPhase(s1, p, Listening);
    t := InPhase(s, p, Serving).(engineLock := Some(Engine(p)), endpoint := Some(p));
    assert Next(s, step, newer) == s1;
    assert Next(s1, step, newer) == s2;
    PhaseTwice(s, p, Locked, Listening);
    PhaseTwice(s, p, Listening, Serving);
    assert Next(s2, step, newer) == t;
    steps := ThreeSteps(s, s1, s2, t, step, newer);
  }

  lemma {:induction false} LeadsThrough(s: State, a: seq<Step>, t: State, b: seq<Step>, u: State, newer: (string, string) -> bool)
    requires Leads(s, a, t, newer) && Leads(t, b, u, newer)
    ensures Leads(s, a + b, u, newer)
  {
    if b == [] {
      assert a + b == a;
    } else {
      var n := |b| - 1;
      var m := States(t, b[..n], newer)[n];
      LeadsThrough(s, a, t, b[..n], m, newer);
      LeadsOn(s, a + b[..n], m, b[n], newer);
      assert a + b[..n] + [b[n]] == a + b;
    }
  }

  /** Where nobody answers and the locks are free, a client gets an engine of its own version. */
  lemma EnsureStartsEngine(s: State, c: ClientId, newer: (string, string) -> bool) returns (steps: seq<Step>, t: State)
    requires Stands(s, c, Idle) && s.startLock.None? && s.engineLock.None? && Answering(s).None?
    ensures Leads(s, steps, t, newer) && forall i :: 0 <= i < |steps| ==> Own(steps[i], c, s.next)
    ensures Succeeded(t, c) && Answering(t) == Some(s.next) && s.next in t.engines && t.engines[s.next].version == s.clients[c].version
  {
    var step := EnsureOn(c, true, false);
    assert Leads(s, [], s, newer);
    var s1 := Next(s, step, newer);
    LeadsOn(s, [], s, step, newer);
    var more, u := LaunchAndWait(s1, c, newer);
    LeadsThrough(s, [] + [step], s1, more, u, newer);
    steps, t := [] + [step] + more, u;
  }

  /** The rest of it, from the ping that nobody answers. */
  lemma LaunchAndWait(s: State, c: ClientId, newer: (string, string) -> bool) returns (steps: seq<Step>, t: State)
    requires (Stands(s, c, Holding) && Answering(s).None?) || Stands(s, c, Testing)
    requires s.engineLock.None? || Stands(s, c, Testing)
    ensures Leads(s, steps, t, newer) && forall i :: 0 <= i < |steps| ==> Own(steps[i], c, s.next)
    ensures Succeeded(t, c) && Answering(t) == Some(s.next) && s.next in t.engines && t.engines[s.next].version == s.clients[c].version
  {
    var step := EnsureOn(c, true, false);
    var s2 := Launched(s, c, newer);
    assert Leads(s, [], s, newer);
    LeadsOn(s, [], s, step, newer);
    LeadsOn(s, [] + [step], Next(s, step, newer), step, newer);
    var up, s3 := EngineComesUp(s2, s.next, newer);
    LeadsThrough(s, [] + [step] + [step], s2, up, s3, newer);
    t := Next(s3, step, newer);
    LeadsOn(s, [] + [step] + [step] + up, s3, step, newer);
    steps := [] + [step] + [step] + up + [step];
  }

  /** An older engine without programs is replaced by one of the client's version. */
  lemma UpgradeReplaces(s: State, c: ClientId, p: Pid, newer: (string, string) -> bool) returns (steps: seq<Step>, t: State)
    requires Sound(s, newer) && Stands(s, c, Idle) && s.startLock.None? && Answering(s) == Some(p)
    requires OlderAndIdle(s, c, p, newer)
    ensures Leads(s, steps, t, newer) && forall i :: 0 <= i < |steps| ==> Own(steps[i], c, s.next) || steps[i] == ServeOn(p, true, false)
    ensures Succeeded(t, c) && Answering(t) == Some(s.next) && s.next in t.engines && t.engines[s.next].version == s.clients[c].version
    ensures p in t.engines && t.engines[p].phase.Exited?
  {
    var asks, stopped := AsksAndWaits(s, c, p, newer);
    var goes, gone := EngineGoes(stopped, p, newer);
    LeadsThrough(s, asks, stopped, goes, gone, newer);
    var step := EnsureOn(c, true, false);
    var tested := Next(gone, step, newer);
    LeadsOn(s, asks + goes, gone, step, newer);
    var more, u := LaunchAndWait(tested, c, newer);
    LeadsThrough(s, asks + goes + [step], tested, more, u, newer);
    steps, t := asks + goes + [step] + more, u;
    LaunchKeeps(tested, more, newer, p, c, s.next);
  }

  lemma AsksAndWaits(s: State, c: ClientId, p: Pid, newer: (string, string) -> bool) returns (steps: seq<Step>, t: State)
    requires Stands(s, c, Idle) && s.startLock.None? && Answering(s) == Some(p) && OlderAndIdle(s, c, p, newer)
    ensures Leads(s, steps, t, newer) && forall i :: 0 <= i < |steps| ==> steps[i] == EnsureOn(c, true, false)
    ensures t == s.(startLock := Some(c), clients := s.clients[c := s.clients[c].(stage := Waiting)],
                    engines := s.engines[p := s.engines[p].(stopping := true)], upgraded := s.upgraded + {p})
  {
    var step := EnsureOn(c, true, false);
    assert Leads(s, [], s, newer);
    var s1 := Next(s, step, newer);
    LeadsOn(s, [], s, step, newer);
    var s2 := Next(s1, step, newer);
    LeadsOn(s, [] + [step], s1, step, newer);
    t := Next(s2, step, newer);
    LeadsOn(s, [] + [step] + [step], s2, step, newer);
    steps := [] + [step] + [step] + [step];
    assert t.clients == s.clients[c := s.clients[c].(stage := Waiting)];
  }

  lemma EngineGoes(s: State, p: Pid, newer: (string, string) -> bool) returns (steps: seq<Step>, t: State)
    requires p in s.engines && s.engines[p].phase.Serving? && s.engines[p].stopping
    ensures Leads(s, steps, t, newer) && forall i :: 0 <= i < |steps| ==> steps[i] == ServeOn(p, true, false)
    ensures t == s.(engines := s.engines[p := s.engines[p].(phase := Exited)], engineLock := None, endpoint := None)
  {
    var step := ServeOn(p, true, false);
    var s1 := InPhase(s, p, Leaving);
    var s2 := InPhase(s1, p, Removed).(endpoint := None);
    t := InPhase(s, p, Exited).(engineLock := None, endpoint := None);
    assert Next(s, step, newer) == s1;
    assert Next(s1, step, newer) == s2;
    PhaseTwice(s, p, Leaving, Removed);
    PhaseTwice(s, p, Removed, Exited);
    assert Next(s2, step, newer) == t;
    steps := ThreeSteps(s, s1, s2, t, step, newer);
  }

  /** The steps of one client and another engine leave an engine that has gone alone. */
  lemma {:induction false} LaunchKeeps(s: State, steps: seq<Step>, newer: (string, string) -> bool, p: Pid, c: ClientId, q: Pid)
    requires p in s.engines && s.engines[p].phase.Exited? && p < s.next && p != q && forall i :: 0 <= i < |steps| ==> Own(steps[i], c, q)
    ensures var t := States(s, steps, newer)[|steps|]; p in t.engines && t.engines[p].phase.Exited? && p < t.next
  {
    if steps != [] {
      var n := |steps| - 1;
      LaunchKeeps(s, steps[..n], newer, p, c, q);
      var m := States(s, steps[..n], newer)[n];
      if steps[n].EnsureOn? && c in m.clients { EnsureKeepsEngines(m, c, true, false, newer, p); }
    }
  }

  /** While the client awaits its engine, one that somebody else started can come up first: then the client
      comes back with it, although it is older and runs nothing. */
  lemma OlderCanWin(s: State, c: ClientId, p: Pid, newer: (string, string) -> bool) returns (steps: seq<Step>, t: State)
    requires Stands(s, c, Polling) && s.engineLock.None? && p in s.engines && s.engines[p].phase.Starting? && OlderAndIdle(s, c, p, newer)
    ensures Leads(s, steps, t, newer) && Succeeded(t, c) && Answering(t) == Some(p) && p in t.engines && OlderAndIdle(t, c, p, newer)
  {
    var up, u := EngineComesUp(s, p, newer);
    var step := EnsureOn(c, true, false);
    t := Next(u, step, newer);
    LeadsOn(s, up, u, step, newer);
    steps := up + [step];
  }

  /** The next step of Serve in one process. */
  method Serve(r: Root, p: Pid, ok: bool, signal: bool)
    requires r.Valid() && p in r.engines
    modifies r
    ensures r.Valid() && r.Now() == Served(old(r.Now()), p, ok, signal)
  {
    match r.engines[p].phase
    case Starting => r.Lock(p);
    case Locked => r.Listen(p, ok);
    case Listening => r.Publish(p, ok);
    case Serving => if signal || r.engines[p].stopping { r.Leave(p, signal); }
    case Leaving => r.RemoveEndpoint(p);
    case Removed => r.Unlock(p);
    case _ =>
  }

  /** The next step of Ensure in one client. */
  method Ensure(r: Root, c: ClientId, notRunning: bool, deadline: bool)
    requires r.Valid() && c in r.clients
    modifies r
    ensures r.Valid() && r.Now() == Ensured(old(r.Now()), c, notRunning, deadline, r.newer)
  {
    match r.clients[c].stage
    case Idle => var _ := r.TakeStart(c);
    case Holding => r.Ping(c, notRunning);
    case Shutting(_) => r.AskToStop(c);
    case Waiting => if deadline { r.Abandon(c); } else { r.TestLock(c); }
    case Testing => r.ReleaseTest(c);
    case Launching => r.Launch(c);
    case Polling => r.Poll(c, deadline);
    case Done(_) =>
  }

  method Advance(r: Root, step: Step)
    requires r.Valid()
    modifies r
    ensures r.Valid() && r.Now() == Next(old(r.Now()), step, r.newer)
  {
    match step
    case ServeOn(p, ok, signal) => if p in r.engines { Serve(r, p, ok, signal); }
    case ProgramStarts(p) =>
      if p in r.engines && (r.engines[p].phase.Serving? || r.engines[p].phase.Leaving? || r.engines[p].phase.Removed?) {
        var _ := r.StartProgram(p);
      }
    case ProgramEnds(p) => if p in r.engines && r.engines[p].sessions > 0 { r.EndProgram(p); }
    case IdleTick(p) => if p in r.engines && r.engines[p].phase.Serving? { var _ := r.StopIdle(p); }
    case ProcessDies(p) => if p in r.engines && Alive(r.engines[p].phase) { r.Crash(p); }
    case StartedByHand(version) => r.Spawn(version);
    case EnsureOn(c, notRunning, deadline) => if c in r.clients { Ensure(r, c, notRunning, deadline); }
    case ClientDies(c) => if c in r.clients && HasStart(r.clients[c].stage) { r.Abandon(c); }
  }

  /** In every interleaving of engines and clients on one root, every state on the way is sound: at most
      one engine holds the lock, the endpoint is its own or was left by a crash, and no engine that agreed
      to an upgrade has a program. */
  method Run(r: Root, steps: seq<Step>)
    requires r.Valid()
    modifies r
    ensures r.Valid() && r.Now() == States(old(r.Now()), steps, r.newer)[|steps|]
    ensures forall i :: 0 <= i <= |steps| ==> Sound(States(old(r.Now()), steps, r.newer)[i], r.newer)
  {
    ghost var start := r.Now();
    for i := 0 to |steps|
      invariant r.Valid() && r.Now() == States(start, steps[..i], r.newer)[i]
      invariant forall k :: 0 <= k <= i ==> Sound(States(start, steps[..i], r.newer)[k], r.newer)
    {
      assert steps[..i + 1][..i] == steps[..i];
      ghost var states, more := States(start, steps[..i], r.newer), States(start, steps[..i + 1], r.newer);
      Advance(r, steps[i]);
      assert more == states + [r.Now()];
    }
    assert steps[..|steps|] == steps;
  }
}
