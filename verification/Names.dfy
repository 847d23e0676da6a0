/** Visible session names over an engine that cannot rename: a catalog kept beside it. */
module Names {
  import opened Prelude
  import opened FreeName

  type Id = nat

  const MAX_SESSIONS := 16

  datatype Action = Attach | Ensure | Create

  datatype Failure = NotFound | Exists | InvalidName | Limit | ConnectionLost | NamesInvalid

  datatype Result<+T> = Ok(value: T) | Err(failure: Failure)

  /** session-names.json: names for sessions of the engine with that generation. */
  datatype Catalog = Missing | Saved(generation: nat, names: map<Id, string>)

  /** What names() returns: an absent or foreign catalog is an empty one without a generation. */
  datatype Loaded = Loaded(generation: Option<nat>, names: map<Id, string>)

  /** What may happen between two steps of a client: programs end, or the engine is replaced. */
  datatype Event = Quiet | Die(ids: set<Id>) | Replaced

  type Sessions = map<Id, string>

  /** overlayNames for one session. */
  function Shown(raw: Sessions, names: map<Id, string>, id: Id): string
    requires id in raw
  {
    if id in names && names[id] != "" then names[id] else raw[id]
  }

  predicate Distinct(raw: Sessions, names: map<Id, string>) {
    forall a, b :: a in raw && b in raw && a != b ==> Shown(raw, names, a) != Shown(raw, names, b)
  }

  predicate Part(a: Sessions, b: Sessions) { a.Keys <= b.Keys && forall k :: k in a ==> a[k] == b[k] }

  /** No session of list is shown under name. */
  predicate NoneShown(list: Sessions, names: map<Id, string>, name: string) {
    forall k :: k in list ==> Shown(list, names, k) != name
  }

  /** No session of list but id is shown under name. */
  predicate NoOther(list: Sessions, names: map<Id, string>, id: Id, name: string) {
    forall k :: k in list && k != id ==> Shown(list, names, k) != name
  }

  predicate NoneNamed(raw: Sessions, name: string) { forall k :: k in raw ==> raw[k] != name }

  /** Why a session is not opened under a name: nobody is shown under it and none may be started, or one is
      and a new one was asked for. */
  predicate Refuses(list: Sessions, names: map<Id, string>, name: string, action: Action, why: Failure) {
    if !NoneShown(list, names, name) then action.Create? && why == Exists
    else if action.Attach? then why == NotFound
    else if !ValidName(name) then why == InvalidName
    else |list| >= MAX_SESSIONS && why == Limit
  }

  /** The answer is the one the list decides. */
  predicate Decided(list: Sessions, names: map<Id, string>, name: string, action: Action, failure: Option<Failure>) {
    if failure.Some? then Refuses(list, names, name, action, failure.value)
    else forall why :: !Refuses(list, names, name, action, why)
  }

  /** An invalid name is refused first, unless there is no catalog to look it up in. */
  predicate Answered(list: Sessions, names: map<Id, string>, name: string, action: Action, r: Result<Id>) {
    if names != map[] && !ValidName(name) then r == Err(InvalidName) else Decided(list, names, name, action, FailureOf(r))
  }

  /** A name nobody is shown under and a raw name nobody has are refused alike. */
  lemma SameDecision(list: Sessions, names: map<Id, string>, name: string, rawName: string, action: Action, failure: Option<Failure>)
    requires NoneShown(list, names, name) && NoneNamed(list, rawName) && ValidName(name) && ValidName(rawName)
    requires Decided(list, map[], rawName, action, failure)
    ensures Decided(list, names, name, action, failure)
  {
    if failure.None? {
      forall why ensures !Refuses(list, names, name, action, why) { assert !Refuses(list, map[], rawName, action, why); }
    }
  }

  /** The one session shown under a name is reached by it, and a create is refused. */
  lemma FoundDecides(list: Sessions, names: map<Id, string>, name: string, action: Action, k: Id)
    requires Distinct(list, names) && k in list && Shown(list, names, k) == name
    ensures forall o :: o in list && Shown(list, names, o) == name ==> o == k
    ensures Decided(list, names, name, action, if action.Create? then Some(Exists) else None)
  {
    assert !NoneShown(list, names, name);
  }

  lemma NotFoundDecides(list: Sessions, name: string, action: Action)
    requires NoneNamed(list, name)
    ensures Decided(list, map[], name, action, if action.Attach? then Some(NotFound) else if !ValidName(name) then Some(InvalidName)
                                               else if |list| >= MAX_SESSIONS then Some(Limit) else None)
  {
    assert NoneShown(list, map[], name);
  }

  function FailureOf<T>(r: Result<T>): Option<Failure> { if r.Err? then Some(r.failure) else None }

  lemma DistinctPart(a: Sessions, b: Sessions, names: map<Id, string>)
    requires Part(a, b) && Distinct(b, names)
    ensures Distinct(a, names)
  {
    forall x, y | x in a && y in a && x != y ensures Shown(a, names, x) != Shown(a, names, y) {
      assert Shown(a, names, x) == Shown(b, names, x) && Shown(a, names, y) == Shown(b, names, y);
    }
  }

  lemma DistinctAdded(raw: Sessions, names: map<Id, string>, id: Id, name: string)
    requires Distinct(raw, names) && id !in raw && id !in names && NoneShown(raw, names, name)
    ensures Distinct(raw[id := name], names)
  {
    var more := raw[id := name];
    assert forall k :: k in raw ==> Shown(more, names, k) == Shown(raw, names, k);
    assert Shown(more, names, id) == name;
  }

  /** Giving one live session a name that no other is shown under. */
  lemma DistinctRenamed(raw: Sessions, names: map<Id, string>, id: Id, name: string, after: map<Id, string>)
    requires Distinct(raw, names) && name != ""
    requires NoOther(raw, names, id, name)
    requires forall k :: k in raw && k != id ==> Shown(raw, after, k) == Shown(raw, names, k)
    requires id in raw ==> Shown(raw, after, id) == name
    ensures Distinct(raw, after)
  {}

  /** A root at one moment; still: from here on no program ends and no engine is replaced. */
  datatype Snap = Snap(raw: Sessions, generation: nat, catalog: Catalog, next: Id, still: bool)

  function NamesAt(s: Snap): map<Id, string> {
    if s.catalog.Saved? && s.catalog.generation == s.generation then s.catalog.names else map[]
  }

  function VisibleAt(s: Snap, id: Id): string
    requires id in s.raw
  {
    Shown(s.raw, NamesAt(s), id)
  }

  /** A root directory: the engine's sessions under their own names, and the catalog. */
  class Root {
    var raw: Sessions
    var generation: nat
    var catalog: Catalog
    var next: Id
    const events: nat -> Event
    var moment: nat

    /** The names that count for the engine that runs now. */
    function Current(): map<Id, string>
      reads `generation, `catalog
    {
      if catalog.Saved? && catalog.generation == generation then catalog.names else map[]
    }

    function Visible(id: Id): string
      requires id in raw
      reads `raw, `generation, `catalog
    {
      Shown(raw, Current(), id)
    }

    ghost predicate CatalogOk()
      reads `generation, `catalog, `next
    {
      catalog.Saved? ==>
        && catalog.generation <= generation
        && forall k :: k in catalog.names ==> k < next && ValidName(catalog.names[k])
    }

    ghost predicate Valid()
      reads this
    {
      && |raw| <= MAX_SESSIONS && CatalogOk()
      && (forall k :: k in raw ==> k < next && ValidName(raw[k]))
      && Distinct(raw, map[]) && Distinct(raw, Current())
    }

    constructor (events: nat -> Event)
      ensures Valid() && raw == map[] && catalog == Missing
    {
      raw, generation, catalog, next, this.events, moment := map[], 0, Missing, 0, events, 0;
    }

    ghost function Now(): Snap
      reads this
    {
      Snap(raw, generation, catalog, next, Still())
    }

    /** From here on no program ends and no engine is replaced. */
    ghost predicate Still()
      reads `moment
    {
      forall i :: i >= moment ==> events(i) == Quiet
    }

    /** A moment between two steps. */
    method Pause()
      requires Valid()
      modifies `raw, `generation, `moment
      ensures Valid() && generation >= old(generation) && Part(raw, old(raw))
      ensures generation > old(generation) ==> raw == map[]
      ensures old(Still()) ==> Still() && raw == old(raw) && generation == old(generation)
    {
      var event := events(moment);
      moment := moment + 1;
      match event
      case Quiet =>
      case Die(ids) =>
        ghost var before := raw;
        raw := raw - ids;
        Fewer(raw, before);
        DistinctPart(raw, before, map[]);
        DistinctPart(raw, before, Current());
      case Replaced =>
        generation, raw := generation + 1, map[];
    }

    // ---- the engine, which knows only raw names ----

    method FindRaw(name: string) returns (found: Option<Id>)
      ensures found.Some? ==> found.value in raw && raw[found.value] == name
      ensures found.None? ==> NoneNamed(raw, name)
    {
      var todo := raw.Keys;
      while todo != {}
        invariant todo <= raw.Keys && forall k :: k in raw.Keys - todo ==> raw[k] != name
        decreases |todo|
      {
        var k :| k in todo;
        todo := todo - {k};
        if raw[k] == name { return Some(k); }
      }
      found := None;
    }

    /** Opening a session by its raw name. */
    method OpenRaw(name: string, action: Action) returns (r: Result<Id>)
      requires Valid() && (NoneNamed(raw, name) ==> NoneShown(raw, Current(), name))
      modifies `raw, `next
      ensures Valid() && next >= old(next)
      ensures r.Err? ==> raw == old(raw)
      ensures r.Ok? ==> r.value in raw && raw[r.value] == name && r.value < next
      ensures r.Ok? ==> if r.value in old(raw) then raw == old(raw) && !action.Create? else
        raw == old(raw)[r.value := name] && r.value >= old(next) && NoneNamed(old(raw), name)
      ensures Decided(old(raw), map[], name, action, FailureOf(r))
    {
      var found := FindRaw(name);
      if found.Some? {
        FoundDecides(raw, map[], name, action, found.value);
        return if action.Create? then Err(Exists) else Ok(found.value);
      }
      NotFoundDecides(raw, name, action);
      if action.Attach? { return Err(NotFound); }
      if !ValidName(name) { return Err(InvalidName); }
      if |raw| >= MAX_SESSIONS { return Err(Limit); }
      StartRaw(name);
      r := Ok(next - 1);
    }

    method StartRaw(name: string)
      requires Valid() && ValidName(name) && |raw| < MAX_SESSIONS && NoneNamed(raw, name) && NoneShown(raw, Current(), name)
      modifies `raw, `next
      ensures Valid() && raw == old(raw)[old(next) := name] && next == old(next) + 1
    {
      DistinctAdded(raw, map[], next, name);
      DistinctAdded(raw, Current(), next, name);
      OneMore(raw, next, name);
      raw, next := raw[next := name], next + 1;
    }

    // ---- the catalog ----

    /** names(): the catalog is read, then the endpoint that tells the generation. */
    method ReadNames() returns (r: Result<Loaded>)
      requires Valid()
      modifies `raw, `generation, `moment
      ensures Valid() && generation >= old(generation) && Part(raw, old(raw)) && (generation > old(generation) ==> raw == map[])
      ensures r.Ok? ==> Agrees(r.value) && (r.value.generation.Some? ==> r.value.generation.value == generation)
      ensures r.Ok? && catalog.Saved? ==> |catalog.names| <= MAX_SESSIONS
      ensures OnlyDeaths()
      ensures r.Err? <==> catalog.Saved? && |catalog.names| > MAX_SESSIONS
      ensures r.Err? ==> r.failure == NamesInvalid
      ensures r.Ok? ==> r.value.names == Current()
      ensures old(Still()) ==> Still() && raw == old(raw) && generation == old(generation)
    {
      var read := catalog;
      Pause();
      if read.Missing? { return Ok(Loaded(None, map[])); }
      if |read.names| > MAX_SESSIONS { return Err(NamesInvalid); }
      if read.generation != generation { return Ok(Loaded(None, map[])); }
      r := Ok(Loaded(Some(generation), read.names));
    }

    /** What was read is what counts, now and as long as nobody saves: an outdated catalog stays outdated. */
    ghost predicate Agrees(n: Loaded)
      reads `generation, `catalog
    {
      && (n.generation.Some? ==> catalog == Saved(n.generation.value, n.names) && n.generation.value <= generation)
      && (n.generation.None? ==> n.names == map[] && (catalog.Missing? || catalog.generation < generation))
    }

    /** saveNames: names of programs that are no longer listed are dropped. */
    method SaveNames(generationRead: Option<nat>, names: map<Id, string>, active: set<Id>) returns (ok: bool)
      requires Valid() && forall k :: k in names ==> k < next && ValidName(names[k])
      requires generationRead.None? || generationRead.value == generation ==> Distinct(raw, Live(names, active))
      modifies `raw, `generation, `moment, `catalog
      ensures Valid() && generation >= old(generation) && Part(raw, old(raw)) && (generation > old(generation) ==> raw == map[])
      ensures ok <==> generationRead.None? || generationRead.value == old(generation)
      ensures catalog == if ok then Saved(old(generation), Live(names, active)) else old(catalog)
      ensures old(Still()) ==> Still() && raw == old(raw) && generation == old(generation)
    {
      var now := generation;
      if generationRead.Some? && generationRead.value != now { return false; }
      var live := Live(names, active);
      ghost var before := raw;
      Pause();
      if generation == now { DistinctPart(raw, before, live); }
      catalog := Saved(now, live);
      ok := true;
    }

    // ---- renaming ----

    /** The loop of renameLegacy: is the session listed, and is the name shown for another one? */
    method CheckRename(list: Sessions, names: map<Id, string>, id: Id, name: string) returns (r: Result<()>)
      ensures r.Ok? ==> id in list && NoOther(list, names, id, name)
      ensures r == Err(Exists) <==> !NoOther(list, names, id, name)
      ensures r.Err? ==> r == Err(Exists) || (r == Err(NotFound) && id !in list)
    {
      var todo := list.Keys;
      while todo != {}
        invariant todo <= list.Keys && forall k :: k in list.Keys - todo && k != id ==> Shown(list, names, k) != name
        decreases |todo|
      {
        var k :| k in todo;
        todo := todo - {k};
        if k != id && Shown(list, names, k) == name { return Err(Exists); }
      }
      r := if id in list then Ok(()) else Err(NotFound);
    }

    /** Save names with id shown as name; list holds every live session and nobody else in it is. */
    method SaveRename(list: Sessions, n: Loaded, id: Id, name: string) returns (ok: bool)
      requires Valid() && Agrees(n) && Part(raw, list) && id in list && ValidName(name)
      requires forall k :: k in list ==> k < next
      requires NoOther(list, n.names, id, name)
      modifies `raw, `generation, `moment, `catalog
      ensures Valid() && generation >= old(generation) && Part(raw, old(raw)) && (generation > old(generation) ==> raw == map[])
      ensures ok <==> n.generation.None? || n.generation.value == old(generation)
      ensures ok && id in raw ==> Visible(id) == name
      ensures forall k :: k in raw && (k != id || !ok) ==> Visible(k) == old(Visible(k))
      ensures old(Still()) ==> Still() && raw == old(raw) && generation == old(generation)
    {
      var names := n.names[id := name];
      ghost var before, was := raw, Current();
      if n.generation.None? || n.generation.value == generation {
        assert was == n.names;
        LiveShown(raw, list, was, id, name);
        DistinctRenamed(raw, was, id, name, Live(names, list.Keys));
      }
      ok := SaveNames(n.generation, names, list.Keys);
    }

    predicate TooMany()
      reads `catalog
    {
      catalog.Saved? && |catalog.names| > MAX_SESSIONS
    }

    /** What a rename is answered when nothing happens meanwhile. */
    ghost function RenameAnswer(id: Id, name: string): Result<()>
      reads this
    {
      if !ValidName(name) then Err(InvalidName)
      else if TooMany() then Err(NamesInvalid)
      else if !NoOther(raw, Current(), id, name) then Err(Exists)
      else if id !in raw then Err(NotFound)
      else Ok(())
    }

    /** renameLegacy. Nobody else's visible name changes. */
    method RenameLegacy(id: Id, name: string) returns (r: Result<()>)
      requires Valid()
      modifies `raw, `generation, `moment, `catalog
      ensures Valid() && generation >= old(generation) && Part(raw, old(raw)) && (generation > old(generation) ==> raw == map[])
      ensures r.Ok? && id in raw ==> Visible(id) == name
      ensures forall k :: k in raw && (k != id || r.Err?) ==> Visible(k) == old(Visible(k))
      ensures old(Still()) ==> Still() && raw == old(raw) && r == old(RenameAnswer(id, name))
    {
      if !ValidName(name) { return Err(InvalidName); }
      Pause();
      r := RenameListed(raw, id, name);
    }

    method RenameListed(list: Sessions, id: Id, name: string) returns (r: Result<()>)
      requires Valid() && list == raw && ValidName(name)
      modifies `raw, `generation, `moment, `catalog
      ensures Valid() && generation >= old(generation) && Part(raw, old(raw)) && (generation > old(generation) ==> raw == map[])
      ensures r.Ok? && id in raw ==> Visible(id) == name
      ensures forall k :: k in raw && (k != id || r.Err?) ==> Visible(k) == old(Visible(k))
      ensures old(Still()) ==> Still() && raw == old(raw) && r == old(RenameAnswer(id, name))
    {
      var read := ReadNames();
      if read.Err? { return Err(read.failure); }
      var checked := CheckRename(list, read.value.names, id, name);
      if checked.Err? { return checked; }
      var saved := SaveRename(list, read.value, id, name);
      r := if saved then Ok(()) else Err(ConnectionLost);
    }

    // ---- attaching ----

    /** Only deaths happened since: what is left is shown as before. */
    twostate predicate OnlyDeaths()
      reads this
    {
      && generation >= old(generation) && Part(raw, old(raw)) && (generation > old(generation) ==> raw == map[])
      && forall k :: k in raw ==> Visible(k) == old(Visible(k))
    }

    /** attachWithNames: by UUID. */
    method AttachId(id: Id) returns (r: Result<Id>)
      requires Valid()
      modifies `raw, `generation, `moment
      ensures Valid() && OnlyDeaths()
      ensures r.Ok? ==> r.value == id
      ensures id in raw && (catalog.Saved? ==> |catalog.names| <= MAX_SESSIONS) ==> r == Ok(id)
      ensures old(Still()) ==> Still() && raw == old(raw)
      ensures old(Still()) ==> r == if id !in raw then Err(NotFound) else if old(TooMany()) then Err(NamesInvalid) else Ok(id)
    {
      Pause();
      if id !in raw { return Err(NotFound); }
      var read := ReadNames();
      r := if read.Ok? then Ok(id) else Err(read.failure);
    }

    method FindShown(list: Sessions, names: map<Id, string>, name: string) returns (found: Option<Id>)
      ensures found.Some? ==> found.value in list && Shown(list, names, found.value) == name
      ensures found.None? ==> NoneShown(list, names, name)
    {
      var todo := list.Keys;
      while todo != {}
        invariant todo <= list.Keys && forall k :: k in list.Keys - todo ==> Shown(list, names, k) != name
        decreases |todo|
      {
        var k :| k in todo;
        todo := todo - {k};
        if Shown(list, names, k) == name { return Some(k); }
      }
      found := None;
    }

    /** Nobody who was there is shown differently; whoever was not has a new id. */
    twostate predicate OthersKeepNames()
      reads this
    {
      next >= old(next) && forall k :: k in raw ==> if k in old(raw) then Visible(k) == old(Visible(k)) else k >= old(next)
    }

    /** The list a client decided on still covers what is live, under the names it read. */
    ghost predicate Covers(list: Sessions, n: Loaded)
      reads `raw, `generation, `catalog, `next
    {
      && Agrees(n) && n.generation.Some? && Part(raw, list) && (n.generation.value == generation || raw == map[])
      && forall k :: k in list ==> k < next
    }

    /** A raw name for a new session: its visible one, unless that is hidden behind another session's name. */
    method RawName(list: Sessions, name: string, generated: string) returns (r: string)
      requires NoneNamed(list, generated)
      ensures r == if NoneNamed(list, name) then name else generated
      ensures NoneNamed(list, r)
    {
      var todo := list.Keys;
      while todo != {}
        invariant todo <= list.Keys && forall k :: k in list.Keys - todo ==> list[k] != name
        decreases |todo|
      {
        var k :| k in todo;
        todo := todo - {k};
        if list[k] == name { return generated; }
      }
      r := name;
    }

    method OpenUnder(list: Sessions, n: Loaded, rawName: string, action: Action) returns (r: Result<Id>)
      requires Valid() && Covers(list, n) && NoneNamed(list, rawName) && NoneShown(list, n.names, rawName)
      modifies `raw, `generation, `moment, `next
      ensures Valid() && OthersKeepNames() && next >= old(next)
      ensures Agrees(n) && forall k :: k in list ==> k < next
      ensures r.Ok? ==> r.value !in list && r.value < next && r.value in raw && Visible(r.value) == rawName
                        && Part(raw, list[r.value := rawName])
      ensures old(Still()) ==> Still() && generation == old(generation)
      ensures old(Still()) && list == old(raw) ==> Decided(list, map[], rawName, action, FailureOf(r))
    {
      Pause();
      r := OpenCovered(list, n, rawName, action);
    }

    method OpenCovered(list: Sessions, n: Loaded, rawName: string, action: Action) returns (r: Result<Id>)
      requires Valid() && Covers(list, n) && NoneNamed(list, rawName) && NoneShown(list, n.names, rawName)
      modifies `raw, `next
      ensures Valid() && OthersKeepNames() && next >= old(next)
      ensures forall k :: k in list ==> k < next
      ensures r.Ok? ==> r.value !in list && r.value < next && r.value in raw && Visible(r.value) == rawName
                        && Part(raw, list[r.value := rawName])
      ensures list == old(raw) ==> Decided(list, map[], rawName, action, FailureOf(r))
    {
      assert NoneShown(raw, Current(), rawName);
      r := OpenRaw(rawName, action);
    }

    /** Open a new session under a raw name nobody has. */
    method OpenAside(list: Sessions, n: Loaded, name: string, rawName: string, action: Action) returns (r: Result<Id>)
      requires Valid() && Covers(list, n) && NoneShown(list, n.names, name) && ValidName(name)
      requires NoneNamed(list, rawName) && NoneShown(list, n.names, rawName)
      modifies `raw, `generation, `moment, `next
      ensures Valid() && OthersKeepNames()
      ensures Agrees(n) && forall k :: k in list ==> k < next
      ensures r.Ok? ==> r.value !in list && r.value < next && r.value in raw && Visible(r.value) == rawName
                        && Part(raw, list[r.value := rawName])
      ensures old(Still()) ==> Still() && generation == old(generation)
      ensures old(Still()) && list == old(raw) && ValidName(rawName) ==> Decided(list, n.names, name, action, FailureOf(r))
    {
      r := OpenUnder(list, n, rawName, action);
      if old(Still()) && list == old(raw) && ValidName(rawName) {
        SameDecision(list, n.names, name, rawName, action, FailureOf(r));
      }
    }

    /** The rest of attachNamed once nobody is shown under the name. */
    method StartNamed(list: Sessions, n: Loaded, name: string, action: Action, generated: string) returns (r: Result<Id>)
      requires Valid() && Covers(list, n) && NoneShown(list, n.names, name) && ValidName(name)
      requires generated != name && NoneNamed(list, generated) && NoneShown(list, n.names, generated)
      modifies `raw, `generation, `moment, `catalog, `next
      ensures Valid() && OthersKeepNames()
      ensures r.Ok? ==> r.value !in list && (r.value in raw ==> Visible(r.value) == name)
      ensures old(Still()) && list == old(raw) && n.generation.value == old(generation) && ValidName(generated) && !action.Attach? ==>
        Still() && Decided(list, n.names, name, action, FailureOf(r)) && (r.Ok? ==> r.value in raw)
    {
      var rawName := RawName(list, name, generated);
      r := OpenAside(list, n, name, rawName, action);
      if r.Ok? && rawName != name {
        var shown := Unhide(list, n, r.value, rawName, name);
        if !shown { r := Err(ConnectionLost); }
      }
    }

    /** A session started under a generated name gets its visible one. */
    method Unhide(list: Sessions, n: Loaded, id: Id, rawName: string, name: string) returns (shown: bool)
      requires Valid() && Agrees(n) && id !in list && id in raw && id < next && Part(raw, list[id := rawName]) && ValidName(name)
      requires NoneShown(list, n.names, name) && forall k :: k in list ==> k < next
      modifies `raw, `generation, `moment, `catalog
      ensures Valid() && (shown && id in raw ==> Visible(id) == name)
      ensures forall k :: k in raw ==> k in old(raw) && (k != id ==> Visible(k) == old(Visible(k)))
      ensures old(Still()) && n.generation == Some(old(generation)) ==> Still() && shown && raw == old(raw)
    {
      HiddenKeepsOthers(list, n, id, rawName, name);
      shown := ShowAs(list, n, id, rawName, name);
    }

    lemma HiddenKeepsOthers(list: Sessions, n: Loaded, id: Id, rawName: string, name: string)
      requires NoneShown(list, n.names, name) && id !in list
      ensures NoOther(list[id := rawName], n.names, id, name)
    {}

    /** Show the session just started under its name, or end it. */
    method ShowAs(list: Sessions, n: Loaded, id: Id, rawName: string, name: string) returns (shown: bool)
      requires Valid() && Agrees(n) && id !in list && id in raw && id < next && Part(raw, list[id := rawName]) && ValidName(name)
      requires forall k :: k in list ==> k < next
      requires NoOther(list[id := rawName], n.names, id, name)
      modifies `raw, `generation, `moment, `catalog
      ensures Valid() && (shown && id in raw ==> Visible(id) == name)
      ensures forall k :: k in raw ==> k in old(raw) && (k != id ==> Visible(k) == old(Visible(k)))
      ensures old(Still()) && n.generation == Some(old(generation)) ==> Still() && shown && raw == old(raw)
    {
      shown := SaveRename(list[id := rawName], n, id, name);
      if !shown { Terminate(id); }
    }

    method Terminate(id: Id)
      requires Valid()
      modifies `raw
      ensures Valid() && raw == old(raw) - {id}
    {
      ghost var before := raw;
      raw := raw - {id};
      Fewer(raw, before);
      DistinctPart(raw, before, map[]);
      DistinctPart(raw, before, Current());
    }

    /** A generated name nobody has, in any sense. */
    ghost predicate Unused(generated: string, name: string)
      reads `raw, `generation, `catalog
    {
      generated != name && NoneNamed(raw, generated) && NoneShown(raw, Current(), generated)
    }

    /** attachNamed without a catalog: raw names are the visible ones. */
    method AttachRaw(name: string, action: Action) returns (r: Result<Id>)
      requires Valid() && Current() == map[] && (catalog.Saved? ==> catalog.generation < generation || catalog.names == map[])
      modifies `raw, `generation, `moment, `next
      ensures Valid() && OthersKeepNames()
      ensures r.Ok? && r.value in raw ==> Visible(r.value) == name
      ensures forall k :: k in raw && k in old(raw) && old(raw)[k] == name ==> r == if action.Create? then Err(Exists) else Ok(k)
      ensures old(Still()) ==> Still() && Decided(old(raw), map[], name, action, FailureOf(r)) && (r.Ok? ==> r.value in raw)
    {
      Pause();
      r := OpenRaw(name, action);
    }

    /** attachNamed with a catalog: the session shown under the name, or a new one. */
    method AttachShown(n: Loaded, name: string, action: Action, generated: string) returns (r: Result<Id>)
      requires Valid() && Agrees(n) && n.generation.Some? && n.generation.value == generation && Unused(generated, name)
      requires 0 < |n.names| <= MAX_SESSIONS
      modifies `raw, `generation, `moment, `catalog, `next
      ensures Valid() && OthersKeepNames()
      ensures r.Ok? && r.value in raw ==> Visible(r.value) == name
      ensures ValidName(name) ==> forall k :: k in raw && k in old(raw) && old(Visible(k)) == name ==>
        r == if action.Create? then Err(Exists) else Ok(k)
      ensures old(Still()) && ValidName(generated) ==> Still() && Answered(old(raw), n.names, name, action, r)
      ensures old(Still()) && ValidName(generated) && r.Ok? ==> r.value in raw
    {
      if !ValidName(name) { return Err(InvalidName); }
      var list := ListSessions(n, name, generated);
      r := AttachListed(list, n, name, action, generated);
    }

    method AttachListed(list: Sessions, n: Loaded, name: string, action: Action, generated: string) returns (r: Result<Id>)
      requires Valid() && list == raw && Covers(list, n) && Distinct(list, n.names) && ValidName(name)
      requires catalog.Saved? ==> |catalog.names| <= MAX_SESSIONS
      requires generated != name && NoneNamed(list, generated) && NoneShown(list, n.names, generated)
      modifies `raw, `generation, `moment, `catalog, `next
      ensures Valid() && OthersKeepNames()
      ensures r.Ok? && r.value in raw ==> Visible(r.value) == name
      ensures forall k :: k in raw && k in list && Shown(list, n.names, k) == name ==> r == if action.Create? then Err(Exists) else Ok(k)
      ensures old(Still()) && ValidName(generated) && n.generation.value == old(generation) ==>
        Still() && Decided(list, n.names, name, action, FailureOf(r)) && (r.Ok? ==> r.value in raw)
    {
      var found := FindShown(list, n.names, name);
      if found.Some? {
        FoundDecides(list, n.names, name, action, found.value);
        if action.Create? { return Err(Exists); }
        r := AttachId(found.value);
        return;
      }
      if action.Attach? { return Err(NotFound); }
      r := StartNamed(list, n, name, action, generated);
    }

    /** Ask the engine for its list. */
    method ListSessions(n: Loaded, name: string, generated: string) returns (list: Sessions)
      requires Valid() && Agrees(n) && n.generation.Some? && n.generation.value == generation && Unused(generated, name)
      modifies `raw, `generation, `moment
      ensures Valid() && OnlyDeaths() && list == raw && Covers(list, n) && Distinct(list, n.names)
      ensures NoneNamed(list, generated) && NoneShown(list, n.names, generated)
      ensures forall k :: k in raw ==> Shown(list, n.names, k) == old(Visible(k))
      ensures old(Still()) ==> Still() && raw == old(raw) && generation == old(generation)
    {
      Pause();
      list := raw;
    }

    /** attachNamed. A visible name always reaches the session shown under it, whatever raw names are
        hidden; a session it starts is shown under the name asked for; nobody else is shown differently. */
    method AttachNamed(name: string, action: Action, generated: string) returns (r: Result<Id>)
      requires Valid() && Unused(generated, name)
      modifies `raw, `generation, `moment, `catalog, `next
      ensures Valid() && OthersKeepNames()
      ensures r.Ok? && r.value in raw ==> Visible(r.value) == name
      ensures ValidName(name) && (old(catalog).Saved? ==> |old(catalog).names| <= MAX_SESSIONS) ==>
        forall k :: k in raw && k in old(raw) && old(Visible(k)) == name ==> r == if action.Create? then Err(Exists) else Ok(k)
      ensures old(Still()) && ValidName(generated) ==>
        Still() && if old(TooMany()) then r == Err(NamesInvalid) else Answered(old(raw), old(Current()), name, action, r)
      ensures old(Still()) && ValidName(generated) && r.Ok? ==> r.value in raw
    {
      var read := ReadNames();
      if read.Err? { return Err(read.failure); }
      if |read.value.names| == 0 {
        r := AttachRaw(name, action);
      } else {
        r := AttachShown(read.value, name, action, generated);
      }
    }
  }

  /** What the saved names show, for a session list that holds every live one. */
  lemma LiveShown(raw: Sessions, list: Sessions, names: map<Id, string>, id: Id, name: string)
    requires Part(raw, list) && name != ""
    ensures forall k :: k in raw ==>
      Shown(raw, Live(names[id := name], list.Keys), k) == if k == id then name else Shown(raw, names, k)
  {}

  function Live(names: map<Id, string>, active: set<Id>): map<Id, string> {
    map k | k in names && k in active && names[k] != "" :: names[k]
  }

  lemma OneMore(raw: Sessions, id: Id, name: string)
    requires id !in raw
    ensures |raw[id := name]| == |raw| + 1
  {
    assert raw[id := name].Keys == raw.Keys + {id};
  }

  lemma Fewer(a: Sessions, b: Sessions)
    requires Part(a, b)
    ensures |a| <= |b|
  {
    SubsetSize(a.Keys, b.Keys);
  }

  // ---- runs ----

  datatype Step =
    | Attaches(name: string, action: Action, generated: string)
    | AttachesId(id: Id)
    | Renames(id: Id, name: string)
    | Happens

  datatype Report = Opened(session: Result<Id>) | Renamed(result: Result<()>) | Nothing

  predicate TooManyAt(s: Snap) { s.catalog.Saved? && |s.catalog.names| > MAX_SESSIONS }

  /** A generated name nobody has. */
  predicate FreshAt(s: Snap, generated: string, name: string) {
    generated != name && NoneNamed(s.raw, generated) && NoneShown(s.raw, NamesAt(s), generated)
  }

  /** Nobody who stays is shown differently; whoever is new has a new id. */
  predicate Kept(a: Snap, b: Snap) {
    forall k :: k in b.raw ==> if k in a.raw then VisibleAt(b, k) == VisibleAt(a, k) else k >= a.next
  }

  /** An attach by name reaches the session shown under it, or starts one that is shown under it. */
  ghost predicate Attached(a: Snap, name: string, action: Action, generated: string, r: Result<Id>, b: Snap) {
    && Kept(a, b)
    && (r.Ok? && r.value in b.raw ==> VisibleAt(b, r.value) == name)
    && (ValidName(name) && !TooManyAt(a) ==>
          forall k :: k in b.raw && k in a.raw && VisibleAt(a, k) == name ==> r == if action.Create? then Err(Exists) else Ok(k))
    && (a.still && ValidName(generated) ==>
          && b.still && (r.Ok? ==> r.value in b.raw)
          && if TooManyAt(a) then r == Err(NamesInvalid) else Answered(a.raw, NamesAt(a), name, action, r))
  }

  ghost predicate DidRename(a: Snap, id: Id, name: string, r: Result<()>, b: Snap) {
    && Part(b.raw, a.raw)
    && (r.Ok? && id in b.raw ==> VisibleAt(b, id) == name)
    && (forall k :: k in b.raw && (k != id || r.Err?) ==> VisibleAt(b, k) == VisibleAt(a, k))
    && (a.still ==>
        && b.still && b.raw == a.raw
        && r == if !ValidName(name) then Err(InvalidName) else if TooManyAt(a) then Err(NamesInvalid)
                else if !NoOther(a.raw, NamesAt(a), id, name) then Err(Exists)
                else if id !in a.raw then Err(NotFound) else Ok(()))
  }

  ghost predicate Did(a: Snap, step: Step, r: Report, b: Snap) {
    match step
    case Attaches(name, action, generated) =>
      if FreshAt(a, generated, name) then r.Opened? && Attached(a, name, action, generated, r.session, b) else r.Nothing? && b == a
    case AttachesId(id) =>
      && r.Opened? && Part(b.raw, a.raw) && Kept(a, b) && (r.session.Ok? ==> r.session.value == id)
      && (id in b.raw && !TooManyAt(a) ==> r.session == Ok(id))
      && (a.still ==> b.still && r.session == if id !in a.raw then Err(NotFound) else if TooManyAt(a) then Err(NamesInvalid) else Ok(id))
    case Renames(id, name) => r.Renamed? && DidRename(a, id, name, r.result, b)
    case Happens => r.Nothing? && Part(b.raw, a.raw) && Kept(a, b) && (a.still ==> b == a)
  }

  ghost predicate IsRun(steps: seq<Step>, moments: seq<Snap>, reports: seq<Report>) {
    && |moments| == |steps| + 1 && |reports| == |steps|
    && (forall i :: 0 <= i <= |steps| ==> Distinct(moments[i].raw, NamesAt(moments[i])))
    && forall i :: 0 <= i < |steps| ==> Did(moments[i], steps[i], reports[i], moments[i + 1])
  }

  lemma RunGrows(steps: seq<Step>, i: nat, moments: seq<Snap>, reports: seq<Report>, report: Report, moment: Snap)
    requires i < |steps| && IsRun(steps[..i], moments, reports) && Did(moments[i], steps[i], report, moment)
    requires Distinct(moment.raw, NamesAt(moment))
    ensures IsRun(steps[..i + 1], moments + [moment], reports + [report])
  {
    var longer, told := moments + [moment], reports + [report];
    forall k | 0 <= k <= i ensures Did(longer[k], steps[..i + 1][k], told[k], longer[k + 1]) {
      if k < i { assert Did(moments[k], steps[..i][k], reports[k], moments[k + 1]); }
    }
  }

  method DoAttach(root: Root, name: string, action: Action, generated: string) returns (report: Report)
    requires root.Valid()
    modifies root
    ensures root.Valid() && Did(old(root.Now()), Attaches(name, action, generated), report, root.Now())
  {
    if generated == name || exists k :: k in root.raw && (root.raw[k] == generated || root.Visible(k) == generated) {
      return Nothing;
    }
    assert FreshAt(root.Now(), generated, name);
    var r := AttachFresh(root, name, action, generated);
    report := Opened(r);
  }

  method AttachFresh(root: Root, name: string, action: Action, generated: string) returns (r: Result<Id>)
    requires root.Valid() && FreshAt(root.Now(), generated, name)
    modifies root
    ensures root.Valid() && Attached(old(root.Now()), name, action, generated, r, root.Now())
  {
    r := root.AttachNamed(name, action, generated);
  }

  method Do(root: Root, step: Step) returns (report: Report)
    requires root.Valid()
    modifies root
    ensures root.Valid() && Did(old(root.Now()), step, report, root.Now())
  {
    report := Nothing;
    match step
    case Attaches(name, action, generated) =>
      report := DoAttach(root, name, action, generated);
    case AttachesId(id) =>
      var r := root.AttachId(id);
      report := Opened(r);
    case Renames(id, name) =>
      var r := root.RenameLegacy(id, name);
      report := Renamed(r);
    case Happens =>
      root.Pause();
  }

  /** Any run of catalog-aware clients, one at a time under the names lock, with programs ending and engines
      being replaced between any two of their steps: at every moment visible names are distinct, and every
      answer is the one its step promises. */
  method Run(root: Root, steps: seq<Step>) returns (reports: seq<Report>, ghost moments: seq<Snap>)
    requires root.Valid()
    modifies root
    ensures root.Valid() && IsRun(steps, moments, reports)
    ensures moments[0] == old(root.Now()) && moments[|steps|] == root.Now()
  {
    reports, moments := [], [root.Now()];
    for i := 0 to |steps|
      invariant root.Valid() && IsRun(steps[..i], moments, reports)
      invariant moments[0] == old(root.Now()) && moments[i] == root.Now()
    {
      var report := Do(root, steps[i]);
      RunGrows(steps, i, moments, reports, report, root.Now());
      reports, moments := reports + [report], moments + [root.Now()];
    }
    assert steps[..|steps|] == steps;
  }

  /** Until it is renamed a session is shown under one name for as long as it lives, and an attach by that
      name reaches it. */
  lemma {:induction false} NameStays(steps: seq<Step>, moments: seq<Snap>, reports: seq<Report>, i: nat, j: nat, id: Id)
    requires IsRun(steps, moments, reports) && i <= j <= |steps|
    requires forall k :: i <= k <= j ==> id in moments[k].raw
    requires forall k :: i <= k < j ==> !(steps[k].Renames? && steps[k].id == id && reports[k].Renamed? && reports[k].result.Ok?)
    ensures VisibleAt(moments[j], id) == VisibleAt(moments[i], id)
    ensures j < |steps| && steps[j].Attaches? && steps[j].name == VisibleAt(moments[i], id) && reports[j].Opened?
            && id in moments[j + 1].raw && ValidName(steps[j].name) && !TooManyAt(moments[j])
            ==> reports[j].session == if steps[j].action.Create? then Err(Exists) else Ok(id)
    decreases j
  {
    if i < j {
      NameStays(steps, moments, reports, i, j - 1, id);
      assert Did(moments[j - 1], steps[j - 1], reports[j - 1], moments[j]);
    }
    if j < |steps| { assert Did(moments[j], steps[j], reports[j], moments[j + 1]); }
  }

  /** A client that does not know the catalog opens raw names. Its new session's visible name clashes
      with another's exactly when some live session is shown under the name it asked for. */
  lemma UnawareClientClashes(raw: Sessions, names: map<Id, string>, id: Id, name: string)
    requires Distinct(raw, names) && id !in raw && id !in names
    ensures Distinct(raw[id := name], names) <==> NoneShown(raw, names, name)
  {
    var more := raw[id := name];
    assert forall k :: k in raw ==> Shown(more, names, k) == Shown(raw, names, k);
    assert Shown(more, names, id) == name;
    if NoneShown(raw, names, name) { DistinctAdded(raw, names, id, name); }
  }
}
