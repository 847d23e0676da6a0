/** The record of live sessions that lets the next boot reopen them, kept in step with its file after every
    change, and trimmed to the newest entries. */
module Restore {
  import opened Prelude
  import opened Sizes
  import opened FreeName

  /** UUIDs, compared as the strings they are. */
  type Uuid = nat

  type Boot = string

  const MAX_ENTRIES := 32
  const MAX_AGE := 30 * 24 * 60 * 60

  datatype Entry = Entry(name: string, cwd: string, size: Size, boot: Boot, updated: int)

  type Entries = map<Uuid, Entry>

  datatype Content = Missing | Unreadable | Readable(entries: Entries)

  ghost predicate Injective(ids: nat -> Uuid) { forall i, j :: ids(i) == ids(j) ==> i == j }

  ghost function Drawn(ids: nat -> Uuid, n: nat): set<Uuid> { set i | 0 <= i < n :: ids(i) }

  /** What outlives a helper: the file, the clock, the source of UUIDs and the history of sessions. */
  class Machine {
    var file: Content
    var now: int
    const gap: nat -> nat
    var reads_: nat
    const ids: nat -> Uuid
    var drawn: nat
    /** Every UUID a session ever had, and those whose session has ended for good. */
    ghost var used: set<Uuid>
    ghost var gone: set<Uuid>

    constructor (gap: nat -> nat, ids: nat -> Uuid)
      requires Injective(ids)
      ensures AtRest(this) && file == Missing && used == {} && gone == {}
    {
      file, this.gap, this.ids := Missing, gap, ids;
      now, reads_, drawn := 0, 0, 0;
      used, gone := {}, {};
    }

    /** randomID: never the same twice. */
    method RandomId() returns (id: Uuid)
      requires AtRest(this)
      modifies `drawn, `used
      ensures AtRest(this) && id !in old(used) && used == old(used) + {id}
    {
      id := ids(drawn);
      assert id !in Drawn(ids, drawn);
      assert Drawn(ids, drawn + 1) == Drawn(ids, drawn) + {id};
      drawn := drawn + 1;
      used := used + {id};
    }

    /** Reading the clock: it has always moved on since the last time. */
    method Time() returns (t: int)
      modifies `now, `reads_
      ensures now == t > old(now)
    {
      now := now + 1 + gap(reads_);
      reads_ := reads_ + 1;
      t := now;
    }

    ghost function Stored(): Entries
      reads this
    {
      if file.Readable? then file.entries else map[]
    }
  }

  /** The order of sorted: newest first, UUIDs breaking ties. */
  predicate Before(u: Uuid, e: Entry, v: Uuid, f: Entry) { e.updated > f.updated || (e.updated == f.updated && u < v) }

  /** kept are the newest entries of all, as many as fit. */
  ghost predicate Newest(all: Entries, kept: Entries) {
    && kept.Keys <= all.Keys && (forall u :: u in kept ==> kept[u] == all[u])
    && |kept| == Min(|all|, MAX_ENTRIES)
    && forall u, v :: u in kept && v in all && v !in kept ==> Before(u, all[u], v, all[v])
  }

  method FirstOf(all: Entries, todo: set<Uuid>) returns (first: Uuid)
    requires todo <= all.Keys && todo != {}
    ensures first in todo && forall v :: v in todo && v != first ==> Before(first, all[first], v, all[v])
  {
    first :| first in todo;
    var left := todo - {first};
    while left != {}
      invariant left <= todo && first in todo && first !in left
      invariant forall v :: v in todo - left && v != first ==> Before(first, all[first], v, all[v])
      decreases |left|
    {
      var v :| v in left;
      left := left - {v};
      if Before(v, all[v], first, all[first]) { first := v; }
    }
  }

  predicate Ordered(all: Entries, list: seq<Uuid>) {
    && (forall i :: 0 <= i < |list| ==> list[i] in all)
    && forall i, j :: 0 <= i < j < |list| ==> list[i] != list[j] && Before(list[i], all[list[i]], list[j], all[list[j]])
  }

  /** sorted. */
  method Sorted(all: Entries) returns (list: seq<Uuid>)
    ensures Ordered(all, list) && |list| == |all| && forall u :: u in all <==> u in list
  {
    list := [];
    var todo := all.Keys;
    while todo != {}
      invariant todo <= all.Keys && Ordered(all, list) && |list| + |todo| == |all|
      invariant forall u :: u in all <==> u in todo || u in list
      invariant forall u, v :: u in list && v in todo ==> u != v && Before(u, all[u], v, all[v])
      decreases |todo|
    {
      var first := FirstOf(all, todo);
      todo := todo - {first};
      list := list + [first];
    }
  }

  predicate Listed(all: Entries, list: seq<Uuid>) {
    && (forall i :: 0 <= i < |list| ==> list[i] in all)
    && forall i, j :: 0 <= i < j < |list| ==> list[i] != list[j]
  }

  lemma AmongSnoc(all: Entries, list: seq<Uuid>, i: nat)
    requires Listed(all, list) && MAX_ENTRIES <= i < |list|
    ensures Among(list[MAX_ENTRIES..i + 1]) == Among(list[MAX_ENTRIES..i]) + {list[i]}
    ensures list[i] !in Among(list[MAX_ENTRIES..i])
  {
    assert list[MAX_ENTRIES..i + 1] == list[MAX_ENTRIES..i] + [list[i]];
  }

  lemma DropStep(all: Entries, list: seq<Uuid>, i: nat, kept: Entries)
    requires Listed(all, list) && MAX_ENTRIES <= i < |list| && kept == all - Among(list[MAX_ENTRIES..i])
    ensures kept - {list[i]} == all - Among(list[MAX_ENTRIES..i + 1])
    ensures |kept - {list[i]}| == |kept| - 1
  {
    AmongSnoc(all, list, i);
    RemoveOne(kept, list[i]);
  }

  method DropOldest(all: Entries, list: seq<Uuid>) returns (kept: Entries)
    requires Listed(all, list) && |list| == |all| > MAX_ENTRIES
    ensures kept == all - Among(list[MAX_ENTRIES..]) && |kept| == MAX_ENTRIES
  {
    kept := all;
    assert Among(list[MAX_ENTRIES..MAX_ENTRIES]) == {};
    for i := MAX_ENTRIES to |list|
      invariant |kept| == |all| - (i - MAX_ENTRIES)
      invariant kept == all - Among(list[MAX_ENTRIES..i])
    {
      DropStep(all, list, i, kept);
      kept := kept - {list[i]};
    }
    assert list[MAX_ENTRIES..|list|] == list[MAX_ENTRIES..];
  }

  lemma FirstBeforeLast(all: Entries, list: seq<Uuid>, u: Uuid, v: Uuid)
    requires Ordered(all, list) && |list| >= MAX_ENTRIES && u in list[..MAX_ENTRIES] && v in list[MAX_ENTRIES..]
    ensures Before(u, all[u], v, all[v])
  {
    var i :| 0 <= i < MAX_ENTRIES && list[..MAX_ENTRIES][i] == u;
    var j :| 0 <= j < |list| - MAX_ENTRIES && list[MAX_ENTRIES..][j] == v;
    assert list[i] == u && list[MAX_ENTRIES + j] == v;
  }

  lemma HeadOrTail(list: seq<Uuid>, u: Uuid)
    requires |list| >= MAX_ENTRIES && u in list
    ensures u in list[..MAX_ENTRIES] || u in list[MAX_ENTRIES..]
  {
    assert list == list[..MAX_ENTRIES] + list[MAX_ENTRIES..];
  }

  lemma TrimmedIsNewest(all: Entries, list: seq<Uuid>, kept: Entries)
    requires Ordered(all, list) && |list| == |all| > MAX_ENTRIES && forall u :: u in all <==> u in list
    requires kept == all - Among(list[MAX_ENTRIES..]) && |kept| == MAX_ENTRIES
    ensures Newest(all, kept)
  {
    forall u, v | u in kept && v in all && v !in kept ensures Before(u, all[u], v, all[v]) {
      HeadOrTail(list, u);
      FirstBeforeLast(all, list, u, v);
    }
  }

  /** trim: all but the newest entries are deleted. */
  method Trim(all: Entries) returns (kept: Entries, changed: bool)
    ensures Newest(all, kept) && (changed <==> |all| > MAX_ENTRIES)
    ensures |all| <= MAX_ENTRIES ==> kept == all
  {
    if |all| <= MAX_ENTRIES {
      return all, false;
    }
    var list := Sorted(all);
    kept := DropOldest(all, list);
    TrimmedIsNewest(all, list, kept);
    changed := true;
  }

  function Among(list: seq<Uuid>): set<Uuid> { set u | u in list }

  lemma RemoveOne(m: Entries, u: Uuid)
    requires u in m
    ensures |m - {u}| == |m| - 1
  {
    assert (m - {u}).Keys == m.Keys - {u};
  }

  ghost predicate Sane(entries: Entries, now: int, used: set<Uuid>, gone: set<Uuid>) {
    && |entries| <= MAX_ENTRIES
    && entries.Keys <= used && entries.Keys !! gone
    && forall u :: u in entries ==> entries[u].boot != "" && entries[u].updated <= now && ValidName(entries[u].name)
  }

  /** Between two helpers: the file holds what this code wrote, and nothing of a session that is gone. */
  ghost predicate AtRest(m: Machine)
    reads m
  {
    && Injective(m.ids) && m.used <= Drawn(m.ids, m.drawn)
    && m.gone <= m.used && Sane(m.Stored(), m.now, m.used, m.gone)
  }

  /** What a helper of a boot takes over from the file. */
  function TakenOver(stored: Entries, boot: Boot, now: int): Entries {
    map u | u in stored && ValidName(stored[u].name) && stored[u].boot != "" && stored[u].boot != boot
            && stored[u].updated >= now - MAX_AGE :: stored[u]
  }

  class RestoreStore {
    const machine: Machine
    const boot: Boot
    var entries: Entries
    /** When this helper opened the file: its own entries are newer, all others are not. */
    ghost const since: int

    ghost predicate Valid()
      reads this, machine
    {
      && boot != "" && since <= machine.now
      && AtRest(machine) && machine.Stored() == entries && !machine.file.Unreadable?
      && forall u :: u in entries ==> (entries[u].boot == boot <==> entries[u].updated > since)
    }

    constructor (machine: Machine, boot: Boot, entries: Entries)
      requires boot != "" && AtRest(machine) && machine.Stored() == entries && !machine.file.Unreadable?
      requires forall u :: u in entries ==> entries[u].boot != boot
      ensures Valid() && this.machine == machine && this.boot == boot && this.entries == entries && since == machine.now
    {
      this.machine, this.boot, this.entries, since := machine, boot, entries, machine.now;
    }

    /** saveLocked. */
    method Save()
      modifies machine`file
      ensures machine.file == Readable(entries)
    {
      machine.file := Readable(entries);
    }

    /** record. */
    method Record(uuid: Uuid, name: string, cwd: string, size: Size)
      requires Valid() && uuid in machine.used && uuid !in machine.gone && ValidName(name)
      modifies `entries, machine`file, machine`now, machine`reads_
      ensures Valid() && machine.now > old(machine.now)
      ensures Newest(old(entries)[uuid := Entry(name, cwd, size, boot, machine.now)], entries)
    {
      var now := machine.Time();
      var all := entries[uuid := Entry(name, cwd, size, boot, now)];
      var kept, _ := Trim(all);
      entries := kept;
      Save();
    }

    /** update: only an entry of this boot, and only if it changes. */
    method Update(uuid: Uuid, change: Entry -> Entry)
      requires Valid() && forall e :: change(e).boot == e.boot && (ValidName(e.name) ==> ValidName(change(e).name))
      modifies `entries, machine`file, machine`now, machine`reads_
      ensures Valid() && machine.now >= old(machine.now)
      ensures var e := old(entries);
        if uuid in e && e[uuid].boot == boot && change(e[uuid]) != e[uuid]
        then entries == e[uuid := change(e[uuid]).(updated := machine.now)] else entries == e
    {
      if uuid !in entries || entries[uuid].boot != boot {
        return;
      }
      var entry := change(entries[uuid]);
      if entry == entries[uuid] {
        return;
      }
      var now := machine.Time();
      entries := entries[uuid := entry.(updated := now)];
      Save();
    }

    /** forget. */
    method Forget(uuid: Uuid)
      requires Valid()
      modifies `entries, machine`file
      ensures Valid() && entries == old(entries) - {uuid}
    {
      if uuid !in entries {
        return;
      }
      RemoveOne(entries, uuid);
      entries := entries - {uuid};
      Save();
    }

    /** restorable. */
    function Restorable(uuid: Uuid): Option<Entry>
      reads this
    {
      if uuid in entries && entries[uuid].boot != "" && entries[uuid].boot != boot then Some(entries[uuid]) else None
    }

    /** restorableByName: the newest entry of an earlier boot with that name. */
    method RestorableByName(name: string) returns (found: Option<Uuid>)
      ensures found.Some? ==> found.value in entries && entries[found.value].name == name && entries[found.value].boot != boot
      ensures forall u :: u in entries && entries[u].name == name && entries[u].boot != boot ==>
        found.Some? && (u == found.value || Before(found.value, entries[found.value], u, entries[u]))
    {
      var list := Sorted(entries);
      for i := 0 to |list|
        invariant forall j :: 0 <= j < i ==> !(entries[list[j]].name == name && entries[list[j]].boot != boot)
      {
        if entries[list[i]].name == name && entries[list[i]].boot != boot {
          return Some(list[i]);
        }
      }
      found := None;
    }
  }

  /** openRestoreStore. */
  method OpenStore(machine: Machine, boot: Boot) returns (store: RestoreStore?)
    requires AtRest(machine)
    modifies machine`file, machine`now, machine`reads_
    ensures AtRest(machine) && machine.now >= old(machine.now)
    ensures (store == null) <==> boot == ""
    ensures store == null ==> machine.file == old(machine.file)
    ensures store != null ==> fresh(store) && store.Valid() && store.machine == machine && store.boot == boot
                              && store.entries == TakenOver(old(machine.Stored()), boot, machine.now)
  {
    if boot == "" {
      return null;
    }
    var entries: Entries, changed := map[], false;
    match machine.file {
      case Missing =>
      case Unreadable =>
        changed := true;
      case Readable(stored) =>
        var now := machine.Time();
        entries := TakenOver(stored, boot, now);
        SubsetSize(entries.Keys, stored.Keys);
        changed := entries != stored;
    }
    var kept, trimmed := Trim(entries);
    entries := kept;
    if trimmed || changed {
      machine.file := Readable(entries);
    }
    store := new RestoreStore(machine, boot, entries);
  }
}
