/** The two-tier ledger of commit details, and the budgeted passes it drives. */
module Ledger {
  import opened Prelude

  type Sha = string
  type Repo = string
  type Host = string

  const DEFAULT_PER_REPO_CAP: nat := 5000

  predicate Distinct<T(==)>(s: seq<T>) { forall i, j :: 0 <= i < j < |s| ==> s[i] != s[j] }

  // ---- a bounded set in insertion order ----

  /** order after adding sha: a known sha keeps its place, a new one goes last and the oldest give way. */
  function Added(order: seq<Sha>, sha: Sha, limit: nat): seq<Sha> {
    if sha in order then order
    else if |order| + 1 > limit then (order + [sha])[|order| + 1 - limit..]
    else order + [sha]
  }

  /** A known sha changes nothing; a new one comes last, and what gives way is older than all that stays. */
  lemma AddedKeepsNewest(order: seq<Sha>, sha: Sha, limit: nat)
    requires Bounded(order, limit) && limit > 0
    ensures var after := Added(order, sha, limit);
      && sha in after && Bounded(after, limit)
      && (sha in order ==> after == order)
      && (sha !in order ==> after[|after| - 1] == sha && |after| == Min(|order| + 1, limit))
      && (forall i, j :: 0 <= i < j < |order| && order[i] in after ==> order[j] in after)
      && (forall s :: s in after ==> s in order || s == sha)
  {
    var after := Added(order, sha, limit);
    AddedBounded(order, sha, limit);
    if sha !in order {
      var all, cut := order + [sha], Max(0, |order| + 1 - limit);
      assert after == all[cut..] && after[|after| - 1] == sha;
      forall i, j | 0 <= i < j < |order| && order[i] in after ensures order[j] in after {
        var k :| 0 <= k < |after| && after[k] == order[i];
        assert all[cut + k] == order[i] && order[i] in order && cut + k < |order|;
        assert order[cut + k] == order[i] && cut + k == i;
        assert after[j - cut] == all[j] == order[j];
      }
    }
  }

  function AddedAll(order: seq<Sha>, shas: seq<Sha>, limit: nat): seq<Sha> {
    if shas == [] then order else Added(AddedAll(order, shas[..|shas| - 1], limit), shas[|shas| - 1], limit)
  }

  lemma AddedAllSnoc(order: seq<Sha>, shas: seq<Sha>, sha: Sha, limit: nat)
    ensures AddedAll(order, shas + [sha], limit) == Added(AddedAll(order, shas, limit), sha, limit)
  {
    assert (shas + [sha])[..|shas|] == shas;
  }

  predicate Bounded(order: seq<Sha>, limit: nat) { Distinct(order) && |order| <= limit }

  lemma AddedBounded(order: seq<Sha>, sha: Sha, limit: nat)
    requires Bounded(order, limit)
    ensures Bounded(Added(order, sha, limit), limit)
  {}

  lemma {:induction false} AddedAllBounded(order: seq<Sha>, shas: seq<Sha>, limit: nat)
    requires Bounded(order, limit)
    ensures Bounded(AddedAll(order, shas, limit), limit)
  {
    if shas != [] {
      AddedAllBounded(order, shas[..|shas| - 1], limit);
      AddedBounded(AddedAll(order, shas[..|shas| - 1], limit), shas[|shas| - 1], limit);
    }
  }

  /** While there is room, new shas are simply appended. */
  lemma {:induction false} AddedAllFits(order: seq<Sha>, shas: seq<Sha>, limit: nat)
    requires Distinct(order + shas) && |order| + |shas| <= limit
    ensures AddedAll(order, shas, limit) == order + shas
  {
    if shas == [] {
      assert order + shas == order;
    } else {
      var n := |shas| - 1;
      assert (order + shas)[..|order| + n] == order + shas[..n];
      AddedAllFits(order, shas[..n], limit);
      assert forall i :: 0 <= i < |order| + n ==> (order + shas)[i] != (order + shas)[|order| + n];
      assert order + shas[..n] + [shas[n]] == order + shas;
    }
  }

  /** shaSet. */
  class ShaSet {
    var members: set<Sha>
    var order: seq<Sha>

    ghost predicate Valid()
      reads this
    {
      Distinct(order) && members == set s | s in order
    }

    constructor ()
      ensures Valid() && order == []
    {
      members, order := {}, [];
    }

    method Add(sha: Sha, limit: nat)
      requires Valid() && |order| <= limit
      modifies this
      ensures Valid() && order == Added(old(order), sha, limit)
    {
      if sha in members {
        return;
      }
      members, order := members + {sha}, order + [sha];
      ghost var all := order;
      while |order| > limit
        invariant Valid() && |order| <= |all| && order == all[|all| - |order|..]
        invariant |order| >= Min(limit, |all|)
      {
        members, order := members - {order[0]}, order[1..];
      }
    }
  }

  method ReadSet(shas: seq<Sha>, limit: nat) returns (loaded: ShaSet)
    ensures fresh(loaded) && loaded.Valid() && loaded.order == AddedAll([], shas, limit) && |loaded.order| <= limit
  {
    loaded := new ShaSet();
    for i := 0 to |shas|
      invariant fresh(loaded) && loaded.Valid() && |loaded.order| <= limit && loaded.order == AddedAll([], shas[..i], limit)
    {
      assert shas[..i + 1] == shas[..i] + [shas[i]];
      AddedAllSnoc([], shas[..i], shas[i], limit);
      AddedBounded(loaded.order, shas[i], limit);
      loaded.Add(shas[i], limit);
    }
    assert shas[..|shas|] == shas;
  }

  // ---- the ledger ----

  type Repos = map<Repo, seq<Sha>>

  /** The state directory: what was last saved for each host. A store that cannot be written stays as it is. */
  class Store {
    var files: map<Host, Repos>
    var writable: bool

    constructor (writable: bool)
      ensures files == map[] && this.writable == writable
    {
      files, this.writable := map[], writable;
    }

    method Load(host: Host) returns (repos: Repos)
      ensures repos == Loaded(host)
    {
      repos := Loaded(host);
    }

    function Loaded(host: Host): Repos
      reads this
    {
      if host in files then files[host] else map[]
    }

    method Save(host: Host, repos: Repos)
      modifies `files
      ensures files == if writable then old(files)[host := repos] else old(files)
    {
      if writable { files := files[host := repos]; }
    }
  }

  /** What is taken over of the repositories in keys. */
  ghost function LoadedLists(repos: Repos, keys: set<Repo>, limit: nat): Repos
    requires keys <= repos.Keys
  {
    map r | r in keys :: AddedAll([], repos[r], limit)
  }

  lemma OneMoreLoaded(repos: Repos, done: set<Repo>, r: Repo, limit: nat)
    requires done <= repos.Keys && r in repos && r !in done
    ensures LoadedLists(repos, done, limit)[r := AddedAll([], repos[r], limit)] == LoadedLists(repos, done + {r}, limit)
  {}

  ghost predicate Separate(a: map<Repo, ShaSet>) { forall r, q :: r in a && q in a && a[r] == a[q] ==> r == q }

  lemma Without(a: map<Repo, ShaSet>, repo: Repo)
    ensures (a - {repo}).Values <= a.Values
    ensures Separate(a) ==> Separate(a - {repo})
  {
    var b := a - {repo};
    forall s | s in b.Values ensures s in a.Values {
      var r :| r in b && b[r] == s;
      assert a[r] == s;
    }
  }

  lemma With(a: map<Repo, ShaSet>, repo: Repo, added: ShaSet)
    requires repo !in a && added !in a.Values
    ensures a[repo := added].Values == a.Values + {added}
    ensures Separate(a) ==> Separate(a[repo := added])
  {
    var b := a[repo := added];
    assert b[repo] == added;
    forall s | s in a.Values ensures s in b.Values {
      var r :| r in a && a[r] == s;
      assert b[r] == s;
    }
    forall r | r in a ensures b[r] in a.Values { assert b[r] == a[r]; }
  }

  class DetailLedger {
    var sent: map<Repo, ShaSet>
    var acked: map<Repo, ShaSet>
    var host: Host
    const perRepoCap: nat
    const store: Store?

    ghost function Sets(): set<ShaSet>
      reads this
    {
      sent.Values + acked.Values
    }

    ghost predicate Valid()
      reads this, Sets()
    {
      && perRepoCap > 0
      && Separate(sent) && Separate(acked) && sent.Values !! acked.Values
      && forall s :: s in Sets() ==> s.Valid() && |s.order| <= perRepoCap
    }

    /** What this process has produced for a repository, oldest first. */
    function SentOf(repo: Repo): seq<Sha>
      reads this, if repo in sent then {sent[repo]} else {}
    {
      if repo in sent then sent[repo].order else []
    }

    /** What the server has confirmed for a repository, oldest first. */
    function AckedOf(repo: Repo): seq<Sha>
      reads this, if repo in acked then {acked[repo]} else {}
    {
      if repo in acked then acked[repo].order else []
    }

    constructor (perRepoCap: int, store: Store?)
      ensures Valid() && fresh(Sets()) && this.store == store && host == ""
      ensures this.perRepoCap == if perRepoCap <= 0 then DEFAULT_PER_REPO_CAP else perRepoCap
      ensures sent == map[] && acked == map[]
    {
      sent, acked, host := map[], map[], "";
      this.perRepoCap := if perRepoCap <= 0 then DEFAULT_PER_REPO_CAP else perRepoCap;
      this.store := store;
    }

    method Has(repo: Repo, sha: Sha) returns (known: bool)
      requires Valid()
      ensures known <==> sha in SentOf(repo) || sha in AckedOf(repo)
    {
      known := (repo in sent && sha in sent[repo].members) || (repo in acked && sha in acked[repo].members);
    }

    method Record(repo: Repo, sha: Sha)
      requires Valid()
      modifies this, Sets()
      ensures Valid() && fresh(Sets() - old(Sets())) && host == old(host)
      ensures SentOf(repo) == Added(old(SentOf(repo)), sha, perRepoCap)
      ensures forall r :: r != repo ==> SentOf(r) == old(SentOf(r))
      ensures forall r :: AckedOf(r) == old(AckedOf(r))
    {
      if repo !in sent {
        var fresh_ := new ShaSet();
        sent := sent[repo := fresh_];
      }
      sent[repo].Add(sha, perRepoCap);
    }

    /** The acknowledged tier as it is written out. */
    function AckedLists(): Repos
      reads this, acked.Values
    {
      map r | r in acked :: acked[r].order
    }

    /** The disk holds exactly the acknowledged tier. */
    ghost predicate Saved()
      reads this, acked.Values, store
    {
      store != null && store.Loaded(host) == AckedLists()
    }

    method Persist()
      requires Valid()
      modifies if store != null then {store} else {}
      ensures store != null && host != "" && store.writable ==> Saved()
      ensures store != null ==> store.writable == old(store.writable)
      ensures store != null && (host == "" || !store.writable) ==> store.files == old(store.files)
    {
      if store == null || host == "" {
        return;
      }
      store.Save(host, AckedLists());
    }

    method AddAcked(repo: Repo, sha: Sha)
      requires Valid()
      modifies this, Sets()
      ensures Valid() && fresh(Sets() - old(Sets())) && host == old(host)
      ensures AckedOf(repo) == Added(old(AckedOf(repo)), sha, perRepoCap)
      ensures forall r :: r != repo ==> AckedOf(r) == old(AckedOf(r))
      ensures forall r :: SentOf(r) == old(SentOf(r))
    {
      if repo !in acked {
        var fresh_ := new ShaSet();
        acked := acked[repo := fresh_];
      }
      acked[repo].Add(sha, perRepoCap);
    }

    method Ack(repo: Repo, shas: seq<Sha>)
      requires Valid()
      modifies this, Sets(), if store != null then {store} else {}
      ensures Valid() && fresh(Sets() - old(Sets())) && host == old(host)
      ensures AckedOf(repo) == AddedAll(old(AckedOf(repo)), shas, perRepoCap)
      ensures forall r :: r != repo ==> AckedOf(r) == old(AckedOf(r))
      ensures forall r :: SentOf(r) == old(SentOf(r))
      ensures shas != [] && store != null && host != "" && store.writable ==> Saved()
    {
      if |shas| == 0 {
        return;
      }
      for i := 0 to |shas|
        invariant Valid() && fresh(Sets() - old(Sets())) && host == old(host)
        invariant AckedOf(repo) == AddedAll(old(AckedOf(repo)), shas[..i], perRepoCap)
        invariant forall r :: r != repo ==> AckedOf(r) == old(AckedOf(r))
        invariant forall r :: SentOf(r) == old(SentOf(r))
      {
        assert shas[..i + 1][..i] == shas[..i];
        AddAcked(repo, shas[i]);
      }
      assert shas[..|shas|] == shas;
      Persist();
    }

    method Forget(repo: Repo)
      requires Valid()
      modifies this, if store != null then {store} else {}
      ensures Valid() && Sets() <= old(Sets()) && host == old(host)
      ensures SentOf(repo) == [] && AckedOf(repo) == []
      ensures forall r :: r != repo ==> SentOf(r) == old(SentOf(r)) && AckedOf(r) == old(AckedOf(r))
      ensures store != null && host != "" && store.writable ==> Saved()
    {
      Without(sent, repo);
      Without(acked, repo);
      sent, acked := sent - {repo}, acked - {repo};
      Persist();
    }

    /** One repository's part of Adopt. */
    method LoadRepo(repo: Repo, shas: seq<Sha>)
      requires Valid() && repo !in acked
      modifies this
      ensures Valid() && host == old(host) && sent == old(sent)
      ensures fresh(acked.Values - old(acked.Values))
      ensures AckedLists() == old(AckedLists())[repo := AddedAll([], shas, perRepoCap)]
    {
      var loaded := ReadSet(shas, perRepoCap);
      With(acked, repo, loaded);
      acked := acked[repo := loaded];
    }

    /** Take over what a host's server acknowledged; the memory of another host is dropped. */
    method Adopt(newHost: Host)
      requires Valid()
      modifies this
      ensures Valid() && host == newHost && sent == old(sent) && fresh(Sets() - old(Sets()))
      ensures newHost == old(host) ==> acked == old(acked)
      ensures newHost != old(host) ==>
        var repos := if store == null then map[] else store.Loaded(newHost);
        AckedLists() == LoadedLists(repos, repos.Keys, perRepoCap)
    {
      if host == newHost {
        return;
      }
      host, acked := newHost, map[];
      if store == null {
        return;
      }
      var repos := store.Load(newHost);
      LoadAll(repos);
    }

    method LoadAll(repos: Repos)
      requires Valid() && acked == map[]
      modifies this
      ensures Valid() && host == old(host) && sent == old(sent) && fresh(acked.Values)
      ensures AckedLists() == LoadedLists(repos, repos.Keys, perRepoCap)
    {
      var todo := repos.Keys;
      while todo != {}
        invariant Valid() && host == old(host) && sent == old(sent) && todo <= repos.Keys && fresh(acked.Values)
        invariant AckedLists() == LoadedLists(repos, repos.Keys - todo, perRepoCap)
        decreases |todo|
      {
        var r :| r in todo;
        assert r !in AckedLists();
        LoadRepo(r, repos[r]);
        OneMoreLoaded(repos, repos.Keys - todo, r, perRepoCap);
        assert repos.Keys - (todo - {r}) == repos.Keys - todo + {r};
        todo := todo - {r};
      }
    }
  }

  /** A new process on the same state directory knows exactly what the server confirmed to the old one,
      and nothing the old one merely sent. */
  method Restart(before: DetailLedger) returns (after: DetailLedger)
    requires before.Valid() && before.Saved() && before.host != ""
    ensures after.Valid() && fresh(after)
    ensures forall r :: after.AckedOf(r) == before.AckedOf(r)
    ensures forall r :: after.SentOf(r) == []
  {
    after := new DetailLedger(before.perRepoCap, before.store);
    after.Adopt(before.host);
    ghost var was, now := before.AckedLists(), after.AckedLists();
    assert now == LoadedLists(was, was.Keys, before.perRepoCap);
    forall r ensures after.AckedOf(r) == before.AckedOf(r) {
      assert r in was <==> r in now;
      if r in was {
        assert before.acked[r] in before.Sets();
        assert [] + was[r] == was[r];
        AddedAllFits([], was[r], before.perRepoCap);
        assert now[r] == was[r];
      }
    }
  }

  // ---- passes ----

  /** The shas of a window that neither tier knows, in the window's order. */
  function Missing(window: seq<Sha>, sent: seq<Sha>, acked: seq<Sha>): (r: seq<Sha>)
    ensures |r| <= |window|
  {
    if window == [] then []
    else
      var last := window[|window| - 1];
      Missing(window[..|window| - 1], sent, acked) + if last !in sent && last !in acked then [last] else []
  }

  lemma {:induction false} MissingMembers(window: seq<Sha>, sent: seq<Sha>, acked: seq<Sha>)
    ensures forall s :: s in Missing(window, sent, acked) <==> s in window && s !in sent && s !in acked
    ensures Distinct(window) ==> Distinct(Missing(window, sent, acked))
  {
    if window != [] {
      var n := |window| - 1;
      assert window == window[..n] + [window[n]];
      MissingMembers(window[..n], sent, acked);
    }
  }

  function Spent(budget: int, missing: nat): (n: nat)
    ensures n <= missing
  {
    Min(Max(budget, 0), missing)
  }

  datatype Snapshot = Details(built: seq<Sha>, pending: nat) | Failure

  method FindMissing(ledger: DetailLedger, repo: Repo, window: seq<Sha>) returns (missing: seq<Sha>)
    requires ledger.Valid()
    ensures missing == Missing(window, ledger.SentOf(repo), ledger.AckedOf(repo))
  {
    missing := [];
    for i := 0 to |window|
      invariant missing == Missing(window[..i], ledger.SentOf(repo), ledger.AckedOf(repo))
    {
      assert window[..i + 1][..i] == window[..i];
      var known := ledger.Has(repo, window[i]);
      if !known { missing := missing + [window[i]]; }
    }
    assert window[..|window|] == window;
  }

  predicate NoneIn(shas: seq<Sha>, broken: set<Sha>) { forall i :: 0 <= i < |shas| ==> shas[i] !in broken }

  /** Build and record each sha up to the first broken one. */
  method BuildDetails(ledger: DetailLedger, repo: Repo, shas: seq<Sha>, broken: set<Sha>) returns (built: seq<Sha>)
    requires ledger.Valid()
    modifies ledger, ledger.Sets()
    ensures ledger.Valid() && fresh(ledger.Sets() - old(ledger.Sets()))
    ensures |built| <= |shas| && built == shas[..|built|] && NoneIn(built, broken)
    ensures |built| < |shas| ==> shas[|built|] in broken
    ensures ledger.SentOf(repo) == AddedAll(old(ledger.SentOf(repo)), built, ledger.perRepoCap)
    ensures forall r :: ledger.AckedOf(r) == old(ledger.AckedOf(r))
    ensures forall r :: r != repo ==> ledger.SentOf(r) == old(ledger.SentOf(r))
  {
    built := [];
    for i := 0 to |shas|
      invariant ledger.Valid() && fresh(ledger.Sets() - old(ledger.Sets()))
      invariant built == shas[..i] && NoneIn(built, broken)
      invariant ledger.SentOf(repo) == AddedAll(old(ledger.SentOf(repo)), built, ledger.perRepoCap)
      invariant forall r :: ledger.AckedOf(r) == old(ledger.AckedOf(r))
      invariant forall r :: r != repo ==> ledger.SentOf(r) == old(ledger.SentOf(r))
    {
      if shas[i] in broken {
        return;
      }
      AddedAllSnoc(old(ledger.SentOf(repo)), built, shas[i], ledger.perRepoCap);
      ledger.Record(repo, shas[i]);
      built := built + [shas[i]];
    }
  }

  /** A pass that stops at the first broken sha stops behind a first success exactly then. */
  lemma FailsBehind(due: seq<Sha>, n: nat, broken: set<Sha>)
    requires n <= |due| && NoneIn(due[..n], broken) && (n < |due| ==> due[n] in broken)
    ensures 0 < n < |due| <==> due != [] && due[0] !in broken && !NoneIn(due, broken)
    ensures n == |due| <==> NoneIn(due, broken)
  {
    assert forall i :: 0 <= i < n ==> due[..n][i] == due[i];
  }

  /** The detail part of collectRepo: the newest missing details within budget are built and recorded.
      broken are the shas whose patch cannot be read; the first one ends the pass without a result. */
  method CollectDetails(ledger: DetailLedger, repo: Repo, window: seq<Sha>, budget: int, broken: set<Sha>)
      returns (snapshot: Snapshot, ghost recorded: seq<Sha>)
    requires ledger.Valid()
    modifies ledger, ledger.Sets()
    ensures ledger.Valid() && fresh(ledger.Sets() - old(ledger.Sets()))
    ensures var missing := Missing(window, old(ledger.SentOf(repo)), old(ledger.AckedOf(repo)));
      var spent := Spent(budget, |missing|);
      && |recorded| <= spent && recorded == missing[..|recorded|]
      && (|recorded| == spent ==> snapshot == Details(recorded, |missing| - spent))
      && (|recorded| < spent ==> snapshot.Failure? && missing[|recorded|] in broken)
      && NoneIn(recorded, broken)
      && (snapshot.Failure? && recorded != [] <==>
            spent > 0 && missing[0] !in broken && !NoneIn(missing[..spent], broken))
    ensures ledger.SentOf(repo) == AddedAll(old(ledger.SentOf(repo)), recorded, ledger.perRepoCap)
    ensures forall r :: ledger.AckedOf(r) == old(ledger.AckedOf(r))
    ensures forall r :: r != repo ==> ledger.SentOf(r) == old(ledger.SentOf(r))
  {
    var missing := FindMissing(ledger, repo, window);
    var spent := Spent(budget, |missing|);
    var built := BuildDetails(ledger, repo, missing[..spent], broken);
    recorded := built;
    FailsBehind(missing[..spent], |built|, broken);
    snapshot := if |built| < spent then Failure else Details(built, |missing| - spent);
  }

  // ---- runs of passes over a window that does not change ----

  /** All that k passes record, one after another, and where they leave the memory tier. */
  datatype Run = Run(sent: seq<Sha>, built: seq<Sha>)

  function OnePass(before: Run, window: seq<Sha>, budget: int, limit: nat): Run {
    var missing := Missing(window, before.sent, []);
    var new_ := missing[..Spent(budget, |missing|)];
    Run(AddedAll(before.sent, new_, limit), before.built + new_)
  }

  function Passes(window: seq<Sha>, budget: int, limit: nat, k: nat): Run {
    if k == 0 then Run([], []) else OnePass(Passes(window, budget, limit, k - 1), window, budget, limit)
  }

  /** What snapshot k+1 reports as still missing. */
  function PendingAfter(window: seq<Sha>, budget: int, limit: nat, k: nat): nat {
    var missing := Missing(window, Passes(window, budget, limit, k).sent, []);
    |missing| - Spent(budget, |missing|)
  }

  lemma {:induction false} NoneMissing(window: seq<Sha>, sent: seq<Sha>)
    requires forall s :: s in window ==> s in sent
    ensures Missing(window, sent, []) == []
  {
    if window != [] {
      NoneMissing(window[..|window| - 1], sent);
      assert window[|window| - 1] in window;
    }
  }

  lemma {:induction false} MissingSuffix(window: seq<Sha>, n: nat, m: nat)
    requires Distinct(window) && n <= m <= |window|
    ensures Missing(window[..m], window[..n], []) == window[n..m]
    decreases m
  {
    if m == n {
      NoneMissing(window[..m], window[..n]);
    } else {
      MissingSuffix(window, n, m - 1);
      assert window[..m][..m - 1] == window[..m - 1];
      assert window[m - 1] !in window[..n];
      assert window[n..m] == window[n..m - 1] + [window[m - 1]];
    }
  }

  /** How far into the window k passes get. */
  function Reached(n: nat, budget: nat, k: nat): (r: nat)
    ensures r <= n
  {
    Min(n, k * budget)
  }

  lemma ReachedStep(n: nat, budget: nat, k: nat)
    ensures Reached(n, budget, k + 1) == Reached(n, budget, k) + Spent(budget, n - Reached(n, budget, k))
  {
    assert (k + 1) * budget == k * budget + budget;
  }

  lemma PassAt(before: Run, window: seq<Sha>, n: nat, budget: nat, limit: nat)
    requires Distinct(window) && n <= |window| <= limit && before == Run(window[..n], window[..n])
    ensures var m := n + Spent(budget, |window| - n);
      OnePass(before, window, budget, limit) == Run(window[..m], window[..m])
  {
    MissingAfter(window, n);
    var m := n + Spent(budget, |window| - n);
    var new_ := window[n..][..m - n];
    assert window[..n] + new_ == window[..m];
    AddedAllFits(window[..n], new_, limit);
  }

  /** With room for the window, k passes have built its first k * budget shas, each once. */
  lemma {:induction false} PassesWithinCap(window: seq<Sha>, budget: nat, limit: nat, k: nat)
    requires Distinct(window) && |window| <= limit
    ensures var n := Reached(|window|, budget, k);
      Passes(window, budget, limit, k) == Run(window[..n], window[..n])
  {
    if k == 0 {
      assert window[..0] == [];
    } else {
      PassesWithinCap(window, budget, limit, k - 1);
      ReachedStep(|window|, budget, k - 1);
      PassAt(Passes(window, budget, limit, k - 1), window, Reached(|window|, budget, k - 1), budget, limit);
    }
  }

  lemma PendingWithinCap(window: seq<Sha>, budget: nat, limit: nat, k: nat)
    requires Distinct(window) && |window| <= limit
    ensures PendingAfter(window, budget, limit, k) == |window| - Reached(|window|, budget, k + 1)
  {
    PassesWithinCap(window, budget, limit, k);
    ReachedStep(|window|, budget, k);
    MissingAfter(window, Reached(|window|, budget, k));
  }

  lemma MissingAfter(window: seq<Sha>, n: nat)
    requires Distinct(window) && n <= |window|
    ensures Missing(window, window[..n], []) == window[n..]
  {
    MissingSuffix(window, n, |window|);
    assert window[..|window|] == window;
  }

  /** The last of ceil(n / budget) passes leaves nothing pending, and no earlier one does. */
  lemma PendingReachesZero(window: seq<Sha>, budget: nat, limit: nat, k: nat)
    requires Distinct(window) && |window| <= limit && budget > 0
    ensures PendingAfter(window, budget, limit, k) == 0 <==> k + 1 >= (|window| + budget - 1) / budget
  {
    PendingWithinCap(window, budget, limit, k);
    CeilingReached(|window|, budget, k + 1);
  }

  lemma CeilingReached(n: nat, b: nat, k: nat)
    requires b > 0
    ensures k * b >= n <==> k >= (n + b - 1) / b
  {
    var c := (n + b - 1) / b;
    assert c * b + (n + b - 1) % b == n + b - 1;
    if k >= c {
      MultiplyOrder(c, k, b);
    } else {
      MultiplyOrder(k + 1, c, b);
      assert (k + 1) * b == k * b + b;
    }
  }

  lemma MultiplyOrder(a: nat, c: nat, b: nat)
    requires a <= c
    ensures a * b <= c * b
  {
    assert c * b == a * b + (c - a) * b;
  }

  /** What passes over a ledger that knows nothing of the repository do, when every patch can be read. */
  method CollectRun(ledger: DetailLedger, repo: Repo, window: seq<Sha>, budget: nat, k: nat)
      returns (built: seq<Sha>, pending: nat)
    requires ledger.Valid() && ledger.SentOf(repo) == [] && ledger.AckedOf(repo) == [] && k > 0
    modifies ledger, ledger.Sets()
    ensures ledger.Valid() && fresh(ledger.Sets() - old(ledger.Sets()))
    ensures built == Passes(window, budget, ledger.perRepoCap, k).built
    ensures pending == PendingAfter(window, budget, ledger.perRepoCap, k - 1)
  {
    built, pending := [], 0;
    for i := 0 to k
      invariant ledger.Valid() && fresh(ledger.Sets() - old(ledger.Sets())) && ledger.AckedOf(repo) == []
      invariant ledger.SentOf(repo) == Passes(window, budget, ledger.perRepoCap, i).sent
      invariant built == Passes(window, budget, ledger.perRepoCap, i).built
      invariant i > 0 ==> pending == PendingAfter(window, budget, ledger.perRepoCap, i - 1)
    {
      ghost var missing := Missing(window, ledger.SentOf(repo), []);
      var snapshot, recorded := CollectDetails(ledger, repo, window, budget, {});
      assert recorded == missing[..Spent(budget, |missing|)];
      built, pending := built + snapshot.built, snapshot.pending;
    }
  }

  // ---- a window over the cap ----

  predicate Within(s: seq<Sha>, window: seq<Sha>) { forall x :: x in s ==> x in window }

  lemma {:induction false} DistinctCount(s: seq<Sha>)
    requires Distinct(s)
    ensures |set x | x in s| == |s|
  {
    if s != [] {
      var n := |s| - 1;
      DistinctCount(s[..n]);
      assert s == s[..n] + [s[n]];
      assert (set x | x in s) == (set x | x in s[..n]) + {s[n]};
    }
  }

  /** Distinct shas of a window are no more than the window has. */
  lemma DistinctWithin(s: seq<Sha>, window: seq<Sha>)
    requires Distinct(s) && Distinct(window) && Within(s, window)
    ensures |s| <= |window|
  {
    DistinctCount(s);
    DistinctCount(window);
    SubsetSize(set x | x in s, set x | x in window);
  }

  lemma {:induction false} PassesStayWithin(window: seq<Sha>, budget: nat, limit: nat, k: nat)
    requires Distinct(window)
    ensures Within(Passes(window, budget, limit, k).built, window)
    ensures Bounded(Passes(window, budget, limit, k).sent, limit)
  {
    if k > 0 {
      PassesStayWithin(window, budget, limit, k - 1);
      var before := Passes(window, budget, limit, k - 1);
      var missing := Missing(window, before.sent, []);
      MissingMembers(window, before.sent, []);
      var fresh_ := missing[..Spent(budget, |missing|)];
      assert forall x :: x in fresh_ ==> x in missing;
      AddedAllBounded(before.sent, fresh_, limit);
    }
  }

  /** While the cap is smaller than the window something is always missing. */
  lemma SomethingMissing(window: seq<Sha>, sent: seq<Sha>, limit: nat)
    requires Distinct(window) && Bounded(sent, limit) && limit < |window|
    ensures Missing(window, sent, []) != []
  {
    MissingMembers(window, sent, []);
    if forall x :: x in window ==> x in sent {
      DistinctWithin(window, sent);
      assert false;
    }
    var x :| x in window && x !in sent;
    assert x in Missing(window, sent, []);
  }

  lemma {:induction false} PassesKeepBuilding(window: seq<Sha>, budget: nat, limit: nat, k: nat)
    requires Distinct(window) && limit < |window| && budget > 0
    ensures |Passes(window, budget, limit, k).built| >= k
  {
    if k > 0 {
      PassesKeepBuilding(window, budget, limit, k - 1);
      PassesStayWithin(window, budget, limit, k - 1);
      SomethingMissing(window, Passes(window, budget, limit, k - 1).sent, limit);
    }
  }

  /** No detail of an unchanging window is ever built twice exactly when the window fits the cap. */
  lemma BuiltOnceIffWithinCap(window: seq<Sha>, budget: nat, limit: nat)
    requires Distinct(window) && budget > 0
    ensures (forall k: nat :: Distinct(Passes(window, budget, limit, k).built)) <==> |window| <= limit
  {
    if |window| <= limit {
      forall k: nat ensures Distinct(Passes(window, budget, limit, k).built) {
        PassesWithinCap(window, budget, limit, k);
      }
    } else {
      var k := |window| + 1;
      PassesKeepBuilding(window, budget, limit, k);
      PassesStayWithin(window, budget, limit, k);
      if Distinct(Passes(window, budget, limit, k).built) {
        DistinctWithin(Passes(window, budget, limit, k).built, window);
        assert false;
      }
    }
  }

  // ---- passes that fail ----

  /** One pass: its window and budget, what the server confirmed since the pass before, and the shas whose
      patch cannot be read this time. */
  datatype Pass = Pass(window: seq<Sha>, budget: int, acks: seq<Sha>, broken: set<Sha>)

  /** Both tiers, all shas recorded as sent, and all whose details were in a snapshot. */
  datatype Totals = Totals(sent: seq<Sha>, acked: seq<Sha>, recorded: seq<Sha>, delivered: seq<Sha>)

  /** How many shas come before the first broken one. */
  function Unbroken(shas: seq<Sha>, broken: set<Sha>): (n: nat)
    ensures n <= |shas| && NoneIn(shas[..n], broken) && (n < |shas| ==> shas[n] in broken)
  {
    if shas == [] || shas[0] in broken then 0
    else
      assert shas[1..][..Unbroken(shas[1..], broken)] == shas[..1 + Unbroken(shas[1..], broken)][1..];
      1 + Unbroken(shas[1..], broken)
  }

  /** The shas a pass is to build, and those it builds and records. */
  function Due(before: Totals, p: Pass, limit: nat): seq<Sha> {
    var missing := Missing(p.window, before.sent, AddedAll(before.acked, p.acks, limit));
    missing[..Spent(p.budget, |missing|)]
  }

  function Got(before: Totals, p: Pass, limit: nat): (r: seq<Sha>)
    ensures |r| <= |Due(before, p, limit)|
  {
    Due(before, p, limit)[..Unbroken(Due(before, p, limit), p.broken)]
  }

  /** The pass fails behind a first success. */
  predicate CutShort(before: Totals, p: Pass, limit: nat) { 0 < |Got(before, p, limit)| < |Due(before, p, limit)| }

  function PassOver(before: Totals, p: Pass, limit: nat): Totals {
    var got := Got(before, p, limit);
    Totals(AddedAll(before.sent, got, limit), AddedAll(before.acked, p.acks, limit), before.recorded + got,
           before.delivered + if |got| == |Due(before, p, limit)| then got else [])
  }

  function AfterPasses(passes: seq<Pass>, limit: nat): Totals {
    if passes == [] then Totals([], [], [], [])
    else PassOver(AfterPasses(passes[..|passes| - 1], limit), passes[|passes| - 1], limit)
  }

  /** A pass is cut short exactly when the first sha due can be read and another one due cannot. */
  lemma CutShortIff(before: Totals, p: Pass, limit: nat)
    ensures var due := Due(before, p, limit);
      CutShort(before, p, limit) <==> due != [] && due[0] !in p.broken && !NoneIn(due, p.broken)
  {
    FailsBehind(Due(before, p, limit), Unbroken(Due(before, p, limit), p.broken), p.broken);
  }

  /** All shas of all windows are among the distinct shas all, which the cap holds. */
  predicate Fits(passes: seq<Pass>, all: seq<Sha>, limit: nat) {
    && Distinct(all) && |all| <= limit
    && forall i :: 0 <= i < |passes| ==> Distinct(passes[i].window) && Within(passes[i].window, all)
  }

  predicate Told(t: Totals, all: seq<Sha>) {
    && t.sent == t.recorded && Distinct(t.recorded) && Within(t.recorded, all)
    && Distinct(t.delivered) && Within(t.delivered, t.recorded)
  }

  lemma DistinctConcat(a: seq<Sha>, b: seq<Sha>)
    requires Distinct(a) && Distinct(b) && forall x :: x in b ==> x !in a
    ensures Distinct(a + b)
  {
    forall i, j | 0 <= i < j < |a + b| ensures (a + b)[i] != (a + b)[j] {
      if i < |a| <= j { assert b[j - |a|] !in a && a[i] in a; }
    }
  }

  lemma PassKeepsTold(t: Totals, p: Pass, all: seq<Sha>, limit: nat)
    requires Told(t, all) && Fits([p], all, limit)
    ensures Told(PassOver(t, p, limit), all)
    ensures forall s :: s in Got(t, p, limit) ==> s !in t.recorded
  {
    var acked, got := AddedAll(t.acked, p.acks, limit), Got(t, p, limit);
    assert [p][0] == p;
    MissingMembers(p.window, t.sent, acked);
    assert forall s :: s in got ==> s in Missing(p.window, t.sent, acked);
    DistinctConcat(t.recorded, got);
    DistinctWithin(t.recorded + got, all);
    AddedAllFits(t.sent, got, limit);
    DistinctConcat(t.delivered, got);
  }

  lemma {:induction false} AlwaysTold(passes: seq<Pass>, all: seq<Sha>, limit: nat)
    requires Fits(passes, all, limit)
    ensures Told(AfterPasses(passes, limit), all)
  {
    if passes != [] {
      var n := |passes| - 1;
      AlwaysTold(passes[..n], all, limit);
      PassKeepsTold(AfterPasses(passes[..n], limit), passes[n], all, limit);
    }
  }

  /** Pass i of the run is cut short after it has recorded s. */
  predicate Hides(passes: seq<Pass>, limit: nat, i: nat, s: Sha)
    requires i < |passes|
  {
    var before := AfterPasses(passes[..i], limit);
    CutShort(before, passes[i], limit) && s in Got(before, passes[i], limit)
  }

  lemma HidingGrows(passes: seq<Pass>, limit: nat, s: Sha)
    requires passes != []
    ensures var n := |passes| - 1;
      (exists i :: 0 <= i <= n && Hides(passes, limit, i, s))
      <==> (exists i :: 0 <= i < n && Hides(passes[..n], limit, i, s)) || Hides(passes, limit, n, s)
  {
    var n := |passes| - 1;
    forall i | 0 <= i < n ensures Hides(passes[..n], limit, i, s) == Hides(passes, limit, i, s) {
      assert passes[..n][..i] == passes[..i];
    }
  }

  lemma OnePassHides(before: Totals, p: Pass, all: seq<Sha>, limit: nat, s: Sha)
    requires Told(before, all) && Fits([p], all, limit)
    ensures var after := PassOver(before, p, limit);
      s in after.recorded && s !in after.delivered
      <==> (s in before.recorded && s !in before.delivered) || (CutShort(before, p, limit) && s in Got(before, p, limit))
  {
    PassKeepsTold(before, p, all, limit);
  }

  /** A pass that is cut short has delivered nothing, yet later passes skip what it had recorded: a detail
      is recorded and in no snapshot of any number of passes exactly if such a pass recorded it. */
  lemma {:induction false} FailedPassHidesDetails(passes: seq<Pass>, all: seq<Sha>, limit: nat, s: Sha)
    requires Fits(passes, all, limit)
    ensures var t := AfterPasses(passes, limit);
      s in t.recorded && s !in t.delivered <==> exists i :: 0 <= i < |passes| && Hides(passes, limit, i, s)
  {
    if passes != [] {
      var n := |passes| - 1;
      var before := AfterPasses(passes[..n], limit);
      FailedPassHidesDetails(passes[..n], all, limit, s);
      AlwaysTold(passes[..n], all, limit);
      OnePassHides(before, passes[n], all, limit, s);
      HidingGrows(passes, limit, s);
    }
  }

  /** Over any passes every recorded detail was in exactly one snapshot if and only if no pass was cut short. */
  lemma DeliveredOnceIffNoneCutShort(passes: seq<Pass>, all: seq<Sha>, limit: nat)
    requires Fits(passes, all, limit)
    ensures var t := AfterPasses(passes, limit);
      (forall s :: s in t.recorded ==> multiset(t.delivered)[s] == 1)
      <==> forall i :: 0 <= i < |passes| ==> !CutShort(AfterPasses(passes[..i], limit), passes[i], limit)
  {
    var t := AfterPasses(passes, limit);
    AlwaysTold(passes, all, limit);
    forall s ensures multiset(t.delivered)[s] == if s in t.delivered then 1 else 0 { CountDistinct(t.delivered, s); }
    if i :| 0 <= i < |passes| && CutShort(AfterPasses(passes[..i], limit), passes[i], limit) {
      var s := Got(AfterPasses(passes[..i], limit), passes[i], limit)[0];
      assert Hides(passes, limit, i, s);
      FailedPassHidesDetails(passes, all, limit, s);
    } else {
      forall s | s in t.recorded ensures s in t.delivered { FailedPassHidesDetails(passes, all, limit, s); }
    }
  }

  lemma {:induction false} CountDistinct(shas: seq<Sha>, s: Sha)
    requires Distinct(shas)
    ensures multiset(shas)[s] == if s in shas then 1 else 0
  {
    if shas != [] {
      var n := |shas| - 1;
      assert shas == shas[..n] + [shas[n]];
      CountDistinct(shas[..n], s);
    }
  }

  /** The details in a row of snapshots. */
  function Delivered(snapshots: seq<Snapshot>): seq<Sha> {
    if snapshots == [] then []
    else
      var last := snapshots[|snapshots| - 1];
      Delivered(snapshots[..|snapshots| - 1]) + if last.Details? then last.built else []
  }

  /** What passes over a ledger that knows nothing of the repository record and deliver. */
  method CollectPasses(ledger: DetailLedger, repo: Repo, passes: seq<Pass>) returns (snapshots: seq<Snapshot>, ghost recorded: seq<Sha>)
    requires ledger.Valid() && ledger.SentOf(repo) == [] && ledger.AckedOf(repo) == []
    modifies ledger, ledger.Sets(), if ledger.store != null then {ledger.store} else {}
    ensures ledger.Valid() && |snapshots| == |passes|
    ensures var t := AfterPasses(passes, ledger.perRepoCap);
      recorded == t.recorded && Delivered(snapshots) == t.delivered
      && ledger.SentOf(repo) == t.sent && ledger.AckedOf(repo) == t.acked
  {
    snapshots, recorded := [], [];
    for n := 0 to |passes|
      invariant ledger.Valid() && fresh(ledger.Sets() - old(ledger.Sets())) && |snapshots| == n
      invariant var t := AfterPasses(passes[..n], ledger.perRepoCap);
        recorded == t.recorded && Delivered(snapshots) == t.delivered
        && ledger.SentOf(repo) == t.sent && ledger.AckedOf(repo) == t.acked
    {
      assert passes[..n + 1][..n] == passes[..n];
      ghost var before := AfterPasses(passes[..n], ledger.perRepoCap);
      var p := passes[n];
      var snapshot, got := CollectNext(ledger, repo, before, p);
      snapshots, recorded := snapshots + [snapshot], recorded + got;
      assert snapshots[..n] + [snapshot] == snapshots;
    }
    assert passes[..|passes|] == passes;
  }

  method CollectNext(ledger: DetailLedger, repo: Repo, ghost before: Totals, p: Pass) returns (snapshot: Snapshot, ghost got: seq<Sha>)
    requires ledger.Valid() && ledger.SentOf(repo) == before.sent && ledger.AckedOf(repo) == before.acked
    modifies ledger, ledger.Sets(), if ledger.store != null then {ledger.store} else {}
    ensures ledger.Valid() && fresh(ledger.Sets() - old(ledger.Sets()))
    ensures got == Got(before, p, ledger.perRepoCap)
    ensures ledger.SentOf(repo) == PassOver(before, p, ledger.perRepoCap).sent
    ensures ledger.AckedOf(repo) == PassOver(before, p, ledger.perRepoCap).acked
    ensures snapshot.Details? <==> |got| == |Due(before, p, ledger.perRepoCap)|
    ensures snapshot.Details? ==> snapshot.built == got
  {
    ledger.Ack(repo, p.acks);
    snapshot, got := CollectDetails(ledger, repo, p.window, p.budget, p.broken);
    GotIs(before, p, ledger.perRepoCap, got);
  }

  lemma GotIs(before: Totals, p: Pass, limit: nat, got: seq<Sha>)
    requires var due := Due(before, p, limit);
      |got| <= |due| && got == due[..|got|] && NoneIn(got, p.broken) && (|got| < |due| ==> due[|got|] in p.broken)
    ensures got == Got(before, p, limit)
  {
    var due := Due(before, p, limit);
    FailsBehind(due, |got|, p.broken);
    assert forall i :: 0 <= i < |got| ==> got[i] == due[i];
  }
}
