/** Making an engine that sizes a screen to its largest viewer follow the viewer in use. */
module Sizing {
  import opened Prelude
  import opened Sizes
  import Semver

  type SessionId = string
  type TermId = string

  /** The first engine that sizes a screen to the viewer in use. */
  const SIZING_ENGINE_VERSION := "0.1.38"

  /** The engine does not size to the viewer in use: it is older, or its version says nothing. */
  predicate Legacy(version: string) {
    var newer := Semver.CompareSpec(SIZING_ENGINE_VERSION, version);
    newer.None? || newer.value > 0
  }

  lemma FirstVersion()
    ensures Semver.ParseSpec(SIZING_ENGINE_VERSION) == Some(Semver.Version(0, 1, 38, [], []))
  {
    var v := Semver.Version(0, 1, 38, [], []);
    assert Semver.Decimal(0) == "0" && Semver.Decimal(1) == "1" && Semver.Decimal(3) == "3";
    assert Semver.Decimal(38) == Semver.Decimal(3) + "8";
    assert Semver.Print(v) == SIZING_ENGINE_VERSION;
    Semver.ParseOfPrint(v);
  }

  method LegacySizing(version: string) returns (legacy: bool)
    ensures legacy == Legacy(version)
    ensures legacy <==> Semver.ParseSpec(version).None?
                        || Semver.Lower(Semver.ParseSpec(version).value, Semver.Version(0, 1, 38, [], []))
  {
    FirstVersion();
    var newer := Semver.CompareStrings(SIZING_ENGINE_VERSION, version);
    legacy := newer.None? || newer.value > 0;
  }

  function ClampSize(size: Size, limit: Size): (r: Size)
    ensures Covers(limit, r) && Covers(size, r) && (Covers(limit, size) ==> r == size)
  {
    Size(Min(size.cols, limit.cols), Min(size.rows, limit.rows))
  }

  /** A viewer's connection to the engine of its session, and the size it attached with; the serial of
      the open that made it tells connections apart. */
  datatype Attachment = Attachment(serial: nat, session: SessionId, version: string, asked: Size)

  /** Reading a missing key of a size map gives the zero size. */
  function At(sizes: map<Attachment, Size>, a: Attachment): Size { if a in sizes then sizes[a] else Size(0, 0) }

  datatype Resize = Resize(attachment: Attachment, size: Size)

  /** What the engines know after being told resizes. */
  function Told(known: map<Attachment, Size>, resizes: seq<Resize>): map<Attachment, Size> {
    if resizes == [] then known
    else
      var last := resizes[|resizes| - 1];
      Told(known, resizes[..|resizes| - 1])[last.attachment := last.size]
  }

  lemma ToldSnoc(known: map<Attachment, Size>, resizes: seq<Resize>, r: Resize)
    ensures Told(known, resizes + [r]) == Told(known, resizes)[r.attachment := r.size]
  {
    assert (resizes + [r])[..|resizes|] == resizes;
  }

  lemma ToldOne(known: map<Attachment, Size>, r: Resize)
    ensures Told(known, [r]) == known[r.attachment := r.size]
  {
    assert [r][..0] == [];
  }

  lemma NewValue<K, V>(values: set<V>, m: map<K, V>, k: K, v: V)
    requires k !in m && values == m.Values
    ensures m[k := v].Values == values + {v}
  {
    forall w | w in values + {v} ensures w in m[k := v].Values {
      if w in values {
        var x :| x in m && m[x] == w;
        assert m[k := v][x] == w;
      } else {
        assert m[k := v][k] == v;
      }
    }
  }

  /** The size a new viewer is first reported at when active is the viewer in use of its session. */
  function FirstFit(b: Books, a: Attachment, legacy: bool): Size {
    if a.session in b.active && b.active[a.session] != a && legacy
    then ClampSize(a.asked, At(b.sizes, b.active[a.session])) else a.asked
  }

  // ---- the bookkeeping, as a value ----

  /** The viewers nativeOpened has seen; those in the table; their own sizes, and the sizes they are reported
      at; the viewer in use of each session; and what the engines were last told, by an attach or a resize. */
  datatype Books = Books(
    joined: set<Attachment>, live: set<Attachment>, sizes: map<Attachment, Size>, sent: map<Attachment, Size>,
    active: map<SessionId, Attachment>, known: map<Attachment, Size>)

  /** The viewers of a session's screen. */
  ghost function Viewers(b: Books, session: SessionId): set<Attachment> {
    set a | a in b.joined && a in b.live && a.session == session
  }

  /** Nothing else is changed for other viewers than o. */
  ghost predicate SameBut(before: map<Attachment, Size>, after: map<Attachment, Size>, o: Attachment) {
    forall x :: x != o ==> At(after, x) == At(before, x)
  }

  /** The engines were told the new size of every viewer whose reported size changed, and no other. */
  ghost predicate ToldChanges(sent: map<Attachment, Size>, sent': map<Attachment, Size>,
                              known: map<Attachment, Size>, known': map<Attachment, Size>) {
    forall o :: At(known', o) == if At(sent', o) != At(sent, o) then At(sent', o) else At(known, o)
  }

  function ChangeTold(sent: map<Attachment, Size>, sent': map<Attachment, Size>, o: Attachment): seq<Resize> {
    if At(sent', o) != At(sent, o) then [Resize(o, At(sent', o))] else []
  }

  lemma ChangeIsTold(known: map<Attachment, Size>, sent: map<Attachment, Size>, sent': map<Attachment, Size>,
                     before: seq<Resize>, o: Attachment)
    requires SameBut(sent, sent', o)
    ensures ToldChanges(sent, sent', Told(known, before), Told(known, before + ChangeTold(sent, sent', o)))
  {
    if At(sent', o) != At(sent, o) {
      ToldSnoc(known, before, Resize(o, At(sent', o)));
    } else {
      assert before + [] == before;
    }
  }

  /** What nativeOpened makes of the bookkeeping. */
  ghost function Joined(b: Books, a: Attachment, legacy: bool): Books {
    var fit := FirstFit(b, a, legacy);
    b.(joined := b.joined + {a}, sizes := b.sizes[a := a.asked], sent := b.sent[a := fit],
       known := if fit != a.asked then b.known[a := fit] else b.known)
  }

  /** The other viewers of a's session, which a use by a may clamp. */
  ghost predicate Other(b: Books, o: Attachment, a: Attachment) { o in b.live && o != a && o.session == a.session }

  /** What nativeUse of viewer a, with its new size if it brings one, does on a legacy engine: a is reported
      at its own size and the others no larger, and the engine is told what changed, and a new size anyway. */
  ghost predicate Used(b: Books, a: Attachment, size: Option<Size>, c: Books) {
    && c.joined == b.joined && c.live == b.live && c.active == b.active[a.session := a]
    && c.sizes == (if size.Some? then b.sizes[a := size.value] else b.sizes)
    && var own := At(c.sizes, a);
    && (forall o :: At(c.sent, o) == if o == a then own else if Other(b, o, a) then ClampSize(At(c.sizes, o), own) else At(b.sent, o))
    && (forall o :: At(c.known, o) ==
          if At(c.sent, o) != At(b.sent, o) || (o == a && size.Some?) then At(c.sent, o) else At(b.known, o))
  }

  /** A resize of a viewer of a newer engine is recorded and told. */
  ghost function Resized(b: Books, a: Attachment, size: Size): Books {
    b.(sizes := b.sizes[a := size], sent := b.sent[a := size], known := b.known[a := size])
  }

  /** What nativeReleased does: when a was in use, the others of its session get their own sizes back. */
  ghost predicate Left(b: Books, a: Attachment, c: Books) {
    var last := a.session in b.active && b.active[a.session] == a;
    && c.joined == b.joined - {a} && c.live == b.live && c.sizes == b.sizes - {a}
    && c.active == (if last then b.active - {a.session} else b.active)
    && (forall o :: o != a ==> At(c.sent, o) == if last && Other(b, o, a) then At(b.sizes, o) else At(b.sent, o))
    && (forall o :: o != a ==> At(c.known, o) == if At(c.sent, o) != At(b.sent, o) then At(c.sent, o) else At(b.known, o))
  }

  // ---- when an old engine's screen is the newer rule's ----

  ghost function Only(sizes: map<Attachment, Size>, viewers: set<Attachment>): map<Attachment, Size> {
    map a | a in viewers :: At(sizes, a)
  }

  function InUse(b: Books, session: SessionId): Option<Attachment> {
    if session in b.active then Some(b.active[session]) else None
  }

  /** An engine that sizes the session's screen to the largest size it was told of a viewer gives it the size
      the newer rule gives it: the own size of the viewer in use, or the largest own size when nobody is. */
  ghost predicate FollowsRule(b: Books, session: SessionId) {
    var viewers := Viewers(b, session);
    forall screen ::
      Largest(AllDimensions(Only(b.known, viewers)), screen) <==>
      Rule(AllDimensions(Only(b.sizes, viewers)), InUse(b, session), screen)
  }

  /** The engine takes viewer a to be of the size a is reported at. */
  predicate InStep(b: Books, a: Attachment) { Dimensions(At(b.known, a)) == Dimensions(At(b.sent, a)) }

  /** The viewers the engine was last told another size of than the bookkeeping says. */
  ghost function OutOfStep(b: Books, session: SessionId): set<Attachment> {
    set a | a in Viewers(b, session) && !InStep(b, a)
  }

  /** The viewer in use is reported at its own size and nobody larger; with nobody in use everyone at the own size. */
  ghost predicate Covered(b: Books, session: SessionId) {
    if session in b.active then
      var a := b.active[session];
      && a.session == session && Dimensions(At(b.sent, a)) == Dimensions(At(b.sizes, a))
      && forall o :: o in Viewers(b, session) ==> Covers(Dimensions(At(b.sizes, a)), Dimensions(At(b.sent, o)))
    else
      forall o :: o in Viewers(b, session) ==> Dimensions(At(b.sent, o)) == Dimensions(At(b.sizes, o))
  }

  ghost predicate Sound(b: Books, session: SessionId) { OutOfStep(b, session) == {} && Covered(b, session) }

  /** A viewer that nativeOpened has not seen: once it was resized, the engine knows what was sent. */
  ghost predicate WaitingOk(b: Books, a: Attachment) { a in b.sizes ==> At(b.known, a) == At(b.sent, a) }

  ghost predicate Waiting(b: Books) { forall a :: a !in b.joined ==> WaitingOk(b, a) }

  /** A sound session's screen follows the rule; the viewer in use may be on its way out only between
      leaving the table and nativeReleased. */
  lemma SoundFollowsRule(b: Books, session: SessionId)
    requires Sound(b, session)
    requires session in b.active ==> b.active[session] in Viewers(b, session)
    ensures FollowsRule(b, session)
  {
    var viewers := Viewers(b, session);
    var told := AllDimensions(Only(b.known, viewers));
    forall o | o in viewers ensures told[o] == Dimensions(At(b.sent, o)) { assert o !in OutOfStep(b, session); }
    if session in b.active {
      forall screen ensures Largest(told, screen) <==> screen == told[b.active[session]] {
        CoveringIsLargest(told, b.active[session], screen);
      }
    } else {
      assert told == AllDimensions(Only(b.sizes, viewers));
    }
  }

  // ---- what keeps a session sound ----

  lemma UsedIsSound(b: Books, a: Attachment, size: Option<Size>, c: Books, session: SessionId)
    requires Used(b, a, size, c)
    ensures session == a.session ==> Covered(c, session)
    ensures session != a.session && Covered(b, session) ==> Covered(c, session)
    ensures OutOfStep(c, session) <= OutOfStep(b, session) - (if size.Some? then {a} else {})
  {
    assert Viewers(c, session) == Viewers(b, session);
    if session == a.session {
      UsedIsCovered(b, a, size, c);
    } else if session in b.active && b.active[session].session == session {
      assert !Other(b, b.active[session], a) && b.active[session] != a;
    }
  }

  lemma UsedIsCovered(b: Books, a: Attachment, size: Option<Size>, c: Books)
    requires Used(b, a, size, c)
    ensures Covered(c, a.session)
  {
    forall o | o in Viewers(c, a.session) ensures Covers(Dimensions(At(c.sizes, a)), Dimensions(At(c.sent, o))) {
      assert o == a || Other(b, o, a);
    }
  }

  lemma ResizedIsSound(b: Books, a: Attachment, size: Size, session: SessionId)
    requires a.session !in b.active
    ensures Covered(b, session) ==> Covered(Resized(b, a, size), session)
    ensures OutOfStep(Resized(b, a, size), session) <= OutOfStep(b, session) - {a}
  {
    assert Viewers(Resized(b, a, size), session) == Viewers(b, session);
  }

  lemma LeftIsSound(b: Books, a: Attachment, c: Books, session: SessionId)
    requires Left(b, a, c) && a !in b.live
    ensures Covered(b, session) ==> Covered(c, session)
    ensures OutOfStep(c, session) <= OutOfStep(b, session)
  {
    assert a !in Viewers(b, session) && Viewers(c, session) == Viewers(b, session);
    forall o | o in Viewers(b, session) ensures InStep(b, o) ==> InStep(c, o) { assert o != a; }
    if session == a.session && session in b.active && b.active[session] == a {
      forall o | o in Viewers(c, session) ensures At(c.sent, o) == At(c.sizes, o) { assert Other(b, o, a); }
    } else {
      forall o | o in Viewers(b, session) ensures At(c.sent, o) == At(b.sent, o) && At(c.sizes, o) == At(b.sizes, o) {}
    }
  }

  /** Joining keeps a session sound if the engine takes the viewer to be of the size it asked for, or is told. */
  lemma JoinedIsSound(b: Books, a: Attachment, legacy: bool, session: SessionId)
    requires a !in b.joined && Sound(b, session) && WaitingOk(b, a) && (a.session in b.active ==> legacy)
    requires session == a.session ==>
      FirstFit(b, a, legacy) != a.asked || Dimensions(At(b.known, a)) == Dimensions(a.asked)
    ensures Sound(Joined(b, a, legacy), session)
  {
    JoinedViewers(b, a, legacy, session);
    JoinedInStep(b, a, legacy, session);
    if session in b.active { JoinedIsCovered(b, a, legacy, session); } else { JoinedIsOwn(b, a, legacy, session); }
  }

  lemma JoinedViewers(b: Books, a: Attachment, legacy: bool, session: SessionId)
    ensures Viewers(Joined(b, a, legacy), session) == Viewers(b, session) + (if a in b.live && a.session == session then {a} else {})
  {}

  lemma JoinedInStep(b: Books, a: Attachment, legacy: bool, session: SessionId)
    requires a !in b.joined && OutOfStep(b, session) == {}
    requires session == a.session ==>
      FirstFit(b, a, legacy) != a.asked || Dimensions(At(b.known, a)) == Dimensions(a.asked)
    ensures OutOfStep(Joined(b, a, legacy), session) == {}
  {
    var c := Joined(b, a, legacy);
    JoinedViewers(b, a, legacy, session);
    forall o | o in Viewers(c, session) ensures InStep(c, o) { if o != a { assert o !in OutOfStep(b, session); } }
  }

  lemma JoinedIsOwn(b: Books, a: Attachment, legacy: bool, session: SessionId)
    requires a !in b.joined && session !in b.active && Covered(b, session)
    ensures Covered(Joined(b, a, legacy), session)
  {
    JoinedViewers(b, a, legacy, session);
    forall o | o in Viewers(b, session) ensures Dimensions(At(b.sent, o)) == Dimensions(At(b.sizes, o)) {}
  }

  lemma JoinedIsCovered(b: Books, a: Attachment, legacy: bool, session: SessionId)
    requires a !in b.joined && session in b.active && Covered(b, session) && WaitingOk(b, a) && (a.session == session ==> legacy)
    requires session == a.session ==>
      FirstFit(b, a, legacy) != a.asked || Dimensions(At(b.known, a)) == Dimensions(a.asked)
    requires Viewers(Joined(b, a, legacy), session)
      == Viewers(b, session) + (if a in b.live && a.session == session then {a} else {})
    ensures Covered(Joined(b, a, legacy), session)
  {
    var c, u := Joined(b, a, legacy), b.active[session];
    assert Covers(Dimensions(At(c.sizes, u)), Dimensions(At(b.sizes, u)));
    forall o | o in Viewers(c, session) ensures Covers(Dimensions(At(c.sizes, u)), Dimensions(At(c.sent, o))) {
      if o != a { assert Covers(Dimensions(At(b.sizes, u)), Dimensions(At(b.sent, o))); }
    }
  }

  lemma UsedKeepsWaiting(b: Books, a: Attachment, size: Option<Size>, c: Books)
    requires Used(b, a, size, c) && Waiting(b)
    ensures Waiting(c)
  {
    forall o | o !in c.joined ensures WaitingOk(c, o) { assert WaitingOk(b, o); }
  }

  lemma LeftKeepsWaiting(b: Books, a: Attachment, c: Books)
    requires Left(b, a, c) && Waiting(b)
    ensures Waiting(c)
  {
    forall o | o !in c.joined ensures WaitingOk(c, o) { if o != a { assert WaitingOk(b, o); } }
  }

  lemma JoinedKeepsWaiting(b: Books, a: Attachment, legacy: bool)
    requires Waiting(b)
    ensures Waiting(Joined(b, a, legacy))
  {
    forall o | o !in Joined(b, a, legacy).joined ensures WaitingOk(Joined(b, a, legacy), o) { assert WaitingOk(b, o); }
  }

  lemma RegisteredKeepsWaiting(b: Books, a: Attachment, c: Books)
    requires Registered(b, a, c) && Waiting(b)
    ensures Waiting(c)
  {
    forall o | o !in c.joined ensures WaitingOk(c, o) { assert WaitingOk(b, o); }
  }

  lemma UnregisteredKeepsWaiting(b: Books, c: Books)
    requires Unregistered(b, c) && Waiting(b)
    ensures Waiting(c)
  {
    forall o | o !in c.joined ensures WaitingOk(c, o) { assert WaitingOk(b, o); }
  }

  lemma ResizedKeepsWaiting(b: Books, a: Attachment, size: Size)
    requires Waiting(b)
    ensures Waiting(Resized(b, a, size))
  {
    forall o | o !in b.joined ensures WaitingOk(Resized(b, a, size), o) { assert WaitingOk(b, o); }
  }

  // ---- what arrived between registering a viewer and nativeOpened ----

  /** Some viewer of the session other than a is at least that wide, or that high. */
  ghost predicate Wider(b: Books, session: SessionId, cols: int) {
    exists o :: o in Viewers(b, session) && Dimensions(At(b.sizes, o)).cols >= cols
  }

  ghost predicate Higher(b: Books, session: SessionId, rows: int) {
    exists o :: o in Viewers(b, session) && Dimensions(At(b.sizes, o)).rows >= rows
  }

  /** What the engine was last told of a before nativeOpened sees it makes no difference: it is the size a
      attached with, nativeOpened corrects it, or another viewer's size hides the difference. */
  ghost predicate Harmless(b: Books, a: Attachment, legacy: bool) {
    var told, asked := Dimensions(At(b.known, a)), Dimensions(a.asked);
    || told == asked || FirstFit(b, a, legacy) != a.asked
    || if a.session in b.active
       then b.active[a.session] != a && Covers(Dimensions(At(b.sizes, b.active[a.session])), told)
       else (told.cols == asked.cols || Wider(b, a.session, Max(told.cols, asked.cols)))
            && (told.rows == asked.rows || Higher(b, a.session, Max(told.rows, asked.rows)))
  }

  /** nativeOpened leaves the session's screen following the rule exactly when what arrived before was harmless. */
  lemma OpenedFollowsRuleIff(b: Books, a: Attachment, legacy: bool)
    requires a !in b.joined && a in b.live && Sound(b, a.session) && WaitingOk(b, a)
    requires a.session in b.active ==> legacy && (b.active[a.session] == a || b.active[a.session] in Viewers(b, a.session))
    ensures FollowsRule(Joined(b, a, legacy), a.session) <==> Harmless(b, a, legacy)
  {
    var s, c := a.session, Joined(b, a, legacy);
    var told, asked := Dimensions(At(b.known, a)), Dimensions(a.asked);
    assert Viewers(c, s) == Viewers(b, s) + {a};
    if told == asked || FirstFit(b, a, legacy) != a.asked {
      JoinedIsSound(b, a, legacy, s);
      SoundFollowsRule(c, s);
    } else {
      forall o | o in Viewers(b, s) ensures InStep(b, o) && At(c.known, o) == At(b.known, o) { assert o !in OutOfStep(b, s); }
      if s in b.active && b.active[s] == a { OpenedInUse(b, a, legacy); }
      else if s in b.active { OpenedBeside(b, a, legacy); }
      else { OpenedUnused(b, a, legacy); }
    }
  }

  /** The new viewer is itself the one in use, and was told of at another size. */
  lemma OpenedInUse(b: Books, a: Attachment, legacy: bool)
    requires a !in b.joined && a in b.live && Sound(b, a.session) && WaitingOk(b, a)
    requires a.session in b.active && b.active[a.session] == a
    requires Dimensions(At(b.known, a)) != Dimensions(a.asked)
    requires forall o :: o in Viewers(b, a.session) ==> InStep(b, o)
    requires Viewers(Joined(b, a, legacy), a.session) == Viewers(b, a.session) + {a}
    ensures !FollowsRule(Joined(b, a, legacy), a.session)
  {
    var c := Joined(b, a, legacy);
    var known := AllDimensions(Only(c.known, Viewers(c, a.session)));
    forall o | o in known ensures Covers(known[a], known[o]) {}
    CoveringIsLargest(known, a, known[a]);
    assert Largest(known, known[a]);
    assert !Rule(AllDimensions(Only(c.sizes, Viewers(c, a.session))), InUse(c, a.session), known[a]);
  }

  /** Another viewer is in use, and the new one attached with a size within its. */
  lemma OpenedBeside(b: Books, a: Attachment, legacy: bool)
    requires a !in b.joined && a in b.live && Sound(b, a.session) && legacy
    requires a.session in b.active && b.active[a.session] != a && b.active[a.session] in Viewers(b, a.session)
    requires FirstFit(b, a, legacy) == a.asked
    requires forall o :: o in Viewers(b, a.session) ==> InStep(b, o)
    requires Viewers(Joined(b, a, legacy), a.session) == Viewers(b, a.session) + {a}
    ensures FollowsRule(Joined(b, a, legacy), a.session)
            <==> Covers(Dimensions(At(b.sizes, b.active[a.session])), Dimensions(At(b.known, a)))
  {
    var c, u := Joined(b, a, legacy), b.active[a.session];
    var known := AllDimensions(Only(c.known, Viewers(c, a.session)));
    if Covers(known[u], known[a]) {
      forall o | o in known ensures Covers(known[u], known[o]) {}
      forall screen ensures Largest(known, screen) <==> screen == known[u] { CoveringIsLargest(known, u, screen); }
    } else {
      assert Rule(AllDimensions(Only(c.sizes, Viewers(c, a.session))), InUse(c, a.session), known[u]);
      assert !Largest(known, known[u]);
    }
  }

  /** Nobody is in use. */
  lemma OpenedUnused(b: Books, a: Attachment, legacy: bool)
    requires a !in b.joined && a in b.live && Sound(b, a.session) && a.session !in b.active
    requires forall o :: o in Viewers(b, a.session) ==> InStep(b, o)
    requires Viewers(Joined(b, a, legacy), a.session) == Viewers(b, a.session) + {a}
    ensures FollowsRule(Joined(b, a, legacy), a.session) <==>
      var told, asked := Dimensions(At(b.known, a)), Dimensions(a.asked);
      && (told.cols == asked.cols || Wider(b, a.session, Max(told.cols, asked.cols)))
      && (told.rows == asked.rows || Higher(b, a.session, Max(told.rows, asked.rows)))
  {
    var c, s := Joined(b, a, legacy), a.session;
    var own, told := AllDimensions(Only(c.sizes, Viewers(c, s))), Dimensions(At(b.known, a));
    assert own[a] == Dimensions(a.asked);
    KnownIsOwn(b, a, legacy);
    OneChanged(own, a, told);
    OthersAre(b, c, a, Max(told.cols, own[a].cols), Max(told.rows, own[a].rows));
  }

  lemma KnownIsOwn(b: Books, a: Attachment, legacy: bool)
    requires a !in b.joined && a.session !in b.active && Covered(b, a.session)
    requires forall o :: o in Viewers(b, a.session) ==> InStep(b, o)
    requires Viewers(Joined(b, a, legacy), a.session) == Viewers(b, a.session) + {a}
    ensures var c, s := Joined(b, a, legacy), a.session;
      AllDimensions(Only(c.known, Viewers(c, s))) == AllDimensions(Only(c.sizes, Viewers(c, s)))[a := Dimensions(At(b.known, a))]
  {
    var c, s := Joined(b, a, legacy), a.session;
    var known, own := AllDimensions(Only(c.known, Viewers(c, s))), AllDimensions(Only(c.sizes, Viewers(c, s)));
    forall o | o in own && o != a ensures known[o] == own[o] { OwnIsKnown(b, o); }
    ChangedAt(known, own, a, Dimensions(At(b.known, a)));
  }

  lemma OwnIsKnown(b: Books, o: Attachment)
    requires o.session !in b.active && Covered(b, o.session) && o in Viewers(b, o.session) && InStep(b, o)
    ensures Dimensions(At(b.known, o)) == Dimensions(At(b.sizes, o))
  {}

  lemma ChangedAt<K, V>(known: map<K, V>, own: map<K, V>, a: K, told: V)
    requires known.Keys == own.Keys && a in own && known[a] == told && forall o :: o in own && o != a ==> known[o] == own[o]
    ensures known == own[a := told]
  {}

  lemma OthersAre(b: Books, c: Books, a: Attachment, cols: int, rows: int)
    requires Viewers(c, a.session) == Viewers(b, a.session) + {a} && a !in Viewers(b, a.session)
    requires SameBut(b.sizes, c.sizes, a)
    ensures var own := AllDimensions(Only(c.sizes, Viewers(c, a.session)));
      && (Wide(own, a, cols) <==> Wider(b, a.session, cols)) && (High(own, a, rows) <==> Higher(b, a.session, rows))
  {
    var s, own := a.session, AllDimensions(Only(c.sizes, Viewers(c, a.session)));
    forall o | o in Viewers(b, s) ensures o in own && o != a && own[o] == Dimensions(At(b.sizes, o)) {}
    if Wide(own, a, cols) {
      var o :| o in own && o != a && own[o].cols >= cols;
      assert o in Viewers(b, s);
    }
    if High(own, a, rows) {
      var o :| o in own && o != a && own[o].rows >= rows;
      assert o in Viewers(b, s);
    }
  }

  class Manager {
    var native: map<TermId, Attachment>
    var nativeSizes: map<Attachment, Size>
    var nativeSent: map<Attachment, Size>
    var nativeActive: map<SessionId, Attachment>
    /** What each viewer's engine was last told, by its attach or a resize. */
    var reported: map<Attachment, Size>
    /** The version of the engine that runs each session, and which versions are legacy. */
    const versions: SessionId -> string
    const legacy: string -> bool
    var openSerial: nat
    /** The viewers whose connections are between nativeOpened and nativeReleased. */
    var joined: set<Attachment>

    ghost function Now(): Books
      reads this
    {
      Books(joined, native.Values, nativeSizes, nativeSent, nativeActive, reported)
    }

    ghost predicate Valid()
      reads this
    {
      && (forall a :: a in joined + native.Values ==> a.version == versions(a.session))
      && (forall s :: s in nativeActive ==> legacy(versions(s)) && nativeActive[s].session == s)
      && Waiting(Now())
      && (forall a :: a in joined + native.Values + nativeSizes.Keys + nativeActive.Values ==> a.serial <= openSerial)
      && (forall a: Attachment :: a.serial > openSerial ==> At(nativeSent, a) == Size(0, 0))
    }

    constructor (versions: SessionId -> string)
      ensures Valid() && native == map[] && this.versions == versions && legacy == Legacy
      ensures Now() == Books({}, {}, map[], map[], map[], map[])
    {
      native, nativeSizes, nativeSent, nativeActive, reported := map[], map[], map[], map[], map[];
      this.versions, legacy := versions, Legacy;
      openSerial, joined := 0, {};
    }

    method SendResizes(resizes: seq<Resize>)
      modifies `reported
      ensures reported == Told(old(reported), resizes)
    {
      for i := 0 to |resizes|
        invariant reported == Told(old(reported), resizes[..i])
      {
        assert resizes[..i + 1] == resizes[..i] + [resizes[i]];
        ToldSnoc(old(reported), resizes[..i], resizes[i]);
        reported := reported[resizes[i].attachment := resizes[i].size];
      }
      assert resizes[..|resizes|] == resizes;
    }

    /** The part of openNative that attaches and registers a viewer. */
    method Register(termId: TermId, session: SessionId, size: Size) returns (a: Attachment)
      requires Valid() && termId !in native
      modifies `native, `reported, `openSerial
      ensures Valid() && openSerial == old(openSerial) + 1 && a == Attachment(openSerial, session, versions(session), size)
      ensures native == old(native)[termId := a] && Registered(old(Now()), a, Now())
      ensures forall s :: s in nativeActive ==> nativeActive[s] != a
    {
      openSerial := openSerial + 1;
      a := Attachment(openSerial, session, versions(session), size);
      ghost var before := Now();
      native, reported := native[termId := a], reported[a := size];
      NewValue(before.live, old(native), termId, a);
      RegisteredKeepsWaiting(before, a, Now());
    }

    /** The size a new viewer is first reported at. */
    ghost function First(a: Attachment): Size
      reads this
    {
      FirstFit(Now(), a, legacy(a.version))
    }

    method RecordNew(a: Attachment) returns (resizes: seq<Resize>)
      requires a.session in nativeActive ==> nativeActive[a.session].session == a.session
      modifies `nativeSizes, `nativeSent
      ensures nativeSizes == old(nativeSizes)[a := a.asked]
      ensures nativeSent == old(nativeSent)[a := old(First(a))]
      ensures resizes == if old(First(a)) != a.asked then [Resize(a, old(First(a)))] else []
    {
      var size := a.asked;
      nativeSizes := nativeSizes[a := size];
      nativeSent := nativeSent[a := size];
      resizes := [];
      if a.session in nativeActive && nativeActive[a.session] != a && legacy(a.version) {
        var fit := ClampSize(size, At(nativeSizes, nativeActive[a.session]));
        if fit != size {
          nativeSent := nativeSent[a := fit];
          resizes := resizes + [Resize(a, fit)];
        }
      }
    }

    /** nativeOpened, with the size the viewer attached with. */
    method Opened(a: Attachment)
      requires Valid() && a !in joined && a.version == versions(a.session) && a.serial <= openSerial
      modifies `nativeSizes, `nativeSent, `reported, `joined
      ensures Valid() && Now() == Joined(old(Now()), a, legacy(a.version))
    {
      ghost var before := Now();
      Join(a);
      JoinedKeepsWaiting(before, a, legacy(a.version));
    }

    method Join(a: Attachment)
      requires a.session in nativeActive ==> nativeActive[a.session].session == a.session
      modifies `nativeSizes, `nativeSent, `reported, `joined
      ensures Now() == Joined(old(Now()), a, legacy(a.version))
    {
      ghost var fit := First(a);
      var resizes := RecordNew(a);
      joined := joined + {a};
      ToldOne(reported, Resize(a, fit));
      SendResizes(resizes);
    }

    /** One round of the loop of nativeUse. */
    method ClampOne(other: Attachment, a: Attachment, own: Size) returns (told: seq<Resize>)
      modifies `nativeSent
      ensures SameBut(old(nativeSent), nativeSent, other)
      ensures At(nativeSent, other) == if other != a && other.session == a.session && legacy(other.version)
                                       then ClampSize(At(nativeSizes, other), own) else At(old(nativeSent), other)
      ensures told == ChangeTold(old(nativeSent), nativeSent, other)
    {
      told := [];
      if other == a || other.session != a.session || !legacy(other.version) {
        return;
      }
      var fit := ClampSize(At(nativeSizes, other), own);
      if fit != At(nativeSent, other) {
        nativeSent := nativeSent[other := fit];
        told := [Resize(other, fit)];
      }
    }

    /** The loop of nativeUse. */
    method ClampOthers(a: Attachment, own: Size, first: seq<Resize>) returns (resizes: seq<Resize>)
      requires forall o :: o in native.Values ==> o.version == versions(o.session)
      requires a in native.Values && legacy(a.version)
      modifies `nativeSent
      ensures forall o :: At(nativeSent, o) == if Other(Now(), o, a) then ClampSize(At(nativeSizes, o), own) else At(old(nativeSent), o)
      ensures ToldChanges(old(nativeSent), nativeSent, Told(reported, first), Told(reported, resizes))
    {
      resizes := first;
      var todo := native.Values;
      while todo != {}
        invariant todo <= native.Values
        invariant forall o ::
          At(nativeSent, o) == if Other(Now(), o, a) && o !in todo then ClampSize(At(nativeSizes, o), own) else At(old(nativeSent), o)
        invariant ToldChanges(old(nativeSent), nativeSent, Told(reported, first), Told(reported, resizes))
        decreases |todo|
      {
        var other :| other in todo;
        todo := todo - {other};
        ghost var sent := nativeSent;
        var told := ClampOne(other, a, own);
        ChangeIsTold(reported, sent, nativeSent, resizes, other);
        resizes := resizes + told;
      }
    }

    /** nativeUse for a viewer of a legacy engine, up to its loop. */
    method UseOwn(a: Attachment, size: Option<Size>) returns (own: Size, resizes: seq<Resize>)
      modifies `nativeSizes, `nativeSent, `nativeActive
      ensures nativeSizes == if size.Some? then old(nativeSizes)[a := size.value] else old(nativeSizes)
      ensures nativeActive == old(nativeActive)[a.session := a]
      ensures own == At(nativeSizes, a) == At(nativeSent, a) && SameBut(old(nativeSent), nativeSent, a)
      ensures SameBut(reported, Told(reported, resizes), a)
      ensures At(Told(reported, resizes), a) == if own != At(old(nativeSent), a) || size.Some? then own else At(reported, a)
    {
      if size.Some? {
        nativeSizes := nativeSizes[a := size.value];
      }
      nativeActive := nativeActive[a.session := a];
      own := At(nativeSizes, a);
      resizes := [];
      if At(nativeSent, a) != own || size.Some? {
        nativeSent := nativeSent[a := own];
        ToldOne(reported, Resize(a, own));
        resizes := [Resize(a, own)];
      }
    }

    method UseAndClamp(a: Attachment, size: Option<Size>)
      requires forall o :: o in native.Values ==> o.version == versions(o.session)
      requires a in native.Values && legacy(a.version)
      modifies `nativeSizes, `nativeSent, `nativeActive, `reported
      ensures Used(old(Now()), a, size, Now())
    {
      var own, first := UseOwn(a, size);
      var resizes := ClampOthers(a, own, first);
      SendResizes(resizes);
    }

    /** nativeUse for a viewer of a legacy engine. */
    method UseLegacy(a: Attachment, size: Option<Size>)
      requires Valid() && a in native.Values && legacy(a.version)
      modifies `nativeSizes, `nativeSent, `nativeActive, `reported
      ensures Valid() && Used(old(Now()), a, size, Now())
    {
      ghost var before := Now();
      UseAndClamp(a, size);
      UsedKeepsWaiting(before, a, size, Now());
    }

    /** nativeUse. When it returns true the caller still sends the viewer's own resize. */
    method Use(termId: TermId, size: Option<Size>) returns (send: bool)
      requires Valid()
      modifies `nativeSizes, `nativeSent, `nativeActive, `reported
      ensures send <==> size.Some? && (termId !in native || !legacy(native[termId].version))
      ensures termId !in native ==> Valid() && Now() == old(Now())
      ensures termId in native && legacy(native[termId].version) ==> Valid() && Used(old(Now()), native[termId], size, Now())
      ensures termId in native && !legacy(native[termId].version) ==>
        if size.None? then Valid() && Now() == old(Now())
        else Now() == Resized(old(Now()), native[termId], size.value).(known := old(reported))
    {
      if termId !in native {
        return size.Some?;
      }
      var a := native[termId];
      if legacy(a.version) {
        UseLegacy(a, size);
        return false;
      }
      if size.Some? {
        nativeSizes := nativeSizes[a := size.value];
        nativeSent := nativeSent[a := size.value];
      }
      return size.Some?;
    }

    /** A resize frame from the browser. */
    method HandleResize(termId: TermId, size: Size)
      requires Valid() && termId in native
      modifies `nativeSizes, `nativeSent, `nativeActive, `reported
      ensures Valid() && At(reported, native[termId]) == At(nativeSizes, native[termId]) == size
      ensures if legacy(native[termId].version) then Used(old(Now()), native[termId], Some(size), Now())
              else Now() == Resized(old(Now()), native[termId], size)
    {
      var send := Use(termId, Some(size));
      if send {
        reported := reported[native[termId] := size];
        ResizedKeepsWaiting(old(Now()), native[termId], size);
      }
    }

    /** A viewer leaves the table: its pane closed, its connection ended, or the socket dropped. */
    method Unregister(termId: TermId)
      requires Valid()
      modifies `native
      ensures Valid() && native == old(native) - {termId} && Unregistered(old(Now()), Now())
    {
      ghost var before := Now();
      native := native - {termId};
      forall a | a in native.Values ensures a in old(native.Values) {
        var t :| t in native && native[t] == a;
        assert old(native)[t] == a;
      }
      UnregisteredKeepsWaiting(before, Now());
    }

    method RestoreOne(other: Attachment) returns (told: seq<Resize>)
      modifies `nativeSent
      ensures At(nativeSent, other) == At(nativeSizes, other) && SameBut(old(nativeSent), nativeSent, other)
      ensures told == ChangeTold(old(nativeSent), nativeSent, other)
    {
      told := [];
      var own := At(nativeSizes, other);
      if At(nativeSent, other) != own {
        nativeSent := nativeSent[other := own];
        told := [Resize(other, own)];
      }
    }

    /** The loop of nativeReleased: the other viewers of the session get their own sizes back. */
    method RestoreOthers(session: SessionId) returns (resizes: seq<Resize>)
      modifies `nativeSent
      ensures forall o ::
        At(nativeSent, o) == if o in native.Values && o.session == session then At(nativeSizes, o) else At(old(nativeSent), o)
      ensures ToldChanges(old(nativeSent), nativeSent, reported, Told(reported, resizes))
    {
      resizes := [];
      var todo := native.Values;
      while todo != {}
        invariant todo <= native.Values
        invariant forall o ::
          At(nativeSent, o) ==
            if o in native.Values && o.session == session && o !in todo then At(nativeSizes, o) else At(old(nativeSent), o)
        invariant ToldChanges(old(nativeSent), nativeSent, reported, Told(reported, resizes))
        decreases |todo|
      {
        var other :| other in todo;
        todo := todo - {other};
        if other.session == session {
          ghost var sent := nativeSent;
          var told := RestoreOne(other);
          ChangeIsTold(reported, sent, nativeSent, resizes, other);
          resizes := resizes + told;
        }
      }
    }

    method Forget(a: Attachment)
      modifies `nativeSizes, `nativeSent, `joined
      ensures joined == old(joined) - {a} && nativeSizes == old(nativeSizes) - {a}
      ensures SameBut(old(nativeSent), nativeSent, a) && SameBut(old(nativeSizes), nativeSizes, a)
    {
      joined := joined - {a};
      nativeSizes := nativeSizes - {a};
      nativeSent := nativeSent - {a};
    }

    /** nativeReleased for the viewer in use, once it is forgotten. */
    method GiveBack(session: SessionId)
      modifies `nativeSent, `nativeActive, `reported
      ensures nativeActive == old(nativeActive) - {session}
      ensures forall o ::
        At(nativeSent, o) == if o in native.Values && o.session == session then At(nativeSizes, o) else At(old(nativeSent), o)
      ensures ToldChanges(old(nativeSent), nativeSent, old(reported), reported)
    {
      nativeActive := nativeActive - {session};
      var resizes := RestoreOthers(session);
      SendResizes(resizes);
    }

    /** nativeReleased. */
    method Released(a: Attachment)
      requires Valid() && a in joined && a !in native.Values
      modifies `nativeSizes, `nativeSent, `nativeActive, `reported, `joined
      ensures Valid() && Left(old(Now()), a, Now())
    {
      ghost var before := Now();
      Leave(a);
      LeftKeepsWaiting(before, a, Now());
    }

    method Leave(a: Attachment)
      requires a !in native.Values
      modifies `nativeSizes, `nativeSent, `nativeActive, `reported, `joined
      ensures Left(old(Now()), a, Now())
    {
      Forget(a);
      if a.session in nativeActive && nativeActive[a.session] == a { GiveBack(a.session); }
    }

    ghost function Here(): Moment
      reads this
    {
      Moment(native, openSerial, Now())
    }

    method Do(e: Event)
      requires Valid()
      modifies this
      ensures Valid() && Did(e, old(Here()), Here(), versions, legacy)
    {
      match e
      case Attach(t, s, size) =>
        if t !in native { var _ := Register(t, s, size); }
      case Open(a) =>
        if a !in joined && a.version == versions(a.session) && a.serial <= openSerial { Opened(a); }
      case Input(t) =>
        var _ := Use(t, None);
      case Frame(t, size) =>
        if t in native { HandleResize(t, size); }
      case Close(t) =>
        Unregister(t);
      case Release(a) =>
        if a in joined && a !in native.Values { Released(a); }
    }

    /** Any run: each event does what Did says, and from a fresh manager on every session's screen is right as
        long as no resize slipped into it. */
    method Run(events: seq<Event>) returns (ghost moments: seq<Moment>)
      requires Valid() && Now() == Books({}, {}, map[], map[], map[], map[])
      modifies this
      ensures Valid() && IsRun(events, moments, versions, legacy) && moments[0] == old(Here()) && moments[|events|] == Here()
      ensures forall n, s :: 0 <= n < |moments| && NoneMisled(moments[..n + 1], s, versions, legacy) ==> Right(moments[n].books, s)
    {
      moments := [Here()];
      for i := 0 to |events|
        invariant Valid() && |moments| == i + 1 && moments[0] == old(Here()) && moments[i] == Here()
        invariant forall n :: 0 <= n <= i ==> Tidy(moments[n], versions, legacy)
        invariant forall n :: 0 <= n < i ==> Did(events[n], moments[n], moments[n + 1], versions, legacy)
      {
        Do(events[i]);
        moments := moments + [Here()];
      }
      forall n, s | 0 <= n < |moments| && NoneMisled(moments[..n + 1], s, versions, legacy) ensures Right(moments[n].books, s) {
        LegacyEngineFollowsRule(events, moments, n, s, versions, legacy);
      }
    }
  }

  // ---- runs ----

  /** What reaches the manager: an attached viewer is registered, nativeOpened runs for a connection, typing, a
      resize frame, a viewer leaves the table, nativeReleased runs. */
  datatype Event = Attach(termId: TermId, session: SessionId, size: Size) | Open(viewer: Attachment) | Input(termId: TermId)
                 | Frame(termId: TermId, size: Size) | Close(termId: TermId) | Release(viewer: Attachment)

  datatype Moment = Moment(native: map<TermId, Attachment>, serial: nat, books: Books)

  /** What an event makes of the manager: nothing when it does not apply. */
  ghost predicate Did(e: Event, m: Moment, n: Moment, versions: SessionId -> string, legacy: string -> bool) {
    match e
    case Attach(t, s, size) =>
      if t in m.native then n == m
      else
        var a := Attachment(m.serial + 1, s, versions(s), size);
        n.native == m.native[t := a] && n.serial == m.serial + 1 && Registered(m.books, a, n.books)
    case Open(a) =>
      n == if a in m.books.joined || a.version != versions(a.session) || a.serial > m.serial then m
           else m.(books := Joined(m.books, a, legacy(a.version)))
    case Input(t) =>
      if t in m.native && legacy(m.native[t].version) then n == m.(books := n.books) && Used(m.books, m.native[t], None, n.books)
      else n == m
    case Frame(t, size) =>
      if t !in m.native then n == m
      else if legacy(m.native[t].version) then n == m.(books := n.books) && Used(m.books, m.native[t], Some(size), n.books)
      else n == m.(books := Resized(m.books, m.native[t], size))
    case Close(t) =>
      n.native == m.native - {t} && n.serial == m.serial && n.books == m.books.(live := n.native.Values)
    case Release(a) =>
      if a in m.books.joined && a !in m.native.Values then n == m.(books := n.books) && Left(m.books, a, n.books) else n == m
  }

  ghost predicate IsRun(events: seq<Event>, moments: seq<Moment>, versions: SessionId -> string, legacy: string -> bool) {
    && |moments| == |events| + 1
    && (forall i :: 0 <= i < |moments| ==> Tidy(moments[i], versions, legacy))
    && forall i :: 0 <= i < |events| ==> Did(events[i], moments[i], moments[i + 1], versions, legacy)
  }

  /** What holds between any two events: the table is the live viewers', all of the version of their session's
      engine, only sessions of legacy engines have a viewer in use, and Waiting. */
  ghost predicate Tidy(m: Moment, versions: SessionId -> string, legacy: string -> bool) {
    && m.books.live == m.native.Values && (forall a :: a in m.books.joined + m.books.live ==> a.version == versions(a.session))
    && (forall s :: s in m.books.active ==> legacy(versions(s))) && Waiting(m.books)
  }

  /** One event, as it changes the books. */
  ghost predicate Step(b: Books, c: Books, versions: SessionId -> string, legacy: string -> bool) {
    || b == c
    || (exists a :: Registered(b, a, c))
    || (exists a :: OpenedStep(b, a, c, versions, legacy))
    || (exists a: Attachment, size :: legacy(versions(a.session)) && Used(b, a, size, c))
    || (exists a: Attachment, size :: !legacy(versions(a.session)) && c == Resized(b, a, size))
    || Unregistered(b, c)
    || (exists a :: a !in b.live && Left(b, a, c))
  }

  lemma DidIsStep(e: Event, m: Moment, n: Moment, versions: SessionId -> string, legacy: string -> bool)
    requires Tidy(m, versions, legacy) && Tidy(n, versions, legacy) && Did(e, m, n, versions, legacy)
    ensures Step(m.books, n.books, versions, legacy)
  {
    match e
    case Close(t) => assert n.books.live <= m.books.live;
    case Open(a) => if n != m { assert OpenedStep(m.books, a, n.books, versions, legacy); }
    case _ =>
  }

  ghost predicate Registered(b: Books, a: Attachment, c: Books) {
    && a !in b.joined && a !in b.live && a !in b.sizes && At(b.sent, a) == Size(0, 0)
    && c == b.(live := b.live + {a}, known := b.known[a := a.asked])
  }

  ghost predicate OpenedStep(b: Books, a: Attachment, c: Books, versions: SessionId -> string, legacy: string -> bool) {
    a !in b.joined && WaitingOk(b, a) && c == Joined(b, a, legacy(versions(a.session)))
  }

  ghost predicate Unregistered(b: Books, c: Books) { c.live <= b.live && c == b.(live := c.live) }

  /** nativeOpened for a viewer of the session that the engine was told another size of. */
  ghost predicate Misled(b: Books, c: Books, session: SessionId, versions: SessionId -> string, legacy: string -> bool) {
    exists a: Attachment :: a.session == session && OpenedStep(b, a, c, versions, legacy)
      && FirstFit(b, a, legacy(versions(session))) == a.asked && Dimensions(At(b.known, a)) != Dimensions(a.asked)
  }

  lemma RegisteredIsSound(b: Books, a: Attachment, c: Books, session: SessionId)
    requires Registered(b, a, c) && Sound(b, session)
    ensures Sound(c, session)
  {
    assert Viewers(c, session) == Viewers(b, session);
    assert forall o :: o in Viewers(b, session) ==> InStep(c, o) == InStep(b, o);
    assert OutOfStep(c, session) == OutOfStep(b, session);
  }

  lemma UnregisteredIsSound(b: Books, c: Books, session: SessionId)
    requires Unregistered(b, c) && Sound(b, session)
    ensures Sound(c, session)
  {
    assert Viewers(c, session) <= Viewers(b, session);
    assert OutOfStep(c, session) <= OutOfStep(b, session);
  }

  lemma StepIsSound(b: Books, c: Books, session: SessionId, versions: SessionId -> string, legacy: string -> bool)
    requires Step(b, c, versions, legacy) && Sound(b, session) && !Misled(b, c, session, versions, legacy)
    requires forall s :: s in b.active ==> legacy(versions(s))
    ensures Sound(c, session) && forall s :: s in c.active ==> legacy(versions(s))
  {
    if b == c {
      return;
    }
    if a :| Registered(b, a, c) {
      RegisteredIsSound(b, a, c, session);
    } else if a :| OpenedStep(b, a, c, versions, legacy) {
      JoinedIsSound(b, a, legacy(versions(a.session)), session);
    } else if a: Attachment, size :| legacy(versions(a.session)) && Used(b, a, size, c) {
      UsedIsSound(b, a, size, c, session);
    } else if a: Attachment, size :| !legacy(versions(a.session)) && c == Resized(b, a, size) {
      ResizedIsSound(b, a, size, session);
    } else if Unregistered(b, c) {
      UnregisteredIsSound(b, c, session);
    } else {
      var a :| a !in b.live && Left(b, a, c);
      LeftIsSound(b, a, c, session);
    }
  }

  /** The engine's screen of the session is the newer rule's, unless the viewer in use is on its way in or out. */
  ghost predicate Right(b: Books, session: SessionId) {
    (InUse(b, session).Some? && InUse(b, session).value !in Viewers(b, session)) || FollowsRule(b, session)
  }

  /** No resize slipped in between registering a viewer of the session and nativeOpened. */
  ghost predicate NoneMisled(moments: seq<Moment>, session: SessionId, versions: SessionId -> string, legacy: string -> bool) {
    forall i :: 0 <= i < |moments| - 1 ==> !Misled(moments[i].books, moments[i + 1].books, session, versions, legacy)
  }

  lemma {:induction false} StaysSound(events: seq<Event>, moments: seq<Moment>, n: nat, session: SessionId, versions: SessionId -> string, legacy: string -> bool)
    requires IsRun(events, moments, versions, legacy) && n < |moments| && NoneMisled(moments[..n + 1], session, versions, legacy)
    requires Sound(moments[0].books, session)
    ensures Sound(moments[n].books, session)
  {
    if n > 0 {
      var b, c := moments[n - 1], moments[n];
      assert forall i :: 0 <= i < n ==> moments[..n][i] == moments[..n + 1][i];
      StaysSound(events, moments, n - 1, session, versions, legacy);
      assert Did(events[n - 1], b, c, versions, legacy);
      DidIsStep(events[n - 1], b, c, versions, legacy);
      assert moments[..n + 1][n - 1] == b && moments[..n + 1][n] == c;
      StepIsSound(b.books, c.books, session, versions, legacy);
    }
  }

  /** Over any run of a manager, a session's screen follows the rule after every event, if no resize slipped
      in between registering a viewer of that session and nativeOpened. */
  lemma LegacyEngineFollowsRule(events: seq<Event>, moments: seq<Moment>, n: nat, session: SessionId, versions: SessionId -> string, legacy: string -> bool)
    requires IsRun(events, moments, versions, legacy) && n < |moments| && NoneMisled(moments[..n + 1], session, versions, legacy)
    requires moments[0].books == Books({}, {}, map[], map[], map[], map[])
    ensures Right(moments[n].books, session)
  {
    var start, b := moments[0].books, moments[n].books;
    assert Viewers(start, session) == {};
    assert OutOfStep(start, session) == {};
    StaysSound(events, moments, n, session, versions, legacy);
    if InUse(b, session).Some? ==> InUse(b, session).value in Viewers(b, session) {
      SoundFollowsRule(b, session);
    }
  }

  /** A session that a resize slipped into is sound again once that viewer is resized. */
  lemma ResizeRepairs(b: Books, a: Attachment, size: Size, c: Books)
    requires Used(b, a, Some(size), c) && OutOfStep(b, a.session) <= {a}
    ensures Sound(c, a.session)
  {
    UsedIsSound(b, a, Some(size), c, a.session);
  }

  /** What a viewer's own use before nativeOpened does to a session nobody is using. */
  lemma EarlyUse(b: Books, a: Attachment, registered: Books, arrived: Option<Size>, used: Books)
    requires Registered(b, a, registered) && Used(registered, a, arrived, used)
    requires Sound(b, a.session) && a.session !in b.active
    ensures Sound(used, a.session) && WaitingOk(used, a)
    ensures At(used.known, a) == if arrived.Some? then arrived.value else a.asked
    ensures Harmless(used, a, true) <==> arrived.None? || Dimensions(arrived.value) == Dimensions(a.asked)
  {
    var s := a.session;
    assert Viewers(registered, s) == Viewers(b, s);
    assert OutOfStep(registered, s) <= OutOfStep(b, s);
    UsedIsSound(registered, a, arrived, used, s);
  }

  /** The window between registering a viewer and nativeOpened: typing in it does no harm; a resize in it is
      told to the engine and then forgotten, and the screen is not the rule's exactly when that resize matters. */
  method OpenWithEarlyUse(m: Manager, termId: TermId, session: SessionId, size: Size, arrived: Option<Size>)
    returns (a: Attachment)
    requires m.Valid() && termId !in m.native && m.legacy(m.versions(session))
    requires Sound(m.Now(), session) && session !in m.nativeActive
    modifies m
    ensures m.Valid() && a in Viewers(m.Now(), session)
    ensures At(m.nativeSizes, a) == size && At(m.reported, a) == if arrived.Some? then arrived.value else size
    ensures FollowsRule(m.Now(), session) <==> arrived.None? || Dimensions(arrived.value) == Dimensions(size)
  {
    ghost var before := m.Now();
    a := m.Register(termId, session, size);
    ghost var registered := m.Now();
    var _ := m.Use(termId, arrived);
    ghost var used := m.Now();
    EarlyUse(before, a, registered, arrived, used);
    m.Opened(a);
    OpenedFollowsRuleIff(used, a, true);
  }
}
