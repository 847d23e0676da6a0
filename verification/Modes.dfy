/** The input modes a viewer's terminal must be in, and the escape sequences that put it there. */
module Modes {
  const KEYS: seq<int> := [1, 9, 66, 1000, 1002, 1003, 1004, 1006, 1015, 2004]
  const TRACKERS: set<int> := {9, 1000, 1002, 1003}
  const PASTE := 2004

  datatype ModeOp = Set(mode: int) | Reset(mode: int)

  /** What a terminal does with one mode sequence: it has a single mouse tracker, and setting one tracker
      or resetting any of them ends the other. */
  function Obey(modes: set<int>, op: ModeOp): set<int> {
    match op
    case Set(n) => (if Tracker(n) then modes - TRACKERS else modes) + {n}
    case Reset(n) => if Tracker(n) then modes - TRACKERS else modes - {n}
  }

  function ObeyAll(modes: set<int>, ops: seq<ModeOp>): set<int> {
    if ops == [] then modes else Obey(ObeyAll(modes, ops[..|ops| - 1]), ops[|ops| - 1])
  }

  predicate Tracker(n: int) { n in TRACKERS }

  predicate OneTracker(modes: set<int>) { forall a, b :: a in modes && b in modes && Tracker(a) && Tracker(b) ==> a == b }

  function Resets(keys: seq<int>): seq<ModeOp> {
    if keys == [] then [] else Resets(keys[..|keys| - 1]) + [Reset(keys[|keys| - 1])]
  }

  function Sets(keys: seq<int>, on: set<int>): seq<ModeOp> {
    if keys == [] then []
    else Sets(keys[..|keys| - 1], on) + if keys[|keys| - 1] in on then [Set(keys[|keys| - 1])] else []
  }

  /** The modes of the application a viewer takes over: while it reads history only bracketed paste. */
  function Wanted(modes: set<int>, history: bool): set<int> {
    set n | n in modes && n in KEYS && (!history || n == PASTE)
  }

  /** inputModes: every reset before every set. */
  function InputModes(modes: set<int>, history: bool): seq<ModeOp> {
    Resets(KEYS) + Sets(KEYS, Wanted(modes, history))
  }

  lemma {:induction false} ObeyAppend(modes: set<int>, a: seq<ModeOp>, b: seq<ModeOp>)
    ensures ObeyAll(modes, a + b) == ObeyAll(ObeyAll(modes, a), b)
  {
    if b == [] {
      assert a + b == a;
    } else {
      assert (a + b)[..|a + b| - 1] == a + b[..|b| - 1];
      ObeyAppend(modes, a, b[..|b| - 1]);
    }
  }

  lemma {:induction false} ResetsClear(modes: set<int>, keys: seq<int>)
    ensures forall k :: k in keys ==> k !in ObeyAll(modes, Resets(keys))
    ensures ObeyAll(modes, Resets(keys)) <= modes
  {
    if keys != [] {
      var n := |keys| - 1;
      ResetsClear(modes, keys[..n]);
      assert Resets(keys)[..|Resets(keys)| - 1] == Resets(keys[..n]);
      assert keys == keys[..n] + [keys[n]];
    }
  }

  lemma {:induction false} SetsSet(modes: set<int>, keys: seq<int>, on: set<int>)
    requires OneTracker(on) && forall n :: n in modes ==> !Tracker(n)
    ensures ObeyAll(modes, Sets(keys, on)) == modes + (set k | k in keys && k in on)
  {
    if keys != [] {
      var n := |keys| - 1;
      SetsSet(modes, keys[..n], on);
      assert keys == keys[..n] + [keys[n]];
      var before := modes + (set k | k in keys[..n] && k in on);
      if keys[n] in on {
        assert Sets(keys, on)[..|Sets(keys, on)| - 1] == Sets(keys[..n], on);
        assert Tracker(keys[n]) ==> forall k :: k in before && Tracker(k) ==> k == keys[n];
        assert Obey(before, Set(keys[n])) == modes + (set k | k in keys && k in on);
      } else {
        assert Sets(keys, on) == Sets(keys[..n], on);
        assert before == modes + (set k | k in keys && k in on);
      }
    }
  }

  /** Whatever modes a viewer's terminal was in, it ends in exactly the wanted ones. */
  lemma ModesExact(before: set<int>, modes: set<int>, history: bool)
    requires OneTracker(modes)
    ensures var after := ObeyAll(before, InputModes(modes, history));
      forall k :: k in KEYS ==> (k in after <==> k in Wanted(modes, history))
  {
    var on := Wanted(modes, history);
    var cleared := ObeyAll(before, Resets(KEYS));
    ObeyAppend(before, Resets(KEYS), Sets(KEYS, on));
    ResetsClear(before, KEYS);
    assert 9 in KEYS && 1000 in KEYS && 1002 in KEYS && 1003 in KEYS;
    assert OneTracker(on);
    SetsSet(cleared, KEYS, on);
  }

  /** One pass that sets or resets each key in turn would lose the tracker. */
  function OnePass(keys: seq<int>, on: set<int>): seq<ModeOp> {
    if keys == [] then []
    else OnePass(keys[..|keys| - 1], on) + [if keys[|keys| - 1] in on then Set(keys[|keys| - 1]) else Reset(keys[|keys| - 1])]
  }

  lemma OnePassLosesTracker()
    ensures ObeyAll({}, OnePass([1000, 1002], {1000})) == {}
    ensures ObeyAll({}, Resets([1000, 1002]) + Sets([1000, 1002], {1000})) == {1000}
  {
    var keys := [1000, 1002];
    assert keys[..1] == [1000] && [1000][..0] == [];
    assert OnePass([1000], {1000}) == [Set(1000)] && OnePass(keys, {1000}) == [Set(1000), Reset(1002)];
    assert [Set(1000), Reset(1002)][..1] == [Set(1000)] && [Set(1000)][..0] == [];
    ObeyAppend({}, Resets(keys), Sets(keys, {1000}));
    ResetsClear({}, keys);
    SetsSet({}, keys, {1000});
  }

  /** EnableMode and DisableMode, the emulator's callbacks: an application has one tracker at a time. */
  function Enabled(modes: set<int>, n: int): (r: set<int>)
    requires OneTracker(modes)
    ensures OneTracker(r) && n in r
  {
    (if Tracker(n) then modes - TRACKERS else modes) + {n}
  }

  function Disabled(modes: set<int>, n: int): (r: set<int>)
    requires OneTracker(modes)
    ensures OneTracker(r) && n !in r
  {
    if Tracker(n) then modes - TRACKERS else modes - {n}
  }
}
