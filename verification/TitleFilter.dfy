/** The streaming filter that removes window titles (OSC 0, 1 and 2) from program output. */
module TitleFilter {
  import opened Prelude
  import opened Utf8

  const ESC: byte := 0x1B
  const BEL: byte := 0x07
  const CAN: byte := 0x18
  const SUB: byte := 0x1A
  const BRACKET: byte := 0x5D
  const BACKSLASH: byte := 0x5C
  const SEMICOLON: byte := 0x3B
  /** The 8-bit forms of ESC ] and ESC \ */
  const C1_OSC: byte := 0x9D
  const C1_ST: byte := 0x9C
  const PREFIX_LIMIT := 18

  datatype State = Text | Escape | Command | Pass | Drop | PassEscape | DropEscape

  /** Where the filter stands: its state, how many continuation bytes the current character still
      needs, the introducer and digits of a command being read, and where its digits begin. */
  datatype Scan = Scan(state: State, utf8: nat, prefix: seq<byte>, command: nat)

  predicate Digit(b: byte) { 0x30 <= b <= 0x39 }

  predicate Digits(s: seq<byte>) { forall i :: 0 <= i < |s| ==> Digit(s[i]) }

  function Number(digits: seq<byte>): nat
    requires Digits(digits)
  {
    if digits == [] then 0 else Number(digits[..|digits| - 1]) * 10 + (digits[|digits| - 1] - 0x30)
  }

  /** Commands 0, 1 and 2 set the icon name and the window title. */
  predicate IsTitle(digits: seq<byte>) {
    digits != [] && Digits(digits) && Number(digits) <= 2
  }

  lemma {:induction false} NumberIsZero(digits: seq<byte>)
    requires Digits(digits)
    ensures Number(digits) == 0 <==> forall i :: 0 <= i < |digits| ==> digits[i] == 0x30
  {
    if digits != [] {
      NumberIsZero(digits[..|digits| - 1]);
      assert forall i :: 0 <= i < |digits| - 1 ==> digits[..|digits| - 1][i] == digits[i];
    }
  }

  /** Titles are the commands that end in 0, 1 or 2 with nothing but zeros before. */
  lemma TitlesAreZeroOneTwo(digits: seq<byte>)
    ensures IsTitle(digits) <==>
      && digits != [] && 0x30 <= digits[|digits| - 1] <= 0x32
      && forall i :: 0 <= i < |digits| - 1 ==> digits[i] == 0x30
  {
    if digits != [] && Digits(digits) {
      NumberIsZero(digits[..|digits| - 1]);
      assert forall i :: 0 <= i < |digits| - 1 ==> digits[..|digits| - 1][i] == digits[i];
    }
  }

  function Expected(lead: byte): nat {
    if 0xC2 <= lead <= 0xDF then 1 else if 0xE0 <= lead <= 0xEF then 2 else if 0xF0 <= lead <= 0xF4 then 3 else 0
  }

  predicate InCharacter(f: Scan, b: byte) { f.utf8 > 0 && Continuation(b) }

  predicate Ends(f: Scan, b: byte) {
    !InCharacter(f, b) && (b == BEL || b == C1_ST || b == CAN || b == SUB)
  }

  predicate ScanOk(f: Scan) {
    && |f.prefix| <= PREFIX_LIMIT
    && (f.state.Command? ==> f.command <= |f.prefix| < PREFIX_LIMIT && Digits(f.prefix[f.command..]))
  }

  /** One byte of filter's loop: the next position and the bytes let through. */
  function Step(f: Scan, b: byte): (r: (Scan, seq<byte>))
    requires ScanOk(f)
    ensures ScanOk(r.0)
  {
    var next := f.(utf8 := if InCharacter(f, b) then f.utf8 - 1 else Expected(b));
    match f.state
    case Text =>
      if b == ESC then (next.(state := Escape), [])
      else if b == C1_OSC && !InCharacter(f, b) then (next.(prefix := [b], command := 1, state := Command), [])
      else (next, [b])
    case Escape =>
      if b == BRACKET then (next.(prefix := [ESC, b], command := 2, state := Command), [])
      else if b == ESC then (next, [])
      else (next.(state := Text), [ESC, b])
    case Command =>
      var prefix := f.prefix + [b];
      if b == SEMICOLON then
        if IsTitle(f.prefix[f.command..]) then (next.(prefix := prefix, state := Drop), [])
        else (next.(prefix := prefix, state := Pass), prefix)
      else if Ends(f, b) || !Digit(b) || |prefix| >= PREFIX_LIMIT then
        (next.(prefix := prefix, state := if Ends(f, b) then Text else Pass), prefix)
      else
        assert prefix[f.command..] == f.prefix[f.command..] + [b];
        (next.(prefix := prefix), [])
    case Pass =>
      (next.(state := if Ends(f, b) then Text else if b == ESC then PassEscape else Pass), [b])
    case Drop =>
      (next.(state := if Ends(f, b) then Text else if b == ESC then DropEscape else Drop), [])
    case PassEscape =>
      (next.(state := if b == BACKSLASH || Ends(f, b) then Text else Pass), [b])
    case DropEscape =>
      if b == BRACKET then (next.(prefix := [ESC, b], command := 2, state := Command), [])
      else if b == BACKSLASH || Ends(f, b) then (next.(state := Text), [])
      else if b != ESC then (next.(state := Text), [ESC, b])
      else (next.(state := Drop), [])
  }

  function Run(f: Scan, input: seq<byte>): (r: (Scan, seq<byte>))
    requires ScanOk(f)
    ensures ScanOk(r.0)
    decreases |input|
  {
    if input == [] then (f, [])
    else
      var (g, out) := Step(f, input[0]);
      var (last, rest) := Run(g, input[1..]);
      (last, out + rest)
  }

  lemma Regroup(a: seq<byte>, b: seq<byte>, c: seq<byte>)
    ensures a + (b + c) == (a + b) + c
  {}

  lemma RunFrom(f: Scan, input: seq<byte>, next: (Scan, seq<byte>))
    requires ScanOk(f) && input != [] && next == Step(f, input[0])
    ensures Run(f, input).0 == Run(next.0, input[1..]).0
    ensures Run(f, input).1 == next.1 + Run(next.0, input[1..]).1
  {}

  /** The filter works byte by byte, so how its input is cut into chunks does not matter. */
  lemma {:induction false} RunAppend(f: Scan, a: seq<byte>, b: seq<byte>)
    requires ScanOk(f)
    ensures Run(f, a + b).0 == Run(Run(f, a).0, b).0
    ensures Run(f, a + b).1 == Run(f, a).1 + Run(Run(f, a).0, b).1
    decreases |a|
  {
    if a == [] {
      assert a + b == b;
    } else {
      assert (a + b)[1..] == a[1..] + b;
      var next := Step(f, a[0]);
      RunFrom(f, a, next);
      RunFrom(f, a + b, next);
      RunAppend(next.0, a[1..], b);
      Regroup(next.1, Run(next.0, a[1..]).1, Run(Run(f, a).0, b).1);
    }
  }

  lemma RunOne(f: Scan, a: seq<byte>, b: byte)
    requires ScanOk(f)
    ensures Run(f, a + [b]).0 == Step(Run(f, a).0, b).0
    ensures Run(f, a + [b]).1 == Run(f, a).1 + Step(Run(f, a).0, b).1
  {
    RunAppend(f, a, [b]);
    assert Run(Run(f, a).0, [b]).1 == Step(Run(f, a).0, b).1 + [];
  }

  class WindowTitleFilter {
    var state: State
    var utf8: nat
    var prefix: seq<byte>
    var command: nat

    function Position(): Scan
      reads this
    {
      Scan(state, utf8, prefix, command)
    }

    ghost predicate Valid()
      reads this
    {
      ScanOk(Position())
    }

    constructor ()
      ensures Valid() && Position() == Scan(Text, 0, [], 0)
    {
      state, utf8, prefix, command := Text, 0, [], 0;
    }

    method Filter(input: seq<byte>) returns (output: seq<byte>)
      requires Valid()
      modifies this
      ensures Valid() && |prefix| <= PREFIX_LIMIT
      ensures (Position(), output) == Run(old(Position()), input)
    {
      output := [];
      ghost var start := Position();
      for i := 0 to |input|
        invariant Valid()
        invariant (Position(), output) == Run(start, input[..i])
      {
        assert input[..i + 1] == input[..i] + [input[i]];
        RunOne(start, input[..i], input[i]);
        output := this.Byte(input[i], output);
      }
      assert input[..|input|] == input;
    }

    /** A byte of a command: the semicolon decides, and anything but a digit gives up. */
    method CommandByte(b: byte, terminator: bool, before: seq<byte>) returns (output: seq<byte>)
      requires state.Command? && command <= |prefix| < PREFIX_LIMIT && Digits(prefix[command..])
      modifies `state, `prefix
      ensures prefix == old(prefix) + [b]
      ensures b == SEMICOLON ==> state == if IsTitle(old(prefix)[command..]) then Drop else Pass
      ensures b != SEMICOLON ==> state == if terminator then Text else if !Digit(b) || |prefix| >= PREFIX_LIMIT then Pass else Command
      ensures output == before + if state.Drop? || state.Command? then [] else prefix
    {
      output := before;
      prefix := prefix + [b];
      if b == SEMICOLON {
        var digits := prefix[command..|prefix| - 1];
        assert digits == old(prefix)[command..];
        state := Drop;
        if !IsTitle(digits) { output, state := output + prefix, Pass; }
      } else if terminator || !Digit(b) || |prefix| >= PREFIX_LIMIT {
        output, state := output + prefix, Pass;
        if terminator { state := Text; }
      }
    }

    /** A byte of a string that passes or is dropped; was is where the filter stood before it. */
    method StringByte(b: byte, terminator: bool, before: seq<byte>, ghost was: Scan) returns (output: seq<byte>)
      requires ScanOk(was) && Position() == Step(was, b).0.(state := was.state, prefix := was.prefix, command := was.command)
      requires was.state.Pass? || was.state.Drop? || was.state.PassEscape? || was.state.DropEscape?
      requires terminator <==> Ends(was, b)
      modifies `state, `prefix, `command
      ensures Position() == Step(was, b).0
      ensures output == before + Step(was, b).1
    {
      output := before;
      match state
      case Pass =>
        output := output + [b];
        if terminator { state := Text; } else if b == ESC { state := PassEscape; }
      case Drop =>
        if terminator { state := Text; } else if b == ESC { state := DropEscape; }
      case PassEscape =>
        output, state := output + [b], Pass;
        if b == BACKSLASH || terminator { state := Text; }
      case DropEscape =>
        state := Drop;
        if b == BRACKET { prefix, command, state := [ESC, b], 2, Command; }
        else if b == BACKSLASH || terminator { state := Text; }
        else if b != ESC { output, state := output + [ESC, b], Text; }
    }

    /** Count the character's bytes; is b one that continues it? */
    method Track(b: byte) returns (continuation: bool)
      modifies `utf8
      ensures continuation == (old(utf8) > 0 && Continuation(b))
      ensures utf8 == if continuation then old(utf8) - 1 else Expected(b)
    {
      continuation := utf8 > 0 && Continuation(b);
      if continuation {
        utf8 := utf8 - 1;
      } else {
        utf8 := 0;
        if 0xC2 <= b <= 0xDF { utf8 := 1; }
        else if 0xE0 <= b <= 0xEF { utf8 := 2; }
        else if 0xF0 <= b <= 0xF4 { utf8 := 3; }
      }
    }

    /** The body of filter's loop. */
    method Byte(b: byte, before: seq<byte>) returns (output: seq<byte>)
      requires Valid()
      modifies this
      ensures Valid() && Position() == Step(old(Position()), b).0
      ensures output == before + Step(old(Position()), b).1
    {
      output := before;
      ghost var was := Position();
      var continuation := Track(b);
      var terminator := !continuation && (b == BEL || b == C1_ST || b == CAN || b == SUB);
      match state
      case Text =>
        if b == ESC { state := Escape; }
        else if b == C1_OSC && !continuation { prefix, command, state := [b], 1, Command; }
        else { output := output + [b]; }
      case Escape =>
        if b == BRACKET { prefix, command, state := [ESC, b], 2, Command; }
        else if b == ESC { }
        else { output, state := output + [ESC, b], Text; }
      case Command =>
        output := CommandByte(b, terminator, output);
      case _ =>
        output := StringByte(b, terminator, output, was);
    }
  }

  // ---- exactness ----

  datatype Terminator = Bell | Cancel | Substitute | EscBackslash | St8

  /** A piece of a program's output: text, an escape that is not an OSC, or an OSC string. */
  datatype Item =
    | Plain(text: seq<byte>)
    | EscapeOf(next: byte)
    | Osc(eightBit: bool, digits: seq<byte>, payload: seq<byte>, end: Terminator)

  function EndBytes(t: Terminator): seq<byte> {
    match t
    case Bell => [BEL]
    case Cancel => [CAN]
    case Substitute => [SUB]
    case EscBackslash => [ESC, BACKSLASH]
    case St8 => [C1_ST]
  }

  function Introducer(eightBit: bool): seq<byte> { if eightBit then [C1_OSC] else [ESC, BRACKET] }

  predicate Without(s: seq<byte>, bad: set<byte>) { forall i :: 0 <= i < |s| ==> s[i] !in bad }

  predicate ItemOk(item: Item) {
    match item
    case Plain(text) => WellFormed(text) && Without(text, {ESC})
    case EscapeOf(next) => next < 0x80 && next != ESC && next != BRACKET
    case Osc(eightBit, digits, payload, _) =>
      && Digits(digits) && |digits| <= (if eightBit then 16 else 15)
      && WellFormed(payload) && Without(payload, {ESC, BEL, CAN, SUB})
  }

  function Bytes(item: Item): seq<byte> {
    match item
    case Plain(text) => text
    case EscapeOf(next) => [ESC, next]
    case Osc(eightBit, digits, payload, end) => Introducer(eightBit) + digits + [SEMICOLON] + payload + EndBytes(end)
  }

  /** What must reach the screen: everything but the titles. */
  function Shown(item: Item): seq<byte> {
    if item.Osc? && IsTitle(item.digits) then [] else Bytes(item)
  }

  predicate AtRest(f: Scan) { ScanOk(f) && f.state.Text? && f.utf8 == 0 }

  /** The states that take a character as it comes: let through, or swallowed. */
  predicate Inert(s: State) { s.Text? || s.Pass? || s.Drop? }

  lemma {:induction false} RunContinuations(f: Scan, s: seq<byte>)
    requires ScanOk(f) && Inert(f.state) && f.utf8 == |s| && forall i :: 0 <= i < |s| ==> Continuation(s[i])
    ensures Run(f, s).0 == f.(utf8 := 0)
    ensures Run(f, s).1 == if f.state.Drop? then [] else s
    decreases |s|
  {
    if s != [] {
      RunContinuations(f.(utf8 := f.utf8 - 1), s[1..]);
      assert [s[0]] + s[1..] == s;
    }
  }

  /** Well-formed text passes whole, except in a string being dropped; inside a character no byte is
      taken for a terminator or an introducer. */
  lemma {:induction false} RunText(f: Scan, s: seq<byte>)
    requires ScanOk(f) && Inert(f.state) && f.utf8 == 0 && WellFormed(s)
    requires Without(s, if f.state.Text? then {ESC} else {ESC, BEL, CAN, SUB})
    ensures Run(f, s).0 == f
    ensures Run(f, s).1 == if f.state.Drop? then [] else s
    decreases |s|
  {
    if s != [] {
      var n := RuneLen(s);
      var g := f.(utf8 := n - 1);
      assert Step(f, s[0]) == (g, if f.state.Drop? then [] else [s[0]]);
      assert s == [s[0]] + (s[1..n] + s[n..]);
      RunAppend(f, [s[0]], s[1..n] + s[n..]);
      RunOne(f, [], s[0]);
      assert [] + [s[0]] == [s[0]];
      RunContinuations(g, s[1..n]);
      RunAppend(g, s[1..n], s[n..]);
      RunText(f, s[n..]);
    }
  }

  /** While a command's digits are read nothing is let through. */
  lemma {:induction false} RunDigits(f: Scan, digits: seq<byte>)
    requires ScanOk(f) && f.state.Command? && f.utf8 == 0 && Digits(digits)
    requires |f.prefix| + |digits| < PREFIX_LIMIT
    ensures Run(f, digits).0 == f.(prefix := f.prefix + digits)
    ensures Run(f, digits).1 == []
    decreases |digits|
  {
    if digits == [] {
      assert f.prefix + digits == f.prefix;
    } else {
      var g := f.(prefix := f.prefix + [digits[0]]);
      assert Step(f, digits[0]) == (g, []);
      assert f.prefix + digits == g.prefix + digits[1..];
      RunDigits(g, digits[1..]);
    }
  }

  lemma RunIntroducer(f: Scan, eightBit: bool)
    requires AtRest(f)
    ensures Run(f, Introducer(eightBit)).0 == Scan(Command, 0, Introducer(eightBit), |Introducer(eightBit)|)
    ensures Run(f, Introducer(eightBit)).1 == []
  {
    var start := Introducer(eightBit);
    if eightBit {
      RunOne(f, [], C1_OSC);
      assert [] + [C1_OSC] == start;
    } else {
      var g := f.(state := Escape);
      assert Step(f, ESC) == (g, []);
      RunOne(f, [], ESC);
      RunOne(f, [] + [ESC], BRACKET);
      assert ([] + [ESC]) + [BRACKET] == start;
    }
  }

  lemma RunEnd(f: Scan, end: Terminator)
    requires ScanOk(f) && (f.state.Pass? || f.state.Drop?) && f.utf8 == 0
    ensures Run(f, EndBytes(end)).0 == f.(state := Text)
    ensures Run(f, EndBytes(end)).1 == if f.state.Drop? then [] else EndBytes(end)
  {
    var e := EndBytes(end);
    if end.EscBackslash? {
      RunOne(f, [], ESC);
      RunOne(f, [] + [ESC], BACKSLASH);
      assert ([] + [ESC]) + [BACKSLASH] == e;
    } else {
      RunOne(f, [], e[0]);
      assert [] + [e[0]] == e;
    }
  }

  /** The introducer, the digits and the semicolon decide: a title is dropped, anything else let through. */
  lemma RunCommand(f: Scan, eightBit: bool, digits: seq<byte>)
    requires AtRest(f) && Digits(digits) && |digits| <= (if eightBit then 16 else 15)
    ensures var head := Introducer(eightBit) + digits + [SEMICOLON];
      var r := Run(f, head);
      && r.0.utf8 == 0 && r.0.state == (if IsTitle(digits) then Drop else Pass)
      && r.1 == if IsTitle(digits) then [] else head
  {
    var intro := Introducer(eightBit);
    var a := Scan(Command, 0, intro, |intro|);
    RunIntroducer(f, eightBit);
    assert intro[|intro|..] == [];
    RunDigits(a, digits);
    var b := a.(prefix := intro + digits);
    assert b.prefix[b.command..] == digits;
    RunAppend(f, intro, digits);
    RunOne(f, intro + digits, SEMICOLON);
  }

  lemma RunString(f: Scan, payload: seq<byte>, end: Terminator)
    requires ScanOk(f) && (f.state.Pass? || f.state.Drop?) && f.utf8 == 0
    requires WellFormed(payload) && Without(payload, {ESC, BEL, CAN, SUB})
    ensures AtRest(Run(f, payload + EndBytes(end)).0)
    ensures Run(f, payload + EndBytes(end)).1 == if f.state.Drop? then [] else payload + EndBytes(end)
  {
    RunText(f, payload);
    RunEnd(f, end);
    RunAppend(f, payload, EndBytes(end));
  }

  lemma RunBoth(f: Scan, head: seq<byte>, tail: seq<byte>, keep: bool)
    requires ScanOk(f) && Run(f, head).1 == (if keep then head else [])
    requires AtRest(Run(Run(f, head).0, tail).0) && Run(Run(f, head).0, tail).1 == (if keep then tail else [])
    ensures AtRest(Run(f, head + tail).0) && Run(f, head + tail).1 == if keep then head + tail else []
  {
    RunAppend(f, head, tail);
  }

  lemma OscBytes(item: Item)
    requires item.Osc?
    ensures Bytes(item) == (Introducer(item.eightBit) + item.digits + [SEMICOLON]) + (item.payload + EndBytes(item.end))
  {}

  /** An OSC string passes untouched or vanishes whole. */
  lemma RunOsc(f: Scan, item: Item)
    requires AtRest(f) && item.Osc? && ItemOk(item)
    ensures AtRest(Run(f, Bytes(item)).0) && Run(f, Bytes(item)).1 == Shown(item)
  {
    var head := Introducer(item.eightBit) + item.digits + [SEMICOLON];
    var tail := item.payload + EndBytes(item.end);
    RunCommand(f, item.eightBit, item.digits);
    RunString(Run(f, head).0, item.payload, item.end);
    RunBoth(f, head, tail, !IsTitle(item.digits));
    OscBytes(item);
  }

  lemma RunItem(f: Scan, item: Item)
    requires AtRest(f) && ItemOk(item)
    ensures AtRest(Run(f, Bytes(item)).0) && Run(f, Bytes(item)).1 == Shown(item)
  {
    match item
    case Plain(text) => RunText(f, text);
    case EscapeOf(next) =>
      var g := f.(state := Escape);
      assert Step(f, ESC) == (g, []);
      RunOne(f, [], ESC);
      RunOne(f, [] + [ESC], next);
      assert ([] + [ESC]) + [next] == [ESC, next];
    case Osc(_, _, _, _) => RunOsc(f, item);
  }

  function Stream(items: seq<Item>): seq<byte> {
    if items == [] then [] else Bytes(items[0]) + Stream(items[1..])
  }

  function Screen(items: seq<Item>): seq<byte> {
    if items == [] then [] else Shown(items[0]) + Screen(items[1..])
  }

  /** On any stream of the grammar exactly the titles are removed. */
  lemma {:induction false} ExactlyTitlesRemoved(f: Scan, items: seq<Item>)
    requires AtRest(f) && forall i :: 0 <= i < |items| ==> ItemOk(items[i])
    ensures AtRest(Run(f, Stream(items)).0) && Run(f, Stream(items)).1 == Screen(items)
    decreases |items|
  {
    if items != [] {
      RunItem(f, items[0]);
      ExactlyTitlesRemoved(Run(f, Bytes(items[0])).0, items[1..]);
      RunAppend(f, Bytes(items[0]), Stream(items[1..]));
    }
  }

  /** However the stream is cut into chunks: what a fresh filter lets through, chunk after chunk, is
      the stream without its titles. */
  method FilterChunks(chunks: seq<seq<byte>>, ghost items: seq<Item>) returns (output: seq<byte>)
    requires Flatten(chunks) == Stream(items)
    requires forall i :: 0 <= i < |items| ==> ItemOk(items[i])
    ensures output == Screen(items)
  {
    var filter := new WindowTitleFilter();
    ghost var start := filter.Position();
    output := [];
    for i := 0 to |chunks|
      invariant fresh(filter) && filter.Valid()
      invariant (filter.Position(), output) == Run(start, Flatten(chunks[..i]))
    {
      assert chunks[..i + 1] == chunks[..i] + [chunks[i]];
      FlattenSnoc(chunks[..i], chunks[i]);
      RunAppend(start, Flatten(chunks[..i]), chunks[i]);
      var more := filter.Filter(chunks[i]);
      output := output + more;
    }
    assert chunks[..|chunks|] == chunks;
    ExactlyTitlesRemoved(start, items);
  }
}
