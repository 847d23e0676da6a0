/** Repainting a viewer. */
module Render {
  import opened Prelude
  import opened Modes

  // Viewports, frozen history, full and delta frames, and the one-slot channel.

  const MAX_SCREEN_BYTES := 256 * 1024

  type Cell = nat
  type Row = seq<Cell>

  datatype Pos = Pos(x: int, y: int)

  /** The emulator: its screen rows, the lines scrolled off it, oldest first, and its cursor. */
  datatype Vt = Vt(grid: seq<Row>, scrollback: seq<Row>, cursor: Pos, hidden: bool, alternate: bool)

  // ---- frames and displays ----

  /** What a repaint writes: a clearing first if full, mode sequences if any, some rows, the cursor. */
  datatype Frame = Frame(full: bool, modes: Option<seq<ModeOp>>, rows: seq<Option<Row>>, cursor: Option<Pos>)

  datatype Reply = ScreenReply(frame: Frame) | ErrorReply(error: string) | ExitReply(last: Option<Frame>)

  /** A viewer's terminal. */
  datatype Display = Display(rows: seq<Row>, modes: set<int>, cursor: Option<Pos>)

  /** What the engine holds for a viewer. */
  datatype Held = Held(rows: seq<Row>, modes: set<int>, cursor: Option<Pos>)

  function PaintedRow(d: Display, f: Frame, y: nat): Row
    requires y < |f.rows|
  {
    if f.rows[y].Some? then f.rows[y].value else if f.full || y >= |d.rows| then [] else d.rows[y]
  }

  /** A terminal after it obeyed a frame. */
  function Painted(d: Display, f: Frame): Display {
    Display(seq(|f.rows|, y requires 0 <= y < |f.rows| => PaintedRow(d, f, y)),
            if f.modes.Some? then ObeyAll(d.modes, f.modes.value) else d.modes, f.cursor)
  }

  predicate SameModes(a: set<int>, b: set<int>) { forall k :: k in KEYS ==> (k in a <==> k in b) }

  /** The terminal shows exactly what the engine held. */
  predicate Shows(d: Display, h: Held) { d.rows == h.rows && SameModes(d.modes, h.modes) && d.cursor == h.cursor }

  // ---- the viewport ----

  function Slice(cells: Row, x: int, width: int): (r: Row)
    ensures |r| <= Max(0, width)
  {
    if 0 <= x < |cells| && width > 0 then cells[x..Min(|cells|, x + width)] else []
  }

  function LineAt(lines: seq<Row>, i: int): Row { if 0 <= i < |lines| then lines[i] else [] }

  /** The i-th row of a viewport: while reading history that many scrolled-off lines come first. */
  function VisibleRow(vt: Vt, height: int, x: int, y: int, width: int, history: nat, i: nat): Row {
    var index := |vt.scrollback| - history + i;
    if history > 0 && index < |vt.scrollback| then Slice(LineAt(vt.scrollback, index), x, width)
    else
      var line := if history > 0 then index - |vt.scrollback| else y + i;
      if line < height then Slice(LineAt(vt.grid, line), x, width) else []
  }

  function Visible(vt: Vt, height: int, x: int, y: int, width: int, rows: nat, history: nat): (r: seq<Row>)
    ensures |r| == rows
  {
    seq(rows, i requires 0 <= i < rows => VisibleRow(vt, height, x, y, width, history, i))
  }

  /** Where a viewport of size shows offset, after following the cursor to position if it follows. */
  function Follow(offset: int, size: int, position: int): int {
    var low := if position < offset then position else offset;
    if position >= low + size then position - size + 1 else low
  }

  function Clamp(offset: int, size: int, canvas: int): int { Max(0, Min(Max(0, canvas - size), offset)) }

  lemma FollowedIsVisible(offset: int, size: int, canvas: int, position: int)
    requires 0 <= position < canvas && size >= 1
    ensures var o := Clamp(Follow(offset, size, position), size, canvas); o <= position < o + size
  {}

  // ---- composing a frame ----

  function CursorIn(vt: Vt, x: int, y: int, width: int, height: int, history: nat): Option<Pos> {
    if vt.hidden || history > 0 || !(x <= vt.cursor.x < x + width) || !(y <= vt.cursor.y < y + height) then None
    else Some(Pos(vt.cursor.x - x, vt.cursor.y - y))
  }

  method Compose(full0: bool, last: seq<Row>, lastModes: seq<ModeOp>, rows: seq<Row>, modes: seq<ModeOp>, cursor: Option<Pos>)
      returns (f: Frame)
    ensures f.full == (full0 || |last| != |rows|) && f.cursor == cursor && |f.rows| == |rows|
    ensures f.modes == if f.full || modes != lastModes then Some(modes) else None
    ensures forall y :: 0 <= y < |rows| ==> f.rows[y] == if f.full || rows[y] != last[y] then Some(rows[y]) else None
  {
    var full := full0 || |last| != |rows|;
    var changes: seq<Option<Row>> := [];
    for y := 0 to |rows|
      invariant |changes| == y
      invariant forall i :: 0 <= i < y ==> changes[i] == if full || rows[i] != last[i] then Some(rows[i]) else None
    {
      changes := changes + [if full || rows[y] != last[y] then Some(rows[y]) else None];
    }
    f := Frame(full, if full || modes != lastModes then Some(modes) else None, changes, cursor);
  }

  /** A full frame shows what it holds on any terminal. */
  lemma FullFrameShows(d: Display, f: Frame, rows: seq<Row>, sessionModes: set<int>, history: bool)
    requires OneTracker(sessionModes) && f.full && |f.rows| == |rows| && f.modes == Some(InputModes(sessionModes, history))
    requires forall y :: 0 <= y < |rows| ==> f.rows[y] == Some(rows[y])
    ensures Shows(Painted(d, f), Held(rows, Wanted(sessionModes, history), f.cursor))
  {
    ModesExact(d.modes, sessionModes, history);
  }

  /** A delta shows what it holds on a terminal that shows what its base held. */
  lemma DeltaFrameShows(d: Display, f: Frame, base: Held, rows: seq<Row>, lastModes: seq<ModeOp>, sessionModes: set<int>, history: bool)
    requires OneTracker(sessionModes) && Shows(d, base) && |base.rows| == |rows| == |f.rows| && !f.full
    requires forall y :: 0 <= y < |rows| ==> f.rows[y] == if rows[y] != base.rows[y] then Some(rows[y]) else None
    requires var modes := InputModes(sessionModes, history);
      f.modes == (if modes != lastModes then Some(modes) else None)
      && (modes == lastModes ==> SameModes(Wanted(sessionModes, history), base.modes))
    ensures Shows(Painted(d, f), Held(rows, Wanted(sessionModes, history), f.cursor))
  {
    if f.modes.Some? { ModesExact(d.modes, sessionModes, history); }
  }

  // ---- scenes ----

  /** A session's emulator and size, and one viewer's viewport on it; frozen rows while reading history. */
  datatype Scene = Scene(
    vt: Vt, width: int, height: int, modes: set<int>,
    cols: int, rows: int, x: int, y: int, follow: bool, history: nat, frozen: Option<seq<Row>>)

  function CursorOf(c: Scene): Option<Pos> { CursorIn(c.vt, c.x, c.y, c.cols, c.rows, c.history) }

  /** What the engine holds for the viewer. */
  function HeldIn(c: Scene): Held {
    Held(if c.history > 0 && c.frozen.Some? then c.frozen.value
         else Visible(c.vt, c.height, c.x, c.y, c.cols, Max(0, c.rows), c.history),
         Wanted(c.modes, c.history > 0), CursorOf(c))
  }

  function Moved(c: Scene): Scene {
    c.(x := Clamp(if c.follow && c.history == 0 then Follow(c.x, c.cols, c.vt.cursor.x) else c.x, c.cols, c.width),
       y := Clamp(if c.follow && c.history == 0 then Follow(c.y, c.rows, c.vt.cursor.y) else c.y, c.rows, c.height))
  }

  /** What rendering makes of it: the viewport follows the cursor and stays on the screen, and a reader's rows freeze. */
  function Rendered(c: Scene): Scene {
    var m := Moved(c);
    if c.history > 0 && c.frozen.None? then m.(frozen := Some(Visible(m.vt, m.height, m.x, m.y, m.cols, Max(0, m.rows), m.history)))
    else m
  }

  /** Typing leaves history. */
  function Typed(c: Scene): Scene {
    var live := c.(follow := true, history := 0, frozen := None);
    if c.history > 0 then Rendered(live) else live
  }

  function Repainted(c: Scene): Scene { if c.history > 0 && c.frozen.Some? then c else Rendered(c) }

  /** A following viewport shows the cursor. */
  lemma FollowerSeesCursor(c: Scene)
    requires c.follow && c.history == 0 && c.cols >= 1 && c.rows >= 1
    requires 0 <= c.vt.cursor.x < c.width && 0 <= c.vt.cursor.y < c.height
    ensures var r := Rendered(c); r.x <= c.vt.cursor.x < r.x + c.cols && r.y <= c.vt.cursor.y < r.y + c.rows
  {
    FollowedIsVisible(c.x, c.cols, c.width, c.vt.cursor.x);
    FollowedIsVisible(c.y, c.rows, c.height, c.vt.cursor.y);
  }

  // ---- what a viewer sees, cell by cell ----

  function CellAt(rows: seq<Row>, r: int, c: int): Option<Cell> {
    if 0 <= r < |rows| && 0 <= c < |rows[r]| then Some(rows[r][c]) else None
  }

  /** In a window of that many columns from (x, y) on, rows are the lines there, where the first end of them count. */
  ghost predicate Window(rows: seq<Row>, lines: seq<Row>, x: int, y: int, cols: int, end: int) {
    forall r, c :: 0 <= r < |rows| ==>
      CellAt(rows, r, c) == if 0 <= x && 0 <= c < cols && y + r < end then CellAt(lines, y + r, x + c) else None
  }

  /** A live viewer sees the part of the screen at its viewport; a reader the rows that are frozen for it, or
      else the lines that far back in all there are, scrolled off and on the screen. The cursor stands on the
      cell where the emulator's is, and is hidden outside the viewport and while reading. */
  ghost predicate Displays(d: Display, s: Scene) {
    && |d.rows| == (if s.history > 0 && s.frozen.Some? then |s.frozen.value| else Max(0, s.rows))
    && (forall k :: k in KEYS ==> (k in d.modes <==> k in s.modes && (s.history == 0 || k == PASTE)))
    && (if s.history == 0 then Window(d.rows, s.vt.grid, s.x, s.y, s.cols, s.height)
        else if s.frozen.Some? then d.rows == s.frozen.value else Reads(s, d.rows))
    && (d.cursor.Some? <==> !s.vt.hidden && s.history == 0 && s.x <= s.vt.cursor.x < s.x + s.cols && s.y <= s.vt.cursor.y < s.y + s.rows)
    && (d.cursor.Some? ==> s.x + d.cursor.value.x == s.vt.cursor.x && s.y + d.cursor.value.y == s.vt.cursor.y)
  }

  ghost predicate Reads(s: Scene, rows: seq<Row>) {
    Window(rows, s.vt.scrollback + s.vt.grid, s.x, |s.vt.scrollback| - s.history, s.cols, |s.vt.scrollback| + Max(0, s.height))
  }

  lemma SliceCells(line: Row, x: int, width: int, c: int)
    ensures var row := Slice(line, x, width);
      (if 0 <= c < |row| then Some(row[c]) else None)
      == if 0 <= x && 0 <= c < width && x + c < |line| then Some(line[x + c]) else None
  {}

  lemma VisibleIsWindow(vt: Vt, height: int, x: int, y: int, width: int, rows: nat)
    ensures Window(Visible(vt, height, x, y, width, rows, 0), vt.grid, x, y, width, height)
  {
    var shown := Visible(vt, height, x, y, width, rows, 0);
    forall r, c | 0 <= r < rows
      ensures CellAt(shown, r, c) == if 0 <= x && 0 <= c < width && y + r < height then CellAt(vt.grid, y + r, x + c) else None
    {
      assert shown[r] == VisibleRow(vt, height, x, y, width, 0, r);
      SliceCells(LineAt(vt.grid, y + r), x, width, c);
    }
  }

  lemma HistoryIsWindow(s: Scene, rows: nat)
    requires s.history > 0
    ensures Reads(s, Visible(s.vt, s.height, s.x, s.y, s.cols, rows, s.history))
  {
    var shown, back := Visible(s.vt, s.height, s.x, s.y, s.cols, rows, s.history), |s.vt.scrollback|;
    forall r, c | 0 <= r < rows
      ensures CellAt(shown, r, c) == if 0 <= s.x && 0 <= c < s.cols && back - s.history + r < back + Max(0, s.height)
                                     then CellAt(s.vt.scrollback + s.vt.grid, back - s.history + r, s.x + c) else None
    {
      HistoryRow(s, rows, r, c);
    }
  }

  lemma HistoryRow(s: Scene, rows: nat, r: nat, c: int)
    requires s.history > 0 && r < rows
    ensures var back := |s.vt.scrollback|;
      CellAt(Visible(s.vt, s.height, s.x, s.y, s.cols, rows, s.history), r, c)
      == if 0 <= s.x && 0 <= c < s.cols && r - s.history < Max(0, s.height)
         then CellAt(s.vt.scrollback + s.vt.grid, back - s.history + r, s.x + c) else None
  {
    var back, lines := |s.vt.scrollback|, s.vt.scrollback + s.vt.grid;
    var i := back - s.history + r;
    assert Visible(s.vt, s.height, s.x, s.y, s.cols, rows, s.history)[r] == VisibleRow(s.vt, s.height, s.x, s.y, s.cols, s.history, r);
    assert 0 <= i < back ==> lines[i] == s.vt.scrollback[i];
    assert back <= i < |lines| ==> lines[i] == s.vt.grid[i - back];
    SliceCells(LineAt(lines, i), s.x, s.cols, c);
  }

  /** What the engine holds for a viewer is what the viewer is to see. */
  lemma HeldIsSeen(d: Display, s: Scene)
    requires Shows(d, HeldIn(s))
    ensures Displays(d, s)
  {
    VisibleIsWindow(s.vt, s.height, s.x, s.y, s.cols, Max(0, s.rows));
    if s.history > 0 { HistoryIsWindow(s, Max(0, s.rows)); }
  }

  /** Rows freeze as they are read then. */
  lemma FrozenIsRead(c: Scene)
    requires c.history > 0 && c.frozen.None?
    ensures Rendered(c).frozen.Some? && |Rendered(c).frozen.value| == Max(0, c.rows) && Reads(Rendered(c), Rendered(c).frozen.value)
  {
    HistoryIsWindow(Moved(c), Max(0, c.rows));
  }

  /** A viewport stays where it is while it lies on the screen and does not lose a cursor it follows. */
  lemma ViewportStays(c: Scene)
    requires 0 <= c.x && c.x + c.cols <= c.width && 0 <= c.y && c.y + c.rows <= c.height && c.cols >= 1 && c.rows >= 1
    requires c.follow && c.history == 0 ==> c.x <= c.vt.cursor.x < c.x + c.cols && c.y <= c.vt.cursor.y < c.y + c.rows
    ensures Rendered(c).x == c.x && Rendered(c).y == c.y
  {}

  /** And it never leaves the screen. */
  lemma ViewportIsOnScreen(c: Scene)
    requires c.cols >= 1 && c.rows >= 1 && c.width >= 1 && c.height >= 1
    ensures var r := Rendered(c);
      && 0 <= r.x && r.x + Min(c.cols, c.width) <= c.width && 0 <= r.y && r.y + Min(c.rows, c.height) <= c.height
  {}

  // ---- sessions and views ----

  class Session {
    var vt: Vt
    var cols: int
    var rows: int
    var modes: set<int>
    var sequence: nat
    /** The bytes a frame comes to. */
    const weigh: Frame -> nat

    ghost predicate Valid()
      reads this
    {
      cols >= 1 && rows >= 1 && OneTracker(modes) && 0 <= vt.cursor.x < cols && 0 <= vt.cursor.y < rows
    }
  }

  /** A display after a frame was read, and the scene the frame was rendered of. */
  datatype Sight = Sight(display: Display, scene: Scene)

  ghost predicate AllTrue(log: seq<Sight>) { forall i :: 0 <= i < |log| ==> Shows(log[i].display, HeldIn(log[i].scene)) }

  /** What log has seen since earlier was rendered of scene a, and from some point on of scene b. */
  ghost predicate SeenOf(earlier: seq<Sight>, log: seq<Sight>, a: Scene, b: Scene) {
    && earlier <= log && (forall i :: |earlier| <= i < |log| ==> log[i].scene == a || log[i].scene == b)
    && forall i, j :: |earlier| <= i < j < |log| ==> log[i].scene == a || log[j].scene == b
  }

  datatype Look = Viewport(x: int, y: int, follow: bool) | History(lines: int) | Refresh | Resize(cols: int, rows: int)

  /** What a request of the viewer makes of the scene, before it is rendered. */
  function Prepared(c: Scene, scrollback: nat, look: Look): Scene {
    match look
    case Viewport(x, y, follow) => c.(frozen := None, follow := follow, x := x, y := y, history := if follow then 0 else c.history)
    case History(lines) =>
      var history := Max(0, Min(scrollback, c.history + lines));
      c.(frozen := None, history := history, follow := history == 0)
    case Refresh => c
    case Resize(cols, rows) => c.(cols := Max(1, Min(1000, cols)), rows := Max(1, Min(500, rows)), frozen := None)
  }

  class View {
    var cols: int
    var rows: int
    var x: int
    var y: int
    var follow: bool
    var history: nat
    var last: seq<Row>
    var historyRows: Option<seq<Row>>
    var lastModes: seq<ModeOp>
    /** The channel of one reply. */
    var frames: Option<Reply>
    /** When the viewer reads its channel. */
    const reading: nat -> bool
    var moment: nat

    /** The viewer's terminal, and whether it has stopped reading. */
    var display: Display
    var ended: bool
    /** How many replies it has read. */
    var taken: nat
    /** The scene of the last frame, if any was rendered, and what the engine then held. */
    ghost var scene: Scene
    ghost var held: Held
    ghost var painted: bool
    /** Every screen the viewer has shown. */
    ghost var log: seq<Sight>

    /** The display is where the next delta expects it, or the channel holds a frame that brings it there. */
    ghost predicate Valid()
      reads this
    {
      ValidWith(frames)
    }

    ghost predicate Base()
      reads this
    {
      && rows >= 1 && cols >= 1 && (historyRows.Some? ==> |historyRows.value| == rows)
      && AllTrue(log) && held == HeldIn(scene)
      && (!painted ==> last == [])
      && (painted ==> (last == [] || last == held.rows) && SameModes(ObeyAll({}, lastModes), held.modes))
    }

    ghost predicate ValidWith(slot: Option<Reply>)
      reads this
    {
      && Base()
      && (ended || match slot
                   case None => painted ==> Shows(display, held)
                   case Some(ScreenReply(f)) => painted && Shows(Painted(display, f), held)
                   case Some(ErrorReply(_)) => true
                   case Some(ExitReply(f)) => if f.Some? then painted && Shows(Painted(display, f.value), held)
                                              else painted ==> Shows(display, held))
    }

    constructor (cols: int, rows: int, reading: nat -> bool, display: Display)
      requires cols >= 1 && rows >= 1
      ensures Valid() && !painted && !ended && frames.None? && this.display == display
      ensures this.cols == cols && this.rows == rows && follow && history == 0
    {
      this.cols, this.rows, x, y := cols, rows, 0, 0;
      follow, history, last, historyRows, lastModes := true, 0, [], None, [];
      frames, this.reading, moment := None, reading, 0;
      this.display, ended, painted, taken := display, false, false, 0;
      scene := Scene(Vt([], [], Pos(0, 0), true, false), 0, 0, {}, 0, 0, 0, 0, false, 0, None);
      log := [];
      new;
      held := HeldIn(scene);
    }

    /** The viewer takes a reply, if there is one: its terminal obeys it, and an error or an exit is the last. */
    method Read() returns (reply: Option<Reply>)
      requires Valid() && !ended
      modifies `frames, `display, `ended, `taken, `log
      ensures Valid() && reply == old(frames) && frames.None?
      ensures reply.Some? && reply.value.ScreenReply? ==> !ended && Shows(display, held)
      ensures reply.Some? && !reply.value.ScreenReply? ==> ended
      ensures reply.Some? && reply.value.ExitReply? && painted ==> Shows(display, held)
      ensures reply.None? ==> display == old(display) && !ended
      ensures taken == old(taken) + if reply.Some? then 1 else 0
      ensures log == old(log) + if reply.Some? && (reply.value.ScreenReply? || (reply.value.ExitReply? && reply.value.last.Some?))
                                then [Sight(display, scene)] else []
    {
      reply := frames;
      frames := None;
      if reply.Some? {
        taken := taken + 1;
        match reply.value
        case ScreenReply(f) =>
          display := Painted(display, f);
          log := log + [Sight(display, scene)];
        case ErrorReply(_) => ended := true;
        case ExitReply(f) =>
          if f.Some? {
            display := Painted(display, f.value);
            log := log + [Sight(display, scene)];
          }
          ended := true;
      }
    }

    /** A point at which the viewer may run. */
    method Pause()
      requires Valid()
      modifies `frames, `display, `ended, `taken, `log, `moment
      ensures Valid() && (old(frames).None? ==> frames.None? && display == old(display) && ended == old(ended))
      ensures frames == old(frames) || (frames.None? && taken > old(taken))
      ensures frames.Some? ==> display == old(display) && ended == old(ended)
      ensures (old(ended) ==> ended) && SeenOf(old(log), log, scene, scene)
      ensures reading(old(moment)) && !old(ended) ==> frames.None?
      ensures old(frames).Some? && frames.None? && !ended ==> old(frames).value.ScreenReply? && Shows(display, held)
      ensures taken == old(taken) + if old(frames).Some? && frames.None? then 1 else 0
    {
      if reading(moment) && !ended {
        var _ := Read();
      }
      moment := moment + 1;
    }

    /** Sending on a channel with a reply in it would block. */
    method Send(reply: Reply)
      requires frames.None?
      modifies `frames
      ensures frames == Some(reply)
    {
      frames := Some(reply);
    }

    /** offer: try to send; if the channel is full, drop what is in it and send. It never blocks, whatever
        the viewer does in between, since only the viewer empties the channel and nobody else fills it. */
    method Offer(reply: Reply)
      requires (frames.None? && ValidWith(Some(reply))) || (Valid() && reply.ErrorReply?)
      modifies `frames, `display, `ended, `taken, `log, `moment
      ensures Valid() && frames == Some(reply) && (old(ended) ==> ended) && SeenOf(old(log), log, scene, scene)
      ensures taken >= old(taken) && (old(frames).None? ==> taken == old(taken) && ended == old(ended) && display == old(display))
    {
      if frames.None? {
        Send(reply);
        return;
      }
      Pause();
      frames := None;
      Send(reply);
    }

    /** The start of render: an unread frame is taken back, and then the whole screen must be painted. */
    method Drain(full0: bool) returns (full: bool)
      requires Valid()
      modifies `frames, `display, `ended, `taken, `log, `moment
      ensures Base() && SeenOf(old(log), log, scene, scene) && taken >= old(taken)
      ensures frames.None? && (full0 ==> full) && (old(ended) ==> ended)
      ensures full <==> full0 || (old(frames).Some? && taken == old(taken))
      ensures !full && !ended && painted ==> Shows(display, held)
    {
      full := full0;
      Pause();
      if frames.Some? {
        Pause();
        if frames.Some? {
          frames := None;
          full := true;
        }
      }
    }

    predicate Frozen()
      reads this
    {
      history > 0 && historyRows.Some?
    }

    ghost function Now(s: Session): Scene
      reads this, s
    {
      Scene(s.vt, s.cols, s.rows, s.modes, cols, rows, x, y, follow, history, historyRows)
    }

    /** The viewport moves with the cursor, and never off the screen. */
    method Scroll(s: Session)
      modifies `x, `y
      ensures Now(s) == Moved(old(Now(s)))
    {
      if follow && history == 0 {
        var cursor := s.vt.cursor;
        if cursor.x < x { x := cursor.x; }
        if cursor.x >= x + cols { x := cursor.x - cols + 1; }
        if cursor.y < y { y := cursor.y; }
        if cursor.y >= y + rows { y := cursor.y - rows + 1; }
      }
      x := Max(0, Min(Max(0, s.cols - cols), x));
      y := Max(0, Min(Max(0, s.rows - rows), y));
    }

    /** The rows of the viewport, or the frozen ones. */
    method Rows(s: Session) returns (shown: seq<Row>)
      requires rows >= 1 && (historyRows.Some? ==> |historyRows.value| == rows)
      modifies `historyRows
      ensures |shown| == rows && (historyRows.Some? ==> |historyRows.value| == rows)
      ensures shown == HeldIn(Now(s)).rows
      ensures historyRows == if history > 0 && old(historyRows).None?
                             then Some(Visible(s.vt, s.rows, x, y, cols, rows, history)) else old(historyRows)
    {
      shown := [];
      for i := 0 to rows
        invariant |shown| == i && forall k :: 0 <= k < i ==> shown[k] == VisibleRow(s.vt, s.rows, x, y, cols, history, k)
      {
        shown := shown + [VisibleRow(s.vt, s.rows, x, y, cols, history, i)];
      }
      assert shown == Visible(s.vt, s.rows, x, y, cols, rows, history);
      if history > 0 {
        if historyRows.None? { historyRows := Some(shown); } else { shown := historyRows.value; }
      }
    }

    /** A frame composed for this viewer brings its terminal to what the engine holds. */
    lemma ComposedShows(s: Session, f: Frame, full: bool, shown: seq<Row>, modes: seq<ModeOp>, now: Held)
      requires s.Valid() && rows >= 1 && modes == InputModes(s.modes, history > 0)
      requires now == Held(shown, Wanted(s.modes, history > 0), f.cursor) && |shown| == |f.rows| >= 1
      requires f.full == (full || |last| != |shown|)
      requires f.modes == if f.full || modes != lastModes then Some(modes) else None
      requires forall y :: 0 <= y < |shown| ==> f.rows[y] == if f.full || shown[y] != last[y] then Some(shown[y]) else None
      requires !painted ==> last == []
      requires painted ==> (last == [] || last == held.rows) && SameModes(ObeyAll({}, lastModes), held.modes)
      requires !full && painted ==> Shows(display, held)
      ensures Shows(Painted(display, f), now) && SameModes(ObeyAll({}, modes), now.modes)
    {
      ModesExact({}, s.modes, history > 0);
      if f.full {
        FullFrameShows(display, f, shown, s.modes, history > 0);
      } else {
        DeltaFrameShows(display, f, held, shown, lastModes, s.modes, history > 0);
      }
    }

    /** The end of render: compose against the last frame and send, or report a screen that is too big. */
    method Emit(s: Session, full: bool, shown: seq<Row>)
      requires s.Valid() && Base() && frames.None? && |shown| >= 1 && shown == HeldIn(Now(s)).rows
      requires !full && !ended && painted ==> Shows(display, held)
      modifies `last, `lastModes, `frames, `held, `scene, `painted, s`sequence
      ensures Valid() && frames.Some? && !frames.value.ExitReply?
      ensures frames.value.ScreenReply? ==>
        && painted && scene == Now(s) && s.sequence == old(s.sequence) + 1
        && frames.value.frame.full == (full || |old(last)| != |shown|) && s.weigh(frames.value.frame) <= MAX_SCREEN_BYTES
      ensures frames.value.ErrorReply? ==> last == old(last) && scene == old(scene) && s.sequence == old(s.sequence)
    {
      var modes := InputModes(s.modes, history > 0);
      var cursor := CursorIn(s.vt, x, y, cols, rows, history);
      var f := Compose(full, last, lastModes, shown, modes, cursor);
      if s.weigh(f) > MAX_SCREEN_BYTES {
        Send(ErrorReply("SESSION_SCREEN_LIMIT"));
        return;
      }
      ghost var now := Held(shown, Wanted(s.modes, history > 0), cursor);
      if !ended { ComposedShows(s, f, full, shown, modes, now); }
      ModesExact({}, s.modes, history > 0);
      s.sequence := s.sequence + 1;
      Commit(f, shown, modes, Now(s));
    }

    method Commit(f: Frame, shown: seq<Row>, modes: seq<ModeOp>, ghost now: Scene)
      requires rows >= 1 && cols >= 1 && AllTrue(log) && frames.None? && (historyRows.Some? ==> |historyRows.value| == rows)
      requires HeldIn(now).rows == shown && SameModes(ObeyAll({}, modes), HeldIn(now).modes)
      requires ended || Shows(Painted(display, f), HeldIn(now))
      modifies `last, `lastModes, `frames, `held, `scene, `painted
      ensures Valid() && painted && scene == now && frames == Some(ScreenReply(f))
    {
      last, lastModes, scene, painted := shown, modes, now, true;
      held := HeldIn(now);
      Send(ScreenReply(f));
    }

    /** The rest of render, once the channel is empty. */
    method Paint(s: Session, full: bool)
      requires s.Valid() && frames.None? && Base() && (!full && !ended && painted ==> Shows(display, held))
      modifies `x, `y, `historyRows, `last, `lastModes, `frames, `held, `scene, `painted, s`sequence
      ensures Valid() && Now(s) == Rendered(old(Now(s))) && frames.Some? && !frames.value.ExitReply?
      ensures frames.value.ScreenReply? ==>
        painted && scene == Now(s) && (frames.value.frame.full <==> full || |old(last)| != rows)
      ensures frames.value.ErrorReply? ==> scene == old(scene)
    {
      Scroll(s);
      var shown := Rows(s);
      Emit(s, full, shown);
    }

    /** render. A frozen reader is left alone unless the whole screen is asked for; otherwise what the
        engine holds for this viewer is on its way to it, and an unread frame gives way to a full one. */
    method Render(s: Session, full0: bool)
      requires Valid() && s.Valid()
      modifies this, s`sequence
      ensures Valid() && (old(ended) ==> ended) && SeenOf(old(log), log, old(scene), old(scene)) && taken >= old(taken)
      ensures Now(s) == if full0 then Rendered(old(Now(s))) else Repainted(old(Now(s)))
      ensures old(Frozen()) && !full0 ==> unchanged(this) && unchanged(s)
      ensures !(old(Frozen()) && !full0) ==>
        && frames.Some? && !frames.value.ExitReply?
        && (frames.value.ScreenReply? ==> painted && scene == Now(s))
        && (frames.value.ScreenReply? ==>
             (frames.value.frame.full <==> full0 || |old(last)| != rows || (old(frames).Some? && taken == old(taken))))
        && (frames.value.ErrorReply? ==> scene == old(scene))
    {
      if history > 0 && historyRows.Some? && !full0 {
        return;
      }
      var full := Drain(full0);
      Paint(s, full);
    }

    /** What a request of the viewer changes before the repaint that answers it. */
    method Prepare(ghost s: Session, scrollback: nat, look: Look)
      requires Valid()
      modifies `cols, `rows, `x, `y, `follow, `history, `historyRows, `last
      ensures Valid() && last == []
      ensures Now(s) == Prepared(old(Now(s)), scrollback, look)
    {
      match look {
        case Viewport(nx, ny, nfollow) =>
          historyRows, follow, x, y := None, nfollow, nx, ny;
          if nfollow { history := 0; }
        case History(lines) =>
          historyRows := None;
          history := Max(0, Min(scrollback, history + lines));
          follow := history == 0;
        case Refresh =>
        case Resize(ncols, nrows) =>
          cols, rows := Max(1, Min(1000, ncols)), Max(1, Min(500, nrows));
          historyRows := None;
      }
      last := [];
    }

    /** Typing leaves history; the screen is repainted only if that changed what is shown. */
    method Type(s: Session)
      requires Valid() && s.Valid()
      modifies this, s`sequence
      ensures Valid() && (old(ended) ==> ended) && SeenOf(old(log), log, old(scene), old(scene))
      ensures Now(s) == Typed(old(Now(s))) && (scene == old(scene) || scene == Now(s))
      ensures old(history) > 0 ==> frames.Some? && !frames.value.ExitReply? && (frames.value.ScreenReply? ==> scene == Now(s))
    {
      var wasHistory := history > 0;
      follow, history, historyRows := true, 0, None;
      if wasHistory {
        last := [];
        Render(s, true);
      }
    }

    /** The screen was resized, or for a follower switched with the alternate one: nothing is left of the
        last frame to build a delta on. */
    method Invalidate(switched: bool)
      requires Valid()
      modifies `x, `y, `last
      ensures Valid() && last == [] && (x, y) == if switched && follow then (0, 0) else (old(x), old(y))
    {
      if switched {
        if follow { x, y := 0, 0; }
      }
      last := [];
    }

    /** Output scrolled lines off the screen: a reader keeps its place. */
    method Anchor(scrollback: nat, added: nat)
      requires Valid()
      modifies `history
      ensures Valid() && history == if old(history) > 0 then Min(scrollback, old(history) + added) else 0
    {
      if history > 0 { history := Min(scrollback, history + added); }
    }

    /** The end of pump for this viewer: the last screen goes out inside the exit. An exit that carries an
        error is read as that error. */
    method Exit(s: Session)
      requires Valid() && s.Valid()
      modifies this, s`sequence
      ensures Valid() && (old(ended) ==> ended) && SeenOf(old(log), log, old(scene), scene)
      ensures Now(s) == Rendered(old(Now(s))) && (scene == old(scene) || scene == Now(s))
      ensures frames.Some? && !frames.value.ScreenReply?
      ensures frames.value.ExitReply? ==>
        if frames.value.last.Some? then painted && scene == Now(s)
        else taken > old(taken) && (ended || (painted && scene == Now(s) && Shows(display, held)))
    {
      Render(s, true);
      Pause();
      SendLast(frames);
    }

    /** What is still in the channel goes out inside the exit, and an error instead of it. */
    method SendLast(final: Option<Reply>)
      requires Valid() && final == frames && (final.Some? ==> !final.value.ExitReply?)
      modifies `frames, `display, `ended, `taken, `log, `moment
      ensures Valid() && SeenOf(old(log), log, scene, scene) && taken == old(taken) && ended == old(ended)
      ensures final.None? ==> frames == Some(ExitReply(None)) && display == old(display)
      ensures final.Some? ==>
        frames == Some(if final.value.ErrorReply? then final.value else ExitReply(Some(final.value.frame)))
    {
      frames := None;
      if final.Some? && final.value.ErrorReply? {
        Send(final.value);
      } else {
        Offer(ExitReply(if final.Some? && final.value.ScreenReply? then Some(final.value.frame) else None));
      }
    }
  }

  // ---- runs ----

  /** The application sets or resets a mode. */
  datatype Switch = Switch(mode: int, on: bool)

  datatype Step =
    | Output(vt: Vt, switches: seq<Switch>, added: nat)
    | Repaint
    | Asks(look: Look)
    | Types
    | SizeChange(vt: Vt, cols: int, rows: int)
    | ScreenSwitch
    | Fails(error: string)
    | ViewerRuns
    | Ends

  // ---- what each step makes of the scene ----

  /** An emulator keeps its cursor on its screen. */
  predicate Fits(vt: Vt, cols: int, rows: int) {
    cols >= 1 && rows >= 1 && 0 <= vt.cursor.x < cols && 0 <= vt.cursor.y < rows
  }

  /** The emulator, or its size, becomes something else. */
  function Changed(c: Scene, vt: Vt, cols: int, rows: int): Scene {
    if Fits(vt, cols, rows) then c.(vt := vt, width := cols, height := rows) else c
  }

  function Switched(modes: set<int>, switches: seq<Switch>): (r: set<int>)
    requires OneTracker(modes)
    ensures OneTracker(r)
  {
    if switches == [] then modes
    else
      var w := switches[|switches| - 1];
      var before := Switched(modes, switches[..|switches| - 1]);
      if w.on then Enabled(before, w.mode) else Disabled(before, w.mode)
  }

  /** Output scrolled lines off the screen: a reader keeps its place. */
  function Anchored(c: Scene, added: nat): Scene {
    if c.history > 0 then c.(history := Min(|c.vt.scrollback|, c.history + added)) else c
  }

  function Emulated(c: Scene, vt: Vt, switches: seq<Switch>, added: nat): (r: Scene)
    requires OneTracker(c.modes)
    ensures OneTracker(r.modes)
  {
    Anchored(Changed(c, vt, c.width, c.height).(modes := Switched(c.modes, switches)), added)
  }

  /** While output scrolls lines off the screen a reader's first row stays the same line. */
  lemma ReaderKeepsItsPlace(c: Scene, vt: Vt, switches: seq<Switch>, added: nat)
    requires OneTracker(c.modes) && Fits(vt, c.width, c.height) && 0 < c.history <= |c.vt.scrollback|
    requires |vt.scrollback| == |c.vt.scrollback| + added
    ensures var n := Emulated(c, vt, switches, added);
      n.vt == vt && |n.vt.scrollback| - n.history == |c.vt.scrollback| - c.history
  {}

  function Next(c: Scene, step: Step): (r: Scene)
    requires OneTracker(c.modes)
    ensures OneTracker(r.modes)
  {
    match step
    case Output(vt, switches, added) => Repainted(Emulated(c, vt, switches, added))
    case Repaint => Repainted(c)
    case Asks(look) => Rendered(Prepared(c, |c.vt.scrollback|, look))
    case Types => Typed(c)
    case SizeChange(vt, cols, rows) => Changed(c, vt, cols, rows)
    case ScreenSwitch => if c.follow then c.(x := 0, y := 0) else c
    case Fails(_) => c
    case ViewerRuns => c
    case Ends => Rendered(c)
  }

  /** Whether the step paints, so that a frame of its scene, or an error, is on its way. */
  predicate Paints(c: Scene, step: Step)
    requires OneTracker(c.modes)
  {
    match step
    case Output(vt, switches, added) =>
      var d := Emulated(c, vt, switches, added);
      !(d.history > 0 && d.frozen.Some?)
    case Repaint => !(c.history > 0 && c.frozen.Some?)
    case Asks(_) => true
    case Types => c.history > 0
    case _ => false
  }

  method Change(s: Session, vt: Vt, cols: int, rows: int)
    requires s.Valid()
    modifies s`vt, s`cols, s`rows
    ensures s.Valid()
    ensures (s.vt, s.cols, s.rows) == if Fits(vt, cols, rows) then (vt, cols, rows) else old((s.vt, s.cols, s.rows))
  {
    if Fits(vt, cols, rows) {
      s.vt, s.cols, s.rows := vt, cols, rows;
    }
  }

  /** The emulator's mode callbacks while it works through output. */
  method SwitchModes(s: Session, switches: seq<Switch>)
    requires s.Valid()
    modifies s`modes
    ensures s.Valid() && s.modes == Switched(old(s.modes), switches)
  {
    for i := 0 to |switches|
      invariant s.Valid() && s.modes == Switched(old(s.modes), switches[..i])
    {
      var w := switches[i];
      assert switches[..i + 1][..i] == switches[..i];
      s.modes := if w.on then Enabled(s.modes, w.mode) else Disabled(s.modes, w.mode);
    }
    assert switches[..|switches|] == switches;
  }

  method Emulate(s: Session, v: View, vt: Vt, switches: seq<Switch>, added: nat)
    requires s.Valid() && v.Valid()
    modifies s`vt, s`cols, s`rows, s`modes, v`history
    ensures s.Valid() && v.Valid() && v.Now(s) == Emulated(old(v.Now(s)), vt, switches, added)
  {
    Change(s, vt, s.cols, s.rows);
    SwitchModes(s, switches);
    v.Anchor(|s.vt.scrollback|, added);
  }

  /** Output and the repaint after it. */
  method Work(s: Session, v: View, vt: Vt, switches: seq<Switch>, added: nat)
    requires s.Valid() && v.Valid()
    modifies s, v
    ensures s.Valid() && v.Valid() && (old(v.ended) ==> v.ended)
    ensures v.Now(s) == Repainted(Emulated(old(v.Now(s)), vt, switches, added))
    ensures SeenOf(old(v.log), v.log, old(v.scene), old(v.scene)) && (v.scene == old(v.scene) || v.scene == v.Now(s))
    ensures Paints(old(v.Now(s)), Output(vt, switches, added)) ==>
      v.frames.Some? && !v.frames.value.ExitReply? && (v.frames.value.ScreenReply? ==> v.scene == v.Now(s))
  {
    Emulate(s, v, vt, switches, added);
    v.Render(s, false);
  }

  /** A request of the viewer and the repaint that answers it. */
  method Answer(s: Session, v: View, look: Look)
    requires s.Valid() && v.Valid()
    modifies s`sequence, v
    ensures s.Valid() && v.Valid() && (old(v.ended) ==> v.ended)
    ensures v.Now(s) == Rendered(Prepared(old(v.Now(s)), |s.vt.scrollback|, look))
    ensures SeenOf(old(v.log), v.log, old(v.scene), old(v.scene))
    ensures v.frames.Some? && !v.frames.value.ExitReply?
    ensures v.scene == if v.frames.value.ScreenReply? then v.Now(s) else old(v.scene)
  {
    v.Prepare(s, |s.vt.scrollback|, look);
    v.Render(s, true);
  }

  /** The steps that paint nothing of the session. */
  method Disturb(s: Session, v: View, step: Step)
    requires s.Valid() && v.Valid()
    requires step.SizeChange? || step.ScreenSwitch? || step.Fails? || step.ViewerRuns? || step.Ends?
    modifies s, v
    ensures s.Valid() && v.Valid() && (old(v.ended) ==> v.ended)
    ensures v.Now(s) == Next(old(v.Now(s)), step) && (v.scene == old(v.scene) || v.scene == v.Now(s))
    ensures SeenOf(old(v.log), v.log, old(v.scene), v.scene)
    ensures Paints(old(v.Now(s)), step) ==>
      v.frames.Some? && !v.frames.value.ExitReply? && (v.frames.value.ScreenReply? ==> v.scene == v.Now(s))
    ensures step.ViewerRuns? && v.reading(old(v.moment)) && !old(v.ended) ==> v.frames.None?
    ensures step.Fails? ==> v.frames == Some(ErrorReply(step.error))
    ensures step.Ends? ==> v.frames.Some? && !v.frames.value.ScreenReply?
  {
    match step
    case SizeChange(vt, cols, rows) =>
      Change(s, vt, cols, rows);
      v.Invalidate(false);
    case ScreenSwitch =>
      v.Invalidate(true);
    case Fails(error) =>
      v.Offer(ErrorReply(error));
    case ViewerRuns =>
      v.Pause();
    case Ends =>
      v.Exit(s);
  }

  method Advance(s: Session, v: View, step: Step)
    requires s.Valid() && v.Valid()
    modifies s, v
    ensures s.Valid() && v.Valid() && (old(v.ended) ==> v.ended)
    ensures v.Now(s) == Next(old(v.Now(s)), step) && (v.scene == old(v.scene) || v.scene == v.Now(s))
    ensures SeenOf(old(v.log), v.log, old(v.scene), v.scene)
    ensures Paints(old(v.Now(s)), step) ==>
      v.frames.Some? && !v.frames.value.ExitReply? && (v.frames.value.ScreenReply? ==> v.scene == v.Now(s))
    ensures step.ViewerRuns? && v.reading(old(v.moment)) && !old(v.ended) ==> v.frames.None?
    ensures step.Fails? ==> v.frames == Some(ErrorReply(step.error))
    ensures step.Ends? ==> v.frames.Some? && !v.frames.value.ScreenReply?
  {
    match step
    case Output(vt, switches, added) =>
      Work(s, v, vt, switches, added);
    case Repaint =>
      v.Render(s, false);
    case Asks(look) =>
      Answer(s, v, look);
    case Types =>
      v.Type(s);
    case _ =>
      Disturb(s, v, step);
  }

  function Scenes(c: Scene, steps: seq<Step>): (r: seq<Scene>)
    requires OneTracker(c.modes)
    ensures |r| == |steps| + 1 && forall i :: 0 <= i < |r| ==> OneTracker(r[i].modes)
  {
    if steps == [] then [c]
    else
      var before := Scenes(c, steps[..|steps| - 1]);
      before + [Next(before[|steps| - 1], steps[|steps| - 1])]
  }

  /** The n-th sight of log behind the first from was rendered of scene at[n] of scenes, or before the run, of
      first, if at[n] is negative; later sights are never of earlier scenes, nor of later ones than the latest. */
  ghost predicate Dated(log: seq<Sight>, from: nat, at: seq<int>, latest: int, first: Scene, scenes: seq<Scene>) {
    && |log| == from + |at| && latest < |scenes|
    && (forall n :: 0 <= n < |at| ==> at[n] <= latest && log[from + n].scene == if at[n] < 0 then first else scenes[at[n]])
    && forall n, m :: 0 <= n < m < |at| ==> at[n] <= at[m]
  }

  function SceneAt(first: Scene, scenes: seq<Scene>, n: int): Scene
    requires n < |scenes|
  {
    if n < 0 then first else scenes[n]
  }

  /** One more step, which leads to the scene next: what was seen meanwhile is of the latest scene or of next. */
  lemma DatedGrows(log: seq<Sight>, longer: seq<Sight>, from: nat, at: seq<int>, latest: int, first: Scene, scenes: seq<Scene>,
                   next: Scene, shown: Scene) returns (at': seq<int>, latest': int)
    requires Dated(log, from, at, latest, first, scenes)
    requires SeenOf(log, longer, SceneAt(first, scenes, latest), shown)
    requires shown == SceneAt(first, scenes, latest) || shown == next
    ensures Dated(longer, from, at', latest', first, scenes + [next]) && SceneAt(first, scenes + [next], latest') == shown
  {
    var a := SceneAt(first, scenes, latest);
    at' := at + seq(|longer| - |log|, n requires 0 <= n < |longer| - |log| => if longer[|log| + n].scene == a then latest else |scenes|);
    latest' := if shown == a then latest else |scenes|;
    forall n | 0 <= n < |at'|
      ensures at'[n] <= latest' && longer[from + n].scene == if at'[n] < 0 then first else (scenes + [next])[at'[n]]
    {
      if n < |at| { assert longer[from + n] == log[from + n]; }
    }
    forall n, m | 0 <= n < m < |at'| ensures at'[n] <= at'[m] {
      if |at| <= n { assert longer[from + n].scene == a || longer[from + m].scene == shown; }
    }
  }

  /** However output, requests and the viewer's reads interleave, every screen the viewer ever shows is
      exactly what the engine held at one of the scenes the steps lead through, the one its frame was
      rendered of, and what it shows never goes back to an earlier scene. A negative index in at is a
      screen of a frame rendered before the run. */
  method Run(s: Session, v: View, steps: seq<Step>) returns (ghost at: seq<int>)
    requires s.Valid() && v.Valid()
    modifies s, v
    ensures s.Valid() && v.Valid() && old(v.log) <= v.log && |v.log| == |old(v.log)| + |at|
    ensures v.Now(s) == Scenes(old(v.Now(s)), steps)[|steps|]
    ensures forall n :: 0 <= n < |at| ==>
      var sight := v.log[|old(v.log)| + n];
      && at[n] <= |steps| && sight.scene == (if at[n] < 0 then old(v.scene) else Scenes(old(v.Now(s)), steps)[at[n]])
      && Shows(sight.display, HeldIn(sight.scene))
    ensures AllSeen(v.log, |old(v.log)|)
    ensures forall n, m :: 0 <= n < m < |at| ==> at[n] <= at[m]
  {
    ghost var start, first, from, latest := v.Now(s), v.scene, |v.log|, -1;
    at := [];
    for i := 0 to |steps|
      invariant s.Valid() && v.Valid() && old(v.log) <= v.log
      invariant v.Now(s) == Scenes(start, steps[..i])[i]
      invariant Dated(v.log, from, at, latest, first, Scenes(start, steps[..i]))
      invariant v.scene == SceneAt(first, Scenes(start, steps[..i]), latest)
    {
      assert steps[..i + 1][..i] == steps[..i];
      ghost var scenes, log := Scenes(start, steps[..i]), v.log;
      Advance(s, v, steps[i]);
      assert Scenes(start, steps[..i + 1]) == scenes + [v.Now(s)];
      at, latest := DatedGrows(log, v.log, from, at, latest, first, scenes, v.Now(s), v.scene);
    }
    assert steps[..|steps|] == steps;
    TrueIsSeen(v.log, from);
  }

  /** Every sight from the from-th on shows its scene. */
  ghost predicate AllSeen(log: seq<Sight>, from: nat) { forall i :: from <= i < |log| ==> Displays(log[i].display, log[i].scene) }

  lemma TrueIsSeen(log: seq<Sight>, from: nat)
    requires AllTrue(log)
    ensures AllSeen(log, from)
  {
    forall i | from <= i < |log| ensures Displays(log[i].display, log[i].scene) { HeldIsSeen(log[i].display, log[i].scene); }
  }

  /** The rows a reader sees were frozen in this step or before: when they are, they are the lines that far back. */
  lemma NextFreezes(c: Scene, step: Step)
    requires OneTracker(c.modes)
    ensures var n := Next(c, step);
      n.history > 0 && n.frozen.Some? && n.frozen != c.frozen ==> |n.frozen.value| == Max(0, n.rows) && Reads(n, n.frozen.value)
  {
    match step
    case Output(vt, switches, added) => Freezes(Emulated(c, vt, switches, added));
    case Repaint => Freezes(c);
    case Asks(look) => Freezes(Prepared(c, |c.vt.scrollback|, look));
    case Ends => Freezes(c);
    case _ =>
  }

  lemma Freezes(c: Scene)
    ensures var n := Rendered(c);
      n.history > 0 && n.frozen != c.frozen ==> n.frozen.Some? && |n.frozen.value| == Max(0, n.rows) && Reads(n, n.frozen.value)
  {
    if c.history > 0 && c.frozen.None? { FrozenIsRead(c); }
  }
}
