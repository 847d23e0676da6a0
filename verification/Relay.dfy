/** One pane's output buffer: bounded, dropping the oldest chunks past a cap, cut into frames. */
module Relay {
  import opened Prelude
  import opened Utf8
  import opened PtyOutput

  const FRAME_BYTES := 65536

  /** One output frame; dropped is how many bytes were lost before it. */
  datatype Frame = Frame(data: seq<byte>, dropped: nat)

  /** The chunks push keeps: all of them within the cap, else without the oldest, but never less than the newest. */
  function Kept(buffer: seq<seq<byte>>, cap: int): (r: seq<seq<byte>>)
    ensures |r| <= |buffer| && r == buffer[|buffer| - |r|..]
    ensures |buffer| > 0 ==> |r| > 0
    ensures |Flatten(r)| <= cap || |r| <= 1
    ensures |r| < |buffer| ==> |Flatten(buffer[|buffer| - |r| - 1..])| > cap
    decreases |buffer|
  {
    if |Flatten(buffer)| > cap && |buffer| > 1 then Kept(buffer[1..], cap) else buffer
  }

  lemma KeptStep(buffer: seq<seq<byte>>, cap: int)
    requires |Flatten(buffer)| > cap && |buffer| > 1
    ensures Kept(buffer, cap) == Kept(buffer[1..], cap)
  {}

  /** How many leading continuation bytes trimOrphanBytes cuts: at most three. */
  function Orphans(data: seq<byte>): (n: nat)
    ensures n <= 3 && n <= |data|
    ensures n == 0 <==> data == [] || !Continuation(data[0])
    ensures n < 3 && n < |data| ==> !Continuation(data[n])
    ensures forall i :: 0 <= i < n ==> Continuation(data[i])
  {
    if |data| > 0 && Continuation(data[0]) then
      if |data| > 1 && Continuation(data[1]) then
        if |data| > 2 && Continuation(data[2]) then 3 else 2
      else 1
    else 0
  }

  method TrimOrphanBytes(data: seq<byte>) returns (r: seq<byte>)
    ensures r == data[Orphans(data)..]
  {
    var cut := 0;
    while cut < |data| && cut < 3 && Continuation(data[cut])
      invariant 0 <= cut <= Orphans(data)
    {
      cut := cut + 1;
    }
    r := data[cut..];
  }

  /** frameEnd: at most a frame's worth further on, and in well-formed data never inside a character. */
  method FrameEnd(data: seq<byte>, offset: nat) returns (end: nat)
    requires offset < |data|
    ensures offset < end <= |data| && end - offset <= FRAME_BYTES
    ensures end < |data| ==> end - offset >= FRAME_BYTES - 3
    ensures WellFormed(data) ==> end == |data| || !Continuation(data[end])
  {
    end := offset + FRAME_BYTES;
    if end >= |data| { return |data|; }
    if WellFormed(data) { NoFourContinuations(data, end); }
    var back := 0;
    while back < 3 && end > offset + 1
      invariant 0 <= back <= 3 && end == offset + FRAME_BYTES - back
      invariant forall i :: end < i <= offset + FRAME_BYTES ==> Continuation(data[i])
    {
      if !Continuation(data[end]) { return end; }
      end := end - 1;
      back := back + 1;
    }
  }

  function Data(frames: seq<Frame>): seq<byte> {
    if frames == [] then [] else frames[0].data + Data(frames[1..])
  }

  function Reported(frames: seq<Frame>): nat {
    if frames == [] then 0 else frames[0].dropped + Reported(frames[1..])
  }

  lemma {:induction false} FramesSnoc(frames: seq<Frame>, f: Frame)
    ensures Data(frames + [f]) == Data(frames) + f.data
    ensures Reported(frames + [f]) == Reported(frames) + f.dropped
  {
    if frames == [] {
      assert frames + [f] == [f] && [f][1..] == [];
      assert Data([]) == [] && Reported([]) == 0;
    } else {
      assert (frames + [f])[1..] == frames[1..] + [f];
      FramesSnoc(frames[1..], f);
    }
  }

  lemma {:induction false} FramesAppend(a: seq<Frame>, b: seq<Frame>)
    ensures Data(a + b) == Data(a) + Data(b)
    ensures Reported(a + b) == Reported(a) + Reported(b)
  {
    if a == [] { assert a + b == b; }
    else {
      assert (a + b)[1..] == a[1..] + b;
      FramesAppend(a[1..], b);
    }
  }

  predicate GoodFrames(frames: seq<Frame>) {
    forall f :: f in frames ==> |f.data| <= FRAME_BYTES && WellFormed(f.data)
  }

  /** The framing loop of flush: the loss is reported once, on the first frame. */
  method CutFrames(data: seq<byte>, lost: nat) returns (frames: seq<Frame>)
    ensures Data(frames) == data && Reported(frames) == lost
    ensures forall f :: f in frames ==> |f.data| <= FRAME_BYTES
    ensures OnlyFirst(frames)
    ensures WellFormed(data) ==> GoodFrames(frames)
  {
    frames := [];
    var offset, dropped := 0, lost;
    assert data[..0] == [] && data[0..] == data;
    while offset < |data|
      invariant offset <= |data| && Data(frames) == data[..offset]
      invariant Reported(frames) + dropped == lost && (frames != [] ==> dropped == 0)
      invariant forall f :: f in frames ==> |f.data| <= FRAME_BYTES
      invariant OnlyFirst(frames)
      invariant WellFormed(data) ==> GoodFrames(frames) && Boundary(data, offset)
    {
      var end := FrameEnd(data, offset);
      if WellFormed(data) {
        StartIsBoundary(data, end);
        Between(data, offset, end);
      }
      FramesSnoc(frames, Frame(data[offset..end], dropped));
      assert data[..end] == data[..offset] + data[offset..end];
      frames := frames + [Frame(data[offset..end], dropped)];
      dropped := 0;
      offset := end;
    }
    assert data[..|data|] == data;
    if |data| == 0 && dropped > 0 {
      FramesSnoc(frames, Frame([], dropped));
      frames := frames + [Frame([], dropped)];
    }
  }

  // ---- where in the output a frame's data stands ----

  /** The first frame's data stands in output behind the bytes it reports lost, and trims[0] more; then the next. */
  predicate Placed(frames: seq<Frame>, trims: seq<nat>, output: seq<byte>)
    requires |frames| == |trims|
  {
    if frames == [] then true
    else
      var at := frames[0].dropped + trims[0];
      && at + |frames[0].data| <= |output| && output[at..at + |frames[0].data|] == frames[0].data
      && (forall i :: frames[0].dropped <= i < at ==> Continuation(output[i]))
      && Placed(frames[1..], trims[1..], output[at + |frames[0].data|..])
  }

  function Unplaced(frames: seq<Frame>, trims: seq<nat>, output: seq<byte>): seq<byte>
    requires |frames| == |trims| && Placed(frames, trims, output)
  {
    if frames == [] then output
    else Unplaced(frames[1..], trims[1..], output[frames[0].dropped + trims[0] + |frames[0].data|..])
  }

  lemma {:induction false} PlacedAppend(a: seq<Frame>, ta: seq<nat>, b: seq<Frame>, tb: seq<nat>, output: seq<byte>)
    requires |a| == |ta| && |b| == |tb| && Placed(a, ta, output) && Placed(b, tb, Unplaced(a, ta, output))
    ensures Placed(a + b, ta + tb, output) && Unplaced(a + b, ta + tb, output) == Unplaced(b, tb, Unplaced(a, ta, output))
  {
    if a == [] {
      assert a + b == b && ta + tb == tb;
    } else {
      var f, t := a + b, ta + tb;
      var left := output[a[0].dropped + ta[0] + |a[0].data|..];
      assert f[0] == a[0] && f[1..] == a[1..] + b && t[0] == ta[0] && t[1..] == ta[1..] + tb;
      PlacedAppend(a[1..], ta[1..], b, tb, left);
      assert Placed(f[1..], t[1..], left);
    }
  }

  /** More output behind what was placed changes nothing. */
  lemma {:induction false} PlacedGrows(frames: seq<Frame>, trims: seq<nat>, output: seq<byte>, more: seq<byte>)
    requires |frames| == |trims| && Placed(frames, trims, output)
    ensures Placed(frames, trims, output + more) && Unplaced(frames, trims, output + more) == Unplaced(frames, trims, output) + more
  {
    if frames != [] {
      var at := frames[0].dropped + trims[0];
      var end := at + |frames[0].data|;
      assert (output + more)[at..end] == output[at..end];
      assert (output + more)[end..] == output[end..] + more;
      PlacedGrows(frames[1..], trims[1..], output[end..], more);
    }
  }

  /** Frames cut from one stretch of data, the loss reported on the first, stand where the stretch does. */
  lemma {:induction false} CutsArePlaced(frames: seq<Frame>, output: seq<byte>)
    requires (forall i :: 0 <= i < |frames| ==> frames[i].dropped == 0) && Data(frames) == output
    ensures Placed(frames, Zeros(|frames|), output) && Unplaced(frames, Zeros(|frames|), output) == []
  {
    if frames != [] {
      assert Zeros(|frames|)[1..] == Zeros(|frames| - 1);
      assert output[|frames[0].data|..] == Data(frames[1..]);
      CutsArePlaced(frames[1..], output[|frames[0].data|..]);
    }
  }

  function Zeros(n: nat): (r: seq<nat>)
    ensures |r| == n && forall i :: 0 <= i < n ==> r[i] == 0
  {
    seq(n, _ => 0)
  }

  predicate NoneTrimmed(trims: seq<nat>) { forall i :: 0 <= i < |trims| ==> trims[i] == 0 }

  function SumOf(trims: seq<nat>): nat { if trims == [] then 0 else trims[0] + SumOf(trims[1..]) }

  /** The lengths of a placing: everything is emitted, reported, trimmed or left. */
  lemma {:induction false} PlacedLengths(frames: seq<Frame>, trims: seq<nat>, output: seq<byte>)
    requires |frames| == |trims| && Placed(frames, trims, output)
    ensures |Data(frames)| + Reported(frames) + SumOf(trims) + |Unplaced(frames, trims, output)| == |output|
  {
    if frames != [] {
      PlacedLengths(frames[1..], trims[1..], output[frames[0].dropped + trims[0] + |frames[0].data|..]);
    }
  }

  /** Without trimming a frame's data is the output behind the data and the reported losses before it. */
  lemma {:induction false} PlaceOf(frames: seq<Frame>, trims: seq<nat>, output: seq<byte>, i: nat)
    requires |frames| == |trims| && Placed(frames, trims, output) && i < |frames| && NoneTrimmed(trims)
    ensures StandsAt(frames, output, i)
  {
    if i == 0 {
      assert frames[..0] == [] && frames[..1] == [frames[0]] && [frames[0]][1..] == [];
      assert Data(frames[..0]) == [] && Reported(frames[1..1]) == 0 && Reported(frames[..1]) == frames[0].dropped;
    } else {
      var used := frames[0].dropped + |frames[0].data|;
      PlaceOf(frames[1..], trims[1..], output[used..], i - 1);
      StandsBehind(frames, output, i);
    }
  }

  lemma StandsBehind(frames: seq<Frame>, output: seq<byte>, i: nat)
    requires 0 < i < |frames|
    requires var used := frames[0].dropped + |frames[0].data|;
      used <= |output| && StandsAt(frames[1..], output[used..], i - 1)
    ensures StandsAt(frames, output, i)
  {
    var used := frames[0].dropped + |frames[0].data|;
    assert frames[..i][0] == frames[0] && frames[..i][1..] == frames[1..][..i - 1];
    assert frames[..i + 1][0] == frames[0] && frames[..i + 1][1..] == frames[1..][..i];
    var at := |Data(frames[1..][..i - 1])| + Reported(frames[1..][..i]);
    assert output[used..][at..at + |frames[i].data|] == output[used + at..used + at + |frames[i].data|];
  }

  predicate StandsAt(frames: seq<Frame>, output: seq<byte>, i: nat)
    requires i < |frames|
  {
    var at := |Data(frames[..i])| + Reported(frames[..i + 1]);
    at + |frames[i].data| <= |output| && output[at..at + |frames[i].data|] == frames[i].data
  }

  // ---- the books of a pane ----

  /** Everything pushed is in the frames, reported lost by them, trimmed, lost since, or in the buffer: in this order. */
  predicate Accounts(emitted: seq<Frame>, trims: seq<nat>, buffer: seq<seq<byte>>, dropped: nat, pushed: seq<byte>) {
    && |trims| == |emitted| && Placed(emitted, trims, pushed)
    && |Unplaced(emitted, trims, pushed)| == dropped + |Flatten(buffer)|
    && Unplaced(emitted, trims, pushed)[dropped..] == Flatten(buffer)
  }

  /** Only a frame that reports a loss had bytes trimmed, and at most three. */
  predicate TrimsOk(emitted: seq<Frame>, trims: seq<nat>) {
    |trims| == |emitted| && forall i :: 0 <= i < |trims| ==> trims[i] <= 3 && (trims[i] > 0 ==> emitted[i].dropped > 0)
  }

  /** With well-formed chunks nothing is trimmed, and frames are well-formed. */
  predicate Tidy(emitted: seq<Frame>, trims: seq<nat>, buffer: seq<seq<byte>>) {
    AllWellFormed(buffer) && GoodFrames(emitted) && NoneTrimmed(trims)
  }

  lemma PushAccounts(emitted: seq<Frame>, trims: seq<nat>, buffer: seq<seq<byte>>, dropped: nat, pushed: seq<byte>, chunk: seq<byte>)
    requires Accounts(emitted, trims, buffer, dropped, pushed)
    ensures Accounts(emitted, trims, buffer + [chunk], dropped, pushed + chunk)
  {
    FlattenSnoc(buffer, chunk);
    PlacedGrows(emitted, trims, pushed, chunk);
    var rest := Unplaced(emitted, trims, pushed);
    assert (rest + chunk)[dropped..] == rest[dropped..] + chunk;
  }

  lemma DropAccounts(emitted: seq<Frame>, trims: seq<nat>, buffer: seq<seq<byte>>, dropped: nat, pushed: seq<byte>)
    requires Accounts(emitted, trims, buffer, dropped, pushed) && |buffer| > 0
    ensures Accounts(emitted, trims, buffer[1..], dropped + |buffer[0]|, pushed)
  {
    var rest := Unplaced(emitted, trims, pushed);
    assert Flatten(buffer) == buffer[0] + Flatten(buffer[1..]);
    assert rest[dropped + |buffer[0]|..] == rest[dropped..][|buffer[0]|..];
  }

  /** What one flush trims, frame by frame. */
  function TrimsFor(frames: seq<Frame>, cut: nat): (r: seq<nat>)
    ensures |r| == |frames| && (frames != [] ==> r[0] == cut && r[1..] == Zeros(|frames[1..]|))
  {
    if frames == [] then [] else [cut] + Zeros(|frames| - 1)
  }

  lemma FlushedAccounts(emitted: seq<Frame>, trims: seq<nat>, frames: seq<Frame>, more: seq<nat>, pushed: seq<byte>)
    requires |trims| == |emitted| && |more| == |frames| && Placed(emitted, trims, pushed)
    requires Placed(frames, more, Unplaced(emitted, trims, pushed)) && Unplaced(frames, more, Unplaced(emitted, trims, pushed)) == []
    ensures Accounts(emitted + frames, trims + more, [], 0, pushed)
  {
    PlacedAppend(emitted, trims, frames, more, pushed);
  }

  lemma TrimsGrow(emitted: seq<Frame>, trims: seq<nat>, frames: seq<Frame>, cut: nat)
    requires TrimsOk(emitted, trims) && cut <= 3 && (frames != [] && cut > 0 ==> frames[0].dropped > 0)
    ensures TrimsOk(emitted + frames, trims + TrimsFor(frames, cut))
    ensures NoneTrimmed(trims) && cut == 0 ==> NoneTrimmed(trims + TrimsFor(frames, cut))
  {
    var more := TrimsFor(frames, cut);
    forall i | 0 <= i < |more| ensures more[i] == if i == 0 then cut else 0 { assert i > 0 ==> more[i] == more[1..][i - 1]; }
  }

  /** The frames of one flush stand in what is left of the output. */
  lemma PendingIsPlaced(frames: seq<Frame>, cut: nat, dropped: nat, pending: seq<byte>, rest: seq<byte>)
    requires |rest| == dropped + |pending| && rest[dropped..] == pending && (dropped == 0 ==> cut == 0)
    requires cut <= |pending| && (forall i :: 0 <= i < cut ==> Continuation(pending[i]))
    requires Data(frames) == pending[cut..] && Reported(frames) == dropped && OnlyFirst(frames)
    ensures Placed(frames, TrimsFor(frames, cut), rest) && Unplaced(frames, TrimsFor(frames, cut), rest) == []
  {
    if frames != [] {
      OnlyFirstReports(frames);
      DataCons(frames);
      SomeArePlaced(frames, Data(frames[1..]), cut, pending, rest);
    }
  }

  lemma DataCons(frames: seq<Frame>)
    requires frames != []
    ensures Data(frames) == frames[0].data + Data(frames[1..])
  {}

  predicate OnlyFirst(frames: seq<Frame>) { forall i :: 0 < i < |frames| ==> frames[i].dropped == 0 }

  lemma SomeArePlaced(frames: seq<Frame>, more: seq<byte>, cut: nat, pending: seq<byte>, rest: seq<byte>)
    requires frames != [] && more == Data(frames[1..]) && OnlyFirst(frames)
    requires |rest| == frames[0].dropped + |pending| && rest[frames[0].dropped..] == pending
    requires cut <= |pending| && pending[cut..] == frames[0].data + more && (forall i :: 0 <= i < cut ==> Continuation(pending[i]))
    ensures Placed(frames, TrimsFor(frames, cut), rest) && Unplaced(frames, TrimsFor(frames, cut), rest) == []
  {
    FirstStands(frames[0], more, cut, pending, rest);
    TailIsPlaced(frames, more, cut, rest);
  }

  /** The first frame stands at the cut, and the others follow. */
  lemma TailIsPlaced(frames: seq<Frame>, more: seq<byte>, cut: nat, rest: seq<byte>)
    requires frames != [] && more == Data(frames[1..]) && OnlyFirst(frames)
    requires var at, end := frames[0].dropped + cut, frames[0].dropped + cut + |frames[0].data|;
      && end <= |rest| && rest[at..end] == frames[0].data && rest[end..] == more
      && forall i :: frames[0].dropped <= i < at ==> Continuation(rest[i])
    ensures Placed(frames, TrimsFor(frames, cut), rest) && Unplaced(frames, TrimsFor(frames, cut), rest) == []
  {
    CutsArePlaced(frames[1..], more);
    ConsIsPlaced(frames, TrimsFor(frames, cut), rest);
  }

  lemma FirstStands(first: Frame, more: seq<byte>, cut: nat, pending: seq<byte>, rest: seq<byte>)
    requires |rest| == first.dropped + |pending| && rest[first.dropped..] == pending
    requires cut <= |pending| && pending[cut..] == first.data + more && (forall i :: 0 <= i < cut ==> Continuation(pending[i]))
    ensures var at, end := first.dropped + cut, first.dropped + cut + |first.data|;
      && end <= |rest| && rest[at..end] == first.data && rest[end..] == more
      && forall i :: first.dropped <= i < at ==> Continuation(rest[i])
  {
    var at := first.dropped + cut;
    assert rest[at..] == rest[first.dropped..][cut..];
    Halves(rest, at, first.data, more);
    forall i | first.dropped <= i < at ensures Continuation(rest[i]) { assert rest[i] == pending[i - first.dropped]; }
  }

  lemma Halves(all: seq<byte>, at: nat, left: seq<byte>, right: seq<byte>)
    requires at <= |all| && all[at..] == left + right
    ensures at + |left| <= |all| && all[at..at + |left|] == left && all[at + |left|..] == right
  {
    assert all[at..at + |left|] == all[at..][..|left|];
    assert all[at + |left|..] == all[at..][|left|..];
  }

  lemma ConsIsPlaced(frames: seq<Frame>, trims: seq<nat>, output: seq<byte>)
    requires frames != [] && |frames| == |trims|
    requires var at, end := frames[0].dropped + trims[0], frames[0].dropped + trims[0] + |frames[0].data|;
      && end <= |output| && output[at..end] == frames[0].data
      && (forall i :: frames[0].dropped <= i < at ==> Continuation(output[i]))
      && Placed(frames[1..], trims[1..], output[end..]) && Unplaced(frames[1..], trims[1..], output[end..]) == []
    ensures Placed(frames, trims, output) && Unplaced(frames, trims, output) == []
  {}

  lemma {:induction false} OnlyFirstReports(frames: seq<Frame>)
    requires frames != [] && OnlyFirst(frames)
    ensures frames[0].dropped == Reported(frames)
  {
    NoneReports(frames[1..]);
  }

  lemma {:induction false} NoneReports(frames: seq<Frame>)
    requires forall i :: 0 <= i < |frames| ==> frames[i].dropped == 0
    ensures Reported(frames) == 0
  {
    if frames != [] { NoneReports(frames[1..]); }
  }

  lemma FlushIsPlaced(emitted: seq<Frame>, trims: seq<nat>, frames: seq<Frame>, cut: nat, buffer: seq<seq<byte>>, dropped: nat,
                      pushed: seq<byte>)
    requires Accounts(emitted, trims, buffer, dropped, pushed) && TrimsOk(emitted, trims)
    requires Data(frames) == Flatten(buffer)[CutOff(buffer, dropped)..] && Reported(frames) == dropped && OnlyFirst(frames)
    requires cut == CutOff(buffer, dropped)
    ensures Accounts(emitted + frames, trims + TrimsFor(frames, cut), [], 0, pushed)
    ensures TrimsOk(emitted + frames, trims + TrimsFor(frames, cut))
    ensures NoneTrimmed(trims) && cut == 0 ==> NoneTrimmed(trims + TrimsFor(frames, cut))
  {
    PendingIsPlaced(frames, cut, dropped, Flatten(buffer), Unplaced(emitted, trims, pushed));
    FlushedAccounts(emitted, trims, frames, TrimsFor(frames, cut), pushed);
    if frames != [] { OnlyFirstReports(frames); }
    TrimsGrow(emitted, trims, frames, cut);
  }

  class Terminal {
    var buffer: seq<seq<byte>>
    var pending: nat
    var dropped: nat
    /** Everything ever pushed, every frame ever emitted, and whether every chunk was well-formed. */
    ghost var pushed: seq<byte>
    ghost var emitted: seq<Frame>
    ghost var clean: bool
    /** How many bytes were trimmed in front of each emitted frame. */
    ghost var trims: seq<nat>

    ghost predicate Valid()
      reads this
    {
      && pending == |Flatten(buffer)| && Accounts(emitted, trims, buffer, dropped, pushed)
      && TrimsOk(emitted, trims) && (clean ==> Tidy(emitted, trims, buffer))
    }

    constructor ()
      ensures Valid() && clean && buffer == [] && pending == 0 && dropped == 0 && pushed == [] && emitted == [] && trims == []
    {
      buffer, pending, dropped := [], 0, 0;
      pushed, emitted, clean, trims := [], [], true, [];
    }

    method Push(chunk: seq<byte>, cap: int)
      requires Valid()
      modifies this
      ensures Valid() && emitted == old(emitted) && trims == old(trims) && pushed == old(pushed) + chunk
      ensures clean == (old(clean) && WellFormed(chunk))
      ensures buffer == Kept(old(buffer) + [chunk], cap)
      ensures pending + dropped == old(pending) + old(dropped) + |chunk|
    {
      Append(chunk);
      DropExcess(cap);
    }

    /** The loop of push: the oldest chunks go until what is left is within the cap, or is the newest alone. */
    method DropExcess(cap: int)
      requires Valid() && |buffer| >= 1
      modifies `buffer, `pending, `dropped
      ensures Valid() && buffer == Kept(old(buffer), cap) && pending + dropped == old(pending) + old(dropped)
    {
      ghost var all, sum := buffer, pending + dropped;
      while pending > cap && |buffer| > 1
        invariant Valid() && |buffer| >= 1 && Kept(buffer, cap) == Kept(all, cap) && pending + dropped == sum
        decreases |buffer|
      {
        KeptStep(buffer, cap);
        DropOldest();
      }
    }

    method Append(chunk: seq<byte>)
      requires Valid()
      modifies this
      ensures Valid() && emitted == old(emitted) && trims == old(trims) && pushed == old(pushed) + chunk && dropped == old(dropped)
      ensures clean == (old(clean) && WellFormed(chunk))
      ensures buffer == old(buffer) + [chunk] && pending == old(pending) + |chunk|
    {
      PushAccounts(emitted, trims, buffer, dropped, pushed, chunk);
      FlattenSnoc(buffer, chunk);
      buffer := buffer + [chunk];
      pending := pending + |chunk|;
      pushed := pushed + chunk;
      clean := clean && WellFormed(chunk);
    }

    method DropOldest()
      requires Valid() && |buffer| > 0
      modifies `buffer, `pending, `dropped
      ensures Valid() && buffer == old(buffer)[1..]
      ensures pending == old(pending) - |old(buffer)[0]| && dropped == old(dropped) + |old(buffer)[0]|
    {
      DropAccounts(emitted, trims, buffer, dropped, pushed);
      var oldest := buffer[0];
      buffer := buffer[1..];
      pending := pending - |oldest|;
      dropped := dropped + |oldest|;
    }

    /** Emit everything pending. Bytes are lost unannounced exactly when a drop left the buffer starting
        with a continuation byte. */
    method Flush() returns (frames: seq<Frame>)
      requires Valid()
      modifies this
      ensures Valid() && buffer == [] && pending == 0 && dropped == 0
      ensures pushed == old(pushed) && clean == old(clean) && emitted == old(emitted) + frames
      ensures trims == old(trims) + TrimsFor(frames, CutOff(old(buffer), old(dropped)))
      ensures Reported(frames) == old(dropped)
      ensures OnlyFirst(frames)
      ensures Data(frames) == Emitted(old(buffer), old(dropped))
      ensures old(clean) ==> GoodFrames(frames) && Data(frames) == Flatten(old(buffer))
    {
      if clean {
        CleanHasNoOrphans(buffer, dropped);
        FlattenWellFormed(buffer);
        assert Flatten(buffer)[0..] == Flatten(buffer);
      }
      if |buffer| == 0 && dropped == 0 {
        frames := [];
      } else {
        var data := Flatten(buffer);
        if dropped > 0 { data := TrimOrphanBytes(data); }
        frames := CutFrames(data, dropped);
      }
      Emit(frames);
    }

    /** What was pending is now in these frames. */
    method Emit(frames: seq<Frame>)
      requires Valid() && Data(frames) == Emitted(buffer, dropped) && Reported(frames) == dropped
      requires OnlyFirst(frames)
      requires clean ==> GoodFrames(frames) && CutOff(buffer, dropped) == 0
      modifies this
      ensures Valid() && buffer == [] && pending == 0 && dropped == 0
      ensures pushed == old(pushed) && clean == old(clean) && emitted == old(emitted) + frames
      ensures trims == old(trims) + TrimsFor(frames, CutOff(old(buffer), old(dropped)))
    {
      ghost var cut := CutOff(buffer, dropped);
      FlushIsPlaced(emitted, trims, frames, cut, buffer, dropped, pushed);
      trims := trims + TrimsFor(frames, CutOff(buffer, dropped));
      buffer, pending, dropped := [], 0, 0;
      emitted := emitted + frames;
    }

    method Handle(e: Event) returns (frames: seq<Frame>)
      requires Valid()
      modifies this
      ensures Valid() && emitted == old(emitted) + frames && pushed == old(pushed) + Bytes(e)
      ensures clean == (old(clean) && WellFormed(Bytes(e)))
    {
      match e
      case Chunk(data, cap) =>
        Push(data, cap);
        frames := [];
      case Tick =>
        frames := Flush();
    }
  }

  /** The bytes a flush sends: all that is pending, after a drop without orphaned continuation bytes. */
  function Emitted(buffer: seq<seq<byte>>, dropped: nat): seq<byte> { Flatten(buffer)[CutOff(buffer, dropped)..] }

  /** How many of them it cuts. */
  function CutOff(buffer: seq<seq<byte>>, dropped: nat): (n: nat)
    ensures n <= 3 && n <= |Flatten(buffer)| && (n > 0 ==> dropped > 0)
    ensures forall i :: 0 <= i < n ==> Continuation(Flatten(buffer)[i])
  {
    if dropped > 0 then Orphans(Flatten(buffer)) else 0
  }

  /** Bytes go unreported exactly when a drop left the buffer starting with a continuation byte. */
  lemma LossIsUnreported(buffer: seq<seq<byte>>, dropped: nat)
    ensures |Emitted(buffer, dropped)| == |Flatten(buffer)| <==>
            dropped == 0 || Flatten(buffer) == [] || !Continuation(Flatten(buffer)[0])
  {}

  lemma CleanHasNoOrphans(buffer: seq<seq<byte>>, dropped: nat)
    requires AllWellFormed(buffer)
    ensures CutOff(buffer, dropped) == 0
  {
    FlattenWellFormed(buffer);
  }

  /** What happens to a pane: a chunk arrives under the cap then in force, or its timer fires. */
  datatype Event = Chunk(data: seq<byte>, cap: int) | Tick

  function Bytes(e: Event): seq<byte> { if e.Chunk? then e.data else [] }

  function Written(events: seq<Event>): seq<byte> {
    if events == [] then [] else Bytes(events[0]) + Written(events[1..])
  }

  predicate CleanEvents(events: seq<Event>) {
    forall i :: 0 <= i < |events| ==> WellFormed(Bytes(events[i]))
  }

  /** pump, for any timing and any bytes: every frame stands in the output behind what came before it and
      what it reports lost, and at most three trimmed continuation bytes; with well-formed chunks none. */
  method Pump(events: seq<Event>) returns (frames: seq<Frame>, ghost trims: seq<nat>)
    ensures TrimsOk(frames, trims) && Placed(frames, trims, Written(events)) && Unplaced(frames, trims, Written(events)) == []
    ensures CleanEvents(events) ==> Faithful(frames, Written(events))
  {
    var t := new Terminal();
    frames := [];
    assert t.pushed + Written(events[0..]) == Written(events);
    for i := 0 to |events|
      invariant fresh(t) && t.Valid() && t.emitted == frames && (CleanEvents(events) ==> t.clean)
      invariant t.pushed + Written(events[i..]) == Written(events)
    {
      assert events[i..][0] == events[i] && events[i..][1..] == events[i + 1..];
      assert t.pushed + (Bytes(events[i]) + Written(events[i + 1..])) == t.pushed + Bytes(events[i]) + Written(events[i + 1..]);
      var more := t.Handle(events[i]);
      frames := frames + more;
    }
    var last := t.Flush();
    frames, trims := frames + last, t.trims;
    assert t.pushed + [] == t.pushed == Written(events);
    if CleanEvents(events) { PlacedIsFaithful(frames, trims, Written(events)); }
  }

  /** Frames a browser can show: well-formed and small, each the output at the place the data and the losses
      reported before it leave, and together with the losses all of it. */
  predicate Faithful(frames: seq<Frame>, output: seq<byte>) {
    && GoodFrames(frames)
    && |Data(frames)| + Reported(frames) == |output|
    && (forall i :: 0 <= i < |frames| ==> StandsAt(frames, output, i))
    && (Reported(frames) == 0 ==> Data(frames) == output)
  }

  lemma PlacedIsFaithful(frames: seq<Frame>, trims: seq<nat>, output: seq<byte>)
    requires |frames| == |trims| && Placed(frames, trims, output) && Unplaced(frames, trims, output) == []
    requires GoodFrames(frames) && NoneTrimmed(trims)
    ensures Faithful(frames, output)
  {
    PlacedLengths(frames, trims, output);
    NoTrims(trims);
    forall i | 0 <= i < |frames| ensures StandsAt(frames, output, i) { PlaceOf(frames, trims, output, i); }
    if Reported(frames) == 0 { NothingLost(frames, trims, output); }
  }

  lemma {:induction false} NoTrims(trims: seq<nat>)
    requires NoneTrimmed(trims)
    ensures SumOf(trims) == 0
  {
    if trims != [] {
      NoTrims(trims[1..]);
    }
  }

  lemma {:induction false} NothingLost(frames: seq<Frame>, trims: seq<nat>, output: seq<byte>)
    requires |frames| == |trims| && Placed(frames, trims, output) && Unplaced(frames, trims, output) == []
    requires Reported(frames) == 0 && NoneTrimmed(trims)
    ensures Data(frames) == output
  {
    if frames != [] {
      var n := |frames[0].data|;
      NothingLost(frames[1..], trims[1..], output[n..]);
      assert output == output[..n] + output[n..];
    }
  }

  /** Chunk i followed by however many times the timer fires before the next one. */
  function Schedule(chunks: seq<seq<byte>>, caps: seq<int>, ticks: seq<nat>): (r: seq<Event>)
    requires |caps| == |ticks| == |chunks|
    ensures Written(r) == Flatten(chunks)
    ensures AllWellFormed(chunks) ==> CleanEvents(r)
  {
    if chunks == [] then []
    else
      var rest := Schedule(chunks[1..], caps[1..], ticks[1..]);
      var fired := seq(ticks[0], _ => Tick);
      TicksWriteNothing(fired, rest);
      var r := [Chunk(chunks[0], caps[0])] + (fired + rest);
      assert r[1..] == fired + rest;
      r
  }

  lemma {:induction false} TicksWriteNothing(fired: seq<Event>, rest: seq<Event>)
    requires forall i :: 0 <= i < |fired| ==> fired[i] == Tick
    ensures Written(fired + rest) == Written(rest)
  {
    if fired == [] { assert fired + rest == rest; }
    else {
      assert (fired + rest)[1..] == fired[1..] + rest;
      TicksWriteNothing(fired[1..], rest);
    }
  }

  /** From the pty to the socket: however the child's well-formed output is split into reads, whatever
      the caps, and whenever the timer fires. */
  method RelayChild(inputs: seq<seq<byte>>, caps: nat -> int, ticks: nat -> nat) returns (frames: seq<Frame>)
    ensures WellFormed(Flatten(inputs)) ==> Faithful(frames, Flatten(inputs))
  {
    var chunks := PumpOutput(inputs);
    var events := Schedule(chunks, seq(|chunks|, i requires 0 <= i => caps(i)), seq(|chunks|, i requires 0 <= i => ticks(i)));
    ghost var trims;
    frames, trims := Pump(events);
  }
}
