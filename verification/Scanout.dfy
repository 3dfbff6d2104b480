/** What the screen shows: the device's scanout, and which resources hold on the host what the guest drew. */
module Scanout {
  import opened Backing
  import opened Options
  import opened ResourceLifecycle

  /** `scanout` is the resource that the screen takes its picture from, `current` holds the resources whose contents on
      the host are those of the guest, and `shown` is the resource whose current contents the screen shows. */
  datatype Panel = Panel(dev: Device, scanout: Option<nat>, current: set<nat>, shown: Option<nat>)

  const RESET := Panel(map[], None, {}, None)

  /** Section 5.7.6.8 of the VIRTIO specification; a command that is not accepted changes nothing. */
  function Show(p: Panel, c: Command): (r: Panel)
    ensures r.dev == Execute(p.dev, c)
  {
    var q := p.(dev := Execute(p.dev, c));
    if !Accepts(p.dev, c) then p
    else
      match c
      case CreateResource(id) => q.(current := p.current - {id})
      case SetScanout(id) => q.(scanout := if id == 0 then None else Some(id), shown := None)
      case TransferToHost(id) => q.(current := p.current + {id})
      case Flush(id) =>
        if p.scanout == Some(id) then q.(shown := if id in p.current then Some(id) else None) else q
      case Unref(id) => if p.scanout == Some(id) then q.(scanout := None, shown := None) else q
      case AttachBacking(_) => q
      case DetachBacking(_) => q
  }

  function ShowAll(p: Panel, cs: seq<Command>): (r: Panel)
    ensures r.dev == ExecuteAll(p.dev, cs)
    decreases |cs|
  {
    if cs == [] then p else Show(ShowAll(p, cs[..|cs| - 1]), cs[|cs| - 1])
  }

  lemma {:induction false} ShowConcat(p: Panel, a: seq<Command>, b: seq<Command>)
    ensures ShowAll(p, a + b) == ShowAll(ShowAll(p, a), b)
    decreases |b|
  {
    if b == [] {
      assert a + b == a;
    } else {
      var n := |b| - 1;
      ShowConcat(p, a, b[..n]);
      assert (a + b)[..|a + b| - 1] == a + b[..n];
    }
  }

  lemma ShowOne(p: Panel, c: Command)
    ensures ShowAll(p, [c]) == Show(p, c)
  {
    assert [c][..0] == [];
  }

  lemma ShowTwo(p: Panel, c: Command, d: Command)
    ensures ShowAll(p, [c, d]) == Show(Show(p, c), d)
  {
    ShowOne(p, c);
    assert [c, d][..1] == [c];
  }

  lemma ShowThree(p: Panel, c: Command, d: Command, e: Command)
    ensures ShowAll(p, [c, d, e]) == Show(Show(Show(p, c), d), e)
  {
    ShowTwo(p, c, d);
    assert [c, d, e][..2] == [c, d];
  }

  /** The guest draws into the memory of an object. */
  function Drawn(p: Panel, obj: Option<nat>): Panel {
    match obj
    case None => p
    case Some(id) => p.(current := p.current - {id}, shown := if p.shown == Some(id) then None else p.shown)
  }

  /** A present draws first. */
  function Before(p: Panel, s: State, op: Op): Panel {
    if op.PresentFrame? then Drawn(p, s.frameBuf) else p
  }

  /** The panel after a run of operations from the start. */
  function PanelAfter(start: nat, ops: seq<Op>): Panel
    decreases |ops|
  {
    if ops == [] then RESET
    else
      var n := |ops| - 1;
      var s := RunAll(Fresh(start), ops[..n]).state;
      ShowAll(Before(PanelAfter(start, ops[..n]), s, ops[n]), Effect(s, ops[n]).sent)
  }

  lemma {:induction false} PanelIsDevice(start: nat, ops: seq<Op>)
    ensures PanelAfter(start, ops).dev == ExecuteAll(map[], RunAll(Fresh(start), ops).sent)
    decreases |ops|
  {
    if ops != [] {
      var n := |ops| - 1;
      PanelIsDevice(start, ops[..n]);
      var before := RunAll(Fresh(start), ops[..n]);
      Concat(map[], before.sent, Effect(before.state, ops[n]).sent);
    }
  }

  // -------------------------------------------------------------------- the invariant

  /** An id other than the reserved one names a resource. */
  predicate Named(obj: Option<nat>, dev: Device) {
    obj.Some? && obj.value != 0 ==> obj.value in dev
  }

  /** Resources have their bits set, and framebuffer and cursor are not the same. */
  ghost predicate Apart(s: State, dev: Device) {
    && (forall i :: i in dev ==> 0 < i < SIZE && i in s.taken)
    && Named(s.frameBuf, dev) && Named(s.cursorBuf, dev)
    && (s.frameBuf.Some? && s.frameBuf.value in dev ==> s.frameBuf != s.cursorBuf)
  }

  function Right(s: State, dev: Device): Option<nat> {
    if s.frameBuf.Some? && Attached(s.frameBuf, dev) then s.frameBuf else None
  }

  ghost predicate Showing(s: State, p: Panel) {
    && Apart(s, p.dev)
    && (p.scanout.Some? ==> p.scanout.value in p.dev)
    && (s.frameBuf.Some? && s.frameBuf.value in p.dev ==> p.scanout == s.frameBuf)
    && p.shown == Right(s, p.dev)
  }

  /** What releasing an object does. */
  lemma Released(p: Panel, id: nat)
    ensures ShowAll(p, [DetachBacking(id), Unref(id)])
         == if id !in p.dev then p
            else if p.scanout == Some(id) then p.(dev := p.dev - {id}, scanout := None, shown := None)
            else p.(dev := p.dev - {id})
  {
    ShowTwo(p, DetachBacking(id), Unref(id));
    assert p.dev[id := false] - {id} == p.dev - {id};
  }

  lemma DestroyFrameBufferShows(s: State, p: Panel)
    requires Showing(s, p)
    ensures var r := DestroyFrameBuffer(s); Showing(r.state, ShowAll(p, r.sent))
  {
    if s.frameBuf.Some? { Released(p, s.frameBuf.value); }
  }

  lemma DestroyCursorShows(s: State, p: Panel)
    requires Showing(s, p)
    ensures var r := DestroyCursor(s); Showing(r.state, ShowAll(p, r.sent))
  {
    if s.cursorBuf.Some? { Released(p, s.cursorBuf.value); }
  }

  /** A new resource, attached if there is memory for the list and room in a command. */
  lemma MadeResource(p: Panel, id: nat, luck: Luck, pages: nat)
    requires id != 0 && id !in p.dev
    ensures ShowAll(p, [CreateResource(id)] + Attach(id, luck, pages))
         == p.(dev := p.dev[id := luck.entries && AttachReaches(pages)], current := p.current - {id})
  {
    if luck.entries && AttachReaches(pages) {
      assert [CreateResource(id)] + Attach(id, luck, pages) == [CreateResource(id), AttachBacking(id)];
      ShowTwo(p, CreateResource(id), AttachBacking(id));
      assert p.dev[id := false][id := true] == p.dev[id := true];
    } else {
      assert [CreateResource(id)] + Attach(id, luck, pages) == [CreateResource(id)];
      ShowOne(p, CreateResource(id));
    }
  }

  lemma MadeFrameBuffer(p: Panel, id: nat, luck: Luck, pages: nat)
    requires id != 0 && id !in p.dev
    ensures var q := ShowAll(p, [CreateResource(id)] + Attach(id, luck, pages)
                                + [SetScanout(id), TransferToHost(id), Flush(id)]);
            && q.dev == p.dev[id := luck.entries && AttachReaches(pages)] && q.scanout == Some(id)
            && q.shown == if luck.entries && AttachReaches(pages) then Some(id) else None
  {
    var first, last := [CreateResource(id)] + Attach(id, luck, pages), [SetScanout(id), TransferToHost(id), Flush(id)];
    MadeResource(p, id, luck, pages);
    ShowConcat(p, first, last);
    ShowThree(ShowAll(p, first), SetScanout(id), TransferToHost(id), Flush(id));
  }

  /** With the reserved id 0 nothing is made, and the screen is switched off. */
  lemma NoResource(p: Panel, luck: Luck, pages: nat)
    requires 0 !in p.dev
    ensures ShowAll(p, [CreateResource(0)] + Attach(0, luck, pages)) == p
    ensures ShowAll(p, [CreateResource(0)] + Attach(0, luck, pages) + [SetScanout(0), TransferToHost(0), Flush(0)])
         == p.(scanout := None, shown := None)
  {
    var first, last := [CreateResource(0)] + Attach(0, luck, pages), [SetScanout(0), TransferToHost(0), Flush(0)];
    if luck.entries && AttachReaches(pages) {
      assert first == [CreateResource(0), AttachBacking(0)];
      ShowTwo(p, CreateResource(0), AttachBacking(0));
    } else {
      assert first == [CreateResource(0)];
      ShowOne(p, CreateResource(0));
    }
    ShowConcat(p, first, last);
    ShowThree(p, SetScanout(0), TransferToHost(0), Flush(0));
  }

  lemma CreateFrameBufferShows(s: State, p: Panel, luck: Luck, pages: nat)
    requires Showing(s, p) && s.frameBuf == None && (luck.segment ==> FirstClear(s.taken, 0) != NO_ID)
    ensures var r := CreateFrameBuffer(s, luck, pages); Showing(r.state, ShowAll(p, r.sent))
  {
    if luck.segment {
      var id := FirstClear(s.taken, 0);
      if id == 0 { NoResource(p, luck, pages); } else { MadeFrameBuffer(p, id, luck, pages); }
    }
  }

  lemma MadeCursor(p: Panel, id: nat, luck: Luck)
    requires id != 0 && id !in p.dev && luck.entries
    ensures var q := ShowAll(p, [CreateResource(id)] + Attach(id, luck, CURSOR_PAGES) + [TransferToHost(id)]);
            q == p.(dev := p.dev[id := true], current := p.current + {id})
  {
    AttachReachesIff(CURSOR_PAGES);
    MadeResource(p, id, luck, CURSOR_PAGES);
    ShowConcat(p, [CreateResource(id)] + Attach(id, luck, CURSOR_PAGES), [TransferToHost(id)]);
    ShowOne(ShowAll(p, [CreateResource(id)] + Attach(id, luck, CURSOR_PAGES)), TransferToHost(id));
  }

  /** No part of creating a cursor concerns the screen. */
  lemma CursorOffScreen(p: Panel, cs: seq<Command>, id: nat)
    requires forall i :: 0 <= i < |cs| ==> cs[i] in {CreateResource(id), AttachBacking(id), TransferToHost(id)}
    requires id == 0 ==> 0 !in p.dev
    requires id !in p.dev && p.scanout != Some(id) && p.shown != Some(id)
    ensures var q := ShowAll(p, cs);
            && q.scanout == p.scanout && q.shown == p.shown
            && (forall i :: i in q.dev && i != id ==> i in p.dev && q.dev[i] == p.dev[i])
            && (forall i :: i in p.dev ==> i in q.dev) && (id == 0 ==> 0 !in q.dev)
    decreases |cs|
  {
    if cs != [] {
      var n := |cs| - 1;
      CursorOffScreen(p, cs[..n], id);
    }
  }

  lemma CreateCursorShows(s: State, p: Panel, luck: Luck, colour: bool)
    requires Showing(s, p) && s.cursorBuf == None && FirstClear(s.taken, 0) != NO_ID
    ensures var r := CreateCursor(s, luck, colour); Showing(r.state, ShowAll(p, r.sent))
  {
    var id, r := FirstClear(s.taken, 0), CreateCursor(s, luck, colour);
    CursorOffScreen(p, r.sent, id);
    if id != 0 && luck.entries { MadeCursorIsThere(p, id, luck, colour); }
  }

  lemma MadeCursorIsThere(p: Panel, id: nat, luck: Luck, colour: bool)
    requires id != 0 && id !in p.dev && luck.entries
    ensures
      var transfer := if colour then [TransferToHost(id)] else [];
      id in ShowAll(p, [CreateResource(id)] + Attach(id, luck, CURSOR_PAGES) + transfer).dev
  {
    var first := [CreateResource(id)] + Attach(id, luck, CURSOR_PAGES);
    MadeResource(p, id, luck, CURSOR_PAGES);
    if colour { MadeCursor(p, id, luck); } else { assert first + [] == first; }
  }

  lemma PresentShows(s: State, p: Panel)
    requires Showing(s, p) && s.frameBuf.Some?
    ensures Showing(s, ShowAll(Drawn(p, s.frameBuf), Effect(s, PresentFrame).sent))
  {
    var id := s.frameBuf.value;
    ShowTwo(Drawn(p, s.frameBuf), TransferToHost(id), Flush(id));
  }

  lemma SetModeShows(s: State, p: Panel, op: Op)
    requires Showing(s, p) && HasRoom(s, op) && op.SetMode?
    ensures Showing(Effect(s, op).state, ShowAll(p, Effect(s, op).sent))
  {
    if op.known {
      var gone := DestroyFrameBuffer(s);
      DestroyFrameBufferShows(s, p);
      CreateFrameBufferShows(gone.state, ShowAll(p, gone.sent), op.luck, op.pages);
      ShowConcat(p, gone.sent, CreateFrameBuffer(gone.state, op.luck, op.pages).sent);
    }
  }

  lemma SetShapeShows(s: State, p: Panel, op: Op)
    requires Showing(s, p) && HasRoom(s, op) && op.SetShape?
    ensures Showing(Effect(s, op).state, ShowAll(p, Effect(s, op).sent))
  {
    var gone := DestroyCursor(s);
    DestroyCursorShows(s, p);
    CreateCursorShows(gone.state, ShowAll(p, gone.sent), op.luck, op.colour);
    ShowConcat(p, gone.sent, CreateCursor(gone.state, op.luck, op.colour).sent);
  }

  lemma OpShows(s: State, p: Panel, op: Op)
    requires Showing(s, p) && HasRoom(s, op)
    ensures Showing(Effect(s, op).state, ShowAll(Before(p, s, op), Effect(s, op).sent))
  {
    match op
    case SetMode(_, _, _) => SetModeShows(s, p, op);
    case SetShape(_, _) => SetShapeShows(s, p, op);
    case PresentFrame => PresentShows(s, p);
  }

  lemma {:induction false} RunShows(start: nat, ops: seq<Op>)
    requires start >= 1 && AlwaysRoom(Fresh(start), ops)
    ensures Showing(RunAll(Fresh(start), ops).state, PanelAfter(start, ops))
    decreases |ops|
  {
    if ops != [] {
      var n := |ops| - 1;
      RunShows(start, ops[..n]);
      OpShows(RunAll(Fresh(start), ops[..n]).state, PanelAfter(start, ops[..n]), ops[n]);
    }
  }

  // -------------------------------------------------------------------- what the screen shows

  /** After every run, refused allocations or not, the screen shows what was last drawn into the driver's framebuffer if
      and only if that has its backing on the device, and else it shows no drawing of the driver. */
  lemma ScreenShowsIff(start: nat, ops: seq<Op>)
    requires start >= 1 && AlwaysRoom(Fresh(start), ops)
    ensures var s, p := RunAll(Fresh(start), ops).state, PanelAfter(start, ops);
            && (s.frameBuf.Some? ==> (p.shown == s.frameBuf <==> Attached(s.frameBuf, p.dev)))
            && (p.shown.Some? ==> p.shown == s.frameBuf)
  {
    RunShows(start, ops);
  }

  predicate SameBacking(dev: Device, dev': Device, id: nat) {
    (id in dev' <==> id in dev) && (id in dev ==> dev'[id] == dev[id])
  }

  predicate Concerns(c: Command, id: nat) {
    c == CreateResource(id) || c == AttachBacking(id) || c == DetachBacking(id) || c == Unref(id)
  }

  lemma {:induction false} Unconcerned(dev: Device, cs: seq<Command>, id: nat)
    requires forall i :: 0 <= i < |cs| ==> !Concerns(cs[i], id)
    ensures SameBacking(dev, ExecuteAll(dev, cs), id)
    decreases |cs|
  {
    if cs != [] { Unconcerned(dev, cs[..|cs| - 1], id); }
  }

  /** Only setting a known mode changes what backing the framebuffer has. */
  lemma BackingStays(s: State, dev: Device, start: nat, op: Op)
    requires Inv(s, dev, start) && HasRoom(s, op) && !Replaces(op)
    ensures Effect(s, op).state.frameBuf == s.frameBuf
    ensures Attached(s.frameBuf, ExecuteAll(dev, Effect(s, op).sent)) <==> Attached(s.frameBuf, dev)
  {
    if s.frameBuf.Some? {
      if op.SetShape? { ShapeIsUnconcerned(s, dev, start, op, s.frameBuf.value); }
      Unconcerned(dev, Effect(s, op).sent, s.frameBuf.value);
    }
  }

  lemma ShapeIsUnconcerned(s: State, dev: Device, start: nat, op: Op, id: nat)
    requires Inv(s, dev, start) && op.SetShape? && HasRoom(s, op) && s.frameBuf == Some(id)
    ensures forall i :: 0 <= i < |Effect(s, op).sent| ==> !Concerns(Effect(s, op).sent[i], id)
  {
    var gone := DestroyCursor(s);
    var made := CreateCursor(gone.state, op.luck, op.colour);
    assert forall i :: 0 <= i < |gone.sent| ==> !Concerns(gone.sent[i], id);
    assert FirstClear(gone.state.taken, 0) != id;
    assert forall i :: 0 <= i < |made.sent| ==> !Concerns(made.sent[i], id);
  }

  lemma NewBacking(s: State, dev: Device, start: nat, op: Op)
    requires Inv(s, dev, start) && HasRoom(s, op) && Replaces(op) && GetsEntries(op)
    ensures var r := Effect(s, op); Attached(r.state.frameBuf, ExecuteAll(dev, r.sent)) <==> IsSmall(op)
  {
    if op.luck.segment {
      var gone := DestroyFrameBuffer(s);
      DestroyFrameBufferKeepsInv(s, dev, start);
      FrameBufferStream(gone.state, ExecuteAll(dev, gone.sent), start, op.luck, op.pages);
      Concat(dev, gone.sent, CreateFrameBuffer(gone.state, op.luck, op.pages).sent);
    }
  }

  /** The mode set last. */
  predicate IsLastMode(ops: seq<Op>, i: nat) {
    i < |ops| && Replaces(ops[i]) && forall j :: i < j < |ops| ==> !Replaces(ops[j])
  }

  ghost predicate LastModeIsSmall(ops: seq<Op>) {
    forall i: nat :: IsLastMode(ops, i) ==> IsSmall(ops[i])
  }

  lemma LastModeSplit(ops: seq<Op>)
    requires ops != []
    ensures var n := |ops| - 1;
            LastModeIsSmall(ops) <==> if Replaces(ops[n]) then IsSmall(ops[n]) else LastModeIsSmall(ops[..n])
  {
    var n := |ops| - 1;
    var front := ops[..n];
    assert forall i | 0 <= i < n :: front[i] == ops[i];
    if Replaces(ops[n]) {
      assert IsLastMode(ops, n);
    } else {
      forall i: nat ensures IsLastMode(ops, i) <==> IsLastMode(front, i) {
        if IsLastMode(front, i) { assert Replaces(ops[i]); }
      }
    }
  }

  lemma {:induction false} BackedIff(ops: seq<Op>)
    requires PresentsWhenShown(Fresh(1), ops) && AllKeep(ops)
    ensures var r := RunAll(Fresh(1), ops);
            Attached(r.state.frameBuf, ExecuteAll(map[], r.sent)) <==> r.state.frameBuf == None || LastModeIsSmall(ops)
    decreases |ops|
  {
    if ops != [] {
      var n := |ops| - 1;
      var front := ops[..n];
      assert forall i | 0 <= i <= n :: front[..i] == ops[..i];
      AllKeepSplit(ops);
      BackedIff(front);
      AllKeepStands(1, ops);
      AllKeepStands(1, front);
      LastModeSplit(ops);
      var before := RunAll(Fresh(1), front);
      var dev := ExecuteAll(map[], before.sent);
      Concat(map[], before.sent, Effect(before.state, ops[n]).sent);
      if Replaces(ops[n]) {
        NewBacking(before.state, dev, 1, ops[n]);
      } else {
        BackingStays(before.state, dev, 1, ops[n]);
      }
    }
  }

  /** With memory for every page list the screen shows the driver's framebuffer if and only if the mode set last has at
      most 7680 pages. */
  lemma FrameBufferIsShownIff(ops: seq<Op>)
    requires PresentsWhenShown(Fresh(1), ops) && AllKeep(ops) && RunAll(Fresh(1), ops).state.frameBuf.Some?
    ensures PanelAfter(1, ops).shown == RunAll(Fresh(1), ops).state.frameBuf <==> LastModeIsSmall(ops)
  {
    AllKeepStands(1, ops);
    BackedIff(ops);
    RunShows(1, ops);
    PanelIsDevice(1, ops);
  }
}
