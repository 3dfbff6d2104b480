/** Device resources of the framebuffer and the cursor: the id bitmap, the commands that the driver queues, and what the
    device makes of them in order. */
module ResourceLifecycle {
  import opened Backing
  import opened Options

  /** One page of bits. */
  const SIZE: nat := 8 * 4096
  const NO_ID: nat := 0xffff_ffff

  // -------------------------------------------------------------------- the device

  datatype Command =
    | CreateResource(id: nat)
    | AttachBacking(id: nat)
    | SetScanout(id: nat)
    | TransferToHost(id: nat)
    | Flush(id: nat)
    | DetachBacking(id: nat)
    | Unref(id: nat)

  /** The resources the device knows, and whether each has backing pages attached. */
  type Device = map<nat, bool>

  /** Commands the device carries out without an error (section 5.7.6.8 of the VIRTIO specification). */
  predicate Accepts(dev: Device, c: Command) {
    match c
    case CreateResource(id) => id != 0 && id !in dev
    case AttachBacking(id) => id in dev && !dev[id]
    case TransferToHost(id) => id in dev && dev[id]
    case DetachBacking(id) => id in dev && dev[id]
    case SetScanout(id) => id == 0 || id in dev
    case Flush(id) => id in dev
    case Unref(id) => id in dev
  }

  /** A command that is not accepted changes nothing. */
  function Execute(dev: Device, c: Command): Device {
    if !Accepts(dev, c) then dev
    else
      match c
      case CreateResource(id) => dev[id := false]
      case AttachBacking(id) => dev[id := true]
      case DetachBacking(id) => dev[id := false]
      case Unref(id) => dev - {id}
      case _ => dev
  }

  function ExecuteAll(dev: Device, cs: seq<Command>): Device
    decreases |cs|
  {
    if cs == [] then dev else Execute(ExecuteAll(dev, cs[..|cs| - 1]), cs[|cs| - 1])
  }

  /** Every command of the stream is accepted where it comes. */
  predicate Valid(dev: Device, cs: seq<Command>)
    decreases |cs|
  {
    cs == [] || (Valid(dev, cs[..|cs| - 1]) && Accepts(ExecuteAll(dev, cs[..|cs| - 1]), cs[|cs| - 1]))
  }

  lemma {:induction false} Concat(dev: Device, a: seq<Command>, b: seq<Command>)
    ensures ExecuteAll(dev, a + b) == ExecuteAll(ExecuteAll(dev, a), b)
    ensures Valid(dev, a + b) <==> Valid(dev, a) && Valid(ExecuteAll(dev, a), b)
    decreases |b|
  {
    if b == [] {
      assert a + b == a;
    } else {
      var n := |b| - 1;
      Concat(dev, a, b[..n]);
      assert (a + b)[..|a + b| - 1] == a + b[..n];
    }
  }

  // -------------------------------------------------------------------- ids

  /** The lowest id from `from` on that is not taken, or `NO_ID`. */
  function FirstClear(taken: set<nat>, from: nat): (r: nat)
    ensures r == NO_ID || (from <= r < SIZE && r !in taken)
    ensures r == NO_ID ==> forall i: nat :: from <= i < SIZE ==> i in taken
    ensures r != NO_ID ==> forall i: nat :: from <= i < r ==> i in taken
    decreases SIZE - from
  {
    if from >= SIZE then NO_ID else if from !in taken then from else FirstClear(taken, from + 1)
  }

  /** The ids below the first one that is handed out. */
  function Reserved(start: nat): (r: set<nat>)
    ensures forall i: nat :: i in r <==> i < start
  {
    if start == 0 then {} else Reserved(start - 1) + {start - 1}
  }

  class VioGpuIdr {
    var start: nat
    var bitmap: array<bool>

    ghost predicate Valid()
      reads this
    {
      bitmap.Length == SIZE
    }

    /** The ids whose bits are set. */
    ghost function Taken(): (r: set<nat>)
      reads this, bitmap
    {
      set i: nat | i < bitmap.Length && bitmap[i]
    }

    /** `Init` */
    constructor (first: nat)
      requires first <= SIZE
      ensures Valid() && fresh(bitmap) && start == first
      ensures Taken() == Reserved(first)
    {
      start := first;
      bitmap := new bool[SIZE](i => i < first);
    }

    method FindClear() returns (id: nat)
      requires Valid()
      ensures id == FirstClear(Taken(), 0) && (id == NO_ID || id < SIZE)
    {
      id := 0;
      while id < bitmap.Length && bitmap[id]
        invariant id <= bitmap.Length
        invariant FirstClear(Taken(), 0) == FirstClear(Taken(), id)
      {
        assert id in Taken();
        id := id + 1;
      }
      if id == bitmap.Length {
        id := NO_ID;
      }
    }

    /** `GetId`: `RtlFindClearBitsAndSet` with a run of one bit and no hint. */
    method GetId() returns (id: nat)
      requires Valid()
      modifies bitmap
      ensures id == FirstClear(old(Taken()), 0)
      ensures Taken() == if id == NO_ID then old(Taken()) else old(Taken()) + {id}
    {
      id := FindClear();
      if id != NO_ID {
        SetBit(id);
      }
    }

    method SetBit(id: nat)
      requires Valid() && id < SIZE
      modifies bitmap
      ensures Taken() == old(Taken()) + {id}
    {
      bitmap[id] := true;
    }

    /** `PutId`; memory beyond the bitmap is not part of it. */
    method PutId(id: nat)
      requires Valid()
      modifies bitmap
      ensures Taken() == old(Taken()) - {id}
    {
      if id < SIZE {
        bitmap[id] := false;
      }
    }
  }

  // -------------------------------------------------------------------- the driver's operations, as functions

  /** The bitmap and the two resources that the driver holds; `Some(id)` is an object whose `GetId` is `id`. */
  datatype State = State(taken: set<nat>, frameBuf: Option<nat>, cursorBuf: Option<nat>)

  datatype Out = Out(state: State, sent: seq<Command>)

  /** What an operation finds: memory for the segment of a framebuffer, and for the entries of a backing. An object
      always fits into its segment: both have the same size in whole pages. */
  datatype Luck = Luck(segment: bool, entries: bool)

  function Take(taken: set<nat>): set<nat> {
    var id := FirstClear(taken, 0);
    if id == NO_ID then taken else taken + {id}
  }

  /** An object that was never attached keeps the id 0. */
  function ObjectId(id: nat, luck: Luck): nat {
    if luck.entries then id else 0
  }

  /** Pages of the 64 by 64 cursor. */
  const CURSOR_PAGES: nat := PagesOf(4 * 64 * 64)

  /** What `GpuObjectAttach` queues: nothing without memory for the entries, and nothing when there are too many of
      them. */
  function Attach(id: nat, luck: Luck, pages: nat): seq<Command> {
    if luck.entries && AttachReaches(pages) then [AttachBacking(id)] else []
  }

  function CreateFrameBuffer(s: State, luck: Luck, pages: nat): Out {
    if !luck.segment then Out(s, [])
    else
      var id := FirstClear(s.taken, 0);
      var s' := State(Take(s.taken), s.frameBuf, s.cursorBuf);
      Out(s'.(frameBuf := Some(ObjectId(id, luck))),
          [CreateResource(id)] + Attach(id, luck, pages) + [SetScanout(id), TransferToHost(id), Flush(id)])
  }

  function Destroy(taken: set<nat>, obj: Option<nat>): (set<nat>, seq<Command>) {
    match obj
    case None => (taken, [])
    case Some(id) => (taken - {id}, [DetachBacking(id), Unref(id)])
  }

  function DestroyFrameBuffer(s: State): Out {
    var (taken, sent) := Destroy(s.taken, s.frameBuf);
    Out(State(taken, None, s.cursorBuf), sent)
  }

  /** `colour` tells whether the shape has one of the known formats. */
  function CreateCursor(s: State, luck: Luck, colour: bool): Out {
    var id := FirstClear(s.taken, 0);
    var s' := State(Take(s.taken), s.frameBuf, s.cursorBuf);
    if !luck.entries then Out(s', [CreateResource(id)])
    else Out(s'.(cursorBuf := Some(id)),
             [CreateResource(id)] + Attach(id, luck, CURSOR_PAGES) + if colour then [TransferToHost(id)] else [])
  }

  function DestroyCursor(s: State): Out {
    var (taken, sent) := Destroy(s.taken, s.cursorBuf);
    Out(State(taken, s.frameBuf, None), sent)
  }

  function Then(first: Out, second: Out): Out {
    Out(second.state, first.sent + second.sent)
  }

  // -------------------------------------------------------------------- the driver's operations, in place

  class VioGpuAdapter {
    const idr: VioGpuIdr
    var frameBuf: Option<nat>
    var cursorBuf: Option<nat>
    /** The commands put on the control queue so far. */
    var sent: seq<Command>

    constructor (i: VioGpuIdr)
      requires i.Valid()
      ensures idr == i && frameBuf == None && cursorBuf == None && sent == []
    {
      idr, frameBuf, cursorBuf, sent := i, None, None, [];
    }

    ghost function View(): State
      reads this, idr, idr.bitmap
    {
      State(idr.Taken(), frameBuf, cursorBuf)
    }

    ghost predicate Valid()
      reads this, idr
    {
      idr.Valid()
    }

    method Queue(c: Command)
      modifies `sent
      ensures sent == old(sent) + [c]
    {
      sent := sent + [c];
    }

    /** `GpuObjectAttach`; whether the command with the entries was queued is not looked at. */
    method GpuObjectAttach(id: nat, luck: Luck, pages: nat) returns (ok: bool)
      modifies `sent
      ensures ok == luck.entries && sent == old(sent) + Attach(id, luck, pages)
    {
      if !luck.entries { return false; }
      if AttachReaches(pages) {
        Queue(AttachBacking(id));
      }
      return true;
    }

    /** `CreateFrameBufferObj`; the answer of `GpuObjectAttach` is not looked at either. */
    method CreateFrameBufferObj(luck: Luck, pages: nat) returns (ok: bool)
      requires Valid()
      modifies `frameBuf, `sent, idr.bitmap
      ensures Valid() && ok == luck.segment
      ensures Did(CreateFrameBuffer(old(View()), luck, pages), old(sent))
    {
      if !luck.segment { return false; }
      var resid := idr.GetId();
      Queue(CreateResource(resid));
      var attached := GpuObjectAttach(resid, luck, pages);
      var objId := if attached then resid else 0;
      Queue(SetScanout(resid));
      Queue(TransferToHost(resid));
      Queue(Flush(resid));
      frameBuf := Some(objId);
      assert sent == old(sent) + ([CreateResource(resid)] + Attach(resid, luck, pages)
                                  + [SetScanout(resid), TransferToHost(resid), Flush(resid)]);
      return true;
    }

    /** The state and the commands are those of `out`, after the commands already sent. */
    ghost predicate Did(out: Out, before: seq<Command>)
      reads this, idr, idr.bitmap
    {
      View() == out.state && sent == before + out.sent
    }

    method DestroyFrameBufferObj()
      requires Valid()
      modifies `frameBuf, `sent, idr.bitmap
      ensures Valid()
      ensures Did(DestroyFrameBuffer(old(View())), old(sent))
    {
      if frameBuf.Some? {
        var id := frameBuf.value;
        Queue(DetachBacking(id));
        Queue(Unref(id));
        frameBuf := None;
        idr.PutId(id);
      }
    }

    /** `CreateCursor`, without the pixels. */
    method CreateCursorObj(luck: Luck, colour: bool) returns (ok: bool)
      requires Valid()
      modifies `cursorBuf, `sent, idr.bitmap
      ensures Valid() && ok == (luck.entries && colour)
      ensures Did(CreateCursor(old(View()), luck, colour), old(sent))
    {
      var resid := idr.GetId();
      Queue(CreateResource(resid));
      var attached := GpuObjectAttach(resid, luck, CURSOR_PAGES);
      if !attached { return false; }
      cursorBuf := Some(resid);
      if !colour { return false; }
      Queue(TransferToHost(resid));
      return true;
    }

    method DestroyCursorObj()
      requires Valid()
      modifies `cursorBuf, `sent, idr.bitmap
      ensures Valid()
      ensures Did(DestroyCursor(old(View())), old(sent))
    {
      if cursorBuf.Some? {
        var id := cursorBuf.value;
        Queue(DetachBacking(id));
        Queue(Unref(id));
        cursorBuf := None;
        idr.PutId(id);
      }
    }

    /** The part of `SetCurrentMode` that concerns the framebuffer. */
    method SetCurrentMode(mode: nat, modeNumbers: seq<nat>, luck: Luck, pages: nat) returns (ok: bool)
      requires Valid()
      modifies `frameBuf, `sent, idr.bitmap
      ensures Valid() && ok == (mode in modeNumbers && luck.segment)
      ensures Did(Effect(old(View()), SetMode(mode in modeNumbers, luck, pages)), old(sent))
    {
      for idx := 0 to |modeNumbers|
        invariant mode !in modeNumbers[..idx]
        invariant Valid() && View() == old(View()) && sent == old(sent)
      {
        if mode == modeNumbers[idx] {
          DestroyFrameBufferObj();
          ok := CreateFrameBufferObj(luck, pages);
          return;
        }
      }
      return false;
    }

    /** The part of `SetPointerShape` that concerns the control queue. */
    method SetPointerShape(luck: Luck, colour: bool) returns (ok: bool)
      requires Valid()
      modifies `cursorBuf, `sent, idr.bitmap
      ensures Valid() && ok == (luck.entries && colour)
      ensures Did(Effect(old(View()), SetShape(luck, colour)), old(sent))
    {
      DestroyCursorObj();
      ok := CreateCursorObj(luck, colour);
    }

    /** The commands of `ExecutePresentDisplayOnly`. */
    method Present()
      requires Valid() && frameBuf.Some?
      modifies `sent
      ensures Valid()
      ensures Did(Effect(old(View()), PresentFrame), old(sent))
    {
      Queue(TransferToHost(frameBuf.value));
      Queue(Flush(frameBuf.value));
    }
  }

  // -------------------------------------------------------------------- runs

  /** `pages` is the size of the framebuffer of the mode. */
  datatype Op =
    | SetMode(known: bool, luck: Luck, pages: nat)
    | SetShape(luck: Luck, colour: bool)
    | PresentFrame

  /** What an operation does and queues. */
  function Effect(s: State, op: Op): Out {
    match op
    case SetMode(known, luck, pages) =>
      if known then
        var gone := DestroyFrameBuffer(s);
        Then(gone, CreateFrameBuffer(gone.state, luck, pages))
      else Out(s, [])
    case SetShape(luck, colour) => var gone := DestroyCursor(s); Then(gone, CreateCursor(gone.state, luck, colour))
    case PresentFrame =>
      if s.frameBuf.Some? then Out(s, [TransferToHost(s.frameBuf.value), Flush(s.frameBuf.value)]) else Out(s, [])
  }

  function RunAll(s: State, ops: seq<Op>): Out
    decreases |ops|
  {
    if ops == [] then Out(s, [])
    else var before := RunAll(s, ops[..|ops| - 1]); Then(before, Effect(before.state, ops[|ops| - 1]))
  }

  /** Set bits are the reserved ids and the ids of the device's resources; what the driver holds is there. */
  ghost predicate Inv(s: State, dev: Device, start: nat) {
    && 1 <= start
    && (forall i: nat :: i in s.taken <==> i < start || i in dev)
    && (forall i :: i in dev ==> start <= i < SIZE)
    && (s.frameBuf.Some? ==> s.frameBuf.value in dev && s.frameBuf != s.cursorBuf)
    && Attached(s.cursorBuf, dev)
  }

  predicate Attached(obj: Option<nat>, dev: Device) {
    obj.Some? ==> obj.value in dev && dev[obj.value]
  }

  /** A creation finds a free id, and frames are presented only while there is a framebuffer. */
  predicate HasRoom(s: State, op: Op) {
    match op
    case SetMode(known, luck, _) => known && luck.segment ==> FirstClear(DestroyFrameBuffer(s).state.taken, 0) != NO_ID
    case SetShape(_, _) => FirstClear(DestroyCursor(s).state.taken, 0) != NO_ID
    case PresentFrame => s.frameBuf.Some?
  }

  predicate AlwaysRoom(s: State, ops: seq<Op>)
    decreases |ops|
  {
    ops == [] || (AlwaysRoom(s, ops[..|ops| - 1]) && HasRoom(RunAll(s, ops[..|ops| - 1]).state, ops[|ops| - 1]))
  }

  /** A framebuffer that is created gets memory for its entries. */
  predicate GetsEntries(op: Op) {
    op.SetMode? && op.known && op.luck.segment ==> op.luck.entries
  }

  /** And they are no more than one command carries. */
  predicate GetsBacking(op: Op) {
    op.SetMode? && op.known && op.luck.segment ==> op.luck.entries && op.pages <= MAX_PAGES
  }

  lemma One(dev: Device, c: Command)
    ensures ExecuteAll(dev, [c]) == Execute(dev, c) && (Valid(dev, [c]) <==> Accepts(dev, c))
  {
    assert [c][..0] == [];
  }

  lemma Two(dev: Device, c: Command, d: Command)
    ensures ExecuteAll(dev, [c, d]) == Execute(Execute(dev, c), d)
    ensures Valid(dev, [c, d]) <==> Accepts(dev, c) && Accepts(Execute(dev, c), d)
  {
    One(dev, c);
    assert [c, d][..1] == [c];
  }

  lemma Three(dev: Device, c: Command, d: Command, e: Command)
    ensures ExecuteAll(dev, [c, d, e]) == Execute(Execute(Execute(dev, c), d), e)
    ensures Valid(dev, [c, d, e])
        <==> Accepts(dev, c) && Accepts(Execute(dev, c), d) && Accepts(Execute(Execute(dev, c), d), e)
  {
    Two(dev, c, d);
    assert [c, d, e][..2] == [c, d];
  }

  /** Destroying an object gives its resource and id back; both commands are accepted if and only if the
      object has its backing. */
  lemma DestroyWorks(dev: Device, taken: set<nat>, obj: Option<nat>)
    requires obj.Some? ==> obj.value in dev
    ensures var (_, sent) := Destroy(taken, obj);
            && ExecuteAll(dev, sent) == (if obj.Some? then dev - {obj.value} else dev)
            && (Valid(dev, sent) <==> Attached(obj, dev))
  {
    if obj.Some? {
      Two(dev, DetachBacking(obj.value), Unref(obj.value));
      assert dev[obj.value := false] - {obj.value} == dev - {obj.value};
    }
  }

  lemma DestroyFrameBufferKeepsInv(s: State, dev: Device, start: nat)
    requires Inv(s, dev, start)
    ensures var r := DestroyFrameBuffer(s);
            Inv(r.state, ExecuteAll(dev, r.sent), start) && (Valid(dev, r.sent) <==> Attached(s.frameBuf, dev))
  {
    DestroyWorks(dev, s.taken, s.frameBuf);
  }

  lemma DestroyCursorKeepsInv(s: State, dev: Device, start: nat)
    requires Inv(s, dev, start)
    ensures var r := DestroyCursor(s);
            && Valid(dev, r.sent) && Inv(r.state, ExecuteAll(dev, r.sent), start)
            && (Attached(s.frameBuf, dev) ==> Attached(r.state.frameBuf, ExecuteAll(dev, r.sent)))
  {
    DestroyWorks(dev, s.taken, s.cursorBuf);
  }

  /** What the device makes of a creation: a resource, with backing exactly when the entries were allocated and are at
      most 7680; otherwise the transfer is rejected. */
  lemma CreationStream(dev: Device, id: nat, luck: Luck, pages: nat)
    requires id != 0 && id !in dev
    ensures var cs := [CreateResource(id)] + Attach(id, luck, pages) + [SetScanout(id), TransferToHost(id), Flush(id)];
            && ExecuteAll(dev, cs) == dev[id := luck.entries && pages <= MAX_PAGES]
            && (Valid(dev, cs) <==> luck.entries && pages <= MAX_PAGES)
  {
    AttachReachesIff(pages);
    var first := [CreateResource(id)] + Attach(id, luck, pages);
    var made := dev[id := luck.entries && pages <= MAX_PAGES];
    assert ExecuteAll(dev, first) == made && Valid(dev, first) by {
      if luck.entries && pages <= MAX_PAGES {
        assert first == [CreateResource(id), AttachBacking(id)];
        Two(dev, CreateResource(id), AttachBacking(id));
        assert dev[id := false][id := true] == made;
      } else {
        assert first == [CreateResource(id)];
        One(dev, CreateResource(id));
      }
    }
    Concat(dev, first, [SetScanout(id), TransferToHost(id), Flush(id)]);
    Three(made, SetScanout(id), TransferToHost(id), Flush(id));
  }

  /** The commands of a framebuffer creation are all accepted if and only if the entries were allocated and the
      framebuffer has at most 7680 pages. */
  lemma FrameBufferStream(s: State, dev: Device, start: nat, luck: Luck, pages: nat)
    requires Inv(s, dev, start) && FirstClear(s.taken, 0) != NO_ID && luck.segment
    ensures Valid(dev, CreateFrameBuffer(s, luck, pages).sent) <==> luck.entries && pages <= MAX_PAGES
    ensures ExecuteAll(dev, CreateFrameBuffer(s, luck, pages).sent)
         == dev[FirstClear(s.taken, 0) := luck.entries && pages <= MAX_PAGES]
  {
    CreationStream(dev, FirstClear(s.taken, 0), luck, pages);
  }

  lemma CreateFrameBufferKeepsInv(s: State, dev: Device, start: nat, luck: Luck, pages: nat)
    requires Inv(s, dev, start) && s.frameBuf == None
    requires luck.segment ==> FirstClear(s.taken, 0) != NO_ID
    ensures var r := CreateFrameBuffer(s, luck, pages); var dev' := ExecuteAll(dev, r.sent);
            && (Inv(r.state, dev', start) <==> (luck.segment ==> luck.entries))
            && (Valid(dev, r.sent) <==> (luck.segment ==> luck.entries && pages <= MAX_PAGES))
            && (luck.entries && pages <= MAX_PAGES ==> Attached(r.state.frameBuf, dev'))
  {
    if luck.segment {
      FrameBufferStream(s, dev, start, luck, pages);
    }
  }

  /** The cursor is small enough. */
  lemma CursorStream(dev: Device, id: nat, luck: Luck, colour: bool)
    requires id != 0 && id !in dev && luck.entries
    ensures
      var transfer := if colour then [TransferToHost(id)] else [];
      var cs := [CreateResource(id)] + Attach(id, luck, CURSOR_PAGES) + transfer;
      Valid(dev, cs) && ExecuteAll(dev, cs) == dev[id := true]
  {
    AttachReachesIff(CURSOR_PAGES);
    var cs := [CreateResource(id)] + Attach(id, luck, CURSOR_PAGES) + if colour then [TransferToHost(id)] else [];
    assert dev[id := false][id := true] == dev[id := true];
    if colour {
      assert cs == [CreateResource(id), AttachBacking(id), TransferToHost(id)];
      Three(dev, CreateResource(id), AttachBacking(id), TransferToHost(id));
    } else {
      assert cs == [CreateResource(id), AttachBacking(id)];
      Two(dev, CreateResource(id), AttachBacking(id));
    }
  }

  lemma CreateCursorKeepsInv(s: State, dev: Device, start: nat, luck: Luck, colour: bool)
    requires Inv(s, dev, start) && s.cursorBuf == None && FirstClear(s.taken, 0) != NO_ID
    ensures var r := CreateCursor(s, luck, colour);
            && Valid(dev, r.sent) && Inv(r.state, ExecuteAll(dev, r.sent), start)
            && (Attached(s.frameBuf, dev) ==> Attached(r.state.frameBuf, ExecuteAll(dev, r.sent)))
  {
    var id := FirstClear(s.taken, 0);
    if !luck.entries {
      One(dev, CreateResource(id));
    } else {
      CursorStream(dev, id, luck, colour);
    }
  }

  lemma SetModeKeepsInv(s: State, dev: Device, start: nat, op: Op)
    requires Inv(s, dev, start) && op.SetMode? && HasRoom(s, op)
    ensures var r := Effect(s, op); var dev' := ExecuteAll(dev, r.sent);
            && (Inv(r.state, dev', start) <==> GetsEntries(op))
            && (Attached(s.frameBuf, dev) ==> (Valid(dev, r.sent) <==> GetsBacking(op)))
            && (Attached(s.frameBuf, dev) && GetsBacking(op) ==> Attached(r.state.frameBuf, dev'))
  {
    if op.known {
      DestroyFrameBufferKeepsInv(s, dev, start);
      var gone := DestroyFrameBuffer(s);
      CreateFrameBufferKeepsInv(gone.state, ExecuteAll(dev, gone.sent), start, op.luck, op.pages);
      Concat(dev, gone.sent, CreateFrameBuffer(gone.state, op.luck, op.pages).sent);
    }
  }

  lemma SetShapeKeepsInv(s: State, dev: Device, start: nat, op: Op)
    requires Inv(s, dev, start) && op.SetShape? && HasRoom(s, op)
    ensures var r := Effect(s, op); var dev' := ExecuteAll(dev, r.sent);
            && Inv(r.state, dev', start) && Valid(dev, r.sent)
            && (Attached(s.frameBuf, dev) ==> Attached(r.state.frameBuf, dev'))
  {
    DestroyCursorKeepsInv(s, dev, start);
    var gone := DestroyCursor(s);
    CreateCursorKeepsInv(gone.state, ExecuteAll(dev, gone.sent), start, op.luck, op.colour);
    Concat(dev, gone.sent, CreateCursor(gone.state, op.luck, op.colour).sent);
  }

  /** An operation keeps the bookkeeping of ids, whatever the sizes, if and only if a framebuffer that it creates gets
      its entries. From a state with a backed framebuffer its commands are accepted if and only if that also gets its
      backing. */
  lemma EffectKeepsInv(s: State, dev: Device, start: nat, op: Op)
    requires Inv(s, dev, start) && HasRoom(s, op)
    ensures var r := Effect(s, op); var dev' := ExecuteAll(dev, r.sent);
            && (Inv(r.state, dev', start) <==> GetsEntries(op))
            && (Attached(s.frameBuf, dev) ==> (Valid(dev, r.sent) <==> GetsBacking(op)))
            && (Attached(s.frameBuf, dev) && GetsBacking(op) ==> Attached(r.state.frameBuf, dev'))
  {
    match op
    case SetMode(_, _, _) => SetModeKeepsInv(s, dev, start, op);
    case SetShape(_, _) => SetShapeKeepsInv(s, dev, start, op);
    case PresentFrame => Two(dev, TransferToHost(s.frameBuf.value), Flush(s.frameBuf.value));
  }

  /** A freshly initialised bitmap and no objects. */
  function Fresh(start: nat): State {
    State(Reserved(start), None, None)
  }

  predicate AllBacked(ops: seq<Op>) {
    forall i :: 0 <= i < |ops| ==> GetsBacking(ops[i])
  }

  /** All commands accepted so far, the ids in order, and a backed framebuffer if there is one. */
  ghost predicate InStep(out: Out, start: nat) {
    var dev := ExecuteAll(map[], out.sent);
    Valid(map[], out.sent) && Inv(out.state, dev, start) && Attached(out.state.frameBuf, dev)
  }

  lemma StreamStep(out: Out, start: nat, op: Op)
    requires HasRoom(out.state, op)
    ensures var next := Then(out, Effect(out.state, op));
            && (InStep(out, start) ==> (Valid(map[], next.sent) <==> GetsBacking(op)))
            && (InStep(out, start) && GetsBacking(op) ==> InStep(next, start))
            && (!Valid(map[], out.sent) ==> !Valid(map[], next.sent))
  {
    Concat(map[], out.sent, Effect(out.state, op).sent);
    if InStep(out, start) {
      EffectKeepsInv(out.state, ExecuteAll(map[], out.sent), start, op);
    }
  }

  lemma AllBackedSplit(ops: seq<Op>)
    requires ops != []
    ensures AllBacked(ops) <==> AllBacked(ops[..|ops| - 1]) && GetsBacking(ops[|ops| - 1])
  {
    assert forall i | 0 <= i < |ops| - 1 :: ops[..|ops| - 1][i] == ops[i];
  }

  /** Over every run of mode sets, pointer-shape sets and presents that finds free ids, the device accepts the whole
      stream from its reset on if and only if every framebuffer created gets its backing. */
  lemma {:induction false} StreamIsValid(start: nat, ops: seq<Op>)
    requires start >= 1 && AlwaysRoom(Fresh(start), ops)
    ensures Valid(map[], RunAll(Fresh(start), ops).sent) <==> AllBacked(ops)
    ensures AllBacked(ops) ==> InStep(RunAll(Fresh(start), ops), start)
    decreases |ops|
  {
    if ops != [] {
      var n := |ops| - 1;
      StreamIsValid(start, ops[..n]);
      AllBackedSplit(ops);
      StreamStep(RunAll(Fresh(start), ops[..n]), start, ops[n]);
    }
  }

  ghost predicate InvAfter(start: nat, ops: seq<Op>) {
    var r := RunAll(Fresh(start), ops);
    Inv(r.state, ExecuteAll(map[], r.sent), start)
  }

  lemma OneMore(s: State, ops: seq<Op>, i: nat)
    requires i < |ops|
    ensures var before := RunAll(s, ops[..i]); RunAll(s, ops[..i + 1]) == Then(before, Effect(before.state, ops[i]))
  {
    assert ops[..i + 1][..i] == ops[..i];
  }

  lemma {:induction false} RoomAt(s: State, ops: seq<Op>, i: nat)
    requires AlwaysRoom(s, ops) && i < |ops|
    ensures HasRoom(RunAll(s, ops[..i]).state, ops[i])
    decreases |ops|
  {
    var n := |ops| - 1;
    if i < n {
      RoomAt(s, ops[..n], i);
      assert ops[..n][..i] == ops[..i];
    }
  }

  lemma IdsStandStep(start: nat, ops: seq<Op>, i: nat)
    requires i < |ops| && HasRoom(RunAll(Fresh(start), ops[..i]).state, ops[i]) && InvAfter(start, ops[..i])
    ensures InvAfter(start, ops[..i + 1]) <==> GetsEntries(ops[i])
  {
    var before := RunAll(Fresh(start), ops[..i]);
    OneMore(Fresh(start), ops, i);
    EffectKeepsInv(before.state, ExecuteAll(map[], before.sent), start, ops[i]);
    Concat(map[], before.sent, Effect(before.state, ops[i]).sent);
  }

  lemma {:induction false} IdsStandUpTo(start: nat, ops: seq<Op>, k: nat)
    requires start >= 1 && AlwaysRoom(Fresh(start), ops) && k <= |ops|
    requires forall i :: 0 <= i < k ==> GetsEntries(ops[i])
    ensures InvAfter(start, ops[..k])
    decreases k
  {
    if k > 0 {
      IdsStandUpTo(start, ops, k - 1);
      RoomAt(Fresh(start), ops, k - 1);
      IdsStandStep(start, ops, k - 1);
    }
  }

  /** Over a whole run ids are never confused, whatever the sizes of the framebuffers, if and only if every framebuffer
      gets its entries. */
  lemma IdsStand(start: nat, ops: seq<Op>)
    requires start >= 1 && AlwaysRoom(Fresh(start), ops)
    ensures (forall k | 0 <= k <= |ops| :: InvAfter(start, ops[..k]))
        <==> (forall i :: 0 <= i < |ops| ==> GetsEntries(ops[i]))
  {
    if forall k | 0 <= k <= |ops| :: InvAfter(start, ops[..k]) {
      forall i | 0 <= i < |ops| ensures GetsEntries(ops[i]) {
        assert InvAfter(start, ops[..i]) && InvAfter(start, ops[..i + 1]);
        RoomAt(Fresh(start), ops, i);
        IdsStandStep(start, ops, i);
      }
    } else {
      var k :| 0 <= k <= |ops| && !InvAfter(start, ops[..k]);
      if forall i :: 0 <= i < |ops| ==> GetsEntries(ops[i]) {
        IdsStandUpTo(start, ops, k);
        assert false;
      }
    }
  }

  // -------------------------------------------------------------------- presents

  /** A known mode is set, which replaces the framebuffer. */
  predicate Replaces(op: Op) {
    op.SetMode? && op.known
  }

  /** The last replacement got memory for its segment. */
  ghost predicate Shows(ops: seq<Op>) {
    exists i :: 0 <= i < |ops| && Replaces(ops[i]) && ops[i].luck.segment
      && forall j :: i < j < |ops| ==> !Replaces(ops[j])
  }

  lemma ShowsSplit(ops: seq<Op>)
    requires ops != []
    ensures var n := |ops| - 1;
            Shows(ops) <==> if Replaces(ops[n]) then ops[n].luck.segment else Shows(ops[..n])
  {
    var n := |ops| - 1;
    var front := ops[..n];
    assert forall i | 0 <= i < n :: front[i] == ops[i];
    if Replaces(ops[n]) {
      if Shows(ops) {
        var i :| 0 <= i < |ops| && Replaces(ops[i]) && ops[i].luck.segment
          && forall j :: i < j < |ops| ==> !Replaces(ops[j]);
        assert i == n;
      }
    } else {
      if Shows(ops) {
        var i :| 0 <= i < |ops| && Replaces(ops[i]) && ops[i].luck.segment
          && forall j :: i < j < |ops| ==> !Replaces(ops[j]);
        assert Replaces(front[i]);
      }
      if Shows(front) {
        var i :| 0 <= i < n && Replaces(front[i]) && front[i].luck.segment
          && forall j :: i < j < n ==> !Replaces(front[j]);
        assert Replaces(ops[i]);
      }
    }
  }

  lemma EffectFrameBuffer(s: State, op: Op)
    ensures Effect(s, op).state.frameBuf.Some? <==> if Replaces(op) then op.luck.segment else s.frameBuf.Some?
  {
  }

  lemma {:induction false} FrameBufferIff(start: nat, ops: seq<Op>)
    ensures RunAll(Fresh(start), ops).state.frameBuf.Some? <==> Shows(ops)
    decreases |ops|
  {
    if ops != [] {
      FrameBufferIff(start, ops[..|ops| - 1]);
      ShowsSplit(ops);
      EffectFrameBuffer(RunAll(Fresh(start), ops[..|ops| - 1]).state, ops[|ops| - 1]);
    }
  }

  /** Frames are presented only while there is a framebuffer, which the code does not test. */
  predicate PresentsWhenShown(s: State, ops: seq<Op>) {
    forall i | 0 <= i < |ops| && ops[i].PresentFrame? :: RunAll(s, ops[..i]).state.frameBuf.Some?
  }

  /** That is, each present comes after a replacement, the last of which got memory for its segment. */
  lemma PresentsIff(start: nat, ops: seq<Op>)
    ensures PresentsWhenShown(Fresh(start), ops)
        <==> (forall i | 0 <= i < |ops| && ops[i].PresentFrame? :: Shows(ops[..i]))
  {
    forall i | 0 <= i < |ops| ensures RunAll(Fresh(start), ops[..i]).state.frameBuf.Some? <==> Shows(ops[..i]) {
      FrameBufferIff(start, ops[..i]);
    }
  }

  /** A refused segment leaves no framebuffer for the next present. */
  lemma RefusedSegmentThenPresent(start: nat, pages: nat)
    ensures !PresentsWhenShown(Fresh(start), [SetMode(true, Luck(false, true), pages), PresentFrame])
  {
    var run := [SetMode(true, Luck(false, true), pages), PresentFrame];
    FrameBufferIff(start, run[..1]);
    assert run[1].PresentFrame? && !Shows(run[..1]);
  }

  // -------------------------------------------------------------------- ids that get lost

  /** A creation gets the memory for its entries, if it comes to that. */
  predicate Keeps(op: Op) {
    match op
    case SetMode(known, luck, _) => known && luck.segment ==> luck.entries
    case SetShape(luck, _) => luck.entries
    case PresentFrame => true
  }

  predicate AllKeep(ops: seq<Op>) {
    forall i :: 0 <= i < |ops| ==> Keeps(ops[i])
  }

  lemma AllKeepSplit(ops: seq<Op>)
    requires ops != []
    ensures AllKeep(ops) <==> AllKeep(ops[..|ops| - 1]) && Keeps(ops[|ops| - 1])
  {
    assert forall i | 0 <= i < |ops| - 1 :: ops[..|ops| - 1][i] == ops[i];
  }

  /** The set bits are the reserved ids and the ids the driver holds. */
  ghost predicate Tidy(s: State, start: nat) {
    && (forall i: nat :: i in s.taken <==> i < start || s.frameBuf == Some(i) || s.cursorBuf == Some(i))
    && (s.frameBuf.Some? ==> start <= s.frameBuf.value && s.frameBuf != s.cursorBuf)
    && (s.cursorBuf.Some? ==> start <= s.cursorBuf.value)
  }

  /** A set bit that nobody holds. */
  predicate Lost(s: State, start: nat, id: nat) {
    start <= id < SIZE && id in s.taken && s.frameBuf != Some(id) && s.cursorBuf != Some(id)
  }

  lemma RoomForOne(s: State, start: nat)
    requires Tidy(s, start) && start + 2 < SIZE && (s.frameBuf == None || s.cursorBuf == None)
    ensures start <= FirstClear(s.taken, 0) <= start + 1
  {
    assert start !in s.taken || start + 1 !in s.taken;
  }

  lemma TidyAfterDestroy(s: State, start: nat)
    requires Tidy(s, start)
    ensures Tidy(DestroyFrameBuffer(s).state, start) && Tidy(DestroyCursor(s).state, start)
  {
  }

  lemma KeepingIsTidy(s: State, start: nat, op: Op)
    requires Tidy(s, start) && start + 2 < SIZE && Keeps(op)
    ensures Tidy(Effect(s, op).state, start)
  {
    TidyAfterDestroy(s, start);
    match op
    case SetMode(_, _, _) => RoomForOne(DestroyFrameBuffer(s).state, start);
    case SetShape(_, _) => RoomForOne(DestroyCursor(s).state, start);
    case PresentFrame =>
  }

  /** The id that a creation takes. */
  function Created(s: State, op: Op): nat {
    match op
    case SetMode(_, _, _) => FirstClear(DestroyFrameBuffer(s).state.taken, 0)
    case SetShape(_, _) => FirstClear(DestroyCursor(s).state.taken, 0)
    case PresentFrame => NO_ID
  }

  lemma RefusalLoses(s: State, start: nat, op: Op)
    requires Tidy(s, start) && 1 <= start && start + 2 < SIZE && !Keeps(op)
    ensures Lost(Effect(s, op).state, start, Created(s, op))
  {
    TidyAfterDestroy(s, start);
    match op
    case SetMode(_, _, _) => RoomForOne(DestroyFrameBuffer(s).state, start);
    case SetShape(_, _) => RoomForOne(DestroyCursor(s).state, start);
  }

  lemma {:induction false} StaysOnDevice(dev: Device, cs: seq<Command>, id: nat)
    requires id in dev && Unref(id) !in cs
    ensures id in ExecuteAll(dev, cs)
    decreases |cs|
  {
    if cs != [] {
      StaysOnDevice(dev, cs[..|cs| - 1], id);
    }
  }

  lemma StaysLost(s: State, start: nat, op: Op, id: nat)
    requires start >= 1 && Lost(s, start, id)
    ensures Lost(Effect(s, op).state, start, id)
  {
    match op
    case SetMode(known, luck, pages) => if known { assert Lost(DestroyFrameBuffer(s).state, start, id); }
    case SetShape(luck, colour) => assert Lost(DestroyCursor(s).state, start, id);
    case PresentFrame =>
  }

  lemma OnlyHeldAreReleased(s: State, op: Op, id: nat)
    requires Unref(id) in Effect(s, op).sent
    ensures s.frameBuf == Some(id) || s.cursorBuf == Some(id)
  {
    match op
    case SetMode(known, luck, pages) => if known {
      var made := CreateFrameBuffer(DestroyFrameBuffer(s).state, luck, pages).sent;
      assert Unref(id) !in made;
    }
    case SetShape(luck, colour) =>
      var made := CreateCursor(DestroyCursor(s).state, luck, colour).sent;
      assert Unref(id) !in made;
    case PresentFrame =>
  }

  /** What is lost stays so, in the bitmap and on the device, whatever the driver does. */
  lemma LossIsForGood(s: State, dev: Device, start: nat, op: Op, id: nat)
    requires start >= 1 && Lost(s, start, id)
    ensures Lost(Effect(s, op).state, start, id)
    ensures id in dev ==> id in ExecuteAll(dev, Effect(s, op).sent)
  {
    StaysLost(s, start, op, id);
    if Unref(id) in Effect(s, op).sent {
      OnlyHeldAreReleased(s, op, id);
      assert false;
    }
    if id in dev {
      StaysOnDevice(dev, Effect(s, op).sent, id);
    }
  }

  lemma {:induction false} TidyOrLost(start: nat, ops: seq<Op>) returns (id: nat)
    requires 1 <= start && start + 2 < SIZE
    ensures var s := RunAll(Fresh(start), ops).state; if AllKeep(ops) then Tidy(s, start) else Lost(s, start, id)
    decreases |ops|
  {
    id := 0;
    if ops != [] {
      var n := |ops| - 1;
      id := TidyOrLost(start, ops[..n]);
      AllKeepSplit(ops);
      var s := RunAll(Fresh(start), ops[..n]).state;
      if !AllKeep(ops[..n]) {
        LossIsForGood(s, map[], start, ops[n], id);
      } else if Keeps(ops[n]) {
        KeepingIsTidy(s, start, ops[n]);
      } else {
        RefusalLoses(s, start, ops[n]);
        id := Created(s, ops[n]);
      }
    }
  }

  /** At the end of a run the set bits are the reserved ids and those in use if and only if no creation was refused the
      memory for its entries. */
  lemma TidyIff(start: nat, ops: seq<Op>)
    requires 1 <= start && start + 2 < SIZE
    ensures Tidy(RunAll(Fresh(start), ops).state, start) <==> AllKeep(ops)
  {
    var id := TidyOrLost(start, ops);
  }

  // -------------------------------------------------------------------- room for new ids

  function Losses(ops: seq<Op>): nat
    decreases |ops|
  {
    if ops == [] then 0 else Losses(ops[..|ops| - 1]) + if Keeps(ops[|ops| - 1]) then 0 else 1
  }

  lemma {:induction false} NoLosses(ops: seq<Op>)
    requires AllKeep(ops)
    ensures Losses(ops) == 0
    decreases |ops|
  {
    if ops != [] {
      AllKeepSplit(ops);
      NoLosses(ops[..|ops| - 1]);
    }
  }

  function IdsOf(obj: Option<nat>): set<nat> {
    match obj
    case None => {}
    case Some(id) => {id}
  }

  /** Set bits that the driver does not hold. */
  function Spent(s: State): set<nat> {
    s.taken - IdsOf(s.frameBuf) - IdsOf(s.cursorBuf)
  }

  lemma Fewer(a: set<nat>, b: set<nat>)
    requires a <= b
    ensures |a| <= |b|
  {
    assert b == a + (b - a);
  }

  lemma SpentBySetMode(s: State, op: Op)
    requires op.SetMode?
    ensures Spent(Effect(s, op).state) <= Spent(s) + if Keeps(op) then {} else {Created(s, op)}
  {
  }

  lemma SpentBySetShape(s: State, op: Op)
    requires op.SetShape?
    ensures Spent(Effect(s, op).state) <= Spent(s) + if Keeps(op) then {} else {Created(s, op)}
  {
  }

  lemma SpentGrows(s: State, op: Op)
    ensures Spent(Effect(s, op).state) <= Spent(s) + if Keeps(op) then {} else {Created(s, op)}
  {
    match op
    case SetMode(_, _, _) => SpentBySetMode(s, op);
    case SetShape(_, _) => SpentBySetShape(s, op);
    case PresentFrame =>
  }

  lemma SizeOfUnion(after: set<nat>, before: set<nat>, extra: set<nat>)
    requires after <= before + extra
    ensures |after| <= |before| + |extra|
  {
    Fewer(after, before + extra);
  }

  lemma SpentAfter(s: State, op: Op)
    ensures |Spent(Effect(s, op).state)| <= |Spent(s)| + if Keeps(op) then 0 else 1
  {
    SpentGrows(s, op);
    SizeOfUnion(Spent(Effect(s, op).state), Spent(s), if Keeps(op) then {} else {Created(s, op)});
  }

  lemma {:induction false} ReservedSize(start: nat)
    ensures |Reserved(start)| == start
    decreases start
  {
    if start > 0 { ReservedSize(start - 1); }
  }

  lemma {:induction false} SpentBound(start: nat, ops: seq<Op>)
    ensures |Spent(RunAll(Fresh(start), ops).state)| <= start + Losses(ops)
    decreases |ops|
  {
    if ops == [] {
      ReservedSize(start);
      assert Spent(Fresh(start)) == Reserved(start);
    } else {
      var n := |ops| - 1;
      SpentBound(start, ops[..n]);
      SpentAfter(RunAll(Fresh(start), ops[..n]).state, ops[n]);
    }
  }

  lemma {:induction false} FullHasAll(taken: set<nat>, size: nat)
    requires forall i: nat :: i < size ==> i in taken
    ensures |taken| >= size
    decreases size
  {
    if size > 0 { FullHasAll(taken - {size - 1}, size - 1); }
  }

  lemma RoomBelow(taken: set<nat>)
    requires |taken| < SIZE
    ensures FirstClear(taken, 0) != NO_ID
  {
    if FirstClear(taken, 0) == NO_ID { FullHasAll(taken, SIZE); }
  }

  lemma RoomFor(s: State, op: Op)
    requires |Spent(s)| + 1 < SIZE && (op.PresentFrame? ==> s.frameBuf.Some?)
    ensures HasRoom(s, op)
  {
    match op
    case SetMode(_, _, _) =>
      Fewer(DestroyFrameBuffer(s).state.taken, Spent(s) + IdsOf(s.cursorBuf));
      RoomBelow(DestroyFrameBuffer(s).state.taken);
    case SetShape(_, _) =>
      Fewer(DestroyCursor(s).state.taken, Spent(s) + IdsOf(s.frameBuf));
      RoomBelow(DestroyCursor(s).state.taken);
    case PresentFrame =>
  }

  /** Every creation finds a free id unless almost all of the 32768 were lost before. */
  lemma {:induction false} RoomWhileFewLost(start: nat, ops: seq<Op>)
    requires start + Losses(ops) + 1 < SIZE && PresentsWhenShown(Fresh(start), ops)
    ensures AlwaysRoom(Fresh(start), ops)
    decreases |ops|
  {
    if ops != [] {
      var n := |ops| - 1;
      assert forall i | 0 <= i <= n :: ops[..n][..i] == ops[..i];
      RoomWhileFewLost(start, ops[..n]);
      SpentBound(start, ops[..n]);
      RoomFor(RunAll(Fresh(start), ops[..n]).state, ops[n]);
    }
  }

  // -------------------------------------------------------------------- conservation

  /** The device has exactly the resources that the driver holds. */
  ghost predicate Conserved(out: Out) {
    forall i: nat ::
      i in ExecuteAll(map[], out.sent) <==> out.state.frameBuf == Some(i) || out.state.cursorBuf == Some(i)
  }

  lemma {:induction false} LostThere(start: nat, ops: seq<Op>) returns (id: nat)
    requires 1 <= start && start + 2 < SIZE && PresentsWhenShown(Fresh(start), ops) && !AllKeep(ops)
    ensures var r := RunAll(Fresh(start), ops); Lost(r.state, start, id) && id in ExecuteAll(map[], r.sent)
    decreases |ops|
  {
    var n := |ops| - 1;
    var front := ops[..n];
    var before := RunAll(Fresh(start), front);
    var dev := ExecuteAll(map[], before.sent);
    assert forall i | 0 <= i <= n :: front[..i] == ops[..i];
    AllKeepSplit(ops);
    Concat(map[], before.sent, Effect(before.state, ops[n]).sent);
    if AllKeep(front) {
      AllKeepStands(start, front);
      RefusedIsThere(before.state, dev, start, ops[n]);
      id := Created(before.state, ops[n]);
    } else {
      id := LostThere(start, front);
      LossIsForGood(before.state, dev, start, ops[n], id);
    }
  }

  lemma AllKeepStands(start: nat, ops: seq<Op>)
    requires 1 <= start && start + 2 < SIZE && PresentsWhenShown(Fresh(start), ops) && AllKeep(ops)
    ensures AlwaysRoom(Fresh(start), ops) && InvAfter(start, ops) && Tidy(RunAll(Fresh(start), ops).state, start)
  {
    NoLosses(ops);
    RoomWhileFewLost(start, ops);
    forall i | 0 <= i < |ops| ensures GetsEntries(ops[i]) {
      assert Keeps(ops[i]);
    }
    IdsStandUpTo(start, ops, |ops|);
    assert ops[..|ops|] == ops;
    TidyIff(start, ops);
  }

  lemma RefusedIsThere(s: State, dev: Device, start: nat, op: Op)
    requires Tidy(s, start) && Inv(s, dev, start) && start + 2 < SIZE && !Keeps(op)
    ensures Lost(Effect(s, op).state, start, Created(s, op))
    ensures Created(s, op) in ExecuteAll(dev, Effect(s, op).sent)
  {
    RefusalLoses(s, start, op);
    TidyAfterDestroy(s, start);
    match op
    case SetMode(_, luck, pages) =>
      var gone := DestroyFrameBuffer(s);
      RoomForOne(gone.state, start);
      DestroyFrameBufferKeepsInv(s, dev, start);
      FrameBufferStream(gone.state, ExecuteAll(dev, gone.sent), start, luck, pages);
      Concat(dev, gone.sent, CreateFrameBuffer(gone.state, luck, pages).sent);
    case SetShape(luck, colour) =>
      var gone := DestroyCursor(s);
      RoomForOne(gone.state, start);
      DestroyCursorKeepsInv(s, dev, start);
      One(ExecuteAll(dev, gone.sent), CreateResource(Created(s, op)));
      Concat(dev, gone.sent, CreateCursor(gone.state, luck, colour).sent);
  }

  /** A mode that is set has no more pages than one command can list. */
  predicate IsSmall(op: Op) {
    op.SetMode? && op.known && op.luck.segment ==> op.pages <= MAX_PAGES
  }

  predicate SmallModes(ops: seq<Op>) {
    forall i :: 0 <= i < |ops| ==> IsSmall(ops[i])
  }

  /** From the start index 1 on, the device ends with exactly the resources that the driver holds if and only if no
      creation was refused the memory for its entries. Then it accepts the whole stream if and only if no mode with
      more than 7680 pages is set. */
  lemma ResourcesAreConserved(ops: seq<Op>)
    requires PresentsWhenShown(Fresh(1), ops)
    ensures Conserved(RunAll(Fresh(1), ops)) <==> AllKeep(ops)
    ensures AllKeep(ops) ==> (Valid(map[], RunAll(Fresh(1), ops).sent) <==> SmallModes(ops))
  {
    if AllKeep(ops) {
      AllKeepStands(1, ops);
      forall i | 0 <= i < |ops| ensures GetsBacking(ops[i]) == IsSmall(ops[i]) {
        assert Keeps(ops[i]);
      }
      StreamIsValid(1, ops);
    } else {
      var id := LostThere(1, ops);
    }
  }

  /** Setting the mode 4480 by 2520, with every allocation succeeding, has a command rejected. */
  lemma LargeModeIsRejected()
    ensures var run := [SetMode(true, Luck(true, true), FramePages(4480, 2520))];
            AllKeep(run) && !Valid(map[], RunAll(Fresh(1), run).sent)
  {
    var run := [SetMode(true, Luck(true, true), FramePages(4480, 2520))];
    assert FramePages(4480, 2520) == 11025;
    ResourcesAreConserved(run);
    assert !IsSmall(run[0]);
  }

  // -------------------------------------------------------------------- allocations refused

  /** When the entries for the backing cannot be allocated, the framebuffer object keeps the id 0. Destroying it later
      names a resource that does not exist, and the reserved id 0 is handed out next. The id that was taken, and its
      resource, are left to nobody. */
  lemma RefusedFrameBuffer(s: State, dev: Device, start: nat, pages: nat)
    requires Inv(s, dev, start) && s.frameBuf == None && FirstClear(s.taken, 0) != NO_ID
    ensures var made := CreateFrameBuffer(s, Luck(true, false), pages);
            var gone := DestroyFrameBuffer(made.state);
            var id, dev' := FirstClear(s.taken, 0), ExecuteAll(dev, made.sent);
            && !Valid(dev', gone.sent) && FirstClear(gone.state.taken, 0) == 0
            && id !in s.taken && id !in dev && Lost(gone.state, start, id) && id in ExecuteAll(dev', gone.sent)
  {
    FrameBufferStream(s, dev, start, Luck(true, false), pages);
    var made := CreateFrameBuffer(s, Luck(true, false), pages);
    Two(ExecuteAll(dev, made.sent), DetachBacking(0), Unref(0));
  }

  /** A cursor without entries is given up at once, its id and its resource are not. */
  lemma RefusedCursor(s: State, dev: Device, start: nat, colour: bool)
    requires Inv(s, dev, start) && s.cursorBuf == None && FirstClear(s.taken, 0) != NO_ID
    ensures var r, id := CreateCursor(s, Luck(true, false), colour), FirstClear(s.taken, 0);
            && r.state.cursorBuf == None
            && id !in s.taken && id !in dev && Lost(r.state, start, id) && id in ExecuteAll(dev, r.sent)
  {
    One(dev, CreateResource(FirstClear(s.taken, 0)));
  }
}
