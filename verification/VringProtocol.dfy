/** Runs of the driver and a well-behaved device over one virtqueue.  Steps interleave at the accesses of shared
    memory that matter: a buffer is first written, later exposed; the device takes heads, writes used elements, and
    publishes any number of them with one write of the index, completing each head it took once, in any order. All
    counts are unbounded; the queue itself only holds their low 16 bits. */
module VringProtocol {
  import opened Bits
  import opened Vring

  /** A buffer accepted from the caller. */
  datatype Sub = Sub(head: nat, token: Token, sg: seq<Sg>, outNum: nat, cells: seq<Cell>)

  /** A completion published by the device, for the buffer with this serial number. */
  datatype Done = Done(serial: nat, len: nat)

  datatype Sys = Sys(
    q: Vq,
    g: Shape,
    /** Guest memory that holds indirect tables. */
    mem: map<nat, seq<Desc>>,
    /** Buffers in the order they were added; the last one may still be unexposed. */
    subs: seq<Sub>,
    prepared: bool,
    /** Serial number of the buffer a head was last used for. */
    owner: seq<nat>,
    /** Heads taken by the device, with the head it read. */
    taken: nat,
    inflight: map<nat, nat>,
    used: seq<Done>,
    /** What `virtqueue_get_buf` returned. */
    returned: seq<(Token, nat)>)

  datatype Step =
    | Prepare(sg: seq<Sg>, outNum: nat, token: Token, indirect: bool, phys: nat)
    | Expose
    | Get
    | Kick
    | KickAlways
    | NoSpace
    | EnableCb
    | EnableCbDelayed
    | DisableCb
    | TakeHead
    | WriteUsed(serial: nat, len: nat, ahead: nat)
    | Publish(batch: seq<Done>)
    | SetAvailEvent(event: nat)
    | SetNoNotify(flag: bool)

  function Exposed(s: Sys): int {
    |s.subs| - if s.prepared then 1 else 0
  }

  /** Buffer `k` was added and has not been returned. */
  ghost predicate Live(s: Sys, k: nat) {
    && k < |s.subs|
    && var h := s.subs[k].head;
    h < |s.g.chains| && h < |s.owner| && s.g.chains[h] != [] && s.owner[h] == k
  }

  ghost predicate Outstanding(s: Sys, phys: nat) {
    exists k: nat :: Live(s, k) && s.subs[k].cells == IndirectCells(phys, |s.subs[k].sg|)
  }

  // ----- the invariant -----

  ghost predicate Counts(s: Sys) {
    && IsRingSize(s.q.num)
    && !s.q.broken
    && s.q.numAdded < FORCE_KICK
    && s.q.availNoInterrupt == s.q.noInterruptShadow
    && (s.prepared ==> |s.subs| > 0)
    && s.q.availIdx == s.q.availIdxShadow == Trunc16(Exposed(s))
    && s.q.lastUsedIdx == Trunc16(|s.returned|)
    && s.q.usedIdx == Trunc16(|s.used|)
    && |s.returned| <= |s.used|
    && |s.used| + |s.inflight| == s.taken <= Exposed(s)
    && LiveCount(s.g.chains) == |s.subs| - |s.returned|
  }

  /** The single descriptor points at an indirect table that holds the buffer. */
  ghost predicate IsIndirect(mem: map<nat, seq<Desc>>, b: Sub, phys: nat) {
    && b.cells == IndirectCells(phys, |b.sg|) && phys in mem
    && |b.sg| <= |mem[phys]| && mem[phys][..|b.sg|] == Table(b.sg, b.outNum)
  }

  /** The descriptors of a live head hold its buffer. */
  ghost predicate Stored(desc: seq<Desc>, mem: map<nat, seq<Desc>>, chain: seq<nat>, b: Sub) {
    && |chain| == |b.cells|
    && (forall i | 0 <= i < |chain| :: chain[i] < |desc| && desc[chain[i]].cell == b.cells[i])
    && b.sg != [] && b.outNum <= |b.sg|
    && (b.cells == DirectCells(b.sg, b.outNum)
        || (|b.cells| == 1 && IsIndirect(mem, b, b.cells[0].addr)))
  }

  ghost predicate OwnerOk(s: Sys, h: nat) {
    && h < |s.owner| == |s.g.chains| == |s.q.data|
    && (s.g.chains[h] != [] ==>
          && s.owner[h] < |s.subs|
          && s.subs[s.owner[h]].head == h
          && s.subs[s.owner[h]].token == s.q.data[h]
          && Stored(s.q.desc, s.mem, s.g.chains[h], s.subs[s.owner[h]]))
  }

  ghost predicate Owners(s: Sys) {
    |s.owner| == s.q.num && forall h: nat | h < |s.owner| :: OwnerOk(s, h)
  }

  /** Buffers the device has not taken are live, and their slot of the available ring is intact. */
  ghost predicate Waiting(s: Sys) {
    s.q.num > 0 && |s.q.availRing| == s.q.num &&
    forall k: nat | s.taken <= k < |s.subs| :: Live(s, k) && s.q.availRing[Slot(s.q.num, k)] == s.subs[k].head
  }

  ghost predicate Flying(s: Sys) {
    forall k: nat | k in s.inflight :: k < s.taken && Live(s, k) && s.inflight[k] == s.subs[k].head
  }

  /** Completions are of distinct taken buffers; those not consumed are live, and their slot of the used ring is
      intact. */
  ghost predicate Completed(s: Sys) {
    && (forall j | 0 <= j < |s.used| :: s.used[j].serial < s.taken && s.used[j].serial !in s.inflight)
    && (forall i, j | 0 <= i < j < |s.used| :: s.used[i].serial != s.used[j].serial)
  }

  ghost predicate Unread(s: Sys) {
    s.q.num > 0 && |s.q.usedRing| == s.q.num &&
    forall j: nat | |s.returned| <= j < |s.used| ::
      && Live(s, s.used[j].serial)
      && s.q.usedRing[Slot(s.q.num, j)] == UsedElem(s.subs[s.used[j].serial].head, s.used[j].len)
  }

  ghost predicate Returned(s: Sys) {
    |s.returned| <= |s.used| &&
    forall j | 0 <= j < |s.returned| ::
      s.used[j].serial < |s.subs| && s.returned[j] == (s.subs[s.used[j].serial].token, s.used[j].len)
  }

  ghost predicate Inv(s: Sys) {
    Counts(s) && Shaped(s.q, s.g) && Owners(s) && Waiting(s) && Flying(s) && Completed(s) && Unread(s) && Returned(s)
  }

  // ----- steps -----

  ghost predicate DriverIdle(s: Sys) {
    Inv(s) && !s.prepared
  }

  ghost predicate CanPrepare(s: Sys, sg: seq<Sg>, outNum: nat, token: Token, indirect: bool, phys: nat) {
    && DriverIdle(s) && sg != [] && outNum <= |sg| && token != 0
    && |BufferCells(s.q, sg, outNum, indirect, phys)| <= s.q.numFree
    // the caller does not reuse the memory of a table that is still in use
    && (GoesIndirect(s.q, |sg|, indirect) ==> !Outstanding(s, phys))
  }

  ghost predicate Enabled(s: Sys, st: Step) {
    match st
    case Prepare(sg, outNum, token, indirect, phys) => CanPrepare(s, sg, outNum, token, indirect, phys)
    case Expose => s.prepared && Inv(s)
    case Get => DriverIdle(s)
    case Kick => DriverIdle(s)
    case KickAlways => DriverIdle(s)
    case NoSpace => DriverIdle(s)
    case EnableCb => DriverIdle(s)
    case EnableCbDelayed => DriverIdle(s)
    case DisableCb => DriverIdle(s)
    case TakeHead => Inv(s) && Trunc16(s.taken) != s.q.availIdx
    // at most as many elements are written ahead of the index as there are buffers to complete
    case WriteUsed(k, len, ahead) => Inv(s) && k in s.inflight && ahead < |s.inflight|
    case Publish(batch) => Inv(s) && CanPublish(s, batch)
    case SetAvailEvent(e) => Inv(s)
    case SetNoNotify(f) => Inv(s)
  }

  ghost function AfterPrepare(s: Sys, sg: seq<Sg>, outNum: nat, token: Token, indirect: bool, phys: nat): Sys
    requires Inv(s) && sg != [] && |BufferCells(s.q, sg, outNum, indirect, phys)| <= s.q.numFree
  {
    var cells := BufferCells(s.q, sg, outNum, indirect, phys);
    var h := s.g.free[0];
    s.(q := Vring.Prepare(s.q, s.g, cells, token),
       g := Alloc(s.g, |cells|),
       mem := if GoesIndirect(s.q, |sg|, indirect) then s.mem[phys := Table(sg, outNum)] else s.mem,
       subs := s.subs + [Sub(h, token, sg, outNum, cells)],
       owner := s.owner[h := |s.subs|],
       prepared := true)
  }

  /** `virtqueue_get_buf`; only a buffer that was found changes anything. */
  ghost function AfterGet(s: Sys): Sys
    requires Inv(s)
  {
    match Lookup(s.q)
    case Buffer(h, t, len) =>
      assert OwnerOk(s, h);
      s.(q := Take(s.q, s.g, h), g := Release(s.g, h), returned := s.returned + [(t, len)])
    case _ => s
  }

  ghost function AfterExpose(s: Sys): Sys {
    s.(q := Vring.Expose(s.q), prepared := false)
  }

  /** The device reads the next head. */
  ghost function AfterTake(s: Sys): Sys
    requires s.q.num == |s.q.availRing| > 0
  {
    s.(inflight := s.inflight[s.taken := s.q.availRing[Slot(s.q.num, Trunc16(s.taken))]], taken := s.taken + 1)
  }

  /** The device writes a used element for a buffer it holds, `ahead` slots after the one it publishes next. */
  ghost function AfterWrite(s: Sys, k: nat, len: nat, ahead: nat): Sys
    requires s.q.num == |s.q.usedRing| > 0 && k in s.inflight
  {
    var slot := Slot(s.q.num, Trunc16(s.q.usedIdx + ahead));
    s.(q := s.q.(usedRing := s.q.usedRing[slot := UsedElem(s.inflight[k], len)]))
  }

  function Serials(batch: seq<Done>): (r: set<nat>)
    ensures forall k :: k in r <==> exists j :: 0 <= j < |batch| && batch[j].serial == k
  {
    set j | 0 <= j < |batch| :: batch[j].serial
  }

  /** Any number of used elements become visible with one write of the index. */
  ghost function AfterPublish(s: Sys, batch: seq<Done>): Sys {
    s.(q := s.q.(usedIdx := Trunc16(s.q.usedIdx + |batch|)),
       inflight := s.inflight - Serials(batch),
       used := s.used + batch)
  }

  /** The next slots hold the used elements of distinct buffers that the device holds. */
  ghost predicate CanPublish(s: Sys, batch: seq<Done>) {
    && s.q.num == |s.q.usedRing| > 0
    && (forall i, j | 0 <= i < j < |batch| :: batch[i].serial != batch[j].serial)
    && (forall j | 0 <= j < |batch| :: batch[j].serial in s.inflight && Written(s, batch[j], j))
  }

  ghost predicate Written(s: Sys, d: Done, ahead: nat)
    requires s.q.num == |s.q.usedRing| > 0 && d.serial in s.inflight
  {
    s.q.usedRing[Slot(s.q.num, Trunc16(s.q.usedIdx + ahead))] == UsedElem(s.inflight[d.serial], d.len)
  }

  ghost function Do(s: Sys, st: Step): Sys
    requires Enabled(s, st)
  {
    match st
    case Prepare(sg, outNum, token, indirect, phys) => AfterPrepare(s, sg, outNum, token, indirect, phys)
    case Expose => AfterExpose(s)
    case Get => AfterGet(s)
    case Kick => s.(q := Vring.Kick(s.q))
    case KickAlways => s.(q := Notify(s.q).(numAdded := 0))
    case NoSpace => s.(q := Notify(s.q))
    case EnableCb => s.(q := EnableInterrupts(s.q, s.q.lastUsedIdx))
    case EnableCbDelayed => s.(q := EnableInterrupts(s.q, s.q.lastUsedIdx + DelayedBufs(s.q)))
    case DisableCb => s.(q := s.q.(noInterruptShadow := true, availNoInterrupt := true))
    case TakeHead => AfterTake(s)
    case WriteUsed(k, len, ahead) => AfterWrite(s, k, len, ahead)
    case Publish(batch) => AfterPublish(s, batch)
    case SetAvailEvent(e) => s.(q := s.q.(availEvent := e))
    case SetNoNotify(f) => s.(q := s.q.(usedNoNotify := f))
  }

  // ----- every step keeps the invariant -----

  lemma CountBounds(s: Sys)
    requires Counts(s) && Shaped(s.q, s.g)
    ensures |s.subs| - |s.returned| + s.q.numFree <= s.q.num <= 0x8000
    ensures |s.returned| <= |s.used| <= s.taken <= Exposed(s) <= |s.returned| + s.q.num
  {
    LiveAtMostTotal(s.g.chains);
    RingSizeBound(s.q.num);
  }

  // -- what a step does not touch stays true

  ghost predicate SameBuffers(s: Sys, s': Sys) {
    (s'.g, s'.owner, s'.subs, s'.mem, s'.q.desc, s'.q.data, s'.q.num)
    == (s.g, s.owner, s.subs, s.mem, s.q.desc, s.q.data, s.q.num)
  }

  lemma OwnersFrame(s: Sys, s': Sys)
    requires Owners(s) && SameBuffers(s, s')
    ensures Owners(s')
  {
    forall h: nat | h < |s'.owner| ensures OwnerOk(s', h) { assert OwnerOk(s, h); }
  }

  lemma WaitingFrame(s: Sys, s': Sys)
    requires Waiting(s) && SameBuffers(s, s') && s'.q.availRing == s.q.availRing && s'.taken >= s.taken
    ensures Waiting(s')
  {
    forall k: nat | s'.taken <= k < |s'.subs| ensures Live(s', k) { assert Live(s, k); }
  }

  lemma FlyingFrame(s: Sys, s': Sys)
    requires Flying(s) && SameBuffers(s, s') && s'.taken >= s.taken
    requires forall k: nat | k in s'.inflight :: k in s.inflight && s'.inflight[k] == s.inflight[k]
    ensures Flying(s')
  {
    forall k: nat | k in s'.inflight ensures Live(s', k) { assert Live(s, k); }
  }

  lemma UnreadFrame(s: Sys, s': Sys)
    requires Unread(s) && SameBuffers(s, s')
    requires (s'.q.usedRing, s'.used, s'.returned) == (s.q.usedRing, s.used, s.returned)
    ensures Unread(s')
  {
    forall j: nat | |s.returned| <= j < |s.used| ensures Live(s', s'.used[j].serial) {
      assert Live(s, s.used[j].serial);
    }
  }

  /** Steps that touch neither buffers nor rings. */
  lemma QuietStep(s: Sys, s': Sys)
    requires Inv(s) && Counts(s') && SameBuffers(s, s')
    requires (s'.q.availRing, s'.q.usedRing, s'.q.numFree, s'.q.freeHead)
          == (s.q.availRing, s.q.usedRing, s.q.numFree, s.q.freeHead)
    requires (s'.used, s'.returned, s'.taken, s'.inflight) == (s.used, s.returned, s.taken, s.inflight)
    ensures Inv(s')
  {
    ShapedFrame(s.q, s'.q, s.g);
    OwnersFrame(s, s');
    WaitingFrame(s, s');
    FlyingFrame(s, s');
    UnreadFrame(s, s');
  }

  predicate IsControl(st: Step) {
    st.Kick? || st.KickAlways? || st.NoSpace? || st.EnableCb? || st.EnableCbDelayed? || st.DisableCb?
    || st.SetAvailEvent? || st.SetNoNotify?
  }

  lemma ControlKeepsInv(s: Sys, st: Step)
    requires Enabled(s, st) && IsControl(st)
    ensures Inv(Do(s, st))
  {
    QuietStep(s, Do(s, st));
  }

  lemma ExposeKeepsInv(s: Sys)
    requires Inv(s) && s.prepared
    ensures Inv(AfterExpose(s))
  {
    TruncStep(Exposed(s));
    QuietStep(s, AfterExpose(s));
  }

  // -- adding a buffer

  lemma LiveAfterPrepare(s: Sys, sg: seq<Sg>, outNum: nat, token: Token, indirect: bool, phys: nat, k: nat)
    requires CanPrepare(s, sg, outNum, token, indirect, phys) && Live(s, k)
    ensures Live(AfterPrepare(s, sg, outNum, token, indirect, phys), k)
  {
    AllocMoves(s.q, s.g, |BufferCells(s.q, sg, outNum, indirect, phys)|);
  }

  lemma StoredNew(q: Vq, g: Shape, mem: map<nat, seq<Desc>>, sg: seq<Sg>, outNum: nat, indirect: bool, phys: nat,
                  b: Sub)
    requires Shaped(q, g) && sg != [] && outNum <= |sg|
    requires var cells := BufferCells(q, sg, outNum, indirect, phys); |cells| <= |g.free| && b.cells == cells
    requires b.sg == sg && b.outNum == outNum
    requires GoesIndirect(q, |sg|, indirect) ==> phys in mem && mem[phys] == Table(sg, outNum)
    ensures Stored(Fill(q.desc, g, b.cells), mem, g.free[..|b.cells|], b)
  {
    var c, desc' := g.free[..|b.cells|], Fill(q.desc, g, b.cells);
    forall i | 0 <= i < |c| ensures c[i] < |desc'| && desc'[c[i]].cell == b.cells[i] {
      assert c[i] == g.free[i] && desc'[c[i]] == FillAt(q.desc, g, b.cells, c[i]);
    }
    if GoesIndirect(q, |sg|, indirect) { assert mem[phys][..|sg|] == Table(sg, outNum); }
  }

  lemma StoredOld(q: Vq, g: Shape, mem: map<nat, seq<Desc>>, mem': map<nat, seq<Desc>>, cells: seq<Cell>, h: nat,
                  b: Sub)
    requires Shaped(q, g) && |cells| <= |g.free| && h < q.num && Stored(q.desc, mem, g.chains[h], b)
    requires
      || b.cells == DirectCells(b.sg, b.outNum)
      || (var phys := b.cells[0].addr; phys in mem ==> phys in mem' && mem'[phys] == mem[phys])
    ensures Stored(Fill(q.desc, g, cells), mem', g.chains[h], b)
  {
    var c := g.chains[h];
    assert ChainOk(q.desc, g, h);
    forall i | 0 <= i < |c| ensures Fill(q.desc, g, cells)[c[i]] == q.desc[c[i]] {
      assert Fill(q.desc, g, cells)[c[i]] == FillAt(q.desc, g, cells, c[i]);
    }
  }

  lemma OwnersAfterPrepare(s: Sys, sg: seq<Sg>, outNum: nat, token: Token, indirect: bool, phys: nat)
    requires CanPrepare(s, sg, outNum, token, indirect, phys)
    ensures Owners(AfterPrepare(s, sg, outNum, token, indirect, phys))
  {
    var s' := AfterPrepare(s, sg, outNum, token, indirect, phys);
    var cells := BufferCells(s.q, sg, outNum, indirect, phys);
    AllocMoves(s.q, s.g, |cells|);
    forall h: nat | h < |s'.owner| ensures OwnerOk(s', h) {
      assert OwnerOk(s, h);
      if h == s.g.free[0] {
        StoredNew(s.q, s.g, s'.mem, sg, outNum, indirect, phys, s'.subs[|s.subs|]);
      } else if s.g.chains[h] != [] {
        assert Live(s, s.owner[h]);
        StoredOld(s.q, s.g, s.mem, s'.mem, cells, h, s.subs[s.owner[h]]);
      }
    }
  }

  lemma WaitingAfterPrepare(s: Sys, s': Sys)
    requires Waiting(s) && s'.q.num == s.q.num == |s'.q.availRing|
    requires s'.taken == s.taken && |s.subs| < s.taken + s.q.num
    requires |s'.subs| == |s.subs| + 1 && s.subs <= s'.subs && Live(s', |s.subs|)
    requires forall k: nat | Live(s, k) :: Live(s', k)
    requires s'.q.availRing == s.q.availRing[Slot(s.q.num, |s.subs|) := s'.subs[|s.subs|].head]
    ensures Waiting(s')
  {
    forall k: nat | s.taken <= k < |s.subs| ensures Slot(s.q.num, k) != Slot(s.q.num, |s.subs|) {
      SlotsDistinct(s.q.num, k, |s.subs|);
    }
  }

  lemma FlyingAfter(s: Sys, s': Sys)
    requires Flying(s) && s'.inflight == s.inflight && s'.taken == s.taken && s.subs <= s'.subs
    requires forall k: nat | k in s.inflight && Live(s, k) :: Live(s', k)
    ensures Flying(s')
  {
  }

  lemma UnreadAfterPrepare(s: Sys, s': Sys)
    requires Unread(s) && s.subs <= s'.subs && s'.q.num == s.q.num
    requires (s'.q.usedRing, s'.used, s'.returned) == (s.q.usedRing, s.used, s.returned)
    requires forall k: nat | Live(s, k) :: Live(s', k)
    ensures Unread(s')
  {
  }

  lemma CountsAfterPrepare(s: Sys, sg: seq<Sg>, outNum: nat, token: Token, indirect: bool, phys: nat)
    requires CanPrepare(s, sg, outNum, token, indirect, phys)
    ensures var s' := AfterPrepare(s, sg, outNum, token, indirect, phys); Shaped(s'.q, s'.g) && Counts(s')
  {
    AllocKeepsShape(s.q, s.g, BufferCells(s.q, sg, outNum, indirect, phys), token);
  }

  lemma SameSlot(ring: seq<nat>, num: nat, idx: nat, count: nat, head: nat)
    requires IsRingSize(num) && num == |ring| && idx == Trunc16(count) && head < num
    ensures num > 0 && ring[Slot(num, idx) := Trunc16(head)] == ring[Slot(num, count) := head]
  {
    RingSizeBound(num);
    SlotOfCount(num, count);
  }

  lemma PrepareRing(q: Vq, g: Shape, cells: seq<Cell>, token: Token)
    requires Shaped(q, g) && 0 < |cells| <= |g.free| && q.num > 0
    ensures g.free[0] < q.num
    ensures Vring.Prepare(q, g, cells, token).availRing
         == q.availRing[Slot(q.num, q.availIdxShadow) := Trunc16(g.free[0])]
  {
  }

  lemma PrepareSlot(q: Vq, g: Shape, cells: seq<Cell>, token: Token, count: nat)
    requires Shaped(q, g) && 0 < |cells| <= |g.free| && IsRingSize(q.num) && q.num > 0
    requires q.availIdxShadow == Trunc16(count)
    ensures Vring.Prepare(q, g, cells, token).availRing == q.availRing[Slot(q.num, count) := g.free[0]]
  {
    PrepareRing(q, g, cells, token);
    SameSlot(q.availRing, q.num, q.availIdxShadow, count, g.free[0]);
  }

  lemma NewHeadIsWaiting(s: Sys, sg: seq<Sg>, outNum: nat, token: Token, indirect: bool, phys: nat)
    requires CanPrepare(s, sg, outNum, token, indirect, phys)
    ensures var s' := AfterPrepare(s, sg, outNum, token, indirect, phys);
            Live(s', |s.subs|) && s'.q.availRing == s.q.availRing[Slot(s.q.num, |s.subs|) := s'.subs[|s.subs|].head]
  {
    PrepareSlot(s.q, s.g, BufferCells(s.q, sg, outNum, indirect, phys), token, |s.subs|);
  }

  lemma RingsAfterPrepare(s: Sys, sg: seq<Sg>, outNum: nat, token: Token, indirect: bool, phys: nat)
    requires CanPrepare(s, sg, outNum, token, indirect, phys)
    ensures var s' := AfterPrepare(s, sg, outNum, token, indirect, phys); Waiting(s') && Flying(s') && Unread(s')
  {
    var s' := AfterPrepare(s, sg, outNum, token, indirect, phys);
    forall k: nat | Live(s, k) ensures Live(s', k) {
      LiveAfterPrepare(s, sg, outNum, token, indirect, phys, k);
    }
    CountBounds(s);
    NewHeadIsWaiting(s, sg, outNum, token, indirect, phys);
    WaitingAfterPrepare(s, s');
    FlyingAfter(s, s');
    UnreadAfterPrepare(s, s');
  }

  lemma LogsFrame(s: Sys, s': Sys)
    requires Completed(s) && Returned(s) && s.subs <= s'.subs
    requires (s'.taken, s'.inflight, s'.used, s'.returned) == (s.taken, s.inflight, s.used, s.returned)
    ensures Completed(s') && Returned(s')
  {
  }

  lemma PrepareKeepsInv(s: Sys, sg: seq<Sg>, outNum: nat, token: Token, indirect: bool, phys: nat)
    requires CanPrepare(s, sg, outNum, token, indirect, phys)
    ensures Inv(AfterPrepare(s, sg, outNum, token, indirect, phys))
  {
    CountsAfterPrepare(s, sg, outNum, token, indirect, phys);
    OwnersAfterPrepare(s, sg, outNum, token, indirect, phys);
    RingsAfterPrepare(s, sg, outNum, token, indirect, phys);
    LogsFrame(s, AfterPrepare(s, sg, outNum, token, indirect, phys));
  }

  // -- getting a buffer back

  lemma MoreUsedMeaning(s: Sys)
    requires Counts(s) && Shaped(s.q, s.g)
    ensures MoreUsed(s.q) <==> |s.returned| < |s.used|
  {
    CountBounds(s);
    TruncDifference(|s.used|, |s.returned|);
  }

  /** With a well-behaved device `virtqueue_get_buf` never meets a bad element: it returns the next completion, if
      any. */
  lemma GetFinds(s: Sys)
    requires Inv(s)
    ensures |s.returned| == |s.used| ==> Lookup(s.q) == Nothing
    ensures |s.returned| < |s.used| ==>
      && var d := s.used[|s.returned|];
      Live(s, d.serial) && Lookup(s.q) == Buffer(s.subs[d.serial].head, s.subs[d.serial].token, d.len)
  {
    MoreUsedMeaning(s);
    var n := |s.returned|;
    if n < |s.used| {
      SlotOfCount(s.q.num, n);
      assert Live(s, s.used[n].serial);
      assert OwnerOk(s, s.subs[s.used[n].serial].head);
    }
  }

  lemma LiveAfterGet(s: Sys, k: nat)
    requires Inv(s) && |s.returned| < |s.used| && Live(s, k) && k != s.used[|s.returned|].serial
    ensures Live(AfterGet(s), k)
  {
    GetFinds(s);
  }

  lemma StoredAfterDetach(q: Vq, g: Shape, mem: map<nat, seq<Desc>>, h0: nat, h: nat, b: Sub)
    requires Shaped(q, g) && h0 < q.num && g.chains[h0] != [] && h < q.num && Stored(q.desc, mem, g.chains[h], b)
    ensures Stored(Detach(q, g, h0).desc, mem, g.chains[h], b)
  {
    assert ChainOk(q.desc, g, h0) && ChainOk(q.desc, g, h);
  }

  lemma OwnersAfterGet(s: Sys)
    requires Inv(s) && |s.returned| < |s.used|
    ensures Owners(AfterGet(s))
  {
    GetFinds(s);
    var s', h0 := AfterGet(s), Lookup(s.q).head;
    forall h: nat | h < |s'.owner| ensures OwnerOk(s', h) {
      assert OwnerOk(s, h);
      if h != h0 && s.g.chains[h] != [] {
        StoredAfterDetach(s.q, s.g, s.mem, h0, h, s.subs[s.owner[h]]);
      }
    }
  }

  lemma ShapedAfterGet(s: Sys)
    requires Inv(s) && |s.returned| < |s.used|
    ensures var s' := AfterGet(s); Shaped(s'.q, s'.g) && LiveCount(s'.g.chains) == LiveCount(s.g.chains) - 1
  {
    GetFinds(s);
    RingSizeBound(s.q.num);
    var h := Lookup(s.q).head;
    ReleaseKeepsShape(s.q, s.g, h);
    ShapedFrame(Detach(s.q, s.g, h), Take(s.q, s.g, h), Release(s.g, h));
  }

  /** The fields of the queue that change when buffer `h` is taken back. */
  lemma TakeFields(q: Vq, g: Shape, h: nat)
    requires Shaped(q, g) && h < q.num && g.chains[h] != []
    ensures
      var q' := Take(q, g, h);
      q' == q.(desc := q'.desc, data := q'.data, freeHead := q'.freeHead, numFree := q'.numFree,
               lastUsedIdx := Trunc16(q.lastUsedIdx + 1), usedEvent := q'.usedEvent)
  {
  }

  /** One more buffer counted as returned; the other counters stand. */
  ghost predicate CountedBack(s: Sys, s': Sys) {
    && s'.q.lastUsedIdx == Trunc16(s.q.lastUsedIdx + 1)
    && (s'.q.num, s'.q.broken, s'.q.numAdded, s'.q.availNoInterrupt, s'.q.noInterruptShadow)
       == (s.q.num, s.q.broken, s.q.numAdded, s.q.availNoInterrupt, s.q.noInterruptShadow)
    && (s'.q.availIdx, s'.q.availIdxShadow, s'.q.usedIdx) == (s.q.availIdx, s.q.availIdxShadow, s.q.usedIdx)
    && (s'.subs, s'.used, s'.inflight, s'.taken, s'.prepared) == (s.subs, s.used, s.inflight, s.taken, s.prepared)
    && |s'.returned| == |s.returned| + 1
  }

  lemma GetCountsBack(s: Sys)
    requires Inv(s) && |s.returned| < |s.used|
    ensures CountedBack(s, AfterGet(s))
  {
    GetFinds(s);
    TakeFields(s.q, s.g, Lookup(s.q).head);
  }

  lemma CountsAfterGet(s: Sys, s': Sys)
    requires Counts(s) && CountedBack(s, s') && |s.returned| < |s.used|
    requires LiveCount(s'.g.chains) == LiveCount(s.g.chains) - 1
    ensures Counts(s')
  {
    TruncStep(|s.returned|);
  }

  /** The buffer that was returned is neither waiting, nor in flight, nor completed a second time. */
  lemma RingsAfterGet(s: Sys, s': Sys)
    requires Waiting(s) && Flying(s) && Unread(s) && Completed(s) && Returned(s) && |s.returned| < |s.used|
    requires s'.q.num == s.q.num && (s'.q.availRing, s'.q.usedRing) == (s.q.availRing, s.q.usedRing)
    requires (s'.subs, s'.taken, s'.inflight, s'.used) == (s.subs, s.taken, s.inflight, s.used)
    requires var d := s.used[|s.returned|]; s'.returned == s.returned + [(s.subs[d.serial].token, d.len)]
    requires forall k: nat | Live(s, k) && k != s.used[|s.returned|].serial :: Live(s', k)
    ensures Waiting(s') && Flying(s') && Unread(s') && Returned(s')
  {
    assert Live(s, s.used[|s.returned|].serial);
  }

  lemma RingsFromGet(s: Sys)
    requires Inv(s) && |s.returned| < |s.used|
    ensures var s' := AfterGet(s); Waiting(s') && Flying(s') && Unread(s') && Returned(s') && Completed(s')
  {
    GetFinds(s);
    forall k: nat | Live(s, k) && k != s.used[|s.returned|].serial ensures Live(AfterGet(s), k) {
      LiveAfterGet(s, k);
    }
    RingsAfterGet(s, AfterGet(s));
  }

  lemma GetKeepsInv(s: Sys)
    requires DriverIdle(s)
    ensures Inv(AfterGet(s))
  {
    GetFinds(s);
    if |s.returned| < |s.used| {
      ShapedAfterGet(s);
      GetCountsBack(s);
      CountsAfterGet(s, AfterGet(s));
      OwnersAfterGet(s);
      RingsFromGet(s);
    }
  }

  // -- the device

  lemma CountsAfterTake(s: Sys)
    requires Counts(s) && Shaped(s.q, s.g) && Flying(s) && Trunc16(s.taken) != s.q.availIdx
    ensures s.taken < Exposed(s) && Counts(AfterTake(s))
  {
    assert s.taken !in s.inflight;
  }

  lemma FlyingAfterTake(s: Sys)
    requires Counts(s) && Flying(s) && Waiting(s) && s.taken < Exposed(s)
    ensures Flying(AfterTake(s))
  {
    SlotOfCount(s.q.num, s.taken);
    assert Live(s, s.taken);
    forall k: nat | k in AfterTake(s).inflight ensures Live(AfterTake(s), k) { assert Live(s, k); }
  }

  lemma CompletedAfterTake(s: Sys)
    requires Waiting(s) && Completed(s)
    ensures Completed(AfterTake(s))
  {
  }

  lemma TakeHeadKeepsInv(s: Sys)
    requires Inv(s) && Trunc16(s.taken) != s.q.availIdx
    ensures Inv(AfterTake(s))
  {
    CountsAfterTake(s);
    FlyingAfterTake(s);
    CompletedAfterTake(s);
    OwnersFrame(s, AfterTake(s));
    WaitingFrame(s, AfterTake(s));
    UnreadFrame(s, AfterTake(s));
  }

  lemma TruncAdd(x: nat, y: nat)
    ensures Trunc16(Trunc16(x) + y) == Trunc16(x + y)
  {
  }

  lemma SlotAhead(num: nat, used: nat, ahead: nat)
    requires IsRingSize(num)
    ensures num > 0 && Slot(num, Trunc16(Trunc16(used) + ahead)) == Slot(num, used + ahead)
  {
    TruncAdd(used, ahead);
    SlotOfCount(num, used + ahead);
  }

  lemma RoomAhead(s: Sys, ahead: nat)
    requires Counts(s) && Shaped(s.q, s.g) && ahead < |s.inflight|
    ensures |s.used| + ahead < |s.returned| + s.q.num
  {
    CountBounds(s);
  }

  /** The slot written is none of those the driver has still to read. */
  lemma WriteSlot(s: Sys, ahead: nat, j: nat)
    requires Counts(s) && Shaped(s.q, s.g) && ahead < |s.inflight| && |s.returned| <= j < |s.used|
    ensures s.q.num > 0 && Slot(s.q.num, j) != Slot(s.q.num, Trunc16(s.q.usedIdx + ahead))
  {
    RoomAhead(s, ahead);
    DistinctAhead(s.q.num, |s.returned|, j, |s.used|, ahead);
  }

  lemma DistinctAhead(num: nat, returned: nat, j: nat, used: nat, ahead: nat)
    requires IsRingSize(num) && returned <= j < used && used + ahead < returned + num
    ensures num > 0 && Slot(num, j) != Slot(num, Trunc16(Trunc16(used) + ahead))
  {
    SlotAhead(num, used, ahead);
    SlotsDistinct(num, j, used + ahead);
  }

  lemma UnreadAfterWrite(s: Sys, n: nat, len: nat, ahead: nat)
    requires Counts(s) && Shaped(s.q, s.g) && Unread(s) && n in s.inflight && ahead < |s.inflight|
    ensures Unread(AfterWrite(s, n, len, ahead))
  {
    var slot := Slot(s.q.num, Trunc16(s.q.usedIdx + ahead));
    forall j: nat | |s.returned| <= j < |s.used| ensures Slot(s.q.num, j) != slot {
      WriteSlot(s, ahead, j);
    }
    UnreadElsewhere(s, AfterWrite(s, n, len, ahead), slot);
  }

  lemma UnreadElsewhere(s: Sys, s': Sys, slot: nat)
    requires Unread(s) && SameBuffers(s, s') && (s'.used, s'.returned) == (s.used, s.returned)
    requires |s'.q.usedRing| == |s.q.usedRing|
    requires forall i | 0 <= i < |s.q.usedRing| && i != slot :: s'.q.usedRing[i] == s.q.usedRing[i]
    requires forall j: nat | |s.returned| <= j < |s.used| :: Slot(s.q.num, j) != slot
    ensures Unread(s')
  {
    forall j: nat | |s.returned| <= j < |s.used| ensures Live(s', s'.used[j].serial) {
      assert Live(s, s.used[j].serial);
    }
  }

  lemma WriteUsedKeepsInv(s: Sys, n: nat, len: nat, ahead: nat)
    requires Inv(s) && n in s.inflight && ahead < |s.inflight|
    ensures Inv(AfterWrite(s, n, len, ahead))
  {
    var s' := AfterWrite(s, n, len, ahead);
    WriteTouches(s, n, len, ahead);
    ShapedFrame(s.q, s'.q, s.g);
    OwnersFrame(s, s');
    WaitingFrame(s, s');
    FlyingFrame(s, s');
    UnreadAfterWrite(s, n, len, ahead);
    LogsFrame(s, s');
  }

  /** Writing changes the used ring only. */
  lemma WriteTouches(s: Sys, n: nat, len: nat, ahead: nat)
    requires Counts(s) && Shaped(s.q, s.g) && n in s.inflight
    ensures s.q.num == |s.q.usedRing| > 0
    ensures var s' := AfterWrite(s, n, len, ahead);
            s' == s.(q := s.q.(usedRing := s'.q.usedRing)) && |s'.q.usedRing| == |s.q.usedRing|
  {
    RingSizeBound(s.q.num);
  }

  // One completion published.

  lemma CompletedAfterOne(s: Sys, d: Done)
    requires Completed(s) && Flying(s) && d.serial in s.inflight
    ensures Completed(AfterPublish(s, [d]))
  {
    assert d.serial in Serials([d]) by { assert [d][0] == d; }
  }

  lemma UnreadAfterOne(s: Sys, d: Done)
    requires Counts(s) && Unread(s) && Flying(s) && CanPublish(s, [d])
    ensures Unread(AfterPublish(s, [d]))
  {
    assert [d][0] == d && Written(s, d, 0);
    SlotAhead(s.q.num, |s.used|, 0);
    UnreadGrows(s, AfterPublish(s, [d]), d);
  }

  lemma UnreadGrows(s: Sys, s': Sys, d: Done)
    requires Unread(s) && Flying(s) && SameBuffers(s, s') && d.serial in s.inflight
    requires (s'.q.usedRing, s'.used, s'.returned) == (s.q.usedRing, s.used + [d], s.returned)
    requires s.q.usedRing[Slot(s.q.num, |s.used|)] == UsedElem(s.inflight[d.serial], d.len)
    ensures Unread(s')
  {
    assert Live(s, d.serial);
    forall j: nat | |s'.returned| <= j < |s'.used| ensures Live(s', s'.used[j].serial) {
      if j < |s.used| { assert Live(s, s.used[j].serial); }
    }
  }

  lemma CountsAfterOne(s: Sys, d: Done)
    requires Counts(s) && d.serial in s.inflight
    ensures Counts(AfterPublish(s, [d]))
  {
    TruncStep(|s.used|);
    OneSerial(d);
    assert (s.inflight - {d.serial}).Keys == s.inflight.Keys - {d.serial};
  }

  lemma OneSerial(d: Done)
    ensures Serials([d]) == {d.serial}
  {
    assert [d][0] == d;
  }

  lemma PublishOneKeepsInv(s: Sys, d: Done)
    requires Inv(s) && CanPublish(s, [d])
    ensures Inv(AfterPublish(s, [d]))
  {
    var s' := AfterPublish(s, [d]);
    assert [d][0] == d;
    CountsAfterOne(s, d);
    ShapedFrame(s.q, s'.q, s.g);
    OwnersFrame(s, s');
    WaitingFrame(s, s');
    FlyingFrame(s, s');
    CompletedAfterOne(s, d);
    UnreadAfterOne(s, d);
  }

  lemma SerialsSplit(front: seq<Done>, d: Done)
    ensures Serials(front + [d]) == Serials(front) + {d.serial}
  {
    var batch := front + [d];
    assert batch[|front|] == d;
    forall k ensures k in Serials(batch) <==> k in Serials(front) || k == d.serial {
      if j :| 0 <= j < |batch| && batch[j].serial == k {
        assert j < |front| ==> front[j] == batch[j];
      }
      if j :| 0 <= j < |front| && front[j].serial == k {
        assert batch[j] == front[j];
      }
    }
  }

  lemma PublishSplit(s: Sys, front: seq<Done>, d: Done)
    ensures AfterPublish(s, front + [d]) == AfterPublish(AfterPublish(s, front), [d])
  {
    SerialsSplit(front, d);
    OneSerial(d);
    assert s.inflight - (Serials(front) + {d.serial}) == s.inflight - Serials(front) - {d.serial};
    assert s.used + (front + [d]) == s.used + front + [d];
    assert Trunc16(Trunc16(s.q.usedIdx + |front|) + 1) == Trunc16(s.q.usedIdx + |front| + 1);
  }

  /** A batch is its front, already published, and one more completion. */
  lemma CanPublishSplit(s: Sys, front: seq<Done>, d: Done)
    requires CanPublish(s, front + [d])
    ensures CanPublish(s, front) && CanPublish(AfterPublish(s, front), [d])
  {
    var batch, s1 := front + [d], AfterPublish(s, front);
    forall j | 0 <= j < |front| ensures front[j] == batch[j] && front[j].serial != d.serial {
      assert batch[|front|] == d;
    }
    assert Written(s, batch[|front|], |front|);
    assert Trunc16(Trunc16(s.q.usedIdx + |front|) + 0) == Trunc16(s.q.usedIdx + |front|);
    assert Written(s1, d, 0);
  }

  lemma NothingPublished(s: Sys)
    requires s.q.usedIdx < U16
    ensures AfterPublish(s, []) == s
  {
    assert s.inflight - Serials([]) == s.inflight;
    assert Trunc16(s.q.usedIdx + 0) == s.q.usedIdx;
  }

  lemma PublishOneMore(s: Sys, front: seq<Done>, d: Done)
    requires Inv(AfterPublish(s, front)) && CanPublish(AfterPublish(s, front), [d])
    ensures Inv(AfterPublish(s, front + [d]))
  {
    PublishSplit(s, front, d);
    PublishOneKeepsInv(AfterPublish(s, front), d);
  }

  lemma {:induction false} PublishKeepsInv(s: Sys, batch: seq<Done>)
    requires Inv(s) && CanPublish(s, batch)
    ensures Inv(AfterPublish(s, batch))
    decreases |batch|
  {
    if batch == [] {
      NothingPublished(s);
    } else {
      var front, d := batch[..|batch| - 1], batch[|batch| - 1];
      assert batch == front + [d];
      CanPublishSplit(s, front, d);
      PublishKeepsInv(s, front);
      PublishOneMore(s, front, d);
    }
  }

  lemma StepKeepsInv(s: Sys, st: Step)
    requires Enabled(s, st)
    ensures Inv(Do(s, st))
  {
    if IsControl(st) {
      ControlKeepsInv(s, st);
    } else if st.TakeHead? {
      TakeHeadKeepsInv(s);
    } else if st.WriteUsed? {
      WriteUsedKeepsInv(s, st.serial, st.len, st.ahead);
    } else if st.Publish? {
      PublishKeepsInv(s, st.batch);
    } else {
      DriverStepKeepsInv(s, st);
    }
  }

  lemma DriverStepKeepsInv(s: Sys, st: Step)
    requires Enabled(s, st) && (st.Prepare? || st.Expose? || st.Get?)
    ensures Inv(Do(s, st))
  {
    match st
    case Prepare(sg, outNum, token, indirect, phys) => PrepareKeepsInv(s, sg, outNum, token, indirect, phys);
    case Expose => ExposeKeepsInv(s);
    case Get => GetKeepsInv(s);
  }
}
