/** State of a split virtqueue and the meaning of the driver's operations on it.

    `Vq` holds the shared ring memory and the driver's private fields. `Shape` is the bookkeeping of the
    proofs: which descriptors are on the free list, and which belong to the buffer of each head. */
module Vring {
  import opened Bits
  import opened Options

  const ENOSPC := 1
  /** `num_added` at which adding a buffer forces a kick. */
  const FORCE_KICK := U16 - 1
  const DESC_SIZE := 16

  datatype DescFlags = DescFlags(next: bool, write: bool, indirect: bool)
  datatype Cell = Cell(addr: nat, len: nat, flags: DescFlags)
  datatype Desc = Desc(cell: Cell, next: nat)
  datatype UsedElem = UsedElem(id: nat, len: nat)
  datatype Sg = Sg(addr: nat, len: nat)

  /** A token; zero is NULL. */
  type Token = nat

  datatype Vq = Vq(
    num: nat,
    // shared memory: written by the driver
    desc: seq<Desc>,
    availNoInterrupt: bool,
    availIdx: nat,
    availRing: seq<nat>,
    usedEvent: nat,
    // shared memory: written by the device
    usedNoNotify: bool,
    usedIdx: nat,
    usedRing: seq<UsedElem>,
    availEvent: nat,
    // private to the driver
    broken: bool,
    event: bool,
    numFree: nat,
    freeHead: nat,
    numAdded: nat,
    lastUsedIdx: nat,
    noInterruptShadow: bool,
    availIdxShadow: nat,
    data: seq<Token>,
    notifications: nat)

  /** Queue sizes are powers of two that fit in 16 bits. */
  ghost predicate IsRingSize(num: nat) {
    exists k: nat :: k <= 15 && num == Pow2(k)
  }

  lemma RingSizeBound(num: nat)
    requires IsRingSize(num)
    ensures 1 <= num <= 0x8000
  {
    var k: nat :| k <= 15 && num == Pow2(k);
    Pow2Sum(k, 15 - k);
    assert Pow2(16) == 2 * Pow2(15);
    Pow2Small();
    if num > 0x8000 { assert Pow2(k) * Pow2(15 - k) >= Pow2(k) by { MulAtLeast(Pow2(k), Pow2(15 - k)); } }
  }

  lemma MulAtLeast(a: nat, b: nat)
    requires b >= 1
    ensures a * b >= a
  {
  }

  /** The ring slot of a free-running 16-bit index; the code computes it with a mask. */
  function Slot(num: nat, idx: nat): (r: nat)
    requires num > 0
    ensures r < num
  {
    idx % num
  }

  lemma MaskIsSlot(num: nat, idx: nat)
    requires IsRingSize(num)
    ensures num > 0 && And(idx, num - 1) == Slot(num, idx)
  {
    var k: nat :| k <= 15 && num == Pow2(k);
    MaskIsRemainder(idx, k);
  }

  lemma SlotOfCount(num: nat, count: nat)
    requires IsRingSize(num)
    ensures num > 0 && Slot(num, Trunc16(count)) == Slot(num, count)
  {
    var k: nat :| k <= 15 && num == Pow2(k);
    TruncKeepsSlot(count, k);
  }

  /** Indices less than a ring apart use different slots. */
  lemma SlotsDistinct(num: nat, x: nat, y: nat)
    requires num > 0 && x < y < x + num
    ensures Slot(num, x) != Slot(num, y)
  {
    SlotsDiffer(x, y, num);
  }

  // ----- notification test -----

  /** `vring_need_event` on 16-bit values. */
  predicate NeedEvent(event: int, newIdx: int, prev: int) {
    Trunc16(newIdx - event - 1) < Trunc16(newIdx - prev)
  }

  /** The last index below `newIdx` whose low 16 bits are `event`. */
  function LastPassed(event: int, newIdx: int): int {
    newIdx - 1 - Trunc16(newIdx - event - 1)
  }

  lemma LastPassedIsUnique(event: nat, newIdx: int, i: int)
    requires event < U16 && newIdx - U16 <= i < newIdx
    ensures Trunc16(i) == event <==> i == LastPassed(event, newIdx)
  {
  }

  lemma NeedEventMeaning(event: nat, newIdx: nat, prev: nat)
    requires event < U16 && prev <= newIdx < prev + U16
    ensures NeedEvent(event, Trunc16(newIdx), Trunc16(prev)) <==> prev <= LastPassed(event, newIdx)
  {
    TruncSub(newIdx, event + 1);
    TruncDifference(newIdx, prev);
  }

  /** On unbounded indices the test says that an index with the event's low 16 bits was just passed. */
  lemma NeedEventIsWindow(event: nat, newIdx: nat, prev: nat)
    requires event < U16 && prev <= newIdx < prev + U16
    ensures NeedEvent(event, Trunc16(newIdx), Trunc16(prev)) <==> exists i :: prev <= i < newIdx && Trunc16(i) == event
  {
    NeedEventMeaning(event, newIdx, prev);
    LastPassedIsUnique(event, newIdx, LastPassed(event, newIdx));
    if exists i :: prev <= i < newIdx && Trunc16(i) == event {
      var i :| prev <= i < newIdx && Trunc16(i) == event;
      LastPassedIsUnique(event, newIdx, i);
    }
  }

  // ----- shape of the descriptor table -----

  /** Where a descriptor is: on the free list, `rank` places from its end, or at `pos` in the chain of `head`. */
  datatype Loc = Free(rank: nat) | InChain(head: nat, pos: nat)

  datatype Shape = Shape(free: seq<nat>, chains: seq<seq<nat>>, loc: seq<Loc>)

  function TotalLength(chains: seq<seq<nat>>): nat {
    if chains == [] then 0 else TotalLength(chains[..|chains| - 1]) + |chains[|chains| - 1]|
  }

  function LiveCount(chains: seq<seq<nat>>): nat {
    if chains == [] then 0 else LiveCount(chains[..|chains| - 1]) + if chains[|chains| - 1] == [] then 0 else 1
  }

  lemma {:induction false} ReplaceChain(chains: seq<seq<nat>>, h: nat, c: seq<nat>)
    requires h < |chains|
    ensures TotalLength(chains[h := c]) == TotalLength(chains) - |chains[h]| + |c|
    ensures LiveCount(chains[h := c])
         == LiveCount(chains) - (if chains[h] == [] then 0 else 1) + (if c == [] then 0 else 1)
  {
    var last := |chains| - 1;
    if h == last {
      assert chains[h := c][..last] == chains[..last];
    } else {
      assert chains[h := c][..last] == chains[..last][h := c];
      ReplaceChain(chains[..last], h, c);
    }
  }

  lemma {:induction false} LiveAtMostTotal(chains: seq<seq<nat>>)
    ensures LiveCount(chains) <= TotalLength(chains)
    ensures forall h | 0 <= h < |chains| && chains[h] != [] :: LiveCount(chains) >= 1
    ensures (forall h | 0 <= h < |chains| :: chains[h] == []) ==> TotalLength(chains) == 0
  {
    if chains != [] {
      LiveAtMostTotal(chains[..|chains| - 1]);
    }
  }

  ghost predicate Sized(q: Vq, g: Shape) {
    |q.desc| == |q.availRing| == |q.usedRing| == |q.data| == |g.chains| == |g.loc| == q.num
  }

  /** The free list is the path from `free_head`; what follows its last entry does not matter. */
  ghost predicate FreeListOk(desc: seq<Desc>, freeHead: nat, g: Shape) {
    && |desc| == |g.loc|
    && (g.free != [] ==> g.free[0] == freeHead)
    && (forall i | 0 <= i < |g.free| :: g.free[i] < |desc| && g.loc[g.free[i]] == Free(|g.free| - 1 - i))
    && (forall i {:trigger desc[g.free[i]]} | 0 <= i < |g.free| - 1 :: desc[g.free[i]].next == g.free[i + 1])
  }

  /** The chain of `h` starts at `h`, follows `next`, and carries NEXT on all but its last descriptor. */
  ghost predicate ChainOk(desc: seq<Desc>, g: Shape, h: nat) {
    && |desc| == |g.loc| && h < |g.chains|
    && var c := g.chains[h];
    && (c != [] ==> c[0] == h)
    && (forall i | 0 <= i < |c| :: c[i] < |desc| && g.loc[c[i]] == InChain(h, i))
    && (forall i {:trigger desc[c[i]]} | 0 <= i < |c| :: desc[c[i]].cell.flags.next <==> i < |c| - 1)
    && (forall i {:trigger desc[c[i]]} | 0 <= i < |c| - 1 :: desc[c[i]].next == c[i + 1])
  }

  /** Every descriptor is where `loc` says: free list and chains cover the table, without overlap. */
  ghost predicate Located(g: Shape, d: nat) {
    d < |g.loc| &&
    match g.loc[d]
    case Free(r) => r < |g.free| && g.free[|g.free| - 1 - r] == d
    case InChain(h, p) => h < |g.chains| && p < |g.chains[h]| && g.chains[h][p] == d
  }

  ghost predicate ChainsOk(desc: seq<Desc>, g: Shape) {
    forall h: nat | h < |g.chains| :: ChainOk(desc, g, h)
  }

  ghost predicate AllLocated(g: Shape) {
    forall d: nat | d < |g.loc| :: Located(g, d)
  }

  /** A head has a token exactly while its chain is in use. */
  ghost predicate TokensOk(data: seq<Token>, g: Shape) {
    |data| == |g.chains| && forall h: nat | h < |data| :: data[h] != 0 <==> g.chains[h] != []
  }

  ghost predicate Shaped(q: Vq, g: Shape) {
    && Sized(q, g)
    && |g.free| == q.numFree
    && FreeListOk(q.desc, q.freeHead, g)
    && ChainsOk(q.desc, g)
    && AllLocated(g)
    && TokensOk(q.data, g)
    && q.numFree + TotalLength(g.chains) == q.num
  }

  /** The driver's counters when `live` buffers are outstanding. */
  predicate CountersOk(q: Vq, live: nat) {
    && q.lastUsedIdx < U16
    && q.availIdxShadow == Trunc16(q.lastUsedIdx + live) == q.availIdx
    && q.availNoInterrupt == q.noInterruptShadow
    && q.numAdded < FORCE_KICK
  }

  /** What holds between any two calls of the driver, whatever the device does. */
  ghost predicate Valid(q: Vq, g: Shape) {
    IsRingSize(q.num) && Shaped(q, g) && CountersOk(q, LiveCount(g.chains))
  }

  /** The descriptors partition: each one is on the free list or in exactly one live chain, at one place. */
  lemma Partition(q: Vq, g: Shape, d: nat)
    requires Shaped(q, g) && d < q.num
    ensures (exists i :: 0 <= i < |g.free| && g.free[i] == d)
       <==> !exists h: nat, p :: h < q.num && 0 <= p < |g.chains[h]| && g.chains[h][p] == d
    ensures forall i, j | 0 <= i < |g.free| && 0 <= j < |g.free| && g.free[i] == g.free[j] :: i == j
    ensures forall h: nat, p, h': nat, p' | h < q.num && h' < q.num && 0 <= p < |g.chains[h]|
              && 0 <= p' < |g.chains[h']| && g.chains[h][p] == d == g.chains[h'][p'] :: h == h' && p == p'
  {
    assert Located(g, d);
    forall h: nat, p | h < q.num && 0 <= p < |g.chains[h]| && g.chains[h][p] == d
      ensures g.loc[d] == InChain(h, p)
    {
      assert ChainOk(q.desc, g, h);
    }
    if g.loc[d].InChain? {
      assert ChainOk(q.desc, g, g.loc[d].head);
    }
  }

  // ----- taking descriptors off the free list and putting them back -----

  /** Place of `d` on the free list, if it is one of its first `k`. */
  ghost predicate AmongFirst(g: Shape, k: nat, d: nat)
    requires d < |g.loc|
  {
    g.loc[d].Free? && |g.free| - k <= g.loc[d].rank < |g.free|
  }

  ghost function PlaceOnFreeList(g: Shape, d: nat): nat
    requires d < |g.loc| && g.loc[d].Free? && g.loc[d].rank < |g.free|
  {
    |g.free| - 1 - g.loc[d].rank
  }

  ghost function AllocLoc(g: Shape, k: nat, d: nat): Loc
    requires 0 < k <= |g.free| && d < |g.loc|
  {
    if AmongFirst(g, k, d) then InChain(g.free[0], PlaceOnFreeList(g, d)) else g.loc[d]
  }

  /** The first `k` free descriptors become the chain of the first of them. */
  ghost function Alloc(g: Shape, k: nat): Shape
    requires 0 < k <= |g.free| && g.free[0] < |g.chains|
  {
    Shape(g.free[k..], g.chains[g.free[0] := g.free[..k]],
          seq(|g.loc|, (d: nat) requires d < |g.loc| => AllocLoc(g, k, d)))
  }

  ghost function ReleaseLoc(g: Shape, h: nat, d: nat): Loc
    requires h < |g.chains| && d < |g.loc|
  {
    var n := |g.chains[h]|;
    if g.loc[d].InChain? && g.loc[d].head == h && g.loc[d].pos < n then Free(|g.free| + n - 1 - g.loc[d].pos)
    else g.loc[d]
  }

  /** The chain of `h` goes to the front of the free list. */
  ghost function Release(g: Shape, h: nat): Shape
    requires h < |g.chains|
  {
    Shape(g.chains[h] + g.free, g.chains[h := []],
          seq(|g.loc|, (d: nat) requires d < |g.loc| => ReleaseLoc(g, h, d)))
  }

  ghost function FillAt(desc: seq<Desc>, g: Shape, cells: seq<Cell>, d: nat): Desc
    requires d < |desc| == |g.loc| && |cells| <= |g.free|
  {
    if AmongFirst(g, |cells|, d) then desc[d].(cell := cells[PlaceOnFreeList(g, d)]) else desc[d]
  }

  /** The table after the first `|cells|` free descriptors received `cells`; their `next` links are kept. */
  ghost function Fill(desc: seq<Desc>, g: Shape, cells: seq<Cell>): (r: seq<Desc>)
    requires |desc| == |g.loc| && |cells| <= |g.free|
    ensures |r| == |desc|
  {
    seq(|desc|, (d: nat) requires d < |desc| => FillAt(desc, g, cells, d))
  }

  function DirectCell(sg: seq<Sg>, outNum: nat, j: nat): Cell
    requires j < |sg|
  {
    Cell(sg[j].addr, sg[j].len, DescFlags(j < |sg| - 1, j >= outNum, false))
  }

  /** What the descriptors of a direct buffer say: readable elements, then writable ones, the last without NEXT. */
  function DirectCells(sg: seq<Sg>, outNum: nat): (r: seq<Cell>)
    ensures |r| == |sg|
  {
    seq(|sg|, (j: nat) requires j < |sg| => DirectCell(sg, outNum, j))
  }

  /** The single descriptor that points to an indirect table of `n` entries. */
  function IndirectCells(phys: nat, n: nat): (r: seq<Cell>)
    ensures |r| == 1
  {
    [Cell(phys, n * DESC_SIZE, DescFlags(false, false, true))]
  }

  /** The indirect table itself; links are 16 bits wide and the last one is zero. */
  function Table(sg: seq<Sg>, outNum: nat): (r: seq<Desc>)
    ensures |r| == |sg|
  {
    seq(|sg|, (j: nat) requires j < |sg| => Desc(DirectCell(sg, outNum, j), if j < |sg| - 1 then Trunc16(j + 1) else 0))
  }

  ghost predicate GoodCells(cells: seq<Cell>) {
    cells != [] && forall j | 0 <= j < |cells| :: cells[j].flags.next <==> j < |cells| - 1
  }

  /** Enough descriptors for `cells` taken off the free list and filled in. */
  ghost function Reserve(q: Vq, g: Shape, cells: seq<Cell>): Vq
    requires Sized(q, g) && FreeListOk(q.desc, q.freeHead, g) && 0 < |cells| <= |g.free| == q.numFree
  {
    q.(desc := Fill(q.desc, g, cells),
       numFree := q.numFree - |cells|,
       freeHead := q.desc[g.free[|cells| - 1]].next)
  }

  /** A buffer written to descriptors and to its slot of the available ring, but not yet exposed. */
  ghost function Prepare(q: Vq, g: Shape, cells: seq<Cell>, token: Token): Vq
    requires Sized(q, g) && FreeListOk(q.desc, q.freeHead, g) && 0 < |cells| <= |g.free| == q.numFree && q.num > 0
  {
    var h := g.free[0];
    Reserve(q, g, cells).(
      data := q.data[h := token],
      availRing := q.availRing[Slot(q.num, q.availIdxShadow) := Trunc16(h)])
  }

  function Notify(q: Vq): Vq {
    q.(notifications := q.notifications + 1)
  }

  /** `virtqueue_kick_prepare`: whether the device asked to be told. */
  predicate NeedsKick(q: Vq) {
    if q.event then NeedEvent(q.availEvent, q.availIdxShadow, Trunc16(q.availIdxShadow - q.numAdded))
    else !q.usedNoNotify
  }

  function Kick(q: Vq): Vq {
    var q' := q.(numAdded := 0);
    if NeedsKick(q) then Notify(q') else q'
  }

  /** The prepared buffer becomes visible to the device. */
  function ExposeIndex(q: Vq): Vq {
    var idx := Trunc16(q.availIdxShadow + 1);
    q.(availIdxShadow := idx, availIdx := idx, numAdded := q.numAdded + 1)
  }

  /** The common end of an add: the index, and a kick when the count of unkicked buffers is about to wrap. */
  function Expose(q: Vq): Vq {
    var q' := ExposeIndex(q);
    if q'.numAdded == FORCE_KICK then Kick(q') else q'
  }

  predicate GoesIndirect(q: Vq, n: nat, indirect: bool) {
    indirect && n > 1 && q.numFree > 0
  }

  function BufferCells(q: Vq, sg: seq<Sg>, outNum: nat, indirect: bool, phys: nat): (r: seq<Cell>)
    ensures sg != [] ==> GoodCells(r)
    ensures |r| == if GoesIndirect(q, |sg|, indirect) then 1 else |sg|
  {
    if GoesIndirect(q, |sg|, indirect) then IndirectCells(phys, |sg|) else DirectCells(sg, outNum)
  }

  /** `virtqueue_add_buf`: no space leaves the queue alone, but still notifies when there is something to read. */
  ghost function AddBuf(q: Vq, g: Shape, sg: seq<Sg>, outNum: nat, token: Token, indirect: bool, phys: nat)
    : (r: (int, Vq, Shape))
    requires Valid(q, g) && sg != [] && outNum <= |sg| && token != 0
    ensures r.0 == 0 <==> q.numFree >= |BufferCells(q, sg, outNum, indirect, phys)|
  {
    var cells := BufferCells(q, sg, outNum, indirect, phys);
    if q.numFree < |cells| then
      (-ENOSPC, if outNum > 0 then Notify(q) else q, g)
    else
      RingSizeBound(q.num);
      (0, Expose(Prepare(q, g, cells, token)), Alloc(g, |cells|))
  }

  /** With a table any list of more than one element takes a single descriptor; else it takes one for each element. */
  lemma AddSucceedsIff(q: Vq, g: Shape, sg: seq<Sg>, outNum: nat, token: Token, indirect: bool, phys: nat)
    requires Valid(q, g) && sg != [] && outNum <= |sg| && token != 0
    ensures var (ret, q', _) := AddBuf(q, g, sg, outNum, token, indirect, phys);
            var needed := if indirect && |sg| > 1 then 1 else |sg|;
            if q.numFree >= needed then ret == 0 && q'.numFree == q.numFree - needed
            else ret == -1 && q'.numFree == q.numFree
  {
    var cells := BufferCells(q, sg, outNum, indirect, phys);
    if q.numFree >= |cells| {
      RingSizeBound(q.num);
      assert Expose(Prepare(q, g, cells, token)).numFree == q.numFree - |cells|;
    }
  }

  /** `detach_buf`: the whole chain of `h` goes back to the front of the free list. */
  ghost function Detach(q: Vq, g: Shape, h: nat): Vq
    requires Shaped(q, g) && h < q.num && g.chains[h] != []
  {
    var c := g.chains[h];
    var last := c[|c| - 1];
    assert ChainOk(q.desc, g, h);
    q.(data := q.data[h := 0],
       desc := q.desc[last := q.desc[last].(next := Trunc16(q.freeHead))],
       freeHead := h,
       numFree := q.numFree + |c|)
  }

  predicate MoreUsed(q: Vq) {
    q.lastUsedIdx != q.usedIdx
  }

  /** What `virtqueue_get_buf` finds. */
  datatype Found = Nothing | BadId(len: nat) | NotHead(len: nat) | Buffer(head: nat, token: Token, len: nat)

  ghost function Lookup(q: Vq): (r: Found)
    requires IsRingSize(q.num) && |q.usedRing| == |q.data| == q.num
    ensures r.Buffer? ==> r.head < q.num && r.token == q.data[r.head] != 0
  {
    if q.broken || !MoreUsed(q) then Nothing
    else
      RingSizeBound(q.num);
      var e := q.usedRing[Slot(q.num, q.lastUsedIdx)];
      if e.id >= q.num then BadId(e.len)
      else if q.data[e.id] == 0 then NotHead(e.len)
      else Buffer(e.id, q.data[e.id], e.len)
  }

  /** `virtqueue_get_buf` once it has found the buffer of head `h`. */
  ghost function Take(q: Vq, g: Shape, h: nat): Vq
    requires Shaped(q, g) && h < q.num && g.chains[h] != []
  {
    var idx := Trunc16(q.lastUsedIdx + 1);
    Detach(q, g, h).(lastUsedIdx := idx, usedEvent := if q.noInterruptShadow then q.usedEvent else idx)
  }

  /** For any contents of the used ring: a buffer is found if and only if there is a new element and it names a head in
      use. */
  lemma FindsIff(q: Vq, g: Shape)
    requires Valid(q, g)
    ensures q.num > 0
    ensures var e := q.usedRing[q.lastUsedIdx % q.num];
            && (Lookup(q).Buffer? <==>
                  !q.broken && q.lastUsedIdx != q.usedIdx && e.id < q.num && g.chains[e.id] != [])
            && (Lookup(q).Buffer? ==> Lookup(q) == Buffer(e.id, q.data[e.id], e.len))
  {
    RingSizeBound(q.num);
  }

  /** How a device that keeps to the rules decides about an interrupt for what it published since `signalled`
      (section 2.6.7 of the VIRTIO specification). */
  predicate Interrupts(q: Vq, signalled: nat) {
    if q.event then NeedEvent(q.usedEvent, q.usedIdx, signalled) else !q.availNoInterrupt
  }

  /** `virtqueue_detach_unused_buf` on the first head that still has a token. */
  ghost function Unuse(q: Vq, g: Shape, h: nat): Vq
    requires Shaped(q, g) && h < q.num && g.chains[h] != []
  {
    var idx := Trunc16(q.availIdxShadow - 1);
    Detach(q, g, h).(availIdxShadow := idx, availIdx := idx)
  }

  /** The lowest head with a token. */
  function FirstLive(data: seq<Token>): Option<nat> {
    if data == [] then None
    else match FirstLive(data[..|data| - 1])
      case Some(h) => Some(h)
      case None => if data[|data| - 1] != 0 then Some(|data| - 1) else None
  }

  lemma {:induction false} FirstLiveIsFirst(data: seq<Token>)
    ensures match FirstLive(data)
      case Some(h) => h < |data| && data[h] != 0 && forall j | 0 <= j < h :: data[j] == 0
      case None => forall j | 0 <= j < |data| :: data[j] == 0
  {
    if data != [] { FirstLiveIsFirst(data[..|data| - 1]); }
  }

  // ----- callbacks -----

  function EnableInterrupts(q: Vq, event: nat): Vq {
    q.(noInterruptShadow := false, availNoInterrupt := false, usedEvent := Trunc16(event))
  }

  /** Three quarters of the buffers outstanding, as a 16-bit number. */
  function DelayedBufs(q: Vq): nat {
    Trunc16(q.availIdxShadow - q.lastUsedIdx) * 3 / 4
  }

  predicate FewUsed(q: Vq, bufs: nat) {
    Trunc16(q.usedIdx - q.lastUsedIdx) <= bufs
  }

  /** The shape only looks at the descriptor table, the tokens and the two free-list fields. */
  lemma ShapedFrame(q: Vq, q': Vq, g: Shape)
    requires Shaped(q, g) && Sized(q', g)
    requires (q'.desc, q'.data, q'.numFree, q'.freeHead) == (q.desc, q.data, q.numFree, q.freeHead)
    ensures Shaped(q', g)
  {
  }

  lemma ExposeKeepsShape(q: Vq, g: Shape)
    requires Shaped(q, g)
    ensures Shaped(Expose(q), g)
  {
    ShapedFrame(q, Expose(q), g);
  }

  lemma ExposeCounts(q: Vq, live: nat)
    requires CountersOk(q, live)
    ensures CountersOk(Expose(q), live + 1)
  {
  }

  lemma AddKeepsValid(q: Vq, g: Shape, cells: seq<Cell>, token: Token)
    requires Valid(q, g) && GoodCells(cells) && |cells| <= |g.free| && token != 0
    ensures q.num > 0
    ensures Valid(Expose(Prepare(q, g, cells, token)), Alloc(g, |cells|))
  {
    RingSizeBound(q.num);
    assert Shaped(Expose(Prepare(q, g, cells, token)), Alloc(g, |cells|))
        && LiveCount(Alloc(g, |cells|).chains) == LiveCount(g.chains) + 1 by {
      AllocKeepsShape(q, g, cells, token);
      ExposeKeepsShape(Prepare(q, g, cells, token), Alloc(g, |cells|));
    }
    assert CountersOk(Expose(Prepare(q, g, cells, token)), LiveCount(g.chains) + 1) by {
      ExposeCounts(Prepare(q, g, cells, token), LiveCount(g.chains));
    }
  }

  lemma TakeCounts(q: Vq, live: nat)
    requires CountersOk(q, live) && live > 0
    ensures CountersOk(q.(lastUsedIdx := Trunc16(q.lastUsedIdx + 1)), live - 1)
  {
  }

  lemma UnuseCounts(q: Vq, live: nat)
    requires CountersOk(q, live) && live > 0
    ensures var idx := Trunc16(q.availIdxShadow - 1); CountersOk(q.(availIdxShadow := idx, availIdx := idx), live - 1)
  {
  }

  /** Only these fields count. */
  lemma CountersFrame(q: Vq, q': Vq, live: nat)
    requires CountersOk(q, live)
    requires (q'.lastUsedIdx, q'.availIdxShadow, q'.availIdx, q'.availNoInterrupt, q'.noInterruptShadow, q'.numAdded)
          == (q.lastUsedIdx, q.availIdxShadow, q.availIdx, q.availNoInterrupt, q.noInterruptShadow, q.numAdded)
    ensures CountersOk(q', live)
  {
  }

  lemma DetachedShape(q: Vq, q': Vq, g: Shape, h: nat)
    requires IsRingSize(q.num) && Shaped(q, g) && h < q.num && g.chains[h] != []
    requires (q'.num, q'.availRing, q'.usedRing) == (q.num, q.availRing, q.usedRing)
    requires var d := Detach(q, g, h);
             (q'.desc, q'.data, q'.numFree, q'.freeHead) == (d.desc, d.data, d.numFree, d.freeHead)
    ensures Shaped(q', Release(g, h)) && LiveCount(Release(g, h).chains) == LiveCount(g.chains) - 1
    ensures LiveCount(g.chains) > 0
  {
    RingSizeBound(q.num);
    ReleaseKeepsShape(q, g, h);
    ShapedFrame(Detach(q, g, h), q', Release(g, h));
    LiveAtMostTotal(g.chains);
  }

  lemma TakeKeepsValid(q: Vq, g: Shape, h: nat)
    requires Valid(q, g) && h < q.num && g.chains[h] != []
    ensures Valid(Take(q, g, h), Release(g, h))
  {
    var q' := Take(q, g, h);
    DetachedShape(q, q', g, h);
    TakeCounts(q, LiveCount(g.chains));
    CountersFrame(q.(lastUsedIdx := Trunc16(q.lastUsedIdx + 1)), q', LiveCount(g.chains) - 1);
  }

  lemma UnuseKeepsValid(q: Vq, g: Shape, h: nat)
    requires Valid(q, g) && h < q.num && g.chains[h] != []
    ensures Valid(Unuse(q, g, h), Release(g, h))
  {
    var q', idx := Unuse(q, g, h), Trunc16(q.availIdxShadow - 1);
    DetachedShape(q, q', g, h);
    UnuseCounts(q, LiveCount(g.chains));
    CountersFrame(q.(availIdxShadow := idx, availIdx := idx), q', LiveCount(g.chains) - 1);
  }

  /** Callback control and kicks only touch notification fields. */
  lemma NotificationsKeepValid(q: Vq, q': Vq, g: Shape)
    requires Valid(q, g) && q'.numAdded < FORCE_KICK && q'.availNoInterrupt == q'.noInterruptShadow
    requires q' == q.(numAdded := q'.numAdded, notifications := q'.notifications, usedEvent := q'.usedEvent,
                      availNoInterrupt := q'.availNoInterrupt, noInterruptShadow := q'.noInterruptShadow)
    ensures Valid(q', g)
  {
    ShapedFrame(q, q', g);
  }

  // ----- initial state -----

  /** Every descriptor linked to the one after it; the last keeps its link. */
  function Linked(desc: seq<Desc>): seq<Desc> {
    seq(|desc|, (d: nat) requires d < |desc| => if d < |desc| - 1 then desc[d].(next := d + 1) else desc[d])
  }

  /** `initialize_virtqueue`: private state reset and all descriptors linked; the rest of the pages is not touched. */
  function Initialized(q: Vq, event: bool): Vq {
    q.(desc := Linked(q.desc),
       broken := false, event := event, numFree := q.num, freeHead := 0, numAdded := 0, lastUsedIdx := 0,
       noInterruptShadow := false, availIdxShadow := 0, data := seq(q.num, _ => 0))
  }

  const ZERO_DESC := Desc(Cell(0, 0, DescFlags(false, false, false)), 0)

  /** Zeroed ring pages. */
  function Zeroed(q: Vq): Vq {
    q.(desc := seq(|q.desc|, _ => ZERO_DESC), availNoInterrupt := false, availIdx := 0,
       availRing := seq(|q.availRing|, _ => 0), usedEvent := 0, usedNoNotify := false, usedIdx := 0,
       usedRing := seq(|q.usedRing|, _ => UsedElem(0, 0)), availEvent := 0)
  }

  ghost function FreshShape(num: nat): Shape {
    Shape(seq(num, i => i), seq(num, _ => []), seq(num, (d: nat) requires d < num => Free(num - 1 - d)))
  }

  lemma {:induction false} NoChains(chains: seq<seq<nat>>)
    requires forall h | 0 <= h < |chains| :: chains[h] == []
    ensures TotalLength(chains) == LiveCount(chains) == 0
  {
    if chains != [] { NoChains(chains[..|chains| - 1]); }
  }

  lemma FreshIsValid(q: Vq, event: bool)
    requires IsRingSize(q.num) && Sized(q, FreshShape(q.num))
    ensures Shaped(Initialized(q, event), FreshShape(q.num))
    ensures q.availIdx == 0 && !q.availNoInterrupt ==> Valid(Initialized(q, event), FreshShape(q.num))
  {
    NoChains(FreshShape(q.num).chains);
  }

  // ----- the loop of a direct add -----

  /** Cells as the loop of a direct add writes them: every one with NEXT. */
  ghost function LoopCells(sg: seq<Sg>, outNum: nat): (r: seq<Cell>)
    ensures |r| == |sg|
  {
    seq(|sg|, (j: nat) requires j < |sg| => Cell(sg[j].addr, sg[j].len, DescFlags(true, j >= outNum, false)))
  }

  lemma OnlyThere(q: Vq, g: Shape, j: nat, d: nat)
    requires Shaped(q, g) && j < |g.free| && d < q.num
    ensures g.free[j] < q.num && g.loc[g.free[j]] == Free(|g.free| - 1 - j)
    ensures g.loc[d] == Free(|g.free| - 1 - j) ==> d == g.free[j]
  {
    assert Located(g, d);
  }

  lemma FillStep(q: Vq, g: Shape, cells: seq<Cell>, j: nat)
    requires Shaped(q, g) && j < |cells| <= |g.free|
    ensures g.free[j] < q.num
    ensures Fill(q.desc, g, cells[..j + 1])
            == Fill(q.desc, g, cells[..j])[g.free[j] := Desc(cells[j], q.desc[g.free[j]].next)]
    ensures Fill(q.desc, g, cells[..j])[g.free[j]] == q.desc[g.free[j]]
  {
    var p := g.free[j];
    OnlyThere(q, g, j, p);
    forall d: nat | d < q.num
      ensures d != p ==> FillAt(q.desc, g, cells[..j + 1], d) == FillAt(q.desc, g, cells[..j], d)
    {
      OnlyThere(q, g, j, d);
    }
  }

  lemma FillNone(q: Vq, g: Shape, cells: seq<Cell>)
    requires Sized(q, g)
    ensures Fill(q.desc, g, cells[..0]) == q.desc
  {
  }

  lemma FillLast(q: Vq, g: Shape, sg: seq<Sg>, outNum: nat)
    requires Shaped(q, g) && 0 < |sg| <= |g.free|
    ensures var last := g.free[|sg| - 1]; var table := Fill(q.desc, g, LoopCells(sg, outNum));
            last < q.num && table[last].next == q.desc[last].next
            && table[last := table[last].(cell := table[last].cell.(flags := table[last].cell.flags.(next := false)))]
            == Fill(q.desc, g, DirectCells(sg, outNum))
  {
    var k, last := |sg|, g.free[|sg| - 1];
    OnlyThere(q, g, k - 1, last);
    forall d: nat | d < q.num
      ensures d != last ==> FillAt(q.desc, g, LoopCells(sg, outNum), d) == FillAt(q.desc, g, DirectCells(sg, outNum), d)
    {
      OnlyThere(q, g, k - 1, d);
    }
  }

  /** How taking `k` descriptors moves each of them. */
  lemma AllocMoves(q: Vq, g: Shape, k: nat)
    requires Shaped(q, g) && 0 < k <= |g.free|
    ensures g.free[0] < q.num && g.chains[g.free[0]] == []
    ensures forall i | 0 <= i < k :: Alloc(g, k).loc[g.free[i]] == InChain(g.free[0], i)
    ensures forall i | k <= i < |g.free| :: Alloc(g, k).loc[g.free[i]] == Free(|g.free| - 1 - i)
  {
    assert ChainOk(q.desc, g, g.free[0]);
  }

  lemma AllocKeepsFreeList(q: Vq, g: Shape, cells: seq<Cell>)
    requires Shaped(q, g) && 0 < |cells| <= |g.free|
    ensures g.free[0] < q.num
    ensures FreeListOk(Fill(q.desc, g, cells), q.desc[g.free[|cells| - 1]].next, Alloc(g, |cells|))
  {
    var desc', g', k := Fill(q.desc, g, cells), Alloc(g, |cells|), |cells|;
    AllocMoves(q, g, k);
    forall i | 0 <= i < |g'.free|
      ensures g'.free[i] < q.num && g'.loc[g'.free[i]] == Free(|g'.free| - 1 - i)
      ensures i < |g'.free| - 1 ==> desc'[g'.free[i]].next == g'.free[i + 1]
    {
      assert g'.free[i] == g.free[i + k];
      assert desc'[g.free[i + k]] == FillAt(q.desc, g, cells, g.free[i + k]);
    }
  }

  lemma AllocKeepsOtherChain(q: Vq, g: Shape, cells: seq<Cell>, h: nat)
    requires Shaped(q, g) && 0 < |cells| <= |g.free| && h < q.num && g.free[0] < q.num && h != g.free[0]
    ensures ChainOk(Fill(q.desc, g, cells), Alloc(g, |cells|), h)
  {
    var desc', g', c := Fill(q.desc, g, cells), Alloc(g, |cells|), g.chains[h];
    assert ChainOk(q.desc, g, h);
    forall i | 0 <= i < |c| ensures desc'[c[i]] == q.desc[c[i]] && g'.loc[c[i]] == g.loc[c[i]] {
      assert desc'[c[i]] == FillAt(q.desc, g, cells, c[i]);
      assert g'.loc[c[i]] == AllocLoc(g, |cells|, c[i]);
    }
  }

  lemma AllocMakesChain(q: Vq, g: Shape, cells: seq<Cell>)
    requires Shaped(q, g) && GoodCells(cells) && |cells| <= |g.free|
    ensures g.free[0] < q.num
    ensures ChainOk(Fill(q.desc, g, cells), Alloc(g, |cells|), g.free[0])
  {
    var desc', g', c := Fill(q.desc, g, cells), Alloc(g, |cells|), g.free[..|cells|];
    AllocMoves(q, g, |cells|);
    forall i | 0 <= i < |c| ensures desc'[c[i]] == Desc(cells[i], q.desc[c[i]].next) {
      assert c[i] == g.free[i] && desc'[c[i]] == FillAt(q.desc, g, cells, c[i]);
    }
    assert g'.chains[g.free[0]] == c;
  }

  lemma AllocKeepsLocated(q: Vq, g: Shape, k: nat, d: nat)
    requires Shaped(q, g) && 0 < k <= |g.free| && d < q.num && g.free[0] < q.num
    ensures Located(Alloc(g, k), d)
  {
    AllocMoves(q, g, k);
    assert Located(g, d);
    assert Alloc(g, k).loc[d] == AllocLoc(g, k, d);
  }

  lemma AllocKeepsShape(q: Vq, g: Shape, cells: seq<Cell>, token: Token)
    requires Shaped(q, g) && GoodCells(cells) && |cells| <= |g.free| && token != 0
    requires q.num > 0
    ensures Shaped(Prepare(q, g, cells, token), Alloc(g, |cells|))
    ensures LiveCount(Alloc(g, |cells|).chains) == LiveCount(g.chains) + 1
  {
    AllocMoves(q, g, |cells|);
    AllocKeepsFreeList(q, g, cells);
    forall h: nat | h < q.num ensures ChainOk(Fill(q.desc, g, cells), Alloc(g, |cells|), h) {
      if h == g.free[0] { AllocMakesChain(q, g, cells); } else { AllocKeepsOtherChain(q, g, cells, h); }
    }
    forall d: nat | d < q.num ensures Located(Alloc(g, |cells|), d) {
      AllocKeepsLocated(q, g, |cells|, d);
    }
    ReplaceChain(g.chains, g.free[0], g.free[..|cells|]);
  }

  lemma ReleaseKeepsFreeList(q: Vq, g: Shape, h: nat)
    requires Shaped(q, g) && h < q.num <= U16 && g.chains[h] != []
    ensures FreeListOk(Detach(q, g, h).desc, h, Release(g, h))
  {
    var desc', g', c := Detach(q, g, h).desc, Release(g, h), g.chains[h];
    assert ChainOk(q.desc, g, h);
    forall i | 0 <= i < |g'.free|
      ensures g'.free[i] < q.num && g'.loc[g'.free[i]] == Free(|g'.free| - 1 - i)
      ensures i < |g'.free| - 1 ==> desc'[g'.free[i]].next == g'.free[i + 1]
    {
      var d := if i < |c| then c[i] else g.free[i - |c|];
      assert g'.free[i] == d && d < q.num;
      assert g'.loc[d] == ReleaseLoc(g, h, d);
      if i >= |c| {
        assert d != c[|c| - 1];
        assert i < |g'.free| - 1 ==> g'.free[i + 1] == g.free[i - |c| + 1];
      } else if i < |c| - 1 {
        assert d != c[|c| - 1];
      }
    }
  }

  lemma ReleaseKeepsChain(q: Vq, g: Shape, h: nat, h': nat)
    requires Shaped(q, g) && h < q.num && h' < q.num && g.chains[h] != []
    ensures ChainOk(Detach(q, g, h).desc, Release(g, h), h')
  {
    var desc', g', c := Detach(q, g, h).desc, Release(g, h), g.chains[h'];
    assert ChainOk(q.desc, g, h) && ChainOk(q.desc, g, h');
    if h != h' {
      forall i | 0 <= i < |c| ensures desc'[c[i]] == q.desc[c[i]] && g'.loc[c[i]] == g.loc[c[i]] {
        assert g'.loc[c[i]] == ReleaseLoc(g, h, c[i]);
      }
    }
  }

  lemma ReleaseKeepsLocated(q: Vq, g: Shape, h: nat, d: nat)
    requires Shaped(q, g) && h < q.num && d < q.num
    ensures Located(Release(g, h), d)
  {
    assert Located(g, d);
    assert Release(g, h).loc[d] == ReleaseLoc(g, h, d);
  }

  lemma ReleaseKeepsShape(q: Vq, g: Shape, h: nat)
    requires Shaped(q, g) && h < q.num <= U16 && g.chains[h] != []
    ensures Shaped(Detach(q, g, h), Release(g, h))
    ensures LiveCount(Release(g, h).chains) == LiveCount(g.chains) - 1
  {
    ReleaseKeepsFreeList(q, g, h);
    forall h': nat | h' < q.num ensures ChainOk(Detach(q, g, h).desc, Release(g, h), h') {
      ReleaseKeepsChain(q, g, h, h');
    }
    forall d: nat | d < q.num ensures Located(Release(g, h), d) {
      ReleaseKeepsLocated(q, g, h, d);
    }
    ReplaceChain(g.chains, h, []);
  }
}
