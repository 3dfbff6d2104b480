/** The driver's virtqueue as an object over shared arrays, with the loops of `VirtIORing.c`.
    Every method is tied to an operation on the abstract state of module `Vring`. */
module Virtqueues {
  import opened Bits
  import opened Options
  import opened Vring

  class Virtqueue {
    const num: nat
    // ring memory
    const desc: array<Desc>
    const availRing: array<nat>
    const usedRing: array<UsedElem>
    var availNoInterrupt: bool
    var availIdx: nat
    var usedEvent: nat
    var usedNoNotify: bool
    var usedIdx: nat
    var availEvent: nat
    // driver state
    var broken: bool
    var event: bool
    var numFree: nat
    var freeHead: nat
    var numAdded: nat
    var lastUsedIdx: nat
    var noInterruptShadow: bool
    var availIdxShadow: nat
    const data: array<Token>
    /** Calls of the `notify` callback. */
    var notifications: nat

    ghost var shape: Shape

    ghost function State(): Vq
      reads this, desc, availRing, usedRing, data
    {
      Vq(num, desc[..], availNoInterrupt, availIdx, availRing[..], usedEvent, usedNoNotify, usedIdx, usedRing[..],
         availEvent, broken, event, numFree, freeHead, numAdded, lastUsedIdx, noInterruptShadow, availIdxShadow,
         data[..], notifications)
    }

    ghost predicate Separate() {
      availRing != data && desc.Length == availRing.Length == usedRing.Length == data.Length == num
    }

    ghost predicate Valid()
      reads this, desc, availRing, usedRing, data
    {
      Separate() && Vring.Valid(State(), shape)
    }

    /** Takes over ring pages whose contents are whatever they are. */
    constructor (num: nat, event: bool, desc: array<Desc>, availRing: array<nat>, usedRing: array<UsedElem>,
                 data: array<Token>, pages: Vq)
      requires IsRingSize(num) && availRing != data
      requires desc.Length == availRing.Length == usedRing.Length == data.Length == num
      requires pages.num == num && pages.desc == desc[..]
      requires pages.availRing == availRing[..] && pages.usedRing == usedRing[..]
      requires |pages.data| == num
      modifies desc, data
      ensures this.num == num && this.desc == desc && this.data == data
      ensures this.availRing == availRing && this.usedRing == usedRing
      ensures State() == Initialized(pages, event).(notifications := 0) && shape == FreshShape(num)
      ensures pages.availIdx == 0 && !pages.availNoInterrupt ==> Valid()
    {
      this.num := num;
      this.desc, this.availRing, this.usedRing, this.data := desc, availRing, usedRing, data;
      availNoInterrupt, availIdx, usedEvent := pages.availNoInterrupt, pages.availIdx, pages.usedEvent;
      usedNoNotify, usedIdx, availEvent := pages.usedNoNotify, pages.usedIdx, pages.availEvent;
      notifications := 0;
      new;
      RingSizeBound(num);
      Initialize(event);
      FreshIsValid(pages.(notifications := 0), event);
    }

    /** `initialize_virtqueue`: resets the private state and links the descriptors into one free list. */
    method Initialize(event: bool)
      requires Separate() && num > 0
      modifies this, desc, data
      ensures State() == Initialized(old(State()), event) && shape == FreshShape(num)
    {
      ResetFreeList(event);
      ResetCounters();
      LinkAll();
      shape := FreshShape(num);
    }

    method ResetFreeList(event: bool)
      modifies `broken, `event, `numFree, `freeHead
      ensures State() == old(State()).(broken := false, event := event, numFree := num, freeHead := 0)
    {
      broken := false;
      this.event := event;
      numFree, freeHead := num, 0;
    }

    method ResetCounters()
      modifies `numAdded, `lastUsedIdx, `noInterruptShadow, `availIdxShadow
      ensures State() == old(State()).(numAdded := 0, lastUsedIdx := 0, noInterruptShadow := false, availIdxShadow := 0)
    {
      lastUsedIdx, noInterruptShadow, availIdxShadow, numAdded := 0, false, 0, 0;
    }

    method LinkAll()
      requires Separate() && num > 0
      modifies desc, data
      ensures var q := old(State()); State() == q.(desc := Linked(q.desc), data := seq(num, _ => 0))
    {
      var i := 0;
      while i < num - 1
        invariant i <= num - 1
        invariant forall d | 0 <= d < num :: desc[d] == if d < i then old(desc[d]).(next := d + 1) else old(desc[d])
        invariant forall d | 0 <= d < i :: data[d] == 0
      {
        desc[i] := desc[i].(next := i + 1);
        data[i] := 0;
        i := i + 1;
      }
      data[i] := 0;
      assert desc[..] == Linked(old(desc[..])) && data[..] == seq(num, _ => 0);
      assert availRing[..] == old(availRing[..]);
    }

    /** The two loops of `vring_add_indirect`: the elements go to the caller's table. */
    static method WriteTable(sg: seq<Sg>, outNum: nat, table: array<Desc>)
      requires sg != [] && outNum <= |sg| <= table.Length
      modifies table
      ensures table[..|sg|] == Table(sg, outNum) && table[|sg|..] == old(table[|sg|..])
    {
      ghost var cells := LoopCells(sg, outNum);
      var i := 0;
      while i < outNum
        invariant i <= outNum
        invariant forall j | 0 <= j < i :: table[j] == Desc(cells[j], Trunc16(j + 1))
        invariant table[|sg|..] == old(table[|sg|..])
      {
        TruncStep(i);
        table[i] := Desc(Cell(sg[i].addr, sg[i].len, DescFlags(true, false, false)), Trunc16(Trunc16(i) + 1));
        i := i + 1;
      }
      while i < |sg|
        invariant outNum <= i <= |sg|
        invariant forall j | 0 <= j < i :: table[j] == Desc(cells[j], Trunc16(j + 1))
        invariant table[|sg|..] == old(table[|sg|..])
      {
        TruncStep(i);
        table[i] := Desc(Cell(sg[i].addr, sg[i].len, DescFlags(true, true, false)), Trunc16(Trunc16(i) + 1));
        i := i + 1;
      }
      var last := table[i - 1];
      table[i - 1] := Desc(last.cell.(flags := last.cell.flags.(next := false)), 0);
    }

    /** `vring_add_indirect`: one descriptor points to the caller's table. */
    method AddIndirect(sg: seq<Sg>, outNum: nat, table: array<Desc>, phys: nat) returns (head: nat)
      requires Valid() && sg != [] && outNum <= |sg| <= table.Length && numFree > 0 && table != desc
      modifies `numFree, `freeHead, desc, table
      ensures State() == Reserve(old(State()), old(shape), IndirectCells(phys, |sg|)) && shape == old(shape)
      ensures head == shape.free[0] < num
      ensures table[..|sg|] == Table(sg, outNum) && table[|sg|..] == old(table[|sg|..])
    {
      ghost var q, cells := State(), IndirectCells(phys, |sg|);
      FillStep(q, shape, cells, 0);
      FillNone(q, shape, cells);
      assert cells[..1] == cells;
      WriteTable(sg, outNum, table);
      numFree := numFree - 1;
      head := freeHead;
      assert desc[..] == q.desc;
      var next := desc[head].next;
      desc[head] := Desc(Cell(phys, |sg| * DESC_SIZE, DescFlags(false, false, true)), next);
      freeHead := next;
      assert desc[..] == Fill(q.desc, shape, cells);
      assert availRing[..] == q.availRing && usedRing[..] == q.usedRing && data[..] == q.data;
    }

    /** One of the two loops of a direct add: elements `lo..hi` go to the next free descriptors. */
    method FillRun(sg: seq<Sg>, outNum: nat, lo: nat, hi: nat, i0: nat, prev0: nat, ghost q: Vq)
      returns (i: nat, prev: nat)
      requires Separate() && Shaped(q, shape) && lo <= hi <= |sg| <= q.numFree && q.num == num
      requires hi <= outNum || outNum <= lo
      requires lo < |sg| ==> i0 == shape.free[lo]
      requires lo > 0 ==> prev0 == shape.free[lo - 1] && i0 == q.desc[prev0].next
      requires desc[..] == Fill(q.desc, shape, LoopCells(sg, outNum)[..lo])
      modifies desc
      ensures hi < |sg| ==> i == shape.free[hi]
      ensures hi > 0 ==> prev == shape.free[hi - 1] < num && i == q.desc[prev].next
      ensures desc[..] == Fill(q.desc, shape, LoopCells(sg, outNum)[..hi])
    {
      ghost var cells := LoopCells(sg, outNum);
      i, prev := i0, prev0;
      var j := lo;
      while j < hi
        invariant lo <= j <= hi
        invariant j < |sg| ==> i == shape.free[j]
        invariant j > 0 ==> prev == shape.free[j - 1] && i == q.desc[prev].next
        invariant desc[..] == Fill(q.desc, shape, cells[..j])
      {
        FillStep(q, shape, cells, j);
        assert desc[i] == desc[..][i] == q.desc[i];
        desc[i] := desc[i].(cell := Cell(sg[j].addr, sg[j].len, DescFlags(true, j >= outNum, false)));
        prev := i;
        i := desc[i].next;
        j := j + 1;
      }
    }

    /** Readable elements, then writable ones; the last descriptor does not continue. */
    method FillChain(sg: seq<Sg>, outNum: nat, ghost q: Vq) returns (i: nat)
      requires Separate() && Shaped(q, shape) && 0 < |sg| <= q.numFree && outNum <= |sg| && q.num == num
      requires desc[..] == q.desc && freeHead == q.freeHead
      modifies desc
      ensures desc[..] == Fill(q.desc, shape, DirectCells(sg, outNum))
      ensures i == q.desc[shape.free[|sg| - 1]].next
    {
      ghost var cells := LoopCells(sg, outNum);
      FillNone(q, shape, cells);
      FillLast(q, shape, sg, outNum);
      assert cells[..|sg|] == cells;
      var prev;
      i, prev := FillRun(sg, outNum, 0, outNum, freeHead, 0, q);
      i, prev := FillRun(sg, outNum, outNum, |sg|, i, prev, q);
      assert desc[prev] == desc[..][prev];
      desc[prev] := desc[prev].(cell := desc[prev].cell.(flags := desc[prev].cell.flags.(next := false)));
    }

    /** The direct part of `virtqueue_add_buf`. */
    method AddDirect(sg: seq<Sg>, outNum: nat) returns (head: nat)
      requires Valid() && 0 < |sg| <= numFree && outNum <= |sg|
      modifies `numFree, `freeHead, desc
      ensures State() == Reserve(old(State()), old(shape), DirectCells(sg, outNum)) && shape == old(shape)
      ensures head == shape.free[0] < num
    {
      ghost var q := State();
      numFree := numFree - |sg|;
      head := freeHead;
      var i := FillChain(sg, outNum, q);
      freeHead := i;
      assert availRing[..] == q.availRing && usedRing[..] == q.usedRing && data[..] == q.data;
    }

    /** Token and available slot of a new buffer. */
    method StoreHead(head: nat, token: Token)
      requires Separate() && IsRingSize(num) && head < num
      modifies availRing, data
      ensures State() == old(State()).(
                data := old(data[..])[head := token],
                availRing := old(availRing[..])[Slot(num, availIdxShadow) := Trunc16(head)])
    {
      data[head] := token;
      MaskIsSlot(num, availIdxShadow);
      var avail := And(availIdxShadow, num - 1);
      availRing[avail] := Trunc16(head);
    }

    /** The common end of `virtqueue_add_buf`: token, available slot, index, forced kick. */
    method AddHead(head: nat, token: Token, ghost q: Vq, ghost cells: seq<Cell>)
      requires Separate() && Vring.Valid(q, shape) && q.num == num > 0
      requires GoodCells(cells) && |cells| <= |shape.free| && token != 0
      requires State() == Reserve(q, shape, cells) && head == shape.free[0]
      modifies `availIdx, `availIdxShadow, `numAdded, `notifications, `shape, availRing, data
      ensures Valid() && shape == Alloc(old(shape), |cells|)
      ensures State() == Expose(Prepare(q, old(shape), cells, token))
    {
      AddKeepsValid(q, shape, cells, token);
      StoreHead(head, token);
      shape := Alloc(shape, |cells|);
      ExposeHead();
    }

    /** The new index becomes visible to the device; the counter of unkicked buffers never reaches 2^16 - 1. */
    method ExposeHead()
      modifies `availIdxShadow, `availIdx, `numAdded, `notifications
      ensures State() == Expose(old(State()))
    {
      availIdxShadow := Trunc16(availIdxShadow + 1);
      availIdx := availIdxShadow;
      numAdded := numAdded + 1;
      if numAdded == FORCE_KICK {
        Kick();
      }
    }

    /** Without space the device is told anyway when there is something to read. */
    method NoSpace(outNum: nat)
      requires Valid()
      modifies `notifications
      ensures Valid() && State() == if outNum > 0 then Notify(old(State())) else old(State())
    {
      if outNum > 0 { notifications := notifications + 1; }
      NotificationsKeepValid(old(State()), State(), shape);
    }

    /** `virtqueue_add_buf`; `table` is the caller's memory for an indirect table, or null. */
    method AddBuf(sg: seq<Sg>, outNum: nat, inNum: nat, token: Token, table: array?<Desc>, phys: nat) returns (ret: int)
      requires Valid() && |sg| == outNum + inNum > 0 && token != 0
      requires table != null ==> table != desc && |sg| <= table.Length
      requires !GoesIndirect(State(), |sg|, table != null) ==> |sg| <= num
      modifies `numFree, `freeHead, `availIdx, `availIdxShadow, `numAdded, `notifications, `shape, desc, availRing, data
      modifies if table == null then {} else {table}
      ensures Valid()
      ensures (ret, State(), shape) == old(Vring.AddBuf(State(), shape, sg, outNum, token, table != null, phys))
      ensures table != null ==>
        if old(GoesIndirect(State(), |sg|, true)) then table[..|sg|] == Table(sg, outNum)
        else table[..] == old(table[..])
    {
      ghost var q, cells := State(), BufferCells(State(), sg, outNum, table != null, phys);
      var head;
      if table != null && outNum + inNum > 1 && numFree > 0 {
        head := AddIndirect(sg, outNum, table, phys);
      } else {
        if numFree < outNum + inNum {
          NoSpace(outNum);
          return -ENOSPC;
        }
        head := AddDirect(sg, outNum);
      }
      AddHead(head, token, q, cells);
      ret := 0;
    }

    /** `virtqueue_kick_prepare` */
    method KickPrepare() returns (needsKick: bool)
      modifies `numAdded
      ensures needsKick == old(NeedsKick(State()))
      ensures State() == old(State()).(numAdded := 0)
    {
      var prev := Trunc16(availIdxShadow - numAdded);
      var newIdx := availIdxShadow;
      numAdded := 0;
      if event {
        needsKick := NeedEvent(availEvent, newIdx, prev);
      } else {
        needsKick := !usedNoNotify;
      }
    }

    /** `virtqueue_kick` */
    method Kick()
      modifies `numAdded, `notifications
      ensures State() == old(Vring.Kick(State()))
    {
      var needsKick := KickPrepare();
      if needsKick {
        notifications := notifications + 1;
      }
    }

    /** `virtqueue_kick_always` */
    method KickAlways()
      modifies `numAdded, `notifications
      ensures State() == old(Notify(State())).(numAdded := 0)
    {
      numAdded := 0;
      notifications := notifications + 1;
    }

    /** First part of `detach_buf`: clears the token and walks to the end of the chain, counting its descriptors. */
    method FindEnd(head: nat) returns (i: nat)
      requires Separate() && Shaped(State(), shape) && head < num && shape.chains[head] != []
      modifies `numFree, data
      ensures var c := shape.chains[head]; i == c[|c| - 1] < num && numFree == old(numFree) + |c| - 1
      ensures data[..] == old(data[..])[head := 0]
    {
      ghost var q, c := State(), shape.chains[head];
      assert ChainOk(q.desc, shape, head);
      data[head] := 0;
      ghost var p := 0;
      i := head;
      while desc[i].cell.flags.next
        invariant 0 <= p < |c| && i == c[p] < num && numFree == q.numFree + p
        invariant data[..] == q.data[head := 0]
        decreases |c| - p
      {
        assert q.desc[c[p]] == desc[i];
        i := desc[i].next;
        numFree := numFree + 1;
        p := p + 1;
      }
      assert q.desc[c[p]] == desc[i];
    }

    /** `detach_buf`: the chain's end is linked to the free list and its head becomes the first free descriptor. */
    method DetachBuf(head: nat)
      requires Separate() && IsRingSize(num) && Shaped(State(), shape) && head < num && shape.chains[head] != []
      modifies `numFree, `freeHead, `shape, desc, data
      ensures State() == Detach(old(State()), old(shape), head) && shape == Release(old(shape), head)
    {
      ghost var q := State();
      var i := FindEnd(head);
      assert desc[..] == q.desc && availRing[..] == q.availRing && usedRing[..] == q.usedRing;
      LinkBack(head, i);
      shape := Release(shape, head);
    }

    /** Second part of `detach_buf`: descriptor `i` is followed by the old free list, which now starts at `head`. */
    method LinkBack(head: nat, i: nat)
      requires Separate() && i < num
      modifies `numFree, `freeHead, desc
      ensures var q := old(State());
              State() == q.(desc := q.desc[i := q.desc[i].(next := Trunc16(q.freeHead))],
                            freeHead := head, numFree := q.numFree + 1)
    {
      desc[i] := desc[i].(next := Trunc16(freeHead));
      freeHead := head;
      numFree := numFree + 1;
      assert desc[..] == old(desc[..])[i := desc[i]];
    }

    /** `virtqueue_get_buf`; `len` is written as soon as a used element was read, even when it is then rejected. */
    method GetBuf(len0: nat) returns (ret: Token, len: nat)
      requires Valid()
      modifies `numFree, `freeHead, `lastUsedIdx, `usedEvent, `shape, desc, data
      ensures Valid()
      ensures match old(Lookup(State()))
        case Nothing => ret == 0 && len == len0 && State() == old(State())
        case BadId(l) => ret == 0 && len == l && State() == old(State())
        case NotHead(l) => ret == 0 && len == l && State() == old(State())
        case Buffer(h, t, l) => ret == t && len == l && State() == old(Vring.Take(State(), shape, h))
                                && shape == old(Release(shape, h))
      ensures ret == 0 ==> shape == old(shape)
    {
      ghost var q, g := State(), shape;
      MaskIsSlot(num, lastUsedIdx);
      len := len0;
      if broken || lastUsedIdx == usedIdx {
        return 0, len;
      }
      var slot := And(lastUsedIdx, num - 1);
      var i := usedRing[slot].id;
      len := usedRing[slot].len;
      if i >= num {
        return 0, len;
      }
      if data[i] == 0 {
        return 0, len;
      }
      ret := data[i];
      DetachBuf(i);
      lastUsedIdx := Trunc16(lastUsedIdx + 1);
      if !noInterruptShadow {
        usedEvent := lastUsedIdx;
      }
      assert State() == Vring.Take(q, g, i);
      TakeKeepsValid(q, g, i);
    }

    /** `virtqueue_enable_cb` */
    method EnableCb() returns (ok: bool)
      requires Valid()
      modifies `noInterruptShadow, `availNoInterrupt, `usedEvent
      ensures Valid()
      ensures State() == old(EnableInterrupts(State(), lastUsedIdx)) && ok == !MoreUsed(State())
    {
      if noInterruptShadow {
        noInterruptShadow := false;
        availNoInterrupt := noInterruptShadow;
      }
      usedEvent := lastUsedIdx;
      NotificationsKeepValid(old(State()), State(), shape);
      ok := lastUsedIdx == usedIdx;
    }

    /** `virtqueue_enable_cb_delayed` */
    method EnableCbDelayed() returns (ok: bool)
      requires Valid()
      modifies `noInterruptShadow, `availNoInterrupt, `usedEvent
      ensures Valid()
      ensures State() == old(EnableInterrupts(State(), lastUsedIdx + DelayedBufs(State())))
      ensures ok == FewUsed(State(), DelayedBufs(State()))
    {
      if noInterruptShadow {
        noInterruptShadow := false;
        availNoInterrupt := noInterruptShadow;
      }
      var bufs := Trunc16(availIdxShadow - lastUsedIdx) * 3 / 4;
      usedEvent := Trunc16(lastUsedIdx + bufs);
      NotificationsKeepValid(old(State()), State(), shape);
      ok := Trunc16(usedIdx - lastUsedIdx) <= bufs;
    }

    /** `virtqueue_disable_cb` */
    method DisableCb()
      requires Valid()
      modifies `noInterruptShadow, `availNoInterrupt
      ensures Valid()
      ensures State() == old(State()).(noInterruptShadow := true, availNoInterrupt := true)
    {
      if !noInterruptShadow {
        noInterruptShadow := true;
        availNoInterrupt := noInterruptShadow;
      }
      NotificationsKeepValid(old(State()), State(), shape);
    }

    /** The search of `virtqueue_detach_unused_buf` for a head with a token. */
    method FindToken() returns (i: nat)
      requires data.Length == num
      ensures i <= num && FirstLive(data[..]) == if i < num then Some(i) else None
    {
      FirstLiveIsFirst(data[..]);
      i := 0;
      while i < num
        invariant i <= num
        invariant forall j | 0 <= j < i :: data[j] == 0
      {
        if data[i] != 0 { return; }
        i := i + 1;
      }
    }

    /** `virtqueue_detach_unused_buf`: gives back the buffer of the first head that still has a token. */
    method DetachUnusedBuf() returns (buf: Token)
      requires Valid()
      modifies `numFree, `freeHead, `availIdx, `availIdxShadow, `shape, desc, data
      ensures Valid()
      ensures match old(FirstLive(data[..]))
        case Some(h) => h < num && buf == old(data[h]) != 0 && State() == old(Unuse(State(), shape, h))
                        && shape == old(Release(shape, h))
        case None => buf == 0 && State() == old(State()) && shape == old(shape) && numFree == num
    {
      FirstLiveIsFirst(data[..]);
      var i := FindToken();
      if i == num {
        LiveAtMostTotal(shape.chains);
        return 0;
      }
      buf := data[i];
      GiveBack(i);
    }

    method GiveBack(i: nat)
      requires Valid() && i < num && shape.chains[i] != []
      modifies `numFree, `freeHead, `availIdx, `availIdxShadow, `shape, desc, data
      ensures Valid() && State() == old(Unuse(State(), shape, i)) && shape == old(Release(shape, i))
    {
      UnuseKeepsValid(State(), shape, i);
      DetachBuf(i);
      HideHead();
    }

    /** Takes the last index back from the available ring. */
    method HideHead()
      modifies `availIdx, `availIdxShadow
      ensures var q := old(State()); var idx := Trunc16(q.availIdxShadow - 1);
              State() == q.(availIdxShadow := idx, availIdx := idx)
    {
      availIdxShadow := Trunc16(availIdxShadow - 1);
      availIdx := availIdxShadow;
    }

    /** Clears the ring pages. */
    method ClearPages()
      requires Separate()
      modifies `availNoInterrupt, `availIdx, `usedEvent, `usedNoNotify, `usedIdx, `availEvent, desc, availRing, usedRing
      ensures State() == Zeroed(old(State()))
    {
      ClearArrays();
      availNoInterrupt, availIdx, usedEvent := false, 0, 0;
      usedNoNotify, usedIdx, availEvent := false, 0, 0;
    }

    method ClearArrays()
      requires Separate()
      modifies desc, availRing, usedRing
      ensures
        var z := Zeroed(old(State()));
        desc[..] == z.desc && availRing[..] == z.availRing && usedRing[..] == z.usedRing
      ensures data[..] == old(data[..])
    {
      forall i | 0 <= i < num { desc[i] := ZERO_DESC; }
      forall i | 0 <= i < num { availRing[i] := 0; }
      forall i | 0 <= i < num { usedRing[i] := UsedElem(0, 0); }
    }

    /** `virtqueue_shutdown`: clears the ring pages and starts over. */
    method Shutdown()
      requires Valid()
      modifies this, desc, availRing, usedRing, data
      ensures Valid()
      ensures State() == Initialized(Zeroed(old(State())), old(event)) && shape == FreshShape(num)
    {
      ghost var q := State();
      RingSizeBound(num);
      FreshIsValid(Zeroed(q), event);
      ClearPages();
      Initialize(event);
    }
  }
}
