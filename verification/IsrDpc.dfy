/** The hand-off of completed work from the device through the interrupt routine to the deferred routine that drains
    the control and cursor queues. Every access to state that another party writes is a step of its own; processors
    and device interleave freely, and a deferred routine that is queued again may run beside one still running. */
module IsrDpc {
  import opened Bits
  import opened Vring

  datatype Which = Ctrl | Cursor

  /** The bits of `m_PendingWorks`. */
  datatype Reason = DISPLAY | CURSOR | CHANGE

  function ReasonOf(w: Which): Reason {
    if w == Ctrl then DISPLAY else CURSOR
  }

  /** Free-running counts of a used ring: entries published by the device, published entries for which it decided
      whether to interrupt, and entries consumed by the driver. `firing` is a decision to interrupt not yet carried
      out. */
  datatype Ring = Ring(published: nat, signalled: nat, consumed: nat, firing: bool)

  /** Where a running deferred routine is. It holds the lock of a queue from a look that found an entry until it has
      taken that entry and written the event index. */
  datatype Pc =
    | Loop                                  // at the exchange in the loop condition
    | DrainCtrl(reason: set<Reason>)        // in the first inner loop, before it looks at the used index
    | TakeCtrl(reason: set<Reason>)         // in the first inner loop, about to write the event index
    | DrainCursor                           // in the second inner loop, before it looks
    | TakeCursor                            // in the second inner loop, about to write the event index

  /** Where the interrupt routine is. */
  datatype Isr =
    | Idle
    | Read(queue: bool, config: bool)       // it has read (and so cleared) the status
    | Marked                                // it has set its bits in `m_PendingWorks`

  /** `changed` tells whether a deferred routine has reported a configuration change. */
  datatype Sys = Sys(num: nat, eventIdx: bool, ctrl: Ring, cursor: Ring, queueBit: bool, configBit: bool, isr: Isr,
                     pending: set<Reason>, dpcQueued: bool, dpcs: seq<Pc>, changed: bool) {
    function At(w: Which): Ring { if w == Ctrl then ctrl else cursor }

    function With(w: Which, r: Ring): Sys { if w == Ctrl then this.(ctrl := r) else this.(cursor := r) }
  }

  datatype Step =
    | Publish(w: Which, n: nat)
    | Test(w: Which)
    | Raise(w: Which)
    | ConfigChange
    | IsrRead
    | IsrMark
    | IsrQueue
    | DpcStart
    | DpcExchange(i: nat)
    | DpcLook(i: nat)
    | DpcTake(i: nat)

  /** About to look at the used index of a queue. */
  predicate Looks(pc: Pc) { pc.DrainCtrl? || pc.DrainCursor? }

  /** Holding the lock of a queue, with an entry found. */
  predicate Holds(pc: Pc, w: Which) {
    if w == Ctrl then pc.TakeCtrl? else pc.TakeCursor?
  }

  predicate Locked(dpcs: seq<Pc>, w: Which) {
    exists i :: 0 <= i < |dpcs| && Holds(dpcs[i], w)
  }

  function QueueOf(pc: Pc): Which {
    if pc.DrainCtrl? || pc.TakeCtrl? then Ctrl else Cursor
  }

  ghost predicate Enabled(s: Sys, st: Step) {
    match st
    // the device tests after every batch
    case Publish(w, n) =>
      n > 0 && s.At(w).signalled == s.At(w).published && s.At(w).published + n <= s.At(w).consumed + s.num
    case Test(w) => s.At(w).signalled < s.At(w).published
    case Raise(w) => s.At(w).firing
    case ConfigChange => true
    case IsrRead => s.isr.Idle? && (s.queueBit || s.configBit)
    case IsrMark => s.isr.Read?
    case IsrQueue => s.isr.Marked?
    case DpcStart => s.dpcQueued
    case DpcExchange(i) => i < |s.dpcs| && s.dpcs[i] == Loop
    case DpcLook(i) => i < |s.dpcs| && Looks(s.dpcs[i]) && !Locked(s.dpcs, QueueOf(s.dpcs[i]))
    case DpcTake(i) => i < |s.dpcs| && Holds(s.dpcs[i], QueueOf(s.dpcs[i]))
  }

  /** Whether the device interrupts for the entries since its last decision. Without event indices it always does; with
      them it compares with the index that every successful `virtqueue_get_buf` writes. */
  predicate Fires(eventIdx: bool, r: Ring) {
    !eventIdx || NeedEvent(Trunc16(r.consumed), Trunc16(r.published), Trunc16(r.signalled))
  }

  /** That is the device's test on the fields of the queue, when callbacks are enabled and the last get returned a
      buffer. */
  lemma FiresIsTheTest(q: Vq, g: Shape, h: nat, r: Ring)
    requires Shaped(q, g) && h < q.num && g.chains[h] != [] && !q.noInterruptShadow && !q.availNoInterrupt
    requires r.consumed > 0 && q.lastUsedIdx == Trunc16(r.consumed - 1) && q.usedIdx == Trunc16(r.published)
    ensures Fires(q.event, r) <==> Interrupts(Take(q, g, h), Trunc16(r.signalled))
  {
    TruncStep(r.consumed - 1);
  }

  /** The first place of the loop body with work for `reason`. */
  function Body(reason: set<Reason>): Pc {
    if DISPLAY in reason then DrainCtrl(reason) else AfterCtrl(reason)
  }

  function AfterCtrl(reason: set<Reason>): Pc {
    if CURSOR in reason then DrainCursor else Loop
  }

  /** The value of the interrupt status register. */
  function Status(queue: bool, config: bool): nat {
    (if queue then 1 else 0) + (if config then 2 else 0)
  }

  /** The bits that the interrupt routine sets for a status; other values than 1 and 3 are unknown to it. */
  function Reasons(isrstat: nat): set<Reason> {
    if isrstat == 1 then {DISPLAY, CURSOR} else if isrstat == 3 then {CHANGE} else {}
  }

  function Mark(s: Sys): Sys
    requires s.isr.Read?
  {
    var found := Reasons(Status(s.isr.queue, s.isr.config));
    s.(pending := s.pending + found, isr := if found == {} then Idle else Marked)
  }

  function Exchange(s: Sys, i: nat): Sys
    requires i < |s.dpcs|
  {
    if s.pending == {} then s.(dpcs := s.dpcs[..i] + s.dpcs[i + 1..])
    else s.(pending := {}, dpcs := s.dpcs[i := Body(s.pending)], changed := s.changed || CHANGE in s.pending)
  }

  function AfterLook(pc: Pc, found: bool): Pc
    requires Looks(pc)
  {
    match pc
    case DrainCtrl(reason) => if found then TakeCtrl(reason) else AfterCtrl(reason)
    case DrainCursor => if found then TakeCursor else Loop
  }

  function AfterTake(pc: Pc): Pc
    requires Holds(pc, QueueOf(pc))
  {
    match pc
    case TakeCtrl(reason) => DrainCtrl(reason)
    case TakeCursor => DrainCursor
  }

  /** First access of `virtqueue_get_buf`: the used index. */
  function Look(s: Sys, i: nat): Sys
    requires i < |s.dpcs| && Looks(s.dpcs[i])
  {
    var r := s.At(QueueOf(s.dpcs[i]));
    s.(dpcs := s.dpcs[i := AfterLook(s.dpcs[i], r.consumed < r.published)])
  }

  /** Last access of `virtqueue_get_buf`: the event index, which is the count of entries consumed. */
  function TakeEntry(s: Sys, i: nat): Sys
    requires i < |s.dpcs| && Holds(s.dpcs[i], QueueOf(s.dpcs[i]))
  {
    var w := QueueOf(s.dpcs[i]);
    var r := s.At(w);
    s.With(w, r.(consumed := r.consumed + 1)).(dpcs := s.dpcs[i := AfterTake(s.dpcs[i])])
  }

  ghost function Do(s: Sys, st: Step): Sys
    requires Enabled(s, st)
  {
    match st
    case Publish(w, n) => s.With(w, s.At(w).(published := s.At(w).published + n))
    case Test(w) =>
      s.With(w, s.At(w).(signalled := s.At(w).published, firing := s.At(w).firing || Fires(s.eventIdx, s.At(w))))
    case Raise(w) => s.With(w, s.At(w).(firing := false)).(queueBit := true)
    case ConfigChange => s.(configBit := true)
    case IsrRead => s.(isr := Read(s.queueBit, s.configBit), queueBit := false, configBit := false)
    case IsrMark => Mark(s)
    case IsrQueue => s.(isr := Idle, dpcQueued := true)
    case DpcStart => s.(dpcQueued := false, dpcs := s.dpcs + [Loop])
    case DpcExchange(i) => Exchange(s, i)
    case DpcLook(i) => Look(s, i)
    case DpcTake(i) => TakeEntry(s, i)
  }

  // -------------------------------------------------------------------- the invariant

  /** The routine will look at the queue again before it leaves the loop body. */
  predicate WillDrain(pc: Pc, w: Which) {
    match w
    case Ctrl => pc.DrainCtrl? || pc.TakeCtrl?
    case Cursor => pc.DrainCursor? || pc.TakeCursor? || ((pc.DrainCtrl? || pc.TakeCtrl?) && CURSOR in pc.reason)
  }

  predicate SomeDrains(dpcs: seq<Pc>, w: Which) {
    exists i :: 0 <= i < |dpcs| && WillDrain(dpcs[i], w)
  }

  /** Somebody still has to look at the queue. */
  predicate Noticed(s: Sys, w: Which) {
    || s.At(w).firing || s.queueBit || s.isr == Read(true, false)
    || ReasonOf(w) in s.pending || SomeDrains(s.dpcs, w)
  }

  predicate RingOk(num: nat, r: Ring) {
    r.consumed <= r.published <= r.consumed + num && r.signalled <= r.published <= r.signalled + num
  }

  predicate Handled(s: Sys, w: Which) {
    RingOk(s.num, s.At(w)) && LockOk(s, w) && (s.At(w).consumed < s.At(w).signalled ==> Noticed(s, w))
  }

  predicate OneHolder(dpcs: seq<Pc>, w: Which) {
    forall i, j :: 0 <= i < j < |dpcs| ==> !(Holds(dpcs[i], w) && Holds(dpcs[j], w))
  }

  /** The lock of a queue has one holder, and there is an entry for it. */
  predicate LockOk(s: Sys, w: Which) {
    OneHolder(s.dpcs, w) && (Locked(s.dpcs, w) ==> s.At(w).consumed < s.At(w).published)
  }

  /** Pending bits will be exchanged by somebody. */
  predicate Covered(s: Sys) {
    s.pending != {} ==> s.isr.Marked? || s.dpcQueued || s.dpcs != []
  }

  /** The part of the invariant that needs no condition. */
  predicate QueueSound(s: Sys, w: Which) {
    RingOk(s.num, s.At(w)) && LockOk(s, w)
  }

  predicate Sound(s: Sys) {
    QueueSound(s, Ctrl) && QueueSound(s, Cursor) && Covered(s)
  }

  predicate Inv(s: Sys) {
    s.num <= 0x8000 && Handled(s, Ctrl) && Handled(s, Cursor) && Covered(s)
  }

  /** The interrupt routine finds both status bits set, and the bit of the queues was the only notice of an entry. */
  predicate Strands(s: Sys, st: Step, w: Which) {
    && st.IsrRead? && s.queueBit && s.configBit && s.At(w).consumed < s.At(w).signalled
    && !s.At(w).firing && ReasonOf(w) !in s.pending && !SomeDrains(s.dpcs, w)
  }

  lemma TestNotices(num: nat, eventIdx: bool, r: Ring)
    requires RingOk(num, r) && num <= 0x8000 && r.signalled <= r.consumed < r.published
    ensures Fires(eventIdx, r)
  {
    NeedEventIsWindow(Trunc16(r.consumed), r.published, r.signalled);
  }

  /** The routine at `i` moved on within its loop body; every other one is where it was. */
  lemma DrainsAfterMove(dpcs: seq<Pc>, i: nat, pc: Pc, w: Which)
    requires i < |dpcs| && SomeDrains(dpcs, w) && (WillDrain(dpcs[i], w) ==> WillDrain(pc, w))
    ensures SomeDrains(dpcs[i := pc], w)
  {
    var j :| 0 <= j < |dpcs| && WillDrain(dpcs[j], w);
    assert WillDrain(dpcs[i := pc][j], w);
  }

  lemma DrainsAfterExit(dpcs: seq<Pc>, i: nat, w: Which)
    requires i < |dpcs| && SomeDrains(dpcs, w) && dpcs[i] == Loop
    ensures SomeDrains(dpcs[..i] + dpcs[i + 1..], w)
  {
    var j :| 0 <= j < |dpcs| && WillDrain(dpcs[j], w);
    var rest := dpcs[..i] + dpcs[i + 1..];
    assert rest[if j < i then j else j - 1] == dpcs[j];
  }

  lemma DrainsAfterStart(dpcs: seq<Pc>, w: Which)
    requires SomeDrains(dpcs, w)
    ensures SomeDrains(dpcs + [Loop], w)
  {
    var j :| 0 <= j < |dpcs| && WillDrain(dpcs[j], w);
    assert (dpcs + [Loop])[j] == dpcs[j];
  }

  lemma LockAfterMove(dpcs: seq<Pc>, i: nat, pc: Pc, w: Which)
    requires i < |dpcs| && (Holds(pc, w) ==> Holds(dpcs[i], w)) && Locked(dpcs[i := pc], w)
    ensures Locked(dpcs, w)
  {
    var j :| 0 <= j < |dpcs| && Holds(dpcs[i := pc][j], w);
    assert Holds(dpcs[j], w);
  }

  lemma HoldersAfterExit(dpcs: seq<Pc>, i: nat, w: Which)
    requires OneHolder(dpcs, w) && i < |dpcs|
    ensures OneHolder(dpcs[..i] + dpcs[i + 1..], w)
    ensures Locked(dpcs[..i] + dpcs[i + 1..], w) ==> Locked(dpcs, w)
  {
    var rest := dpcs[..i] + dpcs[i + 1..];
    forall j | 0 <= j < |rest| ensures rest[j] == if j < i then dpcs[j] else dpcs[j + 1] {}
    if Locked(rest, w) {
      var j :| 0 <= j < |rest| && Holds(rest[j], w);
      assert Holds(dpcs[if j < i then j else j + 1], w);
    }
  }

  lemma LockAfterExit(s: Sys, i: nat, w: Which)
    requires LockOk(s, w) && i < |s.dpcs|
    ensures LockOk(s.(dpcs := s.dpcs[..i] + s.dpcs[i + 1..]), w)
  {
    HoldersAfterExit(s.dpcs, i, w);
  }

  lemma LockAfterStart(s: Sys, w: Which)
    requires LockOk(s, w)
    ensures LockOk(s.(dpcs := s.dpcs + [Loop]), w)
  {
    var more := s.dpcs + [Loop];
    if Locked(more, w) {
      var j :| 0 <= j < |more| && Holds(more[j], w);
      assert Holds(s.dpcs[j], w);
    }
  }

  lemma LockAfterExchange(s: Sys, i: nat, w: Which)
    requires LockOk(s, w) && i < |s.dpcs| && s.dpcs[i] == Loop
    ensures LockOk(Exchange(s, i), w)
  {
    if s.pending == {} {
      LockAfterExit(s, i, w);
    } else if Locked(Exchange(s, i).dpcs, w) {
      LockAfterMove(s.dpcs, i, Body(s.pending), w);
    }
  }

  lemma LockAfterLook(s: Sys, i: nat, w: Which)
    requires LockOk(s, w) && Enabled(s, DpcLook(i))
    ensures LockOk(Look(s, i), w)
  {
    var v, dpcs' := QueueOf(s.dpcs[i]), Look(s, i).dpcs;
    if w == v {
      forall j | 0 <= j < |s.dpcs| ensures !Holds(s.dpcs[j], w) {}
    } else if Locked(dpcs', w) {
      LockAfterMove(s.dpcs, i, dpcs'[i], w);
    }
  }

  lemma LockAfterTake(s: Sys, i: nat, w: Which)
    requires LockOk(s, w) && Enabled(s, DpcTake(i))
    ensures LockOk(TakeEntry(s, i), w)
  {
    var v, dpcs' := QueueOf(s.dpcs[i]), TakeEntry(s, i).dpcs;
    if w == v {
      forall j | 0 <= j < |dpcs'| ensures !Holds(dpcs'[j], w) {}
    } else if Locked(dpcs', w) {
      LockAfterMove(s.dpcs, i, dpcs'[i], w);
    }
  }

  lemma ExchangeHandles(s: Sys, i: nat, w: Which)
    requires Handled(s, w) && i < |s.dpcs| && s.dpcs[i] == Loop
    ensures Handled(Exchange(s, i), w)
  {
    LockAfterExchange(s, i, w);
    if SomeDrains(s.dpcs, w) {
      if s.pending == {} { DrainsAfterExit(s.dpcs, i, w); } else { DrainsAfterMove(s.dpcs, i, Body(s.pending), w); }
    } else if ReasonOf(w) in s.pending {
      assert WillDrain(s.dpcs[i := Body(s.pending)][i], w);
    }
  }

  lemma LookHandles(s: Sys, i: nat, w: Which)
    requires Handled(s, w) && Enabled(s, DpcLook(i))
    ensures Handled(Look(s, i), w)
  {
    LockAfterLook(s, i, w);
    var v, r := QueueOf(s.dpcs[i]), s.At(QueueOf(s.dpcs[i]));
    if (w != v || r.consumed < r.published) && SomeDrains(s.dpcs, w) {
      DrainsAfterMove(s.dpcs, i, AfterLook(s.dpcs[i], r.consumed < r.published), w);
    }
  }

  lemma TakeHandles(s: Sys, i: nat, w: Which)
    requires Handled(s, w) && Enabled(s, DpcTake(i))
    ensures Handled(TakeEntry(s, i), w)
  {
    LockAfterTake(s, i, w);
    if SomeDrains(s.dpcs, w) {
      DrainsAfterMove(s.dpcs, i, AfterTake(s.dpcs[i]), w);
    }
  }

  predicate IsDevice(st: Step) {
    st.Publish? || st.Test? || st.Raise? || st.ConfigChange?
  }

  lemma TestHandles(s: Sys, v: Which, w: Which)
    requires s.num <= 0x8000 && Handled(s, w) && Enabled(s, Test(v))
    ensures Handled(Do(s, Test(v)), w)
  {
    if v == w && s.At(w).signalled <= s.At(w).consumed < s.At(w).published {
      TestNotices(s.num, s.eventIdx, s.At(w));
    }
  }

  lemma PublishHandles(s: Sys, v: Which, n: nat, w: Which)
    requires Handled(s, w) && Enabled(s, Publish(v, n))
    ensures Handled(Do(s, Publish(v, n)), w)
  {
  }

  lemma RaiseHandles(s: Sys, v: Which, w: Which)
    requires Handled(s, w) && Enabled(s, Raise(v))
    ensures Handled(Do(s, Raise(v)), w)
  {
  }

  lemma DeviceHandles(s: Sys, st: Step, w: Which)
    requires s.num <= 0x8000 && Handled(s, w) && Enabled(s, st) && IsDevice(st)
    ensures Handled(Do(s, st), w)
  {
    match st
    case Publish(v, n) => PublishHandles(s, v, n, w);
    case Test(v) => TestHandles(s, v, w);
    case Raise(v) => RaiseHandles(s, v, w);
    case ConfigChange =>
  }

  lemma IsrHandles(s: Sys, st: Step, w: Which)
    requires Handled(s, w) && Enabled(s, st) && (st.IsrRead? || st.IsrMark? || st.IsrQueue?)
    ensures Handled(Do(s, st), w) <==> !Strands(s, st, w)
  {
  }

  lemma StartHandles(s: Sys, w: Which)
    requires Handled(s, w) && s.dpcQueued
    ensures Handled(Do(s, DpcStart), w)
  {
    LockAfterStart(s, w);
    if SomeDrains(s.dpcs, w) { DrainsAfterStart(s.dpcs, w); }
  }

  lemma StepHandles(s: Sys, st: Step, w: Which)
    requires s.num <= 0x8000 && Handled(s, w) && Enabled(s, st)
    ensures Handled(Do(s, st), w) <==> !Strands(s, st, w)
  {
    if IsDevice(st) {
      DeviceHandles(s, st, w);
    } else {
      match st
      case DpcStart => StartHandles(s, w);
      case DpcExchange(i) => ExchangeHandles(s, i, w);
      case DpcLook(i) => LookHandles(s, i, w);
      case DpcTake(i) => TakeHandles(s, i, w);
      case _ => IsrHandles(s, st, w);
    }
  }

  lemma StepCovers(s: Sys, st: Step)
    requires Covered(s) && Enabled(s, st)
    ensures Covered(Do(s, st))
  {
  }

  /** A step keeps the invariant if and only if it strands nothing. */
  lemma StepKeepsInv(s: Sys, st: Step)
    requires Inv(s) && Enabled(s, st)
    ensures Inv(Do(s, st)) <==> !Strands(s, st, Ctrl) && !Strands(s, st, Cursor)
  {
    StepHandles(s, st, Ctrl);
    StepHandles(s, st, Cursor);
    StepCovers(s, st);
    assert Do(s, st).num == s.num;
  }

  lemma PublishKeepsRing(s: Sys, v: Which, n: nat, w: Which)
    requires RingOk(s.num, s.At(w)) && Enabled(s, Publish(v, n))
    ensures var r := Do(s, Publish(v, n)).At(w); RingOk(s.num, r) && r == s.At(w).(published := r.published)
    ensures s.At(w).published <= Do(s, Publish(v, n)).At(w).published
  {
  }

  lemma TestKeepsRing(s: Sys, v: Which, w: Which)
    requires RingOk(s.num, s.At(w)) && Enabled(s, Test(v))
    ensures
      var r := Do(s, Test(v)).At(w);
      RingOk(s.num, r) && r == s.At(w).(signalled := r.signalled, firing := r.firing)
  {
  }

  lemma LockStays(s: Sys, s': Sys, w: Which)
    requires LockOk(s, w) && s'.dpcs == s.dpcs
    requires s'.At(w).consumed == s.At(w).consumed && s.At(w).published <= s'.At(w).published
    ensures LockOk(s', w)
  {
  }

  lemma DeviceKeepsQueueSound(s: Sys, st: Step, w: Which)
    requires QueueSound(s, w) && Enabled(s, st) && IsDevice(st)
    ensures QueueSound(Do(s, st), w)
  {
    match st {
      case Publish(v, n) => PublishKeepsRing(s, v, n, w);
      case Test(v) => TestKeepsRing(s, v, w);
      case Raise(v) =>
      case ConfigChange =>
    }
    LockStays(s, Do(s, st), w);
  }

  lemma IsrStays(s: Sys, st: Step, w: Which)
    requires Enabled(s, st) && (st.IsrRead? || st.IsrMark? || st.IsrQueue?)
    ensures var s' := Do(s, st); s'.num == s.num && s'.dpcs == s.dpcs && s'.At(w) == s.At(w)
  {
  }

  lemma TakeKeepsRing(s: Sys, i: nat, w: Which)
    requires QueueSound(s, w) && Enabled(s, DpcTake(i))
    ensures RingOk(s.num, TakeEntry(s, i).At(w))
  {
    if w == QueueOf(s.dpcs[i]) { assert Locked(s.dpcs, w); }
  }

  lemma DriverKeepsQueueSound(s: Sys, st: Step, w: Which)
    requires QueueSound(s, w) && Enabled(s, st) && !IsDevice(st)
    ensures QueueSound(Do(s, st), w)
  {
    if st.IsrRead? || st.IsrMark? || st.IsrQueue? {
      IsrStays(s, st, w);
      LockStays(s, Do(s, st), w);
    } else if st.DpcStart? {
      LockAfterStart(s, w);
    } else if st.DpcExchange? {
      LockAfterExchange(s, st.i, w);
    } else if st.DpcLook? {
      LockAfterLook(s, st.i, w);
    } else {
      LockAfterTake(s, st.i, w);
      TakeKeepsRing(s, st.i, w);
    }
  }

  lemma StepKeepsQueueSound(s: Sys, st: Step, w: Which)
    requires QueueSound(s, w) && Enabled(s, st)
    ensures QueueSound(Do(s, st), w)
  {
    if IsDevice(st) { DeviceKeepsQueueSound(s, st, w); } else { DriverKeepsQueueSound(s, st, w); }
  }

  lemma StepKeepsSound(s: Sys, st: Step)
    requires Sound(s) && Enabled(s, st)
    ensures Sound(Do(s, st))
  {
    StepKeepsQueueSound(s, st, Ctrl);
    StepKeepsQueueSound(s, st, Cursor);
    StepCovers(s, st);
  }

  // -------------------------------------------------------------------- runs

  ghost predicate Initial(s: Sys) {
    && s.num <= 0x8000
    && s.ctrl == Ring(0, 0, 0, false) && s.cursor == Ring(0, 0, 0, false)
    && !s.queueBit && !s.configBit && s.isr == Idle && s.pending == {} && !s.dpcQueued && s.dpcs == [] && !s.changed
  }

  ghost predicate Chained(states: seq<Sys>, steps: seq<Step>) {
    && |states| == |steps| + 1
    && forall i | 0 <= i < |steps| :: Enabled(states[i], steps[i]) && states[i + 1] == Do(states[i], steps[i])
  }

  /** Any run from the start. */
  ghost predicate IsRun(states: seq<Sys>, steps: seq<Step>) {
    Chained(states, steps) && Initial(states[0])
  }

  /** No status read of the run strands an entry. */
  ghost predicate NoneStrands(states: seq<Sys>, steps: seq<Step>)
    requires |states| == |steps| + 1
  {
    forall i | 0 <= i < |steps| :: !Strands(states[i], steps[i], Ctrl) && !Strands(states[i], steps[i], Cursor)
  }

  lemma {:induction false} RunIsSound(states: seq<Sys>, steps: seq<Step>, i: nat)
    requires IsRun(states, steps) && i < |states|
    ensures Sound(states[i])
  {
    if i > 0 {
      RunIsSound(states, steps, i - 1);
      StepKeepsSound(states[i - 1], steps[i - 1]);
    }
  }

  lemma StartIsFine(s: Sys)
    requires Initial(s)
    ensures Inv(s)
  {
  }

  lemma {:induction false} RunKeepsInv(states: seq<Sys>, steps: seq<Step>, i: nat)
    requires IsRun(states, steps) && NoneStrands(states, steps) && i < |states|
    ensures Inv(states[i])
  {
    if i == 0 {
      StartIsFine(states[0]);
    } else {
      RunKeepsInv(states, steps, i - 1);
      var s, st := states[i - 1], steps[i - 1];
      assert Enabled(s, st) && states[i] == Do(s, st) && !Strands(s, st, Ctrl) && !Strands(s, st, Cursor);
      StepKeepsInv(s, st);
    }
  }

  /** No interrupt asserted or being handled, no deferred routine queued or running. */
  predicate Quiet(s: Sys) {
    !s.queueBit && s.isr.Idle? && !s.dpcQueued && s.dpcs == []
  }

  /** The device has decided on, and carried out, the interrupts for everything it published. */
  predicate DeviceDone(s: Sys) {
    && s.ctrl.signalled == s.ctrl.published && !s.ctrl.firing
    && s.cursor.signalled == s.cursor.published && !s.cursor.firing
  }

  predicate Drained(s: Sys) {
    s.ctrl.consumed == s.ctrl.published && s.cursor.consumed == s.cursor.published
  }

  /** No completion is stranded: a quiet state has no pending bits, and both used rings are fully drained. */
  lemma NoStrandedCompletion(states: seq<Sys>, steps: seq<Step>, i: nat)
    requires IsRun(states, steps) && NoneStrands(states, steps)
    requires i < |states| && Quiet(states[i]) && DeviceDone(states[i])
    ensures states[i].pending == {} && Drained(states[i])
  {
    RunKeepsInv(states, steps, i);
  }

  // -------------------------------------------------------------------- delivery

  /** Steps that need no new work: everything but publishing and configuration changes. */
  predicate Internal(st: Step) {
    !st.Publish? && !st.ConfigChange?
  }

  function PcWeight(pc: Pc): nat {
    match pc
    case Loop => 1
    case TakeCursor => 2
    case DrainCursor => 3
    case TakeCtrl(_) => 4
    case DrainCtrl(_) => 5
  }

  function DpcWeight(dpcs: seq<Pc>): nat {
    if dpcs == [] then 0 else DpcWeight(dpcs[..|dpcs| - 1]) + PcWeight(dpcs[|dpcs| - 1])
  }

  function RingWeight(r: Ring): int {
    2 * (r.published - r.consumed) + (if r.signalled < r.published then 12 else 0) + (if r.firing then 11 else 0)
  }

  function IsrWeight(isr: Isr): nat {
    match isr
    case Idle => 0
    case Read(_, _) => 9
    case Marked => 3
  }

  /** A bound on the internal steps that are left. */
  function Work(s: Sys): int {
    RingWeight(s.ctrl) + RingWeight(s.cursor) + (if s.queueBit || s.configBit then 10 else 0) + IsrWeight(s.isr)
    + (if s.pending != {} then 5 else 0) + (if s.dpcQueued then 2 else 0) + DpcWeight(s.dpcs)
  }

  lemma {:induction false} WeightAfterMove(dpcs: seq<Pc>, i: nat, pc: Pc)
    requires i < |dpcs|
    ensures DpcWeight(dpcs[i := pc]) == DpcWeight(dpcs) - PcWeight(dpcs[i]) + PcWeight(pc)
  {
    var n := |dpcs| - 1;
    if i < n {
      WeightAfterMove(dpcs[..n], i, pc);
      assert dpcs[i := pc][..n] == dpcs[..n][i := pc];
    } else {
      assert dpcs[i := pc][..n] == dpcs[..n];
    }
  }

  lemma {:induction false} WeightAfterExit(dpcs: seq<Pc>, i: nat)
    requires i < |dpcs|
    ensures DpcWeight(dpcs[..i] + dpcs[i + 1..]) == DpcWeight(dpcs) - PcWeight(dpcs[i])
  {
    var n, rest := |dpcs| - 1, dpcs[..i] + dpcs[i + 1..];
    if i < n {
      WeightAfterExit(dpcs[..n], i);
      assert rest[..n - 1] == dpcs[..n][..i] + dpcs[..n][i + 1..];
    } else {
      assert rest == dpcs[..n];
    }
  }

  lemma ExchangeWorks(s: Sys, i: nat)
    requires i < |s.dpcs| && s.dpcs[i] == Loop
    ensures Work(Exchange(s, i)) < Work(s)
  {
    if s.pending == {} { WeightAfterExit(s.dpcs, i); } else { WeightAfterMove(s.dpcs, i, Body(s.pending)); }
  }

  /** A change of one ring changes the work by the change of its weight. */
  lemma RingChangeWorks(s: Sys, w: Which, r: Ring)
    ensures Work(s.With(w, r)) == Work(s) - RingWeight(s.At(w)) + RingWeight(r)
  {
  }

  lemma MoveWorks(s: Sys, i: nat, pc: Pc)
    requires i < |s.dpcs| && PcWeight(pc) < PcWeight(s.dpcs[i])
    ensures Work(s.(dpcs := s.dpcs[i := pc])) < Work(s)
  {
    WeightAfterMove(s.dpcs, i, pc);
  }

  lemma LookWorks(s: Sys, i: nat)
    requires i < |s.dpcs| && Looks(s.dpcs[i])
    ensures Work(Look(s, i)) < Work(s)
  {
    var r := s.At(QueueOf(s.dpcs[i]));
    MoveWorks(s, i, AfterLook(s.dpcs[i], r.consumed < r.published));
  }

  lemma TakeWorks(s: Sys, i: nat)
    requires i < |s.dpcs| && Holds(s.dpcs[i], QueueOf(s.dpcs[i]))
    ensures Work(TakeEntry(s, i)) < Work(s)
  {
    var w := QueueOf(s.dpcs[i]);
    var r := s.At(w);
    var s1 := s.With(w, r.(consumed := r.consumed + 1));
    RingChangeWorks(s, w, r.(consumed := r.consumed + 1));
    assert Work(s1) < Work(s);
    assert TakeEntry(s, i) == s1.(dpcs := s1.dpcs[i := AfterTake(s.dpcs[i])]);
    MoveWithin(s1, i, AfterTake(s.dpcs[i]));
  }

  lemma MoveWithin(s: Sys, i: nat, pc: Pc)
    requires i < |s.dpcs|
    ensures Work(s.(dpcs := s.dpcs[i := pc])) == Work(s) - PcWeight(s.dpcs[i]) + PcWeight(pc)
  {
    WeightAfterMove(s.dpcs, i, pc);
  }

  lemma TestWorks(s: Sys, w: Which)
    requires s.At(w).signalled < s.At(w).published
    ensures Work(Do(s, Test(w))) < Work(s)
  {
    var r := s.At(w);
    RingChangeWorks(s, w, r.(signalled := r.published, firing := r.firing || Fires(s.eventIdx, r)));
  }

  lemma RaiseWorks(s: Sys, w: Which)
    requires s.At(w).firing
    ensures Work(Do(s, Raise(w))) < Work(s)
  {
    RingChangeWorks(s, w, s.At(w).(firing := false));
  }

  lemma IsrWorks(s: Sys, st: Step)
    requires Enabled(s, st) && (st.IsrRead? || st.IsrMark? || st.IsrQueue?)
    ensures Work(Do(s, st)) < Work(s)
  {
  }

  lemma StartWorks(s: Sys)
    requires s.dpcQueued
    ensures Work(Do(s, DpcStart)) < Work(s)
  {
    assert (s.dpcs + [Loop])[..|s.dpcs|] == s.dpcs;
  }

  lemma StepWorks(s: Sys, st: Step)
    requires Enabled(s, st) && Internal(st)
    ensures Work(Do(s, st)) < Work(s)
  {
    match st
    case Test(w) => TestWorks(s, w);
    case Raise(w) => RaiseWorks(s, w);
    case DpcStart => StartWorks(s);
    case DpcExchange(i) => ExchangeWorks(s, i);
    case DpcLook(i) => LookWorks(s, i);
    case DpcTake(i) => TakeWorks(s, i);
    case _ => IsrWorks(s, st);
  }

  lemma WorkIsNat(s: Sys)
    requires Sound(s)
    ensures Work(s) >= 0
  {
  }

  /** While the device publishes nothing new, only a bounded number of steps can be taken. */
  lemma {:induction false} WorkEnds(states: seq<Sys>, steps: seq<Step>, i: nat, j: nat)
    requires Chained(states, steps) && i <= j < |states|
    requires forall k | i <= k < j :: Internal(steps[k])
    ensures Work(states[j]) + (j - i) <= Work(states[i])
  {
    if i < j {
      WorkEnds(states, steps, i, j - 1);
      StepWorks(states[j - 1], steps[j - 1]);
    }
  }

  /** With no internal step left to take, the system is quiet. */
  lemma StuckIsQuiet(s: Sys)
    requires forall st: Step :: Internal(st) ==> !Enabled(s, st)
    requires Sound(s)
    ensures Quiet(s) && DeviceDone(s)
  {
    assert !Enabled(s, Test(Ctrl)) && !Enabled(s, Test(Cursor)) && !Enabled(s, Raise(Ctrl))
        && !Enabled(s, Raise(Cursor));
    assert !Enabled(s, IsrRead) && !Enabled(s, IsrMark) && !Enabled(s, IsrQueue) && !Enabled(s, DpcStart);
    assert !Enabled(s, DpcExchange(0)) && !Enabled(s, DpcLook(0)) && !Enabled(s, DpcTake(0));
    if s.dpcs != [] {
      var w := QueueOf(s.dpcs[0]);
      var i :| 0 <= i < |s.dpcs| && Holds(s.dpcs[i], w);
      assert Enabled(s, DpcTake(i));
    }
  }

  /** Once the device publishes nothing new a run takes at most `Work` further steps. Where it can go no further both
      used rings are drained, if no status read stranded an entry: then every completion is delivered. */
  lemma CompletionsAreDelivered(states: seq<Sys>, steps: seq<Step>, i: nat)
    requires IsRun(states, steps) && i < |states|
    requires forall k | i <= k < |steps| :: Internal(steps[k])
    ensures |steps| - i <= Work(states[i])
    ensures NoneStrands(states, steps) && (forall st: Step :: Internal(st) ==> !Enabled(states[|steps|], st)) ==>
              Drained(states[|steps|])
  {
    WorkEnds(states, steps, i, |steps|);
    RunIsSound(states, steps, |steps|);
    WorkIsNat(states[|steps|]);
    if NoneStrands(states, steps) && forall st: Step :: Internal(st) ==> !Enabled(states[|steps|], st) {
      RunKeepsInv(states, steps, |steps|);
      StuckIsQuiet(states[|steps|]);
    }
  }

  // -------------------------------------------------------------------- the routines without interference

  /** The reasons that are pending, or will be when the interrupt routine is done. */
  function Coming(s: Sys): set<Reason> {
    s.pending + Reasons(Status(s.queueBit, s.configBit))
    + if s.isr.Read? then Reasons(Status(s.isr.queue, s.isr.config)) else {}
  }

  predicate ToDrain(s: Sys, w: Which) {
    ReasonOf(w) in Coming(s) || SomeDrains(s.dpcs, w)
  }

  function Final(s: Sys, w: Which): Ring {
    if ToDrain(s, w) then s.At(w).(consumed := s.At(w).published) else s.At(w)
  }

  /** What the two routines leave when nothing interferes: the queues with a reason are drained, a change with a reason
      is reported, and nothing is pending. */
  function Outcome(s: Sys): Sys {
    s.(queueBit := false, configBit := false, isr := Idle, pending := {}, dpcQueued := false, dpcs := [],
       ctrl := Final(s, Ctrl), cursor := Final(s, Cursor), changed := s.changed || CHANGE in Coming(s))
  }

  predicate OtherDrains(dpcs: seq<Pc>, i: nat, w: Which) {
    exists j :: 0 <= j < |dpcs| && j != i && WillDrain(dpcs[j], w)
  }

  lemma OtherAfterMove(dpcs: seq<Pc>, i: nat, pc: Pc, w: Which)
    requires i < |dpcs|
    ensures OtherDrains(dpcs[i := pc], i, w) <==> OtherDrains(dpcs, i, w)
    ensures SomeDrains(dpcs[i := pc], w) <==> WillDrain(pc, w) || OtherDrains(dpcs, i, w)
    ensures SomeDrains(dpcs, w) <==> WillDrain(dpcs[i], w) || OtherDrains(dpcs, i, w)
  {
    var next := dpcs[i := pc];
    assert next[i] == pc;
    if OtherDrains(next, i, w) {
      var j :| 0 <= j < |next| && j != i && WillDrain(next[j], w);
      assert WillDrain(dpcs[j], w);
    }
    if OtherDrains(dpcs, i, w) {
      var j :| 0 <= j < |dpcs| && j != i && WillDrain(dpcs[j], w);
      assert WillDrain(next[j], w);
    }
  }

  lemma SomeAfterExit(dpcs: seq<Pc>, i: nat, w: Which)
    requires i < |dpcs| && dpcs[i] == Loop
    ensures SomeDrains(dpcs[..i] + dpcs[i + 1..], w) <==> SomeDrains(dpcs, w)
  {
    var rest := dpcs[..i] + dpcs[i + 1..];
    if SomeDrains(rest, w) {
      var j :| 0 <= j < |rest| && WillDrain(rest[j], w);
      assert rest[j] == dpcs[if j < i then j else j + 1];
    }
    if SomeDrains(dpcs, w) { DrainsAfterExit(dpcs, i, w); }
  }

  lemma SomeAfterStart(dpcs: seq<Pc>, w: Which)
    ensures SomeDrains(dpcs + [Loop], w) <==> SomeDrains(dpcs, w)
  {
    if SomeDrains(dpcs + [Loop], w) {
      var j :| 0 <= j < |dpcs + [Loop]| && WillDrain((dpcs + [Loop])[j], w);
      assert (dpcs + [Loop])[j] == dpcs[j];
    }
    if SomeDrains(dpcs, w) { DrainsAfterStart(dpcs, w); }
  }

  lemma FinalAfterExchange(s: Sys, i: nat, w: Which)
    requires i < |s.dpcs| && s.dpcs[i] == Loop
    ensures Final(Exchange(s, i), w) == Final(s, w)
  {
    if s.pending == {} { SomeAfterExit(s.dpcs, i, w); } else { OtherAfterMove(s.dpcs, i, Body(s.pending), w); }
  }

  lemma FinalAfterLook(s: Sys, i: nat, w: Which)
    requires QueueSound(s, w) && i < |s.dpcs| && Looks(s.dpcs[i])
    ensures Final(Look(s, i), w) == Final(s, w)
  {
    var r := s.At(QueueOf(s.dpcs[i]));
    OtherAfterMove(s.dpcs, i, AfterLook(s.dpcs[i], r.consumed < r.published), w);
  }

  lemma FinalAfterTake(s: Sys, i: nat, w: Which)
    requires i < |s.dpcs| && Holds(s.dpcs[i], QueueOf(s.dpcs[i]))
    ensures Final(TakeEntry(s, i), w) == Final(s, w)
  {
    OtherAfterMove(s.dpcs, i, AfterTake(s.dpcs[i]), w);
  }

  lemma FinalAfterDriver(s: Sys, st: Step, w: Which)
    requires QueueSound(s, w) && Enabled(s, st) && !IsDevice(st)
    ensures Final(Do(s, st), w) == Final(s, w)
  {
    match st
    case DpcStart => SomeAfterStart(s.dpcs, w);
    case DpcExchange(i) => FinalAfterExchange(s, i, w);
    case DpcLook(i) => FinalAfterLook(s, i, w);
    case DpcTake(i) => FinalAfterTake(s, i, w);
    case _ =>
  }

  lemma OutcomeStands(s: Sys, st: Step)
    requires Sound(s) && Enabled(s, st) && !IsDevice(st)
    ensures Sound(Do(s, st)) && Outcome(Do(s, st)) == Outcome(s)
  {
    StepKeepsSound(s, st);
    FinalAfterDriver(s, st, Ctrl);
    FinalAfterDriver(s, st, Cursor);
    ChangeStands(s, st);
    FixedByDriver(s, st);
  }

  /** A change is reported, or a reason to report it is coming. */
  predicate ChangeAhead(s: Sys) {
    s.changed || CHANGE in Coming(s)
  }

  lemma ReadKeepsChange(s: Sys)
    requires Enabled(s, IsrRead)
    ensures ChangeAhead(Do(s, IsrRead)) == ChangeAhead(s)
  {
  }

  lemma MarkKeepsChange(s: Sys)
    requires s.isr.Read?
    ensures ChangeAhead(Mark(s)) == ChangeAhead(s)
  {
  }

  lemma ExchangeKeepsChange(s: Sys, i: nat)
    requires i < |s.dpcs|
    ensures ChangeAhead(Exchange(s, i)) == ChangeAhead(s)
  {
  }

  lemma ChangeFrame(s: Sys, s': Sys)
    requires (s'.changed, s'.pending, s'.queueBit, s'.configBit) == (s.changed, s.pending, s.queueBit, s.configBit)
    requires s'.isr == s.isr || (s.isr.Marked? && s'.isr.Idle?)
    ensures ChangeAhead(s') == ChangeAhead(s)
  {
  }

  lemma ChangeStands(s: Sys, st: Step)
    requires Enabled(s, st) && !IsDevice(st)
    ensures ChangeAhead(Do(s, st)) == ChangeAhead(s)
  {
    if st.IsrRead? {
      ReadKeepsChange(s);
    } else if st.IsrMark? {
      MarkKeepsChange(s);
    } else if st.DpcExchange? {
      ExchangeKeepsChange(s, st.i);
    } else {
      ChangeFrame(s, Do(s, st));
    }
  }

  lemma FixedByDriver(s: Sys, st: Step)
    requires Enabled(s, st) && !IsDevice(st)
    ensures Do(s, st).num == s.num && Do(s, st).eventIdx == s.eventIdx
  {
  }

  lemma {:induction false} OutcomeThroughout(states: seq<Sys>, steps: seq<Step>, i: nat)
    requires Chained(states, steps) && i < |states| && Sound(states[0])
    requires forall k | 0 <= k < |steps| :: !IsDevice(steps[k])
    ensures Sound(states[i]) && Outcome(states[i]) == Outcome(states[0])
  {
    if i > 0 {
      OutcomeThroughout(states, steps, i - 1);
      OutcomeStands(states[i - 1], steps[i - 1]);
    }
  }

  /** A run of the driver alone, as far as it goes. */
  ghost predicate RunsOut(states: seq<Sys>, steps: seq<Step>) {
    && Chained(states, steps) && Sound(states[0])
    && (forall k | 0 <= k < |steps| :: !IsDevice(steps[k]))
    && forall st: Step :: !IsDevice(st) ==> !Enabled(states[|steps|], st)
  }

  /** For a single deferred routine just started the outcome is what `Adapter.DpcRoutine` promises. */
  lemma RoutineOutcome(s: Sys)
    requires Quiet(s.(dpcs := [])) && !s.configBit && s.dpcs == [Loop]
    ensures Outcome(s).pending == {} && Outcome(s).changed == (s.changed || CHANGE in s.pending)
    ensures Outcome(s).ctrl == if DISPLAY in s.pending then s.ctrl.(consumed := s.ctrl.published) else s.ctrl
    ensures Outcome(s).cursor == if CURSOR in s.pending then s.cursor.(consumed := s.cursor.published) else s.cursor
  {
    assert !SomeDrains(s.dpcs, Ctrl) && !SomeDrains(s.dpcs, Cursor) && Coming(s) == s.pending;
  }

  /** However its routines interleave, a run of the driver alone ends with the outcome predicted at its start. */
  lemma AloneReachesOutcome(states: seq<Sys>, steps: seq<Step>)
    requires RunsOut(states, steps)
    ensures states[|steps|] == Outcome(states[0])
  {
    var s := states[|steps|];
    OutcomeThroughout(states, steps, |steps|);
    assert !Enabled(s, IsrRead) && !Enabled(s, IsrMark) && !Enabled(s, IsrQueue) && !Enabled(s, DpcStart);
    NoDpcLeft(s);
    assert !SomeDrains(s.dpcs, Ctrl) && !SomeDrains(s.dpcs, Cursor);
    assert Coming(s) == {};
  }

  lemma NoDpcLeft(s: Sys)
    requires forall st: Step :: !IsDevice(st) ==> !Enabled(s, st)
    ensures s.dpcs == []
  {
    assert !Enabled(s, DpcExchange(0)) && !Enabled(s, DpcLook(0)) && !Enabled(s, DpcTake(0));
    if s.dpcs != [] {
      var i :| 0 <= i < |s.dpcs| && Holds(s.dpcs[i], QueueOf(s.dpcs[0]));
      assert Enabled(s, DpcTake(i));
    }
  }

  // -------------------------------------------------------------------- both status bits at once

  /** A status read strands an entry if and only if the driver, left alone from there, leaves it in the used ring. */
  lemma ReadStrandsIff(s: Sys, states: seq<Sys>, steps: seq<Step>, w: Which)
    requires Inv(s) && DeviceDone(s) && Enabled(s, IsrRead) && RunsOut(states, steps) && states[0] == Do(s, IsrRead)
    ensures states[|steps|].At(w).consumed < states[|steps|].At(w).published <==> Strands(s, IsrRead, w)
  {
    AloneReachesOutcome(states, steps);
    IsrHandles(s, IsrRead, w);
    assert Final(states[0], w) == Outcome(states[0]).At(w);
    assert states[0].At(w) == s.At(w);
    var found := Reasons(Status(s.queueBit, s.configBit));
    assert Coming(states[0]) == s.pending + found;
    assert s.queueBit && !s.configBit ==> ReasonOf(w) in found;
  }

  /** Nothing of an interrupt is being handled. */
  predicate Idling(s: Sys) {
    s.isr.Idle? && s.pending == {} && !s.dpcQueued && s.dpcs == []
  }

  /** The value 3 of the interrupt status is taken for a configuration change alone: an idle driver that is
      interrupted and left alone drains the used rings if and only if they are drained already or the status is that
      of a queue alone. */
  lemma BothBitsStrand(states: seq<Sys>, steps: seq<Step>)
    requires RunsOut(states, steps) && Idling(states[0])
    ensures Drained(states[|steps|]) <==> Drained(states[0]) || (states[0].queueBit && !states[0].configBit)
  {
    AloneReachesOutcome(states, steps);
    var s := states[0];
    assert Reasons(Status(s.queueBit, s.configBit)) == Coming(s);
    if s.queueBit && !s.configBit {
      assert DISPLAY in Coming(s) && CURSOR in Coming(s);
    }
  }

  /** And a change is reported if and only if its interrupt came together with one of a queue. */
  lemma ChangeIsReportedIff(states: seq<Sys>, steps: seq<Step>)
    requires RunsOut(states, steps) && Idling(states[0]) && !states[0].changed
    ensures states[|steps|].changed <==> states[0].queueBit && states[0].configBit
  {
    AloneReachesOutcome(states, steps);
    var s := states[0];
    assert Reasons(Status(s.queueBit, s.configBit)) == Coming(s);
  }

  ghost function After(s: Sys, steps: seq<Step>): Sys
    decreases |steps|
  {
    if steps == [] || !Enabled(s, steps[0]) then s else After(Do(s, steps[0]), steps[1..])
  }

  const INTERRUPT: seq<Step> := [IsrRead, IsrMark, IsrQueue, DpcStart]
  const DEFERRED: seq<Step> := [DpcExchange(0), DpcExchange(0)]

  lemma HandleInterrupt(s: Sys)
    requires Idling(s) && s.queueBit && s.configBit
    ensures After(s, INTERRUPT) == s.(queueBit := false, configBit := false, pending := {CHANGE}, dpcs := [Loop])
  {
  }

  lemma HandleDeferred(s: Sys)
    requires s.pending == {CHANGE} && s.dpcs == [Loop]
    ensures After(s, DEFERRED) == s.(pending := {}, dpcs := [], changed := true)
  {
  }

  const COALESCED: seq<Step> := [Publish(Ctrl, 1), Test(Ctrl), Raise(Ctrl), ConfigChange]

  /** So the claim needs its condition: here a run from the start ends quiet with a completion left over. */
  lemma CoalescedInterruptStrands(s: Sys)
    requires Initial(s) && s.num > 0
    ensures var r := After(After(After(s, COALESCED), INTERRUPT), DEFERRED);
            Quiet(r) && DeviceDone(r) && r.pending == {} && !Drained(r)
  {
    var s1 := Do(s, Publish(Ctrl, 1));
    var s2 := Do(s1, Test(Ctrl));
    assert s2.ctrl == Ring(1, 1, 0, true);
    var s3 := Do(s2, Raise(Ctrl));
    var s4 := Do(s3, ConfigChange);
    assert After(s3, COALESCED[3..]) == s4 by {
      assert COALESCED[3..] == [ConfigChange] && COALESCED[3..][1..] == [];
    }
    assert After(s2, COALESCED[2..]) == s4 by { assert COALESCED[2..][1..] == COALESCED[3..]; }
    assert After(s1, COALESCED[1..]) == s4 by { assert COALESCED[1..][1..] == COALESCED[2..]; }
    HandleInterrupt(s4);
    HandleDeferred(After(s4, INTERRUPT));
  }

  // -------------------------------------------------------------------- the two routines, run without interference

  class Adapter {
    var pendingWorks: set<Reason>
    var ctrl: Ring
    var cursor: Ring

    constructor ()
      ensures pendingWorks == {} && ctrl == cursor == Ring(0, 0, 0, false)
    {
      pendingWorks, ctrl, cursor := {}, Ring(0, 0, 0, false), Ring(0, 0, 0, false);
    }

    /** `VioGpuAdapter::InterruptRoutine`; `dpc` asks for the deferred routine. */
    method InterruptRoutine(isrstat: nat) returns (handled: bool, dpc: bool)
      modifies `pendingWorks
      ensures pendingWorks == old(pendingWorks) + Reasons(isrstat)
      ensures handled == (isrstat > 0) && dpc == (Reasons(isrstat) != {})
    {
      dpc := false;
      if isrstat > 0 {
        if isrstat == 1 {
          pendingWorks := pendingWorks + {DISPLAY, CURSOR};
          dpc := true;
          assert DISPLAY in Reasons(isrstat);
        } else if isrstat == 3 {
          pendingWorks := pendingWorks + {CHANGE};
          dpc := true;
          assert CHANGE in Reasons(isrstat);
        }
      }
      handled := isrstat > 0;
    }

    method DequeueCtrl() returns (found: bool)
      modifies `ctrl
      ensures found == (old(ctrl).consumed < old(ctrl).published)
      ensures ctrl == if found then old(ctrl).(consumed := old(ctrl).consumed + 1) else old(ctrl)
    {
      found := ctrl.consumed < ctrl.published;
      if found { ctrl := ctrl.(consumed := ctrl.consumed + 1); }
    }

    method DequeueCursor() returns (found: bool)
      modifies `cursor
      ensures found == (old(cursor).consumed < old(cursor).published)
      ensures cursor == if found then old(cursor).(consumed := old(cursor).consumed + 1) else old(cursor)
    {
      found := cursor.consumed < cursor.published;
      if found { cursor := cursor.(consumed := cursor.consumed + 1); }
    }

    /** `VioGpuAdapter::DpcRoutine`: drains exactly the queues that are pending, and tells whether a change was. */
    method DpcRoutine() returns (changed: bool)
      requires ctrl.consumed <= ctrl.published && cursor.consumed <= cursor.published
      modifies this
      ensures pendingWorks == {} && changed == (CHANGE in old(pendingWorks))
      ensures ctrl == if DISPLAY in old(pendingWorks) then old(ctrl).(consumed := old(ctrl).published) else old(ctrl)
      ensures cursor == if CURSOR in old(pendingWorks) then old(cursor).(consumed := old(cursor).published)
          else old(cursor)
    {
      changed := false;
      var reason := pendingWorks;
      pendingWorks := {};
      ghost var first := true;
      while reason != {}
        invariant pendingWorks == {}
        invariant first ==> reason == old(pendingWorks) && ctrl == old(ctrl) && cursor == old(cursor) && !changed
        invariant !first ==> reason == {} && changed == (CHANGE in old(pendingWorks))
        invariant !first ==>
          ctrl == if DISPLAY in old(pendingWorks) then old(ctrl).(consumed := old(ctrl).published) else old(ctrl)
        invariant !first ==>
          cursor == if CURSOR in old(pendingWorks) then old(cursor).(consumed := old(cursor).published) else old(cursor)
        decreases first
      {
        first := false;
        if DISPLAY in reason {
          DrainCtrlQueue();
        }
        if CURSOR in reason {
          DrainCursorQueue();
        }
        if CHANGE in reason {
          changed := true;
        }
        reason := pendingWorks;
        pendingWorks := {};
      }
    }

    method DrainCtrlQueue()
      requires ctrl.consumed <= ctrl.published
      modifies `ctrl
      ensures ctrl == old(ctrl).(consumed := old(ctrl).published)
    {
      var found := DequeueCtrl();
      while found
        invariant ctrl == old(ctrl).(consumed := ctrl.consumed) && ctrl.consumed <= ctrl.published
        invariant !found ==> ctrl.consumed == ctrl.published
        decreases ctrl.published - ctrl.consumed, found
      {
        found := DequeueCtrl();
      }
    }

    method DrainCursorQueue()
      requires cursor.consumed <= cursor.published
      modifies `cursor
      ensures cursor == old(cursor).(consumed := old(cursor).published)
    {
      var found := DequeueCursor();
      while found
        invariant cursor == old(cursor).(consumed := cursor.consumed) && cursor.consumed <= cursor.published
        invariant !found ==> cursor.consumed == cursor.published
        decreases cursor.published - cursor.consumed, found
      {
        found := DequeueCursor();
      }
    }
  }
}
