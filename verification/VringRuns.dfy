/** What holds in every run of driver and device. */
module VringRuns {
  import opened Bits
  import opened Vring
  import opened VringProtocol

  /** A queue just built over zeroed pages, and a device just reset. */
  ghost predicate Initial(s: Sys) {
    && IsRingSize(s.q.num)
    && Sized(s.q, FreshShape(s.q.num))
    && s.q == Initialized(Zeroed(s.q), s.q.event)
    && s.g == FreshShape(s.q.num)
    && !s.prepared && |s.owner| == s.q.num
    && s.subs == [] && s.used == [] && s.returned == [] && s.taken == 0 && s.inflight == map[]
  }

  /** A step; nothing is said about what follows a state outside the invariant (there is none: `RunKeepsInv`). */
  ghost predicate Next(s: Sys, st: Step, s': Sys) {
    Inv(s) ==> Enabled(s, st) && s' == Do(s, st)
  }

  ghost predicate IsRun(states: seq<Sys>, steps: seq<Step>) {
    && |states| == |steps| + 1
    && Initial(states[0])
    && forall i | 0 <= i < |steps| :: Next(states[i], steps[i], states[i + 1])
  }

  lemma InitialInv(s: Sys)
    requires Initial(s)
    ensures Inv(s)
  {
    RingSizeBound(s.q.num);
    FreshIsValid(Zeroed(s.q), s.q.event);
    NoChains(s.g.chains);
  }

  lemma {:induction false} RunKeepsInv(states: seq<Sys>, steps: seq<Step>, i: nat)
    requires IsRun(states, steps) && i < |states|
    ensures Inv(states[i])
  {
    if i == 0 {
      InitialInv(states[0]);
    } else {
      RunKeepsInv(states, steps, i - 1);
      assert Next(states[i - 1], steps[i - 1], states[i]);
      StepKeepsInv(states[i - 1], steps[i - 1]);
    }
  }

  /** Buffers, completions and returned tokens are only ever added. */
  ghost predicate Grew(s: Sys, s': Sys) {
    s.subs <= s'.subs && s.used <= s'.used && s.returned <= s'.returned && s.taken <= s'.taken && s'.q.num == s.q.num
  }

  lemma StepGrowsLogs(s: Sys, st: Step)
    requires Inv(s) && Enabled(s, st)
    ensures Grew(s, Do(s, st))
  {
  }

  lemma GrewOn(s: Sys, t: Sys, u: Sys)
    requires Grew(s, t) && Grew(t, u)
    ensures Grew(s, u)
  {
  }

  lemma NextGrows(states: seq<Sys>, steps: seq<Step>, i: nat)
    requires IsRun(states, steps) && i < |steps|
    ensures Grew(states[i], states[i + 1])
  {
    RunKeepsInv(states, steps, i);
    assert Next(states[i], steps[i], states[i + 1]);
    StepGrowsLogs(states[i], steps[i]);
  }

  lemma {:induction false} LogsGrow(states: seq<Sys>, steps: seq<Step>, i: nat, j: nat)
    requires IsRun(states, steps) && i <= j < |states|
    ensures Grew(states[i], states[j])
  {
    if i < j {
      LogsGrow(states, steps, i, j - 1);
      NextGrows(states, steps, j - 1);
      GrewOn(states[i], states[j - 1], states[j]);
    }
  }

  /** In every reachable state the tokens returned so far are those of distinct buffers that the device took and
      published, in publishing order and with the published lengths. */
  lemma TokensComeBackOnce(states: seq<Sys>, steps: seq<Step>, i: nat)
    requires IsRun(states, steps) && i < |states|
    ensures var s := states[i];
      && |s.returned| <= |s.used|
      && (forall n | 0 <= n < |s.returned| ::
            && s.used[n].serial < s.taken <= |s.subs|
            && s.returned[n] == (s.subs[s.used[n].serial].token, s.used[n].len))
      && (forall m, n | 0 <= m < n < |s.returned| :: s.used[m].serial != s.used[n].serial)
  {
    RunKeepsInv(states, steps, i);
  }

  /** A get returns exactly what was published next, and NULL only when everything published was returned. */
  lemma GetReturnsNextCompletion(states: seq<Sys>, steps: seq<Step>, i: nat)
    requires IsRun(states, steps) && i < |steps| && steps[i] == Get
    ensures var s, s' := states[i], states[i + 1];
      if |s.returned| < |s.used|
      then
        var d := s.used[|s.returned|];
        d.serial < |s.subs| && s'.returned == s.returned + [(s.subs[d.serial].token, d.len)]
      else s' == s
  {
    RunKeepsInv(states, steps, i);
    assert Next(states[i], steps[i], states[i + 1]);
    GetFinds(states[i]);
  }

  /** A get that returned a buffer with callbacks enabled arms the event index: the completion after those returned will
      interrupt. With callbacks disabled the event index stays. */
  lemma GetArmsNext(states: seq<Sys>, steps: seq<Step>, i: nat)
    requires IsRun(states, steps) && i < |steps| && steps[i] == Get && |states[i].returned| < |states[i].used|
    ensures var s, s', n := states[i], states[i + 1], |states[i + 1].returned|;
      if s.q.noInterruptShadow then s'.q.usedEvent == s.q.usedEvent
      else s'.q.usedEvent == Trunc16(n) && NeedEvent(s'.q.usedEvent, Trunc16(n + 1), Trunc16(n))
  {
    RunKeepsInv(states, steps, i);
    assert Next(states[i], steps[i], states[i + 1]);
    GetCountsBack(states[i]);
    GetWritesEvent(states[i]);
    ArmedIndexFires(|states[i + 1].returned|);
  }

  lemma GetWritesEvent(s: Sys)
    requires Inv(s) && |s.returned| < |s.used|
    ensures AfterGet(s).q.usedEvent
         == if s.q.noInterruptShadow then s.q.usedEvent else Trunc16(|s.returned| + 1)
  {
    GetFinds(s);
    TruncStep(|s.returned|);
  }

  lemma ArmedIndexFires(n: nat)
    ensures NeedEvent(Trunc16(n), Trunc16(n + 1), Trunc16(n))
  {
    NeedEventIsWindow(Trunc16(n), n + 1, n);
  }

  /** Consumed <= published <= taken <= exposed, and at most `num` buffers are outstanding. */
  lemma CountsInOrder(states: seq<Sys>, steps: seq<Step>, i: nat)
    requires IsRun(states, steps) && i < |states|
    ensures var s := states[i];
      && |s.returned| <= |s.used| <= s.taken <= Exposed(s)
      && |s.subs| - |s.returned| == LiveCount(s.g.chains) <= s.q.num
      && s.q.numFree + TotalLength(s.g.chains) == s.q.num
      && (s.q.availIdx, s.q.usedIdx, s.q.lastUsedIdx) == (Trunc16(Exposed(s)), Trunc16(|s.used|), Trunc16(|s.returned|))
  {
    RunKeepsInv(states, steps, i);
    CountBounds(states[i]);
  }

  /** The head the device reads is that of the next buffer in the order they were added: no slot was overwritten. */
  lemma DeviceTakesInOrder(states: seq<Sys>, steps: seq<Step>, i: nat)
    requires IsRun(states, steps) && i < |steps| && steps[i] == TakeHead
    ensures var s, s' := states[i], states[i + 1];
      s.taken < Exposed(s) && s'.inflight == s.inflight[s.taken := s.subs[s.taken].head] && s'.taken == s.taken + 1
  {
    RunKeepsInv(states, steps, i);
    var s := states[i];
    assert Next(s, steps[i], states[i + 1]);
    CountsAfterTake(s);
    SlotOfCount(s.q.num, s.taken);
    assert Live(s, s.taken);
  }

  // ----- what the device reads from a head -----

  datatype Elem = Elem(addr: nat, len: nat, write: bool)

  function ElemOf(c: Cell): Elem {
    Elem(c.addr, c.len, c.flags.write)
  }

  /** The caller's list: readable elements first, writable ones after. */
  function Elements(sg: seq<Sg>, outNum: nat): (r: seq<Elem>)
    ensures |r| == |sg|
  {
    seq(|sg|, (j: nat) requires j < |sg| => Elem(sg[j].addr, sg[j].len, j >= outNum))
  }

  /** Following NEXT from descriptor `i`, for at most `fuel` descriptors. */
  function Walk(desc: seq<Desc>, i: nat, fuel: nat): seq<Elem>
    decreases fuel
  {
    if fuel == 0 || i >= |desc| then []
    else [ElemOf(desc[i].cell)] + if desc[i].cell.flags.next then Walk(desc, desc[i].next, fuel - 1) else []
  }

  /** A device reads a direct chain, or the table an indirect descriptor points to. */
  function DeviceRead(desc: seq<Desc>, mem: map<nat, seq<Desc>>, head: nat, fuel: nat): seq<Elem> {
    if head < |desc| && desc[head].cell.flags.indirect then
      if desc[head].cell.addr in mem && desc[head].cell.len / 16 <= |mem[desc[head].cell.addr]|
      then Walk(mem[desc[head].cell.addr][..desc[head].cell.len / 16], 0, fuel)
      else []
    else Walk(desc, head, fuel)
  }

  /** The descriptors of `path` are linked, and only the last one does not continue. */
  ghost predicate Path(desc: seq<Desc>, path: seq<nat>) {
    && (forall i | 0 <= i < |path| :: path[i] < |desc|)
    && (forall i {:trigger desc[path[i]]} | 0 <= i < |path| :: desc[path[i]].cell.flags.next <==> i < |path| - 1)
    && (forall i {:trigger desc[path[i]]} | 0 <= i < |path| - 1 :: desc[path[i]].next == path[i + 1])
  }

  /** Walking a path yields its cells in order and stops. */
  lemma {:induction false} WalkPath(desc: seq<Desc>, path: seq<nat>, fuel: nat)
    requires path != [] && Path(desc, path) && fuel >= |path|
    ensures |Walk(desc, path[0], fuel)| == |path|
    ensures forall i | 0 <= i < |path| :: Walk(desc, path[0], fuel)[i] == ElemOf(desc[path[i]].cell)
    decreases |path|
  {
    var d := desc[path[0]];
    if |path| > 1 {
      var rest := path[1..];
      forall i {:trigger desc[rest[i]]} | 0 <= i < |rest|
        ensures desc[rest[i]].cell.flags.next <==> i < |rest| - 1
        ensures i < |rest| - 1 ==> desc[rest[i]].next == rest[i + 1]
      {
        assert desc[rest[i]] == desc[path[i + 1]];
      }
      WalkPath(desc, rest, fuel - 1);
      assert d.next == rest[0];
      assert Walk(desc, path[0], fuel) == [ElemOf(d.cell)] + Walk(desc, rest[0], fuel - 1);
    }
  }

  lemma TableWalk(sg: seq<Sg>, outNum: nat, fuel: nat)
    requires 0 < |sg| <= U16 && fuel >= |sg|
    ensures Walk(Table(sg, outNum), 0, fuel) == Elements(sg, outNum)
  {
    var path: seq<nat> := seq(|sg|, i => i);
    var t := Table(sg, outNum);
    forall i {:trigger t[path[i]]} | 0 <= i < |sg| - 1 ensures t[path[i]].next == path[i + 1] {
      assert Trunc16(i + 1) == i + 1;
    }
    WalkPath(t, path, fuel);
    forall i | 0 <= i < |sg| ensures Walk(t, 0, fuel)[i] == Elements(sg, outNum)[i] {
      assert path[i] == i;
    }
  }

  /** A walk over descriptors that all continue among themselves never ends by itself. */
  lemma {:induction false} EndlessWalk(desc: seq<Desc>, n: nat, i: nat, fuel: nat)
    requires i < n <= |desc| && forall j | 0 <= j < n :: desc[j].cell.flags.next && desc[j].next < n
    ensures |Walk(desc, i, fuel)| == fuel
    decreases fuel
  {
    if fuel > 0 { EndlessWalk(desc, n, desc[i].next, fuel - 1); }
  }

  /** The links of an indirect table have 16 bits: it holds the caller's list exactly when that has at most 2^16
      elements. */
  lemma TableWalkIff(sg: seq<Sg>, outNum: nat)
    requires sg != []
    ensures (forall fuel: nat | fuel >= |sg| :: Walk(Table(sg, outNum), 0, fuel) == Elements(sg, outNum))
            <==> |sg| <= U16
  {
    if |sg| <= U16 {
      forall fuel: nat | fuel >= |sg| ensures Walk(Table(sg, outNum), 0, fuel) == Elements(sg, outNum) {
        TableWalk(sg, outNum, fuel);
      }
    } else {
      var fuel, t := |sg| + 1, Table(sg, outNum);
      forall j | 0 <= j < U16 ensures t[j].cell.flags.next && t[j].next < U16 {
        assert t[j] == Desc(DirectCell(sg, outNum, j), Trunc16(j + 1));
      }
      EndlessWalk(t, U16, 0, fuel);
      assert |Walk(Table(sg, outNum), 0, fuel)| != |Elements(sg, outNum)|;
    }
  }

  lemma DirectWalk(desc: seq<Desc>, mem: map<nat, seq<Desc>>, chain: seq<nat>, b: Sub, fuel: nat)
    requires Stored(desc, mem, chain, b) && b.cells == DirectCells(b.sg, b.outNum) && fuel >= |b.sg|
    requires forall i {:trigger desc[chain[i]]} | 0 <= i < |chain| - 1 :: desc[chain[i]].next == chain[i + 1]
    ensures Walk(desc, chain[0], fuel) == Elements(b.sg, b.outNum)
  {
    assert Path(desc, chain);
    WalkPath(desc, chain, fuel);
  }

  /** From the head of any live buffer the device reads exactly the caller's list, direct or through a table. */
  lemma DeviceReadsTheBuffer(s: Sys, k: nat, fuel: nat)
    requires Inv(s) && Live(s, k) && |s.subs[k].sg| <= U16 && fuel >= |s.subs[k].sg|
    ensures DeviceRead(s.q.desc, s.mem, s.subs[k].head, fuel) == Elements(s.subs[k].sg, s.subs[k].outNum)
  {
    var b := s.subs[k];
    assert OwnerOk(s, b.head) && ChainOk(s.q.desc, s.g, b.head);
    StoredRead(s.q.desc, s.mem, s.g.chains[b.head], b, fuel);
  }

  lemma StoredRead(desc: seq<Desc>, mem: map<nat, seq<Desc>>, chain: seq<nat>, b: Sub, fuel: nat)
    requires Stored(desc, mem, chain, b) && chain != [] && |b.sg| <= U16 && fuel >= |b.sg|
    requires forall i {:trigger desc[chain[i]]} | 0 <= i < |chain| - 1 :: desc[chain[i]].next == chain[i + 1]
    ensures DeviceRead(desc, mem, chain[0], fuel) == Elements(b.sg, b.outNum)
  {
    assert desc[chain[0]].cell == b.cells[0];
    if b.cells == DirectCells(b.sg, b.outNum) {
      DirectWalk(desc, mem, chain, b, fuel);
    } else {
      TableWalk(b.sg, b.outNum, fuel);
    }
  }

  /** What the device reads for a buffer is the same in any two states of a run in which the buffer is outstanding. */
  lemma BufferIsStable(states: seq<Sys>, steps: seq<Step>, i: nat, j: nat, k: nat, fuel: nat)
    requires IsRun(states, steps) && i <= j < |states| && Live(states[i], k) && Live(states[j], k)
    requires |states[i].subs[k].sg| <= U16 && fuel >= |states[i].subs[k].sg|
    ensures states[i].subs[k] == states[j].subs[k]
    ensures DeviceRead(states[j].q.desc, states[j].mem, states[j].subs[k].head, fuel)
         == DeviceRead(states[i].q.desc, states[i].mem, states[i].subs[k].head, fuel)
         == Elements(states[i].subs[k].sg, states[i].subs[k].outNum)
  {
    RunKeepsInv(states, steps, i);
    RunKeepsInv(states, steps, j);
    LogsGrow(states, steps, i, j);
    DeviceReadsTheBuffer(states[i], k, fuel);
    DeviceReadsTheBuffer(states[j], k, fuel);
  }

  // ----- the calls of the driver are these steps -----

  lemma CountersFromCounts(q: Vq, exposed: nat, returned: nat, live: nat)
    requires exposed == returned + live && q.availIdxShadow == q.availIdx == Trunc16(exposed)
    requires q.lastUsedIdx == Trunc16(returned) && q.availNoInterrupt == q.noInterruptShadow && q.numAdded < FORCE_KICK
    ensures CountersOk(q, live)
  {
    assert Trunc16(Trunc16(returned) + live) == Trunc16(returned + live);
  }

  /** Between calls the driver's own invariant holds. */
  lemma IdleIsValid(s: Sys)
    requires DriverIdle(s)
    ensures Valid(s.q, s.g)
  {
    assert CountersOk(s.q, LiveCount(s.g.chains)) by {
      CountersFromCounts(s.q, |s.subs|, |s.returned|, LiveCount(s.g.chains));
    }
  }

  /** `virtqueue_add_buf` is the step that prepares a buffer followed by the step that exposes it. */
  lemma AddBufIsTwoSteps(s: Sys, sg: seq<Sg>, outNum: nat, token: Token, indirect: bool, phys: nat)
    requires Enabled(s, Step.Prepare(sg, outNum, token, indirect, phys)) && Valid(s.q, s.g)
    ensures var s1 := Do(s, Step.Prepare(sg, outNum, token, indirect, phys));
      Enabled(s1, Step.Expose) && var s2 := Do(s1, Step.Expose);
      AddBuf(s.q, s.g, sg, outNum, token, indirect, phys) == (0, s2.q, s2.g)
  {
    StepKeepsInv(s, Step.Prepare(sg, outNum, token, indirect, phys));
  }

  /** Without room it is the step that only notifies, when there is something to read, and else nothing. */
  lemma FailedAddIsNoSpace(s: Sys, sg: seq<Sg>, outNum: nat, token: Token, indirect: bool, phys: nat)
    requires DriverIdle(s) && Valid(s.q, s.g) && sg != [] && outNum <= |sg| && token != 0
    requires s.q.numFree < |BufferCells(s.q, sg, outNum, indirect, phys)|
    ensures Enabled(s, NoSpace)
    ensures AddBuf(s.q, s.g, sg, outNum, token, indirect, phys)
         == (-ENOSPC, if outNum > 0 then Do(s, NoSpace).q else s.q, s.g)
  {
  }
}
