/** The scatter list that the control queue builds for a command, its data and its response: which physical bytes the
    device is told to use. */
module ScatterList {
  import opened Bits
  import opened Vring
  import opened VringProtocol
  import opened VringRuns

  const SLOTS: nat := 32

  /** The frame that backs each virtual page. */
  type Frames = nat -> nat

  function Phys(frames: Frames, v: nat): nat {
    frames(v / PAGE) * PAGE + v % PAGE
  }

  /** The physical bytes behind a virtual buffer. */
  function Bytes(frames: Frames, buf: nat, size: nat): seq<int> {
    seq(size, i requires 0 <= i < size => Phys(frames, buf + i))
  }

  /** The physical bytes that an entry names. */
  function Named(e: Sg): seq<int> {
    seq(e.len, i requires 0 <= i < e.len => e.addr + i)
  }

  function AllNamed(es: seq<Sg>): seq<int>
    decreases |es|
  {
    if es == [] then [] else Named(es[0]) + AllNamed(es[1..])
  }

  /** The virtual pages that are mapped. */
  type Mapping = nat -> bool

  /** `BuildSGElement`: nothing for an empty buffer or an unmapped address. */
  function Element(frames: Frames, mapped: Mapping, buf: nat, size: nat): (r: seq<Sg>)
    ensures |r| <= 1
  {
    if size == 0 || !mapped(buf / PAGE) then [] else [Sg(Phys(frames, buf), Min(size, PAGE))]
  }

  /** One element a page. */
  function Pieces(frames: Frames, buf: nat, size: nat): (r: seq<Sg>)
    decreases size
  {
    if size == 0 then []
    else [Sg(Phys(frames, buf), Min(size, PAGE))] + Pieces(frames, buf + PAGE, size - Min(size, PAGE))
  }

  // -------------------------------------------------------------------- building the list

  datatype Outcome = Rejected | Queued(sg: seq<Sg>, outNum: nat)

  /** A command, its data and the memory for its response: address and size. */
  datatype Request = Request(cmd: nat, size: nat, data: nat, dataSize: nat, resp: nat, respSize: nat)

  /** Commands and responses take at most a page, and the list must keep a slot free for the response. */
  function Plan(frames: Frames, mapped: Mapping, q: Request): (r: Outcome)
    ensures r.Queued? ==> r.outNum <= |r.sg| <= SLOTS
  {
    var out := Element(frames, mapped, q.cmd, q.size) + Pieces(frames, q.data, q.dataSize);
    if q.size > PAGE || (q.dataSize > 0 && |out| >= SLOTS) || q.respSize > PAGE then Rejected
    else Queued(out + Element(frames, mapped, q.resp, q.respSize), |out|)
  }

  /** The pages of the data are mapped, as far as there is room for their elements. */
  predicate Feeds(mapped: Mapping, at: nat, left: nat, room: nat)
    decreases left
  {
    left == 0 || room == 0 || (mapped(at / PAGE) && Feeds(mapped, at + PAGE, left - Min(left, PAGE), room - 1))
  }

  /** The loop over the data: its elements follow the first `outcnt` ones, until they fill the list. */
  method PutData(frames: Frames, mapped: Mapping, sg: array<Sg>, outcnt: nat, data: nat, dataSize: nat)
    returns (count: nat, full: bool)
    requires sg.Length == SLOTS && outcnt <= 1 && Feeds(mapped, data, dataSize, SLOTS - outcnt)
    modifies sg
    ensures full <==> dataSize > 0 && outcnt + |Pieces(frames, data, dataSize)| >= SLOTS
    ensures !full ==> count < SLOTS && sg[..count] == old(sg[..outcnt]) + Pieces(frames, data, dataSize)
  {
    var left: nat, at: nat, sgleft := dataSize, data, SLOTS - outcnt;
    count := outcnt;
    ghost var first := sg[..outcnt];
    ghost var all := Pieces(frames, data, dataSize);
    while left > 0
      invariant 0 < sgleft == SLOTS - count && Feeds(mapped, at, left, sgleft)
      invariant sg[..count] + Pieces(frames, at, left) == first + all
    {
      if mapped(at / PAGE) {
        ghost var before, rest := sg[..count], Pieces(frames, at + PAGE, left - Min(left, PAGE));
        sg[count] := Sg(Phys(frames, at), Min(left, PAGE));
        Moved(before, [sg[count]], rest);
        at, left := at + PAGE, left - Min(left, PAGE);
        count, sgleft := count + 1, sgleft - 1;
        assert sg[..count] == before + [sg[count - 1]];
        if sgleft == 0 {
          assert |sg[..count]| <= |first + all|;
          return count, true;
        }
      }
    }
    assert sg[..count] + [] == sg[..count];
    full := false;
  }

  /** `CtrlQueue::QueueBuffer` up to the call of `AddBuf`. The precondition is exactly that its loop ends
      (`DataLoopEndsIff`); a command that is too large is rejected before. */
  method QueueBuffer(frames: Frames, mapped: Mapping, q: Request) returns (r: Outcome)
    requires q.size <= PAGE ==>
               Feeds(mapped, q.data, q.dataSize, SLOTS - |Element(frames, mapped, q.cmd, q.size)|)
    ensures r == Plan(frames, mapped, q)
  {
    if q.size > PAGE { return Rejected; }
    var sg := new Sg[SLOTS](_ => Sg(0, 0));
    var outcnt, incnt := 0, 0;
    if q.size != 0 && mapped(q.cmd / PAGE) {
      sg[outcnt + incnt] := Sg(Phys(frames, q.cmd), Min(q.size, PAGE));
      outcnt := outcnt + 1;
    }
    assert sg[..outcnt] == Element(frames, mapped, q.cmd, q.size);
    var full;
    outcnt, full := PutData(frames, mapped, sg, outcnt, q.data, q.dataSize);
    if full { return Rejected; }
    if q.respSize > PAGE { return Rejected; }
    ghost var out := sg[..outcnt];
    if q.respSize > 0 && mapped(q.resp / PAGE) {
      sg[outcnt + incnt] := Sg(Phys(frames, q.resp), Min(q.respSize, PAGE));
      incnt := incnt + 1;
      assert sg[..outcnt + incnt] == out + Element(frames, mapped, q.resp, q.respSize);
    } else {
      assert out + [] == out;
    }
    r := Queued(sg[..outcnt + incnt], outcnt);
  }

  lemma Moved(a: seq<Sg>, b: seq<Sg>, c: seq<Sg>)
    ensures a + (b + c) == a + b + c
  {
  }

  /** The data loop: address and size that are left, and room in the list. */
  datatype Loop = Loop(at: nat, left: nat, room: nat)

  /** One round; an unmapped page changes nothing. */
  function Round(mapped: Mapping, l: Loop): Loop
    requires l.left > 0 && l.room > 0
  {
    if mapped(l.at / PAGE) then Loop(l.at + PAGE, l.left - Min(l.left, PAGE), l.room - 1) else l
  }

  function Rounds(mapped: Mapping, l: Loop, n: nat): Loop
    decreases n
  {
    if n == 0 || l.left == 0 || l.room == 0 then l else Rounds(mapped, Round(mapped, l), n - 1)
  }

  predicate Over(l: Loop) { l.left == 0 || l.room == 0 }

  lemma {:induction false} FedLoopEnds(mapped: Mapping, l: Loop) returns (n: nat)
    requires Feeds(mapped, l.at, l.left, l.room)
    ensures Over(Rounds(mapped, l, n))
    decreases l.left
  {
    n := 0;
    if !Over(l) {
      n := FedLoopEnds(mapped, Round(mapped, l));
      n := n + 1;
    }
  }

  lemma {:induction false} EndedLoopWasFed(mapped: Mapping, l: Loop, n: nat)
    requires Over(Rounds(mapped, l, n))
    ensures Feeds(mapped, l.at, l.left, l.room)
    decreases n
  {
    if !Over(l) { EndedLoopWasFed(mapped, Round(mapped, l), n - 1); }
  }

  ghost predicate LoopEnds(mapped: Mapping, l: Loop) {
    exists n: nat :: Over(Rounds(mapped, l, n))
  }

  /** The loop ends if and only if the pages it comes to are mapped. */
  lemma DataLoopEndsIff(mapped: Mapping, l: Loop)
    ensures LoopEnds(mapped, l) <==> Feeds(mapped, l.at, l.left, l.room)
  {
    if Feeds(mapped, l.at, l.left, l.room) {
      var n := FedLoopEnds(mapped, l);
      assert Over(Rounds(mapped, l, n));
    }
    if LoopEnds(mapped, l) {
      var n: nat :| Over(Rounds(mapped, l, n));
      EndedLoopWasFed(mapped, l, n);
    }
  }

  /** At an unmapped page the loop stays for ever. */
  lemma {:induction false} UnmappedPageHangs(mapped: Mapping, l: Loop, n: nat)
    requires !Over(l) && !mapped(l.at / PAGE)
    ensures Rounds(mapped, l, n) == l
    decreases n
  {
    if n > 0 { UnmappedPageHangs(mapped, l, n - 1); }
  }

  // -------------------------------------------------------------------- what the device is told

  lemma DivisionStep(v: nat, i: nat)
    requires v % PAGE + i < PAGE
    ensures (v + i) / PAGE == v / PAGE && (v + i) % PAGE == v % PAGE + i
  {
  }

  /** An entry that stays inside a page names exactly its buffer. */
  lemma EntryIsBuffer(frames: Frames, buf: nat, size: nat)
    requires buf % PAGE + size <= PAGE
    ensures Named(Sg(Phys(frames, buf), size)) == Bytes(frames, buf, size)
  {
    var e := Sg(Phys(frames, buf), size);
    forall i | 0 <= i < size ensures Named(e)[i] == Bytes(frames, buf, size)[i] {
      DivisionStep(buf, i);
    }
  }

  lemma NamedOne(e: Sg)
    ensures AllNamed([e]) == Named(e)
  {
    assert AllNamed([e]) == Named(e) + AllNamed([]);
  }

  lemma NamedCons(e: Sg, rest: seq<Sg>)
    ensures AllNamed([e] + rest) == Named(e) + AllNamed(rest)
  {
    assert ([e] + rest)[1..] == rest;
  }

  /** The bytes of a buffer of at most a page, if its page is mapped. */
  function Seen(frames: Frames, mapped: Mapping, buf: nat, size: nat): seq<int> {
    if mapped(buf / PAGE) then Bytes(frames, buf, size) else []
  }

  lemma ElementIsBuffer(frames: Frames, mapped: Mapping, buf: nat, size: nat)
    requires buf % PAGE + size <= PAGE
    ensures AllNamed(Element(frames, mapped, buf, size)) == Seen(frames, mapped, buf, size)
  {
    if size > 0 && mapped(buf / PAGE) {
      NamedOne(Sg(Phys(frames, buf), size));
      EntryIsBuffer(frames, buf, size);
    }
  }

  /** Data that starts on a page boundary, of any size, is named exactly, whatever frames back it. */
  lemma {:induction false} AlignedDataIsNamed(frames: Frames, buf: nat, size: nat)
    requires buf % PAGE == 0
    ensures AllNamed(Pieces(frames, buf, size)) == Bytes(frames, buf, size)
    decreases size
  {
    if size > 0 {
      var n := Min(size, PAGE);
      EntryIsBuffer(frames, buf, n);
      AlignedDataIsNamed(frames, buf + PAGE, size - n);
      NamedCons(Sg(Phys(frames, buf), n), Pieces(frames, buf + PAGE, size - n));
      assert Bytes(frames, buf, size) == Bytes(frames, buf, n) + Bytes(frames, buf + PAGE, size - n);
    }
  }

  /** Either the data starts on a page boundary or it does not leave its page. */
  predicate PageFriendly(buf: nat, size: nat) {
    buf % PAGE == 0 || buf % PAGE + size <= PAGE
  }

  lemma FriendlyDataIsNamed(frames: Frames, buf: nat, size: nat)
    requires PageFriendly(buf, size)
    ensures AllNamed(Pieces(frames, buf, size)) == Bytes(frames, buf, size)
  {
    if buf % PAGE == 0 {
      AlignedDataIsNamed(frames, buf, size);
    } else if size > 0 {
      var e := Sg(Phys(frames, buf), size);
      assert Pieces(frames, buf, size) == [e] + Pieces(frames, buf + PAGE, 0) == [e];
      NamedOne(e);
      EntryIsBuffer(frames, buf, size);
    }
  }

  /** Frames of which no two in a row adjoin. */
  function Scattered(page: nat): nat { 2 * page }

  lemma CrossingDataIsNot(buf: nat, size: nat)
    requires !PageFriendly(buf, size)
    ensures AllNamed(Pieces(Scattered, buf, size)) != Bytes(Scattered, buf, size)
  {
    var i, n := PAGE - buf % PAGE, Min(size, PAGE);
    var e := Sg(Phys(Scattered, buf), n);
    var rest := Pieces(Scattered, buf + PAGE, size - n);
    assert Pieces(Scattered, buf, size) == [e] + rest && ([e] + rest)[1..] == rest;
    assert AllNamed(Pieces(Scattered, buf, size)) == Named(e) + AllNamed(rest);
    assert AllNamed(Pieces(Scattered, buf, size))[i] == Named(e)[i] == Phys(Scattered, buf) + i;
    assert (buf + i) / PAGE == buf / PAGE + 1 && (buf + i) % PAGE == 0;
    assert Bytes(Scattered, buf, size)[i] == Phys(Scattered, buf + i);
  }

  /** The list names the bytes of the data for every mapping exactly when the data is page-friendly. */
  lemma DataIsNamedIff(buf: nat, size: nat)
    ensures (forall frames: Frames :: AllNamed(Pieces(frames, buf, size)) == Bytes(frames, buf, size))
        <==> PageFriendly(buf, size)
  {
    if PageFriendly(buf, size) {
      forall frames: Frames ensures AllNamed(Pieces(frames, buf, size)) == Bytes(frames, buf, size) {
        FriendlyDataIsNamed(frames, buf, size);
      }
    } else {
      CrossingDataIsNot(buf, size);
    }
  }

  lemma {:induction false} NamedConcat(a: seq<Sg>, b: seq<Sg>)
    ensures AllNamed(a + b) == AllNamed(a) + AllNamed(b)
    decreases |a|
  {
    if a == [] {
      assert a + b == b;
    } else {
      NamedConcat(a[1..], b);
      assert (a + b)[1..] == a[1..] + b;
    }
  }

  /** No part of the request leaves a page unnoticed. */
  predicate Placed(q: Request) {
    q.cmd % PAGE + q.size <= PAGE && PageFriendly(q.data, q.dataSize) && q.resp % PAGE + q.respSize <= PAGE
  }

  /** The readable part of the list names the command and its data, in order, and the writable part the response. */
  lemma QueuedNamesBuffers(frames: Frames, mapped: Mapping, q: Request)
    requires Plan(frames, mapped, q).Queued? && Placed(q)
    ensures var r := Plan(frames, mapped, q);
            && AllNamed(r.sg[..r.outNum]) == Seen(frames, mapped, q.cmd, q.size) + Bytes(frames, q.data, q.dataSize)
            && AllNamed(r.sg[r.outNum..]) == Seen(frames, mapped, q.resp, q.respSize)
  {
    var first, last := Element(frames, mapped, q.cmd, q.size), Element(frames, mapped, q.resp, q.respSize);
    var pieces, r := Pieces(frames, q.data, q.dataSize), Plan(frames, mapped, q);
    assert r.sg[..r.outNum] == first + pieces && r.sg[r.outNum..] == last;
    NamedConcat(first, pieces);
    ElementIsBuffer(frames, mapped, q.cmd, q.size);
    FriendlyDataIsNamed(frames, q.data, q.dataSize);
    ElementIsBuffer(frames, mapped, q.resp, q.respSize);
  }

  lemma {:induction false} PieceCount(frames: Frames, buf: nat, size: nat)
    ensures |Pieces(frames, buf, size)| == (size + PAGE - 1) / PAGE
    decreases size
  {
    if size > PAGE {
      PieceCount(frames, buf + PAGE, size - PAGE);
    } else if size > 0 {
      assert Pieces(frames, buf + PAGE, 0) == [];
    }
  }

  /** How much data fits: 30 pages beside a command, 31 when the command has no element. */
  lemma QueuedIff(frames: Frames, mapped: Mapping, q: Request)
    ensures Plan(frames, mapped, q).Queued?
        <==> && q.size <= PAGE && q.respSize <= PAGE
             && q.dataSize <= (SLOTS - 1 - |Element(frames, mapped, q.cmd, q.size)|) * PAGE
  {
    PieceCount(frames, q.data, q.dataSize);
  }

  // -------------------------------------------------------------------- through the ring

  /** The physical bytes of the elements that the device may read (or, with `write`, must write). */
  function Reached(es: seq<Elem>, write: bool): seq<int>
    decreases |es|
  {
    if es == [] then []
    else (if es[0].write == write then Named(Sg(es[0].addr, es[0].len)) else []) + Reached(es[1..], write)
  }

  lemma {:induction false} ReachedElements(sg: seq<Sg>, outNum: nat)
    requires outNum <= |sg|
    ensures Reached(Elements(sg, outNum), false) == AllNamed(sg[..outNum])
    ensures Reached(Elements(sg, outNum), true) == AllNamed(sg[outNum..])
    decreases |sg|
  {
    if sg != [] {
      var rest, n := sg[1..], if outNum > 0 then outNum - 1 else 0;
      ReachedElements(rest, n);
      assert Elements(sg, outNum)[1..] == Elements(rest, n);
      if outNum > 0 {
        assert sg[..outNum][1..] == rest[..n] && sg[outNum..] == rest[n..];
      } else {
        assert sg[..0] == [] && rest[..0] == [] && sg[0..] == sg && rest[0..] == rest;
      }
    }
  }

  /** The way of a command from its buffers through the ring: following the head of a queued command, the device reads
      exactly the physical bytes of command and data, and writes those of the response. */
  lemma DeviceSeesTheCommand(s: Sys, k: nat, fuel: nat, frames: Frames, mapped: Mapping, q: Request)
    requires Inv(s) && Live(s, k) && fuel >= SLOTS
    requires var r := Plan(frames, mapped, q); r.Queued? && (s.subs[k].sg, s.subs[k].outNum) == (r.sg, r.outNum)
    requires Placed(q)
    ensures var seen := DeviceRead(s.q.desc, s.mem, s.subs[k].head, fuel);
            && Reached(seen, false) == Seen(frames, mapped, q.cmd, q.size) + Bytes(frames, q.data, q.dataSize)
            && Reached(seen, true) == Seen(frames, mapped, q.resp, q.respSize)
  {
    DeviceReadsTheBuffer(s, k, fuel);
    ReachedElements(s.subs[k].sg, s.subs[k].outNum);
    QueuedNamesBuffers(frames, mapped, q);
  }
}
