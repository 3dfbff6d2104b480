/** The driver's queue against any device: one that writes whatever it likes to its own part of the ring. */
module VringAnyDevice {
  import opened Bits
  import opened Options
  import opened Vring

  /** The queue, and the tokens that callers gave and got so far. */
  datatype Sys = Sys(q: Vq, g: Shape, added: multiset<Token>, returned: multiset<Token>)

  datatype Step =
    | Add(sg: seq<Sg>, outNum: nat, token: Token, indirect: bool, phys: nat)
    | Get
    | Control(noInterrupt: bool, usedEvent: nat, numAdded: nat, notifications: nat)
    | Device(noNotify: bool, usedIdx: nat, usedRing: seq<UsedElem>, availEvent: nat)

  ghost predicate Enabled(s: Sys, st: Step) {
    Valid(s.q, s.g) &&
    match st
    case Add(sg, outNum, token, indirect, phys) => sg != [] && outNum <= |sg| && token != 0
    case Get => true
    case Control(_, _, numAdded, _) => numAdded < FORCE_KICK
    case Device(_, _, usedRing, _) => |usedRing| == s.q.num
  }

  ghost function Do(s: Sys, st: Step): Sys
    requires Enabled(s, st)
  {
    match st
    case Add(sg, outNum, token, indirect, phys) =>
      var (ret, q, g) := AddBuf(s.q, s.g, sg, outNum, token, indirect, phys);
      Sys(q, g, if ret == 0 then s.added + multiset{token} else s.added, s.returned)
    case Get =>
      (match Lookup(s.q)
       case Buffer(h, t, len) => Sys(Take(s.q, s.g, h), Release(s.g, h), s.added, s.returned + multiset{t})
       case _ => s)
    case Control(noInterrupt, usedEvent, numAdded, notifications) =>
      s.(q := s.q.(noInterruptShadow := noInterrupt, availNoInterrupt := noInterrupt, usedEvent := usedEvent,
                   numAdded := numAdded, notifications := notifications))
    case Device(noNotify, usedIdx, usedRing, availEvent) =>
      s.(q := s.q.(usedNoNotify := noNotify, usedIdx := usedIdx, usedRing := usedRing, availEvent := availEvent))
  }

  function OneToken(t: Token): multiset<Token> {
    if t == 0 then multiset{} else multiset{t}
  }

  /** The tokens outstanding. */
  function Outstanding(data: seq<Token>): multiset<Token> {
    if data == [] then multiset{} else Outstanding(data[..|data| - 1]) + OneToken(data[|data| - 1])
  }

  lemma {:induction false} TokensAfterStore(data: seq<Token>, h: nat, t: Token)
    requires h < |data|
    ensures Outstanding(data[h := t]) + OneToken(data[h]) == Outstanding(data) + OneToken(t)
    decreases |data|
  {
    var n := |data| - 1;
    var front, last := data[..n], OneToken(data[n]);
    if h == n {
      assert data[h := t][..n] == front;
      Swap(Outstanding(front), OneToken(t), last);
    } else {
      assert data[h := t][..n] == front[h := t];
      TokensAfterStore(front, h, t);
      assert Outstanding(data[h := t]) == Outstanding(front[h := t]) + last;
      assert Outstanding(data) == Outstanding(front) + last;
      Swap(Outstanding(front[h := t]), last, OneToken(data[h]));
      Swap(Outstanding(front), last, OneToken(t));
    }
  }

  lemma Swap(a: multiset<Token>, b: multiset<Token>, c: multiset<Token>)
    ensures a + b + c == a + c + b
  {
  }

  lemma {:induction false} NoneOutstanding(data: seq<Token>)
    requires forall j | 0 <= j < |data| :: data[j] == 0
    ensures Outstanding(data) == multiset{}
    decreases |data|
  {
    if data != [] { NoneOutstanding(data[..|data| - 1]); }
  }

  ghost predicate Adds(data: seq<Token>, returned: multiset<Token>, added: multiset<Token>) {
    Outstanding(data) + returned == added
  }

  /** What was given is outstanding or was returned. */
  ghost predicate Balanced(s: Sys) {
    Valid(s.q, s.g) && Adds(s.q.data, s.returned, s.added)
  }

  lemma AddsAfterAdd(data: seq<Token>, h: nat, t: Token, returned: multiset<Token>, added: multiset<Token>)
    requires h < |data| && data[h] == 0 && t != 0 && Adds(data, returned, added)
    ensures Adds(data[h := t], returned, added + multiset{t})
  {
    TokensAfterStore(data, h, t);
    assert Outstanding(data[h := t]) == Outstanding(data) + multiset{t};
  }

  lemma AddsAfterGet(data: seq<Token>, h: nat, returned: multiset<Token>, added: multiset<Token>)
    requires h < |data| && data[h] != 0 && Adds(data, returned, added)
    ensures Adds(data[h := 0], returned + multiset{data[h]}, added)
  {
    TokensAfterStore(data, h, 0);
    assert Outstanding(data) == Outstanding(data[h := 0]) + multiset{data[h]};
  }

  lemma FreeHeadHasNoToken(q: Vq, g: Shape)
    requires Shaped(q, g) && g.free != []
    ensures g.free[0] < q.num && q.data[g.free[0]] == 0
  {
    var h := g.free[0];
    assert g.loc[h].Free? && ChainOk(q.desc, g, h);
  }

  lemma AddBalances(s: Sys, sg: seq<Sg>, outNum: nat, token: Token, indirect: bool, phys: nat)
    requires Balanced(s) && sg != [] && outNum <= |sg| && token != 0
    requires AddBuf(s.q, s.g, sg, outNum, token, indirect, phys).0 == 0
    ensures Balanced(Do(s, Add(sg, outNum, token, indirect, phys)))
  {
    var cells := BufferCells(s.q, sg, outNum, indirect, phys);
    var h, q' := s.g.free[0], Do(s, Add(sg, outNum, token, indirect, phys)).q;
    FreeHeadHasNoToken(s.q, s.g);
    AddKeepsValid(s.q, s.g, cells, token);
    AddsAfterAdd(s.q.data, h, token, s.returned, s.added);
    assert q'.data == s.q.data[h := token];
  }

  lemma FailedAddBalances(s: Sys, sg: seq<Sg>, outNum: nat, token: Token, indirect: bool, phys: nat)
    requires Balanced(s) && sg != [] && outNum <= |sg| && token != 0
    requires AddBuf(s.q, s.g, sg, outNum, token, indirect, phys).0 != 0
    ensures Balanced(Do(s, Add(sg, outNum, token, indirect, phys)))
  {
    NotificationsKeepValid(s.q, Do(s, Add(sg, outNum, token, indirect, phys)).q, s.g);
  }

  lemma FoundHeadIsLive(q: Vq, g: Shape)
    requires Valid(q, g) && Lookup(q).Buffer?
    ensures var f := Lookup(q); f.head < q.num && g.chains[f.head] != [] && q.data[f.head] == f.token != 0
  {
    assert q.data[Lookup(q).head] != 0;
  }

  lemma GetBalances(s: Sys)
    requires Balanced(s)
    ensures Balanced(Do(s, Get))
  {
    match Lookup(s.q)
    case Buffer(h, t, len) =>
      FoundHeadIsLive(s.q, s.g);
      TakeKeepsValid(s.q, s.g, h);
      AddsAfterGet(s.q.data, h, s.returned, s.added);
      assert Take(s.q, s.g, h).data == s.q.data[h := 0];
    case _ =>
  }

  lemma DeviceBalances(s: Sys, st: Step)
    requires Balanced(s) && st.Device? && Enabled(s, st)
    ensures Balanced(Do(s, st))
  {
    ShapedFrame(s.q, Do(s, st).q, s.g);
    CountersFrame(s.q, Do(s, st).q, LiveCount(s.g.chains));
  }

  lemma StepBalances(s: Sys, st: Step)
    requires Balanced(s) && Enabled(s, st)
    ensures Balanced(Do(s, st))
  {
    match st
    case Add(sg, outNum, token, indirect, phys) =>
      if AddBuf(s.q, s.g, sg, outNum, token, indirect, phys).0 == 0 {
        AddBalances(s, sg, outNum, token, indirect, phys);
      } else {
        FailedAddBalances(s, sg, outNum, token, indirect, phys);
      }
    case Get => GetBalances(s);
    case Control(_, _, _, _) => NotificationsKeepValid(s.q, Do(s, st).q, s.g);
    case Device(_, _, _, _) => DeviceBalances(s, st);
  }

  ghost predicate IsRun(states: seq<Sys>, steps: seq<Step>) {
    && |states| == |steps| + 1
    && (var s := states[0];
        IsRingSize(s.q.num) && Sized(s.q, FreshShape(s.q.num)) && s.q == Initialized(Zeroed(s.q), s.q.event)
        && s.g == FreshShape(s.q.num) && s.added == s.returned == multiset{})
    && forall i | 0 <= i < |steps| :: Enabled(states[i], steps[i]) && states[i + 1] == Do(states[i], steps[i])
  }

  lemma StartIsBalanced(s: Sys)
    requires IsRingSize(s.q.num) && Sized(s.q, FreshShape(s.q.num)) && s.q == Initialized(Zeroed(s.q), s.q.event)
    requires s.g == FreshShape(s.q.num) && s.added == s.returned == multiset{}
    ensures Balanced(s)
  {
    RingSizeBound(s.q.num);
    FreshIsValid(Zeroed(s.q), s.q.event);
    NoneOutstanding(s.q.data);
  }

  /** Whatever the device writes, in every run each token that was added is returned at most once and only then: it is
      either outstanding or returned. */
  lemma {:induction false} TokensBalance(states: seq<Sys>, steps: seq<Step>, i: nat)
    requires IsRun(states, steps) && i < |states|
    ensures Balanced(states[i]) && states[i].returned <= states[i].added
  {
    if i == 0 {
      StartIsBalanced(states[0]);
    } else {
      TokensBalance(states, steps, i - 1);
      StepBalances(states[i - 1], steps[i - 1]);
    }
  }
}
