/** The order between the two queues: the device takes the commands of each in order, but either queue may be ahead of
    the other. Setting a pointer shape fills a resource through the control queue, waits until the device has done so,
    and shows it through the cursor queue. */
module CursorOrder {
  import opened Options
  import opened ResourceLifecycle
  import opened Scanout

  datatype Sys = Sys(
    driver: State,
    panel: Panel,
    /** Control commands that the device has not executed yet. */
    ctrl: seq<Command>,
    /** Resources named by the UPDATE_CURSOR commands that it has not executed yet. */
    updates: seq<nat>,
    /** While the driver waits for the transfer of a new cursor: control commands left, up to that one. */
    waiting: Option<nat>)

  datatype Step =
    | Call(op: Op)
    | Wake
    | ExecuteCtrl
    | ExecuteUpdate

  ghost predicate Initial(s: Sys, start: nat) {
    start >= 1 && s == Sys(Fresh(start), RESET, [], [], None)
  }

  /** Framebuffers get their entries and creations find free ids. Frames are presented, and modes set, also while a
      cursor is waited for. */
  predicate Enabled(s: Sys, st: Step) {
    match st
    case Call(op) => HasRoom(s.driver, op) && GetsEntries(op) && (op.SetShape? ==> s.waiting == None)
    case Wake => s.waiting == Some(0)
    case ExecuteCtrl => s.ctrl != []
    case ExecuteUpdate => s.updates != []
  }

  /** `CreateCursor` comes to its transfer. */
  predicate Transfers(op: Op) {
    op.SetShape? && op.luck.entries && op.colour
  }

  function IdOf(obj: Option<nat>): nat {
    match obj
    case None => 0
    case Some(id) => id
  }

  function Do(s: Sys, st: Step): Sys
    requires Enabled(s, st)
  {
    match st
    case Call(op) =>
      var r := Effect(s.driver, op);
      var ctrl := s.ctrl + r.sent;
      s.(driver := r.state, ctrl := ctrl, waiting := if Transfers(op) then Some(|ctrl|) else s.waiting)
    case Wake => s.(updates := s.updates + [IdOf(s.driver.cursorBuf)], waiting := None)
    case ExecuteCtrl =>
      s.(panel := Show(s.panel, s.ctrl[0]), ctrl := s.ctrl[1..],
         waiting := match s.waiting case None => None case Some(k) => Some(if k == 0 then 0 else k - 1))
    case ExecuteUpdate => s.(updates := s.updates[1..])
  }

  /** The resource that the next UPDATE_CURSOR names is there, with its pages attached, and filled. */
  predicate UpdateFinds(s: Sys) {
    s.updates != [] ==> Has(s.panel, s.updates[0])
  }

  predicate Has(p: Panel, id: nat) {
    id in p.dev && p.dev[id] && id in p.current
  }

  predicate Untouched(cs: seq<Command>, id: nat) {
    Unref(id) !in cs && DetachBacking(id) !in cs
  }

  /** The device has the resource after `k` of the commands, and keeps it. */
  predicate Comes(p: Panel, ctrl: seq<Command>, k: nat, id: nat) {
    k <= |ctrl| && Has(ShowAll(p, ctrl[..k]), id) && Untouched(ctrl[k..], id)
  }

  // -------------------------------------------------------------------- the invariant

  /** At most one update is under way, and it is for the cursor that the driver holds. */
  ghost predicate PacedInv(s: Sys, start: nat) {
    && Inv(s.driver, ExecuteAll(s.panel.dev, s.ctrl), start)
    && (s.waiting.Some? ==>
          s.updates == [] && s.driver.cursorBuf.Some?
          && Comes(s.panel, s.ctrl, s.waiting.value, s.driver.cursorBuf.value))
    && (s.updates != [] ==>
          s.driver.cursorBuf.Some? && s.updates == [s.driver.cursorBuf.value]
          && Comes(s.panel, s.ctrl, 0, s.driver.cursorBuf.value))
  }

  lemma HeadFirst(p: Panel, ctrl: seq<Command>)
    requires ctrl != []
    ensures ShowAll(Show(p, ctrl[0]), ctrl[1..]) == ShowAll(p, ctrl)
  {
    ShowOne(p, ctrl[0]);
    ShowConcat(p, [ctrl[0]], ctrl[1..]);
    assert [ctrl[0]] + ctrl[1..] == ctrl;
  }

  lemma ComesAfterHead(p: Panel, ctrl: seq<Command>, k: nat, id: nat)
    requires ctrl != [] && Comes(p, ctrl, k, id)
    ensures Comes(Show(p, ctrl[0]), ctrl[1..], if k == 0 then 0 else k - 1, id)
  {
    var rest := ctrl[1..];
    if k == 0 {
      assert ctrl[..0] == [] && rest[..0] == [] && ctrl[0..] == ctrl && rest[0..] == rest;
      assert ctrl[0] != Unref(id) && ctrl[0] != DetachBacking(id);
    } else {
      HeadFirst(p, ctrl[..k]);
      assert ctrl[..k][0] == ctrl[0] && ctrl[..k][1..] == rest[..k - 1] && rest[k - 1..] == ctrl[k..];
    }
  }

  lemma ComesStill(p: Panel, ctrl: seq<Command>, more: seq<Command>, k: nat, id: nat)
    requires Comes(p, ctrl, k, id) && Untouched(more, id)
    ensures Comes(p, ctrl + more, k, id)
  {
    assert (ctrl + more)[..k] == ctrl[..k] && (ctrl + more)[k..] == ctrl[k..] + more;
  }

  /** Setting a mode and presenting leave the cursor alone. */
  lemma OthersLeaveCursor(s: State, op: Op)
    requires !op.SetShape? && s.cursorBuf.Some? && s.frameBuf != s.cursorBuf
    ensures Effect(s, op).state.cursorBuf == s.cursorBuf && Untouched(Effect(s, op).sent, s.cursorBuf.value)
  {
    match op
    case SetMode(known, luck, pages) => if known {
      var made := CreateFrameBuffer(DestroyFrameBuffer(s).state, luck, pages).sent;
      assert Untouched(made, s.cursorBuf.value);
    }
    case PresentFrame =>
  }

  lemma CallKeepsIds(s: Sys, start: nat, op: Op)
    requires PacedInv(s, start) && Enabled(s, Call(op))
    ensures var s' := Do(s, Call(op)); Inv(s'.driver, ExecuteAll(s'.panel.dev, s'.ctrl), start)
  {
    EffectKeepsInv(s.driver, ExecuteAll(s.panel.dev, s.ctrl), start, op);
    Concat(s.panel.dev, s.ctrl, Effect(s.driver, op).sent);
  }

  /** When all its commands were executed a new cursor of a known format is filled. */
  lemma ShapeFills(p: Panel, s: State, start: nat, op: Op)
    requires Inv(s, p.dev, start) && HasRoom(s, op) && Transfers(op)
    ensures var r := Effect(s, op); r.state.cursorBuf.Some? && Has(ShowAll(p, r.sent), r.state.cursorBuf.value)
  {
    var gone := DestroyCursor(s);
    var id, made := FirstClear(gone.state.taken, 0), CreateCursor(gone.state, op.luck, op.colour);
    DestroyCursorKeepsInv(s, p.dev, start);
    assert made.sent == [CreateResource(id)] + Attach(id, op.luck, CURSOR_PAGES) + [TransferToHost(id)];
    MadeCursor(ShowAll(p, gone.sent), id, op.luck);
    ShowConcat(p, gone.sent, made.sent);
  }

  lemma ShapeKeepsInv(s: Sys, start: nat, op: Op)
    requires PacedInv(s, start) && Enabled(s, Call(op)) && op.SetShape? && s.updates == []
    ensures PacedInv(Do(s, Call(op)), start)
  {
    CallKeepsIds(s, start, op);
    var s' := Do(s, Call(op));
    assert s'.ctrl[..|s'.ctrl|] == s'.ctrl;
    if Transfers(op) {
      ShapeFills(ShowAll(s.panel, s.ctrl), s.driver, start, op);
      ShowConcat(s.panel, s.ctrl, Effect(s.driver, op).sent);
    }
  }

  lemma OtherCallKeepsInv(s: Sys, start: nat, op: Op)
    requires PacedInv(s, start) && Enabled(s, Call(op)) && !op.SetShape?
    ensures PacedInv(Do(s, Call(op)), start)
  {
    CallKeepsIds(s, start, op);
    if s.driver.cursorBuf.Some? {
      var c := s.driver.cursorBuf.value;
      OthersLeaveCursor(s.driver, op);
      if s.waiting.Some? { ComesStill(s.panel, s.ctrl, Effect(s.driver, op).sent, s.waiting.value, c); }
      if s.updates != [] { ComesStill(s.panel, s.ctrl, Effect(s.driver, op).sent, 0, c); }
    }
  }

  lemma ExecuteCtrlKeepsInv(s: Sys, start: nat)
    requires PacedInv(s, start) && s.ctrl != []
    ensures PacedInv(Do(s, ExecuteCtrl), start)
  {
    HeadFirst(s.panel, s.ctrl);
    if s.waiting.Some? { ComesAfterHead(s.panel, s.ctrl, s.waiting.value, s.driver.cursorBuf.value); }
    if s.updates != [] { ComesAfterHead(s.panel, s.ctrl, 0, s.driver.cursorBuf.value); }
  }

  /** A shape is set only after the device has shown the one before. */
  predicate Paced(s: Sys, st: Step) {
    st.Call? && st.op.SetShape? ==> s.updates == []
  }

  lemma StepKeepsInv(s: Sys, start: nat, st: Step)
    requires PacedInv(s, start) && Enabled(s, st) && Paced(s, st)
    ensures PacedInv(Do(s, st), start)
  {
    match st
    case Call(op) => if op.SetShape? { ShapeKeepsInv(s, start, op); } else { OtherCallKeepsInv(s, start, op); }
    case Wake =>
    case ExecuteCtrl => ExecuteCtrlKeepsInv(s, start);
    case ExecuteUpdate =>
  }

  // -------------------------------------------------------------------- runs

  ghost predicate IsRun(states: seq<Sys>, steps: seq<Step>, start: nat) {
    && |states| == |steps| + 1 && Initial(states[0], start)
    && forall i | 0 <= i < |steps| :: Enabled(states[i], steps[i]) && states[i + 1] == Do(states[i], steps[i])
  }

  lemma {:induction false} RunKeepsInv(states: seq<Sys>, steps: seq<Step>, start: nat, i: nat)
    requires IsRun(states, steps, start) && i < |states|
    requires forall j | 0 <= j < i :: Paced(states[j], steps[j])
    ensures PacedInv(states[i], start)
  {
    if i > 0 {
      RunKeepsInv(states, steps, start, i - 1);
      StepKeepsInv(states[i - 1], start, steps[i - 1]);
    }
  }

  /** However the device interleaves its queues, no UPDATE_CURSOR names a resource that it does not have or that is not
      filled, as long as shapes are set only after the one before was shown. */
  lemma UpdatesFindTheirResource(states: seq<Sys>, steps: seq<Step>, start: nat, i: nat)
    requires IsRun(states, steps, start) && i < |states|
    requires forall j | 0 <= j < i :: Paced(states[j], steps[j])
    ensures UpdateFinds(states[i])
  {
    RunKeepsInv(states, steps, start, i);
    assert states[i].ctrl[..0] == [];
  }

  // -------------------------------------------------------------------- setting a shape too early

  /** The device executes `k` control commands and no cursor command. */
  function Ahead(s: Sys, k: nat): (r: Sys)
    requires k <= |s.ctrl|
    ensures r.updates == s.updates && r.ctrl == s.ctrl[k..]
    decreases k
  {
    if k == 0 then s else Do(Ahead(s, k - 1), ExecuteCtrl)
  }

  lemma {:induction false} AheadExecutes(s: Sys, k: nat)
    requires k <= |s.ctrl|
    ensures Ahead(s, k).panel == ShowAll(s.panel, s.ctrl[..k])
    decreases k
  {
    if k > 0 {
      AheadExecutes(s, k - 1);
      assert s.ctrl[..k][..k - 1] == s.ctrl[..k - 1];
    }
  }

  lemma ReleasedTooEarly(s: Sys, start: nat, op: Op)
    requires PacedInv(s, start) && Enabled(s, Call(op)) && op.SetShape? && s.updates != []
    ensures var t, k := Do(s, Call(op)), |s.ctrl| + 2; k <= |t.ctrl| && s.updates[0] !in Ahead(t, k).panel.dev
  {
    var t, k, c := Do(s, Call(op)), |s.ctrl| + 2, s.updates[0];
    var release := [DetachBacking(c), Unref(c)];
    assert DestroyCursor(s.driver).sent == release;
    assert t.ctrl[..k] == s.ctrl + release;
    AheadExecutes(t, k);
    Concat(s.panel.dev, s.ctrl, release);
    Two(ExecuteAll(s.panel.dev, s.ctrl), DetachBacking(c), Unref(c));
  }

  /** The code does not wait for the update: if a shape is set while one is under way the device may release the
      resource first. Every schedule of the device is harmless if and only if no update is under way. */
  lemma SetShapeIsSafeIff(s: Sys, start: nat, op: Op)
    requires PacedInv(s, start) && Enabled(s, Call(op)) && op.SetShape?
    ensures (forall k | 0 <= k <= |Do(s, Call(op)).ctrl| :: UpdateFinds(Ahead(Do(s, Call(op)), k)))
        <==> s.updates == []
  {
    if s.updates != [] {
      ReleasedTooEarly(s, start, op);
      var t, k := Do(s, Call(op)), |s.ctrl| + 2;
      assert Ahead(t, k).updates == s.updates;
      assert !UpdateFinds(Ahead(t, k));
    }
  }

  /** And so is the wait for the transfer: where no cursor was held the device has no resource of the new id yet. */
  lemma TheWaitIsNeeded(s: Sys, start: nat, op: Op)
    requires PacedInv(s, start) && Enabled(s, Call(op)) && Transfers(op) && s.driver.cursorBuf == None && s.ctrl == []
    ensures Do(s, Call(op)).driver.cursorBuf.Some? && Do(s, Call(op)).driver.cursorBuf.value !in s.panel.dev
  {
    assert ExecuteAll(s.panel.dev, s.ctrl) == s.panel.dev;
  }
}
