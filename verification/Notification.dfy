/** Notification suppression, in both directions, over all interleavings of driver and device: with event indices where
    they are negotiated, with the flags of the rings where not. Ghost counts are unbounded; decisions are taken by the
    functions of `Vring` on the 16-bit fields. Every step is at most one access to shared memory: exposing a buffer
    writes the available index, deciding about a kick reads what the device announced, and the notification comes
    later, since it is not serialised with other calls. */
module KickProtocol {
  import opened Bits
  import opened Vring

  /** The device polls, or has announced that it wants a kick, or sleeps until it gets one. */
  datatype Device = Awake | Armed | Asleep

  datatype Sys = Sys(
    q: Vq,
    exposed: nat,
    /** Value of `exposed` when the driver last decided whether to kick. */
    lastKick: nat,
    /** The driver is inside an add whose count of unkicked buffers reached its limit. */
    forced: bool,
    /** Notifications decided on but not yet sent. */
    owed: nat,
    taken: nat,
    device: Device,
    /** Notifications the device has reacted to. */
    seen: nat)

  datatype Step = Expose | Decide | DecideAlways | Send | NoSpace | Take | Suppress | Arm | Recheck | Wake

  ghost predicate Initial(s: Sys) {
    && s.q.num <= 0x8000
    && s.q.availIdx == s.q.availIdxShadow == s.q.numAdded == s.exposed == s.lastKick == s.taken == s.owed == 0
    && s.q.availEvent < U16
    && !s.forced && s.device == Awake && s.seen == s.q.notifications
  }

  ghost predicate Enabled(s: Sys, st: Step) {
    match st
    case Expose => !s.forced && s.exposed - s.taken < s.q.num
    case Decide => true
    case DecideAlways => !s.forced
    case Send => s.owed > 0
    case NoSpace => !s.forced
    case Take => s.device == Awake && s.taken < s.exposed
    case Suppress => s.device == Awake
    case Arm => s.device == Awake
    case Recheck => s.device == Armed
    case Wake => s.device == Asleep && s.seen < s.q.notifications
  }

  /** The device asks for a kick, by event index or flag. */
  function Announce(q: Vq, taken: nat): Vq {
    if q.event then q.(availEvent := Trunc16(taken)) else q.(usedNoNotify := false)
  }

  ghost function Do(s: Sys, st: Step): Sys
    requires Enabled(s, st)
  {
    match st
    case Expose =>
      var q := ExposeIndex(s.q);
      s.(q := q, exposed := s.exposed + 1, forced := q.numAdded == FORCE_KICK)
    case Decide =>
      s.(q := s.q.(numAdded := 0), lastKick := s.exposed, forced := false,
         owed := s.owed + if NeedsKick(s.q) then 1 else 0)
    case DecideAlways => s.(q := s.q.(numAdded := 0), lastKick := s.exposed, owed := s.owed + 1)
    case Send => s.(q := Notify(s.q), owed := s.owed - 1)
    case NoSpace => s.(q := Notify(s.q))
    case Take => s.(taken := s.taken + 1)
    case Suppress => s.(q := s.q.(usedNoNotify := true))
    case Arm => s.(q := Announce(s.q, s.taken), device := Armed)
    case Recheck => s.(device := if s.q.availIdx == Trunc16(s.taken) then Asleep else Awake)
    case Wake => s.(device := Awake, seen := s.q.notifications)
  }

  ghost predicate IsRun(states: seq<Sys>, steps: seq<Step>) {
    && |states| == |steps| + 1 && Initial(states[0])
    && forall i | 0 <= i < |steps| :: Enabled(states[i], steps[i]) && states[i + 1] == Do(states[i], steps[i])
  }

  /** What the device announced last stands. */
  predicate Announced(s: Sys) {
    if s.q.event then s.q.availEvent == Trunc16(s.taken) else !s.q.usedNoNotify
  }

  ghost predicate Inv(s: Sys) {
    && s.q.num <= 0x8000 && s.q.availEvent < U16
    && s.q.availIdx == s.q.availIdxShadow == Trunc16(s.exposed)
    && s.lastKick + s.q.numAdded == s.exposed
    && s.q.numAdded <= FORCE_KICK && (s.forced <==> s.q.numAdded == FORCE_KICK)
    && s.taken <= s.exposed <= s.taken + s.q.num
    && s.seen <= s.q.notifications
    && (s.device != Awake ==> Announced(s))
    && (s.device == Asleep && s.seen == s.q.notifications && s.owed == 0 ==> s.lastKick <= s.taken)
  }

  /** A kick is decided on the window of indices exposed since the previous decision, never on a shorter or wrapped
      one. */
  lemma KickWindow(q: Vq, exposed: nat, lastKick: nat)
    requires q.event && q.availEvent < U16 && q.availIdxShadow == Trunc16(exposed)
    requires lastKick + q.numAdded == exposed && q.numAdded < U16
    ensures NeedsKick(q) <==> exists i :: lastKick <= i < exposed && Trunc16(i) == q.availEvent
  {
    TruncSub(exposed, q.numAdded);
    NeedEventIsWindow(q.availEvent, exposed, lastKick);
  }

  /** A device that announced itself and fell asleep before these buffers is woken. */
  lemma DecideKeepsInv(s: Sys)
    requires Inv(s)
    ensures Inv(Do(s, Decide))
  {
    if s.q.event {
      KickWindow(s.q, s.exposed, s.lastKick);
      if s.device == Asleep && s.lastKick <= s.taken < s.exposed {
        assert Trunc16(s.taken) == s.q.availEvent;
      }
    }
  }

  lemma StepKeepsInv(s: Sys, st: Step)
    requires Inv(s) && Enabled(s, st)
    ensures Inv(Do(s, st))
  {
    match st
    case Expose => TruncStep(s.exposed);
    case Decide => DecideKeepsInv(s);
    case Recheck => TruncDifference(s.exposed, s.taken);
    case _ =>
  }

  lemma {:induction false} RunKeepsInv(states: seq<Sys>, steps: seq<Step>, i: nat)
    requires IsRun(states, steps) && i < |states|
    ensures Inv(states[i])
  {
    if i > 0 {
      RunKeepsInv(states, steps, i - 1);
      StepKeepsInv(states[i - 1], steps[i - 1]);
    }
  }

  /** No kick is missed: once the driver has decided about all buffers it exposed, a device that sleeps with no
      notification on its way has taken every one of them. */
  lemma NoMissedKick(states: seq<Sys>, steps: seq<Step>, i: nat)
    requires IsRun(states, steps) && i < |states|
    ensures var s := states[i];
      s.device == Asleep && s.seen == s.q.notifications && s.owed == 0 && s.q.numAdded == 0 ==> s.taken == s.exposed
  {
    RunKeepsInv(states, steps, i);
  }

  /** No kick is wasted either. With event indices one is decided exactly when the index that the device waits for was
      exposed since the last decision (the forced kick keeps that window exact in every run), else exactly when the
      device has not suppressed it. */
  lemma KicksSeeEverythingAdded(states: seq<Sys>, steps: seq<Step>, i: nat)
    requires IsRun(states, steps) && i < |states|
    ensures var s := states[i];
      NeedsKick(s.q) <==>
        if s.q.event then exists n :: s.lastKick <= n < s.exposed && Trunc16(n) == s.q.availEvent
        else !s.q.usedNoNotify
  {
    RunKeepsInv(states, steps, i);
    if states[i].q.event { KickWindow(states[i].q, states[i].exposed, states[i].lastKick); }
  }

  /** A kick is forced only when the count of exposed buffers that were not decided about is about to wrap. */
  lemma ForcedAtTheLimit(states: seq<Sys>, steps: seq<Step>, i: nat)
    requires IsRun(states, steps) && i < |states|
    ensures states[i].forced <==> states[i].exposed - states[i].lastKick == 65535
    ensures states[i].exposed - states[i].lastKick <= 65535
  {
    RunKeepsInv(states, steps, i);
  }

  /** What `virtqueue_add_buf` does to the queue at its end is exposing, and where the count is about to wrap,
      deciding and sending. */
  lemma ExposeIsTheseSteps(s: Sys)
    requires Inv(s) && Enabled(s, Expose)
    ensures var s1 := Do(s, Expose);
            if !s1.forced then s1.q == Vring.Expose(s.q)
            else
              var s2 := Do(s1, Decide);
              Vring.Expose(s.q) == if NeedsKick(s1.q) then Do(s2, Send).q else s2.q
  {
  }

  /** `virtqueue_kick` is deciding and, if so decided, sending. */
  lemma KickIsTheseSteps(s: Sys)
    requires Inv(s)
    ensures var s1 := Do(s, Decide); Vring.Kick(s.q) == if s1.owed > s.owed then Do(s1, Send).q else s1.q
  {
  }

  /** A list with something to read that finds no room wakes a sleeping device, so that it makes some. */
  lemma FailedAddWakes(s: Sys, g: Shape, sg: seq<Sg>, outNum: nat, token: Token, indirect: bool, phys: nat)
    requires Inv(s) && Valid(s.q, g) && sg != [] && 0 < outNum <= |sg| && token != 0 && s.device == Asleep
    requires AddBuf(s.q, g, sg, outNum, token, indirect, phys).0 != 0
    ensures var q := AddBuf(s.q, g, sg, outNum, token, indirect, phys).1; Enabled(s.(q := q), Wake)
  {
  }

  /** A queue just initialised over zeroed pages starts a run, in the mode that was asked for. */
  lemma FreshQueueStarts(q: Vq, event: bool)
    requires q.num <= 0x8000
    ensures var built := Initialized(Zeroed(q), event);
            built.event == event && Initial(Sys(built, 0, 0, false, 0, 0, Awake, built.notifications))
  {
  }
}

module CallbackProtocol {
  import opened Bits
  import opened Vring

  /** The driver polls, or has written the event index `event` and must still look at the used index, or waits for an
      interrupt. `due` is the number of buffers exposed when it asked. */
  datatype Driver = Polling | Written(event: nat, due: nat, delayed: bool) | Waiting(event: nat, due: nat)

  datatype Sys = Sys(
    q: Vq,
    exposed: nat,
    consumed: nat,
    published: nat,
    /** Value of `published` at the device's last event test. */
    signalled: nat,
    driver: Driver,
    /** The device raised an interrupt since the driver wrote the event index. */
    fired: bool)

  datatype Step =
    Expose | Get | DisableCb | EnableWrite | EnableDelayedWrite | EnableRead | Publish(n: nat) | Test | Wake

  ghost predicate Initial(s: Sys) {
    && s.q.num <= 0x8000 && s.q.usedEvent < U16 && s.q.numAdded < FORCE_KICK
    && s.q.availIdxShadow == s.q.lastUsedIdx == s.q.usedIdx == 0 && s.q.availNoInterrupt == s.q.noInterruptShadow
    && s.exposed == s.consumed == s.published == s.signalled == 0
    && s.driver == Polling
  }

  ghost predicate Enabled(s: Sys, st: Step) {
    match st
    case Expose => !s.driver.Written? && s.exposed - s.consumed < s.q.num
    case Get => s.driver.Polling? && MoreUsed(s.q)
    case DisableCb => s.driver.Polling?
    case EnableWrite => s.driver.Polling?
    case EnableDelayedWrite => s.driver.Polling?
    case EnableRead => s.driver.Written?
    // a batch of used entries; the event test follows before the next batch
    case Publish(n) => n > 0 && s.published + n <= s.exposed && s.signalled == s.published
    case Test => s.signalled < s.published
    case Wake => s.driver.Waiting? && s.fired
  }

  ghost function Do(s: Sys, st: Step): Sys {
    match st
    case Expose => s.(q := Vring.Expose(s.q), exposed := s.exposed + 1)
    case Get =>
      var idx := Trunc16(s.q.lastUsedIdx + 1);
      s.(q := s.q.(lastUsedIdx := idx, usedEvent := if s.q.noInterruptShadow then s.q.usedEvent else idx),
         consumed := s.consumed + 1)
    case DisableCb => s.(q := s.q.(noInterruptShadow := true, availNoInterrupt := true))
    case EnableWrite =>
      s.(q := EnableInterrupts(s.q, s.q.lastUsedIdx), driver := Written(s.consumed, s.exposed, false), fired := false)
    case EnableDelayedWrite =>
      s.(q := EnableInterrupts(s.q, s.q.lastUsedIdx + DelayedBufs(s.q)),
         driver := Written(s.consumed + (s.exposed - s.consumed) * 3 / 4, s.exposed, true), fired := false)
    case EnableRead =>
      if s.driver.Written? && (if s.driver.delayed then FewUsed(s.q, DelayedBufs(s.q)) else !MoreUsed(s.q))
      then s.(driver := Waiting(s.driver.event, s.driver.due)) else s.(driver := Polling)
    case Publish(n) => s.(q := s.q.(usedIdx := Trunc16(s.q.usedIdx + n)), published := s.published + n)
    case Test =>
      s.(fired := s.fired || Interrupts(s.q, Trunc16(s.signalled)), signalled := s.published)
    case Wake => s.(driver := Polling)
  }

  ghost predicate IsRun(states: seq<Sys>, steps: seq<Step>) {
    && |states| == |steps| + 1 && Initial(states[0])
    && forall i | 0 <= i < |steps| :: Enabled(states[i], steps[i]) && states[i + 1] == Do(states[i], steps[i])
  }

  ghost predicate Counts(s: Sys) {
    && s.q.num <= 0x8000 && s.q.usedEvent < U16 && s.q.numAdded < FORCE_KICK
    && s.q.availIdxShadow == Trunc16(s.exposed) && s.q.availNoInterrupt == s.q.noInterruptShadow
    && s.q.lastUsedIdx == Trunc16(s.consumed)
    && s.q.usedIdx == Trunc16(s.published)
    && s.consumed <= s.published <= s.exposed <= s.consumed + s.q.num
    && s.signalled <= s.published <= s.signalled + s.q.num
  }

  /** The event index lies before the end of what was outstanding. */
  ghost predicate Target(s: Sys, event: nat, due: nat) {
    s.q.usedEvent == Trunc16(event) && s.consumed <= event <= due <= s.exposed && (s.consumed < due ==> event < due)
  }

  ghost predicate Inv(s: Sys) {
    && Counts(s) && (!s.driver.Polling? ==> !s.q.availNoInterrupt)
    && (s.driver.Written? ==>
          && Target(s, s.driver.event, s.driver.due) && s.driver.due == s.exposed
          && s.driver.event == s.consumed + if s.driver.delayed then (s.exposed - s.consumed) * 3 / 4 else 0)
    && (s.driver.Waiting? ==> Target(s, s.driver.event, s.driver.due) && (s.fired || s.signalled <= s.driver.event))
  }

  lemma TestFires(s: Sys, event: nat)
    requires Counts(s) && s.q.usedEvent == Trunc16(event) && s.signalled <= event < s.published
    requires !s.q.availNoInterrupt
    ensures Interrupts(s.q, Trunc16(s.signalled))
  {
    NeedEventIsWindow(s.q.usedEvent, s.published, s.signalled);
  }

  lemma Differences(s: Sys)
    requires Counts(s)
    ensures MoreUsed(s.q) <==> s.consumed < s.published
    ensures DelayedBufs(s.q) == (s.exposed - s.consumed) * 3 / 4
    ensures Trunc16(s.q.usedIdx - s.q.lastUsedIdx) == s.published - s.consumed
  {
    TruncDifference(s.exposed, s.consumed);
    TruncDifference(s.published, s.consumed);
  }

  /** Setting the event index, at once or delayed. */
  lemma WriteKeepsInv(s: Sys, st: Step)
    requires Inv(s) && Enabled(s, st) && (st.EnableWrite? || st.EnableDelayedWrite?)
    ensures Inv(Do(s, st))
  {
    assert Trunc16(Trunc16(s.consumed)) == Trunc16(s.consumed);
    Differences(s);
    TruncAdd(s.consumed, DelayedBufs(s.q));
  }

  lemma TestKeepsInv(s: Sys)
    requires Inv(s) && Enabled(s, Test)
    ensures Inv(Do(s, Test))
  {
    if s.driver.Waiting? && !s.fired && s.driver.event < s.published {
      TestFires(s, s.driver.event);
    }
  }

  lemma GetKeepsInv(s: Sys)
    requires Inv(s) && Enabled(s, Get)
    ensures Inv(Do(s, Get))
  {
    Differences(s);
    TruncStep(s.consumed);
  }

  lemma PublishKeepsInv(s: Sys, n: nat)
    requires Inv(s) && Enabled(s, Publish(n))
    ensures Inv(Do(s, Publish(n)))
  {
    TruncAdd(s.published, n);
  }

  lemma StepKeepsInv(s: Sys, st: Step)
    requires Inv(s) && Enabled(s, st)
    ensures Inv(Do(s, st))
  {
    match st
    case Expose => TruncStep(s.exposed);
    case Get => GetKeepsInv(s);
    case EnableWrite => WriteKeepsInv(s, st);
    case EnableDelayedWrite => WriteKeepsInv(s, st);
    case EnableRead => Differences(s);
    case Publish(n) => PublishKeepsInv(s, n);
    case Test => TestKeepsInv(s);
    case _ =>
  }

  lemma TruncAdd(x: int, y: int)
    ensures Trunc16(Trunc16(x) + y) == Trunc16(x + y)
  {
  }

  lemma {:induction false} RunKeepsInv(states: seq<Sys>, steps: seq<Step>, i: nat)
    requires IsRun(states, steps) && i < |states|
    ensures Inv(states[i])
  {
    if i > 0 {
      RunKeepsInv(states, steps, i - 1);
      StepKeepsInv(states[i - 1], steps[i - 1]);
    }
  }

  /** Re-enabling callbacks loses no wake-up. While the driver waits and the device has done its event test without
      raising an interrupt, completions have not passed the event index; if buffers were outstanding at the call, one
      of those is still not completed. So the interrupt comes no later than the completion of the last of them. */
  lemma NoLostWakeup(states: seq<Sys>, steps: seq<Step>, i: nat)
    requires IsRun(states, steps) && i < |states| && states[i].driver.Waiting?
    ensures var s := states[i];
      s.signalled == s.published && !s.fired ==>
        s.published <= s.driver.event && (s.consumed < s.driver.due ==> s.published < s.driver.due)
  {
    RunKeepsInv(states, steps, i);
  }

  /** Both calls answer true exactly when completions have not passed the event index they wrote. */
  lemma EnableAnswer(states: seq<Sys>, steps: seq<Step>, i: nat)
    requires IsRun(states, steps) && i < |steps| && steps[i] == EnableRead
    ensures states[i + 1].driver.Waiting? <==> states[i].published <= states[i].driver.event
  {
    RunKeepsInv(states, steps, i);
    Differences(states[i]);
    assert Enabled(states[i], steps[i]);
  }

  /** What `virtqueue_get_buf` does to the indices and the event index is the step `Get`. */
  lemma GetIsTake(s: Sys, g: Shape, h: nat)
    requires Enabled(s, Get) && Shaped(s.q, g) && h < s.q.num && g.chains[h] != []
    ensures var q, q' := Do(s, Get).q, Take(s.q, g, h);
            q' == q.(desc := q'.desc, data := q'.data, freeHead := q'.freeHead, numFree := q'.numFree)
  {
  }

  /** Nothing asks the device for an interrupt that it did not raise yet. */
  predicate SameSilence(s: Sys, s': Sys) {
    && s'.q.noInterruptShadow && s'.q.event == s.q.event && s'.q.usedEvent == s.q.usedEvent
    && (!s.q.event ==> s'.fired == s.fired)
  }

  lemma SilentStep(s: Sys, st: Step)
    requires Counts(s) && Enabled(s, st) && !st.EnableWrite? && !st.EnableDelayedWrite?
    requires s.q.noInterruptShadow || st == DisableCb
    ensures SameSilence(s, Do(s, st))
  {
    match st
    case Expose =>
    case Get =>
    case DisableCb =>
    case EnableRead =>
    case Publish(n) =>
    case Test =>
    case Wake =>
  }

  /** From a disabling call to the next enabling one the device does not interrupt where it looks at the flag, and the
      event index stays where it looks at that. */
  lemma {:induction false} SilentUntilEnabled(states: seq<Sys>, steps: seq<Step>, i: nat, j: nat)
    requires IsRun(states, steps) && i < j < |states| && steps[i] == DisableCb
    requires forall k | i < k < j :: !steps[k].EnableWrite? && !steps[k].EnableDelayedWrite?
    ensures SameSilence(states[i], states[j])
  {
    if i < j - 1 {
      SilentUntilEnabled(states, steps, i, j - 1);
    }
    RunKeepsInv(states, steps, j - 1);
    SilentStep(states[j - 1], steps[j - 1]);
  }

  /** A queue just initialised over zeroed pages starts a run, in the mode that was asked for. */
  lemma FreshQueueStarts(q: Vq, event: bool)
    requires q.num <= 0x8000
    ensures var built := Initialized(Zeroed(q), event);
            built.event == event && !built.noInterruptShadow && Initial(Sys(built, 0, 0, 0, 0, Polling, false))
  {
  }
}
