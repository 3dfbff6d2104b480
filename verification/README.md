# A verified model of the VirtIO GPU display driver

The repository is a Windows display-only driver for the virtio GPU and the VirtIO library under it. This project models
the parts whose correctness is a matter of protocol, arithmetic or order, and proves what they promise:

- **The split virtqueue** (`Vring`, `Virtqueues`, `VringProtocol`, `VringRuns`, `VringTeardown`). `Virtqueues.Virtqueue` is
  the driver's object over shared arrays with the loops of `VirtIORing.c`. Each method is proved to compute an operation
  of `Vring` on the abstract state `Vq`, together with a bookkeeping value `Shape`: the free list as a path, one chain for
  each head, and an inverse map that says where each descriptor is. `VringProtocol` interleaves those operations with a
  device that takes heads, completes them in any order, fills used elements one by one and publishes any number of them
  with one write of the index; all its counts are unbounded and the queue holds only their low 16 bits. `VringRuns` states
  what holds in every run. `VringAnyDevice` has a device that writes whatever it likes to its part of the ring.
- **Notification suppression** (`KickProtocol`, `CallbackProtocol`, both in `Notification.dfy`) in both directions, with
  event indices and with flags.
- **Memory layout and queue sizes** (`VringLayout`).
- **The software blitter** (`Pixels`, `Bitops`). The meaning of a blit is a gather: each destination byte belongs to at
  most one pixel, and takes its value from the source pixel at the same unrotated point. The pointer-stepping loops and
  the row-copying fast path are both proved equal to it.
- **Presenting** (`Present`): blits, the update rectangle, the transfer and flush commands, and the host's copy and the
  screen over any number of frames.
- **Interrupt and deferred routines** (`IsrDpc`), as a state machine. A step is one access to state that another party
  writes, or the locked part of `virtqueue_get_buf` between its look at the used index and its write of the event index:
  the device may publish and test in between, another deferred routine has to wait for the lock.
- **Device resources** (`ResourceLifecycle`): the id bitmap, framebuffer and cursor objects, and the stream of commands as
  the device executes it. `Scanout` adds what the screen shows of it. `CursorOrder` runs it against the cursor queue, which
  the device executes at its own pace.
- **The scatter list of a command** (`ScatterList`), and which framebuffers get their backing through it (`Backing`).
- **The PCI capability walk** (`PciCaps`) and **the generation-guarded configuration read** (`ConfigRead`).

`Options` is the type of values that may be missing. `Bits` holds bytes, pages, and the arithmetic of masks, powers of two
and 16-bit truncation. Indices are reduced with the code's masks in the methods and shown to be remainders there.

## Assumptions about the other side

- Memory accesses interleave sequentially consistently: all three barriers of the library are full (`VirtIO/osdep.h:51-53`).
- A device completes only heads it took, each once, and writes a used element before it publishes it. It tests whether to
  interrupt after every batch it publishes, and looks at the available index again after it announced an event index.
- Section 5.7.6.8 of the VIRTIO specification (version 1.1) is the meaning of the control commands. A command that the
  device rejects changes nothing.
- The device executes the commands of each queue in order, and completes a command after it executed it. UPDATE_CURSOR
  needs its resource; MOVE_CURSOR looks at the position only.
- Commands other than the attachment of a backing find space in the ring, and so does an attachment whose list is built.
- The physical address of a page is not zero, so that the list of a segment has an element for each of its pages
  (`viogpudo/viogpu_queue.cpp:826-840`).

## Where the code does not keep a wider claim

- An interrupt status of 3 (queue and configuration) is handled as a configuration change alone. A step of driver or device
  keeps every completion noticed if and only if it is not a status read that finds both bits while the bit of the queues
  was the only notice of some completion (`IsrDpc.StepKeepsInv`); in runs without such a read no completion is stranded
  (`IsrDpc.NoStrandedCompletion`). After such a read, and after no other, a driver left alone leaves the completion in the
  ring (`IsrDpc.ReadStrandsIff`, and from an idle driver `IsrDpc.BothBitsStrand`); `IsrDpc.CoalescedInterruptStrands` is a
  run in which that happens.
- An interrupt status of 2 (configuration alone) is answered but not looked at: a change is reported if and only if its
  interrupt is found together with one of a queue (`IsrDpc.ChangeIsReportedIff`).
- The page list of a framebuffer is data of a single command, and `QueueBuffer` drops a command with more than 30 pages of
  data without an answer. A framebuffer gets its backing if and only if the list was allocated and it has at most 7680
  pages, that is 30 MiB (`ResourceLifecycle.FrameBufferStream`, `Backing.AttachReachesIff`). The modes 4480x2520 and
  5120x2880, and no others of the table, have more (`Backing.TwoModesHaveNoBacking`): the device rejects the transfer
  (`ResourceLifecycle.LargeModeIsRejected`) and neither the host's copy nor the screen changes (`Present.HostStays`,
  `Scanout.FrameBufferIsShownIff`).
- `CreateFrameBufferObj` ignores the answer of `GpuObjectAttach`. When the list could not be allocated the object keeps the
  id 0. Destroying it frees the reserved id, and the id that was taken, with its resource, is left to nobody
  (`ResourceLifecycle.RefusedFrameBuffer`). A cursor whose list could not be allocated is given up without giving its id and
  resource back (`ResourceLifecycle.RefusedCursor`). What is lost stays so (`ResourceLifecycle.LossIsForGood`): at the end of
  a run exactly the reserved ids and those in use are set, and the device has exactly the resources in use, if and only if no
  creation was refused the memory for its list (`ResourceLifecycle.TidyIff`, `ResourceLifecycle.ResourcesAreConserved`).
- `ExecutePresentDisplayOnly` does not test for a framebuffer. Presents find one if and only if each comes after a mode set of
  which the last got memory for its segment (`ResourceLifecycle.PresentsIff`); `ResourceLifecycle.RefusedSegmentThenPresent`
  is a run in which one does not.
- `SetPointerShape` waits until the resource of the cursor is filled, but not until it is shown. No UPDATE_CURSOR names a
  resource that the device does not have as long as a shape is set only after the one before was shown
  (`CursorOrder.UpdatesFindTheirResource`); set earlier, the device may have released the resource: all its schedules are
  harmless if and only if no update is under way (`CursorOrder.SetShapeIsSafeIff`).
- The update rectangle is not turned with the image. A present to a framebuffer with its backing is coherent for all
  contents if and only if the places of all pixels presented lie in the update rectangle and that lies on the screen
  (`Present.CoherentIff`). Without rotation they do
  (`Present.PlainPresentReaches`); turned by 90 degrees, which the driver offers, `Present.RotatedPixelIsMissed` is a present
  that is not.
- The loop over the data of a command does not advance at an unmapped page (`ScatterList.UnmappedPageHangs`): it ends if and
  only if the pages that it comes to are mapped (`ScatterList.DataLoopEndsIff`). The only data queued this way comes from the
  nonpaged pool, so no caller in the repository gets there.
- One scatter element per page of virtual addresses names the right physical bytes for every mapping exactly when the data
  starts on a page boundary or does not leave its page (`ScatterList.DataIsNamedIff`). The only data the driver queues this
  way comes from the pool, which places blocks so.
- The scale-down loop of `vio_modern_setup_vq` can end with no entries, which the power-of-two test accepts
  (`VringLayout.ScaleDownIsUsable`, `VringLayout.AcceptsPowersAndZero`).
- An indirect table has 16-bit links: it holds the caller's list exactly when that has at most 2^16 elements
  (`VringRuns.TableWalkIff`).
- The register shows 8 bits of the configuration generation. With `n` generation steps during one attempt at two fields or
  more, what is accepted can be a mixture if and only if `n` is a positive multiple of 256 (`ConfigRead.TearsIff`).
- The loop of `virtio_cread_many` has no bound. On a modern device it ends if and only if some attempt is accepted
  (`ConfigRead.LoopEndsIff`); `ConfigRead.RestlessNeverEnds` is a device with one change to an attempt that keeps it going.
- A legacy device is read byte by byte and has no generation: it gives the contents of one instant, whatever it does, if
  and only if at most one byte is read (`ConfigRead.LegacyWholeIff`).
- When several usable capabilities of one type exist the walk keeps the last; section 4.1.4.1 of the VIRTIO specification
  asks for the first. They are the same if and only if there are no two (`PciCaps.LastIsFirstIff`); `PciCaps.SecondIsKept`
  is a configuration where they differ.
- The outer loop over the capabilities has no bound. It ends if and only if no vendor capability that it meets leads back
  to itself (`PciCaps.WalkEndsIff`); `PciCaps.SelfLoopHangs` is a configuration with a loop of one.

## Model

| member | source | states |
|---|---|---|
| `Bits.MaskIsRemainder` | VirtIO/VirtIORing.c:266 | Masking an index with `num - 1` is its remainder, for every power of two |
| `Bits.PowerOfTwoTest` | VirtIO/VirtIOPCIModern.c:255-258 | `n & (n - 1)` is zero exactly for the powers of two |
| `Bits.TruncKeepsSlot` | VirtIO/VirtIORing.c:264-274 | Reducing a free-running index to 16 bits does not move its ring slot, for every ring size up to 2^16 |
| `Vring.MaskIsSlot` | VirtIO/VirtIORing.c:536 | The masked index of a ring of any legal size is its slot |
| `Vring.SlotsDistinct` | VirtIO/VirtIORing.c:264-267 | Indices less than a ring apart never share a slot |
| `Vring.NeedEventIsWindow` | VirtIO/virtio_ring.h:168-176 | The 16-bit test holds exactly when an index with the event's low bits lies in the window of unbounded indices just passed |
| `Vring.Partition` | VirtIO/VirtIORing.c:640-647 | Every descriptor is on the free list or in exactly one live chain, never both, and at one place only |
| `Vring.FreshIsValid` | VirtIO/VirtIORing.c:612-648 | A queue just initialised satisfies the invariant, although the last descriptor keeps whatever link it had |
| `Vring.AllocKeepsShape` | VirtIO/VirtIORing.c:236-262 | Taking descriptors for a buffer, direct or indirect, keeps the partition and makes one more chain |
| `Vring.ReleaseKeepsShape` | VirtIO/VirtIORing.c:379-402 | Splicing a chain onto the unterminated free list keeps the partition and leaves one chain fewer |
| `Vring.AddKeepsValid` | VirtIO/VirtIORing.c:236-279 | A successful add keeps the driver's invariant, including the bound on unkicked buffers |
| `Vring.TakeKeepsValid` | VirtIO/VirtIORing.c:549-559 | Taking a used buffer back keeps the driver's invariant |
| `Vring.UnuseKeepsValid` | VirtIO/VirtIORing.c:692-702 | Detaching an unused buffer keeps the driver's invariant |
| `Vring.NotificationsKeepValid` | VirtIO/VirtIORing.c:298-463 | Kicks and callback control keep it, whatever event index they write |
| `Vring.FirstLiveIsFirst` | VirtIO/VirtIORing.c:692-694 | The search finds the lowest head with a token, and nothing exactly when there is none |
| `Vring.FindsIff` | VirtIO/VirtIORing.c:522-549 | Whatever the used ring holds, a buffer is found if and only if there is a new element and its id is a head in use; then with that head's token and the element's length |
| `Vring.AddSucceedsIff` | VirtIO/VirtIORing.c:207-233 | An add succeeds if and only if there are enough free descriptors: one with a table and more than one element, else one for each element; it takes exactly those |
| `Vring.LiveAtMostTotal` | VirtIO/VirtIORing.c:703-704 | No more buffers are outstanding than descriptors in chains; without live heads no descriptor is in use |
| `Virtqueues.Virtqueue.constructor` | VirtIO/VirtIORing.c:650-674 | A queue over arbitrary pages gets the initial driver state, and the invariant if the pages were cleared where it matters |
| `Virtqueues.Virtqueue.Initialize` | VirtIO/VirtIORing.c:612-648 | Private state reset, descriptors linked, shared pages otherwise untouched |
| `Virtqueues.Virtqueue.WriteTable` | VirtIO/VirtIORing.c:133-151 | The two loops store the table of the caller's list: readable then writable elements, terminated; the rest of the memory is unchanged |
| `Virtqueues.Virtqueue.AddIndirect` | VirtIO/VirtIORing.c:122-166 | One free descriptor points to that table and the free list moves on by one |
| `Virtqueues.Virtqueue.FillRun` | VirtIO/VirtIORing.c:240-253 | Each loop fills the next descriptors along the free list and stops at the right one |
| `Virtqueues.Virtqueue.FillChain` | VirtIO/VirtIORing.c:240-255 | The descriptors hold the caller's list and only the last does not continue |
| `Virtqueues.Virtqueue.AddDirect` | VirtIO/VirtIORing.c:236-258 | A direct add reserves exactly the first descriptors of the free list |
| `Virtqueues.Virtqueue.AddHead` | VirtIO/VirtIORing.c:260-279 | Token, ring slot and index are set as specified, and the invariant holds for the new shape |
| `Virtqueues.Virtqueue.AddBuf` | VirtIO/VirtIORing.c:181-285 | Result, whole queue state and indirect table for every input: success direct or indirect, and no space with its forced notification |
| `Virtqueues.Virtqueue.KickPrepare` | VirtIO/VirtIORing.c:298-329 | The answer is the specified test on the state before, and the count of unkicked buffers is cleared |
| `Virtqueues.Virtqueue.Kick` | VirtIO/VirtIORing.c:355-359 | Notifies exactly when the test asks for it |
| `Virtqueues.Virtqueue.KickAlways` | VirtIO/VirtIORing.c:365-377 | Notifies and clears the count |
| `Virtqueues.Virtqueue.FindEnd` | VirtIO/VirtIORing.c:383-396 | The walk along NEXT flags ends at the last descriptor of the head's chain and counts the others |
| `Virtqueues.Virtqueue.DetachBuf` | VirtIO/VirtIORing.c:379-402 | The whole chain is in front of the old free list and the token is cleared |
| `Virtqueues.Virtqueue.GetBuf` | VirtIO/VirtIORing.c:513-567 | All outcomes: nothing used, an id out of range, an id that is no head, and a buffer with its token and length; a failure changes nothing but the length |
| `Virtqueues.Virtqueue.EnableCb` | VirtIO/VirtIORing.c:420-444 | Interrupts enabled, event index at the last used index; the answer tells whether nothing was used since |
| `Virtqueues.Virtqueue.EnableCbDelayed` | VirtIO/VirtIORing.c:582-609 | The same with the event index three quarters into what is outstanding |
| `Virtqueues.Virtqueue.DisableCb` | VirtIO/VirtIORing.c:455-463 | The flag and its shadow are set, nothing else changes |
| `Virtqueues.Virtqueue.DetachUnusedBuf` | VirtIO/VirtIORing.c:684-708 | Returns the token of the lowest live head and takes one index back, or NULL with the free list complete |
| `Virtqueues.Virtqueue.Shutdown` | VirtIO/VirtIORing.c:482-495 | From any valid state the pages are zeroed and the driver state is the initial one |
| `VringTeardown.DrainReturnsEachOnce` | VirtIO/VirtIORing.c:684-708 | Repeated detaching returns every outstanding token exactly once, then all descriptors are free and the available index is back at the last used index |
| `VringTeardown.ShutdownForgets` | VirtIO/VirtIORing.c:477-495 | After a shutdown the state is that of a queue just built over zeroed pages, whatever it was |
| `VringProtocol.CountBounds` | VirtIO/VirtIORing.c:404-407 | Consumed, published, taken and exposed counts are in order and span at most a ring |
| `VringProtocol.GetFinds` | VirtIO/VirtIORing.c:527-550 | `virtqueue_get_buf` finds exactly the next published completion, with the token and length that belong to it |
| `VringProtocol.PrepareKeepsInv` | VirtIO/VirtIORing.c:236-267 | Writing a buffer disturbs no buffer the device still has to read |
| `VringProtocol.ExposeKeepsInv` | VirtIO/VirtIORing.c:271-279 | Exposing it keeps the invariant across 16-bit wraps and the forced kick |
| `VringProtocol.GetKeepsInv` | VirtIO/VirtIORing.c:513-567 | Taking a buffer back keeps the invariant of driver and device together |
| `VringProtocol.TakeHeadKeepsInv` | VirtIO/VirtIORing.c:266-273 | So does the device when it reads a head |
| `VringProtocol.WriteUsedKeepsInv` | VirtIO/VirtIORing.c:536-538 | Writing a used element, any number ahead of the published index, overwrites none that the driver has not read |
| `VringProtocol.PublishKeepsInv` | VirtIO/VirtIORing.c:404-407 | Publishing any number of written elements with one write of the index makes them the driver's next completions, in order |
| `VringProtocol.StepKeepsInv` | VirtIO/VirtIORing.c:181-609 | Every step of driver and device keeps the invariant |
| `VringRuns.RunKeepsInv` | VirtIO/VirtIORing.c:181-609 | The invariant holds in every state of every run from a fresh queue |
| `VringRuns.TokensComeBackOnce` | VirtIO/VirtIORing.c:513-567 | In every run the tokens returned are those of distinct buffers that the device took and published, in publishing order with the published lengths, and no others |
| `VringRuns.GetReturnsNextCompletion` | VirtIO/VirtIORing.c:513-567 | A get returns the next completion, and NULL only when everything published was returned |
| `VringRuns.GetArmsNext` | VirtIO/VirtIORing.c:552-559 | In every run a get that returned a buffer with callbacks enabled leaves an event index at which the next completion interrupts; with callbacks disabled it leaves the event index alone |
| `VringRuns.CountsInOrder` | VirtIO/VirtIORing.c:264-274 | In every run consumed <= published <= taken <= exposed, exposed minus consumed is the number of live heads, and free plus used descriptors make up the ring |
| `VringRuns.DeviceTakesInOrder` | VirtIO/VirtIORing.c:264-273 | The head the device reads is that of the next buffer added: no available slot was overwritten |
| `VringRuns.DeviceReadsTheBuffer` | VirtIO/VirtIORing.c:133-165 | Walking from the head of any live buffer, direct or indirect, yields exactly the caller's list |
| `VringRuns.TableWalkIff` | VirtIO/VirtIORing.c:134-151 | An indirect table denotes the caller's list if and only if that has at most 2^16 elements |
| `VringRuns.BufferIsStable` | VirtIO/VirtIORing.c:239-258 | What the device reads for a buffer is the same in any two states in which the buffer is outstanding |
| `VringRuns.AddBufIsTwoSteps` | VirtIO/VirtIORing.c:260-273 | A successful `virtqueue_add_buf` is the step that writes the buffer followed by the one that exposes it |
| `VringRuns.FailedAddIsNoSpace` | VirtIO/VirtIORing.c:223-233 | A failed one is -ENOSPC with the step that only notifies, if there is something to read, and with nothing at all if not |
| `VringRuns.IdleIsValid` | VirtIO/VirtIORing.c:181-285 | Between calls the precondition of the driver's methods holds in every run |
| `VringAnyDevice.TokensBalance` | VirtIO/VirtIORing.c:536-551 | Against a device that writes anything to its part of the ring, in every run the tokens added are those outstanding and those returned: none comes back twice or without having been added |
| `KickProtocol.KickWindow` | VirtIO/VirtIORing.c:309-323 | The test covers exactly the indices exposed since the previous decision |
| `KickProtocol.KicksSeeEverythingAdded` | VirtIO/VirtIORing.c:276-323 | In every run a kick is decided exactly when the index that the device waits for was exposed since the last decision, or without event indices exactly when the device has not suppressed it |
| `KickProtocol.NoMissedKick` | VirtIO/VirtIORing.c:298-329 | In every run, in both modes, with separate steps for the index write, the read of what the device announced, and the notification: a device that sleeps with no notification due or on its way has taken everything the driver decided about |
| `KickProtocol.ExposeIsTheseSteps` | VirtIO/VirtIORing.c:271-279 | The end of an add is the index write followed, where the count is about to wrap, by the decision and the notification |
| `KickProtocol.KickIsTheseSteps` | VirtIO/VirtIORing.c:355-359 | `virtqueue_kick` is the decision and, if so decided, the notification |
| `KickProtocol.ForcedAtTheLimit` | VirtIO/VirtIORing.c:274-279 | A kick is forced exactly at 65535 buffers exposed since the last decision, and there are never more |
| `KickProtocol.FailedAddWakes` | VirtIO/VirtIORing.c:226-230 | After an add without room of a list with something to read, a sleeping device has a notification that it has not reacted to |
| `KickProtocol.FreshQueueStarts` | VirtIO/VirtIORing.c:612-637 | A queue just initialised starts such a run, with event indices exactly when asked for |
| `CallbackProtocol.EnableAnswer` | VirtIO/VirtIORing.c:435-443 | Both enabling calls answer true exactly when completions have not passed the index they wrote |
| `CallbackProtocol.NoLostWakeup` | VirtIO/VirtIORing.c:582-609 | After a true answer the device's test, of event index or flag, fires no later than the completion of the last buffer outstanding at the call |
| `CallbackProtocol.GetIsTake` | VirtIO/VirtIORing.c:551-559 | The step of this protocol that gets a buffer is what `virtqueue_get_buf` does to indices and event index |
| `CallbackProtocol.SilentUntilEnabled` | VirtIO/VirtIORing.c:455-463 | From a disabling call to the next enabling one the flag keeps the device silent, or the event index stands |
| `CallbackProtocol.FreshQueueStarts` | VirtIO/VirtIORing.c:612-637 | A queue just initialised starts such a run, with callbacks enabled |
| `VringLayout.MaskAligns` | VirtIO/virtio_ring.h:150-151 | The masked addition is rounding up to the alignment |
| `VringLayout.LayoutIsSound` | VirtIO/virtio_ring.h:144-162 | Descriptors, available ring and used ring are aligned, follow each other, and end exactly at `vring_size` |
| `VringLayout.PartsAreApart` | VirtIO/virtio_ring.h:69-162 | Every descriptor, flag, index, ring entry and event word has its own bytes inside the ring's memory; each event word follows the last entry of a ring; there is no more padding than alignment needs |
| `VringLayout.RingFitsPages` | VirtIO/VirtIOPCIModern.c:224-228 | The pages allocated for a ring hold it |
| `VringLayout.LegacyControlBlockFits` | VirtIO/VirtIOPCILegacy.c:151-155 | One legacy allocation holds the ring and behind it the control block with its tokens |
| `VringLayout.AcceptsPowersAndZero` | VirtIO/VirtIORing.c:661-665 | The size test lets through exactly the powers of two and zero |
| `VringLayout.ScaleDown` | VirtIO/VirtIOPCIModern.c:289-296 | The loop ends with the size halved once for every failed attempt, or fails with no entries left |
| `VringLayout.ScaleDownIsUsable` | VirtIO/VirtIOPCIModern.c:289-310 | The scaled size is at least one if and only if one of the first k + 1 attempts succeeded, and then a power of two |
| `VringLayout.ModernBlockSuffices` | VirtIO/VirtIOPCIModern.c:260-306 | The control block sized for the first request suffices for every scaled size, and the pages hold its ring |
| `Pixels.PackUnpack` | viogpudo/bitops.cpp:18-41 | Widening a 16-bit pixel and narrowing it again gives it back |
| `Pixels.PackedLevels` | viogpudo/bitops.cpp:18-20 | A 16-bit pixel holds the upper bits of red, green and blue, blue in the low end |
| `Pixels.UnpackedLevels` | viogpudo/bitops.cpp:39-41 | Widened they are the upper bits of bytes, with a zero alpha byte |
| `Pixels.ConvertBack` | viogpudo/bitops.cpp:172-212 | What was written for a pixel converts back to its bytes, for every reversible pair of depths |
| `Pixels.NarrowedBack` | viogpudo/bitops.cpp:186-202 | A 32-bit pixel narrowed to 16 bits and widened again keeps the upper bits of each channel |
| `Pixels.NarrowedTo8` | viogpudo/bitops.cpp:26-28 | Narrowed to 8 bits it keeps one of six levels of each channel |
| `Bitops.GetPitches` | viogpudo/bitops.cpp:45-75 | The pitches are the address differences between neighbouring points, for every rotation |
| `Bitops.GetRowStart` | viogpudo/bitops.cpp:77-120 | The start is the address of the rectangle's rotated top-left point |
| `Bitops.Addresses` | viogpudo/bitops.cpp:83-110 | The address of a point for every rotation and offset, written out from the corner of the surface |
| `Bitops.Affine` | viogpudo/bitops.cpp:211-216 | One step right or down changes the address by the same pitch everywhere |
| `Bitops.PixelOfByte` | viogpudo/bitops.cpp:83-110 | No byte belongs to two pixels when the pitch covers a row |
| `Bitops.ByteOfPixel` | viogpudo/bitops.cpp:83-110 | Every byte is found again from its pixel |
| `Bitops.PixelInside` | viogpudo/bitops.cpp:77-120 | A shown pixel lies inside the memory of a surface whose rows fit |
| `Bitops.PixelStep` | viogpudo/bitops.cpp:172-212 | Writing one pixel through the pointers adds exactly that point to what was blitted |
| `Bitops.CopyPixel` | viogpudo/bitops.cpp:172-210 | Each depth combination stores the converted pixel and no other byte |
| `Bitops.CopyRow` | viogpudo/bitops.cpp:168-213 | The pixel loop blits the points of a row |
| `Bitops.CopyRect` | viogpudo/bitops.cpp:161-217 | The row loop blits the points of a rectangle |
| `Bitops.CopyBitsGeneric` | viogpudo/bitops.cpp:139-219 | The pointer-stepping loops compute the gather over all rectangles |
| `Bitops.RowStep` | viogpudo/bitops.cpp:251-255 | Copying a row's bytes at once is blitting its pixels |
| `Bitops.CopyBits32` | viogpudo/bitops.cpp:222-258 | The fast path computes the same gather, also for overlapping rectangles |
| `Bitops.BltBits` | viogpudo/bitops.cpp:261-288 | The dispatch does not show in the result |
| `Bitops.PointsAreCovered` | viogpudo/bitops.cpp:155-167 | The points visited are exactly those of the rectangles |
| `Bitops.BlitAt` | viogpudo/bitops.cpp:139-219 | After a blit every covered pixel holds the converted source pixel at the same point |
| `Bitops.BlitElsewhere` | viogpudo/bitops.cpp:172-178 | Every byte not written for a covered point is unchanged, alpha bytes included |
| `Bitops.RoundTrip` | viogpudo/bitops.cpp:52-117 | An image blitted with any rotation, offset and reversible depth and read back is restored pixel by pixel |
| `Bitops.RoundTripRestores` | viogpudo/bitops.cpp:171-212 | Read back over itself, its whole memory is as before |
| `Present.HullGrows` | viogpudo/viogpudo.cpp:2797-2803 | Joining one more rectangle keeps the box the least one |
| `Present.FindUpdateRect` | viogpudo/viogpudo.cpp:2779-2825 | The result is the least rectangle that contains all moved and dirty ones; the flag tells whether there are any |
| `Present.ExecutePresentDisplayOnly` | viogpudo/viogpudo.cpp:2827-2922 | The framebuffer after all blits, and the two commands for the update rectangle or the whole screen |
| `Present.PresentedPixel` | viogpudo/viogpudo.cpp:2850-2893 | After a present with any rotation every pixel of its rectangles holds, at its turned place, the converted pixel at its row times the source pitch plus its column times the source pixel size |
| `Present.PresentIsReady` | viogpudo/viogpudo.cpp:2868-2877 | That the rectangles lie in the image, whose width and height are exchanged for 90 and 270 degrees, is all the blitter needs |
| `Present.SamePlace` | viogpudo/viogpudo.cpp:2904 | The offset addresses the rectangle's top-left pixel: the device reads each byte from its own place |
| `Present.UpdateRectOnScreen` | viogpudo/viogpudo.cpp:2895-2902 | With all rectangles on the screen so is the update rectangle |
| `Present.PresentIsCoherent` | viogpudo/viogpudo.cpp:2878-2919 | For a present with any rotation whose pixels are all transferred: if the host's copy and the screen equalled the framebuffer before, they do after |
| `Present.CoherentIff` | viogpudo/viogpudo.cpp:2894-2919 | They do so for all contents if and only if the framebuffer has its backing, the update rectangle lies on the screen, and every pixel presented is shown inside it |
| `Present.PlainPresentReaches` | viogpudo/viogpudo.cpp:2894-2902 | Without rotation that is so for all rectangles on the screen |
| `Present.RotatedPixelIsMissed` | viogpudo/viogpudo.cpp:2902-2904 | Turned by 90 degrees it is not so for the top-left pixel alone, on any screen of more than one row |
| `Present.FirstTransferIff` | viogpudo/viogpudo.cpp:3602-3604 | Transfer and flush after creation make framebuffer, host and screen equal, whatever they held, if and only if the framebuffer has at most 7680 pages |
| `Present.HostFollowsGuest` | viogpudo/viogpudo.cpp:2827-2922 | Over any number of such frames, each with its rotation, host and screen show the framebuffer |
| `Present.HostStays` | viogpudo/viogpudo.cpp:2878-2919 | One without backing is never shown: the host's copy and the screen stay what they were over any number of frames |
| `Backing.AttachReachesIff` | viogpudo/viogpu_queue.cpp:460-481 | An attach command is queued if and only if it lists at most 7680 pages |
| `Backing.AttachAnywhere` | viogpudo/viogpu_queue.cpp:215-279 | Wherever command and list are in memory |
| `Backing.TwoModesHaveNoBacking` | viogpudo/viogpudo.cpp:3276-3309 | Of the offered modes exactly 4480x2520 and 5120x2880 are too large |
| `IsrDpc.Adapter.InterruptRoutine` | viogpudo/viogpudo.cpp:3420-3449 | The bits set and the answer for every status value |
| `IsrDpc.Adapter.DpcRoutine` | viogpudo/viogpudo.cpp:3492-3547 | Run alone it drains exactly the queues that were pending and clears the bits |
| `IsrDpc.StepKeepsInv` | viogpudo/viogpudo.cpp:3420-3547 | A step of device, interrupt routine or deferred routines keeps somebody responsible for each undrained completion, and one holder for each queue's lock, if and only if it is not a status read that strands one |
| `IsrDpc.NoStrandedCompletion` | viogpudo/viogpudo.cpp:3420-3547 | In every run without such a read a quiet state has no pending bits and both used rings drained, with or without event indices |
| `IsrDpc.WorkEnds` | viogpudo/viogpudo.cpp:3500-3545 | Without new completions every run from any state is bounded by a measure of it |
| `IsrDpc.CompletionsAreDelivered` | viogpudo/viogpudo.cpp:3492-3547 | Every run takes no more than that many steps; in those without a stranding read every completion is delivered within them |
| `IsrDpc.AloneReachesOutcome` | viogpudo/viogpudo.cpp:3420-3547 | However the steps of the two routines interleave, a run without the device ends in one state, given by its start: the queues with a reason are drained and nothing is pending |
| `IsrDpc.RoutineOutcome` | viogpudo/viogpudo.cpp:3492-3547 | For one deferred routine just started that state is the one `DpcRoutine` promises |
| `IsrDpc.FiresIsTheTest` | VirtIO/VirtIORing.c:552-559 | The interrupt decision of the state machine is the device's test on the event index that the last get wrote |
| `IsrDpc.BothBitsStrand` | viogpudo/viogpudo.cpp:3433-3437 | An idle driver that is interrupted and left alone ends with drained rings if and only if they were drained or the status was that of a queue alone |
| `IsrDpc.ChangeIsReportedIff` | viogpudo/viogpudo.cpp:3428-3442 | And such a driver reports a configuration change if and only if the status had both bits |
| `IsrDpc.ReadStrandsIff` | viogpudo/viogpudo.cpp:3428-3442 | From any state of such a run: the driver left alone after a status read leaves entries in a ring if and only if the read found both bits and the queue bit was their only notice |
| `IsrDpc.CoalescedInterruptStrands` | viogpudo/viogpudo.cpp:3428-3442 | A run from the start that ends quiet with a completion left over |
| `ResourceLifecycle.VioGpuIdr.constructor` | viogpudo/viogpu_idr.cpp:16-35 | Exactly the ids below the start are set |
| `ResourceLifecycle.VioGpuIdr.GetId` | viogpudo/viogpu_idr.cpp:47-59 | Sets and returns the lowest clear id, or answers that there is none and changes nothing |
| `ResourceLifecycle.VioGpuIdr.PutId` | viogpudo/viogpu_idr.cpp:61-76 | Clears that id only, and nothing for an id beyond the bitmap |
| `ResourceLifecycle.VioGpuAdapter.CreateFrameBufferObj` | viogpudo/viogpudo.cpp:3572-3612 | State and queued commands on every path: refused segment or page list, a list too long for its command, and no free id |
| `ResourceLifecycle.VioGpuAdapter.GpuObjectAttach` | viogpudo/viogpudo.cpp:3758-3787 | True whenever the list was allocated; the attachment itself is queued only when its list is short enough |
| `ResourceLifecycle.VioGpuAdapter.DestroyFrameBufferObj` | viogpudo/viogpudo.cpp:3614-3628 | Detaches, releases and gives the id back, if there is a framebuffer |
| `ResourceLifecycle.VioGpuAdapter.CreateCursorObj` | viogpudo/viogpudo.cpp:3630-3740 | State and queued commands on every path |
| `ResourceLifecycle.VioGpuAdapter.DestroyCursorObj` | viogpudo/viogpudo.cpp:3742-3756 | The same for the cursor |
| `ResourceLifecycle.VioGpuAdapter.SetCurrentMode` | viogpudo/viogpudo.cpp:2458-2479 | A known mode replaces the framebuffer, an unknown one changes nothing |
| `ResourceLifecycle.VioGpuAdapter.SetPointerShape` | viogpudo/viogpudo.cpp:2941-2977 | The cursor is replaced |
| `ResourceLifecycle.FrameBufferStream` | viogpudo/viogpudo.cpp:3591-3604 | The commands of a creation are all accepted if and only if the page list was allocated and has at most 7680 entries; the device then has the resource, with backing under the same condition |
| `ResourceLifecycle.EffectKeepsInv` | viogpudo/viogpudo.cpp:3572-3787 | An operation keeps "set bits are the reserved ids and the device's resources" if and only if a framebuffer it creates gets its page list; with a backed framebuffer its commands are accepted if and only if that gets its backing |
| `ResourceLifecycle.StreamIsValid` | viogpudo/viogpudo.cpp:3572-3787 | Over every run the device accepts the whole stream (no resource that does not exist, no transfer without backing, no id twice) if and only if every framebuffer gets its backing |
| `ResourceLifecycle.IdsStand` | viogpudo/viogpu_idr.cpp:47-76 | Over a whole run ids are never confused, whatever the sizes of the modes, if and only if every framebuffer gets its page list |
| `ResourceLifecycle.TidyIff` | viogpudo/viogpu_idr.cpp:47-76 | At the end of a run the set bits are the reserved ids and those in use if and only if no creation was refused its page list |
| `ResourceLifecycle.RoomWhileFewLost` | viogpudo/viogpu_idr.cpp:47-59 | A creation finds a free id unless all but a few of the 32768 were lost before |
| `ResourceLifecycle.PresentsIff` | viogpudo/viogpudo.cpp:2906 | Presents find a framebuffer if and only if each follows a mode set of which the last got its segment |
| `ResourceLifecycle.RefusedSegmentThenPresent` | viogpudo/viogpudo.cpp:3584-3589 | A run in which a present finds none |
| `ResourceLifecycle.ResourcesAreConserved` | viogpudo/viogpu_idr.cpp:16-76 | The device ends with exactly the resources the driver holds if and only if no creation was refused its page list; then it accepts the whole stream if and only if no mode of more than 7680 pages is set |
| `ResourceLifecycle.LargeModeIsRejected` | viogpudo/viogpudo.cpp:3307 | Setting the mode 4480x2520, with all allocations succeeding, has a command rejected |
| `ResourceLifecycle.RefusedFrameBuffer` | viogpudo/viogpudo.cpp:3601-3628 | With a refused page list the next destruction is rejected, the reserved id 0 is handed out, and the id taken is left set and its resource on the device, held by nobody |
| `ResourceLifecycle.RefusedCursor` | viogpudo/viogpudo.cpp:3644-3658 | A cursor with a refused page list leaves a set bit and a resource that nobody holds |
| `ResourceLifecycle.LossIsForGood` | viogpudo/viogpu_idr.cpp:47-76 | No later operation gives such an id or resource back |
| `Scanout.ScreenShowsIff` | viogpudo/viogpudo.cpp:3572-3628 | After every run, refused allocations included, the screen shows what was last drawn into the driver's framebuffer, transferred and flushed, if and only if that has its backing on the device; else it shows no drawing |
| `Scanout.FrameBufferIsShownIff` | viogpudo/viogpudo.cpp:3601-3604 | With memory for every page list that is so if and only if the mode set last has at most 7680 pages |
| `CursorOrder.UpdatesFindTheirResource` | viogpudo/viogpudo.cpp:2956-2970 | However the device interleaves its two queues, the resource of the next UPDATE_CURSOR is there with its pages and filled, in every run in which shapes are set only after the one before was shown |
| `CursorOrder.SetShapeIsSafeIff` | viogpudo/viogpudo.cpp:2956-2957 | After setting a shape every schedule of the device finds it if and only if no update was under way |
| `CursorOrder.ReleasedTooEarly` | viogpudo/viogpudo.cpp:3742-3756 | Else a schedule has released the resource that the update names |
| `CursorOrder.TheWaitIsNeeded` | viogpudo/viogpudo.cpp:3726-3734 | Without the wait for the transfer the update could come before its resource |
| `ScatterList.QueueBuffer` | viogpudo/viogpu_queue.cpp:215-279 | The list and its split into readable and writable part, or a rejection, for every input on which the loop ends |
| `ScatterList.DataLoopEndsIff` | viogpudo/viogpu_queue.cpp:241-260 | The loop over the data ends if and only if the pages it comes to, until the list is full, are mapped |
| `ScatterList.UnmappedPageHangs` | viogpudo/viogpu_queue.cpp:244-259 | At an unmapped page no number of rounds changes anything |
| `ScatterList.QueuedIff` | viogpudo/viogpu_queue.cpp:228-265 | A command is queued exactly when it and its response take at most a page and its data fits: 30 pages, or 31 when the command has no element |
| `ScatterList.DataIsNamedIff` | viogpudo/viogpu_queue.cpp:4-13 | The data's physical bytes are named for every mapping if and only if it is page-friendly |
| `ScatterList.QueuedNamesBuffers` | viogpudo/viogpu_queue.cpp:234-274 | The readable part of the list names command and data in order, the writable part the response; command and response only if their pages are mapped |
| `ScatterList.DeviceSeesTheCommand` | viogpudo/viogpu_queue.cpp:215-282 | Through the ring, from the head of a queued command the device reads exactly the physical bytes of command and data and writes those of the response |
| `PciCaps.NoRepeat` | VirtIO/VirtIOPCIModern.c:415-431 | A list that ends visits no capability twice |
| `PciCaps.AtMost48` | VirtIO/VirtIOPCIModern.c:409-415 | It has at most 48 capabilities, so the budget never cuts it |
| `PciCaps.EndsIffAcyclic` | VirtIO/VirtIOPCIModern.c:415-431 | The pointers end if and only if nothing repeats within 49 hops |
| `PciCaps.FindNext` | VirtIO/VirtIOPCIModern.c:406-433 | The loop computes the budgeted scan on any configuration space, cyclic ones included |
| `PciCaps.ScanFindsFirst` | VirtIO/VirtIOPCIModern.c:424-426 | On every configuration space the scan finds the first vendor capability within its hops, and 0 exactly when there is none |
| `PciCaps.FindFirst` | VirtIO/VirtIOPCIModern.c:435-466 | The scan starts at the pointer of the header type, if the status says there is a list |
| `PciCaps.StartIs` | VirtIO/VirtIOPCIModern.c:435-466 | Where the walk starts, for every value of status and header type |
| `PciCaps.FoundIffPresent` | VirtIO/VirtIOPCIModern.c:477-481 | The last usable capability of a type is non-zero exactly when one is on the list |
| `PciCaps.FindCapabilities` | VirtIO/VirtIOPCIModern.c:469-485 | Whenever the walk ends, an entry is the last usable capability of its type and non-zero exactly when one exists |
| `PciCaps.WalkEndsIff` | VirtIO/VirtIOPCIModern.c:473-484 | The walk ends if and only if no vendor capability that it meets leads back to itself |
| `PciCaps.EndingListsHaveNoWayBack` | VirtIO/VirtIOPCIModern.c:406-433 | On a list that ends it does, and meets the whole list |
| `PciCaps.LastIsFirstIff` | VirtIO/VirtIOPCIModern.c:477-481 | The last usable capability of a type is the first one if and only if no two are met |
| `PciCaps.SecondIsKept` | VirtIO/VirtIOPCIModern.c:477-481 | A configuration with two of them, of which the second is kept |
| `PciCaps.UnusableAreSkipped` | VirtIO/VirtIOPCIModern.c:477-481 | A configuration with capabilities of another kind, of an absent and of an invalid BAR, which are passed over, and a pointer to nothing that ends it |
| `PciCaps.SelfLoopHangs` | VirtIO/VirtIOPCIModern.c:473-484 | A configuration on which no number of rounds reaches the end |
| `ConfigRead.AcceptedIsSnapshot` | VirtIO/VirtIOPCICommon.c:136-146 | An attempt framed by equal registers with fewer than 256 changes holds the contents of one instant |
| `ConfigRead.SettledAccepts` | VirtIO/VirtIOPCICommon.c:136-146 | Once the space has settled an attempt is accepted |
| `ConfigRead.Device.CreadMany` | VirtIO/VirtIOPCICommon.c:128-147 | The result is that of the first accepted attempt, and no other byte is changed |
| `ConfigRead.LoopEndsIff` | VirtIO/VirtIOPCICommon.c:136-146 | Its loop on a modern device ends if and only if some attempt is accepted |
| `ConfigRead.RestlessNeverEnds` | VirtIO/VirtIOPCICommon.c:136-146 | A history with fewer than 256 changes to an attempt on which no number of rounds ends it |
| `ConfigRead.Device.GetBytes` | VirtIO/VirtIOPCILegacy.c:48-62 | The legacy read takes each byte with an access of its own, and writes no other byte |
| `ConfigRead.Device.GetConfig` | VirtIO/VirtIOPCICommon.c:149-165 | For every length the buffer is a snapshot: on modern devices of an instant of the read, when there is one access or fewer than 256 changes to an attempt; on legacy ones of its first access, when there is one or nothing changes until the last; the number of accesses is given |
| `ConfigRead.TearsIff` | VirtIO/VirtIOPCICommon.c:144-146 | With n generation steps an attempt can be accepted whose result is of no instant if and only if it reads two fields or more and n is a positive multiple of 256 |
| `ConfigRead.LegacyWholeIff` | VirtIO/VirtIOPCILegacy.c:48-62 | A legacy read is of one instant for every history if and only if it is of at most one byte |

## Left out

- Descriptor, ring and interrupt flags are named booleans, not bits of a word; `in_use`, timing fields and logging are left out, and of the locks all but those of the queues in `IsrDpc`.
- The `notify` callback is a counter; the doorbell write behind it is port I/O.
- Addresses are unbounded: 32-bit overflow of surface offsets and of allocation sizes is not modelled.
- `BUG_ON` conditions of `virtqueue_add_buf` (NULL token, empty list, list longer than the ring) are preconditions.
- `ScatterList.QueueBuffer`: requires that the loop over the data ends, which `ScatterList.DataLoopEndsIff` characterises. The call of `AddBuf` behind it is not part of the method.
- `VringLayout.ScaleDown`: an allocation is an oracle that answers each attempt; no memory is modelled.
- `IsrDpc.NoStrandedCompletion`: for runs without a status read that strands a completion, because of the behaviour described above.
- The interleaved deferred routine is a program counter over steps; only the run without interference has the source's loops.
- `ResourceLifecycle.StreamIsValid`: for runs that find a free id at each creation (see `ResourceLifecycle.RoomWhileFewLost`) and a framebuffer at each present (see `ResourceLifecycle.PresentsIff`); the operations themselves are modelled with an exhausted bitmap too.
- `ResourceLifecycle.IdsStand`: for the same runs.
- `ResourceLifecycle.ResourcesAreConserved`: for runs that find a framebuffer at each present.
- `ResourceLifecycle.VioGpuIdr.PutId`: what a bit cleared beyond the bitmap does to other memory is not modelled.
- The failure of `VioGpuObj::Init`: an object and its segment are made for the same size in whole pages (viogpudo/viogpudo.cpp:2651, 3585, 3594, 3641, 3647), so it is never refused.
- `ResourceLifecycle.VioGpuAdapter.CreateCursorObj`: without the pixels; the blit itself is `Bitops.BltBits`. The wait for the transfer is in `CursorOrder`.
- `CursorOrder.UpdatesFindTheirResource`: for runs in which framebuffers get their page lists and creations find free ids. Moving the cursor is not a step.
- `PciCaps.FindCapabilities`: requires that the walk ends, which `PciCaps.WalkEndsIff` characterises. Reads of configuration space succeed.
- `ConfigRead.Device.CreadMany`: requires on modern devices that the loop ends, which `ConfigRead.LoopEndsIff` characterises; `last` names an accepted attempt.
- `Present.PresentIsCoherent`: 32 bits per pixel and rows without gaps, which is what the modes have (viogpudo/viogpudo.cpp:1501, 3213).
- Invalid rotation values and unsupported depth pairs of the blitter, which its assertions exclude.
- Overlapping source and destination memory: the surfaces are separate arrays.
- Mode enumeration, VidPN negotiation, power and plug-and-play handling, VBE and VGA paths: they depend on callbacks that are not in the repository.
- The pool of command buffers and the list of 3D commands.
- Feature negotiation, MSI-X vectors and register access of the transports.
