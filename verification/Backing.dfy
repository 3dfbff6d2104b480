/** Which framebuffers get their backing: the list of their pages is data of a single command. */
module Backing {
  import opened Bits
  import opened ScatterList

  // sizes of the attach command, of an entry for one page, and of a response
  const ATTACH_BYTES: nat := 32
  const ENTRY_BYTES: nat := 16
  const HEADER_BYTES: nat := 24

  const MAX_PAGES: nat := 7680

  /** `BYTES_TO_PAGES` */
  function PagesOf(size: nat): nat {
    (size + PAGE - 1) / PAGE
  }

  function AttachRequest(cmd: nat, entries: nat, resp: nat, pages: nat): Request {
    Request(cmd, ATTACH_BYTES, entries, ENTRY_BYTES * pages, resp, HEADER_BYTES)
  }

  /** `QueueBuffer` takes an attach command with one entry for each of `pages` pages. */
  predicate AttachReaches(pages: nat) {
    Plan(page => page, page => true, AttachRequest(0, 0, 0, pages)).Queued?
  }

  /** It does so up to 7680 pages, that is 30 MiB; a longer command is dropped, and nobody is told. */
  lemma AttachReachesIff(pages: nat)
    ensures AttachReaches(pages) <==> pages <= MAX_PAGES
  {
    QueuedIff(page => page, page => true, AttachRequest(0, 0, 0, pages));
  }

  /** Where command and entries are in memory makes no difference. */
  lemma AttachAnywhere(frames: Frames, mapped: Mapping, cmd: nat, entries: nat, resp: nat, pages: nat)
    requires mapped(cmd / PAGE)
    ensures Plan(frames, mapped, AttachRequest(cmd, entries, resp, pages)).Queued? <==> AttachReaches(pages)
  {
    QueuedIff(frames, mapped, AttachRequest(cmd, entries, resp, pages));
    AttachReachesIff(pages);
  }

  /** Width and height of the modes that the driver offers. */
  const MODES: seq<(nat, nat)> := [
    (1024, 640), (1024, 665), (1024, 768), (1147, 745), (1152, 720), (1168, 755), (1280, 800), (1280, 1024),
    (1312, 848), (1344, 840), (1352, 878), (1440, 900), (1496, 967), (1512, 982), (1680, 1050), (1728, 1117),
    (1792, 1120), (1800, 1169), (1920, 1080), (1920, 1200), (2048, 1280), (2056, 1329), (2240, 1260), (2560, 1440),
    (2560, 1600), (2880, 1800), (3024, 1964), (3072, 1920), (3456, 2234), (4480, 2520), (5120, 2880)]

  /** Pages of the framebuffer of a mode with 32 bits per pixel; the stride is a multiple of 4 as it is. */
  function FramePages(width: nat, height: nat): nat {
    PagesOf(4 * width * height)
  }

  /** All of the offered modes get their backing but the two largest. */
  lemma TwoModesHaveNoBacking(i: nat)
    requires i < |MODES|
    ensures AttachReaches(FramePages(MODES[i].0, MODES[i].1)) <==> MODES[i] != (4480, 2520) && MODES[i] != (5120, 2880)
  {
    AttachReachesIff(FramePages(MODES[i].0, MODES[i].1));
  }
}
