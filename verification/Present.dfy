/** Presenting a frame: dirty and moved rectangles are blitted into the guest framebuffer, and one rectangle enclosing
    them is transferred to the host's copy of the resource. */
module Present {
  import opened Backing
  import opened Bits
  import opened Pixels
  import opened Bitops

  /** The parts of the current mode that presenting uses. */
  datatype Mode = Mode(width: nat, height: nat, pitch: nat)

  datatype Command =
    | TransferToHost2D(id: nat, offset: int, width: int, height: int, x: int, y: int)
    | ResFlush(id: nat, width: int, height: int, x: int, y: int)

  // -------------------------------------------------------------------- the update rectangle

  predicate Within(r: Rect, box: Rect) {
    box.left <= r.left && box.top <= r.top && r.right <= box.right && r.bottom <= box.bottom
  }

  predicate Encloses(box: Rect, rects: seq<Rect>) {
    forall i :: 0 <= i < |rects| ==> Within(rects[i], box)
  }

  /** The least rectangle that encloses all of `rects`. */
  ghost predicate IsHull(box: Rect, rects: seq<Rect>) {
    Encloses(box, rects) && forall b: Rect :: Encloses(b, rects) ==> Within(box, b)
  }

  lemma HullOfOne(r: Rect)
    ensures IsHull(r, [r])
  {
    forall b: Rect | Encloses(b, [r]) ensures Within(r, b) {
      assert Within([r][0], b);
    }
  }

  lemma HullGrows(box: Rect, rects: seq<Rect>, r: Rect)
    requires IsHull(box, rects)
    ensures IsHull(Rect(Min(r.left, box.left), Min(r.top, box.top), Max(r.right, box.right), Max(r.bottom, box.bottom)),
                   rects + [r])
  {
    var next := Rect(Min(r.left, box.left), Min(r.top, box.top), Max(r.right, box.right), Max(r.bottom, box.bottom));
    var all := rects + [r];
    forall i | 0 <= i < |all| ensures Within(all[i], next) {
      if i < |rects| { assert Within(rects[i], box); }
    }
    forall b: Rect | Encloses(b, all) ensures Within(next, b) {
      assert all[|rects|] == r && Within(all[|rects|], b);
      forall i | 0 <= i < |rects| ensures Within(rects[i], b) {
        assert all[i] == rects[i] && Within(all[i], b);
      }
      assert Encloses(b, rects);
    }
  }

  /** One round of the loops of `FindUpdateRect`. */
  method Extend(updated: bool, box: Rect, r: Rect, ghost seen: seq<Rect>) returns (next: Rect)
    requires updated <==> |seen| > 0
    requires updated ==> IsHull(box, seen)
    ensures IsHull(next, seen + [r])
  {
    if !updated {
      next := r;
      assert seen + [r] == [r];
      HullOfOne(r);
    } else {
      next := Rect(Min(r.left, box.left), Min(r.top, box.top), Max(r.right, box.right), Max(r.bottom, box.bottom));
      HullGrows(box, seen, r);
    }
  }

  /** `FindUpdateRect` */
  method FindUpdateRect(moves: seq<Rect>, dirty: seq<Rect>) returns (updated: bool, box: Rect)
    ensures updated <==> |moves + dirty| > 0
    ensures updated ==> IsHull(box, moves + dirty)
  {
    updated, box := false, Rect(0, 0, 0, 0);
    for i := 0 to |moves|
      invariant updated <==> i > 0
      invariant updated ==> IsHull(box, moves[..i])
    {
      box := Extend(updated, box, moves[i], moves[..i]);
      assert moves[..i] + [moves[i]] == moves[..i + 1];
      updated := true;
    }
    assert moves + dirty[..0] == moves == moves[..|moves|];
    for i := 0 to |dirty|
      invariant updated <==> |moves + dirty[..i]| > 0
      invariant updated ==> IsHull(box, moves + dirty[..i])
    {
      box := Extend(updated, box, dirty[i], moves + dirty[..i]);
      assert moves + dirty[..i] + [dirty[i]] == moves + dirty[..i + 1];
      updated := true;
    }
    assert dirty[..|dirty|] == dirty;
  }

  // -------------------------------------------------------------------- presenting

  function Screen(m: Mode): Rect { Rect(0, 0, m.width, m.height) }

  function DstInfo(m: Mode, bitsPerPixel: nat, rotation: Rotation): BltInfo {
    BltInfo(0, m.pitch, bitsPerPixel, Point(0, 0), rotation, m.width, m.height)
  }

  function SrcInfo(m: Mode, bytesPerPixel: nat, pitch: nat, rotation: Rotation): BltInfo {
    var turned := rotation == Rotate90 || rotation == Rotate270;
    BltInfo(0, pitch, bytesPerPixel * 8, Point(0, 0), Identity,
            if turned then m.height else m.width, if turned then m.width else m.height)
  }

  /** One blit after another is one blit of all the points. */
  lemma BlitTwice(dst: BltInfo, src: BltInfo, was: seq<byte>, from: seq<byte>, p: set<Point>, q: set<Point>)
    requires Blittable(dst, |was|, src, |from|)
    ensures Blit(dst, src, Blit(dst, src, was, from, p), from, q) == Blit(dst, src, was, from, p + q)
  {
  }

  /** `BltBits` with one rectangle. */
  method BlitOne(fb: array<byte>, dst: BltInfo, from: array<byte>, src: BltInfo, r: Rect,
                 ghost was: seq<byte>, ghost seen: seq<Rect>)
    requires fb != from && Blittable(dst, fb.Length, src, from.Length) && RectOk(dst, src, r)
    requires |was| == fb.Length && fb[..] == Blit(dst, src, was, from[..], PointsOf(seen))
    modifies fb
    ensures fb[..] == Blit(dst, src, was, from[..], PointsOf(seen + [r]))
  {
    BltBits(fb, dst, from, src, [r]);
    BlitTwice(dst, src, was, from[..], PointsOf(seen), PointsOf([r]));
    assert [r][..0] == [];
    assert PointsOf([r]) == RectPoints(r);
    assert (seen + [r])[..|seen|] == seen;
  }

  /** What is sent to the host for the update rectangle `box`. */
  function Transfer(id: nat, m: Mode, bitsPerPixel: nat, box: Rect): Command {
    TransferToHost2D(id, box.top * m.pitch + box.left * ((bitsPerPixel + 7) / 8), box.right - box.left,
                     box.bottom - box.top, box.left, box.top)
  }

  function Flush(id: nat, box: Rect): Command {
    ResFlush(id, box.right - box.left, box.bottom - box.top, box.left, box.top)
  }

  /** `VioGpuAdapter::ExecutePresentDisplayOnly`; the commands are returned in the order in which they are queued. */
  method ExecutePresentDisplayOnly(fb: array<byte>, dstBitsPerPixel: nat, shadow: array<byte>, srcBytesPerPixel: nat,
                                   srcPitch: nat, moves: seq<Rect>, dirty: seq<Rect>, rotation: Rotation, m: Mode,
                                   id: nat)
    returns (commands: seq<Command>, ghost box: Rect)
    requires fb != shadow
    requires Blittable(DstInfo(m, dstBitsPerPixel, rotation), fb.Length,
                       SrcInfo(m, srcBytesPerPixel, srcPitch, rotation), shadow.Length)
    requires RectsOk(DstInfo(m, dstBitsPerPixel, rotation), SrcInfo(m, srcBytesPerPixel, srcPitch, rotation), moves)
    requires RectsOk(DstInfo(m, dstBitsPerPixel, rotation), SrcInfo(m, srcBytesPerPixel, srcPitch, rotation), dirty)
    modifies fb
    ensures fb[..] == Blit(DstInfo(m, dstBitsPerPixel, rotation), SrcInfo(m, srcBytesPerPixel, srcPitch, rotation),
                           old(fb[..]), shadow[..], PointsOf(moves + dirty))
    ensures IsUpdateRect(box, moves + dirty, m)
    ensures commands == [Transfer(id, m, dstBitsPerPixel, box), Flush(id, box)]
  {
    var dst := BltInfo(0, m.pitch, dstBitsPerPixel, Point(0, 0), rotation, m.width, m.height);
    var src := BltInfo(0, srcPitch, srcBytesPerPixel * 8, Point(0, 0), Identity, 0, 0);
    if rotation == Rotate90 || rotation == Rotate270 {
      src := src.(width := dst.height, height := dst.width);
    } else {
      src := src.(width := dst.width, height := dst.height);
    }
    BlitAll(fb, dst, shadow, src, moves, dirty);
    var updated, upd := FindUpdateRect(moves, dirty);
    if !updated {
      upd := Rect(0, 0, m.width, m.height);
    }
    box := upd;
    var offset := upd.top * m.pitch + upd.left * ((dstBitsPerPixel + 7) / 8);
    commands := [TransferToHost2D(id, offset, upd.right - upd.left, upd.bottom - upd.top, upd.left, upd.top),
                 ResFlush(id, upd.right - upd.left, upd.bottom - upd.top, upd.left, upd.top)];
  }

  /** The least rectangle around the presented ones; the whole screen when there are none. */
  ghost predicate IsUpdateRect(box: Rect, rects: seq<Rect>, m: Mode) {
    if |rects| > 0 then IsHull(box, rects) else box == Screen(m)
  }

  /** The two blitting loops. */
  method BlitAll(fb: array<byte>, dst: BltInfo, from: array<byte>, src: BltInfo, moves: seq<Rect>, dirty: seq<Rect>)
    requires fb != from && Blittable(dst, fb.Length, src, from.Length)
    requires RectsOk(dst, src, moves) && RectsOk(dst, src, dirty)
    modifies fb
    ensures fb[..] == Blit(dst, src, old(fb[..]), from[..], PointsOf(moves + dirty))
  {
    ghost var was := fb[..];
    NoPoints(dst, src, was, from[..]);
    for i := 0 to |moves|
      invariant fb[..] == Blit(dst, src, was, from[..], PointsOf(moves[..i]))
    {
      BlitOne(fb, dst, from, src, moves[i], was, moves[..i]);
      assert moves[..i] + [moves[i]] == moves[..i + 1];
    }
    assert moves + dirty[..0] == moves == moves[..|moves|];
    for i := 0 to |dirty|
      invariant fb[..] == Blit(dst, src, was, from[..], PointsOf(moves + dirty[..i]))
    {
      BlitOne(fb, dst, from, src, dirty[i], was, moves + dirty[..i]);
      assert moves + dirty[..i] + [dirty[i]] == moves + dirty[..i + 1];
    }
    assert dirty[..|dirty|] == dirty;
  }

  // -------------------------------------------------------------------- what is presented

  /** The image has the size of the screen, turned. */
  predicate InImage(m: Mode, rotation: Rotation, r: Rect) {
    && 0 <= r.left <= r.right && 0 <= r.top <= r.bottom
    && r.right <= (if rotation == Rotate90 || rotation == Rotate270 then m.height else m.width)
    && r.bottom <= (if rotation == Rotate90 || rotation == Rotate270 then m.width else m.height)
  }

  /** The memory of framebuffer and shadow surface, by the mode and by what the caller says about the shadow. */
  predicate Sizes(m: Mode, dstBitsPerPixel: nat, size: nat, srcBytesPerPixel: nat, srcPitch: nat, rotation: Rotation,
                  srcSize: nat)
  {
    var turned := rotation == Rotate90 || rotation == Rotate270;
    var w, h := if turned then m.height else m.width, if turned then m.width else m.height;
    && m.width * (dstBitsPerPixel / 8) <= m.pitch
    && (m.height > 0 ==> (m.height - 1) * m.pitch + m.width * (dstBitsPerPixel / 8) <= size)
    && w * srcBytesPerPixel <= srcPitch
    && (h > 0 ==> (h - 1) * srcPitch + w * srcBytesPerPixel <= srcSize)
  }

  lemma PresentIsReady(m: Mode, dstBitsPerPixel: nat, size: nat, srcBytesPerPixel: nat, srcPitch: nat,
                       rotation: Rotation, srcSize: nat, rects: seq<Rect>)
    requires Supported(dstBitsPerPixel, srcBytesPerPixel * 8)
    requires Sizes(m, dstBitsPerPixel, size, srcBytesPerPixel, srcPitch, rotation, srcSize)
    requires forall i :: 0 <= i < |rects| ==> InImage(m, rotation, rects[i])
    ensures var dst, src := DstInfo(m, dstBitsPerPixel, rotation), SrcInfo(m, srcBytesPerPixel, srcPitch, rotation);
            Blittable(dst, size, src, srcSize) && RectsOk(dst, src, rects)
  {
    var dst, src := DstInfo(m, dstBitsPerPixel, rotation), SrcInfo(m, srcBytesPerPixel, srcPitch, rotation);
    forall i | 0 <= i < |rects| ensures RectOk(dst, src, rects[i]) {
      assert InImage(m, rotation, rects[i]);
    }
  }

  /** After a present every pixel of its rectangles holds, at its turned place on the screen, the pixel of the shadow
      surface in the same row and column of the image: rows are a source pitch apart there. */
  lemma PresentedPixel(m: Mode, dstBitsPerPixel: nat, was: seq<byte>, srcBytesPerPixel: nat, srcPitch: nat,
                       rotation: Rotation, from: seq<byte>, rects: seq<Rect>, p: Point, d: int, s: int)
    requires Supported(dstBitsPerPixel, srcBytesPerPixel * 8)
    requires Sizes(m, dstBitsPerPixel, |was|, srcBytesPerPixel, srcPitch, rotation, |from|)
    requires (forall i :: 0 <= i < |rects| ==> InImage(m, rotation, rects[i])) && Covered(rects, p)
    requires var n := dstBitsPerPixel / 8;
      d == match rotation
        case Identity => p.y * m.pitch + p.x * n
        case Rotate90 => (m.height - 1 - p.x) * m.pitch + p.y * n
        case Rotate180 => (m.height - 1 - p.y) * m.pitch + (m.width - 1 - p.x) * n
        case Rotate270 => p.x * m.pitch + (m.width - 1 - p.y) * n
    requires s == p.y * srcPitch + p.x * srcBytesPerPixel
    ensures var dst, src := DstInfo(m, dstBitsPerPixel, rotation), SrcInfo(m, srcBytesPerPixel, srcPitch, rotation);
      && Blittable(dst, |was|, src, |from|)
      && 0 <= d && d + dstBitsPerPixel / 8 <= |was| && 0 <= s && s + srcBytesPerPixel <= |from|
      && Blit(dst, src, was, from, PointsOf(rects))[d..d + Written(dstBitsPerPixel, srcBytesPerPixel * 8)]
         == Converted(from, s, dstBitsPerPixel, srcBytesPerPixel * 8)
  {
    PresentIsReady(m, dstBitsPerPixel, |was|, srcBytesPerPixel, srcPitch, rotation, |from|, rects);
    var dst, src := DstInfo(m, dstBitsPerPixel, rotation), SrcInfo(m, srcBytesPerPixel, srcPitch, rotation);
    ScreenAddress(m, dstBitsPerPixel, rotation, p);
    ShadowAddress(m, srcBytesPerPixel, srcPitch, rotation, p);
    SurfacePixel(dst, src, was, from, rects, p, d, s);
  }

  lemma ScreenAddress(m: Mode, bitsPerPixel: nat, rotation: Rotation, p: Point)
    ensures var n := bitsPerPixel / 8;
      DstInfo(m, bitsPerPixel, rotation).At(p) == match rotation
        case Identity => p.y * m.pitch + p.x * n
        case Rotate90 => (m.height - 1 - p.x) * m.pitch + p.y * n
        case Rotate180 => (m.height - 1 - p.y) * m.pitch + (m.width - 1 - p.x) * n
        case Rotate270 => p.x * m.pitch + (m.width - 1 - p.y) * n
  {
  }

  lemma ShadowAddress(m: Mode, bytesPerPixel: nat, pitch: nat, rotation: Rotation, p: Point)
    ensures var src := SrcInfo(m, bytesPerPixel, pitch, rotation);
            src.Bpp() == bytesPerPixel && src.At(p) == p.y * pitch + p.x * bytesPerPixel
  {
    assert bytesPerPixel * 8 / 8 == bytesPerPixel;
  }

  lemma SurfacePixel(dst: BltInfo, src: BltInfo, was: seq<byte>, from: seq<byte>, rects: seq<Rect>, p: Point,
                     d: int, s: int)
    requires Blittable(dst, |was|, src, |from|) && RectsOk(dst, src, rects) && Covered(rects, p)
    requires dst.At(p) == d && src.At(p) == s
    ensures 0 <= d && d + dst.Bpp() <= |was| && 0 <= s && s + src.Bpp() <= |from|
    ensures Blit(dst, src, was, from, PointsOf(rects))[d..d + Written(dst.bitsPerPel, src.bitsPerPel)]
         == Converted(from, s, dst.bitsPerPel, src.bitsPerPel)
  {
    BlitAt(dst, src, was, from, rects, p);
    PixelInside(src, p, |from|);
  }

  // -------------------------------------------------------------------- the host's copy

  /** The host resource has the mode's size and 4 bytes per pixel, rows without gaps. */
  function Stride(m: Mode): nat { 4 * m.width }

  /** The framebuffer of the mode has its pages attached. */
  predicate HasBacking(m: Mode) {
    AttachReaches(FramePages(m.width, m.height))
  }

  /** The command names the resource `res` of the framebuffer, which has its backing, and its rectangle lies in it. */
  predicate DeviceAccepts(m: Mode, res: nat, c: Command)
    requires c.TransferToHost2D?
  {
    && c.id == res && HasBacking(m)
    && 0 <= c.x && 0 <= c.y && 0 <= c.width && 0 <= c.height && c.x + c.width <= m.width && c.y + c.height <= m.height
  }

  /** The byte at `a` of the resource lies in the rectangle of a transfer. */
  predicate Transferred(m: Mode, c: Command, a: nat)
    requires c.TransferToHost2D? && m.width > 0
  {
    c.y <= a / Stride(m) < c.y + c.height && 4 * c.x <= a % Stride(m) < 4 * (c.x + c.width)
  }

  /** Where the device reads it from: row `h` of the rectangle starts at `offset + stride * h`
      (section 5.7.6.8 of the VIRTIO specification). */
  function ReadFrom(m: Mode, c: Command, a: nat): int
    requires c.TransferToHost2D? && m.width > 0
  {
    c.offset + Stride(m) * (a / Stride(m) - c.y) + (a % Stride(m) - 4 * c.x)
  }

  function HostByte(m: Mode, host: seq<byte>, guest: seq<byte>, c: Command, a: nat): byte
    requires c.TransferToHost2D? && a < |host| && m.width > 0
  {
    if Transferred(m, c, a) && 0 <= ReadFrom(m, c, a) < |guest| then guest[ReadFrom(m, c, a)] else host[a]
  }

  /** A rejected transfer leaves the host's copy alone. */
  function HostAfter(m: Mode, res: nat, host: seq<byte>, guest: seq<byte>, c: Command): (r: seq<byte>)
    requires c.TransferToHost2D? && m.width > 0
    ensures |r| == |host|
  {
    if DeviceAccepts(m, res, c) then seq(|host|, a requires 0 <= a < |host| => HostByte(m, host, guest, c, a))
    else host
  }

  /** The byte at `a` lies in the rectangle of a flush. */
  predicate Flushed(m: Mode, c: Command, a: nat)
    requires c.ResFlush? && m.width > 0
  {
    c.y <= a / Stride(m) < c.y + c.height && 4 * c.x <= a % Stride(m) < 4 * (c.x + c.width)
  }

  /** A flush shows a rectangle of the host's copy, if that is the resource of the screen and the rectangle is in it. */
  function ShownAfter(m: Mode, res: nat, shown: seq<byte>, host: seq<byte>, c: Command): (r: seq<byte>)
    requires c.ResFlush? && m.width > 0 && |shown| == |host|
    ensures |r| == |shown|
  {
    if c.id == res && 0 <= c.x && 0 <= c.y && 0 <= c.width && 0 <= c.height && c.x + c.width <= m.width
       && c.y + c.height <= m.height
    then seq(|shown|, a requires 0 <= a < |shown| => if Flushed(m, c, a) then host[a] else shown[a])
    else shown
  }

  /** Guest framebuffer, host's copy, and what the screen shows. */
  datatype Display = Display(guest: seq<byte>, host: seq<byte>, shown: seq<byte>)

  function Executed(m: Mode, res: nat, d: Display, c: Command): (r: Display)
    requires m.width > 0 && |d.host| == |d.shown|
    ensures r.guest == d.guest && |r.host| == |d.host| == |r.shown|
  {
    match c
    case TransferToHost2D(_, _, _, _, _, _) => d.(host := HostAfter(m, res, d.host, d.guest, c))
    case ResFlush(_, _, _, _, _) => d.(shown := ShownAfter(m, res, d.shown, d.host, c))
  }

  /** Host and screen are right. */
  predicate InStep(d: Display) {
    |d.host| <= |d.guest| && d.host == d.shown == d.guest[..|d.host|]
  }

  /** The offset addresses the top-left pixel: a byte of the rectangle is read from its own place. */
  lemma SamePlace(id: nat, m: Mode, box: Rect, a: nat)
    requires m.width > 0 && m.pitch == Stride(m)
    ensures ReadFrom(m, Transfer(id, m, 32, box), a) == a
  {
    var n, row := Stride(m), a / Stride(m);
    assert a == n * row + a % n;
    assert n * (row - box.top) == n * row - n * box.top;
    assert box.top * m.pitch == n * box.top;
  }

  /** A rectangle of the screen. */
  predicate OnScreen(m: Mode, box: Rect) {
    Within(box, Screen(m)) && Upright(box)
  }

  /** Every pixel that a present writes is in the rectangle that it transfers, and the device accepts the transfer. */
  ghost predicate Reaches(m: Mode, rotation: Rotation, rects: seq<Rect>, box: Rect) {
    forall p :: Covered(rects, p) ==>
                  HasBacking(m) && OnScreen(m, box) && Inside(box, DstInfo(m, 32, rotation).Place(p))
  }

  lemma AcceptedIff(id: nat, m: Mode, box: Rect)
    ensures DeviceAccepts(m, id, Transfer(id, m, 32, box)) <==> HasBacking(m) && OnScreen(m, box)
  {
  }

  /** A byte is transferred if and only if its pixel is in the rectangle. */
  lemma TransferredIff(id: nat, m: Mode, rotation: Rotation, box: Rect, a: nat)
    requires m.width > 0 && m.pitch == Stride(m)
    ensures var dst := DstInfo(m, 32, rotation);
            Transferred(m, Transfer(id, m, 32, box), a) <==> Inside(box, dst.Place(dst.PointAt(a)))
  {
    var dst := DstInfo(m, 32, rotation);
    PlaceUnplace(dst, Point(a % dst.pitch / 4, a / dst.pitch));
  }

  /** A byte that a blit changes is transferred when the present reaches the host. */
  lemma ChangedIsTransferred(id: nat, m: Mode, rotation: Rotation, src: BltInfo, was: seq<byte>, from: seq<byte>,
                             rects: seq<Rect>, box: Rect, a: nat)
    requires m.width > 0 && m.pitch == Stride(m) && a < |was|
    requires Blittable(DstInfo(m, 32, rotation), |was|, src, |from|) && Reaches(m, rotation, rects, box)
    ensures || Blit(DstInfo(m, 32, rotation), src, was, from, PointsOf(rects))[a] == was[a]
            || (DeviceAccepts(m, id, Transfer(id, m, 32, box)) && Transferred(m, Transfer(id, m, 32, box), a))
  {
    var p := DstInfo(m, 32, rotation).PointAt(a);
    PointsAreCovered(rects, p);
    if Covered(rects, p) {
      TransferredIff(id, m, rotation, box, a);
      AcceptedIff(id, m, box);
    }
  }

  /** All rectangles on the screen: so is the update rectangle, because it is the least one. */
  lemma UpdateRectOnScreen(m: Mode, rects: seq<Rect>, box: Rect)
    requires IsUpdateRect(box, rects, m) && Encloses(Screen(m), rects)
    requires forall i :: 0 <= i < |rects| ==> Upright(rects[i])
    ensures OnScreen(m, box)
  {
    if |rects| > 0 {
      assert Within(rects[0], box) && Upright(rects[0]);
    }
  }

  /** Without rotation every present of rectangles on the screen reaches the host. */
  lemma PlainPresentReaches(m: Mode, rects: seq<Rect>, box: Rect)
    requires IsUpdateRect(box, rects, m) && Encloses(Screen(m), rects) && HasBacking(m)
    requires forall i :: 0 <= i < |rects| ==> Upright(rects[i])
    ensures Reaches(m, Identity, rects, box)
  {
    UpdateRectOnScreen(m, rects, box);
    forall p | Covered(rects, p) ensures Inside(box, DstInfo(m, 32, Identity).Place(p)) {
      var i :| 0 <= i < |rects| && Inside(rects[i], p);
      assert Within(rects[i], box);
    }
  }

  /** The framebuffer after the blits, and what the device makes of the two commands. */
  ghost function Presented(m: Mode, id: nat, rotation: Rotation, src: BltInfo, d: Display, from: seq<byte>,
                           rects: seq<Rect>, box: Rect): (r: Display)
    requires m.width > 0 && |d.host| == |d.shown| && Blittable(DstInfo(m, 32, rotation), |d.guest|, src, |from|)
    ensures |r.guest| == |d.guest| && |r.host| == |d.host| == |r.shown|
  {
    var now := Blit(DstInfo(m, 32, rotation), src, d.guest, from, PointsOf(rects));
    Executed(m, id, Executed(m, id, d.(guest := now), Transfer(id, m, 32, box)), Flush(id, box))
  }

  /** What is flushed is what was transferred. */
  lemma FlushFollows(m: Mode, id: nat, host: seq<byte>, guest: seq<byte>, box: Rect)
    requires m.width > 0 && m.pitch == Stride(m)
    ensures var host' := HostAfter(m, id, host, guest, Transfer(id, m, 32, box));
            ShownAfter(m, id, host, host', Flush(id, box)) == host'
  {
  }

  /** Presenting keeps the host's copy, and the screen, equal to the guest framebuffer. */
  lemma PresentIsCoherent(m: Mode, rotation: Rotation, src: BltInfo, d: Display, from: seq<byte>, rects: seq<Rect>,
                          box: Rect, id: nat)
    requires m.width > 0 && m.pitch == Stride(m) && |d.host| == Stride(m) * m.height && InStep(d)
    requires Blittable(DstInfo(m, 32, rotation), |d.guest|, src, |from|) && Reaches(m, rotation, rects, box)
    ensures InStep(Presented(m, id, rotation, src, d, from, rects, box))
  {
    var was, host := d.guest, d.host;
    var now, c := Blit(DstInfo(m, 32, rotation), src, was, from, PointsOf(rects)), Transfer(id, m, 32, box);
    forall a | 0 <= a < |host| ensures HostAfter(m, id, host, now, c)[a] == now[a] {
      SamePlace(id, m, box, a);
      ChangedIsTransferred(id, m, rotation, src, was, from, rects, box, a);
    }
    FlushFollows(m, id, host, now, box);
  }

  /** Whatever is in the framebuffer and what is presented, host and screen are right after it when they were before. */
  ghost predicate AlwaysCoherent(m: Mode, rotation: Rotation, src: BltInfo, size: nat, srcSize: nat, rects: seq<Rect>,
                                 box: Rect, id: nat)
    requires m.width > 0 && Stride(m) * m.height <= size && Blittable(DstInfo(m, 32, rotation), size, src, srcSize)
  {
    var n := Stride(m) * m.height;
    forall was: seq<byte>, from: seq<byte> | |was| == size && |from| == srcSize ::
      InStep(Presented(m, id, rotation, src, Display(was, was[..n], was[..n]), from, rects, box))
  }

  function Bytes(n: nat, b: byte): (r: seq<byte>)
    ensures |r| == n && forall i :: 0 <= i < n ==> r[i] == b
  {
    seq(n, _ => b)
  }

  /** A white source pixel is not stored as black. */
  lemma WhiteShows(src: BltInfo, m: Mode, rotation: Rotation, srcSize: nat, p: Point)
    requires Supported(32, src.bitsPerPel) && src.Fits(srcSize) && src.Shows(p)
    ensures Sample(DstInfo(m, 32, rotation), src, Bytes(srcSize, 0xff), p)[0] != 0
  {
    PixelInside(src, p, srcSize);
    if src.bitsPerPel == 16 {
      assert Word(0xff, 0xff) == 0xffff;
      assert DwordBytes(Unpack565(0xffff))[0] == 0xf8;
    }
  }

  lemma ShownInFrame(m: Mode, rotation: Rotation, p: Point)
    requires m.width > 0 && m.pitch == Stride(m) && DstInfo(m, 32, rotation).Shows(p)
    ensures 0 <= DstInfo(m, 32, rotation).At(p) < Stride(m) * m.height
  {
    var dst := DstInfo(m, 32, rotation);
    var q := dst.Place(p);
    RowBytes(m.height, q.y, dst.pitch);
    RowBytes(m.width, q.x, 4);
  }

  lemma NotTransferred(m: Mode, id: nat, host: seq<byte>, guest: seq<byte>, c: Command, a: nat)
    requires c.TransferToHost2D? && m.width > 0 && a < |host| && !(DeviceAccepts(m, id, c) && Transferred(m, c, a))
    ensures HostAfter(m, id, host, guest, c)[a] == host[a]
  {
  }

  /** The place of a white pixel blitted over black that is not transferred. */
  lemma MissedByte(m: Mode, rotation: Rotation, src: BltInfo, was: seq<byte>, from: seq<byte>, rects: seq<Rect>,
                   box: Rect, id: nat, p: Point) returns (a: nat)
    requires m.width > 0 && m.pitch == Stride(m) && Stride(m) * m.height <= |was| && from == Bytes(|from|, 0xff)
    requires Blittable(DstInfo(m, 32, rotation), |was|, src, |from|)
    requires RectsOk(DstInfo(m, 32, rotation), src, rects) && Covered(rects, p)
    requires !(HasBacking(m) && OnScreen(m, box) && Inside(box, DstInfo(m, 32, rotation).Place(p)))
    ensures a < Stride(m) * m.height && Blit(DstInfo(m, 32, rotation), src, was, from, PointsOf(rects))[a] != 0
    ensures !(DeviceAccepts(m, id, Transfer(id, m, 32, box)) && Transferred(m, Transfer(id, m, 32, box), a))
  {
    var dst := DstInfo(m, 32, rotation);
    BlitByteAt(dst, src, was, from, rects, p, 0);
    WhiteShows(src, m, rotation, |from|, p);
    ShownInFrame(m, rotation, p);
    PixelOfByte(dst, p, 0);
    a := dst.At(p);
    TransferredIff(id, m, rotation, box, a);
    AcceptedIff(id, m, box);
  }

  /** A white pixel that is written but not transferred is missing on the host. */
  lemma MissedPixel(m: Mode, rotation: Rotation, src: BltInfo, size: nat, srcSize: nat, rects: seq<Rect>, box: Rect,
                    id: nat, p: Point)
    requires m.width > 0 && m.pitch == Stride(m) && Stride(m) * m.height <= size
    requires Blittable(DstInfo(m, 32, rotation), size, src, srcSize) && RectsOk(DstInfo(m, 32, rotation), src, rects)
    requires Covered(rects, p)
    requires !(HasBacking(m) && OnScreen(m, box) && Inside(box, DstInfo(m, 32, rotation).Place(p)))
    ensures !AlwaysCoherent(m, rotation, src, size, srcSize, rects, box, id)
  {
    var n, was, from := Stride(m) * m.height, Bytes(size, 0), Bytes(srcSize, 0xff);
    var now := Blit(DstInfo(m, 32, rotation), src, was, from, PointsOf(rects));
    var a := MissedByte(m, rotation, src, was, from, rects, box, id, p);
    NotTransferred(m, id, was[..n], now, Transfer(id, m, 32, box), a);
    var r := Presented(m, id, rotation, src, Display(was, was[..n], was[..n]), from, rects, box);
    assert r.host[a] == 0 && r.guest[..n][a] != 0;
  }

  /** A present is coherent for all contents if and only if it reaches the host: the update rectangle is not turned
      with the image. */
  lemma CoherentIff(m: Mode, rotation: Rotation, src: BltInfo, size: nat, srcSize: nat, rects: seq<Rect>, box: Rect,
                    id: nat)
    requires m.width > 0 && m.pitch == Stride(m) && Stride(m) * m.height <= size
    requires Blittable(DstInfo(m, 32, rotation), size, src, srcSize) && RectsOk(DstInfo(m, 32, rotation), src, rects)
    ensures AlwaysCoherent(m, rotation, src, size, srcSize, rects, box, id) <==> Reaches(m, rotation, rects, box)
  {
    if Reaches(m, rotation, rects, box) {
      var n := Stride(m) * m.height;
      forall was: seq<byte>, from: seq<byte> | |was| == size && |from| == srcSize
        ensures InStep(Presented(m, id, rotation, src, Display(was, was[..n], was[..n]), from, rects, box))
      {
        PresentIsCoherent(m, rotation, src, Display(was, was[..n], was[..n]), from, rects, box, id);
      }
    } else {
      var p :| Covered(rects, p)
        && !(HasBacking(m) && OnScreen(m, box) && Inside(box, DstInfo(m, 32, rotation).Place(p)));
      MissedPixel(m, rotation, src, size, srcSize, rects, box, id, p);
    }
  }

  /** For one: turned by 90 degrees, the top-left pixel of the image is never transferred when it is presented alone. */
  lemma RotatedPixelIsMissed(m: Mode, src: BltInfo, size: nat, srcSize: nat, box: Rect, id: nat)
    requires m.width > 0 && m.height > 1 && m.pitch == Stride(m) && Stride(m) * m.height <= size
    requires Blittable(DstInfo(m, 32, Rotate90), size, src, srcSize)
    requires RectsOk(DstInfo(m, 32, Rotate90), src, [Rect(0, 0, 1, 1)]) && IsUpdateRect(box, [Rect(0, 0, 1, 1)], m)
    ensures !AlwaysCoherent(m, Rotate90, src, size, srcSize, [Rect(0, 0, 1, 1)], box, id)
  {
    var rects := [Rect(0, 0, 1, 1)];
    HullOfOne(rects[0]);
    assert Within(box, rects[0]);
    assert Inside(rects[0], Point(0, 0)) && Covered(rects, Point(0, 0));
    MissedPixel(m, Rotate90, src, size, srcSize, rects, box, id, Point(0, 0));
  }

  // -------------------------------------------------------------------- any number of frames

  /** One call of `ExecutePresentDisplayOnly`: rotation, source surface and contents, rectangles, and the update
      rectangle found. */
  datatype Frame = Frame(rotation: Rotation, src: BltInfo, from: seq<byte>, rects: seq<Rect>, box: Rect)

  ghost predicate FrameOk(m: Mode, size: nat, f: Frame) {
    Blittable(DstInfo(m, 32, f.rotation), size, f.src, |f.from|)
  }

  ghost function Shown(m: Mode, id: nat, d: Display, frames: seq<Frame>): (r: Display)
    requires m.width > 0 && |d.host| == |d.shown|
    requires forall i :: 0 <= i < |frames| ==> FrameOk(m, |d.guest|, frames[i])
    ensures |r.guest| == |d.guest| && |r.host| == |d.host| == |r.shown|
    decreases |frames|
  {
    if |frames| == 0 then d
    else
      var n := |frames| - 1;
      var before, f := Shown(m, id, d, frames[..n]), frames[n];
      assert FrameOk(m, |d.guest|, f);
      Presented(m, id, f.rotation, f.src, before, f.from, f.rects, f.box)
  }

  /** The transfer and the flush of the whole screen that follow the creation of the framebuffer. */
  function FirstShown(m: Mode, id: nat, d: Display): (r: Display)
    requires m.width > 0 && |d.host| == |d.shown|
    ensures |r.host| == |d.host| == |r.shown|
  {
    Executed(m, id, Executed(m, id, d, TransferToHost2D(id, 0, m.width, m.height, 0, 0)),
             ResFlush(id, m.width, m.height, 0, 0))
  }

  lemma FirstTransferWorks(m: Mode, id: nat, d: Display)
    requires m.width > 0 && m.pitch == Stride(m) && |d.host| == |d.shown| == Stride(m) * m.height <= |d.guest|
    requires HasBacking(m)
    ensures InStep(FirstShown(m, id, d))
  {
    var c, r := Transfer(id, m, 32, Screen(m)), FirstShown(m, id, d);
    assert c == TransferToHost2D(id, 0, m.width, m.height, 0, 0);
    forall a | 0 <= a < |d.host| ensures r.host[a] == r.shown[a] == d.guest[a] {
      SamePlace(id, m, Screen(m), a);
      RowExists(a, Stride(m), m.height);
    }
  }

  /** They make guest, host and screen equal, whatever they held, if and only if the framebuffer has its backing, that
      is up to 7680 pages. */
  lemma FirstTransferIff(m: Mode, id: nat)
    requires m.width > 0 && m.pitch == Stride(m)
    ensures (forall d: Display | |d.host| == |d.shown| == Stride(m) * m.height == |d.guest| ::
               InStep(FirstShown(m, id, d)))
            <==> FramePages(m.width, m.height) <= MAX_PAGES
  {
    AttachReachesIff(FramePages(m.width, m.height));
    if HasBacking(m) {
      forall d: Display | |d.host| == |d.shown| == Stride(m) * m.height == |d.guest|
        ensures InStep(FirstShown(m, id, d))
      {
        FirstTransferWorks(m, id, d);
      }
    } else {
      var n := Stride(m) * m.height;
      assert n > 0;
      var d := Display(Bytes(n, 1), Bytes(n, 0), Bytes(n, 0));
      assert FirstShown(m, id, d).host == d.host && d.host[0] != d.guest[0];
      assert !InStep(FirstShown(m, id, d));
    }
  }

  lemma RowExists(a: nat, n: nat, height: nat)
    requires n > 0 && a < n * height
    ensures 0 <= a / n < height
  {
    assert a == n * (a / n) + a % n;
    assert n * (height - a / n) == n * height - n * (a / n);
    MulSign(n, height - a / n);
  }

  /** However many frames are presented after the framebuffer was created with its backing, host and screen show the
      guest's framebuffer if each frame reaches it. */
  lemma {:induction false} HostFollowsGuest(m: Mode, id: nat, d: Display, frames: seq<Frame>)
    requires m.width > 0 && m.pitch == Stride(m) && |d.host| == Stride(m) * m.height && InStep(d)
    requires forall i :: 0 <= i < |frames| ==> FrameOk(m, |d.guest|, frames[i])
    requires forall i :: 0 <= i < |frames| ==> Reaches(m, frames[i].rotation, frames[i].rects, frames[i].box)
    ensures InStep(Shown(m, id, d, frames))
    decreases |frames|
  {
    if |frames| > 0 {
      var n := |frames| - 1;
      HostFollowsGuest(m, id, d, frames[..n]);
      var before, f := Shown(m, id, d, frames[..n]), frames[n];
      assert FrameOk(m, |d.guest|, f) && Reaches(m, f.rotation, f.rects, f.box);
      PresentIsCoherent(m, f.rotation, f.src, before, f.from, f.rects, f.box, id);
    }
  }

  /** Without the backing the host never changes, whatever is presented, nor does the screen once it shows it. */
  lemma {:induction false} HostStays(m: Mode, id: nat, d: Display, frames: seq<Frame>)
    requires m.width > 0 && !HasBacking(m) && d.host == d.shown
    requires forall i :: 0 <= i < |frames| ==> FrameOk(m, |d.guest|, frames[i])
    ensures Shown(m, id, d, frames).host == Shown(m, id, d, frames).shown == d.host
    decreases |frames|
  {
    if |frames| > 0 {
      HostStays(m, id, d, frames[..|frames| - 1]);
    }
  }
}
