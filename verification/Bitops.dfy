/** The software blitter: an image is copied through pointers that advance by signed pitches. The meaning of a blit is
    a gather: every byte of the destination belongs to at most one pixel, and takes its value from the source pixel at
    the same unrotated point. */
module Bitops {
  import opened Bits
  import opened Pixels

  datatype Rotation = Identity | Rotate90 | Rotate180 | Rotate270
  datatype Point = Point(x: int, y: int)
  datatype Rect = Rect(left: int, top: int, right: int, bottom: int)

  /** `BLT_INFO`; `bits` is the position of the surface in its memory. */
  datatype BltInfo = BltInfo(bits: nat, pitch: nat, bitsPerPel: nat, offset: Point, rotation: Rotation,
                             width: nat, height: nat) {
    function Bpp(): nat { bitsPerPel / 8 }

    /** The column and row of the surface that show the point `p` of the unrotated image. */
    function Place(p: Point): Point {
      var x, y := p.x + offset.x, p.y + offset.y;
      match rotation
      case Identity => Point(x, y)
      case Rotate90 => Point(y, height - 1 - x)
      case Rotate180 => Point(width - 1 - x, height - 1 - y)
      case Rotate270 => Point(width - 1 - y, x)
    }

    /** The point shown at a place of the surface. */
    function Unplace(q: Point): Point {
      match rotation
      case Identity => Point(q.x - offset.x, q.y - offset.y)
      case Rotate90 => Point(height - 1 - q.y - offset.x, q.x - offset.y)
      case Rotate180 => Point(width - 1 - q.x - offset.x, height - 1 - q.y - offset.y)
      case Rotate270 => Point(q.y - offset.x, width - 1 - q.x - offset.y)
    }

    predicate Shows(p: Point) {
      var q := Place(p);
      0 <= q.x < width && 0 <= q.y < height
    }

    /** The address of a point's first byte. */
    function At(p: Point): int {
      var q := Place(p);
      bits + q.y * pitch + q.x * Bpp()
    }

    /** Rows do not overlap and the last one ends inside a memory of `size` bytes. */
    predicate Fits(size: nat) {
      && Bpp() > 0
      && width * Bpp() <= pitch
      && (height > 0 ==> bits + (height - 1) * pitch + width * Bpp() <= size)
    }

    /** The point whose pixel holds the byte at `a`, and which of its bytes that is. */
    function PointAt(a: int): Point
      requires pitch > 0 && Bpp() > 0
    {
      var rel := a - bits;
      Unplace(Point(rel % pitch / Bpp(), rel / pitch))
    }

    function ByteAt(a: int): (k: nat)
      requires pitch > 0 && Bpp() > 0
      ensures k < Bpp()
    {
      (a - bits) % pitch % Bpp()
    }
  }

  // -------------------------------------------------------------------- addresses

  /** The address of a point written out, by rotation and offset. */
  lemma Addresses(b: BltInfo, p: Point)
    ensures var n, x, y := b.bitsPerPel / 8, p.x + b.offset.x, p.y + b.offset.y;
            b.At(p) == match b.rotation
              case Identity => b.bits + y * b.pitch + x * n
              case Rotate90 => b.bits + (b.height - 1 - x) * b.pitch + y * n
              case Rotate180 => b.bits + (b.height - 1 - y) * b.pitch + (b.width - 1 - x) * n
              case Rotate270 => b.bits + x * b.pitch + (b.width - 1 - y) * n
  {
  }

  lemma PlaceUnplace(b: BltInfo, q: Point)
    ensures b.Place(b.Unplace(q)) == q
  {
  }

  lemma RowBytes(w: nat, u: int, n: nat)
    requires 0 <= u < w && n > 0
    ensures 0 <= u * n && u * n + n <= w * n
  {
    assert w * n - u * n == n * (w - u);
    MulSign(n, w - u);
    MulSign(n, u);
  }

  /** A shown pixel lies inside the memory. */
  lemma PixelInside(b: BltInfo, p: Point, size: nat)
    requires b.Fits(size) && b.Shows(p)
    ensures b.pitch > 0 && 0 <= b.At(p) && b.At(p) + b.Bpp() <= size
  {
    var q := b.Place(p);
    RowBytes(b.width, q.x, b.Bpp());
    RowBytes(b.height, q.y, b.pitch);
    assert (b.height - 1) * b.pitch == b.height * b.pitch - b.pitch;
  }

  /** No byte belongs to two pixels: the address map is injective. */
  lemma PixelOfByte(b: BltInfo, p: Point, k: nat)
    requires b.Bpp() > 0 && b.width * b.Bpp() <= b.pitch && b.Shows(p) && k < b.Bpp()
    ensures b.pitch > 0 && b.PointAt(b.At(p) + k) == p && b.ByteAt(b.At(p) + k) == k
  {
    var q, n := b.Place(p), b.Bpp();
    RowBytes(b.width, q.x, n);
    var rel, rest := b.At(p) + k - b.bits, q.x * n + k;
    assert rel == b.pitch * q.y + rest;
    RemainderUnique(rel, b.pitch, q.y, rest);
    RemainderUnique(rest, n, q.x, k);
  }

  /** A byte is found again from its pixel. */
  lemma ByteOfPixel(b: BltInfo, a: int)
    requires b.pitch > 0 && b.Bpp() > 0
    ensures b.At(b.PointAt(a)) + b.ByteAt(a) == a
  {
    var rel := a - b.bits;
    var u, v := rel % b.pitch / b.Bpp(), rel / b.pitch;
    PlaceUnplace(b, Point(u, v));
    QuotientAndRest(rel, b.pitch);
    QuotientAndRest(rel % b.pitch, b.Bpp());
  }

  lemma QuotientAndRest(x: int, n: int)
    requires n > 0
    ensures x == x / n * n + x % n
  {
  }

  const ORIGIN := Point(0, 0)
  const RIGHT := Point(1, 0)
  const BELOW := Point(0, 1)

  function PixelPitch(b: BltInfo): int { b.At(RIGHT) - b.At(ORIGIN) }
  function RowPitch(b: BltInfo): int { b.At(BELOW) - b.At(ORIGIN) }

  lemma StepBy(b: BltInfo, p: Point, q: Point, dx: int, dy: int)
    requires b.Place(q) == Point(b.Place(p).x + dx, b.Place(p).y + dy)
    ensures b.At(q) - b.At(p) == dy * b.pitch + dx * b.Bpp()
  {
    var t := b.Place(p);
    Distribute(t.y, dy, b.pitch);
    Distribute(t.x, dx, b.Bpp());
  }

  lemma Distribute(x: int, d: int, n: int)
    ensures (x + d) * n == x * n + d * n
  {
  }

  /** Addresses are affine: one step right or down changes the address by the same amount everywhere. */
  lemma Affine(b: BltInfo, p: Point)
    ensures b.At(Point(p.x + 1, p.y)) == b.At(p) + PixelPitch(b)
    ensures b.At(Point(p.x, p.y + 1)) == b.At(p) + RowPitch(b)
  {
    Steps(b, p);
    Steps(b, ORIGIN);
  }

  /** What one step right and one step down do, by rotation. */
  lemma Steps(b: BltInfo, p: Point)
    ensures b.At(Point(p.x + 1, p.y)) - b.At(p) ==
            match b.rotation
            case Identity => b.Bpp()
            case Rotate90 => 0 - b.pitch as int
            case Rotate180 => 0 - b.Bpp() as int
            case Rotate270 => b.pitch
    ensures b.At(Point(p.x, p.y + 1)) - b.At(p) ==
            match b.rotation
            case Identity => b.pitch
            case Rotate90 => b.Bpp()
            case Rotate180 => 0 - b.pitch as int
            case Rotate270 => 0 - b.Bpp() as int
  {
    var right, below := Point(p.x + 1, p.y), Point(p.x, p.y + 1);
    match b.rotation {
      case Identity => StepBy(b, p, right, 1, 0); StepBy(b, p, below, 0, 1);
      case Rotate90 => StepBy(b, p, right, 0, -1); StepBy(b, p, below, 1, 0);
      case Rotate180 => StepBy(b, p, right, -1, 0); StepBy(b, p, below, 0, -1);
      case Rotate270 => StepBy(b, p, right, 0, 1); StepBy(b, p, below, -1, 0);
    }
  }

  /** `GetPitches` */
  method GetPitches(b: BltInfo) returns (pixelPitch: int, rowPitch: int)
    ensures pixelPitch == PixelPitch(b) && rowPitch == RowPitch(b)
  {
    Steps(b, ORIGIN);
    match b.rotation {
      case Identity => pixelPitch, rowPitch := b.bitsPerPel / 8, b.pitch;
      case Rotate90 => pixelPitch, rowPitch := 0 - b.pitch as int, b.bitsPerPel / 8;
      case Rotate180 => pixelPitch, rowPitch := -(b.bitsPerPel as int / 8), 0 - b.pitch as int;
      case Rotate270 => pixelPitch, rowPitch := b.pitch, -(b.bitsPerPel as int / 8);
    }
  }

  /** `GetRowStart` */
  method GetRowStart(b: BltInfo, r: Rect) returns (start: int)
    ensures start == b.At(Point(r.left, r.top))
  {
    var offLeft, offTop := r.left + b.offset.x, r.top + b.offset.y;
    var bytesPerPixel := b.bitsPerPel / 8;
    match b.rotation {
      case Identity => start := b.bits + offTop * b.pitch + offLeft * bytesPerPixel;
      case Rotate90 => start := b.bits + (b.height - 1 - offLeft) * b.pitch + offTop * bytesPerPixel;
      case Rotate180 =>
        start := b.bits + (b.height - 1 - offTop) * b.pitch + (b.width - 1 - offLeft) * bytesPerPixel;
      case Rotate270 => start := b.bits + offLeft * b.pitch + (b.width - 1 - offTop) * bytesPerPixel;
    }
  }

  // -------------------------------------------------------------------- the meaning of a blit

  /** The points of a rectangle. */
  predicate Inside(r: Rect, p: Point) {
    r.left <= p.x < r.right && r.top <= p.y < r.bottom
  }

  predicate Covered(rects: seq<Rect>, p: Point) {
    exists i :: 0 <= i < |rects| && Inside(rects[i], p)
  }

  /** The driver asserts that rectangles are not turned inside out. */
  predicate Upright(r: Rect) {
    r.left <= r.right && r.top <= r.bottom
  }

  /** Two surfaces that can be blitted: sizes, depths, and every covered point shown on both. */
  ghost predicate Blittable(dst: BltInfo, dstSize: nat, src: BltInfo, srcSize: nat) {
    && Supported(dst.bitsPerPel, src.bitsPerPel)
    && dst.Fits(dstSize) && src.Fits(srcSize)
  }

  predicate ShownOnBoth(dst: BltInfo, src: BltInfo, p: Point) {
    dst.Shows(p) && src.Shows(p)
  }

  ghost predicate RectOk(dst: BltInfo, src: BltInfo, r: Rect) {
    Upright(r) && forall p :: Inside(r, p) ==> ShownOnBoth(dst, src, p)
  }

  ghost predicate RectsOk(dst: BltInfo, src: BltInfo, rects: seq<Rect>) {
    forall i :: 0 <= i < |rects| ==> RectOk(dst, src, rects[i])
  }

  /** The bytes written for the point `p`. */
  function Sample(dst: BltInfo, src: BltInfo, from: seq<byte>, p: Point): (r: seq<byte>)
    requires Supported(dst.bitsPerPel, src.bitsPerPel) && src.Fits(|from|) && src.Shows(p)
    ensures |r| == Written(dst.bitsPerPel, src.bitsPerPel) <= dst.Bpp()
  {
    PixelInside(src, p, |from|);
    Converted(from, src.At(p), dst.bitsPerPel, src.bitsPerPel)
  }

  /** The byte at `a` after the points `done` have been blitted over the contents `was`. */
  function BlitByte(dst: BltInfo, src: BltInfo, was: seq<byte>, from: seq<byte>, done: set<Point>, a: int): byte
    requires Blittable(dst, |was|, src, |from|) && 0 <= a < |was|
  {
    if dst.pitch == 0 then was[a]
    else
      var p, k := dst.PointAt(a), dst.ByteAt(a);
      if p in done && ShownOnBoth(dst, src, p) && k < Written(dst.bitsPerPel, src.bitsPerPel)
      then Sample(dst, src, from, p)[k] else was[a]
  }

  function Blit(dst: BltInfo, src: BltInfo, was: seq<byte>, from: seq<byte>, done: set<Point>): (r: seq<byte>)
    requires Blittable(dst, |was|, src, |from|)
    ensures |r| == |was|
  {
    seq(|was|, a requires 0 <= a < |was| => BlitByte(dst, src, was, from, done, a))
  }

  /** The contents with `bytes` stored at `d`. */
  function Patch(was: seq<byte>, d: int, bytes: seq<byte>): (r: seq<byte>)
    requires 0 <= d && d + |bytes| <= |was|
    ensures |r| == |was|
  {
    was[..d] + bytes + was[d + |bytes|..]
  }

  /** Copying one more pixel is one patch at its address. */
  lemma PixelStep(dst: BltInfo, src: BltInfo, was: seq<byte>, from: seq<byte>, done: set<Point>, p: Point)
    requires Blittable(dst, |was|, src, |from|) && ShownOnBoth(dst, src, p)
    ensures 0 <= dst.At(p) && dst.At(p) + dst.Bpp() <= |was|
    ensures Blit(dst, src, was, from, done + {p})
         == Patch(Blit(dst, src, was, from, done), dst.At(p), Sample(dst, src, from, p))
  {
    PixelInside(dst, p, |was|);
    var next := Blit(dst, src, was, from, done + {p});
    var bytes := Sample(dst, src, from, p);
    var patched := Patch(Blit(dst, src, was, from, done), dst.At(p), bytes);
    forall a | 0 <= a < |was| ensures next[a] == patched[a] {
      PixelStepAt(dst, src, was, from, done, p, a);
    }
  }

  lemma PixelStepAt(dst: BltInfo, src: BltInfo, was: seq<byte>, from: seq<byte>, done: set<Point>, p: Point, a: int)
    requires Blittable(dst, |was|, src, |from|) && ShownOnBoth(dst, src, p) && 0 <= a < |was|
    ensures var bytes := Sample(dst, src, from, p);
            BlitByte(dst, src, was, from, done + {p}, a)
            == if dst.At(p) <= a < dst.At(p) + |bytes| then bytes[a - dst.At(p)]
               else BlitByte(dst, src, was, from, done, a)
  {
    PixelInside(dst, p, |was|);
    ByteOfPixel(dst, a);
    if dst.At(p) <= a < dst.At(p) + Written(dst.bitsPerPel, src.bitsPerPel) {
      PixelOfByte(dst, p, a - dst.At(p));
    }
  }

  lemma NoPoints(dst: BltInfo, src: BltInfo, was: seq<byte>, from: seq<byte>)
    requires Blittable(dst, |was|, src, |from|)
    ensures Blit(dst, src, was, from, {}) == was
  {
  }

  // -------------------------------------------------------------------- points in the order of the loops

  function RectPoints(r: Rect): set<Point> {
    set x, y | r.left <= x < r.right && r.top <= y < r.bottom :: Point(x, y)
  }

  /** The first `n` points of the row `y`. */
  function RowPoints(r: Rect, y: int, n: nat): set<Point> {
    set x | r.left <= x < r.left + n :: Point(x, y)
  }

  function RowsOf(r: Rect, n: nat): set<Point> {
    RectPoints(r.(bottom := r.top + n))
  }

  function PointsOf(rects: seq<Rect>): set<Point> {
    if |rects| == 0 then {} else PointsOf(rects[..|rects| - 1]) + RectPoints(rects[|rects| - 1])
  }

  lemma NextPoint(done: set<Point>, r: Rect, y: int, n: nat)
    ensures done + RowPoints(r, y, n) + {Point(r.left + n, y)} == done + RowPoints(r, y, n + 1)
  {
    assert Point(r.left + n, y) in RowPoints(r, y, n + 1);
  }

  lemma NoRows(done: set<Point>, r: Rect)
    ensures done + RowsOf(r, 0) == done
  {
  }

  lemma NextRow(done: set<Point>, r: Rect, n: nat)
    requires r.left <= r.right
    ensures done + RowsOf(r, n) + RowPoints(r, r.top + n, r.right - r.left) == done + RowsOf(r, n + 1)
  {
    var row := RowPoints(r, r.top + n, r.right - r.left);
    assert RowsOf(r, n) + row == RowsOf(r, n + 1);
  }

  lemma NextRect(rects: seq<Rect>, i: nat)
    requires i < |rects|
    ensures PointsOf(rects[..i + 1]) == PointsOf(rects[..i]) + RectPoints(rects[i])
  {
    assert rects[..i + 1][..i] == rects[..i];
  }

  /** The points that the loops visit are the covered ones. */
  lemma {:induction false} PointsAreCovered(rects: seq<Rect>, p: Point)
    ensures p in PointsOf(rects) <==> Covered(rects, p)
  {
    if |rects| > 0 {
      var n := |rects| - 1;
      var front := rects[..n];
      PointsAreCovered(front, p);
      assert p in RectPoints(rects[n]) <==> Inside(rects[n], p);
      if Covered(rects, p) {
        var i :| 0 <= i < |rects| && Inside(rects[i], p);
        assert i < n ==> front[i] == rects[i];
      }
      if Covered(front, p) {
        var i :| 0 <= i < n && Inside(front[i], p);
        assert rects[i] == front[i];
      }
    }
  }

  // -------------------------------------------------------------------- the copying loops

  lemma PatchIs(was: seq<byte>, d: int, bytes: seq<byte>, now: seq<byte>)
    requires 0 <= d && d + |bytes| <= |was| == |now|
    requires forall a :: 0 <= a < |now| ==> now[a] == if d <= a < d + |bytes| then bytes[a - d] else was[a]
    ensures now == Patch(was, d, bytes)
  {
  }

  /** Stores `bytes` from position `d` on. */
  method Store(mem: array<byte>, d: int, bytes: seq<byte>)
    requires 0 <= d && d + |bytes| <= mem.Length
    modifies mem
    ensures mem[..] == Patch(old(mem[..]), d, bytes)
  {
    forall k | 0 <= k < |bytes| { mem[d + k] := bytes[k]; }
    assert mem[..] == Patch(old(mem[..]), d, bytes);
  }

  /** The body of the innermost loop of `CopyBitsGeneric`. */
  method CopyPixel(mem: array<byte>, d: int, dstDepth: nat, from: array<byte>, s: int, srcDepth: nat)
    requires mem != from && Supported(dstDepth, srcDepth)
    requires 0 <= d && d + dstDepth / 8 <= mem.Length && 0 <= s && s + srcDepth / 8 <= from.Length
    modifies mem
    ensures mem[..] == Patch(old(mem[..]), d, Converted(from[..], s, dstDepth, srcDepth))
  {
    ghost var was := mem[..];
    if dstDepth == 24 || srcDepth == 24 {
      mem[d], mem[d + 1], mem[d + 2] := from[s], from[s + 1], from[s + 2];
      assert from[..][s..s + 3] == [from[s], from[s + 1], from[s + 2]];
      PatchIs(was, d, [from[s], from[s + 1], from[s + 2]], mem[..]);
    } else if dstDepth == 32 {
      if srcDepth == 32 {
        Store(mem, d, from[s..s + 4]);
      } else {
        Store(mem, d, DwordBytes(Unpack565(Word(from[s], from[s + 1]))));
      }
    } else if dstDepth == 16 {
      Store(mem, d, WordBytes(Pack565(from[s], from[s + 1], from[s + 2])));
    } else {
      Store(mem, d, [To8(from[s], from[s + 1], from[s + 2])]);
    }
  }

  /** One pixel copied through the two pointers. */
  method CopyPoint(mem: array<byte>, dst: BltInfo, d: int, from: array<byte>, src: BltInfo, s: int,
                   ghost was: seq<byte>, ghost done: set<Point>, ghost p: Point)
    requires mem != from && Blittable(dst, mem.Length, src, from.Length) && ShownOnBoth(dst, src, p)
    requires d == dst.At(p) && s == src.At(p)
    requires |was| == mem.Length && mem[..] == Blit(dst, src, was, from[..], done)
    modifies mem
    ensures mem[..] == Blit(dst, src, was, from[..], done + {p})
  {
    PixelStep(dst, src, was, from[..], done, p);
    PixelInside(src, p, from.Length);
    CopyPixel(mem, d, dst.bitsPerPel, from, s, src.bitsPerPel);
  }

  /** The innermost loop of `CopyBitsGeneric`, with the advancing pixel pointers. */
  method CopyRow(mem: array<byte>, dst: BltInfo, dstRow: int, dstPixelPitch: int,
                 from: array<byte>, src: BltInfo, srcRow: int, srcPixelPitch: int, r: Rect,
                 ghost was: seq<byte>, ghost done: set<Point>, ghost y: int)
    requires mem != from && Blittable(dst, mem.Length, src, from.Length) && RectOk(dst, src, r)
    requires dstPixelPitch == PixelPitch(dst) && srcPixelPitch == PixelPitch(src)
    requires r.top <= y < r.bottom && dstRow == dst.At(Point(r.left, y)) && srcRow == src.At(Point(r.left, y))
    requires |was| == mem.Length && mem[..] == Blit(dst, src, was, from[..], done)
    modifies mem
    ensures mem[..] == Blit(dst, src, was, from[..], done + RowPoints(r, y, r.right - r.left))
  {
    var numPixels := r.right - r.left;
    var dstPixel, srcPixel := dstRow, srcRow;
    assert done + RowPoints(r, y, 0) == done;
    for x := 0 to numPixels
      invariant dstPixel == dst.At(Point(r.left + x, y)) && srcPixel == src.At(Point(r.left + x, y))
      invariant mem[..] == Blit(dst, src, was, from[..], done + RowPoints(r, y, x))
    {
      ghost var p := Point(r.left + x, y);
      assert Inside(r, p);
      CopyPoint(mem, dst, dstPixel, from, src, srcPixel, was, done + RowPoints(r, y, x), p);
      NextPoint(done, r, y, x);
      Affine(dst, p);
      Affine(src, p);
      dstPixel, srcPixel := dstPixel + dstPixelPitch, srcPixel + srcPixelPitch;
    }
  }

  /** The row loop of `CopyBitsGeneric`. */
  method CopyRect(mem: array<byte>, dst: BltInfo, from: array<byte>, src: BltInfo, r: Rect,
                  ghost was: seq<byte>, ghost done: set<Point>)
    requires mem != from && Blittable(dst, mem.Length, src, from.Length) && RectOk(dst, src, r)
    requires |was| == mem.Length && mem[..] == Blit(dst, src, was, from[..], done)
    modifies mem
    ensures mem[..] == Blit(dst, src, was, from[..], done + RectPoints(r))
  {
    var dstPixelPitch, dstRowPitch := GetPitches(dst);
    var srcPixelPitch, srcRowPitch := GetPitches(src);
    var numRows := r.bottom - r.top;
    var dstRow := GetRowStart(dst, r);
    var srcRow := GetRowStart(src, r);
    NoRows(done, r);
    for y := 0 to numRows
      invariant dstRow == dst.At(Point(r.left, r.top + y)) && srcRow == src.At(Point(r.left, r.top + y))
      invariant mem[..] == Blit(dst, src, was, from[..], done + RowsOf(r, y))
    {
      CopyRow(mem, dst, dstRow, dstPixelPitch, from, src, srcRow, srcPixelPitch, r, was, done + RowsOf(r, y),
          r.top + y);
      NextRow(done, r, y);
      Affine(dst, Point(r.left, r.top + y));
      Affine(src, Point(r.left, r.top + y));
      dstRow, srcRow := dstRow + dstRowPitch, srcRow + srcRowPitch;
    }
  }

  /** `CopyBitsGeneric` */
  method CopyBitsGeneric(mem: array<byte>, dst: BltInfo, from: array<byte>, src: BltInfo, rects: seq<Rect>)
    requires mem != from && Blittable(dst, mem.Length, src, from.Length) && RectsOk(dst, src, rects)
    modifies mem
    ensures mem[..] == Blit(dst, src, old(mem[..]), from[..], PointsOf(rects))
  {
    ghost var was := mem[..];
    NoPoints(dst, src, was, from[..]);
    for i := 0 to |rects|
      invariant mem[..] == Blit(dst, src, was, from[..], PointsOf(rects[..i]))
    {
      CopyRect(mem, dst, from, src, rects[i], was, PointsOf(rects[..i]));
      NextRect(rects, i);
    }
    assert rects[..|rects|] == rects;
  }

  /** Both surfaces are unrotated and have 32 bits per pixel. */
  predicate Plain32(dst: BltInfo, src: BltInfo) {
    dst.bitsPerPel == 32 && src.bitsPerPel == 32 && dst.rotation == Identity && src.rotation == Identity
  }

  /** The bytes of a row of a rectangle lie inside both memories. */
  lemma RowInside(b: BltInfo, size: nat, r: Rect, y: int)
    requires b.bitsPerPel == 32 && b.rotation == Identity && b.Fits(size) && r.left < r.right
    requires b.Shows(Point(r.left, y)) && b.Shows(Point(r.right - 1, y))
    ensures 0 <= b.At(Point(r.left, y)) && b.At(Point(r.left, y)) + 4 * (r.right - r.left) <= size
  {
    PixelInside(b, Point(r.left, y), size);
    PixelInside(b, Point(r.right - 1, y), size);
  }

  /** A point is in a row segment exactly when its bytes lie in the segment's bytes. */
  lemma RowSegment(dst: BltInfo, src: BltInfo, size: nat, from: nat, r: Rect, y: int, a: int)
    requires Plain32(dst, src) && Blittable(dst, size, src, from) && RectOk(dst, src, r) && r.left < r.right
    requires r.top <= y < r.bottom && dst.pitch > 0
    ensures var n, d := 4 * (r.right - r.left), dst.At(Point(r.left, y));
            && (d <= a < d + n <==> dst.PointAt(a) in RowPoints(r, y, r.right - r.left))
            && (d <= a < d + n ==>
                  src.At(dst.PointAt(a)) + dst.ByteAt(a) == src.At(Point(r.left, y)) + (a - d))
  {
    var p := Point(r.left, y);
    ByteOfPixel(dst, a);
    var here := dst.PointAt(a);
    if here in RowPoints(r, y, r.right - r.left) {
      assert dst.At(here) == dst.At(p) + (here.x - r.left) * 4;
    }
    if dst.At(p) <= a < dst.At(p) + 4 * (r.right - r.left) {
      var j, k := (a - dst.At(p)) / 4, (a - dst.At(p)) % 4;
      var q := Point(r.left + j, y);
      assert Inside(r, q) && dst.At(q) + k == a;
      PixelOfByte(dst, q, k);
    }
  }

  lemma RowByte(dst: BltInfo, src: BltInfo, was: seq<byte>, from: seq<byte>, done: set<Point>, r: Rect, y: int, a: int)
    requires Plain32(dst, src) && Blittable(dst, |was|, src, |from|) && RectOk(dst, src, r) && r.left < r.right
    requires r.top <= y < r.bottom && 0 <= a < |was| && dst.pitch > 0
    requires 0 <= src.At(Point(r.left, y)) && src.At(Point(r.left, y)) + 4 * (r.right - r.left) <= |from|
    ensures var n, d, s := 4 * (r.right - r.left), dst.At(Point(r.left, y)), src.At(Point(r.left, y));
            BlitByte(dst, src, was, from, done + RowPoints(r, y, r.right - r.left), a)
            == if d <= a < d + n then from[s + (a - d)] else BlitByte(dst, src, was, from, done, a)
  {
    RowSegment(dst, src, |was|, |from|, r, y, a);
    var q := dst.PointAt(a);
    if q in RowPoints(r, y, r.right - r.left) {
      assert Inside(r, q);
      PixelInside(src, q, |from|);
      assert Sample(dst, src, from, q) == from[src.At(q)..src.At(q) + 4];
    }
  }

  lemma RowStep(dst: BltInfo, src: BltInfo, was: seq<byte>, from: seq<byte>, done: set<Point>, r: Rect, y: int)
    requires Plain32(dst, src) && Blittable(dst, |was|, src, |from|) && RectOk(dst, src, r) && r.left < r.right
    requires r.top <= y < r.bottom
    ensures var n, p := r.right - r.left, Point(r.left, y);
            && 0 <= dst.At(p) && dst.At(p) + 4 * n <= |was| && 0 <= src.At(p) && src.At(p) + 4 * n <= |from|
            && Blit(dst, src, was, from, done + RowPoints(r, y, n))
            == Patch(Blit(dst, src, was, from, done), dst.At(p), from[src.At(p)..src.At(p) + 4 * n])
  {
    var n, p := r.right - r.left, Point(r.left, y);
    assert Inside(r, p) && Inside(r, Point(r.right - 1, y));
    RowInside(dst, |was|, r, y);
    RowInside(src, |from|, r, y);
    PixelInside(dst, p, |was|);
    var d, s := dst.At(p), src.At(p);
    var next := done + RowPoints(r, y, n);
    forall a | 0 <= a < |was|
      ensures BlitByte(dst, src, was, from, next, a)
           == if d <= a < d + 4 * n then from[s + (a - d)] else BlitByte(dst, src, was, from, done, a)
    {
      RowByte(dst, src, was, from, done, r, y, a);
    }
    PatchIs(Blit(dst, src, was, from, done), d, from[s..s + 4 * n], Blit(dst, src, was, from, next));
  }

  /** One row copied with a single memory copy (nothing is copied when the rectangle is empty). */
  method CopyRow32(mem: array<byte>, dst: BltInfo, d: int, from: array<byte>, src: BltInfo, s: int, n: nat, r: Rect,
                   ghost was: seq<byte>, ghost done: set<Point>, ghost y: int)
    requires mem != from && Plain32(dst, src) && Blittable(dst, mem.Length, src, from.Length) && RectOk(dst, src, r)
    requires r.top <= y < r.bottom && d == dst.At(Point(r.left, y)) && s == src.At(Point(r.left, y))
    requires n == 4 * (r.right - r.left)
    requires |was| == mem.Length && mem[..] == Blit(dst, src, was, from[..], done)
    modifies mem
    ensures mem[..] == Blit(dst, src, was, from[..], done + RowPoints(r, y, r.right - r.left))
  {
    if n > 0 {
      RowStep(dst, src, was, from[..], done, r, y);
      Store(mem, d, from[s..s + n]);
    } else {
      assert done + RowPoints(r, y, 0) == done;
    }
  }

  /** The row loop of `CopyBits32_32`: whole rows are copied at once. */
  method CopyRect32(mem: array<byte>, dst: BltInfo, from: array<byte>, src: BltInfo, r: Rect,
                    ghost was: seq<byte>, ghost done: set<Point>)
    requires mem != from && Plain32(dst, src) && Blittable(dst, mem.Length, src, from.Length) && RectOk(dst, src, r)
    requires |was| == mem.Length && mem[..] == Blit(dst, src, was, from[..], done)
    modifies mem
    ensures mem[..] == Blit(dst, src, was, from[..], done + RectPoints(r))
  {
    var numPixels, numRows := r.right - r.left, r.bottom - r.top;
    var bytesToCopy := numPixels * 4;
    var startDst := dst.bits + (r.top + dst.offset.y) * dst.pitch + (r.left + dst.offset.x) * 4;
    var startSrc := src.bits + (r.top + src.offset.y) * src.pitch + (r.left + src.offset.x) * 4;
    NoRows(done, r);
    PlainPitches(dst);
    PlainPitches(src);
    for y := 0 to numRows
      invariant startDst == dst.At(Point(r.left, r.top + y)) && startSrc == src.At(Point(r.left, r.top + y))
      invariant mem[..] == Blit(dst, src, was, from[..], done + RowsOf(r, y))
    {
      CopyRow32(mem, dst, startDst, from, src, startSrc, bytesToCopy, r, was, done + RowsOf(r, y), r.top + y);
      NextRow(done, r, y);
      Affine(dst, Point(r.left, r.top + y));
      Affine(src, Point(r.left, r.top + y));
      startDst, startSrc := startDst + dst.pitch, startSrc + src.pitch;
    }
  }

  lemma PlainPitches(b: BltInfo)
    requires b.rotation == Identity
    ensures RowPitch(b) == b.pitch
  {
    Steps(b, ORIGIN);
  }

  /** `CopyBits32_32` */
  method CopyBits32(mem: array<byte>, dst: BltInfo, from: array<byte>, src: BltInfo, rects: seq<Rect>)
    requires mem != from && Plain32(dst, src) && Blittable(dst, mem.Length, src, from.Length)
    requires RectsOk(dst, src, rects)
    modifies mem
    ensures mem[..] == Blit(dst, src, old(mem[..]), from[..], PointsOf(rects))
  {
    ghost var was := mem[..];
    NoPoints(dst, src, was, from[..]);
    for i := 0 to |rects|
      invariant mem[..] == Blit(dst, src, was, from[..], PointsOf(rects[..i]))
    {
      CopyRect32(mem, dst, from, src, rects[i], was, PointsOf(rects[..i]));
      NextRect(rects, i);
    }
    assert rects[..|rects|] == rects;
  }

  /** `BltBits`: the choice of the copying loop does not show in the result. */
  method BltBits(mem: array<byte>, dst: BltInfo, from: array<byte>, src: BltInfo, rects: seq<Rect>)
    requires mem != from && Blittable(dst, mem.Length, src, from.Length) && RectsOk(dst, src, rects)
    modifies mem
    ensures mem[..] == Blit(dst, src, old(mem[..]), from[..], PointsOf(rects))
  {
    if dst.bitsPerPel == 32 && src.bitsPerPel == 32 && dst.rotation == Identity && src.rotation == Identity {
      CopyBits32(mem, dst, from, src, rects);
    } else {
      CopyBitsGeneric(mem, dst, from, src, rects);
    }
  }

  // -------------------------------------------------------------------- what a blit does

  lemma CoveredShows(dst: BltInfo, src: BltInfo, rects: seq<Rect>, p: Point)
    requires RectsOk(dst, src, rects) && Covered(rects, p)
    ensures ShownOnBoth(dst, src, p)
  {
    var i :| 0 <= i < |rects| && Inside(rects[i], p);
    assert RectOk(dst, src, rects[i]);
  }

  lemma BlitByteAt(dst: BltInfo, src: BltInfo, was: seq<byte>, from: seq<byte>, rects: seq<Rect>, p: Point, k: nat)
    requires Blittable(dst, |was|, src, |from|) && RectsOk(dst, src, rects) && Covered(rects, p)
    requires k < Written(dst.bitsPerPel, src.bitsPerPel)
    ensures ShownOnBoth(dst, src, p) && 0 <= dst.At(p) && dst.At(p) + dst.Bpp() <= |was|
    ensures Blit(dst, src, was, from, PointsOf(rects))[dst.At(p) + k] == Sample(dst, src, from, p)[k]
  {
    CoveredShows(dst, src, rects, p);
    PixelInside(dst, p, |was|);
    PixelOfByte(dst, p, k);
    PointsAreCovered(rects, p);
  }

  /** A covered pixel holds the converted pixel of the source at the same point. */
  lemma BlitAt(dst: BltInfo, src: BltInfo, was: seq<byte>, from: seq<byte>, rects: seq<Rect>, p: Point)
    requires Blittable(dst, |was|, src, |from|) && RectsOk(dst, src, rects) && Covered(rects, p)
    ensures ShownOnBoth(dst, src, p) && 0 <= dst.At(p) && dst.At(p) + dst.Bpp() <= |was|
    ensures Blit(dst, src, was, from, PointsOf(rects))[dst.At(p)..dst.At(p) + Written(dst.bitsPerPel, src.bitsPerPel)]
         == Sample(dst, src, from, p)
  {
    CoveredShows(dst, src, rects, p);
    PixelInside(dst, p, |was|);
    var d, after, bytes := dst.At(p), Blit(dst, src, was, from, PointsOf(rects)), Sample(dst, src, from, p);
    forall k | 0 <= k < |bytes| ensures after[d + k] == bytes[k] {
      BlitByteAt(dst, src, was, from, rects, p, k);
    }
    SliceIs(after, d, bytes);
  }

  lemma SliceIs(s: seq<byte>, d: int, t: seq<byte>)
    requires 0 <= d && d + |t| <= |s| && forall k :: 0 <= k < |t| ==> s[d + k] == t[k]
    ensures s[d..d + |t|] == t
  {
  }

  /** Every byte that is not written for a covered point keeps its value. */
  lemma BlitElsewhere(dst: BltInfo, src: BltInfo, was: seq<byte>, from: seq<byte>, rects: seq<Rect>, a: int)
    requires Blittable(dst, |was|, src, |from|) && 0 <= a < |was|
    requires forall p :: Covered(rects, p) ==>
               !(dst.At(p) <= a < dst.At(p) + Written(dst.bitsPerPel, src.bitsPerPel))
    ensures Blit(dst, src, was, from, PointsOf(rects))[a] == was[a]
  {
    if dst.pitch > 0 {
      PointsAreCovered(rects, dst.PointAt(a));
      ByteOfPixel(dst, a);
    }
  }

  /** What can be blitted one way with a reversible pair of depths can be blitted back. */
  lemma WayBack(image: BltInfo, surface: BltInfo, imageSize: nat, size: nat, rects: seq<Rect>)
    requires Reversible(surface.bitsPerPel, image.bitsPerPel)
    requires Blittable(surface, size, image, imageSize) && RectsOk(surface, image, rects)
    ensures Blittable(image, imageSize, surface, size) && RectsOk(image, surface, rects)
  {
    forall i | 0 <= i < |rects| ensures RectOk(image, surface, rects[i]) {
      assert RectOk(surface, image, rects[i]);
    }
  }

  /** The image memory after the image in `from` went to the surface memory `was` and was read back over `back`. */
  ghost function ThereAndBack(image: BltInfo, surface: BltInfo, from: seq<byte>, was: seq<byte>, back: seq<byte>,
                              rects: seq<Rect>): (r: seq<byte>)
    requires Reversible(surface.bitsPerPel, image.bitsPerPel) && |back| == |from|
    requires Blittable(surface, |was|, image, |from|) && RectsOk(surface, image, rects)
    ensures |r| == |from|
  {
    WayBack(image, surface, |from|, |was|, rects);
    Blit(image, surface, back, Blit(surface, image, was, from, PointsOf(rects)), PointsOf(rects))
  }

  /** An image of any size blitted to a surface of any rotation, offset and depth that keeps its pixels, and read back
      with the same rotation, is restored pixel by pixel. */
  lemma RoundTrip(image: BltInfo, surface: BltInfo, from: seq<byte>, was: seq<byte>, back: seq<byte>,
                  rects: seq<Rect>, p: Point)
    requires Reversible(surface.bitsPerPel, image.bitsPerPel) && |back| == |from|
    requires Blittable(surface, |was|, image, |from|) && RectsOk(surface, image, rects) && Covered(rects, p)
    ensures 0 <= image.At(p) && image.At(p) + image.Bpp() <= |from|
    ensures var n := Written(image.bitsPerPel, surface.bitsPerPel);
            ThereAndBack(image, surface, from, was, back, rects)[image.At(p)..image.At(p) + n]
            == from[image.At(p)..image.At(p) + n]
  {
    WayBack(image, surface, |from|, |was|, rects);
    var there := Blit(surface, image, was, from, PointsOf(rects));
    BlitAt(surface, image, was, from, rects, p);
    BlitAt(image, surface, back, there, rects, p);
    PixelInside(image, p, |from|);
    PixelInside(surface, p, |was|);
    ConvertBack(from, image.At(p), there, surface.At(p), surface.bitsPerPel, image.bitsPerPel);
  }

  /** Reading back over the image itself leaves its whole memory as it was. */
  lemma RoundTripRestores(image: BltInfo, surface: BltInfo, from: seq<byte>, was: seq<byte>, rects: seq<Rect>)
    requires Reversible(surface.bitsPerPel, image.bitsPerPel)
    requires Blittable(surface, |was|, image, |from|) && RectsOk(surface, image, rects)
    ensures ThereAndBack(image, surface, from, was, from, rects) == from
  {
    forall a | 0 <= a < |from| ensures ThereAndBack(image, surface, from, was, from, rects)[a] == from[a] {
      RestoredAt(image, surface, from, was, rects, a);
    }
  }

  lemma RestoredAt(image: BltInfo, surface: BltInfo, from: seq<byte>, was: seq<byte>, rects: seq<Rect>, a: nat)
    requires Reversible(surface.bitsPerPel, image.bitsPerPel) && a < |from|
    requires Blittable(surface, |was|, image, |from|) && RectsOk(surface, image, rects)
    ensures ThereAndBack(image, surface, from, was, from, rects)[a] == from[a]
  {
    if image.pitch > 0 {
      var p, k, n := image.PointAt(a), image.ByteAt(a), Written(image.bitsPerPel, surface.bitsPerPel);
      ByteOfPixel(image, a);
      PointsAreCovered(rects, p);
      WayBack(image, surface, |from|, |was|, rects);
      if Covered(rects, p) && k < n {
        RoundTrip(image, surface, from, was, from, rects, p);
        SliceAt(ThereAndBack(image, surface, from, was, from, rects), from, image.At(p), n, a);
      }
    }
  }

  lemma SliceAt(s: seq<byte>, t: seq<byte>, d: int, n: nat, a: int)
    requires 0 <= d <= a < d + n <= |s| && d + n <= |t| && s[d..d + n] == t[d..d + n]
    ensures s[a] == t[a]
  {
    assert s[d..d + n][a - d] == t[d..d + n][a - d];
  }
}
