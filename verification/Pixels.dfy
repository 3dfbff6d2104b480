/** Pixel conversions of the software blitter, on bytes in memory order. */
module Pixels {
  import opened Bits

  // masks of lMaskTable and rMaskTable
  function Upper6(c: byte): byte { (c & 0xfc) >> 2 }
  function Upper5(c: byte): byte { (c & 0xf8) >> 3 }
  function Lower6(p: bv16): byte { ((p & 0xff) as bv8) & 0x3f }
  function Lower5(p: bv16): byte { ((p & 0xff) as bv8) & 0x1f }

  /** `CONVERT_32BPP_TO_16BPP` on the blue, green and red bytes. */
  function Pack565(b: byte, g: byte, r: byte): bv16 {
    (Upper5(r) as bv16 << 11) | (Upper6(g) as bv16 << 5) | (Upper5(b) as bv16)
  }

  /** `CONVERT_16BPP_TO_32BPP` */
  function Unpack565(p: bv16): bv32 {
    (Lower5(p >> 11) as bv32 << 19) | (Lower6(p >> 5) as bv32 << 10) | (Lower5(p) as bv32 << 3)
  }

  /** `CONVERT_32BPP_TO_8BPP` */
  function To8(b: byte, g: byte, r: byte): byte {
    (r / 43) * 36 + (g / 43) * 6 + (b / 43)
  }

  function Word(lo: byte, hi: byte): bv16 { (lo as bv16) | (hi as bv16 << 8) }
  function WordBytes(p: bv16): seq<byte> { [(p & 0xff) as bv8, ((p >> 8) & 0xff) as bv8] }
  function DwordBytes(p: bv32): seq<byte> {
    [(p & 0xff) as bv8, ((p >> 8) & 0xff) as bv8, ((p >> 16) & 0xff) as bv8, ((p >> 24) & 0xff) as bv8]
  }

  lemma BytesOfWord(lo: byte, hi: byte)
    ensures WordBytes(Word(lo, hi)) == [lo, hi]
  {
    assert (Word(lo, hi) & 0xff) as bv8 == lo;
    assert ((Word(lo, hi) >> 8) & 0xff) as bv8 == hi;
  }

  /** Widening a 16-bit pixel and narrowing it again gives it back, for all 65536 of them. */
  lemma PackUnpack(p: bv16)
    ensures var d := DwordBytes(Unpack565(p)); Pack565(d[0], d[1], d[2]) == p
  {
  }

  /** The channels of a 16-bit pixel: the upper bits of red, green and blue, blue in the low end. */
  lemma PackedLevels(b: byte, g: byte, r: byte)
    ensures Pack565(b, g, r) == ((r / 8) as bv16) * 2048 + ((g / 4) as bv16) * 32 + ((b / 8) as bv16)
  {
  }

  /** Widened, they are the upper bits of bytes again; the alpha byte is zero. */
  lemma UnpackedLevels(p: bv16)
    ensures DwordBytes(Unpack565(p))
         == [((p % 32) as bv8) * 8, ((p / 32 % 64) as bv8) * 4, ((p / 2048) as bv8) * 8, 0]
  {
  }

  /** An 8-bit pixel tells the level of each channel, out of six. */
  lemma PaletteLevels(b: byte, g: byte, r: byte)
    ensures var c := To8(b, g, r); c < 216 && c / 36 == r / 43 && c % 36 / 6 == g / 43 && c % 6 == b / 43
  {
  }

  /** Combinations of destination and source depth that the blitter handles. */
  predicate Supported(d: nat, s: nat) {
    (d, s) in {(32, 32), (32, 24), (32, 16), (24, 32), (24, 24), (16, 32), (8, 32)}
  }

  /** Bytes written for one pixel. */
  function Written(d: nat, s: nat): nat {
    if d == 24 || s == 24 then 3 else d / 8
  }

  /** The bytes written for a pixel read at `p`. */
  function Converted(src: seq<byte>, p: int, d: nat, s: nat): (r: seq<byte>)
    requires Supported(d, s) && 0 <= p && p + s / 8 <= |src|
    ensures |r| == Written(d, s) <= d / 8
  {
    if d == 24 || s == 24 then src[p..p + 3]
    else if d == 32 then
      if s == 32 then src[p..p + 4] else DwordBytes(Unpack565(Word(src[p], src[p + 1])))
    else if d == 16 then WordBytes(Pack565(src[p], src[p + 1], src[p + 2]))
    else [To8(src[p], src[p + 1], src[p + 2])]
  }

  /** Depth pairs whose pixels survive a trip from depth `s` to depth `d` and back. */
  predicate Reversible(d: nat, s: nat) {
    (d, s) in {(32, 32), (32, 24), (24, 32), (24, 24), (32, 16)}
  }

  /** Reading back what was written for a pixel restores its bytes (all but the alpha byte when 24 bits were kept). */
  lemma ConvertBack(src: seq<byte>, p: int, mid: seq<byte>, q: int, d: nat, s: nat)
    requires Reversible(d, s) && 0 <= p && p + s / 8 <= |src| && 0 <= q && q + d / 8 <= |mid|
    requires mid[q..q + Written(d, s)] == Converted(src, p, d, s)
    ensures Converted(mid, q, s, d) == src[p..p + Written(s, d)]
  {
    var c := Converted(src, p, d, s);
    forall k | 0 <= k < Written(d, s) ensures mid[q + k] == c[k] {
      assert mid[q..q + Written(d, s)][k] == c[k];
    }
    if s == 16 {
      var w := Word(src[p], src[p + 1]);
      PackUnpack(w);
      BytesOfWord(src[p], src[p + 1]);
    }
  }

  /** A 32-bit pixel narrowed to 16 bits and widened again keeps the upper bits of each channel. */
  lemma NarrowedBack(src: seq<byte>, p: int, mid: seq<byte>, q: int)
    requires 0 <= p && p + 4 <= |src| && 0 <= q && q + 2 <= |mid| && mid[q..q + 2] == Converted(src, p, 16, 32)
    ensures Converted(mid, q, 32, 16) == [src[p] & 0xf8, src[p + 1] & 0xfc, src[p + 2] & 0xf8, 0]
  {
    var w := Pack565(src[p], src[p + 1], src[p + 2]);
    assert mid[q..q + 2][0] == mid[q] && mid[q..q + 2][1] == mid[q + 1];
    WordOfBytes(w);
    KeptBits(src[p], src[p + 1], src[p + 2]);
  }

  lemma WordOfBytes(w: bv16)
    ensures Word(WordBytes(w)[0], WordBytes(w)[1]) == w
  {
  }

  lemma KeptBits(b: byte, g: byte, r: byte)
    ensures DwordBytes(Unpack565(Pack565(b, g, r))) == [b & 0xf8, g & 0xfc, r & 0xf8, 0]
  {
  }

  /** Narrowed to 8 bits it keeps the level of each channel. */
  lemma NarrowedTo8(src: seq<byte>, p: int, b: byte, g: byte, r: byte) returns (c: byte)
    requires 0 <= p && p + 4 <= |src| && (src[p], src[p + 1], src[p + 2]) == (b, g, r)
    ensures Converted(src, p, 8, 32) == [c]
    ensures c < 216 && c / 36 == r / 43 && c % 36 / 6 == g / 43 && c % 6 == b / 43
  {
    c := To8(b, g, r);
    PaletteLevels(b, g, r);
  }
}
