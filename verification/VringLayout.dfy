/** Placement of the parts of a virtqueue in memory, and the sizing of its allocations. */
module VringLayout {
  import opened Bits
  import opened Options

  const DESC_BYTES := 16
  const USED_ELEM_BYTES := 8
  const CACHE_LINE := 64

  /** The next multiple of `align`. */
  function AlignUp(x: nat, align: nat): int
    requires align > 0
  {
    x + align - 1 - (x + align - 1) % align
  }

  /** The code computes it as `(x + align - 1) & ~(align - 1)`. */
  lemma MaskAligns(x: nat, k: nat)
    ensures AndNot(x + Pow2(k) - 1, Pow2(k) - 1) == AlignUp(x, Pow2(k))
  {
    MaskIsRemainder(x + Pow2(k) - 1, k);
  }

  lemma RoundingDown(y: nat, a: nat)
    requires a > 0
    ensures y - a < y - y % a <= y && (y - y % a) % a == 0
  {
    var q := y / a;
    assert y == a * q + y % a;
    RemainderUnique(a * q, a, q, 0);
  }

  lemma AlignUpRounds(x: nat, k: nat)
    ensures var r := AlignUp(x, Pow2(k)); x <= r < x + Pow2(k) && r % Pow2(k) == 0
  {
    RoundingDown(x + Pow2(k) - 1, Pow2(k));
  }

  lemma AddMultiple(p: nat, y: nat, a: nat)
    requires a > 0 && p % a == 0
    ensures (p + y) % a == y % a
  {
    var u, v, r := p / a, y / a, y % a;
    assert p == a * u && y == a * v + r;
    assert a * (u + v) == a * u + a * v;
    RemainderUnique(p + y, a, u + v, r);
  }

  lemma AlignUpShift(p: nat, x: nat, k: nat)
    requires p % Pow2(k) == 0
    ensures AlignUp(p + x, Pow2(k)) == p + AlignUp(x, Pow2(k))
  {
    var a := Pow2(k);
    AddMultiple(p, x + a - 1, a);
  }

  lemma Pow2Multiple(a: nat, b: nat, x: nat)
    requires a <= b && x % Pow2(b) == 0
    ensures x % Pow2(a) == 0
  {
    Pow2Sum(a, b - a);
    var n, m := Pow2(a), Pow2(b - a);
    assert n * m == Pow2(b);
    RemainderOfRemainder(x, n, m);
    assert 0 % n == 0;
  }

  /** `vring_size` */
  function VringSize(num: nat, align: nat): int
    requires align > 0
  {
    AlignUp(DESC_BYTES * num + 2 * (3 + num), align) + 2 * 3 + USED_ELEM_BYTES * num
  }

  /** Addresses of the three parts. */
  datatype Vring = Vring(num: nat, desc: nat, avail: nat, used: int) {
    function UsedEvent(): nat { avail + 4 + 2 * num }
    function AvailEvent(): int { used + 4 + USED_ELEM_BYTES * num }
  }

  /** `vring_init` */
  function VringInit(num: nat, p: nat, align: nat): Vring
    requires align > 0
  {
    var avail := p + num * DESC_BYTES;
    Vring(num, p, avail, AlignUp(avail + 4 + 2 * num + 2, align))
  }

  lemma DivisibleParts(p: nat, u: int, k: nat)
    requires 4 <= k && p % Pow2(k) == 0 && u >= 0 && u % Pow2(k) == 0
    ensures p % 16 == 0 && u % 4 == 0
  {
    assert Pow2(4) == 16 && Pow2(2) == 4;
    Pow2Multiple(4, k, p);
    Pow2Multiple(2, k, u);
  }

  /** The parts do not overlap and end at `end`. */
  predicate Disjoint(v: Vring, p: nat, end: int) {
    && v.desc == p
    && v.avail == v.desc + DESC_BYTES * v.num
    && v.UsedEvent() + 2 <= v.used
    && v.AvailEvent() + 2 == end
  }

  predicate Aligned(v: Vring) {
    v.desc % 16 == 0 && v.avail % 2 == 0 && v.used % 4 == 0
  }

  /** Descriptors, available ring with its event word, and used ring with its event word are aligned, follow each other
      without overlap, and end exactly at the computed size. */
  lemma LayoutIsSound(num: nat, p: nat, k: nat)
    requires 4 <= k && p % Pow2(k) == 0
    ensures Disjoint(VringInit(num, p, Pow2(k)), p, p + VringSize(num, Pow2(k)))
    ensures Aligned(VringInit(num, p, Pow2(k)))
    ensures VringInit(num, p, Pow2(k)).used % Pow2(k) == 0
  {
    UsedPlacement(num, p, k);
    DivisibleParts(p, VringInit(num, p, Pow2(k)).used, k);
    EvenSum(p, num);
  }

  // ----- every word has its own bytes -----

  /** What lies in the memory of a ring: descriptors, and the words and entries of the two rings. */
  datatype Part =
    | Descriptor(i: nat)
    | AvailFlags
    | AvailIndex
    | AvailEntry(i: nat)
    | UsedEventWord
    | UsedFlags
    | UsedIndex
    | UsedEntry(i: nat)
    | AvailEventWord

  predicate IsPart(num: nat, part: Part) {
    part.Descriptor? || part.AvailEntry? || part.UsedEntry? ==> part.i < num
  }

  /** Where a part starts, by the declarations of `struct vring_desc`, `vring_avail` and `vring_used`. */
  function Start(v: Vring, part: Part): int {
    match part
    case Descriptor(i) => v.desc + 16 * i
    case AvailFlags => v.avail
    case AvailIndex => v.avail + 2
    case AvailEntry(i) => v.avail + 4 + 2 * i
    case UsedEventWord => v.UsedEvent()
    case UsedFlags => v.used
    case UsedIndex => v.used + 2
    case UsedEntry(i) => v.used + 4 + 8 * i
    case AvailEventWord => v.AvailEvent()
  }

  function Size(part: Part): nat {
    match part
    case Descriptor(_) => 16
    case UsedEntry(_) => 8
    case _ => 2
  }

  predicate Apart(v: Vring, a: Part, b: Part) {
    Start(v, a) + Size(a) <= Start(v, b) || Start(v, b) + Size(b) <= Start(v, a)
  }

  lemma PartsFollow(v: Vring, p: nat, end: int, a: Part, b: Part)
    requires Disjoint(v, p, end) && IsPart(v.num, a) && IsPart(v.num, b) && a != b
    ensures Apart(v, a, b) && p <= Start(v, a) && Start(v, a) + Size(a) <= end
  {
  }

  /** No two parts share a byte, all lie in the memory of the ring, and each event word follows the last entry of a
      ring. There is no more padding than the alignment needs. */
  lemma PartsAreApart(num: nat, p: nat, k: nat)
    requires 4 <= k && p % Pow2(k) == 0
    ensures var v := VringInit(num, p, Pow2(k));
            && (forall a: Part, b: Part | IsPart(num, a) && IsPart(num, b) && a != b :: Apart(v, a, b))
            && (forall a: Part | IsPart(num, a) ::
                  p <= Start(v, a) && Start(v, a) + Size(a) <= p + VringSize(num, Pow2(k)))
            && (num > 0 ==>
                  && Start(v, UsedEventWord) == Start(v, AvailEntry(num - 1)) + 2
                  && Start(v, AvailEventWord) == Start(v, UsedEntry(num - 1)) + 8)
            && Start(v, UsedFlags) < Start(v, UsedEventWord) + 2 + Pow2(k)
  {
    LayoutIsSound(num, p, k);
    UsedPlacement(num, p, k);
    var v, end := VringInit(num, p, Pow2(k)), p + VringSize(num, Pow2(k));
    forall a: Part, b: Part | IsPart(num, a) && IsPart(num, b) && a != b ensures Apart(v, a, b) {
      PartsFollow(v, p, end, a, b);
    }
    forall a: Part | IsPart(num, a) ensures p <= Start(v, a) && Start(v, a) + Size(a) <= end {
      PartsFollow(v, p, end, a, if a == AvailFlags then UsedFlags else AvailFlags);
    }
  }

  lemma EvenSum(p: nat, num: nat)
    requires p % 16 == 0
    ensures (p + num * DESC_BYTES) % 2 == 0
  {
    var q := p / 16;
    assert p == 16 * q;
    RemainderUnique(p + num * DESC_BYTES, 2, 8 * q + 8 * num, 0);
  }

  lemma UsedPlacement(num: nat, p: nat, k: nat)
    requires p % Pow2(k) == 0
    ensures var u := VringInit(num, p, Pow2(k)).used; var x := DESC_BYTES * num + 2 * (3 + num);
      p + x <= u < p + x + Pow2(k) && u % Pow2(k) == 0 && u == p + AlignUp(x, Pow2(k))
  {
    var x := DESC_BYTES * num + 2 * (3 + num);
    assert p + num * DESC_BYTES + 4 + 2 * num + 2 == p + x;
    AlignUpShift(p, x, k);
    AlignUpRounds(p + x, k);
  }

  function RoundToPages(x: nat): int {
    AlignUp(x, PAGE)
  }

  lemma Alignments()
    ensures Pow2(12) == PAGE && Pow2(6) == CACHE_LINE
  {
    assert Pow2(2) == 4 && Pow2(4) == 16;
    Pow2Sum(2, 4);
    Pow2Sum(6, 6);
  }

  lemma RoundToPagesRounds(x: nat)
    ensures x <= RoundToPages(x) < x + PAGE && RoundToPages(x) % PAGE == 0
  {
    Alignments();
    AlignUpRounds(x, 12);
  }

  lemma VringSizeNat(num: nat, k: nat)
    ensures VringSize(num, Pow2(k)) >= 0
  {
    AlignUpRounds(DESC_BYTES * num + 2 * (3 + num), k);
  }

  /** The pages allocated for a ring hold it. */
  lemma RingFitsPages(num: nat, queue: nat, align: nat)
    requires queue % PAGE == 0 && align in {CACHE_LINE, PAGE}
    ensures VringSize(num, align) >= 0
    ensures VringInit(num, queue, align).AvailEvent() + 2 <= queue + RoundToPages(VringSize(num, align))
  {
    Alignments();
    var k := if align == PAGE then 12 else 6;
    Pow2Multiple(k, 12, queue);
    VringSizeNat(num, k);
    RoundToPagesRounds(VringSize(num, align));
    LayoutIsSound(num, queue, k);
  }

  /** One legacy allocation holds the ring and, behind it, the control block with its token array. */
  lemma LegacyControlBlockFits(num: nat, queue: nat, control: nat, ptr: nat)
    requires queue % PAGE == 0
    ensures VringSize(num, PAGE) >= 0
    ensures var ringSize := RoundToPages(VringSize(num, PAGE)); var dataSize := RoundToPages(ptr * num + control);
      var vq := queue + ringSize;
      && VringInit(num, queue, PAGE).AvailEvent() + 2 <= vq
      && vq + control + ptr * num <= queue + (ringSize + dataSize)
  {
    RingFitsPages(num, queue, PAGE);
    RoundToPagesRounds(ptr * num + control);
  }

  // ----- queue sizes -----

  /** The test of `vring_new_virtqueue`, with 32-bit wrap-around. */
  predicate AcceptsSize(num: nat) {
    And(num, (num - 1) % 0x1_0000_0000) == 0
  }

  lemma AcceptsPowersAndZero(num: nat)
    requires num < 0x1_0000_0000
    ensures AcceptsSize(num) <==> num == 0 || exists k: nat :: num == Pow2(k)
  {
    if num > 0 {
      assert (num - 1) % 0x1_0000_0000 == num - 1;
      PowerOfTwoTest(num);
    }
  }

  function Halved(num: nat, times: nat): nat
    decreases times
  {
    if times == 0 then num else Halved(num, times - 1) / 2
  }

  lemma {:induction false} HalvedPow2(k: nat, times: nat)
    ensures times <= k ==> Halved(Pow2(k), times) == Pow2(k - times)
    ensures times > k ==> Halved(Pow2(k), times) == 0
  {
    if times > 0 {
      HalvedPow2(k, times - 1);
    }
  }

  /** All of the first `n` attempts failed with some entries left. */
  ghost predicate FailedBefore(num0: nat, alloc: nat -> bool, n: nat) {
    forall i: nat {:trigger alloc(i)} | i < n :: !alloc(i) && Halved(num0, i) > 0
  }

  /** The allocation loop of `vio_modern_setup_vq`; `alloc(i)` says whether attempt `i` succeeds. */
  method ScaleDown(num0: nat, alloc: nat -> bool) returns (r: Option<nat>, attempts: nat)
    ensures FailedBefore(num0, alloc, attempts)
    ensures match r
      case Some(num) => alloc(attempts) && num == Halved(num0, attempts) && ScaledTo(num0, alloc, num)
      case None => !alloc(attempts) && Halved(num0, attempts) == 0
  {
    var num := num0;
    attempts := 0;
    while !alloc(attempts)
      invariant num == Halved(num0, attempts)
      invariant FailedBefore(num0, alloc, attempts)
      decreases num
    {
      if num > 0 {
        num := num / 2;
        attempts := attempts + 1;
      } else {
        return None, attempts;
      }
    }
    r := Some(num);
  }

  /** The loop ends with `num` entries. */
  ghost predicate ScaledTo(num0: nat, alloc: nat -> bool, num: nat) {
    exists i: nat {:trigger alloc(i)} :: alloc(i) && num == Halved(num0, i) && FailedBefore(num0, alloc, i)
  }

  /** Scaling a queue of 2^k entries leaves a usable size if and only if one of the first k + 1 attempts succeeds.
      When only the attempt after that does, the loop goes on with no entries at all, which the size test does not
      reject. */
  lemma ScaleDownIsUsable(k: nat, alloc: nat -> bool, num: nat)
    requires ScaledTo(Pow2(k), alloc, num)
    ensures num >= 1 <==> exists i: nat :: i <= k && alloc(i)
    ensures num >= 1 ==> num <= Pow2(k) && exists j: nat :: j <= k && num == Pow2(j)
    ensures num == 0 ==> AcceptsSize(num)
  {
    var i: nat :| alloc(i) && num == Halved(Pow2(k), i) && FailedBefore(Pow2(k), alloc, i);
    HalvedPow2(k, i);
    if i <= k {
      assert alloc(i) && num == Pow2(k - i);
      Pow2Sum(k - i, i);
      MulSign(Pow2(k - i), Pow2(i));
    } else {
      HalvedPow2(k, k + 1);
      forall j: nat | j <= k ensures !alloc(j) {
      }
    }
  }

  /** The control block and token array sized for the requested queue suffice for the scaled-down one, and the pages
      allocated for the final size hold its ring. */
  lemma ModernBlockSuffices(k: nat, alloc: nat -> bool, num: nat, queue: nat, control: nat, ptr: nat)
    requires ScaledTo(Pow2(k), alloc, num) && num >= 1 && queue % PAGE == 0
    ensures control + ptr * num <= control + ptr * Pow2(k)
    ensures VringSize(num, CACHE_LINE) >= 0
    ensures VringInit(num, queue, CACHE_LINE).AvailEvent() + 2 <= queue + RoundToPages(VringSize(num, CACHE_LINE))
  {
    ScaleDownIsUsable(k, alloc, num);
    MulMonotone(ptr, num, Pow2(k));
    RingFitsPages(num, queue, CACHE_LINE);
  }

  lemma MulMonotone(a: nat, x: nat, y: nat)
    requires x <= y
    ensures a * x <= a * y
  {
  }
}
