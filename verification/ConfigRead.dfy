/** Reading several configuration fields while the device may change them: the read is repeated until the generation
    count is the same before and after. */
module ConfigRead {
  import opened Bits

  /** Generation (unbounded; the register shows its low 8 bits) and contents of the configuration space. */
  datatype Snapshot = Snapshot(generation: nat, contents: seq<byte>)

  /** What the space is at each access of the driver; changes fall between accesses. */
  type History = nat -> Snapshot

  const REGISTER := 0x100

  function Register(hist: History, t: nat): (r: nat)
    ensures r < REGISTER
  {
    hist(t).generation % REGISTER
  }

  ghost predicate Sized(hist: History, size: nat) {
    forall t: nat :: |hist(t).contents| == size
  }

  /** The device bumps the generation whenever the contents change. */
  ghost predicate Bumps(hist: History, size: nat) {
    && Sized(hist, size)
    && (forall t: nat, u: nat | u == t + 1 :: hist(t).generation <= hist(u).generation)
    && (forall t: nat, u: nat | u == t + 1 :: hist(t).contents != hist(u).contents ==>
                                                hist(t).generation < hist(u).generation)
  }

  /** It bumps it fewer than 256 times during `count` reads. */
  ghost predicate FewChanges(hist: History, count: nat) {
    forall t: nat, u: nat | u == t + count + 1 :: hist(u).generation < hist(t).generation + REGISTER
  }

  /** Nothing changes from some time on. */
  ghost predicate Settles(hist: History, stable: nat) {
    forall t: nat :: t >= stable ==> hist(t) == hist(stable)
  }

  /** The contents do not change during `count` reads from `t` on. */
  ghost predicate Unchanging(hist: History, t: nat, count: nat) {
    forall u: nat :: t <= u < t + count ==> hist(u).contents == hist(t).contents
  }

  // -------------------------------------------------------------------- what reads collect

  /** What `count` accesses of `bytes` bytes each return, one after the other from `t` on. */
  function Collected(hist: History, size: nat, t: nat, offset: nat, count: nat, bytes: nat): (r: seq<byte>)
    requires Sized(hist, size)
    requires offset + count * bytes <= size
    ensures |r| == count * bytes
    decreases count
  {
    if count == 0 then []
    else
      var at := offset + (count - 1) * bytes;
      assert count * bytes == (count - 1) * bytes + bytes;
      Collected(hist, size, t, offset, count - 1, bytes) + hist(t + count - 1).contents[at..at + bytes]
  }

  lemma {:induction false} GenerationGrows(hist: History, size: nat, t: nat, u: nat)
    requires Bumps(hist, size) && t <= u
    ensures hist(t).generation <= hist(u).generation
    ensures hist(t).generation == hist(u).generation ==> hist(t).contents == hist(u).contents
    decreases u
  {
    if t < u {
      GenerationGrows(hist, size, t, u - 1);
      assert u == (u - 1) + 1;
    }
  }

  /** Equal registers around fewer than 256 changes mean that there was none. */
  lemma NoChange(hist: History, size: nat, t: nat, u: nat)
    requires Bumps(hist, size) && t <= u && hist(u).generation < hist(t).generation + REGISTER
    requires Register(hist, t) == Register(hist, u)
    ensures hist(t).generation == hist(u).generation
  {
    GenerationGrows(hist, size, t, u);
  }

  lemma SameContents(hist: History, size: nat, t: nat, u: nat, end: nat)
    requires Bumps(hist, size) && t <= u <= end && hist(t).generation == hist(end).generation
    ensures hist(u).contents == hist(t).contents
  {
    GenerationGrows(hist, size, t, u);
    GenerationGrows(hist, size, u, end);
  }

  lemma Adjoin(c: seq<byte>, a: nat, b: nat, d: nat)
    requires a <= b <= d <= |c|
    ensures c[a..b] + c[b..d] == c[a..d]
  {
  }

  /** What is collected while nothing changes is the contents at one instant. */
  lemma {:induction false} CollectedWhileSame(hist: History, size: nat, t: nat, offset: nat, count: nat, bytes: nat,
      end: nat)
    requires Bumps(hist, size) && offset + count * bytes <= size && t + count <= end
    requires hist(t).generation == hist(end).generation
    ensures Collected(hist, size, t, offset, count, bytes) == hist(t).contents[offset..offset + count * bytes]
    decreases count
  {
    if count > 0 {
      assert count * bytes == (count - 1) * bytes + bytes;
      CollectedWhileSame(hist, size, t, offset, count - 1, bytes, end);
      SameContents(hist, size, t, t + count - 1, end);
      Adjoin(hist(t).contents, offset, offset + (count - 1) * bytes, offset + count * bytes);
    }
  }

  lemma {:induction false} CollectedUnchanging(hist: History, size: nat, t: nat, offset: nat, count: nat, bytes: nat)
    requires Sized(hist, size) && offset + count * bytes <= size && Unchanging(hist, t, count)
    ensures Collected(hist, size, t, offset, count, bytes) == hist(t).contents[offset..offset + count * bytes]
    decreases count
  {
    if count > 0 {
      assert count * bytes == (count - 1) * bytes + bytes;
      CollectedUnchanging(hist, size, t, offset, count - 1, bytes);
      assert hist(t + count - 1).contents == hist(t).contents;
      Adjoin(hist(t).contents, offset, offset + (count - 1) * bytes, offset + count * bytes);
    }
  }

  /** The first byte of each field comes from the access of that field. */
  lemma {:induction false} CollectedAt(hist: History, size: nat, t: nat, offset: nat, count: nat, bytes: nat, i: nat)
    requires Sized(hist, size) && offset + count * bytes <= size && i < count && bytes > 0
    ensures 0 <= i * bytes < count * bytes
    ensures Collected(hist, size, t, offset, count, bytes)[i * bytes] == hist(t + i).contents[offset + i * bytes]
    decreases count
  {
    FieldFits(i, count, bytes);
    FieldFits(count - 1, count, bytes);
    assert count * bytes == (count - 1) * bytes + bytes;
    if i < count - 1 {
      CollectedAt(hist, size, t, offset, count - 1, bytes, i);
    }
  }

  lemma FieldFits(i: nat, count: nat, bytes: nat)
    requires i < count
    ensures i * bytes + bytes == (i + 1) * bytes <= count * bytes && bytes * i == i * bytes
  {
    assert (count - i - 1) * bytes >= 0;
    assert count * bytes == (i + 1) * bytes + (count - i - 1) * bytes;
  }

  /** Single-byte accesses go on where they stopped. */
  lemma {:induction false} CollectedOn(hist: History, size: nat, t: nat, offset: nat, a: nat, b: nat)
    requires Sized(hist, size) && offset + a + b <= size
    ensures Collected(hist, size, t, offset, a + b, 1)
         == Collected(hist, size, t, offset, a, 1) + Collected(hist, size, t + a, offset + a, b, 1)
    decreases b
  {
    if b > 0 {
      CollectedOn(hist, size, t, offset, a, b - 1);
    }
  }

  /** The first bytes of the buffer are those of `contents` at `offset`. */
  predicate IsSnapshot(buf: seq<byte>, contents: seq<byte>, offset: nat, len: nat) {
    len <= |buf| && offset + len <= |contents| && buf[..len] == contents[offset..offset + len]
  }

  /** The bytes were the contents at one instant. */
  ghost predicate Whole(hist: History, read: seq<byte>, offset: nat) {
    exists u: nat :: IsSnapshot(read, hist(u).contents, offset, |read|)
  }

  // -------------------------------------------------------------------- attempts

  /** The generation is read at `t`, the fields after it, and the generation again. */
  predicate Accepted(hist: History, t: nat, count: nat) {
    Register(hist, t) == Register(hist, t + count + 1)
  }

  /** An accepted attempt holds the contents of a single instant. */
  lemma AcceptedIsSnapshot(hist: History, size: nat, t: nat, offset: nat, count: nat, bytes: nat)
    requires Bumps(hist, size) && FewChanges(hist, count) && offset + count * bytes <= size && Accepted(hist, t, count)
    ensures Collected(hist, size, t + 1, offset, count, bytes) == hist(t + 1).contents[offset..offset + count * bytes]
  {
    NoChange(hist, size, t, t + count + 1);
    SameContents(hist, size, t, t + 1, t + count + 1);
    GenerationGrows(hist, size, t, t + 1);
    GenerationGrows(hist, size, t + 1, t + count + 1);
    CollectedWhileSame(hist, size, t + 1, offset, count, bytes, t + count + 1);
  }

  /** When the generation of attempt `i` is read; one attempt follows the other. */
  function AttemptAt(now: nat, count: nat, i: nat): (t: nat)
    ensures t >= now + i
  {
    if i == 0 then now else AttemptAt(now, count, i - 1) + count + 1
  }

  /** Once the space has settled an attempt is accepted. */
  lemma SettledAccepts(hist: History, stable: nat, now: nat, count: nat)
    requires Settles(hist, stable)
    ensures Accepted(hist, AttemptAt(now, count, stable), count)
  {
    var t := AttemptAt(now, count, stable);
    assert hist(t) == hist(stable) == hist(t + count + 1);
  }

  /** What the fields hold that are read from `t` on: legacy devices are read byte by byte. */
  function Fields(hist: History, size: nat, modern: bool, t: nat, offset: nat, count: nat, bytes: nat): (r: seq<byte>)
    requires Sized(hist, size) && offset + count * bytes <= size
    ensures |r| == count * bytes
  {
    if modern then Collected(hist, size, t, offset, count, bytes)
    else Collected(hist, size, t, offset, count * bytes, 1)
  }

  function Accesses(modern: bool, count: nat, bytes: nat): nat {
    if modern then count else count * bytes
  }

  /** What the access `k` after `t` returns of byte `k` behind `offset`. */
  function ByteRead(hist: History, size: nat, t: nat, offset: nat, k: int): byte
    requires Sized(hist, size)
  {
    if 0 <= k && offset + k < size then hist(t + k).contents[offset + k] else 0
  }

  lemma BytesCollected(hist: History, size: nat, t: nat, offset: nat, len: nat, read: seq<byte>)
    requires Sized(hist, size) && offset + len <= size && |read| == len
    requires forall k :: 0 <= k < len ==> read[k] == ByteRead(hist, size, t, offset, k)
    ensures read == Collected(hist, size, t, offset, len, 1)
  {
    forall k | 0 <= k < len ensures read[k] == Collected(hist, size, t, offset, len, 1)[k] {
      CollectedAt(hist, size, t, offset, len, 1, k);
    }
  }

  // -------------------------------------------------------------------- the loops

  class Device {
    const hist: History
    const size: nat
    /** Legacy devices have no generation register, and their configuration is read byte by byte. */
    const modern: bool
    /** Accesses so far. */
    var now: nat

    constructor (h: History, n: nat, m: bool)
      ensures hist == h && size == n && modern == m && now == 0
    {
      hist, size, modern, now := h, n, m, 0;
    }

    /** `get_config_generation`, or the constant used when there is none (which is no access). */
    method GetGeneration() returns (gen: nat)
      modifies `now
      ensures if modern then gen == Register(hist, old(now)) && now == old(now) + 1
              else gen == 0 && now == old(now)
    {
      if modern {
        gen := Register(hist, now);
        now := now + 1;
      } else {
        gen := 0;
      }
    }

    static method Store(buf: array<byte>, start: nat, value: seq<byte>)
      requires start + |value| <= buf.Length
      modifies buf
      ensures forall j :: 0 <= j < buf.Length ==>
                buf[j] == if start <= j < start + |value| then value[j - start] else old(buf[j])
    {
      forall j | start <= j < start + |value| { buf[j] := value[j - start]; }
    }

    /** `vio_modern_get_config`: one access, stored from `buf[start]` on. */
    method GetWhole(offset: nat, buf: array<byte>, start: nat, bytes: nat)
      requires Sized(hist, size) && offset + bytes <= size && start + bytes <= buf.Length
      modifies `now, buf
      ensures now == old(now) + 1
      ensures buf[start..start + bytes] == hist(old(now)).contents[offset..offset + bytes]
      ensures buf[..start] == old(buf[..start]) && buf[start + bytes..] == old(buf[start + bytes..])
    {
      Store(buf, start, hist(now).contents[offset..offset + bytes]);
      now := now + 1;
    }

    /** The loop of `vio_legacy_get_config`: one access a byte. */
    method PutBytes(offset: nat, buf: array<byte>, start: nat, len: nat)
      requires Sized(hist, size) && offset + len <= size && start + len <= buf.Length
      modifies `now, buf
      ensures now == old(now) + len
      ensures forall j :: start <= j < start + len ==> buf[j] == ByteRead(hist, size, old(now), offset, j - start)
      ensures forall j :: 0 <= j < buf.Length && !(start <= j < start + len) ==> buf[j] == old(buf[j])
    {
      for i := 0 to len
        invariant now == old(now) + i
        invariant forall j :: start <= j < start + i ==> buf[j] == ByteRead(hist, size, old(now), offset, j - start)
        invariant forall j :: 0 <= j < buf.Length && !(start <= j < start + i) ==> buf[j] == old(buf[j])
      {
        buf[start + i] := hist(now).contents[offset + i];
        now := now + 1;
      }
    }

    /** `vio_legacy_get_config` */
    method GetBytes(offset: nat, buf: array<byte>, start: nat, len: nat)
      requires Sized(hist, size) && offset + len <= size && start + len <= buf.Length
      modifies `now, buf
      ensures now == old(now) + len
      ensures buf[start..start + len] == Collected(hist, size, old(now), offset, len, 1)
      ensures buf[..start] == old(buf[..start]) && buf[start + len..] == old(buf[start + len..])
    {
      PutBytes(offset, buf, start, len);
      BytesCollected(hist, size, old(now), offset, len, buf[start..start + len]);
    }

    method GetField(offset: nat, buf: array<byte>, start: nat, bytes: nat)
      requires Sized(hist, size) && offset + bytes <= size && start + bytes <= buf.Length
      modifies `now, buf
      ensures now == old(now) + Accesses(modern, 1, bytes)
      ensures buf[start..start + bytes] == Fields(hist, size, modern, old(now), offset, 1, bytes)
      ensures buf[..start] == old(buf[..start]) && buf[start + bytes..] == old(buf[start + bytes..])
    {
      if modern { GetWhole(offset, buf, start, bytes); } else { GetBytes(offset, buf, start, bytes); }
    }

    /** The body of the `for` loop: field `i`. */
    method NextField(offset: nat, buf: array<byte>, i: nat, count: nat, bytes: nat, ghost t: nat)
      requires Sized(hist, size) && i < count && i * bytes <= count * bytes <= buf.Length
          && offset + count * bytes <= size
      requires now == t + Accesses(modern, i, bytes)
      requires buf[..i * bytes] == Fields(hist, size, modern, t, offset, i, bytes)
      modifies `now, buf
      ensures (i + 1) * bytes <= count * bytes && now == t + Accesses(modern, i + 1, bytes)
      ensures buf[..(i + 1) * bytes] == Fields(hist, size, modern, t, offset, i + 1, bytes)
      ensures buf[count * bytes..] == old(buf[count * bytes..])
    {
      FieldFits(i, count, bytes);
      var at := offset + bytes * i;
      ghost var was := buf[..];
      FieldsStep(hist, size, modern, t, offset, i, bytes);
      GetField(at, buf, i * bytes, bytes);
      Appended(was, buf[..], i * bytes, i * bytes + bytes, count * bytes);
    }

    /** The `for` loop of one attempt. */
    method ReadFields(offset: nat, buf: array<byte>, count: nat, bytes: nat)
      requires Sized(hist, size) && offset + count * bytes <= size && count * bytes <= buf.Length
      modifies `now, buf
      ensures now == old(now) + Accesses(modern, count, bytes)
      ensures buf[..count * bytes] == Fields(hist, size, modern, old(now), offset, count, bytes)
      ensures buf[count * bytes..] == old(buf[count * bytes..])
    {
      for i := 0 to count
        invariant i * bytes <= count * bytes && now == old(now) + Accesses(modern, i, bytes)
        invariant buf[..i * bytes] == Fields(hist, size, modern, old(now), offset, i, bytes)
        invariant buf[count * bytes..] == old(buf[count * bytes..])
      {
        NextField(offset, buf, i, count, bytes, old(now));
      }
    }

    /** One round of the outer loop. */
    method Attempt(offset: nat, buf: array<byte>, count: nat, bytes: nat, prev: nat) returns (gen: nat)
      requires Sized(hist, size) && offset + count * bytes <= size && count * bytes <= buf.Length
      requires if modern then now > 0 && prev == Register(hist, now - 1) else prev == 0
      modifies `now, buf
      ensures buf[count * bytes..] == old(buf[count * bytes..])
      ensures gen == prev ==> Filled(buf[..], hist, size, modern, old(now), offset, count, bytes)
      ensures if modern then now == old(now) + count + 1 && gen == Register(hist, now - 1)
              else now == old(now) + count * bytes && gen == 0
    {
      ReadFields(offset, buf, count, bytes);
      gen := GetGeneration();
    }

    /** The same, told in attempts. */
    method NextAttempt(offset: nat, buf: array<byte>, count: nat, bytes: nat, prev: nat,
                       ghost start: nat, ghost i: nat, ghost t: nat, ghost last: nat)
      returns (gen: nat, again: bool, ghost i': nat, ghost t': nat)
      requires Sized(hist, size) && offset + count * bytes <= size && count * bytes <= buf.Length
      requires modern ==> Accepted(hist, AttemptAt(start, count, last), count)
      requires InLoop(hist, modern, start, count, count * bytes, i, t, now, prev, true) && i <= last
      modifies `now, buf
      ensures buf[count * bytes..] == old(buf[count * bytes..])
      ensures InLoop(hist, modern, start, count, count * bytes, i', t', now, gen, again)
      ensures i' <= last && (again ==> i < i')
      ensures !again ==> Filled(buf[..], hist, size, modern, t', offset, count, bytes)
    {
      gen := Attempt(offset, buf, count, bytes, prev);
      again, i', t' := gen != prev, i, t;
      if again {
        Rejected(hist, start, count, i, t, last);
        i', t' := i + 1, now;
      }
    }

    /** `virtio_cread_many`: the buffer holds the result of the first accepted attempt. The precondition is exactly that
        the loop ends (`LoopEndsIff`). */
    method CreadMany(offset: nat, buf: array<byte>, count: nat, bytes: nat, ghost last: nat)
      returns (ghost t: nat, ghost i: nat)
      requires Sized(hist, size) && offset + count * bytes <= size && count * bytes <= buf.Length
      requires modern ==> Accepted(hist, AttemptAt(now, count, last), count)
      modifies `now, buf
      ensures Filled(buf[..], hist, size, modern, t, offset, count, bytes)
      ensures buf[count * bytes..] == old(buf[count * bytes..])
      ensures if modern then Trying(hist, old(now), count, i, t) && now == t + count + 1
              else t == old(now) && now == t + count * bytes
    {
      ghost var start := now;
      var gen := GetGeneration();
      i, t := 0, now;
      var again := true;
      while again
        invariant InLoop(hist, modern, start, count, count * bytes, i, t, now, gen, again) && i <= last
        invariant !again ==> Filled(buf[..], hist, size, modern, t, offset, count, bytes)
        invariant buf[count * bytes..] == old(buf[count * bytes..])
        decreases again, last - i
      {
        gen, again, i, t := NextAttempt(offset, buf, count, bytes, gen, start, i, t, last);
      }
    }

    /** A read of `len` bytes as `count` fields of `bytes` bytes each: with one `get_config` when `single`. */
    method ReadOut(offset: nat, buf: array<byte>, len: nat, count: nat, bytes: nat, single: bool, ghost last: nat)
      returns (ghost t: nat)
      requires Bumps(hist, size) && offset + len <= size && len <= buf.Length
      requires len == count * bytes && (single ==> count == 1)
      requires modern && !single ==> Accepted(hist, AttemptAt(now, count, last), count)
      modifies `now, buf
      ensures buf[len..] == old(buf[len..])
      ensures single || !modern ==> t == old(now)
      ensures old(now) <= t && now == t + if !modern then len else if single then 1 else count + 1
      ensures Given(hist, modern, t, len, count, single) ==> IsSnapshot(buf[..], hist(t).contents, offset, len)
    {
      if single {
        t := now;
        GetField(offset, buf, 0, bytes);
      } else {
        ghost var i;
        t, i := CreadMany(offset, buf, count, bytes, last);
      }
      if Given(hist, modern, t, len, count, single) {
        ReadIsSnapshot(hist, size, modern, t, offset, count, bytes, single);
      }
    }

    /** `virtio_get_config`: fields of 1, 2 and 4 bytes are read at once, 8 bytes as two words, others by byte. A modern
        device with fewer than 256 changes to an attempt gives the contents of a single instant `t` of the read, and so
        does any device that is read with one access. So does a legacy device, namely the contents at the first access,
        if it does not change from there to the last one. From `t` on there is an access for each byte of a legacy
        device; on a modern one there is one, or one for each field and one for the generation. */
    method GetConfig(offset: nat, buf: array<byte>, len: nat, ghost last: nat) returns (ghost t: nat)
      requires Bumps(hist, size) && offset + len <= size && len <= buf.Length
      requires modern && !AtOnce(len) ==> Accepted(hist, AttemptAt(now, FieldsOf(len), last), FieldsOf(len))
      modifies `now, buf
      ensures buf[len..] == old(buf[len..])
      ensures AtOnce(len) || !modern ==> t == old(now)
      ensures old(now) <= t
      ensures now - t == if !modern then len else if len == 1 || len == 2 || len == 4 then 1
                         else if len == 8 then 3 else len + 1
      ensures Given(hist, modern, t, len, FieldsOf(len), AtOnce(len)) ==>
                IsSnapshot(buf[..], hist(t).contents, offset, len)
    {
      match len {
        case 1 | 2 | 4 => t := ReadOut(offset, buf, len, 1, len, true, last);
        case 8 => t := ReadOut(offset, buf, len, 2, 4, false, last);
        case _ => t := ReadOut(offset, buf, len, len, 1, false, last);
      }
    }
  }

  predicate AtOnce(len: nat) { len == 1 || len == 2 || len == 4 }

  function FieldsOf(len: nat): nat {
    match len
    case 1 => 1
    case 2 => 1
    case 4 => 1
    case 8 => 2
    case _ => len
  }

  ghost predicate NoneAccepted(hist: History, now: nat, count: nat, i: nat) {
    forall j: nat :: j < i ==> !Accepted(hist, AttemptAt(now, count, j), count)
  }

  /** Attempt `i`, whose fields are read from `t` on, comes after rejected ones only. */
  ghost predicate Trying(hist: History, now: nat, count: nat, i: nat, t: nat) {
    NoneAccepted(hist, now, count, i) && t == AttemptAt(now, count, i) + 1
  }

  /** The loop is at attempt `i`, with the generation read last, before the fields are read (`again`) or after. */
  ghost predicate InLoop(hist: History, modern: bool, start: nat, count: nat, len: nat, i: nat, t: nat, now: nat,
                         gen: nat, again: bool) {
    if modern then
      && Trying(hist, start, count, i, t) && t > 0
      && if again then t == now && gen == Register(hist, t - 1) else now == t + count + 1
    else t == start && gen == 0 && now == if again then t else t + len
  }

  /** The result of an attempt, accepted if the device has a generation register. */
  ghost predicate Filled(buf: seq<byte>, hist: History, size: nat, modern: bool, t: nat, offset: nat, count: nat,
      bytes: nat)
    requires Sized(hist, size) && offset + count * bytes <= size && count * bytes <= |buf|
  {
    && buf[..count * bytes] == Fields(hist, size, modern, t, offset, count, bytes)
    && (modern ==> t > 0 && Accepted(hist, t - 1, count))
  }

  /** The outer loop before a round: when its fields are read, and the generation read last. */
  datatype Loop = Loop(at: nat, gen: nat, again: bool)

  function Round(hist: History, count: nat, l: Loop): Loop {
    var gen := Register(hist, l.at + count);
    Loop(l.at + count + 1, gen, gen != l.gen)
  }

  function Rounds(hist: History, now: nat, count: nat, n: nat): Loop
    decreases n, count
  {
    if n == 0 then Loop(now + 1, Register(hist, now), true)
    else var l := Rounds(hist, now, count, n - 1); if l.again then Round(hist, count, l) else l
  }

  /** While no attempt is accepted the rounds follow each other, and the next one is that attempt. */
  lemma {:induction false} RoundsTry(hist: History, now: nat, count: nat, n: nat)
    ensures Rounds(hist, now, count, n).again <==> NoneAccepted(hist, now, count, n)
    ensures var t := AttemptAt(now, count, n);
            NoneAccepted(hist, now, count, n) ==> Rounds(hist, now, count, n) == Loop(t + 1, Register(hist, t), true)
    decreases n
  {
    if n > 0 {
      RoundsTry(hist, now, count, n - 1);
    }
  }

  ghost predicate LoopEnds(hist: History, now: nat, count: nat) {
    exists n: nat :: !Rounds(hist, now, count, n).again
  }

  ghost predicate SomeAccepted(hist: History, now: nat, count: nat) {
    exists i: nat :: Accepted(hist, AttemptAt(now, count, i), count)
  }

  /** The loop on a modern device ends if and only if some attempt is accepted. */
  lemma LoopEndsIff(hist: History, now: nat, count: nat)
    ensures LoopEnds(hist, now, count) <==> SomeAccepted(hist, now, count)
  {
    if SomeAccepted(hist, now, count) {
      var i: nat :| Accepted(hist, AttemptAt(now, count, i), count);
      RoundsTry(hist, now, count, i + 1);
      assert !Rounds(hist, now, count, i + 1).again;
    }
    if LoopEnds(hist, now, count) {
      var n: nat :| !Rounds(hist, now, count, n).again;
      RoundsTry(hist, now, count, n);
    }
  }

  lemma Rejected(hist: History, now: nat, count: nat, i: nat, t: nat, last: nat)
    requires Trying(hist, now, count, i, t) && i <= last && !Accepted(hist, t - 1, count)
    requires Accepted(hist, AttemptAt(now, count, last), count)
    ensures i < last && Trying(hist, now, count, i + 1, t + count + 1)
  {
  }

  /** When a read from `t` on gives the contents of a single instant: on a modern device when it takes one access or
      fewer than 256 changes fall into it, on a legacy one when it takes one access or nothing changes meanwhile. */
  ghost predicate Given(hist: History, modern: bool, t: nat, len: nat, count: nat, single: bool) {
    if modern then single || FewChanges(hist, count) else len <= 1 || Unchanging(hist, t, len)
  }

  lemma BytesAreSnapshot(hist: History, size: nat, t: nat, offset: nat, len: nat)
    requires Sized(hist, size) && offset + len <= size && (len <= 1 || Unchanging(hist, t, len))
    ensures Collected(hist, size, t, offset, len, 1) == hist(t).contents[offset..offset + len]
  {
    CollectedUnchanging(hist, size, t, offset, len, 1);
  }

  lemma FieldsAreSnapshot(hist: History, size: nat, t: nat, offset: nat, count: nat, bytes: nat)
    requires Bumps(hist, size) && offset + count * bytes <= size
    requires count == 1 || (FewChanges(hist, count) && t > 0 && Accepted(hist, t - 1, count))
    ensures Collected(hist, size, t, offset, count, bytes) == hist(t).contents[offset..offset + count * bytes]
  {
    if count == 1 {
      CollectedUnchanging(hist, size, t, offset, count, bytes);
    } else {
      AcceptedIsSnapshot(hist, size, t - 1, offset, count, bytes);
    }
  }

  lemma ReadIsSnapshot(hist: History, size: nat, modern: bool, t: nat, offset: nat, count: nat, bytes: nat,
      single: bool)
    requires Bumps(hist, size) && offset + count * bytes <= size && (single ==> count == 1)
    requires modern && !single ==> t > 0 && Accepted(hist, t - 1, count)
    requires Given(hist, modern, t, count * bytes, count, single)
    ensures Fields(hist, size, modern, t, offset, count, bytes) == hist(t).contents[offset..offset + count * bytes]
  {
    if modern {
      FieldsAreSnapshot(hist, size, t, offset, count, bytes);
    } else {
      BytesAreSnapshot(hist, size, t, offset, count * bytes);
    }
  }

  lemma OneField(hist: History, size: nat, t: nat, offset: nat, bytes: nat)
    requires Sized(hist, size) && offset + bytes <= size
    ensures Collected(hist, size, t, offset, 1, bytes) == hist(t).contents[offset..offset + bytes]
  {
    assert Collected(hist, size, t, offset, 0, bytes) == [];
  }

  lemma CollectedStep(hist: History, size: nat, t: nat, offset: nat, i: nat, bytes: nat)
    requires Sized(hist, size) && offset + i * bytes + bytes <= size && i * bytes + bytes == (i + 1) * bytes
    ensures Collected(hist, size, t, offset, i + 1, bytes)
         == Collected(hist, size, t, offset, i, bytes) + Collected(hist, size, t + i, offset + i * bytes, 1, bytes)
  {
    OneField(hist, size, t + i, offset + i * bytes, bytes);
  }

  lemma FieldsStep(hist: History, size: nat, modern: bool, t: nat, offset: nat, i: nat, bytes: nat)
    requires Sized(hist, size) && offset + i * bytes + bytes <= size && i * bytes + bytes == (i + 1) * bytes
    ensures Fields(hist, size, modern, t, offset, i + 1, bytes)
         == Fields(hist, size, modern, t, offset, i, bytes)
            + Fields(hist, size, modern, t + Accesses(modern, i, bytes), offset + i * bytes, 1, bytes)
  {
    if modern {
      CollectedStep(hist, size, t, offset, i, bytes);
    } else {
      BytesStep(hist, size, t, offset, i * bytes, (i + 1) * bytes, 1 * bytes);
    }
  }

  lemma BytesStep(hist: History, size: nat, t: nat, offset: nat, a: nat, c: nat, b: nat)
    requires Sized(hist, size) && offset + c <= size && c == a + b
    ensures Collected(hist, size, t, offset, c, 1)
         == Collected(hist, size, t, offset, a, 1) + Collected(hist, size, t + a, offset + a, b, 1)
  {
    CollectedOn(hist, size, t, offset, a, b);
  }

  lemma Appended(was: seq<byte>, now: seq<byte>, a: nat, b: nat, c: nat)
    requires a <= b <= c <= |was| == |now| && now[..a] == was[..a] && now[b..] == was[b..]
    ensures now[..b] == was[..a] + now[a..b] && now[c..] == was[c..]
  {
    assert now[b..][c - b..] == now[c..] && was[b..][c - b..] == was[c..];
  }

  // -------------------------------------------------------------------- why the conditions are there

  function Fill(size: nat, b: byte): (r: seq<byte>)
    ensures |r| == size && forall i :: 0 <= i < size ==> r[i] == b
  {
    seq(size, _ => b)
  }

  /** All bytes change, and the generation advances by `n`, between the accesses `at` and `at + 1`. */
  function Turning(size: nat, n: nat, at: nat): (h: History)
    ensures forall t: nat :: h(t) == if t <= at then Snapshot(0, Fill(size, 0)) else Snapshot(n, Fill(size, 1))
  {
    (t: nat) => if t <= at then Snapshot(0, Fill(size, 0)) else Snapshot(n, Fill(size, 1))
  }

  lemma TurningBumps(size: nat, n: nat, at: nat)
    requires n > 0
    ensures Bumps(Turning(size, n, at), size) && Settles(Turning(size, n, at), at + 1)
  {
    var hist := Turning(size, n, at);
    forall t: nat ensures |hist(t).contents| == size {}
  }

  /** A read that has bytes from before and from after is of no instant. */
  lemma {:induction false} MixedIsNotWhole(size: nat, n: nat, at: nat, read: seq<byte>, offset: nat, i: nat, j: nat)
    requires i < |read| && j < |read| && read[i] == 0 && read[j] == 1 && offset + |read| <= size
    ensures !Whole(Turning(size, n, at), read, offset)
  {
    var hist := Turning(size, n, at);
    forall u: nat ensures !IsSnapshot(read, hist(u).contents, offset, |read|) {
      var c := hist(u).contents;
      assert c == Fill(size, if u <= at then 0 else 1);
      var cut, v := c[offset..offset + |read|], if u <= at then 0 else 1;
      assert cut[i] == c[offset + i] == v && cut[j] == c[offset + j] == v && read[..|read|] == read;
    }
  }

  /** Some history with `n` steps of the generation during the attempt is accepted although what was read is of no
      instant. */
  ghost predicate Tears(hist: History, size: nat, offset: nat, count: nat, bytes: nat, n: nat)
    requires offset + count * bytes <= size
  {
    && Bumps(hist, size) && Accepted(hist, 0, count) && hist(count + 1).generation == hist(0).generation + n
    && !Whole(hist, Collected(hist, size, 1, offset, count, bytes), offset)
  }

  lemma TurningTears(size: nat, offset: nat, count: nat, bytes: nat, n: nat)
    requires offset + count * bytes <= size && count >= 2 && bytes >= 1 && n > 0 && n % 256 == 0
    ensures Tears(Turning(size, n, 1), size, offset, count, bytes, n)
  {
    var hist := Turning(size, n, 1);
    TurningBumps(size, n, 1);
    var read := Collected(hist, size, 1, offset, count, bytes);
    CollectedAt(hist, size, 1, offset, count, bytes, 0);
    CollectedAt(hist, size, 1, offset, count, bytes, 1);
    MixedIsNotWhole(size, n, 1, read, offset, 0, bytes);
  }

  lemma OneAccessIsWhole(hist: History, size: nat, t: nat, offset: nat, count: nat, bytes: nat)
    requires Sized(hist, size) && offset + count * bytes <= size && Unchanging(hist, t, count)
    ensures Whole(hist, Collected(hist, size, t, offset, count, bytes), offset)
  {
    CollectedUnchanging(hist, size, t, offset, count, bytes);
    var read := Collected(hist, size, t, offset, count, bytes);
    assert IsSnapshot(read, hist(t).contents, offset, |read|);
  }

  /** The bound of 256 is tight: for reads of at least two fields, exactly the multiples of 256 steps go unnoticed. */
  lemma TearsIff(size: nat, offset: nat, count: nat, bytes: nat, n: nat)
    requires offset + count * bytes <= size
    ensures (exists hist: History :: Tears(hist, size, offset, count, bytes, n))
        <==> count >= 2 && bytes >= 1 && n > 0 && n % 256 == 0
  {
    if count >= 2 && bytes >= 1 && n > 0 && n % 256 == 0 {
      TurningTears(size, offset, count, bytes, n);
    }
    forall hist: History | Tears(hist, size, offset, count, bytes, n)
      ensures count >= 2 && bytes >= 1 && n > 0 && n % 256 == 0
    {
      OnlyWrapsTear(hist, size, offset, count, bytes, n);
    }
  }

  lemma OnlyWrapsTear(hist: History, size: nat, offset: nat, count: nat, bytes: nat, n: nat)
    requires offset + count * bytes <= size && Tears(hist, size, offset, count, bytes, n)
    ensures count >= 2 && bytes >= 1 && n > 0 && n % 256 == 0
  {
    if count <= 1 {
      OneAccessIsWhole(hist, size, 1, offset, count, bytes);
    } else if n == 0 {
      forall u: nat | 1 <= u < 1 + count ensures hist(u).contents == hist(1).contents {
        SameContents(hist, size, 0, u, count + 1);
        SameContents(hist, size, 0, 1, count + 1);
      }
      OneAccessIsWhole(hist, size, 1, offset, count, bytes);
    }
  }

  /** One step of the generation for every attempt, the contents standing still. */
  function Restless(size: nat, count: nat): (h: History)
    ensures forall t: nat :: h(t) == Snapshot(t / (count + 1), Fill(size, 0))
  {
    (t: nat) => Snapshot(t / (count + 1), Fill(size, 0))
  }

  lemma NextQuotient(t: nat, d: nat)
    requires d > 0
    ensures (t + d) / d == t / d + 1
  {
    var q := t / d;
    assert t == d * q + t % d;
    assert d * (q + 1) == d * q + d;
    RemainderUnique(t + d, d, q + 1, t % d);
  }

  /** Such a device keeps the loop going for ever, although no attempt sees more than one change. */
  lemma RestlessNeverEnds(size: nat, count: nat, now: nat, n: nat)
    ensures Bumps(Restless(size, count), size) && FewChanges(Restless(size, count), count)
    ensures Rounds(Restless(size, count), now, count, n).again
  {
    RestlessBumps(size, count);
    assert NoneAccepted(Restless(size, count), now, count, n) by {
      forall i: nat | i < n ensures !Accepted(Restless(size, count), AttemptAt(now, count, i), count) {
        RestlessRejects(size, count, AttemptAt(now, count, i));
      }
    }
    RoundsTry(Restless(size, count), now, count, n);
  }

  lemma RestlessRejects(size: nat, count: nat, t: nat)
    ensures !Accepted(Restless(size, count), t, count)
  {
    NextQuotient(t, count + 1);
  }

  lemma RestlessBumps(size: nat, count: nat)
    ensures Bumps(Restless(size, count), size) && FewChanges(Restless(size, count), count)
  {
    var hist := Restless(size, count);
    forall t: nat ensures |hist(t).contents| == size {}
    forall t: nat, u: nat | u == t + 1 ensures hist(t).generation <= hist(u).generation {
      QuotientGrows(t, count + 1);
    }
    forall t: nat, u: nat | u == t + count + 1 ensures hist(u).generation < hist(t).generation + REGISTER {
      NextQuotient(t, count + 1);
    }
  }

  lemma QuotientGrows(t: nat, d: nat)
    requires d > 0
    ensures t / d <= (t + 1) / d
  {
    var q := t / d;
    assert t == d * q + t % d;
    if t % d == d - 1 {
      assert d * (q + 1) == d * q + d;
      RemainderUnique(t + 1, d, q + 1, 0);
    } else {
      RemainderUnique(t + 1, d, q, t % d + 1);
    }
  }

  /** A legacy device gives the contents of an instant, whatever it does, if and only if no more than a byte is read. */
  lemma LegacyWholeIff(size: nat, offset: nat, len: nat)
    requires offset + len <= size
    ensures (forall hist: History, t: nat | Bumps(hist, size) ::
              Whole(hist, Collected(hist, size, t, offset, len, 1), offset))
        <==> len <= 1
  {
    if len <= 1 {
      forall hist: History, t: nat | Bumps(hist, size)
        ensures Whole(hist, Collected(hist, size, t, offset, len, 1), offset)
      {
        OneAccessIsWhole(hist, size, t, offset, len, 1);
      }
    } else {
      LegacyTears(size, offset, len);
    }
  }

  lemma LegacyTears(size: nat, offset: nat, len: nat)
    requires offset + len <= size && len >= 2
    ensures var hist := Turning(size, 1, 0);
            Bumps(hist, size) && Settles(hist, 1) && !Whole(hist, Collected(hist, size, 0, offset, len, 1), offset)
  {
    var hist := Turning(size, 1, 0);
    TurningBumps(size, 1, 0);
    CollectedAt(hist, size, 0, offset, len, 1, 0);
    CollectedAt(hist, size, 0, offset, len, 1, 1);
    MixedIsNotWhole(size, 1, 0, Collected(hist, size, 0, offset, len, 1), offset, 0, 1);
  }
}
