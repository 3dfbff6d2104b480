/** The walk over the PCI capability list that looks for the virtio structures of a modern device. */
module PciCaps {

  const VENDOR := 9
  const ABSENT := 0xff
  /** Capability types 0 to 4 are looked for. */
  const TYPES := 5
  const BARS := 6
  /** Iterations of one search. */
  const BUDGET: nat := 48

  /** Configuration space: the 256 bytes that hold the list, and what follows them. All reads succeed. */
  predicate IsConfig(cfg: seq<nat>) {
    |cfg| >= 0x110 && forall i :: 0 <= i < |cfg| ==> cfg[i] < 0x100
  }

  /** `offset & ~3` */
  function Dword(p: nat): (r: nat)
    ensures r <= p < r + 4 && r % 4 == 0
    ensures p >= 0x40 ==> r >= 0x40
  {
    p - p % 4
  }

  /** A pointer that ends the list: below the capabilities, or to a capability that is not there. */
  predicate Ends(cfg: seq<nat>, p: nat)
    requires IsConfig(cfg) && p < 0x100
  {
    p < 0x40 || cfg[Dword(p)] == ABSENT
  }

  // -------------------------------------------------------------------- lists

  /** Following the pointer `p` visits the capabilities at `offs` and then ends. */
  predicate IsList(cfg: seq<nat>, p: nat, offs: seq<nat>)
    requires IsConfig(cfg) && p < 0x100
    decreases |offs|
  {
    if Ends(cfg, p) then offs == []
    else offs != [] && offs[0] == Dword(p) && IsList(cfg, cfg[offs[0] + 1], offs[1..])
  }

  lemma {:induction false} ListBounds(cfg: seq<nat>, p: nat, offs: seq<nat>, i: nat)
    requires IsConfig(cfg) && p < 0x100 && IsList(cfg, p, offs) && i < |offs|
    ensures 0x40 <= offs[i] < 0x100 && offs[i] % 4 == 0
    ensures IsList(cfg, cfg[offs[i] + 1], offs[i + 1..])
    decreases |offs|
  {
    if i > 0 {
      ListBounds(cfg, cfg[offs[0] + 1], offs[1..], i - 1);
      assert offs[1..][i..] == offs[i + 1..];
    }
  }

  lemma {:induction false} ListUnique(cfg: seq<nat>, p: nat, a: seq<nat>, b: seq<nat>)
    requires IsConfig(cfg) && p < 0x100 && IsList(cfg, p, a) && IsList(cfg, p, b)
    ensures a == b
    decreases |a|
  {
    if !Ends(cfg, p) {
      ListUnique(cfg, cfg[a[0] + 1], a[1..], b[1..]);
      assert a == [a[0]] + a[1..] && b == [b[0]] + b[1..];
    }
  }

  /** A list that ends visits no capability twice. */
  lemma NoRepeat(cfg: seq<nat>, p: nat, offs: seq<nat>, i: nat, j: nat)
    requires IsConfig(cfg) && p < 0x100 && IsList(cfg, p, offs) && i < j < |offs|
    ensures offs[i] != offs[j]
  {
    ListBounds(cfg, p, offs, i);
    ListBounds(cfg, p, offs, j);
    if offs[i] == offs[j] {
      ListUnique(cfg, cfg[offs[i] + 1], offs[i + 1..], offs[j + 1..]);
      assert false;
    }
  }

  function Range(a: nat, b: nat): (r: set<nat>)
    requires a <= b
    ensures forall x :: x in r <==> a <= x < b
    ensures |r| == b - a
    decreases b
  {
    if a == b then {} else Range(a, b - 1) + {b - 1}
  }

  predicate Distinct(s: seq<nat>) {
    forall i, j :: 0 <= i < j < |s| ==> s[i] != s[j]
  }

  /** Distinct numbers of an interval are no more than the interval has. */
  lemma {:induction false} Pigeonhole(s: seq<nat>, a: nat, b: nat)
    requires a <= b && forall i :: 0 <= i < |s| ==> a <= s[i] < b
    requires Distinct(s)
    ensures |s| <= b - a
  {
    var all := set i | 0 <= i < |s| :: s[i];
    Elements(s, all);
    var rest := Range(a, b) - all;
    assert Range(a, b) == all + rest;
  }

  lemma {:induction false} Elements(s: seq<nat>, all: set<nat>)
    requires Distinct(s) && forall x :: x in all <==> x in s
    ensures |all| == |s|
    decreases |s|
  {
    if s == [] {
      assert all == {};
    } else {
      var n := |s| - 1;
      assert s == s[..n] + [s[n]];
      Elements(s[..n], all - {s[n]});
    }
  }

  /** Dwords of 0x40..0xff. */
  predicate InSpace(offs: seq<nat>) {
    forall i :: 0 <= i < |offs| ==> 0x40 <= offs[i] <= 0xfc && offs[i] % 4 == 0
  }

  /** There are 48 of them. */
  lemma DistinctAreFew(offs: seq<nat>)
    requires InSpace(offs) && Distinct(offs)
    ensures |offs| <= BUDGET
  {
    var slots := seq(|offs|, i requires 0 <= i < |offs| => offs[i] / 4);
    forall i, j | 0 <= i < j < |offs| ensures slots[i] != slots[j] {
      assert offs[i] != offs[j];
    }
    Pigeonhole(slots, 0x10, 0x40);
  }

  /** A list that ends has at most 48 capabilities, so the iteration budget never cuts it. */
  lemma AtMost48(cfg: seq<nat>, p: nat, offs: seq<nat>)
    requires IsConfig(cfg) && p < 0x100 && IsList(cfg, p, offs)
    ensures |offs| <= BUDGET
  {
    forall i | 0 <= i < |offs| ensures 0x40 <= offs[i] <= 0xfc && offs[i] % 4 == 0 {
      ListBounds(cfg, p, offs, i);
    }
    forall i, j | 0 <= i < j < |offs| ensures offs[i] != offs[j] {
      NoRepeat(cfg, p, offs, i, j);
    }
    DistinctAreFew(offs);
  }

  // -------------------------------------------------------------------- hops, whether or not they ever end

  /** The capabilities met in the first `n` hops from pointer `p`. */
  function Visit(cfg: seq<nat>, p: nat, n: nat): (r: seq<nat>)
    requires IsConfig(cfg) && p < 0x100
    ensures |r| <= n && InSpace(r)
    decreases n, |cfg|
  {
    if n == 0 || Ends(cfg, p) then [] else [Dword(p)] + Visit(cfg, cfg[Dword(p) + 1], n - 1)
  }

  predicate Prefix(a: seq<nat>, b: seq<nat>) {
    |a| <= |b| && forall j :: 0 <= j < |a| ==> a[j] == b[j]
  }

  /** `rest` is what follows position `i` of `v`. */
  predicate Follows(v: seq<nat>, i: nat, rest: seq<nat>) {
    |rest| == |v| - i - 1 && forall j :: 0 <= j < |rest| ==> rest[j] == v[i + 1 + j]
  }

  /** What is met after the capability at `i` is what its own pointer leads to. */
  lemma {:induction false} VisitFrom(cfg: seq<nat>, p: nat, n: nat, i: nat)
    requires IsConfig(cfg) && p < 0x100 && i < |Visit(cfg, p, n)|
    ensures var v := Visit(cfg, p, n); Follows(v, i, Visit(cfg, cfg[v[i] + 1], n - 1 - i))
    decreases n
  {
    if i > 0 {
      VisitFrom(cfg, cfg[Dword(p) + 1], n - 1, i - 1);
    }
  }

  lemma {:induction false} VisitPrefix(cfg: seq<nat>, p: nat, n: nat, m: nat)
    requires IsConfig(cfg) && p < 0x100 && n <= m
    ensures Prefix(Visit(cfg, p, n), Visit(cfg, p, m))
    ensures |Visit(cfg, p, n)| < n ==> |Visit(cfg, p, n)| == |Visit(cfg, p, m)|
    decreases n
  {
    if n > 0 && !Ends(cfg, p) {
      VisitPrefix(cfg, cfg[Dword(p) + 1], n - 1, m - 1);
    }
  }

  lemma {:induction false} ShortVisitEnds(cfg: seq<nat>, p: nat, n: nat)
    requires IsConfig(cfg) && p < 0x100 && |Visit(cfg, p, n)| < n
    ensures IsList(cfg, p, Visit(cfg, p, n))
    decreases n
  {
    if !Ends(cfg, p) {
      var rest := Visit(cfg, cfg[Dword(p) + 1], n - 1);
      assert Visit(cfg, p, n) == [Dword(p)] + rest;
      ShortVisitEnds(cfg, cfg[Dword(p) + 1], n - 1);
      assert ([Dword(p)] + rest)[1..] == rest;
    }
  }

  lemma {:induction false} VisitList(cfg: seq<nat>, p: nat, offs: seq<nat>, n: nat)
    requires IsConfig(cfg) && p < 0x100 && IsList(cfg, p, offs) && |offs| <= n
    ensures Visit(cfg, p, n) == offs
    decreases n
  {
    if !Ends(cfg, p) {
      VisitList(cfg, cfg[Dword(p) + 1], offs[1..], n - 1);
      assert offs == [offs[0]] + offs[1..];
    }
  }

  /** The pointers end exactly when no capability comes twice within 49 hops. */
  lemma EndsIffAcyclic(cfg: seq<nat>, p: nat)
    requires IsConfig(cfg) && p < 0x100
    ensures Distinct(Visit(cfg, p, BUDGET + 1)) <==> exists offs: seq<nat> :: IsList(cfg, p, offs)
  {
    var seen := Visit(cfg, p, BUDGET + 1);
    if Distinct(seen) {
      DistinctAreFew(seen);
      ShortVisitEnds(cfg, p, BUDGET + 1);
      assert IsList(cfg, p, seen);
      assert exists offs: seq<nat> :: IsList(cfg, p, offs);
    }
    if exists offs: seq<nat> :: IsList(cfg, p, offs) {
      var offs: seq<nat> :| IsList(cfg, p, offs);
      AtMost48(cfg, p, offs);
      VisitList(cfg, p, offs, BUDGET + 1);
      forall i, j | 0 <= i < j < |seen| ensures seen[i] != seen[j] {
        NoRepeat(cfg, p, offs, i, j);
      }
      assert Distinct(seen);
    }
  }

  /** Going round a cycle adds nothing: the capability at `i` is also met one round earlier. */
  lemma OneRoundEarlier(cfg: seq<nat>, p: nat, n: nat, a: nat, b: nat, i: nat)
    requires IsConfig(cfg) && p < 0x100 && a < b <= i < |Visit(cfg, p, n)|
    requires Visit(cfg, p, n)[a] == Visit(cfg, p, n)[b]
    ensures Visit(cfg, p, n)[i - (b - a)] == Visit(cfg, p, n)[i]
  {
    if i > b {
      VisitFrom(cfg, p, n, a);
      VisitFrom(cfg, p, n, b);
      VisitPrefix(cfg, cfg[Visit(cfg, p, n)[a] + 1], n - 1 - b, n - 1 - a);
      SameTail(Visit(cfg, p, n), a, b, i, Visit(cfg, cfg[Visit(cfg, p, n)[a] + 1], n - 1 - a),
               Visit(cfg, cfg[Visit(cfg, p, n)[a] + 1], n - 1 - b));
    }
  }

  lemma SameTail(v: seq<nat>, a: nat, b: nat, i: nat, fromA: seq<nat>, fromB: seq<nat>)
    requires a < b < i < |v| && Follows(v, a, fromA) && Follows(v, b, fromB) && Prefix(fromB, fromA)
    ensures v[i - (b - a)] == v[i]
  {
    assert fromB[i - b - 1] == fromA[i - b - 1];
  }

  /** What is met after any number of hops is met within 48, or any larger budget. */
  lemma {:induction false} Shorten(cfg: seq<nat>, p: nat, n: nat, i: nat, budget: nat)
    requires IsConfig(cfg) && p < 0x100 && i < |Visit(cfg, p, n)| && budget >= BUDGET
    ensures Visit(cfg, p, n)[i] in Visit(cfg, p, budget)
    decreases i
  {
    var v := Visit(cfg, p, n);
    if i < budget {
      if n <= budget { VisitPrefix(cfg, p, n, budget); } else { VisitPrefix(cfg, p, budget, n); }
      assert Visit(cfg, p, budget)[i] == v[i];
    } else {
      var start := v[..BUDGET + 1];
      if Distinct(start) {
        DistinctAreFew(start);
        assert false;
      }
      var a, b :| 0 <= a < b < |start| && start[a] == start[b];
      assert v[a] == v[b];
      OneRoundEarlier(cfg, p, n, a, b, i);
      Shorten(cfg, p, n, i - (b - a), budget);
    }
  }

  // -------------------------------------------------------------------- the next vendor capability

  /** The scan from pointer `p`, with the iterations that are left. */
  function Scan(cfg: seq<nat>, p: nat, iterations: nat): (r: nat)
    requires IsConfig(cfg) && p < 0x100
    ensures r <= 0xfc
    decreases iterations, |cfg|
  {
    if iterations == 0 || p < 0x40 then 0
    else
      var o := Dword(p);
      if cfg[o] == ABSENT then 0 else if cfg[o] == VENDOR then o else Scan(cfg, cfg[o + 1], iterations - 1)
  }

  /** `find_next_pci_vendor_capability`; `at` is where the pointer is stored. */
  method FindNext(cfg: seq<nat>, at: nat) returns (r: nat)
    requires IsConfig(cfg) && at < 0x100
    ensures r == Scan(cfg, cfg[at], BUDGET)
  {
    var iterations: nat := BUDGET;
    var offset: nat := cfg[at];
    while iterations > 0 && offset >= 0x40
      invariant offset < 0x100
      invariant Scan(cfg, cfg[at], BUDGET) == Scan(cfg, offset, iterations)
    {
      iterations := iterations - 1;
      offset := Dword(offset);
      var id := cfg[offset];
      if id == ABSENT { break; }
      if id == VENDOR { return offset; }
      offset := cfg[offset + 1];
    }
    r := 0;
  }

  predicate IsVendor(cfg: seq<nat>, o: nat)
    requires IsConfig(cfg) && o < 0x100
  {
    cfg[o] == VENDOR
  }

  /** Coming from position `k`, the next vendor capability is at `m`, namely at `offset`; past the end there is none. */
  ghost predicate StandsAt(cfg: seq<nat>, v: seq<nat>, k: nat, m: nat, offset: nat)
    requires IsConfig(cfg) && InSpace(v)
  {
    && k <= m <= |v|
    && (forall i :: k <= i < m ==> !IsVendor(cfg, v[i]))
    && (m < |v| ==> IsVendor(cfg, v[m]))
    && offset == (if m < |v| then v[m] else 0)
  }

  /** The scan stops at the first vendor capability within its hops; it answers 0 exactly when there is none. */
  lemma {:induction false} ScanFindsFirst(cfg: seq<nat>, p: nat, n: nat) returns (m: nat)
    requires IsConfig(cfg) && p < 0x100
    ensures StandsAt(cfg, Visit(cfg, p, n), 0, m, Scan(cfg, p, n))
    decreases n
  {
    m := 0;
    if n > 0 && !Ends(cfg, p) && cfg[Dword(p)] != VENDOR {
      m := ScanFindsFirst(cfg, cfg[Dword(p) + 1], n - 1);
      m := m + 1;
    }
  }

  lemma StandInPrefix(cfg: seq<nat>, near: seq<nat>, w: seq<nat>, m: nat, o: nat)
    requires IsConfig(cfg) && InSpace(near) && InSpace(w) && Prefix(near, w) && StandsAt(cfg, w, 0, m, o)
    requires m < |w| ==> m < |near|
    ensures StandsAt(cfg, near, 0, if m < |w| then m else |near|, o)
  {
  }

  lemma StandInRest(cfg: seq<nat>, v: seq<nat>, i: nat, rest: seq<nat>, m: nat, o: nat)
    requires IsConfig(cfg) && InSpace(v) && InSpace(rest) && i < |v| && Follows(v, i, rest)
    requires StandsAt(cfg, rest, 0, m, o)
    ensures StandsAt(cfg, v, i + 1, i + 1 + m, o)
  {
    forall j | i + 1 <= j < i + 1 + m ensures !IsVendor(cfg, v[j]) {
      assert rest[j - i - 1] == v[j];
    }
  }

  // -------------------------------------------------------------------- does the walk end?

  /** Following the pointers from `v` comes back to it. */
  predicate LeadsBack(cfg: seq<nat>, v: nat, budget: nat)
    requires IsConfig(cfg) && v < 0x100
  {
    v in Visit(cfg, cfg[v + 1], budget)
  }

  /** No vendor capability that is met leads back to itself. */
  predicate NoWayBack(cfg: seq<nat>, p: nat, budget: nat)
    requires IsConfig(cfg) && p < 0x100
  {
    var v := Visit(cfg, p, budget);
    forall i :: 0 <= i < |v| && IsVendor(cfg, v[i]) ==> !LeadsBack(cfg, v[i], budget)
  }

  /** A list that ends is one of these. */
  lemma EndingListsHaveNoWayBack(cfg: seq<nat>, p: nat, offs: seq<nat>, budget: nat)
    requires budget >= BUDGET && IsConfig(cfg) && p < 0x100 && IsList(cfg, p, offs)
    ensures Visit(cfg, p, budget) == offs && NoWayBack(cfg, p, budget)
  {
    AtMost48(cfg, p, offs);
    VisitList(cfg, p, offs, budget);
    forall i | 0 <= i < |offs| ensures !LeadsBack(cfg, offs[i], budget) {
      NoReturn(cfg, p, offs, i, budget);
    }
  }

  lemma NoReturn(cfg: seq<nat>, p: nat, offs: seq<nat>, i: nat, budget: nat)
    requires budget >= BUDGET && IsConfig(cfg) && p < 0x100 && IsList(cfg, p, offs) && i < |offs|
    ensures offs[i] < 0x100 && !LeadsBack(cfg, offs[i], budget)
  {
    var rest := offs[i + 1..];
    AtMost48(cfg, p, offs);
    ListBounds(cfg, p, offs, i);
    VisitList(cfg, cfg[offs[i] + 1], rest, budget);
    forall j | 0 <= j < |rest| ensures rest[j] != offs[i] {
      NoRepeat(cfg, p, offs, i, i + 1 + j);
    }
  }

  /** A capability met a second time leads back to itself. */
  lemma TwiceLeadsBack(cfg: seq<nat>, p: nat, n: nat, i: nat, j: nat, budget: nat)
    requires budget >= BUDGET && IsConfig(cfg) && p < 0x100 && i < j < |Visit(cfg, p, n)|
    requires Visit(cfg, p, n)[i] == Visit(cfg, p, n)[j]
    ensures LeadsBack(cfg, Visit(cfg, p, n)[i], budget)
  {
    MetLater(cfg, p, n, i, j, budget);
  }

  lemma MetLater(cfg: seq<nat>, p: nat, n: nat, i: nat, j: nat, budget: nat)
    requires budget >= BUDGET && IsConfig(cfg) && p < 0x100 && i < j < |Visit(cfg, p, n)|
    ensures var v := Visit(cfg, p, n); v[j] in Visit(cfg, cfg[v[i] + 1], budget)
  {
    var q := cfg[Visit(cfg, p, n)[i] + 1];
    VisitFrom(cfg, p, n, i);
    assert Visit(cfg, q, n - 1 - i)[j - i - 1] == Visit(cfg, p, n)[j];
    Shorten(cfg, q, n - 1 - i, j - i - 1, budget);
  }

  /** Where none leads back, all vendor capabilities are met within the budget. */
  lemma VendorsAreNear(cfg: seq<nat>, p: nat, n: nat, j: nat, budget: nat)
    requires IsConfig(cfg) && p < 0x100 && budget >= BUDGET && NoWayBack(cfg, p, budget) && n >= budget
    requires j < |Visit(cfg, p, n)| && IsVendor(cfg, Visit(cfg, p, n)[j])
    ensures j < |Visit(cfg, p, budget)|
  {
    var v, far := Visit(cfg, p, budget), Visit(cfg, p, n);
    VisitPrefix(cfg, p, budget, n);
    if j >= |v| {
      Shorten(cfg, p, n, j, budget);
      var a :| 0 <= a < |v| && v[a] == far[j];
      assert far[a] == v[a];
      TwiceLeadsBack(cfg, p, n, a, j, budget);
      assert false;
    }
  }

  lemma SameFarther(cfg: seq<nat>, p: nat, m: nat, k: nat, q: nat, budget: nat)
    requires IsConfig(cfg) && p < 0x100 && m < |Visit(cfg, p, budget)| && q == cfg[Visit(cfg, p, budget)[m] + 1]
    requires k < |Visit(cfg, q, budget)|
    ensures var far := Visit(cfg, p, budget + m + 1);
            m + 1 + k < |far| && far[m + 1 + k] == Visit(cfg, q, budget)[k]
  {
    VisitPrefix(cfg, p, budget, budget + m + 1);
    FollowsAt(cfg, p, budget + m + 1, m, k, q, budget);
  }

  lemma FollowsAt(cfg: seq<nat>, p: nat, n: nat, m: nat, k: nat, q: nat, rest: nat)
    requires IsConfig(cfg) && p < 0x100 && m < |Visit(cfg, p, n)| && q == cfg[Visit(cfg, p, n)[m] + 1]
    requires rest == n - 1 - m && k < |Visit(cfg, q, rest)|
    ensures m + 1 + k < |Visit(cfg, p, n)| && Visit(cfg, p, n)[m + 1 + k] == Visit(cfg, q, rest)[k]
  {
    VisitFrom(cfg, p, n, m);
  }

  lemma FirstIsNear(cfg: seq<nat>, p: nat, m: nat, k: nat, budget: nat)
    requires IsConfig(cfg) && p < 0x100 && budget >= BUDGET && NoWayBack(cfg, p, budget)
    requires m < |Visit(cfg, p, budget)|
    requires var w := Visit(cfg, cfg[Visit(cfg, p, budget)[m] + 1], budget); k < |w| && IsVendor(cfg, w[k])
    ensures k < |Visit(cfg, p, budget)| - m - 1
  {
    SameFarther(cfg, p, m, k, cfg[Visit(cfg, p, budget)[m] + 1], budget);
    VendorsAreNear(cfg, p, budget + m + 1, m + 1 + k, budget);
  }

  /** From a vendor capability the search finds the next one among the hops of the budget. */
  lemma NextStand(cfg: seq<nat>, p: nat, m: nat, budget: nat) returns (n: nat)
    requires IsConfig(cfg) && p < 0x100 && budget >= BUDGET && NoWayBack(cfg, p, budget)
    requires m < |Visit(cfg, p, budget)|
    ensures var v := Visit(cfg, p, budget);
            StandsAt(cfg, v, m + 1, n, Scan(cfg, cfg[v[m] + 1], budget))
  {
    var q := cfg[Visit(cfg, p, budget)[m] + 1];
    var k := ScanFindsFirst(cfg, q, budget);
    if k < |Visit(cfg, q, budget)| { FirstIsNear(cfg, p, m, k, budget); }
    VisitFrom(cfg, p, budget, m);
    VisitPrefix(cfg, q, budget - 1 - m, budget);
    n := StandNear(cfg, Visit(cfg, p, budget), m, Visit(cfg, q, budget - 1 - m), Visit(cfg, q, budget), k,
                   Scan(cfg, q, budget));
  }

  lemma StandNear(cfg: seq<nat>, v: seq<nat>, m: nat, near: seq<nat>, w: seq<nat>, k: nat, o: nat) returns (n: nat)
    requires IsConfig(cfg) && InSpace(v) && InSpace(near) && InSpace(w) && m < |v| && Follows(v, m, near)
    requires Prefix(near, w) && StandsAt(cfg, w, 0, k, o) && (k < |w| ==> k < |v| - m - 1)
    ensures StandsAt(cfg, v, m + 1, n, o)
  {
    StandInPrefix(cfg, near, w, k, o);
    StandInRest(cfg, v, m, near, if k < |w| then k else |near|, o);
    n := m + 1 + if k < |w| then k else |near|;
  }

  /** What the outer loop finds: the first vendor capability, the one after it, and so on; 0 at the end. */
  function Found(cfg: seq<nat>, p: nat, budget: nat, k: nat): (r: nat)
    requires IsConfig(cfg) && p < 0x100
    ensures r <= 0xfc
  {
    if k == 0 then Scan(cfg, p, budget)
    else
      var before := Found(cfg, p, budget, k - 1);
      if before == 0 then 0 else Scan(cfg, cfg[before + 1], budget)
  }

  /** Where no vendor capability leads back the `k`-th find is at least `k` hops away. */
  lemma {:induction false} FoundMovesOn(cfg: seq<nat>, p: nat, k: nat, budget: nat) returns (m: nat)
    requires IsConfig(cfg) && p < 0x100 && budget >= BUDGET && NoWayBack(cfg, p, budget)
    ensures Found(cfg, p, budget, k) == 0
         || (k <= m < |Visit(cfg, p, budget)| && Visit(cfg, p, budget)[m] == Found(cfg, p, budget, k))
  {
    m := 0;
    if k == 0 {
      m := ScanFindsFirst(cfg, p, budget);
    } else if Found(cfg, p, budget, k - 1) != 0 {
      var j := FoundMovesOn(cfg, p, k - 1, budget);
      m := NextStand(cfg, p, j, budget);
    }
  }

  /** From a pointer that leads to such a capability the search finds one, and from there it is met again. */
  lemma FoundComesBack(cfg: seq<nat>, q: nat, v: nat, budget: nat)
    requires budget >= BUDGET && IsConfig(cfg) && q < 0x100
    requires v in Visit(cfg, q, budget) && IsVendor(cfg, v) && LeadsBack(cfg, v, budget)
    ensures Scan(cfg, q, budget) != 0 && v in Visit(cfg, cfg[Scan(cfg, q, budget) + 1], budget)
  {
    var j :| 0 <= j < |Visit(cfg, q, budget)| && Visit(cfg, q, budget)[j] == v;
    var k := ScanFindsFirst(cfg, q, budget);
    if k < j { MetLater(cfg, q, budget, k, j, budget); }
  }

  lemma {:induction false} FoundNeverEnds(cfg: seq<nat>, p: nat, v: nat, k: nat, budget: nat)
    requires budget >= BUDGET && IsConfig(cfg) && p < 0x100
    requires v in Visit(cfg, p, budget) && IsVendor(cfg, v) && LeadsBack(cfg, v, budget)
    ensures Found(cfg, p, budget, k) != 0 && v in Visit(cfg, cfg[Found(cfg, p, budget, k) + 1], budget)
  {
    if k == 0 {
      FoundComesBack(cfg, p, v, budget);
    } else {
      FoundNeverEnds(cfg, p, v, k - 1, budget);
      FoundComesBack(cfg, cfg[Found(cfg, p, budget, k - 1) + 1], v, budget);
    }
  }

  /** The walk ends if and only if no vendor capability on its way leads back to itself. */
  lemma WalkEndsIff(cfg: seq<nat>, p: nat, budget: nat)
    requires budget >= BUDGET && IsConfig(cfg) && p < 0x100
    ensures (exists k: nat :: Found(cfg, p, budget, k) == 0) <==> NoWayBack(cfg, p, budget)
  {
    if NoWayBack(cfg, p, budget) {
      var m := FoundMovesOn(cfg, p, budget, budget);
      assert Found(cfg, p, budget, budget) == 0;
    } else {
      var v := Visit(cfg, p, budget);
      var i :| 0 <= i < |v| && IsVendor(cfg, v[i]) && LeadsBack(cfg, v[i], budget);
      forall k: nat ensures Found(cfg, p, budget, k) != 0 {
        FoundNeverEnds(cfg, p, v[i], k, budget);
      }
    }
  }

  // -------------------------------------------------------------------- the table

  /** A vendor capability of type `t` whose BAR exists. */
  predicate Usable(cfg: seq<nat>, barLength: seq<nat>, o: nat, t: nat)
    requires IsConfig(cfg) && |barLength| == BARS && o < 0x100
  {
    cfg[o] == VENDOR && cfg[o + 3] == t && cfg[o + 4] < BARS && barLength[cfg[o + 4]] > 0
  }

  /** The last usable capability of type `t`, or 0. */
  function LastUsable(cfg: seq<nat>, barLength: seq<nat>, offs: seq<nat>, t: nat): nat
    requires IsConfig(cfg) && |barLength| == BARS && InSpace(offs)
    decreases |offs|
  {
    if offs == [] then 0
    else
      var n := |offs| - 1;
      if Usable(cfg, barLength, offs[n], t) then offs[n] else LastUsable(cfg, barLength, offs[..n], t)
  }

  /** It is non-zero exactly when a usable capability of the type is there, and then the last of them. */
  lemma {:induction false} FoundIffPresent(cfg: seq<nat>, barLength: seq<nat>, offs: seq<nat>, t: nat)
    requires IsConfig(cfg) && |barLength| == BARS && InSpace(offs)
    ensures LastUsable(cfg, barLength, offs, t) != 0
        <==> exists i :: 0 <= i < |offs| && Usable(cfg, barLength, offs[i], t)
    ensures LastUsable(cfg, barLength, offs, t) != 0 ==>
              exists i :: 0 <= i < |offs| && offs[i] == LastUsable(cfg, barLength, offs, t)
                && Usable(cfg, barLength, offs[i], t)
                && forall j :: i < j < |offs| ==> !Usable(cfg, barLength, offs[j], t)
    decreases |offs|
  {
    if offs != [] && !Usable(cfg, barLength, offs[|offs| - 1], t) {
      var n := |offs| - 1;
      var front := offs[..n];
      FoundIffPresent(cfg, barLength, front, t);
      assert forall i | 0 <= i < n :: front[i] == offs[i];
      if i :| 0 <= i < |offs| && Usable(cfg, barLength, offs[i], t) {
        assert Usable(cfg, barLength, front[i], t);
      }
    }
  }

  /** The first usable capability of type `t`, or 0: what section 4.1.4.1 of the VIRTIO specification asks for. */
  function FirstUsable(cfg: seq<nat>, barLength: seq<nat>, offs: seq<nat>, t: nat): nat
    requires IsConfig(cfg) && |barLength| == BARS && InSpace(offs)
    decreases |offs|
  {
    if offs == [] then 0
    else if Usable(cfg, barLength, offs[0], t) then offs[0] else FirstUsable(cfg, barLength, offs[1..], t)
  }

  lemma {:induction false} FirstUsableIs(cfg: seq<nat>, barLength: seq<nat>, offs: seq<nat>, t: nat, i: nat)
    requires IsConfig(cfg) && |barLength| == BARS && InSpace(offs)
    requires i < |offs| && Usable(cfg, barLength, offs[i], t)
    requires forall j :: 0 <= j < i ==> !Usable(cfg, barLength, offs[j], t)
    ensures FirstUsable(cfg, barLength, offs, t) == offs[i]
    decreases |offs|
  {
    if i > 0 {
      assert forall j | 0 <= j < |offs| - 1 :: offs[1..][j] == offs[j + 1];
      FirstUsableIs(cfg, barLength, offs[1..], t, i - 1);
    }
  }

  lemma {:induction false} NoneUsable(cfg: seq<nat>, barLength: seq<nat>, offs: seq<nat>, t: nat)
    requires IsConfig(cfg) && |barLength| == BARS && InSpace(offs)
    requires forall j :: 0 <= j < |offs| ==> !Usable(cfg, barLength, offs[j], t)
    ensures FirstUsable(cfg, barLength, offs, t) == 0
    decreases |offs|
  {
    if offs != [] { NoneUsable(cfg, barLength, offs[1..], t); }
  }

  predicate AtMostOneUsable(cfg: seq<nat>, barLength: seq<nat>, offs: seq<nat>, t: nat)
    requires IsConfig(cfg) && |barLength| == BARS && InSpace(offs)
  {
    forall i, j :: 0 <= i < j < |offs| ==>
                     !(Usable(cfg, barLength, offs[i], t) && Usable(cfg, barLength, offs[j], t))
  }

  /** The code keeps the last usable capability of a type. That is the first one if and only if the walk
      meets no two. */
  lemma LastIsFirstIff(cfg: seq<nat>, barLength: seq<nat>, p: nat, t: nat, budget: nat)
    requires IsConfig(cfg) && |barLength| == BARS && p < 0x100 && budget >= BUDGET && NoWayBack(cfg, p, budget)
    ensures var v := Visit(cfg, p, budget);
            LastUsable(cfg, barLength, v, t) == FirstUsable(cfg, barLength, v, t)
            <==> AtMostOneUsable(cfg, barLength, v, t)
  {
    var v := Visit(cfg, p, budget);
    forall i, j | 0 <= i < j < |v| && Usable(cfg, barLength, v[i], t) ensures v[i] != v[j] {
      VendorOnce(cfg, p, i, j, budget);
    }
    LastIsFirst(cfg, barLength, v, t);
  }

  lemma LastIsFirst(cfg: seq<nat>, barLength: seq<nat>, v: seq<nat>, t: nat)
    requires IsConfig(cfg) && |barLength| == BARS && InSpace(v)
    requires forall i, j | 0 <= i < j < |v| && Usable(cfg, barLength, v[i], t) :: v[i] != v[j]
    ensures LastUsable(cfg, barLength, v, t) == FirstUsable(cfg, barLength, v, t)
            <==> AtMostOneUsable(cfg, barLength, v, t)
  {
    FoundIffPresent(cfg, barLength, v, t);
    if LastUsable(cfg, barLength, v, t) == 0 {
      NoneUsable(cfg, barLength, v, t);
    } else {
      var last :| 0 <= last < |v| && v[last] == LastUsable(cfg, barLength, v, t) && Usable(cfg, barLength, v[last], t)
                  && forall j :: last < j < |v| ==> !Usable(cfg, barLength, v[j], t);
      var first := Earliest(cfg, barLength, v, t, last);
      FirstUsableIs(cfg, barLength, v, t, first);
    }
  }

  lemma VendorOnce(cfg: seq<nat>, p: nat, i: nat, j: nat, budget: nat)
    requires IsConfig(cfg) && p < 0x100 && budget >= BUDGET && NoWayBack(cfg, p, budget)
    requires i < j < |Visit(cfg, p, budget)| && IsVendor(cfg, Visit(cfg, p, budget)[i])
    ensures Visit(cfg, p, budget)[i] != Visit(cfg, p, budget)[j]
  {
    if Visit(cfg, p, budget)[i] == Visit(cfg, p, budget)[j] {
      TwiceLeadsBack(cfg, p, budget, i, j, budget);
      assert false;
    }
  }

  lemma {:induction false} Earliest(cfg: seq<nat>, barLength: seq<nat>, offs: seq<nat>, t: nat, i: nat)
    returns (first: nat)
    requires IsConfig(cfg) && |barLength| == BARS && InSpace(offs) && i < |offs| && Usable(cfg, barLength, offs[i], t)
    ensures first <= i && Usable(cfg, barLength, offs[first], t)
    ensures forall j :: 0 <= j < first ==> !Usable(cfg, barLength, offs[j], t)
  {
    first := 0;
    while !Usable(cfg, barLength, offs[first], t)
      invariant first <= i && forall j :: 0 <= j < first ==> !Usable(cfg, barLength, offs[j], t)
      decreases i - first
    {
      first := first + 1;
    }
  }

  // -------------------------------------------------------------------- the whole walk

  /** The capabilities bit of the status word. */
  function HasList(status: nat): bool { status / 16 % 2 == 1 }

  function Status(cfg: seq<nat>): nat
    requires IsConfig(cfg)
  {
    cfg[6] + 0x100 * cfg[7]
  }

  /** Where the first pointer is stored, by header type (the top bit tells multifunction devices). */
  function PointerAt(hdrType: nat): nat {
    if hdrType % 0x80 == 2 then 0x14 else 0x34
  }

  /** The first pointer; none when the status tells that there is no list. */
  function Start(cfg: seq<nat>): (p: nat)
    requires IsConfig(cfg)
    ensures p < 0x100
  {
    if HasList(Status(cfg)) then cfg[PointerAt(cfg[0x0e])] else 0
  }

  /** Bit 4 of the status tells whether there is a list; its first pointer is at 0x14 for header type 2, of a single or
      multifunction device, else at 0x34. */
  lemma StartIs(cfg: seq<nat>)
    requires IsConfig(cfg)
    ensures Start(cfg) == if cfg[6] / 16 % 2 == 0 then 0
                          else if cfg[14] == 2 || cfg[14] == 130 then cfg[20] else cfg[52]
  {
  }

  /** `find_first_pci_vendor_capability` */
  method FindFirst(cfg: seq<nat>) returns (r: nat)
    requires IsConfig(cfg)
    ensures r == Scan(cfg, Start(cfg), BUDGET)
  {
    var hdrType := cfg[0x0e];
    var status := cfg[6] + 0x100 * cfg[7];
    if !HasList(status) {
      return 0;
    }
    var offset;
    match hdrType % 0x80 {
      case 1 => offset := 0x34;
      case 2 => offset := 0x14;
      case _ => offset := 0x34;
    }
    if offset != 0 {
      offset := FindNext(cfg, offset);
    }
    return offset;
  }

  /** Capabilities of other vendors do not count. */
  lemma {:induction false} SkipOthers(cfg: seq<nat>, barLength: seq<nat>, offs: seq<nat>, k: nat, m: nat, t: nat)
    requires IsConfig(cfg) && |barLength| == BARS && InSpace(offs) && k <= m <= |offs|
    requires forall i :: k <= i < m ==> !IsVendor(cfg, offs[i])
    ensures LastUsable(cfg, barLength, offs[..m], t) == LastUsable(cfg, barLength, offs[..k], t)
    decreases m - k
  {
    if k < m {
      SkipOthers(cfg, barLength, offs, k, m - 1, t);
      assert offs[..m][..m - 1] == offs[..m - 1];
    }
  }

  /** What the table holds after the first `k` capabilities. */
  ghost predicate TableIs(table: seq<nat>, cfg: seq<nat>, barLength: seq<nat>, offs: seq<nat>, k: nat)
    requires IsConfig(cfg) && |barLength| == BARS && InSpace(offs) && k <= |offs|
  {
    |table| == TYPES && forall t :: 0 <= t < TYPES ==> table[t] == LastUsable(cfg, barLength, offs[..k], t)
  }

  /** One capability enters the table. */
  lemma TableStep(table: seq<nat>, cfg: seq<nat>, barLength: seq<nat>, offs: seq<nat>, k: nat, m: nat)
    requires IsConfig(cfg) && |barLength| == BARS && InSpace(offs) && k <= m < |offs|
    requires forall i :: k <= i < m ==> !IsVendor(cfg, offs[i])
    requires IsVendor(cfg, offs[m]) && TableIs(table, cfg, barLength, offs, k)
    ensures var cfgType, bar := cfg[offs[m] + 3], cfg[offs[m] + 4];
            TableIs(if bar < BARS && cfgType < TYPES && barLength[bar] > 0 then table[cfgType := offs[m]] else table,
                    cfg, barLength, offs, m + 1)
  {
    forall t: nat | t < TYPES
      ensures LastUsable(cfg, barLength, offs[..m + 1], t)
           == if Usable(cfg, barLength, offs[m], t) then offs[m] else table[t]
    {
      SkipOthers(cfg, barLength, offs, k, m, t);
      assert offs[..m + 1][..m] == offs[..m];
    }
  }

  lemma TableEnd(table: seq<nat>, cfg: seq<nat>, barLength: seq<nat>, offs: seq<nat>, k: nat)
    requires IsConfig(cfg) && |barLength| == BARS && InSpace(offs) && k <= |offs|
    requires forall i :: k <= i < |offs| ==> !IsVendor(cfg, offs[i])
    requires TableIs(table, cfg, barLength, offs, k)
    ensures forall t: nat :: t < TYPES ==> table[t] == LastUsable(cfg, barLength, offs, t)
    ensures forall t: nat :: t < TYPES ==>
              (table[t] != 0 <==> exists i :: 0 <= i < |offs| && Usable(cfg, barLength, offs[i], t))
  {
    assert offs[..|offs|] == offs;
    forall t: nat | t < TYPES
      ensures table[t] == LastUsable(cfg, barLength, offs, t)
      ensures table[t] != 0 <==> exists i :: 0 <= i < |offs| && Usable(cfg, barLength, offs[i], t)
    {
      SkipOthers(cfg, barLength, offs, k, |offs|, t);
      FoundIffPresent(cfg, barLength, offs, t);
    }
  }

  /** The body of the outer loop, up to the next search. */
  method Enter(cfg: seq<nat>, barLength: seq<nat>, table: array<nat>, offset: nat,
               ghost offs: seq<nat>, ghost k: nat, ghost m: nat)
    requires IsConfig(cfg) && |barLength| == BARS && InSpace(offs) && offset > 0
    requires StandsAt(cfg, offs, k, m, offset) && TableIs(table[..], cfg, barLength, offs, k)
    modifies table
    ensures m < |offs| && TableIs(table[..], cfg, barLength, offs, m + 1)
  {
    var cfgType := cfg[offset + 3];
    var bar := cfg[offset + 4];
    TableStep(table[..], cfg, barLength, offs, k, m);
    if bar < BARS && cfgType < TYPES && barLength[bar] > 0 {
      table[cfgType] := offset;
    }
  }

  /** `find_pci_vendor_capabilities`: wherever the walk ends, each entry is the last usable capability of its type
      that it meets, and non-zero exactly when there is one. The precondition is exactly that the walk ends
      (`WalkEndsIff`). */
  method FindCapabilities(cfg: seq<nat>, barLength: seq<nat>, table: array<nat>)
    requires IsConfig(cfg) && |barLength| == BARS && NoWayBack(cfg, Start(cfg), BUDGET)
    requires table.Length == TYPES && forall t :: 0 <= t < TYPES ==> table[t] == 0
    modifies table
    ensures var v := Visit(cfg, Start(cfg), BUDGET);
            forall t: nat :: t < TYPES ==>
              && table[t] == LastUsable(cfg, barLength, v, t)
              && (table[t] != 0 <==> exists i :: 0 <= i < |v| && Usable(cfg, barLength, v[i], t))
  {
    ghost var p := Start(cfg);
    ghost var v := Visit(cfg, p, BUDGET);
    var offset := FindFirst(cfg);
    ghost var k := 0;
    ghost var m := ScanFindsFirst(cfg, p, BUDGET);
    while offset > 0
      invariant StandsAt(cfg, v, k, m, offset)
      invariant TableIs(table[..], cfg, barLength, v, k)
      decreases |v| - k
    {
      Enter(cfg, barLength, table, offset, v, k, m);
      offset := FindNext(cfg, offset + 1);
      k := m + 1;
      m := NextStand(cfg, p, m, BUDGET);
    }
    TableEnd(table[..], cfg, barLength, v, k);
  }

  // -------------------------------------------------------------------- some configurations

  function Built(byteAt: nat -> nat): (cfg: seq<nat>)
    requires forall i: nat :: byteAt(i) < 0x100
    ensures IsConfig(cfg) && forall i: nat :: i < |cfg| ==> cfg[i] == byteAt(i)
  {
    seq(0x110, (i: nat) requires i < 0x110 => byteAt(i))
  }

  /** Two capabilities of type 1, at 0x40 and 0x60, both with an existing BAR 0. */
  function TwoCommon(i: nat): nat {
    match i
    case 0x06 => 0x10
    case 0x34 => 0x40
    case 0x40 => VENDOR
    case 0x41 => 0x60
    case 0x43 => 1
    case 0x60 => VENDOR
    case 0x63 => 1
    case _ => 0
  }

  lemma SecondIsKept(barLength: seq<nat>)
    requires |barLength| == BARS && barLength[0] > 0
    ensures var cfg := Built(TwoCommon);
            && Start(cfg) == 0x40 && IsList(cfg, 0x40, [0x40, 0x60])
            && LastUsable(cfg, barLength, [0x40, 0x60], 1) == 0x60
            && FirstUsable(cfg, barLength, [0x40, 0x60], 1) == 0x40
  {
    var cfg, offs := Built(TwoCommon), [0x40, 0x60];
    assert cfg[0x61] == 0 && cfg[0x41] == 0x60;
    assert IsList(cfg, cfg[0x61], []);
    assert offs[1..] == [0x60] && offs[1..][1..] == [];
    assert IsList(cfg, cfg[0x41], [0x60]);
    assert Usable(cfg, barLength, 0x40, 1) && Usable(cfg, barLength, 0x60, 1);
  }

  /** A vendor capability whose pointer names itself. */
  function SelfLoop(i: nat): nat {
    match i
    case 0x06 => 0x10
    case 0x34 => 0x40
    case 0x40 => VENDOR
    case 0x41 => 0x40
    case _ => 0
  }

  lemma SelfLoopHangs(k: nat, budget: nat)
    requires budget >= BUDGET
    ensures var cfg := Built(SelfLoop); Start(cfg) == 0x40 && Found(cfg, Start(cfg), budget, k) != 0
  {
    var cfg := Built(SelfLoop);
    assert cfg[0x40] == VENDOR && cfg[0x41] == 0x40;
    var v := Visit(cfg, 0x40, budget);
    assert v[0] == 0x40;
    FoundNeverEnds(cfg, 0x40, 0x40, k, budget);
  }

  /** Capabilities of type 2: a usable one at 0x40, one whose BAR does not exist at 0x50, one whose BAR index is out of
      range at 0x60, one of another kind at 0x70; the pointer to 0x80, where nothing is, ends the list. */
  predicate FourCaps(cfg: seq<nat>)
    requires IsConfig(cfg)
  {
    && cfg[0x06] == 0x10 && cfg[0x0e] == 0 && cfg[0x34] == 0x40
    && (cfg[0x40], cfg[0x41], cfg[0x42], cfg[0x43], cfg[0x44]) == (9, 0x50, 16, 2, 4)
    && (cfg[0x50], cfg[0x51], cfg[0x52], cfg[0x53], cfg[0x54]) == (9, 0x60, 16, 2, 3)
    && (cfg[0x60], cfg[0x61], cfg[0x62], cfg[0x63], cfg[0x64]) == (9, 0x70, 16, 2, 6)
    && (cfg[0x70], cfg[0x71], cfg[0x72], cfg[0x73], cfg[0x74]) == (5, 0x80, 16, 2, 4)
    && (cfg[0x80], cfg[0x81]) == (255, 0x40)
  }

  lemma UnusableAreSkipped(cfg: seq<nat>)
    requires IsConfig(cfg) && FourCaps(cfg)
    ensures var offs := [0x40, 0x50, 0x60, 0x70];
            && Start(cfg) == 0x40 && IsList(cfg, 0x40, offs)
            && LastUsable(cfg, [0, 0, 0, 0, 64, 0], offs, 2) == 0x40
            && LastUsable(cfg, [0, 0, 0, 0, 64, 0], offs, 1) == 0
            && LastUsable(cfg, [0, 0, 0, 32, 64, 0], offs, 2) == 0x50
  {
    FourCapsList(cfg);
    LastOfFour(cfg, [0, 0, 0, 0, 64, 0], [0x40, 0x50, 0x60, 0x70], 2, 0x40);
    LastOfFour(cfg, [0, 0, 0, 0, 64, 0], [0x40, 0x50, 0x60, 0x70], 1, 0);
    LastOfFour(cfg, [0, 0, 0, 32, 64, 0], [0x40, 0x50, 0x60, 0x70], 2, 0x50);
  }

  lemma ListCons(cfg: seq<nat>, p: nat, o: nat, rest: seq<nat>)
    requires IsConfig(cfg) && o < 0x100 && p < 0x100 && !Ends(cfg, p) && o == Dword(p)
    requires IsList(cfg, cfg[o + 1], rest)
    ensures IsList(cfg, p, [o] + rest)
  {
    assert ([o] + rest)[1..] == rest;
  }

  lemma FourCapsList(cfg: seq<nat>)
    requires IsConfig(cfg) && FourCaps(cfg)
    ensures IsList(cfg, 0x40, [0x40, 0x50, 0x60, 0x70])
  {
    ListCons(cfg, 0x70, 0x70, []);
    ListCons(cfg, 0x60, 0x60, [0x70]);
    ListCons(cfg, 0x50, 0x50, [0x60, 0x70]);
    ListCons(cfg, 0x40, 0x40, [0x50, 0x60, 0x70]);
    assert [0x40] + [0x50, 0x60, 0x70] == [0x40, 0x50, 0x60, 0x70];
    assert [0x50] + [0x60, 0x70] == [0x50, 0x60, 0x70] && [0x60] + [0x70] == [0x60, 0x70];
  }

  /** The last of the four that is usable. */
  lemma LastOfFour(cfg: seq<nat>, barLength: seq<nat>, offs: seq<nat>, t: nat, o: nat)
    requires IsConfig(cfg) && |barLength| == BARS && InSpace(offs) && |offs| == 4
    requires !Usable(cfg, barLength, offs[3], t) && !Usable(cfg, barLength, offs[2], t)
    requires o == if Usable(cfg, barLength, offs[1], t) then offs[1]
                  else if Usable(cfg, barLength, offs[0], t) then offs[0] else 0
    ensures LastUsable(cfg, barLength, offs, t) == o
  {
    assert offs[..3][..2] == offs[..2] && offs[..2][..1] == offs[..1] && offs[..1][..0] == [];
    assert LastUsable(cfg, barLength, offs[..3], t) == LastUsable(cfg, barLength, offs[..2], t);
    assert LastUsable(cfg, barLength, offs[..1], t)
        == if Usable(cfg, barLength, offs[0], t) then offs[0] else LastUsable(cfg, barLength, [], t);
  }
}
