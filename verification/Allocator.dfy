/** What both memory managers promise through Kernel/include/mm.h: an arena of live,
    pairwise disjoint payload ranges. */
module Allocator {

  /** `live` maps the address handed to the caller to the number of bytes behind it; every
      payload lies in `[lo, hi)`. */
  datatype Arena = Arena(lo: nat, hi: nat, live: map<nat, nat>)

  ghost predicate Sound(a: Arena) {
    && a.lo <= a.hi
    && (forall p :: p in a.live ==> a.lo <= p && 0 < a.live[p] && p + a.live[p] <= a.hi)
    && (forall p, q :: p in a.live && q in a.live && p < q ==> p + a.live[p] <= q)
  }

  /** A successful request for `size` bytes that returned `p`. */
  ghost predicate Allocates(a: Arena, b: Arena, size: nat, p: nat) {
    && p !in a.live
    && p in b.live
    && size <= b.live[p]
    && b == a.(live := a.live[p := b.live[p]])
    && Sound(b)
  }

  /** A pointer satisfies every request up to the bytes behind it. */
  lemma AllocatesUpTo(a: Arena, b: Arena, size: nat, p: nat, other: nat)
    requires Allocates(a, b, size, p)
    ensures size <= b.live[p] && (Allocates(a, b, other, p) <==> other <= b.live[p])
  {
    hide Sound;
  }

  /** Returning the live pointer `p`. */
  ghost predicate Releases(a: Arena, b: Arena, p: nat) {
    && p in a.live
    && b == a.(live := a.live - {p})
  }

  // ---------------------------------------------------------------- the region a heap is laid in

  predicate Granule(x: nat) {
    x % 16 == 0
  }

  /** The heap `[base, base + usable)` is the region with both ends rounded inwards to 16 bytes. */
  predicate Fills(start: nat, size: nat, base: nat, usable: nat) {
    && start <= base < start + 16 && Granule(base)
    && base + usable <= start + size < base + usable + 16 && Granule(usable)
  }

  /** The region has no room for `n` bytes from a multiple of 16 on. */
  ghost predicate TooSmall(start: nat, size: nat, n: nat) {
    forall x: nat :: Granule(x) && start <= x ==> start + size < x + n
  }

  /** A heap that fills a region decides whether it is too small. */
  lemma FilledDecides(start: nat, size: nat, base: nat, usable: nat, n: nat)
    requires Fills(start, size, base, usable) && Granule(n)
    ensures TooSmall(start, size, n) <==> usable < n
  {
    if usable < n {
      forall x: nat | Granule(x) && start <= x ensures start + size < x + n {
        FirstGranule(start, base, x);
      }
    } else {
      assert Granule(base) && start <= base && base + n <= start + size;
    }
  }

  lemma FirstGranule(start: nat, base: nat, x: nat)
    requires start <= base < start + 16 && Granule(base) && Granule(x) && start <= x
    ensures base <= x
  {
    assert base / 16 * 16 == base && x / 16 * 16 == x;
  }

  // ---------------------------------------------------------------- runs

  datatype Op = Alloc(size: nat, ptr: nat) | Free(ptr: nat) | Refused

  ghost predicate Step(a: Arena, op: Op, b: Arena) {
    match op
    case Alloc(size, p) => Allocates(a, b, size, p)
    case Free(p) => Releases(a, b, p)
    case Refused => a == b
  }

  ghost predicate Run(states: seq<Arena>, ops: seq<Op>) {
    && |states| == |ops| + 1
    && forall i :: 0 <= i < |ops| ==> Step(states[i], ops[i], states[i + 1])
  }

  /** Over any run the live ranges stay disjoint, and a payload keeps its extent until its
      pointer is freed. */
  lemma {:induction false} RunsKeepRanges(states: seq<Arena>, ops: seq<Op>, p: nat)
    requires Run(states, ops) && Sound(states[0])
    requires p in states[0].live && Free(p) !in ops
    ensures Sound(states[|ops|])
    ensures p in states[|ops|].live && states[|ops|].live[p] == states[0].live[p]
    decreases |ops|
  {
    if |ops| > 0 {
      assert Step(states[0], ops[0], states[1]);
      RunsKeepRanges(states[1..], ops[1..], p);
    }
  }

  // ---------------------------------------------------------------- accounting

  /** mm_stats_t */
  datatype Stats = Stats(total: nat, used: nat, free: nat, largest: nat, allocations: nat, frees: nat, failed: nat)

  /** The payload bytes of the live pointers below `k`. */
  function UsedBelow(live: map<nat, nat>, k: nat): nat {
    if k == 0 then 0
    else UsedBelow(live, k - 1) + if k - 1 in live then live[k - 1] else 0
  }

  function Used(a: Arena): nat {
    UsedBelow(a.live, a.hi)
  }

  lemma {:induction false} UsedInsert(live: map<nat, nat>, p: nat, n: nat, k: nat)
    requires p !in live
    ensures UsedBelow(live[p := n], k) == UsedBelow(live, k) + if p < k then n else 0
  {
    if k > 0 { UsedInsert(live, p, n, k - 1); }
  }

  lemma {:induction false} NothingUsed(k: nat)
    ensures UsedBelow(map[], k) == 0
  {
    if k > 0 { NothingUsed(k - 1); }
  }

  lemma {:induction false} UsedWithin(a: Arena, k: nat, e: nat)
    requires Sound(a) && a.lo <= e
    requires forall p :: p in a.live && p < k ==> p + a.live[p] <= e
    ensures UsedBelow(a.live, k) <= e - a.lo
  {
    if k > 0 {
      if k - 1 in a.live {
        UsedWithin(a, k - 1, k - 1);
      } else {
        UsedWithin(a, k - 1, e);
      }
    }
  }

  /** The live payloads never add up to more than the arena holds. */
  lemma UsedFits(a: Arena)
    requires Sound(a)
    ensures Used(a) <= a.hi - a.lo
  {
    UsedWithin(a, a.hi, a.hi);
  }

  lemma UsedByAlloc(a: Arena, b: Arena, size: nat, p: nat)
    requires Allocates(a, b, size, p)
    ensures Used(b) == Used(a) + b.live[p]
  {
    UsedInsert(a.live, p, b.live[p], a.hi);
  }

  lemma UsedByFree(a: Arena, b: Arena, p: nat)
    requires Sound(a) && Releases(a, b, p)
    ensures Sound(b)
    ensures Used(a) == Used(b) + a.live[p]
  {
    assert a.live == b.live[p := a.live[p]];
    UsedInsert(b.live, p, a.live[p], a.hi);
  }
}
