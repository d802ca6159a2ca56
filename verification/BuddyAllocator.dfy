/** Kernel/mm/mm_buddy.c. The header fields of all blocks are maps from block offset (in base
    blocks) to value; writing through a block pointer updates the map. */
module BuddyAllocator {
  import opened Dyadic
  import opened BuddyHeap
  import opened BuddyLists
  import opened Links
  import opened Allocator

  const HDR := 32
  const BASE := 64
  const TWO64 := 0x1_0000_0000_0000_0000
  const MOST := 0x20_0000_0000 - HDR    // the payload of a block of level 31

  /** align_up_u64(v, 16), on 64-bit words. */
  function AlignUp(v: nat): nat {
    (v + 15) % TWO64 / 16 * 16
  }

  /** The number of bytes a request must find, header included, on 64-bit words. */
  function Request(size: nat): nat {
    (AlignUp(size) + HDR) % TWO64
  }

  function Payload(l: nat): (n: nat)
    ensures n >= HDR
  {
    BASE * Pow2(l) - HDR
  }

  lemma PayloadMonotone(k: nat, l: nat)
    ensures k <= l <==> Payload(k) <= Payload(l)
  {
    if k <= l { Pow2Monotone(k, l); } else { Pow2Monotone(l, k); }
  }

  /** `ord` is the smallest level that holds `bytes`, capped at 31. */
  predicate IsOrder(bytes: nat, ord: nat) {
    && ord < MAX_LEVELS
    && (ord > 0 ==> BASE * Pow2(ord - 1) < bytes)
    && (bytes <= BASE * Pow2(ord) || ord == MAX_LEVELS - 1)
  }

  lemma Pow31()
    ensures Pow2(31) == 0x8000_0000
  {
    assert Pow2(4) == 16;
    assert Pow2(8) == 256;
    assert Pow2(12) == 0x1000;
    assert Pow2(16) == 0x1_0000;
    assert Pow2(20) == 0x10_0000;
    assert Pow2(24) == 0x100_0000;
    assert Pow2(28) == 0x1000_0000;
  }

  /** The block chosen for a request covers it exactly when the request is at most 2^37 - 32
      bytes: above that the level is capped or the 64-bit sum wraps. */
  lemma OrderCovers(size: nat, ord: nat)
    requires 0 < size < TWO64 && IsOrder(Request(size), ord)
    ensures size <= Payload(ord) <==> size <= MOST
  {
    hide IsOrder, Pow2, Request;
    assert ord <= 31 by { OrderInRange(Request(size), ord); }
    Pow31();
    PayloadMonotone(ord, 31);
    if size <= MOST { OrderCoversAligned(size, ord); }
  }

  lemma OrderInRange(bytes: nat, ord: nat)
    requires IsOrder(bytes, ord)
    ensures ord < MAX_LEVELS
  {
  }

  /** For example the largest 64-bit size wraps to the smallest block. */
  lemma WrappedRequest()
    ensures Request(TWO64 - 1) == HDR && IsOrder(HDR, 0) && Payload(0) == 32
  {
  }

  /** `n` is the largest payload a free block offers, 0 if there is none. */
  ghost predicate IsLargest(h: Heap, n: int) {
    && (forall s: nat :: h.Free(s) ==> Payload(h.tiles[s]) <= n)
    && (n == 0 || exists s: nat :: h.Free(s) && Payload(h.tiles[s]) == n)
  }

  ghost predicate CanServe(h: Heap, ord: nat) {
    exists s: nat :: h.Free(s) && ord <= h.tiles[s]
  }

  /** The largest free block predicts the outcome of a request, unless the request is one that
      wraps or exceeds the level cap of a heap that has level 31. */
  lemma StatsPredict(h: Heap, size: nat, ord: nat, n: int)
    requires Tiling(h) && h.top < MAX_LEVELS
    requires 0 < size <= TWO64 - 48 && (size <= MOST || h.top < MAX_LEVELS - 1)
    requires IsOrder(Request(size), ord) && IsLargest(h, n)
    ensures CanServe(h, ord) <==> AlignUp(size) <= n
  {
    hide Tiling, BlockOk, Pow2, Payload, IsOrder, Request, AlignUp;
    OrderPayload(size, ord);
    if CanServe(h, ord) {
      var s: nat :| h.Free(s) && ord <= h.tiles[s];
      assert h.tiles[s] <= h.top by { LevelBelowTop(h, s); }
      if size <= MOST { OrderCoversAligned(size, ord); }
      PayloadMonotone(ord, h.tiles[s]);
    }
    if AlignUp(size) <= n {
      assert 0 < AlignUp(size) by { AlignedPositive(size); }
      var s: nat :| h.Free(s) && Payload(h.tiles[s]) == n;
      if h.tiles[s] < ord { PayloadMonotone(h.tiles[s], ord - 1); }
    }
  }

  /** Whether the reported largest free block predicts the outcome of a request. It always does up to
      2^37 - 32 bytes; above, the code may hand out a block that is too small. */
  predicate Predictable(size: nat, n: int) {
    if size <= MOST then true
    else if size <= TWO64 - 48 then n < MOST    // capped at level 31: no such block must be free
    else n > 0 <==> size > TWO64 - 16           // the sum wraps, and near the end the alignment too
  }

  lemma StatsExact(h: Heap, size: nat, ord: nat, n: int)
    requires Tiling(h) && h.top < MAX_LEVELS && 0 < size < TWO64
    requires IsOrder(Request(size), ord) && IsLargest(h, n)
    ensures (CanServe(h, ord) <==> AlignUp(size) <= n) <==> Predictable(size, n)
  {
    hide Tiling, BlockOk, Pow2, Payload, IsOrder, Request, AlignUp, CanServe;
    LargestServes(h, n);
    if size <= MOST {
      StatsPredict(h, size, ord, n);
    } else {
      BeyondMost(size, ord);
    }
  }

  /** Some block is free exactly when the largest is not 0, and one of level 31 when it is 2^37 - 32. */
  lemma LargestServes(h: Heap, n: int)
    requires Tiling(h) && h.top < MAX_LEVELS && IsLargest(h, n)
    ensures 0 <= n <= MOST
    ensures CanServe(h, 0) <==> n > 0
    ensures CanServe(h, MAX_LEVELS - 1) <==> n >= MOST
  {
    hide Tiling, BlockOk, Pow2;
    Pow31();
    forall s: nat | h.Free(s)
      ensures h.tiles[s] <= 31 && Payload(h.tiles[s]) <= MOST && (Payload(h.tiles[s]) == MOST <==> h.tiles[s] == 31)
    {
      LevelBelowTop(h, s);
      PayloadMonotone(h.tiles[s], 31);
      PayloadMonotone(31, h.tiles[s]);
    }
    if CanServe(h, 31) {
      var s: nat :| h.Free(s) && 31 <= h.tiles[s];
    }
    if n > 0 {
      var s: nat :| h.Free(s) && Payload(h.tiles[s]) == n;
      assert n >= MOST ==> h.tiles[s] == MAX_LEVELS - 1;
    }
  }

  /** The level of a request that no block holds. */
  lemma BeyondMost(size: nat, ord: nat)
    requires MOST < size < TWO64 && IsOrder(Request(size), ord)
    ensures ord == if size <= TWO64 - 48 then MAX_LEVELS - 1 else 0
    ensures AlignUp(size) > MOST <==> size <= TWO64 - 16
    ensures size > TWO64 - 16 ==> AlignUp(size) == 0
  {
    hide Pow2;
    Pow31();
    BeyondMostRequest(size);
    if size <= TWO64 - 48 {
      PayloadMonotone(ord, 31);
    }
  }

  lemma BeyondMostRequest(size: nat)
    requires MOST < size < TWO64
    ensures size <= TWO64 - 48 ==> Request(size) > MOST + HDR
    ensures size > TWO64 - 48 ==> Request(size) <= HDR
    ensures AlignUp(size) > MOST <==> size <= TWO64 - 16
    ensures size > TWO64 - 16 ==> AlignUp(size) == 0
  {
  }

  lemma LevelBelowTop(h: Heap, s: nat)
    requires Tiling(h) && s in h.tiles
    ensures h.tiles[s] <= h.top
  {
    assert BlockOk(h, s);
  }

  lemma AlignedPositive(size: nat)
    requires 0 < size <= TWO64 - 48
    ensures 0 < AlignUp(size)
  {
  }

  lemma OrderPayload(size: nat, ord: nat)
    requires 0 < size <= TWO64 - 48 && IsOrder(Request(size), ord)
    ensures ord > 0 ==> Payload(ord - 1) < AlignUp(size)
    ensures AlignUp(size) <= Payload(ord) || ord == MAX_LEVELS - 1
  {
    assert Request(size) == AlignUp(size) + HDR;
  }

  lemma OrderCoversAligned(size: nat, ord: nat)
    requires 0 < size <= MOST && IsOrder(Request(size), ord)
    ensures AlignUp(size) <= Payload(ord)
  {
    Pow31();
    assert Request(size) == AlignUp(size) + HDR;
  }

  /** The address handed out for the block at offset `s`, and the way back. */
  function Ptr(base: nat, s: nat): nat {
    base + BASE * s + HDR
  }

  function Offset(base: nat, p: nat): int {
    (p - HDR - base) / BASE
  }

  ghost function Ptrs(base: nat, live: set<nat>): (ps: set<nat>)
    ensures forall s :: s in live ==> Ptr(base, s) in ps
    ensures forall p :: p in ps ==> Offset(base, p) >= 0 && Offset(base, p) in live && p == Ptr(base, Offset(base, p))
  {
    set s | s in live :: Ptr(base, s)
  }

  /** The payload ranges of the live blocks of `h` when the heap starts at `base`. */
  ghost function ArenaOf(base: nat, usable: nat, h: Heap): (a: Arena)
    requires h.live <= h.tiles.Keys
    ensures a.lo == base + HDR && a.hi == base + usable
    ensures forall s {:trigger Ptr(base, s)} :: s in h.live ==>
              Ptr(base, s) in a.live && a.live[Ptr(base, s)] == Payload(h.tiles[s])
    ensures forall p :: p in a.live ==>
              Offset(base, p) >= 0 && Offset(base, p) in h.live && p == Ptr(base, Offset(base, p))
  {
    Arena(base + HDR, base + usable, map p | p in Ptrs(base, h.live) :: Payload(h.tiles[Offset(base, p)]))
  }

  lemma ArenaSound(base: nat, usable: nat, h: Heap)
    requires Tiling(h) && BASE * h.units <= usable && HDR <= usable
    ensures Sound(ArenaOf(base, usable, h))
  {
    var a := ArenaOf(base, usable, h);
    forall p | p in a.live ensures a.lo <= p && 0 < a.live[p] && p + a.live[p] <= a.hi {
      assert BlockOk(h, Offset(base, p));
    }
    forall p, q | p in a.live && q in a.live && p < q ensures p + a.live[p] <= q {
      assert h.End(Offset(base, p)) <= Offset(base, q);
    }
  }

  lemma ArenaAlloc(base: nat, usable: nat, h: Heap, h': Heap, s: nat)
    requires h.live <= h.tiles.Keys && h'.live <= h'.tiles.Keys && Tiling(h') && BASE * h'.units <= usable
             && HDR <= usable
    requires s !in h.live && h'.live == h.live + {s}
    requires forall t :: t in h.live ==> h'.tiles[t] == h.tiles[t]
    ensures Allocates(ArenaOf(base, usable, h), ArenaOf(base, usable, h'), Payload(h'.tiles[s]), Ptr(base, s))
  {
    hide Pow2, Sound, Payload, Tiling, ArenaOf;
    ArenaSound(base, usable, h');
    var a, b, p := ArenaOf(base, usable, h), ArenaOf(base, usable, h'), Ptr(base, s);
    assert Offset(base, p) == s;
    assert b.live == a.live[p := b.live[p]];
  }

  lemma ArenaFree(base: nat, usable: nat, h: Heap, h': Heap, s: nat)
    requires h.live <= h.tiles.Keys && h'.live <= h'.tiles.Keys
    requires s in h.live && h'.live == h.live - {s}
    requires forall t :: t in h'.live ==> h'.tiles[t] == h.tiles[t]
    ensures Releases(ArenaOf(base, usable, h), ArenaOf(base, usable, h'), Ptr(base, s))
  {
    hide Pow2, Sound, Payload, Tiling, ArenaOf;
    var a, b, p := ArenaOf(base, usable, h), ArenaOf(base, usable, h'), Ptr(base, s);
    assert Offset(base, p) == s;
    assert b.live == a.live - {p};
  }

  /** The saturating updates of heap_used_bytes. */
  function CappedAt(n: nat, cap: nat): nat {
    if n > cap then cap else n
  }

  function Drop(n: nat, d: nat): nat {
    if n >= d then n - d else 0
  }

  /** The heap bytes mm_init can use out of a region, 0 if it refuses the region. */
  function UsableBytes(start: nat, size: nat): nat {
    var loss := AlignUp(start) - start;
    if size < HDR + 16 || loss >= size then 0
    else
      var n := (size - loss) / 16 * 16;
      if n < HDR + 16 then 0 else n
  }

  /** What that means for the region: its granules, or too few of them. */
  lemma UsableFills(start: nat, size: nat)
    requires start + size <= TWO64
    ensures UsableBytes(start, size) >= 48 <==> !TooSmall(start, size, 48)
    ensures UsableBytes(start, size) >= 48 ==> Fills(start, size, AlignUp(start), UsableBytes(start, size))
  {
    hide AlignUp;
    if size < 48 {
      assert TooSmall(start, size, 48);
    } else {
      AlignUpIs(start);
      var base := AlignUp(start);
      var rest := start + size - base;
      RoundDownIs(rest);
      assert Fills(start, size, base, rest / 16 * 16);
      FilledDecides(start, size, base, rest / 16 * 16, 48);
    }
  }

  /** The alignment rounds up to the next multiple of 16, unless it wraps. */
  lemma AlignUpIs(v: nat)
    requires v + 16 <= TWO64
    ensures v <= AlignUp(v) < v + 16 && Granule(AlignUp(v))
  {
    assert (v + 15) % TWO64 == v + 15;
    RoundDownIs(v + 15);
  }

  lemma RoundDownIs(n: nat)
    ensures n - 16 < n / 16 * 16 <= n && Granule(n / 16 * 16)
  {
    var q, r := n / 16, n % 16;
    assert n == 16 * q + r;
  }

  /** What a raw byte of memory reads as when taken for a header. */
  type Garbage = nat -> (nat, bool, int, int)

  class Manager {
    // the region mm_default_region computes from the kernel image
    const defaultStart: nat
    const defaultSize: nat

    var initialized: bool
    var base: nat
    var usable: nat
    var capacity: nat
    var used: nat
    var allocations: nat
    var frees: nat
    var failed: nat
    var maxLevel: nat

    // block headers, by offset, and the free list heads
    var level: map<int, nat>
    var isFree: map<int, bool>
    var next: Pointers
    var prev: Pointers
    var heads: seq<int>

    ghost var lists: Lists
    ghost var heap: Heap

    ghost function Mem(): Memory
      reads this
    {
      Memory(level, isFree, next, prev, heads)
    }

    ghost predicate Imaged(hand: set<nat>)
      reads this
    {
      && Image(Mem(), lists, heap, hand)
      && |lists| == |heads| == MAX_LEVELS
      && heap.live <= heap.tiles.Keys
    }

    /** The memory shows a heap of the size and top level that mm_init computed. */
    ghost predicate Consistent(hand: set<nat>)
      reads this
    {
      && Imaged(hand)
      && heap.top == maxLevel < MAX_LEVELS
      && heap.units == usable / BASE
    }

    ghost function Live(): Arena
      reads this
      requires heap.live <= heap.tiles.Keys
    {
      ArenaOf(base, usable, heap)
    }

    ghost predicate Ready()
      reads this
    {
      && initialized
      && Consistent({})
      && Canonical(heap)
      && HDR + 16 <= usable
      && capacity == usable - HDR
      && used == Used(Live())
    }

    ghost predicate Valid()
      reads this
    {
      initialized ==> Ready()
    }

    constructor (defaultStart: nat, defaultSize: nat)
      requires defaultStart + defaultSize <= TWO64
      ensures Valid() && !initialized
      ensures this.defaultStart == defaultStart && this.defaultSize == defaultSize
    {
      this.defaultStart, this.defaultSize := defaultStart, defaultSize;
      initialized := false;
      base, usable, capacity, used, allocations, frees, failed, maxLevel := 0, 0, 0, 0, 0, 0, 0, 0;
      level, isFree, next, prev := map[], map[], map[], map[];
      heads := seq(MAX_LEVELS, _ => NIL);
      lists, heap := [], Heap(0, 0, map[], {});
    }

    /** order_for */
    method OrderFor(bytes: nat) returns (order: nat)
      ensures IsOrder(bytes, order)
    {
      var total := if bytes < BASE then BASE else bytes;
      order := 0;
      var blk := BASE;
      while blk < total && order < MAX_LEVELS - 1
        invariant order < MAX_LEVELS && blk == BASE * Pow2(order)
        invariant order > 0 ==> BASE * Pow2(order - 1) < total
      {
        blk := blk * 2;
        order := order + 1;
      }
    }

    /** push_free */
    method PushFree(b: nat, ghost hand: set<nat>)
      requires Imaged(hand) && b in heap.live
      requires b in level && level[b] == heap.tiles[b] < MAX_LEVELS
      modifies this`isFree, this`prev, this`next, this`heads, this`lists, this`heap
      ensures Imaged(hand - {b})
      ensures heap == old(heap).(live := old(heap).live - {b})
      ensures lists == Pushed(old(lists), old(heap).tiles[b], b)
      ensures Mem() == Push(old(Mem()), b)
    {
      PushImage(Mem(), lists, heap, hand, b);
      var l := level[b];
      isFree := isFree[b := true];
      prev := prev[b := NIL];
      next := next[b := heads[l]];
      if next[b] != NIL {
        prev := prev[next[b] := b];
      }
      heads := heads[l := b];
      lists := Pushed(lists, l, b);
      heap := heap.(live := heap.live - {b});
    }

    /** pop_free: NIL when the list is empty. */
    method PopFree(l: nat) returns (b: int)
      requires Consistent({}) && l < MAX_LEVELS
      modifies this`isFree, this`prev, this`next, this`heads, this`lists, this`heap
      ensures Consistent({})
      ensures b == At(old(lists)[l], 0, NIL)
      ensures b == NIL ==> Mem() == old(Mem()) && lists == old(lists) && heap == old(heap)
      ensures b != NIL ==>
                && old(heap).Free(b) && old(heap).tiles[b] == l
                && heap == old(heap).(live := old(heap).live + {b})
                && lists == Removed(old(lists), l, b)
                && level == old(level)
    {
      hide Image, Linked, Tiling;
      FirstOfList(Mem(), lists, heap, {}, l);
      b := heads[l];
      if b == NIL {
        if lists[l] != [] { NeverNil(heap, lists[l][0]); }
        return;
      }
      HeadOf(Mem(), lists, heap, {}, l);
      UnlinkImage(Mem(), lists, heap, {}, b, 0);
      assert {} + {b as nat} == {b as nat};
      heads := heads[l := next[b]];
      if heads[l] != NIL {
        prev := prev[heads[l] := NIL];
      }
      next, prev := next[b := NIL], prev[b := NIL];
      assert Mem() == Unlink(old(Mem()), l, b, NIL);
      lists := Removed(lists, l, b);
      heap := heap.(live := heap.live + {b});
      MarkImage(Mem(), lists, heap, {b}, b);
      isFree := isFree[b := false];
      assert {b} - {b} == {};
    }

    /** split_down: takes the first block of level `from` and cuts it down to level `to`. */
    method SplitDown(from: nat, to: nat) returns (b: int)
      requires Consistent({}) && to <= from < MAX_LEVELS && lists[from] != []
      requires Canonical(heap)
      modifies this`level, this`isFree, this`prev, this`next, this`heads, this`lists, this`heap
      ensures Consistent({})
      ensures b == old(lists)[from][0] && old(heap).Free(b) && old(heap).tiles[b] == from
      ensures lists == Removed(SplitLists(old(lists), b, from, to), to, b)
      ensures heap == SplitHeap(old(heap), b, to).(live := old(heap).live + {b as nat})
      ensures heap.tiles[b] == to
      ensures forall t :: t in old(heap).live ==> heap.tiles[t] == old(heap).tiles[t]
      ensures Canonical(heap)
    {
      hide Image, SplitLists, SplitHeap, Canonical, Tiling;
      var l := from;
      FirstOfList(Mem(), lists, heap, {}, from);
      SplitHeapKeeps(heap, lists[from][0], to);
      MoreLiveCanonical(heap, lists[from][0]);
      ghost var s: nat := lists[from][0];
      ghost var h0, lists0 := heap, lists;
      while l > to
        invariant to <= l <= from
        invariant Consistent({})
        invariant heap.live == h0.live && |lists| == MAX_LEVELS
        invariant heap.Free(s) && heap.tiles[s] == l
        invariant lists[l] != [] && lists[l][0] == s
        invariant SplitLists(lists, s, l, to) == SplitLists(lists0, s, from, to)
        invariant SplitHeap(heap, s, to) == SplitHeap(h0, s, to)
        invariant Canonical(heap.(live := heap.live + {s}))
      {
        SplitUnfold(heap, lists, s, to);
        SplitOnce(l, s);
        l := l - 1;
      }
      SplitUnfold(heap, lists, s, to);
      b := PopFree(to);
    }

    /** Writes a new header and pushes the block, as split_down does for both halves. */
    method Enter(b: nat, l: nat, ghost hand: set<nat>)
      requires Imaged(hand) && b in heap.live && b in hand && l == heap.tiles[b] < MAX_LEVELS
      modifies this`level, this`isFree, this`prev, this`next, this`heads, this`lists, this`heap
      ensures Imaged(hand - {b})
      ensures heap == old(heap).(live := old(heap).live - {b})
      ensures lists == Pushed(old(lists), l, b)
      ensures forall n :: old(Mapped(Mem(), n)) ==> Mapped(Mem(), n)
    {
      HeaderImage(Mem(), lists, heap, hand, b, l);
      level := level[b := l];
      isFree := isFree[b := true];
      next, prev := next[b := NIL], prev[b := NIL];
      PushFree(b, hand);
    }

    /** One round of the loop in split_down. */
    method SplitOnce(l: nat, ghost s: nat)
      requires Consistent({}) && 0 < l < MAX_LEVELS
      requires lists[l] != [] && lists[l][0] == s
      requires heap.Free(s) && heap.tiles[s] == l
      modifies this`level, this`isFree, this`prev, this`next, this`heads, this`lists, this`heap
      ensures Consistent({})
      ensures heap == Split(old(heap), s)
      ensures lists == Pushed(Pushed(Removed(old(lists), l, s), l - 1, s + Pow2(l - 1)), l - 1, s)
      ensures lists[l - 1] != [] && lists[l - 1][0] == s
      ensures heap.Free(s) && heap.tiles[s] == l - 1
      ensures Canonical(old(heap).(live := old(heap).live + {s})) ==> Canonical(heap.(live := heap.live + {s}))
    {
      hide Image, Canonical, Pow2;
      ghost var h0 := heap;
      FirstOfList(Mem(), lists, heap, {}, l);
      SplitKeeps(h0, s);
      var blk, buddy := Cut(l, s);
      Enter(buddy, l - 1, {s, buddy});
      Enter(blk, l - 1, {s, buddy} - {buddy});
      assert {s, buddy} - {buddy} - {blk} == {};
      assert heap.live == h0.live by { TakenBack(h0.live, s, buddy); }
      PushedFirst(Removed(old(lists), l, s), l - 1, buddy, blk);
      if Canonical(h0.(live := h0.live + {s})) {
        SplitCanonical(h0, s);
      }
    }

    /** Takes the first block of level `l` off its list and finds its upper half. */
    method Cut(l: nat, ghost s: nat) returns (blk: nat, buddy: nat)
      requires Consistent({}) && 0 < l < MAX_LEVELS
      requires lists[l] != [] && lists[l][0] == s
      requires heap.Free(s) && heap.tiles[s] == l
      modifies this`isFree, this`prev, this`next, this`heads, this`lists, this`heap
      ensures blk == s && buddy == s + Pow2(l - 1)
      ensures Consistent({s, buddy})
      ensures heap == Split(old(heap), s).(live := old(heap).live + {s} + {buddy})
      ensures lists == Removed(old(lists), l, s)
    {
      hide Image;
      blk := PopFree(l);
      var size := Pow2(l);
      buddy := blk + size / 2;
      SplitImage(Mem(), lists, heap, s);
      heap := Split(heap, s).(live := heap.live + {buddy});
    }

    /** find_buddy: the other half of the pair, or NIL when it would leave the heap. */
    method FindBuddy(blk: nat, ghost hand: set<nat>) returns (b: int)
      requires Consistent(hand) && blk in heap.tiles && blk in level && level[blk] == heap.tiles[blk]
      ensures b == NIL <==> Buddy(blk, level[blk]) + Pow2(level[blk]) > heap.units
      ensures b != NIL ==> b == Buddy(blk, level[blk]) && b >= 0 && b in heap.tiles && heap.tiles[b] <= level[blk]
    {
      hide Image, Xor, Aligned;
      HeaderOf(Mem(), lists, heap, hand, blk);
      var l := level[blk];
      BuddyFacts(blk, l);
      XorIsBuddy(blk, l);
      XorScaled(blk, Pow2(l));
      var offset := blk * BASE;
      var size := Pow2(l) * BASE;
      var buddyOffset := Xor(offset, size);
      if buddyOffset + size > usable {
        return NIL;
      }
      BuddyIsBlock(heap, blk);
      return buddyOffset / BASE;
    }

    /** The walk in remove_from_free_list: the node before `b`, NIL if `b` is the first. */
    method FindInList(b: nat, ghost hand: set<nat>) returns (up: int, ghost k: nat)
      requires Imaged(hand) && heap.Free(b) && heap.tiles[b] < MAX_LEVELS && b !in hand
      ensures k < |lists[heap.tiles[b]]| && lists[heap.tiles[b]][k] == b
      ensures up == At(lists[heap.tiles[b]], k - 1, NIL)
    {
      hide Image;
      HeaderOf(Mem(), lists, heap, hand, b);
      var l := level[b];
      FirstOfList(Mem(), lists, heap, hand, l);
      k := OnItsList(Mem(), lists, heap, hand, b);
      ListStep(Mem(), lists, heap, hand, l, k);
      up := NIL;
      var cur := heads[l];
      ghost var i: nat := 0;
      while cur != NIL && cur != b
        invariant i <= k && cur == At(lists[l], i, NIL) && up == At(lists[l], i - 1, NIL)
        decreases k - i
      {
        ListStep(Mem(), lists, heap, hand, l, i);
        up, cur := cur, next[cur];
        i := i + 1;
      }
      ListStep(Mem(), lists, heap, hand, l, i);
      assert lists[l][i] == lists[l][k];
    }

    /** remove_from_free_list: walks the list of the block's level up to the block. */
    method RemoveFromFreeList(b: nat, ghost hand: set<nat>)
      requires Consistent(hand) && heap.Free(b) && heap.tiles[b] < MAX_LEVELS && b !in hand
      modifies this`prev, this`next, this`heads, this`lists, this`heap
      ensures Consistent(hand + {b})
      ensures heap == old(heap).(live := old(heap).live + {b})
      ensures lists == Removed(old(lists), old(heap).tiles[b], b)
    {
      hide Image, Linked;
      HeaderOf(Mem(), lists, heap, hand, b);
      var l := level[b];
      var up: int;
      ghost var k: nat;
      up, k := FindInList(b, hand);
      UnlinkImage(Mem(), lists, heap, hand, b, k);
      if up == NIL {
        heads := heads[l := next[b]];
      } else {
        next := next[up := next[b]];
      }
      if next[b] != NIL {
        prev := prev[next[b] := prev[b]];
      }
      next, prev := next[b := NIL], prev[b := NIL];
      lists := Removed(lists, l, b);
      heap := heap.(live := heap.live + {b});
    }

    /** The heap as it will be once the block in hand is on its list. */
    ghost function Without(blk: nat): Heap
      reads this
    {
      heap.(live := heap.live - {blk})
    }

    /** coalesce: joins the block with its buddy while that is free, then pushes it. */
    method Coalesce(start: nat)
      requires Consistent({start}) && start in heap.live && start in level && level[start] == heap.tiles[start]
      requires CanonicalBut(Without(start), start)
      requires |lists| > heap.top >= heap.tiles[start]
      modifies this`level, this`isFree, this`prev, this`next, this`heads, this`lists, this`heap
      ensures Consistent({})
      ensures (heap, lists) == Coalesced(old(Without(start)), start, old(lists))
      ensures Canonical(heap)
      ensures heap.live == old(heap).live - {start}
      ensures forall s :: s in heap.live ==> heap.tiles[s] == old(heap).tiles[s]
    {
      hide Image, Canonical, CanonicalBut, Mergeable, Coalesced, Pow2, Aligned, Buddy, Tiling;
      var blk := start;
      var bud := FreeBuddy(blk);
      while bud != NIL
        invariant Consistent({blk}) && blk in heap.live && blk in level && level[blk] == heap.tiles[blk]
        invariant |lists| > heap.top >= heap.tiles[blk]
        invariant bud == NIL <==> !Mergeable(Without(blk), blk)
        invariant bud != NIL ==> bud == Buddy(blk, level[blk]) && bud >= 0
        invariant CanonicalBut(Without(blk), blk)
        invariant Without(blk).live == old(heap).live - {start}
        invariant forall s :: s in Without(blk).live ==> heap.tiles[s] == old(heap).tiles[s]
        invariant Coalesced(Without(blk), blk, lists) == Coalesced(old(Without(start)), start, old(lists))
        decreases maxLevel - level[blk]
      {
        CoalescedUnfold(Without(blk), blk, lists);
        blk := Join(blk, bud);
        bud := FreeBuddy(blk);
      }
      CoalescedUnfold(Without(blk), blk, lists);
      HeaderOf(Mem(), lists, heap, {blk}, blk);
      TilingIgnoresLive(heap, Without(blk));
      NothingToJoin(Without(blk), blk);
      PushFree(blk, {blk});
      assert {blk} - {blk} == {};
    }

    /** The test at the head of the loop in coalesce: the buddy to join, or NIL. */
    method FreeBuddy(blk: nat) returns (b: int)
      requires Consistent({blk}) && blk in heap.live && blk in level && level[blk] == heap.tiles[blk]
      ensures b == NIL <==> !Mergeable(Without(blk), blk)
      ensures b != NIL ==> b == Buddy(blk, level[blk]) && b >= 0
    {
      hide Image, Pow2, Aligned, Buddy;
      HeaderOf(Mem(), lists, heap, {blk}, blk);
      BuddyFacts(blk, level[blk]);
      if level[blk] >= maxLevel {
        return NIL;
      }
      b := FindBuddy(blk, {blk});
      if b == NIL {
        assert Buddy(blk, level[blk]) in heap.tiles ==> BlockOk(heap, Buddy(blk, level[blk]));
        return;
      }
      HeaderOf(Mem(), lists, heap, {blk}, b);
      if !isFree[b] || level[b] != level[blk] {
        return NIL;
      }
    }

    /** One round of the loop in coalesce. */
    method Join(blk: nat, bud: nat) returns (low: nat)
      requires Consistent({blk}) && blk in heap.live && blk in level && level[blk] == heap.tiles[blk]
      requires Mergeable(Without(blk), blk) && bud == Buddy(blk, level[blk])
      requires CanonicalBut(Without(blk), blk)
      requires |lists| > heap.top >= heap.tiles[blk]
      modifies this`level, this`isFree, this`prev, this`next, this`heads, this`lists, this`heap
      ensures low == Lower(blk, old(level)[blk])
      ensures Consistent({low}) && low in heap.live && low in level && level[low] == heap.tiles[low]
      ensures level[low] == old(level)[blk] + 1 <= maxLevel
      ensures Without(low) == Merge(old(Without(blk)), low)
      ensures lists == Removed(old(lists), old(level)[blk], bud)
      ensures CanonicalBut(Without(low), low)
    {
      hide Image, CanonicalBut, Mergeable, Pow2, Aligned, Buddy, Tiling, BlockOk, Merge;
      ghost var h0 := Without(blk);
      HeaderOf(Mem(), lists, heap, {blk}, blk);
      ToJoin(heap, blk);
      MergeKeeps(h0, Lower(blk, heap.tiles[blk]), blk);
      HeaderOf(Mem(), lists, heap, {blk}, bud);
      RemoveFromFreeList(bud, {blk});
      assert {blk} + {bud} == {blk, bud};
      assert heap.(live := heap.live - {blk, bud}) == h0;
      MergeLive(old(heap), heap, Lower(blk, old(heap).tiles[blk]));
      MergeImage(Mem(), lists, heap, blk, bud);

      low := if bud < blk then bud else blk;
      JoinedHeap(old(heap), blk, bud, low);
      heap := Merge(heap, low).(live := heap.live - {blk, bud} + {low});
      Raise(low);
    }

    method Raise(blk: nat)
      requires Consistent({blk}) && blk in heap.live && blk in level
      modifies this`level, this`isFree
      ensures Consistent({blk}) && level == old(level)[blk := old(level)[blk] + 1]
    {
      hide Image;
      HeaderRaised(Mem(), lists, heap, blk, level[blk] + 1);
      level := level[blk := level[blk] + 1];
      isFree := isFree[blk := true];
    }

    /** The search in mm_alloc: the list of the level itself, else the first larger one, cut down. */
    method Take(ord: nat) returns (b: int)
      requires Consistent({}) && Canonical(heap) && ord < MAX_LEVELS
      modifies this`level, this`isFree, this`prev, this`next, this`heads, this`lists, this`heap
      ensures Consistent({}) && Canonical(heap)
      ensures b == NIL <==> !CanServe(old(heap), ord)
      ensures b == NIL ==> heap == old(heap) && lists == old(lists) && Mem() == old(Mem())
      ensures b != NIL ==>
                && var from := FirstLevel(old(lists), ord);
                && from < MAX_LEVELS && b == old(lists)[from][0] && old(heap).Free(b)
                && lists == Removed(SplitLists(old(lists), b, from, ord), ord, b)
                && heap.live == old(heap).live + {b as nat} && heap.tiles[b] == ord
                && forall t :: t in old(heap).live ==> heap.tiles[t] == old(heap).tiles[t]
    {
      hide Image, Canonical, SplitLists, SplitHeap, Tiling;
      FirstLevelServes(Mem(), lists, heap, ord);
      FirstOfList(Mem(), lists, heap, {}, ord);
      if lists[ord] != [] {
        MoreLiveCanonical(heap, lists[ord][0]);
        SplitUnfold(heap, lists, lists[ord][0], ord);
      }
      b := PopFree(ord);
      if b == NIL {
        var l := ord + 1;
        while l <= maxLevel
          invariant ord < l <= maxLevel + 1 || l == ord + 1
          invariant forall j :: ord <= j < l && j < MAX_LEVELS ==> lists[j] == []
          modifies {}
        {
          FirstOfList(Mem(), lists, heap, {}, l);
          if heads[l] != NIL {
            break;
          }
          l := l + 1;
        }
        if l <= maxLevel {
          b := SplitDown(l, ord);
        }
      }
    }

    /** mm_alloc on an initialized heap. Address 0 is NULL; `ord` is the level the request asks for. */
    method AllocReady(size: nat) returns (p: nat, ghost ord: nat)
      requires Ready() && size < TWO64
      modifies this
      ensures Ready()
      ensures base == old(base) && usable == old(usable) && maxLevel == old(maxLevel) && frees == old(frees)
      ensures size > 0 ==> IsOrder(Request(size), ord) && (p == 0 <==> !CanServe(old(heap), ord))
      ensures size == 0 ==> p == 0
      ensures p == 0 ==> heap == old(heap) && lists == old(lists) && used == old(used)
      ensures failed == old(failed) + if size > 0 && p == 0 then 1 else 0
      ensures p != 0 ==>
                && var from := FirstLevel(old(lists), ord);
                && from < MAX_LEVELS && old(lists)[from] != [] && old(lists)[from][0] >= 0
                && var b: nat := old(lists)[from][0];
                && p == Ptr(base, b)
                && heap.live == old(heap).live + {b} && heap.tiles[b] == ord
                && lists == Removed(SplitLists(old(lists), b, from, ord), ord, b)
                && Allocates(old(Live()), Live(), Payload(ord), p)
      ensures p != 0 ==> (Allocates(old(Live()), Live(), size, p) <==> size <= MOST)
    {
      hide Image, Canonical, Sound, Allocates, UsedBelow, SplitLists, FirstLevel, CanServe, Pow2, Tiling, ArenaOf,
           IsOrder, AlignUp, Removed, Ptr, Payload;
      if size == 0 {
        return 0, 0;
      }
      var req := AlignUp(size);
      var order := OrderFor((req + HDR) % TWO64);
      ghost var h0 := heap;
      var b := Take(order);
      if b == NIL {
        failed := failed + 1;
        return 0, order;
      }
      p := Charge(b, order, h0);
      OrderCovers(size, order);
      AllocatesUpTo(ArenaOf(base, usable, h0), Live(), Payload(order), p, size);
      return p, order;
    }

    /** The end of mm_alloc: marks the block, counts its payload and gives its address. */
    method Charge(b: nat, order: nat, ghost h0: Heap) returns (p: nat)
      requires Consistent({}) && Canonical(heap) && initialized && HDR + 16 <= usable && capacity == usable - HDR
      requires h0.live <= h0.tiles.Keys && b !in h0.live && heap.live == h0.live + {b} && heap.tiles[b] == order
      requires forall t :: t in h0.live ==> heap.tiles[t] == h0.tiles[t]
      requires used == Used(ArenaOf(base, usable, h0))
      modifies this`isFree, this`used
      ensures Ready() && p == Ptr(base, b) && p != 0
      ensures Allocates(ArenaOf(base, usable, h0), Live(), Payload(order), p) && Live().live[p] == Payload(order)
    {
      hide Image, Canonical, Sound, Tiling, Pow2, ArenaOf, UsedBelow;
      HeaderOf(Mem(), lists, heap, {}, b);
      MarkImage(Mem(), lists, heap, {}, b);
      assert {} - {b} == {};
      isFree := isFree[b := false];
      ArenaAlloc(base, usable, h0, heap, b);
      p := base + b * BASE + HDR;
      UsedByAlloc(ArenaOf(base, usable, h0), Live(), Payload(order), p);
      ArenaSound(base, usable, heap);
      UsedFits(Live());
      var payload := Pow2(order) * BASE - HDR;
      used := CappedAt(used + payload, capacity);
    }

    /** mm_init on a region that ends within the address space. */
    method Init(start: nat, size: nat, garbage: Garbage)
      requires start + size <= TWO64
      modifies this
      ensures Valid()
      ensures initialized <==> UsableBytes(start, size) >= HDR + 16
      ensures initialized <==> !TooSmall(start, size, 48)
      ensures initialized ==> Fills(start, size, base, usable)
      ensures !initialized ==> failed == old(failed) && frees == old(frees) && capacity == 0
      ensures initialized ==>
                && base == AlignUp(start) && usable == UsableBytes(start, size)
                && IsOrder(usable, maxLevel)
                && heap == InitHeap(usable / BASE, maxLevel)
                && used == allocations == frees == failed == 0
                && Live() == Arena(base + HDR, base + usable, map[])
    {
      hide Image, Canonical, Tiling, Sound, Pow2, InitTiles, GreedyLevel, UsedBelow, ArenaOf, IsOrder, TooSmall, Fills;
      UsableFills(start, size);
      var minNeed := HDR + 16;
      if size < minNeed {
        initialized, capacity, usable := false, 0, 0;
        return;
      }
      var alignedStart := AlignUp(start);
      var loss := alignedStart - start;
      if loss >= size {
        initialized, capacity, usable := false, 0, 0;
        return;
      }
      var bytes := (size - loss) / 16 * 16;
      if bytes < minNeed {
        initialized, capacity, usable := false, 0, 0;
        return;
      }
      base, usable := alignedStart, bytes;
      maxLevel := OrderFor(bytes);
      Layout(garbage);
      StartCounting();
    }

    /** The end of mm_init. */
    method StartCounting()
      requires Consistent({}) && heap == InitHeap(usable / BASE, maxLevel) && HDR + 16 <= usable
      modifies this`capacity, this`used, this`allocations, this`frees, this`failed, this`initialized
      ensures Ready()
      ensures used == allocations == frees == failed == 0
      ensures Live() == Arena(base + HDR, base + usable, map[])
    {
      hide Image, Canonical, Tiling, Sound, Pow2, InitTiles, GreedyLevel, UsedBelow, IsOrder;
      capacity := usable - HDR;
      used, allocations, frees, failed := 0, 0, 0, 0;
      initialized := true;
      InitInv(usable / BASE, maxLevel);
      assert Live().live == map[];
      NothingUsed(base + usable);
    }

    /** The loop of mm_init that lays out the initial blocks. The memory it starts from holds
        arbitrary bytes. */
    method Layout(garbage: Garbage)
      requires maxLevel < MAX_LEVELS
      modifies this`level, this`isFree, this`next, this`prev, this`heads, this`lists, this`heap
      ensures Consistent({})
      ensures heap == InitHeap(usable / BASE, maxLevel)
    {
      hide Image, Tiling, Pow2, GreedyLevel, Aligned;
      var units := usable / BASE;
      FillMemory(units, garbage);
      heads := seq(MAX_LEVELS, _ => NIL);
      lists := seq(MAX_LEVELS, _ => []);
      heap := Heap(0, maxLevel, map[], {});
      EmptyImage(Mem(), lists, heap);
      if units > 0 { ZeroAligned(GreedyLevel(units, maxLevel)); }
      assert Extends(map[], 0, units, maxLevel) by {
        assert map[] + InitTiles(0, units, maxLevel) == InitTiles(0, units, maxLevel);
      }
      var remaining := usable;
      var cur: nat := 0;
      while remaining >= BASE
        invariant cur <= units && remaining == usable - BASE * cur
        invariant Mapped(Mem(), units) && Imaged({})
        invariant heap == Heap(cur, maxLevel, heap.tiles, {})
        invariant Extends(heap.tiles, cur, units, maxLevel)
        invariant cur < units ==> Aligned(cur, GreedyLevel(units - cur, maxLevel))
        decreases remaining
      {
        cur := LayBlock(cur, remaining, units);
        remaining := usable - BASE * cur;
      }
      assert heap == InitHeap(units, maxLevel) by {
        assert InitTiles(units, units, maxLevel) == map[];
        assert heap.tiles + map[] == heap.tiles;
      }
    }

    /** Memory before mm_init: every offset can be read, nothing is known of what it holds. */
    method FillMemory(units: nat, garbage: Garbage)
      modifies this`level, this`isFree, this`next, this`prev
      ensures Mapped(Mem(), units)
    {
      level := map u: int | 0 <= u < units :: garbage(u).0;
      isFree := map u: int | 0 <= u < units :: garbage(u).1;
      next := map u: int | 0 <= u < units :: garbage(u).2;
      prev := map u: int | 0 <= u < units :: garbage(u).3;
    }

    /** One round of the layout loop: the largest level that fits, at `cur`. */
    method LayBlock(cur: nat, remaining: nat, ghost units: nat) returns (end: nat)
      requires units == usable / BASE && cur < units && remaining == usable - BASE * cur && maxLevel < MAX_LEVELS
      requires Mapped(Mem(), units) && Imaged({})
      requires heap == Heap(cur, maxLevel, heap.tiles, {}) && Extends(heap.tiles, cur, units, maxLevel)
      requires Aligned(cur, GreedyLevel(units - cur, maxLevel))
      modifies this`level, this`isFree, this`next, this`prev, this`heads, this`lists, this`heap
      ensures cur < end <= units
      ensures Mapped(Mem(), units) && Imaged({})
      ensures heap == Heap(end, maxLevel, heap.tiles, {}) && Extends(heap.tiles, end, units, maxLevel)
      ensures end < units ==> Aligned(end, GreedyLevel(units - end, maxLevel))
    {
      hide Image, Aligned, InitTiles, Extends;
      var l: nat := maxLevel;
      while l > 0 && Pow2(l) * BASE > remaining
        invariant 0 <= l <= maxLevel
        invariant GreedyLevel(units - cur, maxLevel) == GreedyLevel(units - cur, l)
        modifies {}
      {
        l := l - 1;
      }
      ExtendImage(Mem(), lists, heap, l, units);
      ExtendTiles(heap.tiles, cur, units, maxLevel);
      end := cur + Pow2(l);
      heap := Heap(end, maxLevel, heap.tiles[cur := l], {cur});
      Enter(cur, l, {cur});
      assert {cur} - {cur} == {};
    }

    /** Once every pointer was freed, in whatever order, the blocks are those that mm_init laid. */
    lemma EmptyIsInitial()
      requires Ready() && Live().live == map[]
      ensures heap == InitHeap(usable / BASE, maxLevel)
    {
      hide Canonical, Tiling, Pow2, ArenaOf, UsedBelow, InitTiles;
      assert forall s :: s in heap.live ==> Ptr(base, s) in Live().live;
      assert heap.live == {};
      AllFreeIsInitial(heap);
    }

    /** mm_init_default */
    method InitDefault(garbage: Garbage)
      requires Valid() && !initialized && defaultStart + defaultSize <= TWO64
      modifies this
      ensures Valid()
      ensures initialized <==> defaultStart != 0 && UsableBytes(defaultStart, defaultSize) >= HDR + 16
      ensures !initialized ==> failed == old(failed) && frees == old(frees)
      ensures initialized <==> defaultStart != 0 && !TooSmall(defaultStart, defaultSize, 48)
      ensures initialized ==> Fills(defaultStart, defaultSize, base, usable)
      ensures initialized ==> Live() == Arena(base + HDR, base + usable, map[])
    {
      UsableFills(defaultStart, defaultSize);
      if defaultStart != 0 && defaultSize != 0 {
        Init(defaultStart, defaultSize, garbage);
      }
    }

    /** mm_alloc, with the lazy initialization. `before` is the arena the request meets. */
    method Alloc(size: nat, garbage: Garbage) returns (p: nat, ghost ord: nat, ghost before: Arena)
      requires Valid() && size < TWO64 && defaultStart + defaultSize <= TWO64
      modifies this
      ensures Valid()
      ensures old(initialized) ==> initialized && old(Consistent({})) && before == old(Live())
      ensures !old(initialized) && initialized ==> before == Arena(base + HDR, base + usable, map[])
      ensures !old(initialized) && initialized ==> Fills(defaultStart, defaultSize, base, usable)
      ensures !old(initialized) ==>
                (initialized <==> defaultStart != 0 && UsableBytes(defaultStart, defaultSize) >= HDR + 16)
      ensures p != 0 ==> initialized && IsOrder(Request(size), ord) && Allocates(before, Live(), Payload(ord), p)
      ensures p != 0 ==> (Allocates(before, Live(), size, p) <==> size <= MOST)
      ensures !initialized ==> p == 0 && failed == old(failed) + 1 && frees == old(frees)
      ensures old(initialized) ==> failed == old(failed) + (if size > 0 && p == 0 then 1 else 0) && frees == old(frees)
      ensures p == 0 && initialized ==> Live() == before
    {
      hide Image, Canonical, Sound, Allocates, UsedBelow, ArenaOf, Pow2, IsOrder, Tiling, SplitLists, FirstLevel;
      if !initialized {
        InitDefault(garbage);
        if !initialized {
          failed := failed + 1;
          return 0, 0, Arena(0, 0, map[]);
        }
      }
      before := Live();
      p, ord := AllocReady(size);
    }

    /** mm_free. The pointer is NULL or the address of a current block; a block that is already free
        is left alone. */
    method Free(p: nat)
      requires Valid()
      requires initialized && p != 0 ==>
                 p >= base + HDR && Offset(base, p) in heap.tiles && p == Ptr(base, Offset(base, p))
      modifies this
      ensures Valid() && initialized == old(initialized)
      ensures base == old(base) && usable == old(usable) && maxLevel == old(maxLevel) && failed == old(failed)
      ensures old(initialized) && p != 0 && Offset(base, p) in old(heap).live ==>
                && var b: nat := Offset(base, p);
                && Releases(old(Live()), Live(), p)
                && heap.live == old(heap).live - {b}
                && old(heap).tiles[b] <= old(heap).top < |old(lists)|
                && (heap, lists) == Coalesced(old(heap).(live := old(heap).live - {b}), b, old(lists))
                && frees == old(frees) + 1
      ensures !(old(initialized) && p != 0 && Offset(base, p) in old(heap).live) ==>
                heap == old(heap) && lists == old(lists) && used == old(used) && frees == old(frees)
    {
      hide Image, Canonical, Tiling, Sound, Coalesced, Pow2, CanonicalBut, UsedBelow, ArenaOf;
      if p == 0 || !initialized {
        return;
      }
      var blk: nat := (p - HDR - base) / BASE;
      HeaderOf(Mem(), lists, heap, {}, blk);
      if isFree[blk] {
        return;
      }
      ghost var h1 := Without(blk);
      LessLiveCanonical(heap, blk);
      HeaderFreed(Mem(), lists, heap, blk);
      isFree := isFree[blk := true];
      Discharge(blk, p);
      Coalesce(blk);
      SameArena(base, usable, h1, heap);
    }

    /** The counters in mm_free. */
    method Discharge(blk: nat, ghost p: nat)
      requires heap.live <= heap.tiles.Keys && Tiling(heap) && blk in heap.live
      requires blk in level && level[blk] == heap.tiles[blk]
      requires BASE * heap.units <= usable && HDR <= usable && p == Ptr(base, blk) && used == Used(Live())
      modifies this`frees, this`used
      ensures frees == old(frees) + 1
      ensures Releases(Live(), ArenaOf(base, usable, Without(blk)), p)
      ensures used == Used(ArenaOf(base, usable, Without(blk)))
      ensures old(used) == used + Payload(old(heap.tiles[blk]))
    {
      hide Tiling, Sound, Pow2, UsedBelow, ArenaOf;
      frees := frees + 1;
      ghost var h1 := Without(blk);
      ArenaSound(base, usable, heap);
      ArenaFree(base, usable, heap, h1, blk);
      UsedByFree(Live(), ArenaOf(base, usable, h1), p);
      var payload := Pow2(level[blk]) * BASE - HDR;
      used := Drop(used, payload);
    }

    /** mm_get_stats, the part that inspects the heap. */
    method LargestFreeBlock() returns (largest: nat)
      requires Ready()
      ensures IsLargest(heap, largest)
    {
      hide Image, Canonical, Tiling, Sound, Pow2, UsedBelow, ArenaOf;
      largest := 0;
      for l := 0 to maxLevel + 1
        invariant forall s: nat :: heap.Free(s) && heap.tiles[s] < l ==> Payload(heap.tiles[s]) <= largest
        invariant largest == 0 || exists s: nat :: heap.Free(s) && Payload(heap.tiles[s]) == largest
      {
        FirstOfList(Mem(), lists, heap, {}, l);
        var cur := heads[l];
        ghost var i: nat := 0;
        while cur != NIL
          invariant i <= |lists[l]| && cur == At(lists[l], i, NIL)
          invariant forall s: nat :: heap.Free(s) && heap.tiles[s] < l ==> Payload(heap.tiles[s]) <= largest
          invariant i > 0 ==> Payload(l) <= largest
          invariant largest == 0 || exists s: nat :: heap.Free(s) && Payload(heap.tiles[s]) == largest
          decreases |lists[l]| - i
        {
          ListStep(Mem(), lists, heap, {}, l, i);
          HeaderOf(Mem(), lists, heap, {}, cur);
          var payload := Pow2(level[cur]) * BASE - HDR;
          if payload > largest {
            largest := payload;
          }
          cur := next[cur];
          i := i + 1;
        }
        forall s: nat | heap.Free(s) && heap.tiles[s] == l ensures Payload(l) <= largest {
          var j := OnItsList(Mem(), lists, heap, {}, s);
        }
      }
      forall s: nat | heap.Free(s) ensures heap.tiles[s] <= maxLevel {
        HeaderOf(Mem(), lists, heap, {}, s);
      }
    }

    /** mm_get_stats on an initialized heap. Used and free bytes add up to the capacity. */
    method GetStats() returns (st: Stats)
      requires Ready()
      ensures st.total == capacity && st.used == Used(Live()) && st.used + st.free == st.total
      ensures IsLargest(heap, st.largest)
      ensures st.allocations == allocations && st.frees == frees && st.failed == failed
    {
      hide Canonical, Tiling, Sound, Pow2, UsedBelow, ArenaOf;
      ArenaSound(base, usable, heap);
      UsedFits(Live());
      var largest := LargestFreeBlock();
      st := Stats(capacity, used, if capacity > used then capacity - used else 0, largest, allocations, frees, failed);
    }

    /** Whatever the owners of live blocks, or anybody through free memory, write over stale headers,
        the allocator is not affected: its decisions read block starts only. */
    method Scribble(u: nat, l: nat, f: bool, n: int, q: int)
      requires Ready() && u < heap.units && u !in heap.tiles
      modifies this`level, this`isFree, this`next, this`prev
      ensures Ready()
    {
      hide Image, Canonical, Sound, Pow2, UsedBelow, ArenaOf, Tiling;
      ghost var m := Mem();
      level, isFree := level[u := l], isFree[u := f];
      next, prev := next[u := n], prev[u := q];
      ScribbleImage(m, Mem(), lists, heap, {}, u);
    }
  }

  /** Coalescing does not move live payloads. */
  lemma SameArena(base: nat, usable: nat, h: Heap, h': Heap)
    requires h.live <= h.tiles.Keys && h'.live == h.live && h'.live <= h'.tiles.Keys
    requires forall s :: s in h.live ==> h'.tiles[s] == h.tiles[s]
    ensures ArenaOf(base, usable, h) == ArenaOf(base, usable, h')
  {
    assert ArenaOf(base, usable, h).live == ArenaOf(base, usable, h').live;
  }

  lemma TakenBack(live: set<nat>, s: nat, b: nat)
    requires s !in live && b !in live && s != b
    ensures live + {s} + {b} - {b} - {s} == live
  {
  }

  lemma PushedFirst(lists: Lists, l: nat, b: int, s: int)
    requires l < |lists|
    ensures Pushed(Pushed(lists, l, b), l, s)[l] == [s, b] + lists[l]
  {
  }
}
