/** Kernel/mm/mm_simple.c. The header fields of all blocks, and of the free list sentinel, are maps
    from address to value. */
module FirstFitAllocator {
  import opened Sequences
  import opened Links
  import opened Allocator
  import opened FirstFitHeap

  /** The first block of the free list that is large enough, SENTINEL if there is none. */
  function FirstFit(free: seq<int>, words: Words, need: nat): int {
    if free == [] then SENTINEL
    else if free[0] in words && Size(words[free[0]]) >= need then free[0]
    else FirstFit(free[1..], words, need)
  }

  lemma {:induction false} FirstFitFinds(free: seq<int>, words: Words, need: nat)
    requires SENTINEL !in free
    ensures var a := FirstFit(free, words, need);
            if a == SENTINEL then forall b :: b in free && b in words ==> Size(words[b]) < need
            else a in free && a in words && Size(words[a]) >= need
  {
    if free != [] && !(free[0] in words && Size(words[free[0]]) >= need) {
      FirstFitFinds(free[1..], words, need);
    }
  }

  predicate Fits(words: Words, a: int, need: nat) {
    a in words && Size(words[a]) >= need
  }

  predicate FirstAt(free: seq<int>, words: Words, need: nat, b: int, k: int) {
    && 0 <= k < |free| && free[k] == b && Fits(words, b, need)
    && forall j :: 0 <= j < k ==> !Fits(words, free[j], need)
  }

  /** `b` is on the list, holds `need` bytes, and no block before it does. */
  ghost predicate IsFirstFit(free: seq<int>, words: Words, need: nat, b: int) {
    exists k :: FirstAt(free, words, need, b, k)
  }

  /** The walk finds the first block that is large enough, and nothing only if there is none. */
  lemma {:induction false} FirstFitIsFirst(free: seq<int>, words: Words, need: nat)
    requires SENTINEL !in free
    ensures var b := FirstFit(free, words, need);
            if b == SENTINEL then forall j :: 0 <= j < |free| ==> !Fits(words, free[j], need)
            else IsFirstFit(free, words, need, b)
  {
    if free != [] {
      assert free[0] in free;
      if Fits(words, free[0], need) {
        assert FirstAt(free, words, need, free[0], 0);
      } else {
        var rest, b := free[1..], FirstFit(free, words, need);
        FirstFitIsFirst(rest, words, need);
        if b == SENTINEL {
          forall j | 0 <= j < |free| ensures !Fits(words, free[j], need) {
            if j > 0 { assert free[j] == rest[j - 1]; }
          }
        } else {
          var k :| FirstAt(rest, words, need, b, k);
          forall j | 0 <= j < k + 1 ensures !Fits(words, free[j], need) {
            if j > 0 { assert free[j] == rest[j - 1]; }
          }
          assert FirstAt(free, words, need, b, k + 1);
        }
      }
    }
  }

  lemma FirstFitServes(free: seq<int>, words: Words, need: nat, i: nat)
    requires SENTINEL !in free && i < |free| && free[i] in words && Size(words[free[i]]) >= need
    ensures FirstFit(free, words, need) != SENTINEL
  {
    hide FirstFit;
    FirstFitFinds(free, words, need);
    var a := free[i];
    assert a in free && a in words;
  }

  /** `n` is the largest payload a block of the free list offers, 0 if it is empty. */
  ghost predicate IsLargest(free: seq<int>, words: Words, n: nat) {
    && (forall a :: a in free && a in words ==> Size(words[a]) <= n + HEADER)
    && (n == 0 || exists a :: a in free && a in words && Size(words[a]) == n + HEADER)
  }

  /** The reported largest free block predicts the outcome of a request. */
  lemma StatsPredict(free: seq<int>, words: Words, size: nat, n: nat)
    requires SENTINEL !in free && 0 < size <= TWO64 - 48 && IsLargest(free, words, n)
    ensures FirstFit(free, words, Required(size)) != SENTINEL <==> AlignUp(size) <= n
  {
    hide FirstFit;
    FirstFitFinds(free, words, Required(size));
    RequiredCovers(size);
  }

  /** The prediction for every request: above 2^64 - 48 bytes the sum wraps and any block will do, so that
      it holds exactly if the list is empty, or not empty once the aligned size has wrapped to 0. */
  lemma StatsExact(free: seq<int>, words: Words, size: nat, n: nat)
    requires SENTINEL !in free && 0 < size < TWO64 && IsLargest(free, words, n) && n <= TWO64 - HEADER
    requires forall i :: 0 <= i < |free| ==> free[i] in words && Size(words[free[i]]) >= MIN_BLOCK
    ensures (FirstFit(free, words, Required(size)) != SENTINEL <==> AlignUp(size) <= n)
            <==> size <= TWO64 - 48 || (free != [] <==> size > TWO64 - 16)
  {
    hide FirstFit, Required, AlignUp;
    if size <= TWO64 - 48 {
      StatsPredict(free, words, size, n);
    } else {
      FirstFitFinds(free, words, Required(size));
      WrappedRequest(size);
      if free != [] { FirstFitServes(free, words, Required(size), 0); }
    }
  }

  /** What becomes of a request whose sum wraps. */
  lemma WrappedRequest(size: nat)
    requires TWO64 - 48 < size < TWO64
    ensures Required(size) == MIN_BLOCK
    ensures size <= TWO64 - 16 ==> AlignUp(size) >= TWO64 - 32
    ensures size > TWO64 - 16 ==> AlignUp(size) == 0
  {
  }

  /** Splitting the block at place `i` after `need` bytes, if the rest can be a block of its own. */
  ghost predicate Splits(phys: seq<int>, words: Words, free: seq<int>, phys': seq<int>, words': Words,
                         free': seq<int>, i: nat, need: nat)
    requires i < |phys|
  {
    var b, n := phys[i], phys[i] + need;
    && b in words
    && if Size(words[b]) < need + MIN_BLOCK then phys' == phys && words' == words && free' == free
       else && phys' == Inserted(phys, i, n) && n !in phys
            && words' == words[n := Size(words[b]) - need][b := need]
            && free' == [n] + free
  }

  lemma SplitThenMark(phys: seq<int>, words: Words, free: seq<int>, phys': seq<int>, words': Words,
                      free': seq<int>, b: int, need: nat)
    requires b in phys && Splits(phys, words, Links.Without(free, b), phys', words', free', Index(phys, b), need)
    requires b in words' && need % 2 == 0
    ensures SplitOutcome(phys, words, phys', words', Index(phys, b), need)
    ensures Takes(phys, words, free, phys', words'[b := Size(words'[b]) + 1], free', b, need)
  {
    if Size(words[b]) >= need + MIN_BLOCK {
      var split: Words := words[b + need := Size(words[b]) - need];
      assert words'[b := need + 1] == split[b := need + 1];
    }
  }

  /** The block at `b` is taken off the free list and allocated with `need` bytes; what exceeds them
      becomes a block of its own, at the front of the free list, if it is large enough. */
  ghost predicate Takes(phys: seq<int>, words: Words, free: seq<int>, phys': seq<int>, words': Words,
                        free': seq<int>, b: int, need: nat) {
    && b in phys && b in words
    && var total, rest := Size(words[b]), Links.Without(free, b);
    if total < need + MIN_BLOCK then
      phys' == phys && words' == words[b := total + 1] && free' == rest
    else
      && phys' == Inserted(phys, Index(phys, b), b + need)
      && words' == words[b + need := total - need][b := need + 1]
      && free' == [b + need] + rest
  }

  /** The block taken exceeds the need by less than another block. */
  lemma TakenSize(phys: seq<int>, words: Words, free: seq<int>, phys': seq<int>, words': Words, free': seq<int>,
                  b: int, need: nat)
    requires Takes(phys, words, free, phys', words', free', b, need) && need >= MIN_BLOCK && need % 2 == 0
    ensures b in words' && Payload(words'[b]) < need + 16
  {
  }

  /** The free list after the block at place `i` was freed: its free neighbours have left it and the
      block they make together is at the front. */
  ghost predicate Returns(phys: seq<int>, free: seq<int>, free': seq<int>, i: nat)
    requires i < |phys|
  {
    var left, right := At(phys, i - 1, NIL), At(phys, i + 1, NIL);
    free' == [if left in free then left else phys[i]] + Links.Without(Links.Without(free, left), right)
  }

  /** The saturating updates of heap_used_bytes. */
  function CappedAt(n: nat, cap: nat): nat {
    if n > cap then cap else n
  }

  function Drop(n: nat, d: nat): nat {
    if n >= d then n - d else 0
  }

  function RoundDown(n: nat): nat {
    n / 16 * 16
  }

  lemma Rounding(start: nat, n: nat)
    requires start + 16 <= TWO64
    ensures start <= AlignUp(start) < start + 16 && Granule(AlignUp(start))
    ensures RoundDown(n) <= n && RoundDown(n) % 2 == 0
  {
    RoundedDown(n);
    RoundedDown(start + 15);
    assert (start + 15) % TWO64 == start + 15;
  }

  lemma RoundedDown(n: nat)
    ensures n - 16 < RoundDown(n) <= n && RoundDown(n) % 2 == 0 && Granule(RoundDown(n))
  {
    var q, r := n / 16, n % 16;
    assert n == 16 * q + r && RoundDown(n) == 16 * q;
    Sixteenfold(q);
  }

  lemma {:induction false} Sixteenfold(q: nat)
    ensures (16 * q) % 2 == 0 && Granule(16 * q)
  {
    if q > 0 {
      Sixteenfold(q - 1);
      var x := 16 * (q - 1);
      assert (x + 16) % 16 == x % 16 && (x + 16) % 2 == x % 2;
    }
  }

  function UsableBytes(start: nat, size: nat): nat {
    var loss := AlignUp(start) - start;
    if size < MIN_BLOCK || loss < 0 || loss >= size then 0
    else
      var n := RoundDown(size - loss);
      if n < MIN_BLOCK then 0 else n
  }

  /** The block asked for is the smallest that holds the request and is a multiple of 16 behind its header. */
  lemma RequiredLeast(size: nat)
    requires 0 < size <= TWO64 - 48
    ensures size + HEADER <= Required(size) < size + HEADER + 16 && Granule(Required(size) - HEADER)
  {
    hide AlignUp, Required;
    RequiredCovers(size);
    Rounding(size, size);
  }

  /** What that means for the region: its granules, or too few of them. */
  lemma UsableFills(start: nat, size: nat)
    requires start + size <= TWO64
    ensures UsableBytes(start, size) >= MIN_BLOCK <==> !TooSmall(start, size, 64)
    ensures UsableBytes(start, size) >= MIN_BLOCK ==> Fills(start, size, AlignUp(start), UsableBytes(start, size))
  {
    hide AlignUp, RoundDown;
    if size < MIN_BLOCK {
      assert TooSmall(start, size, 64);
    } else {
      Rounding(start, size);
      var base := AlignUp(start);
      var rest := start + size - base;
      RoundedDown(rest);
      assert Fills(start, size, base, RoundDown(rest));
      FilledDecides(start, size, base, RoundDown(rest), 64);
      MultipleAbove(RoundDown(rest));
    }
  }

  lemma MultipleAbove(n: nat)
    requires Granule(n)
    ensures n < MIN_BLOCK <==> n < 64
  {
  }

  class Manager {
    // the region mm_default_region computes from the kernel image
    const defaultStart: nat
    const defaultSize: nat

    var initialized: bool
    var capacity: nat
    var used: nat
    var allocations: nat
    var frees: nat
    var failed: nat

    var words: Words
    var nextPhys: Pointers
    var prevPhys: Pointers
    var nextFree: Pointers
    var prevFree: Pointers

    ghost var base: nat
    ghost var end: nat
    ghost var phys: seq<int>
    ghost var free: seq<int>

    /** The physical list tiles the heap and the free list holds the blocks that are neither allocated
        nor in `hand`. */
    ghost predicate Shaped(hand: set<int>)
      reads this
    {
      && Linked(nextPhys, prevPhys, NIL, phys)
      && Tiles(phys, words, base, end)
      && Ring(nextFree, prevFree, SENTINEL, free)
      && FreeIs(phys, words, free, hand)
      && (forall a :: a in phys ==> a >= 0)
    }

    ghost function Live(): Arena
      reads this
    {
      ArenaOf(phys, words, base, end)
    }

    ghost predicate Ready()
      reads this
    {
      && initialized
      && Shaped({})
      && Apart(phys, words)
      && base + HEADER <= end <= TWO64 && capacity == end - base - HEADER
      && used == Used(Live())
    }

    ghost predicate Valid()
      reads this
    {
      initialized ==> Ready()
    }

    constructor (defaultStart: nat, defaultSize: nat)
      ensures Valid() && !initialized
      ensures this.defaultStart == defaultStart && this.defaultSize == defaultSize
    {
      this.defaultStart, this.defaultSize := defaultStart, defaultSize;
      initialized := false;
      capacity, used, allocations, frees, failed := 0, 0, 0, 0, 0;
      words, nextPhys, prevPhys, nextFree, prevFree := map[], map[], map[], map[], map[];
      base, end, phys, free := 0, 0, [], [];
    }

    /** free_list_insert */
    method FreeListInsert(b: int, ghost hand: set<int>)
      requires Shaped(hand) && b in hand && b in phys && b in words && !Allocated(words[b])
      modifies this`nextFree, this`prevFree, this`free
      ensures Shaped(hand - {b}) && free == [b] + old(free)
    {
      hide Tiles, Linked;
      RingFront(nextFree, prevFree, SENTINEL, free, b);
      prevFree := prevFree[b := SENTINEL];
      nextFree := nextFree[b := nextFree[SENTINEL]];
      prevFree := prevFree[nextFree[SENTINEL] := b];
      nextFree := nextFree[SENTINEL := b];
      free := [b] + free;
    }

    /** free_list_remove */
    method FreeListRemove(b: int, ghost hand: set<int>)
      requires Shaped(hand) && b in free
      modifies this`nextFree, this`prevFree, this`free
      ensures Shaped(hand + {b}) && free == Links.Without(old(free), b)
    {
      hide Tiles, Linked, Ring;
      ghost var i := Index(free, b);
      FreeNode(nextFree, prevFree, free, i);
      RingDetach(nextFree, prevFree, SENTINEL, free, i);
      nextFree := nextFree[prevFree[b] := nextFree[b]];
      prevFree := prevFree[nextFree[b] := prevFree[b]];
      prevFree := prevFree[b := NIL];
      nextFree := nextFree[b := NIL];
      free := Links.Without(free, b);
    }

    /** find_first_fit: SENTINEL stands for NULL. */
    method FindFirstFit(need: nat) returns (b: int)
      requires Shaped({})
      ensures b == FirstFit(free, words, need)
      ensures b == SENTINEL ==> forall j :: 0 <= j < |free| ==> !Fits(words, free[j], need)
      ensures b != SENTINEL ==> IsFirstFit(free, words, need, b)
    {
      hide Tiles, Fits;
      FreeOutsideSentinel();
      FirstFitIsFirst(free, words, need);
      b := nextFree[SENTINEL];
      ghost var i: nat := 0;
      assert free[0..] == free;
      while b != SENTINEL
        invariant i <= |free| && b == At(free, i, SENTINEL)
        invariant FirstFit(free, words, need) == FirstFit(free[i..], words, need)
        decreases |free| - i
      {
        assert LinkOk(nextFree, prevFree, SENTINEL, free, i);
        assert b in free;
        assert free[i..][1..] == free[i + 1..];
        if Size(words[b]) >= need {
          return;
        }
        b := nextFree[b];
        i := i + 1;
      }
      AtMember(free, i, SENTINEL);
    }

    /** split_block_if_possible: `i` is the place of the block in the physical list. */
    method SplitBlock(b: int, need: nat, ghost i: nat)
      requires Shaped({b}) && i < |phys| && phys[i] == b && b in words && !Allocated(words[b])
      requires need >= MIN_BLOCK && need % 2 == 0
      modifies this`words, this`nextPhys, this`prevPhys, this`nextFree, this`prevFree, this`phys, this`free
      ensures Shaped({b}) && b in words && !Allocated(words[b])
      ensures Splits(old(phys), old(words), old(free), phys, words, free, i, need)
    {
      var total := Size(words[b]);
      if total < need + MIN_BLOCK {
        return;
      }
      Cut(b, need, i);
      FreeListInsert(b + need, {b, b + need});
      assert {b, b + need} - {b + need} == {b};
    }

    /** The header writes of split_block_if_possible. */
    method Cut(b: int, need: nat, ghost i: nat)
      requires Shaped({b}) && i < |phys| && phys[i] == b && b in words && !Allocated(words[b])
      requires need >= MIN_BLOCK && need % 2 == 0 && Size(words[b]) >= need + MIN_BLOCK
      modifies this`words, this`nextPhys, this`prevPhys, this`nextFree, this`prevFree, this`phys
      ensures Shaped({b, b + need})
      ensures phys == Inserted(old(phys), i, b + need)
      ensures words == old(words)[b + need := Size(old(words)[b]) - need][b := need]
      ensures b + need !in old(phys)
    {
      hide Tiles, Linked, Ring, FreeIs, BlockOk, Inserted;
      var n := b + need;
      ghost var words0 := words;
      CutFacts(words, phys, base, end, i, need, nextPhys, prevPhys, nextFree, prevFree, free);
      words := words[n := Size(words[b]) - need];
      prevPhys := prevPhys[n := b];
      nextPhys := nextPhys[n := nextPhys[b]];
      if nextPhys[n] != NIL {
        prevPhys := prevPhys[nextPhys[n] := n];
      }
      nextPhys := nextPhys[b := n];
      words := words[b := need + words[b] % 2];
      words := words[n := Size(words[n])];
      prevFree, nextFree := prevFree[n := NIL], nextFree[n := NIL];
      phys := Inserted(phys, i, n);
      assert words == words0[n := Size(words0[b]) - need][b := need];
    }

    /** mm_alloc on an initialized heap. Address 0 is NULL. */
    method AllocReady(size: nat) returns (p: nat)
      requires Ready() && size < TWO64
      modifies this
      ensures Ready() && base == old(base) && end == old(end) && frees == old(frees)
      ensures size == 0 ==> p == 0
      ensures size > 0 ==> (p == 0 <==> FirstFit(old(free), old(words), Required(size)) == SENTINEL)
      ensures size > 0 && p == 0 ==>
                forall j :: 0 <= j < |old(free)| ==> !Fits(old(words), old(free)[j], Required(size))
      ensures p != 0 ==> IsFirstFit(old(free), old(words), Required(size), HeaderOf(p))
      ensures p == 0 ==> phys == old(phys) && words == old(words) && free == old(free) && used == old(used)
      ensures failed == old(failed) + if size > 0 && p == 0 then 1 else 0
      ensures allocations == old(allocations) + if p != 0 then 1 else 0
      ensures p != 0 ==>
                && HeaderOf(p) == FirstFit(old(free), old(words), Required(size)) && HeaderOf(p) in words
                && Allocates(old(Live()), Live(), Payload(words[HeaderOf(p)]), p)
                && Required(size) - HEADER <= Payload(words[HeaderOf(p)]) < Required(size) + 16
                && Takes(old(phys), old(words), old(free), phys, words, free, HeaderOf(p), Required(size))
      ensures p != 0 ==> (Allocates(old(Live()), Live(), size, p) <==> size <= TWO64 - 48)
    {
      hide Tiles, Linked, Ring, Apart, Sound, Allocates, UsedBelow, ArenaOf, FirstFit, Takes, IsFirstFit, Fits;
      if size == 0 {
        return 0;
      }
      RequiredCovers(size);
      var aligned := AlignUp(size);
      var need := (aligned + HEADER) % TWO64;
      if need < MIN_BLOCK {
        need := MIN_BLOCK;
      }
      FreeOutsideSentinel();
      FirstFitFinds(free, words, need);
      var b := FindFirstFit(need);
      if b == SENTINEL {
        failed := failed + 1;
        return 0;
      }
      ghost var before, phys0, words0, free0 := Live(), phys, words, free;
      p := Hand(b, need);
      allocations := allocations + 1;
      TakenSize(phys0, words0, free0, phys, words, free, b, need);
      AllocatesUpTo(before, Live(), Payload(words[b]), p, size);
    }

    lemma FreeOutsideSentinel()
      requires Shaped({})
      ensures SENTINEL !in free
    {
    }

    /** The end of mm_alloc: takes the block off the list, splits it, marks and counts it. */
    method Hand(b: int, need: nat) returns (p: nat)
      requires Ready() && b in free && b in words && Size(words[b]) >= need >= MIN_BLOCK && need % 2 == 0
      modifies this`words, this`nextPhys, this`prevPhys, this`nextFree, this`prevFree, this`phys, this`free, this`used
      ensures Ready() && p != 0 && HeaderOf(p) == b && b in words
      ensures Allocates(old(Live()), Live(), Payload(words[b]), p) && Live().live[p] == Payload(words[b])
      ensures need - HEADER <= Payload(words[b])
      ensures Takes(old(phys), old(words), old(free), phys, words, free, b, need)
    {
      hide Tiles, Linked, Ring, Apart, Allocates, ArenaOf, Used, Payload, Splits, SplitOutcome, Takes;
      ghost var phys0, words0 := phys, words;
      ghost var i := Index(phys, b);
      PhysNode(nextPhys, prevPhys, phys, i);
      FreeListRemove(b, {});
      assert {} + {b} == {b};
      SplitBlock(b, need, i);
      SplitThenMark(phys0, words0, old(free), phys, words, free, b, need);
      Mark(b, phys0, words0, i, need);
      p := b + HEADER;
    }

    /** Marks the block split off `phys0` and counts its payload. */
    method Mark(b: int, ghost phys0: seq<int>, ghost words0: Words, ghost i: nat, ghost need: nat)
      requires initialized && Shaped({b}) && base + HEADER <= end <= TWO64 && capacity == end - base - HEADER
      requires i < |phys0| && phys0[i] == b && b >= 0 && Distinct(phys0) && Apart(phys0, words0)
      requires SplitOutcome(phys0, words0, phys, words, i, need) && b in words && !Allocated(words[b])
      requires b in words0 && !Allocated(words0[b]) && Size(words0[b]) >= need >= MIN_BLOCK && need % 2 == 0
      requires used == Used(ArenaOf(phys0, words0, base, end))
      modifies this`words, this`used
      ensures Ready() && b in words && need - HEADER <= Payload(words[b])
      ensures words == old(words)[b := Size(old(words)[b]) + 1]
      ensures Allocates(ArenaOf(phys0, words0, base, end), Live(), Payload(words[b]), PtrOf(b))
      ensures Live().live[PtrOf(b)] == Payload(words[b])
    {
      hide Tiles, Linked, Ring, Apart, Allocates, UsedBelow, ArenaOf, SplitOutcome;
      HandFacts(phys0, words0, phys, words, base, end, i, need);
      words := words[b := Size(words[b]) + 1];
      UsedByAlloc(ArenaOf(phys0, words0, base, end), Live(), Payload(words[b]), PtrOf(b));
      ArenaSound(phys, words, base, end);
      UsedFits(Live());
      var payload := Size(words[b]) - HEADER;
      used := CappedAt(used + payload, capacity);
    }

    /** Joins the block at `a`, place `i`, with the next one: both are free and in hand. */
    method Join(a: int, n: int, ghost i: nat, ghost c: int)
      requires Shaped({a, n}) && i + 1 < |phys| && phys[i] == a && phys[i + 1] == n
      requires a in words && n in words && !Allocated(words[a]) && !Allocated(words[n]) && n in nextPhys
      requires c in {a, n} && ApartBut(phys, words, c)
      modifies this`words, this`nextPhys, this`prevPhys, this`phys
      ensures Shaped({a}) && i < |phys| && phys[i] == a && a in words && !Allocated(words[a])
      ensures phys == Links.Without(old(phys), n)
      ensures words == old(words)[a := Size(old(words)[a]) + Size(old(words)[n])]
      ensures SameLive(old(phys), old(words), phys, words)
      ensures ApartBut(phys, words, a)
      ensures c == n ==> LeftUsed(phys, words, i)
      ensures c == a && LeftUsed(old(phys), old(words), i) ==> LeftUsed(phys, words, i)
      ensures c == a ==> RightUsed(phys, words, i)
    {
      hide Tiles, Linked, Ring, ApartBut, FreeIs, LeftUsed, RightUsed, SameLive;
      JoinFacts(words, phys, base, end, i, nextPhys, prevPhys, free, c);
      words := words[a := Size(words[a]) + Size(words[n])];
      nextPhys := nextPhys[a := nextPhys[n]];
      if nextPhys[n] != NIL {
        prevPhys := prevPhys[nextPhys[n] := a];
      }
      phys := Links.Without(phys, n);
    }

    /** coalesce_with_neighbors, for the block at place `i`. */
    method Coalesce(b: int, ghost i: nat) returns (c: int, ghost k: nat)
      requires Shaped({b}) && i < |phys| && phys[i] == b && b in words && !Allocated(words[b])
               && ApartBut(phys, words, b)
      modifies this`words, this`nextPhys, this`prevPhys, this`nextFree, this`prevFree, this`phys, this`free
      ensures Shaped({c}) && k < |phys| && phys[k] == c && c in words && !Allocated(words[c])
      ensures Apart(phys, words) && SameLive(old(phys), old(words), phys, words)
      ensures c == if At(old(phys), i - 1, NIL) in old(free) then At(old(phys), i - 1, NIL) else b
      ensures free == Links.Without(Links.Without(old(free), At(old(phys), i - 1, NIL)), At(old(phys), i + 1, NIL))
    {
      hide Tiles, Linked, Ring, Apart, ApartBut, SameLive;
      PhysNode(nextPhys, prevPhys, phys, i);
      Headers(phys, words, base, end);
      var prev, next := prevPhys[b], nextPhys[b];
      c, k := b, i;
      SameLiveSelf(phys, words);
      if prev != NIL && !Allocated(words[prev]) {
        FreeListRemove(prev, {b});
        assert {b} + {prev} == {prev, b};
        AfterRemoved(phys, i);
        Join(prev, b, i - 1, b);
        c, k := prev, i - 1;
      }
      ghost var phys1, words1 := phys, words;
      MergeNext(c, next, k);
      SameLiveTwice(old(phys), old(words), phys1, words1, phys, words);
    }

    /** The second half of coalesce_with_neighbors. */
    method MergeNext(c: int, next: int, ghost k: nat)
      requires Shaped({c}) && k < |phys| && phys[k] == c && c in words && !Allocated(words[c])
      requires ApartBut(phys, words, c) && LeftUsed(phys, words, k) && next == At(phys, k + 1, NIL)
      modifies this`words, this`nextPhys, this`prevPhys, this`nextFree, this`prevFree, this`phys, this`free
      ensures Shaped({c}) && k < |phys| && phys[k] == c && c in words && !Allocated(words[c])
      ensures Apart(phys, words) && SameLive(old(phys), old(words), phys, words)
      ensures free == Links.Without(old(free), next)
    {
      hide Tiles, Linked, Ring, Apart, ApartBut, SameLive;
      PhysNode(nextPhys, prevPhys, phys, k);
      Headers(phys, words, base, end);
      SameLiveSelf(phys, words);
      if next != NIL && !Allocated(words[next]) {
        PhysNode(nextPhys, prevPhys, phys, k + 1);
        FreeListRemove(next, {c});
        assert {c} + {next} == {c, next};
        Join(c, next, k, c);
        PhysNode(nextPhys, prevPhys, phys, k);
      }
      ApartAgain(phys, words, k);
    }

    /** mm_free. The pointer is NULL or the address of a current block; a block that is not allocated is
        left alone. */
    method Free(p: nat)
      requires Valid()
      requires initialized && p != 0 ==> HeaderOf(p) in phys
      modifies this
      ensures Valid() && initialized == old(initialized)
      ensures base == old(base) && end == old(end) && failed == old(failed) && allocations == old(allocations)
      ensures old(initialized) && p != 0 && LiveBlock(old(phys), old(words), HeaderOf(p)) ==>
                && Releases(old(Live()), Live(), p) && frees == old(frees) + 1
                && Returns(old(phys), old(free), free, Index(old(phys), HeaderOf(p)))
      ensures !(old(initialized) && p != 0 && LiveBlock(old(phys), old(words), HeaderOf(p))) ==>
                phys == old(phys) && words == old(words) && free == old(free) && used == old(used)
                    && frees == old(frees)
    {
      hide Tiles, Linked, Ring, Apart, ApartBut, Sound, UsedBelow, ArenaOf, Releases, Returns;
      if p == 0 || !initialized {
        return;
      }
      Headers(phys, words, base, end);
      var b := p - HEADER;
      if !Allocated(words[b]) {
        return;
      }
      ghost var i := Index(phys, b);
      Discharge(b, p);
      GiveBack(b, i);
    }

    /** The end of mm_free: joins the block with its free neighbours and puts it on the free list. */
    method GiveBack(b: int, ghost i: nat)
      requires Shaped({b}) && i < |phys| && phys[i] == b && b in words && !Allocated(words[b])
               && ApartBut(phys, words, b)
      modifies this`words, this`nextPhys, this`prevPhys, this`nextFree, this`prevFree, this`phys, this`free
      ensures Shaped({}) && Apart(phys, words) && Live() == old(Live())
      ensures Returns(old(phys), old(free), free, i)
    {
      hide Tiles, Linked, Ring, Apart, ApartBut, ArenaOf;
      var c: int;
      ghost var k: nat;
      c, k := Coalesce(b, i);
      SameArena(old(phys), old(words), phys, words, base, end);
      FreeListInsert(c, {c});
      assert {c} - {c} == {};
    }

    /** The first half of mm_free: marks the block and counts its payload. */
    method Discharge(b: int, ghost p: nat)
      requires Ready() && b in phys && b in words && Allocated(words[b]) && p == PtrOf(b)
      modifies this`words, this`frees, this`used, this`nextFree, this`prevFree
      ensures Shaped({b}) && ApartBut(phys, words, b) && b in words && !Allocated(words[b])
      ensures frees == old(frees) + 1
      ensures Releases(old(Live()), Live(), p) && used == Used(Live())
    {
      hide Tiles, Linked, Ring, Apart, ApartBut, Sound, UsedBelow, ArenaOf;
      ghost var words0 := words;
      TilesFlag(phys, words, base, end, b, Size(words[b]));
      ApartFreed(phys, words, b, Size(words[b]));
      ArenaSound(phys, words, base, end);
      words := words[b := Size(words[b])];
      frees := frees + 1;
      ArenaFree(phys, words0, phys, words, base, end, b);
      UsedByFree(ArenaOf(phys, words0, base, end), Live(), p);
      PayloadIs(phys, words0, base, end, b);
      var payload := Size(words[b]) - HEADER;
      used := Drop(used, payload);
      RingSpare(nextFree, prevFree, free, b);
      prevFree, nextFree := prevFree[b := NIL], nextFree[b := NIL];
    }

    /** mm_init on a region that ends within the address space. */
    method Init(start: nat, size: nat)
      requires start + size <= TWO64
      modifies this
      ensures Valid()
      ensures initialized <==> UsableBytes(start, size) >= MIN_BLOCK
      ensures initialized <==> !TooSmall(start, size, 64)
      ensures initialized ==> base <= end && Fills(start, size, base, end - base)
      ensures !initialized ==> used == allocations == frees == failed == 0 && capacity == 0
      ensures initialized ==>
                && base == AlignUp(start) && end == base + UsableBytes(start, size)
                && phys == [base as int] && base in words && words[base] == end - base && free == [base as int]
                && used == allocations == frees == failed == 0
                && Live() == Arena(base + HEADER, end, map[])
    {
      hide Tiles, Linked, Ring, Apart, Sound, UsedBelow, ArenaOf, AlignUp, RoundDown, FreeIs, Shaped, Ready,
           TooSmall, Fills;
      UsableFills(start, size);
      if size < MIN_BLOCK {
        initialized, capacity, used, allocations, frees, failed := false, 0, 0, 0, 0, 0;
        return;
      }
      Rounding(start, size);
      var alignedStart := AlignUp(start);
      var loss := alignedStart - start;
      // the loss is below 16 bytes, so the test against the size never fires here
      var bytes := if loss >= size then 0 else RoundDown(size - loss);
      Rounding(start, size - loss);
      if bytes < MIN_BLOCK {
        initialized, capacity, used, allocations, frees, failed := false, 0, 0, 0, 0, 0;
        return;
      }
      Begin(alignedStart, bytes);
    }

    /** The end of mm_init. */
    method Begin(at: nat, bytes: nat)
      requires bytes >= MIN_BLOCK && bytes % 2 == 0 && at + bytes <= TWO64
      modifies this
      ensures initialized && Ready() && base == at && end == at + bytes
      ensures phys == [at as int] && at in words && words[at] == bytes && free == [at as int]
      ensures used == allocations == frees == failed == 0
      ensures Live() == Arena(base + HEADER, end, map[])
    {
      hide Tiles, Linked, Ring, Apart, Sound, UsedBelow, ArenaOf, FreeIs, Size;
      FirstBlock(at, bytes);
      capacity := bytes - HEADER;
      used, allocations, frees, failed := 0, 0, 0, 0;
      initialized := true;
      NothingUsed(end);
    }

    /** The block that mm_init lays over the whole heap. */
    method FirstBlock(at: nat, bytes: nat)
      requires bytes >= MIN_BLOCK && bytes % 2 == 0
      modifies this`words, this`nextPhys, this`prevPhys, this`nextFree, this`prevFree, this`phys, this`free,
               this`base, this`end
      ensures base == at && end == at + bytes && phys == [at as int] && free == [at as int]
      ensures at in words && words[at] == bytes
      ensures Shaped({}) && Apart(phys, words) && Live() == Arena(base + HEADER, end, map[])
    {
      hide Tiles, Linked, Ring, Apart, FreeIs, ArenaOf;
      prevFree, nextFree := prevFree[SENTINEL := SENTINEL], nextFree[SENTINEL := SENTINEL];
      EmptyRing(nextFree, prevFree);
      words := words[at := bytes];
      prevPhys, nextPhys := prevPhys[at := NIL], nextPhys[at := NIL];
      words := words[at := Size(words[at])];
      base, end, phys, free := at, at + bytes, [at], [];
      OneBlock(nextPhys, prevPhys, words, at, bytes);
      FreeListInsert(at, {at as int});
      assert {at as int} - {at as int} == {};
    }

    /** Once every pointer was freed, in whatever order, there is the one block that mm_init laid. */
    lemma EmptyIsInitial()
      requires Ready() && Live().live == map[]
      ensures phys == [base as int] && free == [base as int] && base in words && words[base] == end - base
    {
      hide Tiles, Linked, Ring, Apart, ArenaOf;
      Headers(phys, words, base, end);
      NothingLive(phys, words, base, end);
      AllFreeIsInitial(phys, words, base, end);
      OnlyMember(nextFree, prevFree, free, base);
    }

    /** mm_init_default */
    method InitDefault()
      requires Valid() && !initialized && defaultStart + defaultSize <= TWO64
      modifies this
      ensures Valid()
      ensures initialized <==> defaultStart != 0 && UsableBytes(defaultStart, defaultSize) >= MIN_BLOCK
      ensures !initialized ==>
                (failed, frees) == if defaultStart != 0 && defaultSize > 0 then (0, 0) else (old(failed), old(frees))
      ensures initialized <==> defaultStart != 0 && !TooSmall(defaultStart, defaultSize, 64)
      ensures initialized ==> base <= end && Fills(defaultStart, defaultSize, base, end - base)
      ensures initialized ==> Live() == Arena(base + HEADER, end, map[])
    {
      UsableFills(defaultStart, defaultSize);
      if defaultStart != 0 && defaultSize > 0 {
        Init(defaultStart, defaultSize);
      }
    }

    /** mm_alloc, with the lazy initialization. `before` is the arena the request meets. */
    method Alloc(size: nat) returns (p: nat, ghost before: Arena)
      requires Valid() && size < TWO64 && defaultStart + defaultSize <= TWO64
      modifies this
      ensures Valid()
      ensures old(initialized) ==> initialized && before == old(Live())
      ensures !old(initialized) && initialized ==> before == Arena(base + HEADER, end, map[])
      ensures !old(initialized) && initialized ==> base <= end && Fills(defaultStart, defaultSize, base, end - base)
      ensures p != 0 ==> initialized && Allocates(before, Live(), Required(size) - HEADER, p)
      ensures p != 0 ==> (Allocates(before, Live(), size, p) <==> size <= TWO64 - 48)
      ensures !initialized ==> p == 0 && failed == 1 + if defaultStart != 0 && defaultSize > 0 then 0 else old(failed)
      ensures old(initialized) ==> failed == old(failed) + (if size > 0 && p == 0 then 1 else 0) && frees == old(frees)
      ensures p == 0 && initialized ==> Live() == before
    {
      hide Tiles, Linked, Ring, Apart, Sound, Allocates, UsedBelow, ArenaOf, FirstFit, Takes, Required, FreeIs;
      if !initialized {
        InitDefault();
        if !initialized {
          failed := failed + 1;
          return 0, Arena(0, 0, map[]);
        }
      }
      before := Live();
      p := AllocReady(size);
      if p != 0 {
        RequiredCovers(size);
        AllocatesUpTo(before, Live(), Payload(words[HeaderOf(p)]), p, Required(size) - HEADER);
      }
    }

    /** mm_get_stats, the part that inspects the heap. */
    method LargestFreeBlock() returns (largest: nat)
      requires Ready()
      ensures IsLargest(free, words, largest) && largest <= TWO64 - HEADER
    {
      hide Tiles;
      SizesFit(phys, words, base, end);
      var best: nat := 0;
      var cur := nextFree[SENTINEL];
      ghost var i: nat := 0;
      while cur != SENTINEL
        invariant i <= |free| && cur == At(free, i, SENTINEL)
        invariant forall j :: 0 <= j < i && free[j] in words ==> Size(words[free[j]]) <= best
        invariant best == 0 || exists a :: a in free && a in words && Size(words[a]) == best
        decreases |free| - i
      {
        assert LinkOk(nextFree, prevFree, SENTINEL, free, i);
        assert cur in free;
        if Size(words[cur]) > best {
          best := Size(words[cur]);
        }
        cur := nextFree[cur];
        i := i + 1;
      }
      AtMember(free, i, SENTINEL);
      largest := if best >= HEADER then best - HEADER else 0;
    }

    /** mm_get_stats on an initialized heap. Used and free bytes add up to the capacity. */
    method GetStats() returns (st: Stats)
      requires Ready()
      ensures st.total == capacity && st.used == Used(Live()) && st.used + st.free == st.total
      ensures IsLargest(free, words, st.largest)
      ensures st.allocations == allocations && st.frees == frees && st.failed == failed
    {
      hide Tiles, Linked, Ring, Apart, Sound, UsedBelow, ArenaOf, FreeIs;
      ArenaSound(phys, words, base, end);
      UsedFits(Live());
      var largest := LargestFreeBlock();
      st := Stats(capacity, used, if capacity > used then capacity - used else 0, largest, allocations, frees, failed);
    }
  }

  lemma SizesFit(phys: seq<int>, words: Words, base: nat, end: nat)
    requires Tiles(phys, words, base, end)
    ensures forall a :: a in phys ==> a in words && Size(words[a]) <= end
  {
    hide Tiles;
    forall a | a in phys ensures a in words && Size(words[a]) <= end {
      Within(phys, words, base, end, Index(phys, a));
    }
  }

  lemma AfterRemoved(phys: seq<int>, i: nat)
    requires Distinct(phys) && 0 < i < |phys|
    ensures At(Links.Without(phys, phys[i]), i, NIL) == At(phys, i + 1, NIL)
  {
    WithoutIs(phys, i);
  }

  /** A heap of one free block. */
  lemma OneBlock(next: Pointers, prev: Pointers, words: Words, at: int, bytes: nat)
    requires at >= 0 && at in next && at in prev && next[at] == prev[at] == NIL
    requires at in words && words[at] == bytes >= MIN_BLOCK && bytes % 2 == 0
    ensures Linked(next, prev, NIL, [at]) && Tiles([at], words, at, at + bytes) && Apart([at], words)
    ensures FreeIs([at], words, [], {at}) && !Allocated(words[at])
    ensures ArenaOf([at], words, at, at + bytes) == Arena(at + HEADER, at + bytes, map[])
  {
    assert LinkOk(next, prev, NIL, [at], 0);
    assert BlockOk([at], words, at + bytes, 0);
    assert ArenaOf([at], words, at, at + bytes).live == map[];
  }

  lemma EmptyRing(next: Pointers, prev: Pointers)
    requires SENTINEL in next && SENTINEL in prev && next[SENTINEL] == prev[SENTINEL] == SENTINEL
    ensures Ring(next, prev, SENTINEL, [])
  {
  }

  lemma NothingLive(phys: seq<int>, words: Words, base: nat, end: nat)
    requires (forall a :: a in phys ==> a >= 0) && ArenaOf(phys, words, base, end).live == map[]
    ensures forall a :: a in phys && a in words ==> !Allocated(words[a])
  {
    hide ArenaOf;
    forall a | a in phys && a in words ensures !Allocated(words[a]) {
      var n: nat := a;
      assert LiveBlock(phys, words, n) ==> PtrOf(n) in ArenaOf(phys, words, base, end).live;
    }
  }

  lemma OnlyMember(next: Pointers, prev: Pointers, free: seq<int>, a: int)
    requires Ring(next, prev, SENTINEL, free) && forall x :: x in free <==> x == a
    ensures free == [a]
  {
    assert a in free;
    var last := |free| - 1;
    assert free[0] in free && free[last] in free;
  }

  lemma SameLiveSelf(phys: seq<int>, words: Words)
    ensures SameLive(phys, words, phys, words)
  {
  }

  lemma SameLiveTwice(p0: seq<int>, w0: Words, p1: seq<int>, w1: Words, p2: seq<int>, w2: Words)
    requires SameLive(p0, w0, p1, w1) && SameLive(p1, w1, p2, w2)
    ensures SameLive(p0, w0, p2, w2)
  {
  }

  lemma PayloadIs(phys: seq<int>, words: Words, base: int, end: int, b: int)
    requires Tiles(phys, words, base, end) && b in phys
    ensures b in words && Size(words[b]) >= MIN_BLOCK && Payload(words[b]) == Size(words[b]) - HEADER
  {
    Headers(phys, words, base, end);
  }

  /** The links of a block that is not on the free list are not read. */
  lemma RingSpare(next: Pointers, prev: Pointers, free: seq<int>, b: int)
    requires Ring(next, prev, SENTINEL, free) && b !in free && b != SENTINEL
    ensures Ring(next[b := NIL], prev[b := NIL], SENTINEL, free)
  {
    LinkedFrame(next, prev, next[b := NIL], prev[b := NIL], SENTINEL, free);
  }

  lemma FreeNode(next: Pointers, prev: Pointers, free: seq<int>, i: nat)
    requires Ring(next, prev, SENTINEL, free) && i < |free|
    ensures free[i] in next && free[i] in prev && free[i] != SENTINEL
  {
    assert LinkOk(next, prev, SENTINEL, free, i);
    assert free[i] in free;
  }

  /** What cutting a block in hand leaves. */
  lemma CutFacts(words: Words, phys: seq<int>, base: int, end: int, i: nat, need: nat,
                 nextPhys: Pointers, prevPhys: Pointers, nextFree: Pointers, prevFree: Pointers, free: seq<int>)
    requires Linked(nextPhys, prevPhys, NIL, phys) && Tiles(phys, words, base, end)
    requires Ring(nextFree, prevFree, SENTINEL, free) && i < |phys| && FreeIs(phys, words, free, {phys[i]})
    requires phys[i] in words && !Allocated(words[phys[i]]) && forall a :: a in phys ==> a >= 0
    requires need >= MIN_BLOCK && need % 2 == 0 && Size(words[phys[i]]) >= need + MIN_BLOCK
    ensures var b, n := phys[i], phys[i] + need;
            var words' := words[n := Size(words[b]) - need][b := need];
            && b in nextPhys && n !in phys && n != b
            && (nextPhys[b] != NIL ==> nextPhys[b] != n)
            && Tiles(Inserted(phys, i, n), words', base, end)
            && var next', prev' := nextPhys[n := nextPhys[b]][b := n], prevPhys[n := b];
            && Linked(next', if nextPhys[b] != NIL then prev'[nextPhys[b] := n] else prev', NIL, Inserted(phys, i, n))
            && FreeIs(Inserted(phys, i, n), words', free, {b, n})
            && Ring(nextFree[n := NIL], prevFree[n := NIL], SENTINEL, free)
            && (forall a :: a in Inserted(phys, i, n) ==> a >= 0)
  {
    hide Tiles, FreeIs;
    var b, n := phys[i], phys[i] + need;
    SplitTiles(phys, words, base, end, i, need, 0);
    assert LinkOk(nextPhys, prevPhys, NIL, phys, i);
    assert phys[i] in phys;
    assert i + 1 < |phys| ==> phys[i + 1] in phys;
    LinkedInsert(nextPhys, prevPhys, NIL, phys, i, n);
    SplitFree(phys, words, free, i, n, words[n := Size(words[b]) - need][b := need]);
    LinkedFrame(nextFree, prevFree, nextFree[n := NIL], prevFree[n := NIL], SENTINEL, free);
    forall a | a in Inserted(phys, i, n) ensures a >= 0 { assert a in phys || a == n; }
  }
}
