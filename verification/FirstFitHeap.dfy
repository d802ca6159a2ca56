/** The heap of Kernel/mm/mm_simple.c on values: a physical list of blocks that tile the heap and a
    circular free list, both threaded through the block headers. Addresses are bytes. */
module FirstFitHeap {
  import opened Sequences
  import opened Links
  import opened Allocator

  const HEADER := 40
  const MIN_BLOCK := 56     // header and one alignment unit
  const SENTINEL := -2      // &free_list_sentinel
  const TWO64 := 0x1_0000_0000_0000_0000

  /** The header word: an even size, plus one while the block is allocated. */
  function Size(word: nat): nat {
    word / 2 * 2
  }

  predicate Allocated(word: nat) {
    word % 2 == 1
  }

  /** align_up(v, 16), on 64-bit words. */
  function AlignUp(v: nat): nat {
    (v + 15) % TWO64 / 16 * 16
  }

  /** The block size a request asks for, on 64-bit words. */
  function Required(size: nat): nat {
    var n := (AlignUp(size) + HEADER) % TWO64;
    if n < MIN_BLOCK then MIN_BLOCK else n
  }

  /** A block of the required size covers the request exactly when the 64-bit sum does not wrap. */
  lemma RequiredCovers(size: nat)
    requires 0 < size < TWO64
    ensures Required(size) >= MIN_BLOCK && Required(size) % 2 == 0
    ensures size <= Required(size) - HEADER <==> size <= TWO64 - 48
    ensures size <= TWO64 - 48 ==> Required(size) == AlignUp(size) + HEADER
  {
  }

  type Words = map<int, nat>

  /** The block at position `i` ends where the next one, or the heap, begins or ends. */
  ghost predicate BlockOk(phys: seq<int>, words: Words, end: int, i: nat)
    requires i < |phys|
  {
    && phys[i] in words
    && Size(words[phys[i]]) >= MIN_BLOCK
    && phys[i] + Size(words[phys[i]]) == At(phys, i + 1, end)
  }

  /** The physical list tiles `[base, end)`. */
  ghost predicate Tiles(phys: seq<int>, words: Words, base: int, end: int) {
    && phys != [] && phys[0] == base
    && forall i {:trigger BlockOk(phys, words, end, i)} :: 0 <= i < |phys| ==> BlockOk(phys, words, end, i)
  }

  predicate UsedAt(phys: seq<int>, words: Words, i: nat)
    requires i < |phys|
  {
    phys[i] in words && Allocated(words[phys[i]])
  }

  /** No two neighbours are both free. */
  ghost predicate Apart(phys: seq<int>, words: Words) {
    forall i {:trigger UsedAt(phys, words, i)} :: 0 <= i && i + 1 < |phys| ==>
        UsedAt(phys, words, i) || UsedAt(phys, words, i + 1)
  }

  /** The free list holds the unallocated blocks, but for those in `hand`. */
  ghost predicate FreeIs(phys: seq<int>, words: Words, free: seq<int>, hand: set<int>) {
    forall a :: a in free <==> a in phys && a in words && !Allocated(words[a]) && a !in hand
  }

  // ---------------------------------------------------------------- order

  lemma {:induction false} Later(phys: seq<int>, words: Words, base: int, end: int, i: nat, j: nat)
    requires Tiles(phys, words, base, end) && i < j <= |phys|
    ensures phys[i] in words && phys[i] + Size(words[phys[i]]) <= At(phys, j, end)
    decreases j - i
  {
    assert BlockOk(phys, words, end, i);
    if i + 1 < j {
      assert BlockOk(phys, words, end, i + 1);
      Later(phys, words, base, end, i + 1, j);
    }
  }

  lemma Within(phys: seq<int>, words: Words, base: int, end: int, i: nat)
    requires Tiles(phys, words, base, end) && i < |phys|
    ensures phys[i] in words && base <= phys[i] && phys[i] + Size(words[phys[i]]) <= end
  {
    Later(phys, words, base, end, i, |phys|);
    if i > 0 { Later(phys, words, base, end, 0, i); }
  }

  // ---------------------------------------------------------------- splitting and joining

  function Inserted(phys: seq<int>, i: nat, b: int): seq<int>
    requires i < |phys|
  {
    phys[..i + 1] + [b] + phys[i + 1..]
  }

  /** Splitting the block at `i` after `need` bytes. */
  lemma SplitTiles(phys: seq<int>, words: Words, base: int, end: int, i: nat, need: nat, flag: nat)
    requires Tiles(phys, words, base, end) && Distinct(phys) && i < |phys| && phys[i] in words && flag <= 1
    requires need % 2 == 0 && need >= MIN_BLOCK && Size(words[phys[i]]) >= need + MIN_BLOCK
    ensures var b := phys[i] + need;
            && b !in phys
            && Tiles(Inserted(phys, i, b), words[b := Size(words[phys[i]]) - need][phys[i] := need + flag], base, end)
  {
    var b := phys[i] + need;
    var words' := words[b := Size(words[phys[i]]) - need][phys[i] := need + flag];
    var phys' := Inserted(phys, i, b);
    forall j | 0 <= j < |phys| ensures phys[j] != b {
      if j < i { Later(phys, words, base, end, j, i); }
      if j > i { Later(phys, words, base, end, i, j); }
    }
    assert BlockOk(phys, words, end, i);
    forall j | 0 <= j < |phys'| ensures BlockOk(phys', words', end, j) {
      if j < i { assert BlockOk(phys, words, end, j); }
      if j > i + 1 { assert BlockOk(phys, words, end, j - 1); }
    }
  }

  /** Joining the block at `i` with the one behind it, as a free block. */
  lemma JoinTiles(phys: seq<int>, words: Words, base: int, end: int, i: nat)
    requires Tiles(phys, words, base, end) && Distinct(phys) && i + 1 < |phys|
    requires phys[i] in words && phys[i + 1] in words
    ensures Tiles(Without(phys, phys[i + 1]), words[phys[i] := Size(words[phys[i]]) + Size(words[phys[i + 1]])],
            base, end)
  {
    WithoutIs(phys, i + 1);
    var phys' := Without(phys, phys[i + 1]);
    var words' := words[phys[i] := Size(words[phys[i]]) + Size(words[phys[i + 1]])];
    assert BlockOk(phys, words, end, i) && BlockOk(phys, words, end, i + 1);
    forall j | 0 <= j < |phys'| ensures BlockOk(phys', words', end, j) {
      if j < i { assert BlockOk(phys, words, end, j); }
      if j > i { assert BlockOk(phys, words, end, j + 1); }
    }
  }

  /** Once nothing is allocated there is a single block, the whole heap. */
  lemma AllFreeIsInitial(phys: seq<int>, words: Words, base: int, end: int)
    requires Tiles(phys, words, base, end) && Apart(phys, words)
    requires forall a :: a in phys && a in words ==> !Allocated(words[a])
    ensures phys == [base] && base in words && Size(words[base]) == end - base
  {
    assert BlockOk(phys, words, end, 0);
    forall i | 0 <= i < |phys| ensures !UsedAt(phys, words, i) {
      var a := phys[i];
      assert a in phys;
    }
    assert !UsedAt(phys, words, 0);
  }

  /** At a common start `a` the blocks of two canonical heaps with the same live blocks end at the same
      place. */
  lemma SameExtent(p: seq<int>, u: Words, q: seq<int>, w: Words, base: int, end: int, k: nat)
    requires Tiles(p, u, base, end) && Apart(p, u) && Tiles(q, w, base, end)
    requires forall a {:trigger LiveBlock(p, u, a)} :: LiveBlock(p, u, a) ==>
             LiveBlock(q, w, a) && Size(u[a]) == Size(w[a])
    requires k < |p| && k < |q| && p[k] == q[k] && base >= 0
    ensures p[k] in u && q[k] in w && Size(w[q[k]]) <= Size(u[p[k]])
  {
    hide Tiles;
    Within(p, u, base, end, k);
    Within(q, w, base, end, k);
    var a := p[k];
    assert a in p && a in q;
    if LiveBlock(p, u, a) {
      assert LiveBlock(q, w, a);
    } else if Size(w[a]) > Size(u[a]) {
      assert BlockOk(p, u, end, k) by { TilesAt(p, u, base, end, k); }
      assert k + 1 < |p|;
      assert !UsedAt(p, u, k);
      Within(p, u, base, end, k + 1);
      assert p[k + 1] in p && LiveBlock(p, u, p[k + 1]);
      NoStartInside(q, w, base, end, k, p[k + 1]);
    }
  }

  lemma TilesAt(phys: seq<int>, words: Words, base: int, end: int, i: nat)
    requires Tiles(phys, words, base, end) && i < |phys|
    ensures BlockOk(phys, words, end, i)
  {
  }

  /** No block starts strictly inside another. */
  lemma NoStartInside(phys: seq<int>, words: Words, base: int, end: int, i: nat, a: int)
    requires Tiles(phys, words, base, end) && i < |phys| && phys[i] in words
             && phys[i] < a < phys[i] + Size(words[phys[i]])
    ensures a !in phys
  {
    hide Tiles;
    if a in phys {
      var j := Index(phys, a);
      if i < j { Later(phys, words, base, end, i, j); }
      if j < i {
        Later(phys, words, base, end, j, i);
        TilesAt(phys, words, base, end, j);
      }
    }
  }

  /** The live blocks determine the whole physical list: two canonical heaps over the same region with
      the same live blocks have the same blocks. */
  lemma {:induction false} SamePrefix(p: seq<int>, u: Words, q: seq<int>, w: Words, base: int, end: int, k: nat)
    requires Tiles(p, u, base, end) && Apart(p, u) && Tiles(q, w, base, end) && Apart(q, w) && base >= 0
    requires SameBlocks(p, u, q, w)
    requires k < |p|
    ensures k < |q| && p[k] == q[k] && p[k] in u && p[k] in w && Size(u[p[k]]) == Size(w[p[k]])
  {
    hide Tiles, Apart;
    if k > 0 {
      SamePrefix(p, u, q, w, base, end, k - 1);
      TilesAt(p, u, base, end, k - 1);
      TilesAt(q, w, base, end, k - 1);
      Within(p, u, base, end, k);
      TilesAt(p, u, base, end, k);
    } else {
      FirstIsBase(p, u, base, end);
      FirstIsBase(q, w, base, end);
    }
    SameExtent(p, u, q, w, base, end, k);
    SameExtent(q, w, p, u, base, end, k);
  }

  lemma FirstIsBase(phys: seq<int>, words: Words, base: int, end: int)
    requires Tiles(phys, words, base, end)
    ensures phys != [] && phys[0] == base
  {
  }

  /** The same blocks are live, with the same sizes. */
  ghost predicate SameBlocks(p: seq<int>, u: Words, q: seq<int>, w: Words) {
    && (forall a {:trigger LiveBlock(p, u, a)} :: LiveBlock(p, u, a) ==> LiveBlock(q, w, a) && Size(u[a]) == Size(w[a]))
    && (forall a {:trigger LiveBlock(q, w, a)} :: LiveBlock(q, w, a) ==> LiveBlock(p, u, a) && Size(w[a]) == Size(u[a]))
  }

  lemma DeterminedByLive(p: seq<int>, u: Words, q: seq<int>, w: Words, base: int, end: int)
    requires Tiles(p, u, base, end) && Apart(p, u) && Tiles(q, w, base, end) && Apart(q, w) && base >= 0
    requires SameBlocks(p, u, q, w)
    ensures p == q && forall a :: a in p ==> a in u && a in w && Size(u[a]) == Size(w[a])
  {
    hide Tiles, Apart, SameBlocks;
    assert |q| > 0 && |p| > 0 by { FirstIsBase(p, u, base, end); FirstIsBase(q, w, base, end); }
    SamePrefix(p, u, q, w, base, end, |p| - 1);
    SameBlocksBack(p, u, q, w);
    SamePrefix(q, w, p, u, base, end, |q| - 1);
    forall k | 0 <= k < |p| ensures p[k] == q[k] && p[k] in u && p[k] in w && Size(u[p[k]]) == Size(w[p[k]]) {
      SamePrefix(p, u, q, w, base, end, k);
    }
  }

  lemma SameBlocksBack(p: seq<int>, u: Words, q: seq<int>, w: Words)
    requires SameBlocks(p, u, q, w)
    ensures SameBlocks(q, w, p, u)
  {
  }

  /** What splitting does to the free list: nothing, while both halves are in hand. */
  lemma SplitFree(phys: seq<int>, words: Words, free: seq<int>, i: nat, n: int, words': Words)
    requires i < |phys| && n !in phys && FreeIs(phys, words, free, {phys[i]})
    requires n in words' && phys[i] in words' && forall a :: a in phys && a != phys[i] ==> (a in words <==> a in words')
    requires forall a :: a in phys && a != phys[i] && a in words ==> words'[a] == words[a]
    ensures FreeIs(Inserted(phys, i, n), words', free, {phys[i], n})
    ensures n !in free
  {
    forall a ensures a in Inserted(phys, i, n) <==> a in phys || a == n {
      assert phys == phys[..i + 1] + phys[i + 1..];
    }
  }

  // ---------------------------------------------------------------- the arena

  /** The address handed out for the block at `a`, and the way back. */
  function PtrOf(a: nat): nat {
    a + HEADER
  }

  function HeaderOf(p: nat): int {
    p - HEADER
  }

  predicate LiveBlock(phys: seq<int>, words: Words, a: int) {
    a >= 0 && a in phys && a in words && Allocated(words[a])
  }

  ghost function Ptrs(phys: seq<int>, words: Words): (ps: set<nat>)
    ensures forall a: nat :: LiveBlock(phys, words, a) ==> PtrOf(a) in ps
    ensures forall p :: p in ps ==> LiveBlock(phys, words, HeaderOf(p))
  {
    set a: nat | a in phys && LiveBlock(phys, words, a) :: PtrOf(a)
  }

  /** The payload bytes behind a header word. */
  function Payload(word: nat): nat {
    if Size(word) >= HEADER then Size(word) - HEADER else 0
  }

  ghost function ArenaOf(phys: seq<int>, words: Words, base: nat, end: nat): (r: Arena)
    ensures r.lo == base + HEADER && r.hi == end
    ensures forall a: nat {:trigger PtrOf(a)} :: LiveBlock(phys, words, a) ==>
              PtrOf(a) in r.live && r.live[PtrOf(a)] == Payload(words[a])
    ensures forall p :: p in r.live ==>
              HeaderOf(p) >= 0 && LiveBlock(phys, words, HeaderOf(p)) && p == PtrOf(HeaderOf(p))
                  && r.live[p] == Payload(words[HeaderOf(p)])
  {
    Arena(base + HEADER, end, map p | p in Ptrs(phys, words) :: Payload(words[HeaderOf(p)]))
  }

  lemma ArenaSound(phys: seq<int>, words: Words, base: nat, end: nat)
    requires Tiles(phys, words, base, end)
    ensures Sound(ArenaOf(phys, words, base, end))
  {
    hide Tiles, ArenaOf;
    var r := ArenaOf(phys, words, base, end);
    RoomForHeader(phys, words, base, end);
    forall p | p in r.live ensures r.lo <= p && 0 < r.live[p] && p + r.live[p] <= r.hi {
      PayloadWithin(phys, words, base, end, HeaderOf(p));
    }
    forall p, q | p in r.live && q in r.live && p < q ensures p + r.live[p] <= q {
      PayloadBefore(phys, words, base, end, HeaderOf(p), HeaderOf(q));
    }
  }

  /** So the arena determines the heap behind it. */
  lemma DeterminedByArena(p: seq<int>, u: Words, q: seq<int>, w: Words, base: nat, end: nat)
    requires Tiles(p, u, base, end) && Apart(p, u) && Tiles(q, w, base, end) && Apart(q, w)
    requires ArenaOf(p, u, base, end) == ArenaOf(q, w, base, end)
    ensures p == q && forall a :: a in p ==> a in u && a in w && Size(u[a]) == Size(w[a])
  {
    hide Tiles, Apart, ArenaOf;
    Headers(p, u, base, end);
    Headers(q, w, base, end);
    ArenaShows(p, u, q, w, base, end);
    ArenaShows(q, w, p, u, base, end);
    DeterminedByLive(p, u, q, w, base, end);
  }

  lemma ArenaShows(p: seq<int>, u: Words, q: seq<int>, w: Words, base: nat, end: nat)
    requires ArenaOf(p, u, base, end) == ArenaOf(q, w, base, end)
    requires forall a :: a in p ==> a in u && Size(u[a]) >= MIN_BLOCK
    requires forall a :: a in q ==> a in w && Size(w[a]) >= MIN_BLOCK
    ensures forall a {:trigger LiveBlock(p, u, a)} :: LiveBlock(p, u, a) ==>
            LiveBlock(q, w, a) && Size(u[a]) == Size(w[a])
  {
    hide ArenaOf;
    forall a {:trigger LiveBlock(p, u, a)} | LiveBlock(p, u, a) ensures LiveBlock(q, w, a) && Size(u[a]) == Size(w[a]) {
      var x := PtrOf(a);
      assert x in ArenaOf(q, w, base, end).live && HeaderOf(x) == a;
    }
  }

  lemma RoomForHeader(phys: seq<int>, words: Words, base: int, end: int)
    requires Tiles(phys, words, base, end)
    ensures base + HEADER <= end
  {
    assert BlockOk(phys, words, end, 0);
    Within(phys, words, base, end, 0);
  }

  lemma PayloadWithin(phys: seq<int>, words: Words, base: int, end: int, a: int)
    requires Tiles(phys, words, base, end) && a in phys
    ensures a in words && base <= a && 0 < Payload(words[a]) && a + HEADER + Payload(words[a]) <= end
  {
    var i := Index(phys, a);
    assert BlockOk(phys, words, end, i);
    Within(phys, words, base, end, i);
  }

  lemma PayloadBefore(phys: seq<int>, words: Words, base: int, end: int, a: int, b: int)
    requires Tiles(phys, words, base, end) && a in phys && b in phys && a < b
    ensures a in words && a + HEADER + Payload(words[a]) <= b + HEADER
  {
    var i, j := Index(phys, a), Index(phys, b);
    assert BlockOk(phys, words, end, i) && BlockOk(phys, words, end, j);
    if i < j { Later(phys, words, base, end, i, j); } else { BlocksAscend(phys, words, base, end, j, i); }
  }

  lemma BlocksAscend(phys: seq<int>, words: Words, base: int, end: int, i: nat, j: nat)
    requires Tiles(phys, words, base, end) && i <= j < |phys|
    ensures phys[i] <= phys[j]
  {
    if i < j { Later(phys, words, base, end, i, j); }
  }

  // ---------------------------------------------------------------- neighbours

  /** No two neighbours are both free, but perhaps for pairs with `c`. */
  ghost predicate ApartBut(phys: seq<int>, words: Words, c: int) {
    forall i {:trigger UsedAt(phys, words, i)} ::
      0 <= i && i + 1 < |phys| && phys[i] != c && phys[i + 1] != c ==>
          UsedAt(phys, words, i) || UsedAt(phys, words, i + 1)
  }

  /** The neighbours of the block at `i` on the left, and on the right, are allocated. */
  predicate LeftUsed(phys: seq<int>, words: Words, i: nat)
    requires i < |phys|
  {
    i == 0 || UsedAt(phys, words, i - 1)
  }

  predicate RightUsed(phys: seq<int>, words: Words, i: nat)
    requires i < |phys|
  {
    i + 1 == |phys| || UsedAt(phys, words, i + 1)
  }

  lemma ApartAgain(phys: seq<int>, words: Words, i: nat)
    requires i < |phys| && Distinct(phys) && ApartBut(phys, words, phys[i])
    requires LeftUsed(phys, words, i) && RightUsed(phys, words, i)
    ensures Apart(phys, words)
  {
    forall j | 0 <= j && j + 1 < |phys| ensures UsedAt(phys, words, j) || UsedAt(phys, words, j + 1) {
      assert UsedAt(phys, words, j) || true;
    }
  }

  /** Freeing a block leaves the others apart. */
  lemma ApartFreed(phys: seq<int>, words: Words, b: int, w: nat)
    requires Apart(phys, words)
    ensures ApartBut(phys, words[b := w], b)
  {
    forall j | 0 <= j && j + 1 < |phys| && phys[j] != b && phys[j + 1] != b
      ensures UsedAt(phys, words[b := w], j) || UsedAt(phys, words[b := w], j + 1)
    {
      assert UsedAt(phys, words, j) || UsedAt(phys, words, j + 1);
    }
  }

  lemma JoinedUsed(phys: seq<int>, words: Words, i: nat, w: nat, j: nat)
    requires Distinct(phys) && i + 1 < |phys| && j < |phys| - 1
    ensures var phys', words' := Without(phys, phys[i + 1]), words[phys[i] := w];
            && |phys'| == |phys| - 1 && phys'[j] == phys[if j <= i then j else j + 1]
            && (j != i ==> (UsedAt(phys', words', j) <==> UsedAt(phys, words, if j < i then j else j + 1)))
  {
    hide Without;
    WithoutIs(phys, i + 1);
    var k := if j <= i then j else j + 1;
    assert Without(phys, phys[i + 1])[j] == phys[k];
    assert j != i ==> phys[k] != phys[i];
  }

  /** Joining the block at `i` with the next one, one of which may have free neighbours. */
  lemma ApartJoined(phys: seq<int>, words: Words, i: nat, c: int, w: nat)
    requires Distinct(phys) && i + 1 < |phys| && c in {phys[i], phys[i + 1]} && ApartBut(phys, words, c)
    ensures ApartBut(Without(phys, phys[i + 1]), words[phys[i] := w], phys[i])
  {
    hide Without, UsedAt;
    var phys', words' := Without(phys, phys[i + 1]), words[phys[i] := w];
    JoinedUsed(phys, words, i, w, i);
    forall j | 0 <= j && j + 1 < |phys'| && phys'[j] != phys[i] && phys'[j + 1] != phys[i]
      ensures UsedAt(phys', words', j) || UsedAt(phys', words', j + 1)
    {
      JoinedUsed(phys, words, i, w, j);
      JoinedUsed(phys, words, i, w, j + 1);
      var k := if j < i then j else j + 1;
      assert UsedAt(phys, words, k) || UsedAt(phys, words, k + 1);
    }
  }

  /** ... and its neighbours: a free block had allocated ones already. */
  lemma JoinedNeighbours(phys: seq<int>, words: Words, i: nat, c: int, w: nat)
    requires Distinct(phys) && i + 1 < |phys| && c in {phys[i], phys[i + 1]} && ApartBut(phys, words, c)
    ensures var phys', words' := Without(phys, phys[i + 1]), words[phys[i] := w];
            && |phys'| == |phys| - 1 && phys'[i] == phys[i]
            && (c == phys[i + 1] && !UsedAt(phys, words, i) ==> LeftUsed(phys', words', i))
            && (c == phys[i] && LeftUsed(phys, words, i) ==> LeftUsed(phys', words', i))
            && (c == phys[i] && !UsedAt(phys, words, i + 1) ==> RightUsed(phys', words', i))
  {
    hide Without, UsedAt;
    JoinedUsed(phys, words, i, w, i);
    if i > 0 {
      JoinedUsed(phys, words, i, w, i - 1);
      assert c == phys[i + 1] ==> UsedAt(phys, words, i - 1) || UsedAt(phys, words, i);
    }
    if i + 2 < |phys| {
      JoinedUsed(phys, words, i, w, i + 1);
      assert c == phys[i] ==> UsedAt(phys, words, i + 1) || UsedAt(phys, words, i + 2);
    }
  }

  /** Allocating the free block at `i`, whole or after splitting off a free remainder. */
  lemma ApartAllocated(phys: seq<int>, words: Words, i: nat, w: nat)
    requires Distinct(phys) && i < |phys| && Apart(phys, words) && phys[i] in words && Allocated(w)
    ensures Apart(phys, words[phys[i] := w])
  {
    var words' := words[phys[i] := w];
    forall j | 0 <= j && j + 1 < |phys| ensures UsedAt(phys, words', j) || UsedAt(phys, words', j + 1) {
      assert UsedAt(phys, words, j) || UsedAt(phys, words, j + 1);
    }
  }

  lemma ApartSplit(phys: seq<int>, words: Words, i: nat, n: int, v: nat, w: nat)
    requires Distinct(phys) && i < |phys| && Apart(phys, words) && n !in phys && Allocated(w)
    requires !UsedAt(phys, words, i)
    ensures Apart(Inserted(phys, i, n), words[n := v][phys[i] := w])
  {
    var phys', words' := Inserted(phys, i, n), words[n := v][phys[i] := w];
    forall j | 0 <= j && j + 1 < |phys'| ensures UsedAt(phys', words', j) || UsedAt(phys', words', j + 1) {
      if j < i {
        assert UsedAt(phys, words, j) || UsedAt(phys, words, j + 1);
        assert UsedAt(phys, words, j) ==> UsedAt(phys', words', j);
      } else if j > i {
        assert UsedAt(phys, words, j - 1) || UsedAt(phys, words, j);
        assert UsedAt(phys, words, j) ==> UsedAt(phys', words', j + 1);
        assert j > i + 1 && UsedAt(phys, words, j - 1) ==> UsedAt(phys', words', j);
      }
    }
  }

  // ---------------------------------------------------------------- what the operations do to the arena

  lemma ArenaAlloc(phys: seq<int>, words: Words, phys': seq<int>, words': Words, base: nat, end: nat, b: nat)
    requires Tiles(phys', words', base, end)
    requires !LiveBlock(phys, words, b) && LiveBlock(phys', words', b)
    requires forall a :: a != b ==> (LiveBlock(phys', words', a) <==> LiveBlock(phys, words, a))
    requires forall a :: a != b && LiveBlock(phys, words, a) && LiveBlock(phys', words', a) ==> words'[a] == words[a]
    ensures Allocates(ArenaOf(phys, words, base, end), ArenaOf(phys', words', base, end), Payload(words'[b]), PtrOf(b))
  {
    hide Tiles, Sound, LiveBlock, Payload, ArenaOf;
    ArenaSound(phys', words', base, end);
    var r, r', p := ArenaOf(phys, words, base, end), ArenaOf(phys', words', base, end), PtrOf(b);
    assert HeaderOf(p) == b;
    assert r'.live == r.live[p := r'.live[p]];
  }

  lemma ArenaFree(phys: seq<int>, words: Words, phys': seq<int>, words': Words, base: nat, end: nat, b: nat)
    requires LiveBlock(phys, words, b) && !LiveBlock(phys', words', b)
    requires forall a :: a != b ==> (LiveBlock(phys', words', a) <==> LiveBlock(phys, words, a))
    requires forall a :: a != b && LiveBlock(phys, words, a) && LiveBlock(phys', words', a) ==> words'[a] == words[a]
    ensures Releases(ArenaOf(phys, words, base, end), ArenaOf(phys', words', base, end), PtrOf(b))
    ensures ArenaOf(phys, words, base, end).live[PtrOf(b)] == Payload(words[b])
  {
    hide Sound, LiveBlock, Payload, ArenaOf;
    var r, r', p := ArenaOf(phys, words, base, end), ArenaOf(phys', words', base, end), PtrOf(b);
    assert HeaderOf(p) == b;
    assert r'.live == r.live - {p};
  }

  lemma SameArena(phys: seq<int>, words: Words, phys': seq<int>, words': Words, base: nat, end: nat)
    requires forall a :: LiveBlock(phys', words', a) <==> LiveBlock(phys, words, a)
    requires forall a :: LiveBlock(phys, words, a) && LiveBlock(phys', words', a) ==> words'[a] == words[a]
    ensures ArenaOf(phys, words, base, end) == ArenaOf(phys', words', base, end)
  {
    hide LiveBlock, Payload, ArenaOf;
    assert ArenaOf(phys, words, base, end).live == ArenaOf(phys', words', base, end).live;
  }

  /** The same blocks are live, with the same extents. */
  ghost predicate SameLive(phys: seq<int>, words: Words, phys': seq<int>, words': Words) {
    && (forall a :: LiveBlock(phys', words', a) <==> LiveBlock(phys, words, a))
    && (forall a {:trigger LiveBlock(phys, words, a)} :: LiveBlock(phys, words, a) && a in words' ==>
         words'[a] == words[a])
  }

  /** Changing the flag bit of a header moves nothing. */
  lemma TilesFlag(phys: seq<int>, words: Words, base: int, end: int, b: int, w: nat)
    requires Tiles(phys, words, base, end) && b in words && Size(w) == Size(words[b])
    ensures Tiles(phys, words[b := w], base, end)
  {
    var words' := words[b := w];
    forall i | 0 <= i < |phys| ensures BlockOk(phys, words', end, i) { assert BlockOk(phys, words, end, i); }
  }

  /** The outcome of splitting a free block: left whole, or cut after `need` bytes. */
  ghost predicate SplitOutcome(phys0: seq<int>, words0: Words, phys: seq<int>, words: Words, i: nat, need: nat)
    requires i < |phys0|
  {
    && phys0[i] in words0
    && var b, n := phys0[i], phys0[i] + need;
    || (words == words0 && phys == phys0)
    || (n !in phys0 && Size(words0[b]) >= need && phys == Inserted(phys0, i, n)
         && words == words0[n := Size(words0[b]) - need][b := need])
  }

  /** Marking the block that was split leaves the invariant, and one more live payload. */
  lemma HandFacts(phys0: seq<int>, words0: Words, phys: seq<int>, words: Words, base: nat, end: nat, i: nat, need: nat)
    requires i < |phys0| && Distinct(phys0) && Apart(phys0, words0) && SplitOutcome(phys0, words0, phys, words, i, need)
    requires Tiles(phys, words, base, end) && phys0[i] >= 0 && !Allocated(words0[phys0[i]])
    requires need >= MIN_BLOCK && need % 2 == 0 && Size(words0[phys0[i]]) >= need
    ensures var b := phys0[i];
            && b in phys && b in words && Size(words[b]) >= need
            && var words' := words[b := Size(words[b]) + 1];
            && Tiles(phys, words', base, end) && Apart(phys, words')
            && Allocates(ArenaOf(phys0, words0, base, end), ArenaOf(phys, words', base, end), Payload(words'[b]),
                 PtrOf(b))
  {
    hide Tiles, Apart, Allocates, ArenaOf;
    var b, n := phys0[i], phys0[i] + need;
    assert b in phys0;
    assert !UsedAt(phys0, words0, i);
    var words' := words[b := Size(words[b]) + 1];
    if words == words0 && phys == phys0 {
      ApartAllocated(phys0, words0, i, Size(words[b]) + 1);
    } else {
      SplitMembers(phys0, i, n);
      ApartSplit(phys0, words0, i, n, Size(words0[b]) - need, need + 1);
      assert words' == words0[n := Size(words0[b]) - need][b := need + 1];
    }
    TilesFlag(phys, words, base, end, b, Size(words[b]) + 1);
    ArenaAlloc(phys0, words0, phys, words', base, end, b);
  }

  lemma SplitMembers(phys: seq<int>, i: nat, n: int)
    requires i < |phys|
    ensures forall a :: a in Inserted(phys, i, n) <==> a in phys || a == n
  {
    forall a ensures a in Inserted(phys, i, n) <==> a in phys || a == n {
      assert phys == phys[..i + 1] + phys[i + 1..];
    }
  }

  /** Joining two free neighbours, both in hand. */
  lemma JoinFacts(words: Words, phys: seq<int>, base: int, end: int, i: nat,
                  nextPhys: Pointers, prevPhys: Pointers, free: seq<int>, c: int)
    requires Linked(nextPhys, prevPhys, NIL, phys) && Tiles(phys, words, base, end) && i + 1 < |phys|
    requires FreeIs(phys, words, free, {phys[i], phys[i + 1]}) && forall a :: a in phys ==> a >= 0
    requires phys[i] in words && phys[i + 1] in words && !Allocated(words[phys[i]]) && !Allocated(words[phys[i + 1]])
    requires phys[i + 1] in nextPhys && c in {phys[i], phys[i + 1]} && ApartBut(phys, words, c)
    ensures var a, n := phys[i], phys[i + 1];
            var phys', words' := Without(phys, n), words[a := Size(words[a]) + Size(words[n])];
            && a != n && nextPhys[n] != a
            && |phys'| == |phys| - 1 && phys'[i] == a && !Allocated(words'[a])
            && Tiles(phys', words', base, end)
            && Linked(nextPhys[a := nextPhys[n]], if nextPhys[n] != NIL then prevPhys[nextPhys[n] := a]
                 else prevPhys, NIL, phys')
            && FreeIs(phys', words', free, {a})
            && (forall x :: x in phys' ==> x >= 0)
            && SameLive(phys, words, phys', words')
            && ApartBut(phys', words', a)
            && (c == n ==> LeftUsed(phys', words', i))
            && (c == a && LeftUsed(phys, words, i) ==> LeftUsed(phys', words', i))
            && (c == a ==> RightUsed(phys', words', i))
  {
    hide Tiles, ApartBut, LeftUsed, RightUsed, Without;
    var a, n := phys[i], phys[i + 1];
    assert LinkOk(nextPhys, prevPhys, NIL, phys, i) && LinkOk(nextPhys, prevPhys, NIL, phys, i + 1);
    assert i + 2 < |phys| ==> phys[i + 2] in phys;
    assert phys[i] in phys && phys[i + 1] in phys;
    WithoutIs(phys, i + 1);
    JoinTiles(phys, words, base, end, i);
    LinkedRemove(nextPhys, prevPhys, NIL, phys, i + 1);
    ApartJoined(phys, words, i, c, Size(words[a]) + Size(words[n]));
    JoinedNeighbours(phys, words, i, c, Size(words[a]) + Size(words[n]));
  }

  /** The links of the block at place `i` name its neighbours. */
  lemma PhysNode(nextPhys: Pointers, prevPhys: Pointers, phys: seq<int>, i: nat)
    requires Linked(nextPhys, prevPhys, NIL, phys) && i < |phys|
    ensures phys[i] in nextPhys && nextPhys[phys[i]] == At(phys, i + 1, NIL)
    ensures phys[i] in prevPhys && prevPhys[phys[i]] == At(phys, i - 1, NIL)
    ensures phys[i] in phys && Distinct(phys) && NIL !in phys
    ensures i > 0 ==> phys[i - 1] in phys && phys[i - 1] != phys[i]
    ensures i + 1 < |phys| ==> phys[i + 1] in phys && phys[i + 1] != phys[i]
  {
    assert LinkOk(nextPhys, prevPhys, NIL, phys, i);
  }

  lemma Headers(phys: seq<int>, words: Words, base: int, end: int)
    requires Tiles(phys, words, base, end)
    ensures forall a :: a in phys ==> a in words && Size(words[a]) >= MIN_BLOCK
  {
    forall a | a in phys ensures a in words && Size(words[a]) >= MIN_BLOCK {
      assert BlockOk(phys, words, end, Index(phys, a));
    }
  }
}
