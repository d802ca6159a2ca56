/** The buddy heap as a value: which dyadic blocks exist and which of them are live.
    Offsets and sizes are counted in base blocks of 64 bytes. The block structure kept by
    Kernel/mm/mm_buddy.c is a tiling of the heap, and between operations the tiling is the
    coarsest one the live blocks allow. */
module BuddyHeap {
  import opened Dyadic

  /** `tiles` maps the start of every block to its level; `live` holds the allocated starts. */
  datatype Heap = Heap(units: nat, top: nat, tiles: map<nat, nat>, live: set<nat>) {
    function End(s: nat): nat
      requires s in tiles
    {
      s + Pow2(tiles[s])
    }

    predicate Free(s: int) {
      s >= 0 && s in tiles && s !in live
    }
  }

  predicate BlockOk(h: Heap, s: nat)
    requires s in h.tiles
  {
    && h.tiles[s] <= h.top
    && Aligned(s, h.tiles[s])
    && h.End(s) <= h.units
    && (h.End(s) == h.units || h.End(s) in h.tiles)
  }

  /** The blocks cover `[0, units)` without overlap, each at a multiple of its own size. */
  ghost predicate Tiling(h: Heap) {
    && (h.units > 0 ==> 0 in h.tiles)
    && h.live <= h.tiles.Keys
    && (forall s {:trigger BlockOk(h, s)} :: s in h.tiles ==> BlockOk(h, s))
    && (forall s, t :: s in h.tiles && t in h.tiles && s < t ==> h.End(s) <= t)
  }

  /** `s` and its buddy are both free blocks of one level below the top: they should be one. */
  predicate Mergeable(h: Heap, s: nat)
    requires s in h.tiles
  {
    && h.tiles[s] < h.top
    && h.Free(s)
    && var b := Buddy(s, h.tiles[s]);
    h.Free(b) && h.tiles[b] == h.tiles[s]
  }

  ghost predicate Canonical(h: Heap) {
    forall s :: s in h.tiles ==> !Mergeable(h, s)
  }

  /** Canonical except for pairs that involve `x`: the state inside the coalescing loop. */
  ghost predicate CanonicalBut(h: Heap, x: nat) {
    forall s :: s in h.tiles && s != x && Buddy(s, h.tiles[s]) != x ==> !Mergeable(h, s)
  }

  ghost predicate Inv(h: Heap) {
    Tiling(h) && Canonical(h)
  }

  // ---------------------------------------------------------------- tiling

  /** Every unit of the heap lies in a block. */
  lemma Covering(h: Heap, u: nat) returns (s: nat)
    requires Tiling(h) && u < h.units
    ensures s in h.tiles && s <= u < h.End(s)
  {
    s := 0;
    while h.End(s) <= u
      invariant s in h.tiles && s <= u
      decreases u - s
    {
      assert BlockOk(h, s);
      s := h.End(s);
    }
  }

  /** ... and in one only. */
  lemma CoveringUnique(h: Heap, u: nat, s: nat, t: nat)
    requires Tiling(h)
    requires s in h.tiles && s <= u < h.End(s)
    requires t in h.tiles && t <= u < h.End(t)
    ensures s == t
  {
  }

  /** An offset that find_buddy accepts is the start of a current block, of no larger level. */
  lemma BuddyIsBlock(h: Heap, s: nat)
    requires Tiling(h) && s in h.tiles
    requires Buddy(s, h.tiles[s]) + Pow2(h.tiles[s]) <= h.units
    ensures Buddy(s, h.tiles[s]) in h.tiles
    ensures h.tiles[Buddy(s, h.tiles[s])] <= h.tiles[s]
  {
    hide Aligned;
    var l := h.tiles[s];
    var b := Buddy(s, l);
    assert BlockOk(h, s);
    BuddyFacts(s, l);
    var t: nat := Covering(h, b);
    assert BlockOk(h, t);
    if h.tiles[t] <= l {
      Nested(t, h.tiles[t], b, l);
    } else {
      // the larger block would hold the aligned pair, and so `s` as well
      var low: nat := if Aligned(s, l + 1) then s else b;
      Nested(low, l + 1, t, h.tiles[t]);
      assert false;
    }
  }

  // ---------------------------------------------------------------- one step of the structure

  /** Cuts block `s` in two halves. */
  function Split(h: Heap, s: nat): Heap
    requires s in h.tiles && h.tiles[s] > 0
  {
    var l := h.tiles[s] - 1;
    h.(tiles := h.tiles[s := l][s + Pow2(l) := l])
  }

  lemma SplitKeeps(h: Heap, s: nat)
    requires Tiling(h) && s in h.tiles && h.tiles[s] > 0
    ensures Tiling(Split(h, s))
    ensures s + Pow2(h.tiles[s] - 1) !in h.tiles
  {
    var g := Split(h, s);
    assert BlockOk(h, s);
    forall t | t in g.tiles ensures BlockOk(g, t) { SplitBlockOk(h, s, t); }
    forall t, u | t in g.tiles && u in g.tiles && t < u ensures g.End(t) <= u { SplitOrder(h, s, t, u); }
  }

  lemma SplitBlockOk(h: Heap, s: nat, t: nat)
    requires Tiling(h) && s in h.tiles && h.tiles[s] > 0
    requires t in Split(h, s).tiles
    ensures BlockOk(Split(h, s), t)
  {
    hide Pow2, Aligned;
    var l := h.tiles[s] - 1;
    assert BlockOk(h, s);
    if t == s || t == s + Pow2(l) {
      Pow2Step(l);
      Halves(s, l);
    } else {
      assert BlockOk(h, t);
    }
  }

  lemma SplitOrder(h: Heap, s: nat, t: nat, u: nat)
    requires Tiling(h) && s in h.tiles && h.tiles[s] > 0
    requires t in Split(h, s).tiles && u in Split(h, s).tiles && t < u
    ensures Split(h, s).End(t) <= u
  {
    var b := s + Pow2(h.tiles[s] - 1);
    if t in h.tiles && u in h.tiles && t != b && u != b {
      assert h.End(t) <= u;
    } else if t == b {
      assert h.End(s) <= u;
    }
  }

  lemma SplitCanonical(h: Heap, s: nat)
    requires Tiling(h) && s in h.tiles && h.tiles[s] > 0
    requires s + Pow2(h.tiles[s] - 1) !in h.tiles
    requires Canonical(h.(live := h.live + {s}))
    ensures Canonical(Split(h, s).(live := h.live + {s}))
  {
    hide Pow2, Aligned, Buddy;
    var l := h.tiles[s] - 1;
    var b := s + Pow2(l);
    var h' := h.(live := h.live + {s});
    var g := Split(h, s).(live := h.live + {s});
    assert BlockOk(h, s);
    Halves(s, l);
    forall t | t in g.tiles ensures !Mergeable(g, t) {
      if t != b && t != s {
        assert BlockOk(h, t);
        assert !Mergeable(h', t);
        BuddyFacts(t, h.tiles[t]);
      }
    }
  }

  /** Joins the block at `s` with its upper neighbour of the same level. */
  function Merge(h: Heap, s: nat): Heap
    requires s in h.tiles
  {
    h.(tiles := (h.tiles - {s + Pow2(h.tiles[s])})[s := h.tiles[s] + 1])
  }

  lemma MergeTiling(h: Heap, s: nat)
    requires Tiling(h) && s in h.tiles && Mergeable(h, s) && Aligned(s, h.tiles[s] + 1)
    ensures Tiling(Merge(h, s))
  {
    var g := Merge(h, s);
    forall t | t in g.tiles ensures BlockOk(g, t) { MergeBlockOk(h, s, t); }
    forall t, u | t in g.tiles && u in g.tiles && t < u ensures g.End(t) <= u { MergeOrder(h, s, t, u); }
  }

  /** Swallowing the buddy of the one block that may have one. */
  lemma MergeKeeps(h: Heap, s: nat, x: nat)
    requires Tiling(h) && s in h.tiles && Mergeable(h, s) && Aligned(s, h.tiles[s] + 1)
    requires x == s || x == h.End(s)
    requires CanonicalBut(h, x)
    ensures CanonicalBut(Merge(h, s), s)
  {
    var g := Merge(h, s);
    forall t | t in g.tiles && t != s && Buddy(t, g.tiles[t]) != s ensures !Mergeable(g, t) {
      MergeCanonical(h, s, x, t);
    }
  }

  lemma MergeOrder(h: Heap, s: nat, t: nat, u: nat)
    requires Tiling(h) && s in h.tiles && Mergeable(h, s) && Aligned(s, h.tiles[s] + 1)
    requires t in Merge(h, s).tiles && u in Merge(h, s).tiles && t < u
    ensures Merge(h, s).End(t) <= u
  {
    if t == s {
      assert h.End(s) <= u;
      assert h.End(h.End(s)) <= u;
    } else {
      assert h.End(t) <= u;
    }
  }

  lemma MergeCanonical(h: Heap, s: nat, x: nat, t: nat)
    requires Tiling(h) && s in h.tiles && Mergeable(h, s) && Aligned(s, h.tiles[s] + 1)
    requires x == s || x == h.End(s)
    requires CanonicalBut(h, x)
    requires t in Merge(h, s).tiles && t != s && Buddy(t, Merge(h, s).tiles[t]) != s
    ensures !Mergeable(Merge(h, s), t)
  {
    hide Pow2, Aligned, Tiling;
    if Buddy(t, h.tiles[t]) != x { assert !Mergeable(h, t); }
  }

  lemma MergeBlockOk(h: Heap, s: nat, t: nat)
    requires Tiling(h) && s in h.tiles && Mergeable(h, s) && Aligned(s, h.tiles[s] + 1)
    requires t in Merge(h, s).tiles
    ensures BlockOk(Merge(h, s), t)
  {
    hide Pow2, Aligned, Buddy;
    assert BlockOk(h, t);
    Halves(s, h.tiles[s]);
    if t == s {
      MergedBlockOk(h, s);
    } else if t < s {
      assert h.End(t) <= s;
    }
  }

  lemma MergedBlockOk(h: Heap, s: nat)
    requires Tiling(h) && s in h.tiles && Mergeable(h, s) && Aligned(s, h.tiles[s] + 1)
    ensures BlockOk(Merge(h, s), s)
  {
    hide Pow2, Aligned, Buddy;
    Halves(s, h.tiles[s]);
    Pow2Step(h.tiles[s]);
    assert BlockOk(h, h.End(s));
    assert Merge(h, s).End(s) == h.End(h.End(s));
  }

  // ---------------------------------------------------------------- canonical form

  /** A dyadic stretch with no live block in it lies inside a single free block. */
  lemma {:induction false} Cohesion(h: Heap, a: nat, k: nat) returns (t: nat)
    requires Inv(h) && Aligned(a, k) && k <= h.top && a + Pow2(k) <= h.units
    requires forall s :: s in h.live ==> h.End(s) <= a || a + Pow2(k) <= s
    ensures h.Free(t) && t <= a && a + Pow2(k) <= h.End(t)
    decreases k
  {
    hide Tiling, Canonical, Aligned;
    if k == 0 {
      t := Covering(h, a);
    } else {
      Pow2Step(k - 1);
      Halves(a, k - 1);
      t := Cohesion(h, a, k - 1);
      var t' := Cohesion(h, a + Pow2(k - 1), k - 1);
      CohesionJoin(h, a, k, t, t');
    }
  }

  /** Blocks that hold the two halves of a stretch are one block. */
  lemma CohesionJoin(h: Heap, a: nat, k: nat, t: nat, t': nat)
    requires Inv(h) && k > 0 && Aligned(a, k) && k <= h.top
    requires h.Free(t) && t <= a && a + Pow2(k - 1) <= h.End(t)
    requires h.Free(t') && t' <= a + Pow2(k - 1) && a + Pow2(k) <= h.End(t')
    ensures a + Pow2(k) <= h.End(t)
  {
    hide Pow2, Aligned, Buddy;
    assert BlockOk(h, t) && BlockOk(h, t');
    Pow2Step(k - 1);
    LevelAtLeast(h, t, k - 1, a);
    LevelAtLeast(h, t', k - 1, a + Pow2(k - 1));
    if h.tiles[t] >= k {
      Nested(a, k, t, h.tiles[t]);
    } else if h.tiles[t'] >= k {
      Nested(a, k, t', h.tiles[t']);
    } else {
      Halves(a, k - 1);
      assert false;
    }
  }

  lemma LevelAtLeast(h: Heap, t: nat, k: nat, a: nat)
    requires Tiling(h) && t in h.tiles && t <= a && a + Pow2(k) <= h.End(t)
    ensures h.tiles[t] >= k
  {
    if h.tiles[t] < k { Pow2Monotone(h.tiles[t], k); }
  }

  /** Whatever the order of the operations that led there, the free blocks are a function of
      the live ones: two reachable heaps with the same live blocks are the same heap. */
  lemma DeterminedByLive(g: Heap, h: Heap)
    requires Inv(g) && Inv(h)
    requires g.units == h.units && g.top == h.top && g.live == h.live
    requires forall s :: s in g.live ==> g.tiles[s] == h.tiles[s]
    ensures g == h
  {
    forall s | s in g.tiles ensures s in h.tiles && h.tiles[s] == g.tiles[s] {
      if s !in g.live { SameFree(g, h, s); }
    }
    forall s | s in h.tiles ensures s in g.tiles && h.tiles[s] == g.tiles[s] {
      if s !in h.live { SameFree(h, g, s); }
    }
    assert g.tiles == h.tiles;
  }

  lemma SameFree(g: Heap, h: Heap, s: nat)
    requires Inv(g) && Inv(h)
    requires g.units == h.units && g.top == h.top && g.live == h.live
    requires forall t :: t in g.live ==> g.tiles[t] == h.tiles[t]
    requires g.Free(s)
    ensures h.Free(s) && h.tiles[s] == g.tiles[s]
  {
    hide Pow2, Aligned, Canonical;
    assert BlockOk(g, s);
    var t := Cohesion(h, s, g.tiles[s]);
    assert BlockOk(h, t);
    var s' := Cohesion(g, t, h.tiles[t]);
    CoveringUnique(g, s, s, s');
    LevelAtLeast(h, t, g.tiles[s], s);
    LevelAtLeast(g, s, h.tiles[t], t);
  }

  // ---------------------------------------------------------------- the initial decomposition

  /** The largest level that fits in `rest` units. */
  function GreedyLevel(rest: nat, top: nat): (l: nat)
    requires rest > 0
    ensures l <= top && Pow2(l) <= rest
    ensures l < top ==> rest < Pow2(l + 1)
  {
    if top == 0 || Pow2(top) <= rest then top else GreedyLevel(rest, top - 1)
  }

  /** The blocks mm_init lays out from `cur` to the end of the heap, largest first. */
  function InitTiles(cur: nat, units: nat, top: nat): map<nat, nat>
    requires cur <= units
    decreases units - cur
  {
    if cur == units then map[]
    else
      var l := GreedyLevel(units - cur, top);
      InitTiles(cur + Pow2(l), units, top)[cur := l]
  }

  function InitHeap(units: nat, top: nat): Heap {
    Heap(units, top, InitTiles(0, units, top), {})
  }

  /** What mm_init has laid out from `cur`: consecutive aligned blocks, of strictly falling level
      below the top. */
  ghost predicate Laid(m: map<nat, nat>, cur: nat, units: nat, top: nat) {
    && (cur < units ==> cur in m)
    && (forall s :: s in m ==> cur <= s)
    && (forall s {:trigger BlockOk(Heap(units, top, m, {}), s)} :: s in m ==> BlockOk(Heap(units, top, m, {}), s))
    && (forall s, t :: s in m && t in m && s < t ==> s + Pow2(m[s]) <= t)
    && (forall s, t :: s in m && t in m && s < t && m[s] < top ==> m[t] < m[s])
  }

  lemma {:induction false} InitTilesLaid(cur: nat, units: nat, top: nat)
    requires cur <= units
    requires cur < units ==> Aligned(cur, GreedyLevel(units - cur, top))
    ensures Laid(InitTiles(cur, units, top), cur, units, top)
    ensures forall s :: s in InitTiles(cur, units, top) ==>
                          InitTiles(cur, units, top)[s] <= GreedyLevel(units - cur, top)
    decreases units - cur
  {
    hide Laid, Aligned, Pow2, GreedyLevel;
    if cur == units {
      LaidEmpty(units, top);
    } else {
      var l := GreedyLevel(units - cur, top);
      var next := cur + Pow2(l);
      AlignedShift(cur, l);
      if next < units {
        GreedyShrinks(units - cur, top);
        AlignedDown(next, l, GreedyLevel(units - next, top));
      }
      InitTilesLaid(next, units, top);
      LaidCons(InitTiles(next, units, top), cur, l, units, top);
    }
  }

  lemma LaidEmpty(units: nat, top: nat)
    ensures Laid(map[], units, units, top)
  {
  }

  lemma LaidCons(m: map<nat, nat>, cur: nat, l: nat, units: nat, top: nat)
    requires cur + Pow2(l) <= units && Aligned(cur, l) && l <= top
    requires Laid(m, cur + Pow2(l), units, top)
    requires forall t :: t in m && l < top ==> m[t] < l
    ensures Laid(m[cur := l], cur, units, top)
  {
    hide Pow2, Aligned;
    var m' := m[cur := l];
    forall s | s in m' ensures BlockOk(Heap(units, top, m', {}), s) {
      if s != cur { assert BlockOk(Heap(units, top, m, {}), s); }
    }
  }

  lemma GreedyShrinks(rest: nat, top: nat)
    requires rest > 0 && rest > Pow2(GreedyLevel(rest, top))
    ensures var l, l' := GreedyLevel(rest, top), GreedyLevel(rest - Pow2(GreedyLevel(rest, top)), top);
            l' <= l && (l < top ==> l' < l)
  {
    var l := GreedyLevel(rest, top);
    var l' := GreedyLevel(rest - Pow2(l), top);
    if l < top && l' >= l { Pow2Monotone(l, l'); }
  }

  lemma InitInv(units: nat, top: nat)
    ensures Inv(InitHeap(units, top))
  {
    if units > 0 { ZeroAligned(GreedyLevel(units, top)); }
    InitTilesLaid(0, units, top);
    var h := InitHeap(units, top);
    forall s | s in h.tiles ensures !Mergeable(h, s) {
      var b := Buddy(s, h.tiles[s]);
      assert BlockOk(h, s);
      BuddyFacts(s, h.tiles[s]);
      assert b >= 0 && b in h.tiles && h.tiles[s] < h.top ==> h.tiles[b] != h.tiles[s];
    }
  }

  /** Once nothing is live, the heap is the one mm_init built. */
  lemma AllFreeIsInitial(h: Heap)
    requires Inv(h) && h.live == {}
    ensures h == InitHeap(h.units, h.top)
  {
    InitInv(h.units, h.top);
    DeterminedByLive(h, InitHeap(h.units, h.top));
  }
}
