/** The memory image of the buddy allocator: the header fields of every base block and the
    heads of the free lists, related to the abstract heap. Headers of offsets that are not
    block starts hold stale or user bytes and are left unconstrained. */
module BuddyLists {
  import opened Sequences
  import opened Dyadic
  import opened BuddyHeap
  import opened Links

  const MAX_LEVELS := 32

  datatype Memory = Memory(
    level: map<int, nat>, isFree: map<int, bool>, next: Pointers, prev: Pointers, heads: seq<int>)

  type Lists = seq<seq<int>>

  /** Every offset of the heap can be read as a header. */
  ghost predicate Mapped(m: Memory, units: nat) {
    forall u {:trigger u in m.level} {:trigger u in m.isFree} {:trigger u in m.next} {:trigger u in m.prev} ::
      0 <= u < units ==> u in m.level && u in m.isFree && u in m.next && u in m.prev
  }

  ghost predicate ListOk(m: Memory, lists: Lists, h: Heap, l: nat)
    requires l < |lists| && l < |m.heads|
  {
    && Linked(m.next, m.prev, NIL, lists[l])
    && m.heads[l] == At(lists[l], 0, NIL)
    && forall b :: b in lists[l] <==> h.Free(b) && h.tiles[b] == l
  }

  ghost predicate HeaderOk(m: Memory, h: Heap, s: nat)
    requires s in h.tiles
  {
    && s in m.level && m.level[s] == h.tiles[s]
    && s in m.isFree && m.isFree[s] == h.Free(s)
  }

  /** Each free list spells exactly the free blocks of its level, and the header of every block
      outside `hand` tells its level and whether it is free. */
  ghost predicate Image(m: Memory, lists: Lists, h: Heap, hand: set<nat>) {
    && |lists| == |m.heads| == MAX_LEVELS
    && h.top < MAX_LEVELS
    && Tiling(h)
    && Mapped(m, h.units)
    && (forall l {:trigger ListOk(m, lists, h, l)} :: 0 <= l < MAX_LEVELS ==> ListOk(m, lists, h, l))
    && (forall s {:trigger HeaderOk(m, h, s)} :: s in h.tiles && s !in hand ==> HeaderOk(m, h, s))
  }

  function Pushed(lists: Lists, l: nat, b: int): Lists
    requires l < |lists|
  {
    lists[l := [b] + lists[l]]
  }

  function Removed(lists: Lists, l: nat, b: int): Lists
    requires l < |lists|
  {
    lists[l := Without(lists[l], b)]
  }

  /** push_free. */
  function Push(m: Memory, b: nat): Memory
    requires b in m.level && m.level[b] < |m.heads|
  {
    var first := m.heads[m.level[b]];
    var prev := m.prev[b := NIL];
    m.(isFree := m.isFree[b := true],
    prev := if first == NIL then prev else prev[first := b],
    next := m.next[b := first],
    heads := m.heads[m.level[b] := b])
  }

  lemma PushImage(m: Memory, lists: Lists, h: Heap, hand: set<nat>, b: nat)
    requires Image(m, lists, h, hand) && b in h.live
    requires b in m.level && m.level[b] == h.tiles[b] < MAX_LEVELS
    ensures Image(Push(m, b), Pushed(lists, h.tiles[b], b), h.(live := h.live - {b}), hand - {b})
  {
    var l := h.tiles[b];
    var m', lists', h' := Push(m, b), Pushed(lists, l, b), h.(live := h.live - {b});
    assert BlockOk(h, b);
    assert ListOk(m, lists, h, l);
    TilingIgnoresLive(h, h');
    forall k | 0 <= k < MAX_LEVELS ensures ListOk(m', lists', h', k) {
      assert ListOk(m, lists, h, k);
      if k == l {
        LinkedFront(m.next, m.prev, NIL, lists[l], b);
      } else {
        LinkedFrame(m.next, m.prev, m'.next, m'.prev, NIL, lists[k]);
      }
    }
    forall s | s in h'.tiles && s !in hand - {b} ensures HeaderOk(m', h', s) {
      if s != b { assert HeaderOk(m, h, s); }
    }
  }

  lemma TilingIgnoresLive(h: Heap, h': Heap)
    requires Tiling(h) && h' == h.(live := h'.live) && h'.live <= h.tiles.Keys
    ensures Tiling(h')
  {
    hide Pow2, Aligned;
    forall s | s in h'.tiles ensures BlockOk(h', s) { assert BlockOk(h, s); }
  }

  /** Unlinks block `b` of level `l`; `up` is the node before it in the list, NIL for the head. */
  function Unlink(m: Memory, l: nat, b: nat, up: int): Memory
    requires l < |m.heads| && b in m.next && b in m.prev
  {
    var after := m.next[b];
    var next := if up == NIL then m.next else m.next[up := after];
    m.(heads := if up == NIL then m.heads[l := after] else m.heads,
    next := next[b := NIL],
    prev := (if after == NIL then m.prev else m.prev[after := m.prev[b]])[b := NIL])
  }

  lemma UnlinkImage(m: Memory, lists: Lists, h: Heap, hand: set<nat>, b: nat, i: nat)
    requires Image(m, lists, h, hand) && h.Free(b)
    requires h.tiles[b] < MAX_LEVELS && i < |lists[h.tiles[b]]| && lists[h.tiles[b]][i] == b
    ensures b in m.next && b in m.prev
    ensures Image(Unlink(m, h.tiles[b], b, At(lists[h.tiles[b]], i - 1, NIL)), Removed(lists, h.tiles[b], b),
                  h.(live := h.live + {b}), hand + {b})
  {
    var l := h.tiles[b];
    var s := lists[l];
    assert BlockOk(h, b);
    assert ListOk(m, lists, h, l);
    assert LinkOk(m.next, m.prev, NIL, s, i);
    var m', lists', h' := Unlink(m, l, b, At(s, i - 1, NIL)), Removed(lists, l, b), h.(live := h.live + {b});
    TilingIgnoresLive(h, h');
    WithoutIs(s, i);
    LinkedRemove(m.next, m.prev, NIL, s, i);
    forall k | 0 <= k < MAX_LEVELS ensures ListOk(m', lists', h', k) {
      assert ListOk(m, lists, h, k);
      if k == l {
        var next := if i > 0 then m.next[s[i - 1] := m.next[b]] else m.next;
        var prev := if i + 1 < |s| then m.prev[s[i + 1] := m.prev[b]] else m.prev;
        LinkedFrame(next, prev, m'.next, m'.prev, NIL, lists'[l]);
      } else {
        LinkedFrame(m.next, m.prev, m'.next, m'.prev, NIL, lists[k]);
      }
    }
    forall t | t in h'.tiles && t !in hand + {b} ensures HeaderOk(m', h', t) {
      assert HeaderOk(m, h, t);
    }
  }

  /** Rewriting the free mark of a block in hand so that it tells the truth. */
  lemma MarkImage(m: Memory, lists: Lists, h: Heap, hand: set<nat>, b: nat)
    requires Image(m, lists, h, hand) && b in h.tiles
    requires b in m.level && m.level[b] == h.tiles[b]
    ensures Image(m.(isFree := m.isFree[b := h.Free(b)]), lists, h, hand - {b})
  {
    var m' := m.(isFree := m.isFree[b := h.Free(b)]);
    forall l | 0 <= l < MAX_LEVELS ensures ListOk(m', lists, h, l) { assert ListOk(m, lists, h, l); }
    forall s | s in h.tiles && s !in hand - {b} ensures HeaderOk(m', h, s) {
      if s != b { assert HeaderOk(m, h, s); }
    }
  }

  /** Writing the header of a block that is about to enter a list. */
  function Header(m: Memory, b: nat, l: nat): Memory {
    m.(level := m.level[b := l], isFree := m.isFree[b := true], next := m.next[b := NIL], prev := m.prev[b := NIL])
  }

  lemma HeaderImage(m: Memory, lists: Lists, h: Heap, hand: set<nat>, b: nat, l: nat)
    requires Image(m, lists, h, hand) && b in hand && !h.Free(b)
    ensures Image(Header(m, b, l), lists, h, hand)
  {
    ScribbleImage(m, Header(m, b, l), lists, h, hand, b);
  }

  lemma HeaderRaised(m: Memory, lists: Lists, h: Heap, b: nat, l: nat)
    requires Image(m, lists, h, {b}) && !h.Free(b)
    ensures Image(m.(level := m.level[b := l], isFree := m.isFree[b := true]), lists, h, {b})
  {
    ScribbleImage(m, m.(level := m.level[b := l], isFree := m.isFree[b := true]), lists, h, {b}, b);
  }

  /** Marking a live block as free takes it in hand. */
  lemma HeaderFreed(m: Memory, lists: Lists, h: Heap, b: nat)
    requires Image(m, lists, h, {}) && b in h.live
    ensures Image(m.(isFree := m.isFree[b := true]), lists, h, {b})
  {
    RestructureImage(m, lists, h, {}, h, {b});
    ScribbleImage(m, m.(isFree := m.isFree[b := true]), lists, h, {b}, b);
  }

  /** Writing anything into the header of an offset that is in hand or is not a block start. */
  lemma ScribbleImage(m: Memory, m': Memory, lists: Lists, h: Heap, hand: set<nat>, b: nat)
    requires Image(m, lists, h, hand) && (b in hand || b !in h.tiles) && !h.Free(b)
    requires m'.heads == m.heads
    requires forall u :: u in m.level ==> u in m'.level && (u != b ==> m'.level[u] == m.level[u])
    requires forall u :: u in m.isFree ==> u in m'.isFree && (u != b ==> m'.isFree[u] == m.isFree[u])
    requires forall u :: u in m.next ==> u in m'.next && (u != b ==> m'.next[u] == m.next[u])
    requires forall u :: u in m.prev ==> u in m'.prev && (u != b ==> m'.prev[u] == m.prev[u])
    ensures Image(m', lists, h, hand)
  {
    forall l | 0 <= l < MAX_LEVELS ensures ListOk(m', lists, h, l) {
      assert ListOk(m, lists, h, l);
      LinkedFrame(m.next, m.prev, m'.next, m'.prev, NIL, lists[l]);
    }
    forall s | s in h.tiles && s !in hand ensures HeaderOk(m', h, s) { assert HeaderOk(m, h, s); }
  }

  /** Replacing the block structure among blocks that are on no list. */
  lemma RestructureImage(m: Memory, lists: Lists, h: Heap, hand: set<nat>, h': Heap, hand': set<nat>)
    requires Image(m, lists, h, hand) && Tiling(h') && h'.top == h.top && h'.units == h.units
    requires forall b: nat :: h.Free(b) <==> h'.Free(b)
    requires forall b: nat :: h.Free(b) && h'.Free(b) ==> h'.tiles[b] == h.tiles[b]
    requires forall s :: s in h'.tiles && s !in hand' ==> s in h.tiles && s !in hand && h'.tiles[s] == h.tiles[s]
    ensures Image(m, lists, h', hand')
  {
    forall l | 0 <= l < MAX_LEVELS ensures ListOk(m, lists, h', l) { assert ListOk(m, lists, h, l); }
    forall s | s in h'.tiles && s !in hand' ensures HeaderOk(m, h', s) { assert HeaderOk(m, h, s); }
  }

  /** Cutting the block `s`, which is on no list, leaves both halves in hand. */
  lemma SplitImage(m: Memory, lists: Lists, h: Heap, s: nat)
    requires Image(m, lists, h, {}) && s in h.live && h.tiles[s] > 0
    ensures var b := s + Pow2(h.tiles[s] - 1);
            && b < h.units
            && Image(m, lists, Split(h, s).(live := h.live + {b}), {s, b})
  {
    hide Aligned, ListOk;
    var b := s + Pow2(h.tiles[s] - 1);
    var h' := Split(h, s).(live := h.live + {b});
    assert BlockOk(h, s);
    SplitKeeps(h, s);
    TilingIgnoresLive(Split(h, s), h');
    RestructureImage(m, lists, h, {}, h', {s, b});
  }

  /** The first block of a list is a free block of its level. */
  lemma FirstOfList(m: Memory, lists: Lists, h: Heap, hand: set<nat>, l: nat)
    requires Image(m, lists, h, hand) && l < MAX_LEVELS
    ensures Tiling(h)
    ensures |lists| == |m.heads| == MAX_LEVELS && m.heads[l] == At(lists[l], 0, NIL)
    ensures lists[l] != [] ==> h.Free(lists[l][0]) && h.tiles[lists[l][0] as nat] == l
  {
    assert ListOk(m, lists, h, l);
    if lists[l] != [] { assert lists[l][0] in lists[l]; }
  }

  lemma NeverNil(h: Heap, b: int)
    requires h.Free(b)
    ensures b != NIL
  {
  }

  /** What the header of the first block of a list says. */
  lemma HeadOf(m: Memory, lists: Lists, h: Heap, hand: set<nat>, l: nat)
    requires Image(m, lists, h, hand) && l < MAX_LEVELS && |lists| == MAX_LEVELS && lists[l] != [] && hand == {}
    ensures var b := lists[l][0];
            && b in m.level && m.level[b] == l && b in m.next && b in m.prev
            && m.prev[b] == NIL && m.next[b] == At(lists[l], 1, NIL)
  {
    assert ListOk(m, lists, h, l);
    var b := lists[l][0];
    assert b in lists[l];
    assert LinkOk(m.next, m.prev, NIL, lists[l], 0);
    assert HeaderOk(m, h, b);
  }

  /** A free block is on the list of its level, and the lists are those of the heap. */
  lemma OnItsList(m: Memory, lists: Lists, h: Heap, hand: set<nat>, b: nat) returns (i: nat)
    requires Image(m, lists, h, hand) && h.Free(b)
    ensures h.tiles[b] < MAX_LEVELS
    ensures i < |lists[h.tiles[b]]| && lists[h.tiles[b]][i] == b
  {
    assert BlockOk(h, b);
    assert ListOk(m, lists, h, h.tiles[b]);
    i := Index(lists[h.tiles[b]], b);
  }

  /** What the header of a block outside `hand` says. */
  lemma HeaderOf(m: Memory, lists: Lists, h: Heap, hand: set<nat>, b: nat)
    requires Image(m, lists, h, hand) && b in h.tiles
    ensures |lists| == |m.heads| == MAX_LEVELS && h.top < MAX_LEVELS && Tiling(h) && BlockOk(h, b)
    ensures b in m.level && b in m.isFree && b in m.next && b in m.prev
    ensures b !in hand ==> m.level[b] == h.tiles[b] && m.isFree[b] == h.Free(b)
  {
    assert BlockOk(h, b);
    if b !in hand { assert HeaderOk(m, h, b); }
  }

  /** Walking one node down a list. */
  lemma ListStep(m: Memory, lists: Lists, h: Heap, hand: set<nat>, l: nat, i: nat)
    requires Image(m, lists, h, hand) && l < MAX_LEVELS && |lists| == MAX_LEVELS && i < |lists[l]|
    ensures h.Free(lists[l][i]) && h.tiles[lists[l][i] as nat] == l
    ensures lists[l][i] in m.next && m.next[lists[l][i]] == At(lists[l], i + 1, NIL)
    ensures Distinct(lists[l])
  {
    assert ListOk(m, lists, h, l);
    assert lists[l][i] in lists[l];
    assert LinkOk(m.next, m.prev, NIL, lists[l], i);
  }

  // ---------------------------------------------------------------- laying out the heap

  lemma EmptyImage(m: Memory, lists: Lists, h: Heap)
    requires |lists| == |m.heads| == MAX_LEVELS && h == Heap(0, h.top, map[], {}) && h.top < MAX_LEVELS
    requires forall l :: 0 <= l < MAX_LEVELS ==> lists[l] == [] && m.heads[l] == NIL
    ensures Image(m, lists, h, {})
  {
    forall l | 0 <= l < MAX_LEVELS ensures ListOk(m, lists, h, l) { }
  }

  /** `m` holds the first blocks of the initial layout, up to `cur`. */
  ghost predicate Extends(m: map<nat, nat>, cur: nat, units: nat, top: nat) {
    cur <= units && InitTiles(0, units, top) == m + InitTiles(cur, units, top)
  }

  lemma ExtendTiles(m: map<nat, nat>, cur: nat, units: nat, top: nat)
    requires cur < units && Extends(m, cur, units, top)
    requires Aligned(cur, GreedyLevel(units - cur, top))
    ensures var l := GreedyLevel(units - cur, top);
            var end := cur + Pow2(l);
            && Extends(m[cur := l], end, units, top)
            && (end < units ==> Aligned(end, GreedyLevel(units - end, top)))
  {
    hide Aligned, GreedyLevel, Pow2;
    var l := GreedyLevel(units - cur, top);
    var end := cur + Pow2(l);
    AlignedShift(cur, l);
    if end < units {
      GreedyShrinks(units - cur, top);
      AlignedDown(end, l, GreedyLevel(units - end, top));
    }
    InitTilesAbove(end, units, top);
    assert m[cur := l] + InitTiles(end, units, top) == m + InitTiles(end, units, top)[cur := l];
  }

  lemma {:induction false} InitTilesAbove(cur: nat, units: nat, top: nat)
    requires cur <= units
    ensures forall s :: s in InitTiles(cur, units, top) ==> cur <= s
    decreases units - cur
  {
    if cur < units { InitTilesAbove(cur + Pow2(GreedyLevel(units - cur, top)), units, top); }
  }

  /** Appending a block, still on no list, to a heap laid out up to its end. */
  lemma ExtendImage(m: Memory, lists: Lists, h: Heap, l: nat, units: nat)
    requires Image(m, lists, h, {}) && h.live == {} && l <= h.top && Aligned(h.units, l)
    requires h.units + Pow2(l) <= units && Mapped(m, units)
    ensures Image(m, lists, Heap(h.units + Pow2(l), h.top, h.tiles[h.units := l], {h.units}), {h.units})
    ensures h.units !in h.tiles
  {
    hide Pow2, Aligned, Tiling, BlockOk;
    var cur := h.units;
    var g := Heap(cur + Pow2(l), h.top, h.tiles[cur := l], {cur});
    ExtendTiling(h, l);
    forall k | 0 <= k < MAX_LEVELS ensures ListOk(m, lists, g, k) { assert ListOk(m, lists, h, k); }
    forall s | s in g.tiles && s !in {cur} ensures HeaderOk(m, g, s) { assert HeaderOk(m, h, s); }
  }

  lemma ExtendTiling(h: Heap, l: nat)
    requires Tiling(h) && h.live == {} && l <= h.top && Aligned(h.units, l)
    ensures Tiling(Heap(h.units + Pow2(l), h.top, h.tiles[h.units := l], {h.units}))
    ensures h.units !in h.tiles
  {
    hide Pow2, Aligned;
    var cur := h.units;
    var g := Heap(cur + Pow2(l), h.top, h.tiles[cur := l], {cur});
    forall s | s in h.tiles ensures s < cur { assert BlockOk(h, s); }
    forall s | s in g.tiles ensures BlockOk(g, s) {
      if s != cur { assert BlockOk(h, s); }
      ExtendBlockOk(h, l, s);
    }
    forall s, t | s in g.tiles && t in g.tiles && s < t ensures g.End(s) <= t { ExtendOrder(h, s, t); }
  }

  lemma ExtendOrder(h: Heap, s: nat, t: nat)
    requires Tiling(h) && s in h.tiles && s < t && (t in h.tiles || t == h.units)
    ensures h.End(s) <= t
  {
    hide Pow2, Aligned;
    assert BlockOk(h, s);
  }

  lemma ExtendBlockOk(h: Heap, l: nat, s: nat)
    requires l <= h.top && Aligned(h.units, l)
    requires if s in h.tiles then s != h.units && BlockOk(h, s) else s == h.units
    ensures BlockOk(Heap(h.units + Pow2(l), h.top, h.tiles[h.units := l], {h.units}), s)
  {
    hide Pow2, Aligned;
  }

  // ---------------------------------------------------------------- what splitting and coalescing do

  /** split_down as list operations: the block moves down, its upper halves stay behind. */
  function SplitLists(lists: Lists, s: nat, from: nat, to: nat): (r: Lists)
    requires from < |lists|
    ensures |r| == |lists|
    decreases from
  {
    if from <= to then lists
    else
      var l := from - 1;
      SplitLists(Pushed(Pushed(Removed(lists, from, s), l, s + Pow2(l)), l, s), s, l, to)
  }

  function SplitHeap(h: Heap, s: nat, to: nat): Heap
    requires s in h.tiles
    decreases h.tiles[s]
  {
    if h.tiles[s] <= to then h else SplitHeap(Split(h, s), s, to)
  }

  /** Splitting touches no other block. */
  lemma {:induction false} SplitHeapKeeps(h: Heap, s: nat, to: nat)
    requires Tiling(h) && s in h.tiles
    ensures forall t :: t in h.tiles && t != s ==>
              t in SplitHeap(h, s, to).tiles && SplitHeap(h, s, to).tiles[t] == h.tiles[t]
    decreases h.tiles[s]
  {
    hide Tiling;
    if h.tiles[s] > to {
      SplitKeeps(h, s);
      SplitHeapKeeps(Split(h, s), s, to);
    }
  }

  /** The first level from `l` on whose list is not empty. */
  function FirstLevel(lists: Lists, l: nat): (k: nat)
    requires l <= |lists|
    ensures l <= k <= |lists|
    ensures k < |lists| ==> lists[k] != []
    ensures forall j :: l <= j < k ==> lists[j] == []
    decreases |lists| - l
  {
    if l == |lists| || lists[l] != [] then l else FirstLevel(lists, l + 1)
  }

  /** A request of level `ord` can be served exactly when some list from `ord` on is not empty. */
  lemma FirstLevelServes(m: Memory, lists: Lists, h: Heap, ord: nat)
    requires Image(m, lists, h, {}) && ord < MAX_LEVELS == |lists|
    ensures FirstLevel(lists, ord) < MAX_LEVELS <==> exists s: nat :: h.Free(s) && ord <= h.tiles[s]
    ensures FirstLevel(lists, ord) < MAX_LEVELS ==> FirstLevel(lists, ord) <= h.top
  {
    var k := FirstLevel(lists, ord);
    if k < MAX_LEVELS {
      FirstOfList(m, lists, h, {}, k);
      assert BlockOk(h, lists[k][0]);
    }
    if s: nat :| h.Free(s) && ord <= h.tiles[s] {
      var i := OnItsList(m, lists, h, {}, s);
    }
  }

  lemma MoreLiveCanonical(h: Heap, s: nat)
    requires Canonical(h)
    ensures Canonical(h.(live := h.live + {s}))
  {
    forall t | t in h.tiles ensures !Mergeable(h.(live := h.live + {s}), t) {
      assert !Mergeable(h, t);
    }
  }

  lemma LessLiveCanonical(h: Heap, s: nat)
    requires Canonical(h) && Tiling(h) && s in h.live
    ensures CanonicalBut(h.(live := h.live - {s}), s)
  {
    var g := h.(live := h.live - {s});
    forall t | t in g.tiles && t != s && Buddy(t, g.tiles[t]) != s ensures !Mergeable(g, t) {
      assert !Mergeable(h, t);
    }
  }

  lemma SplitUnfold(h: Heap, lists: Lists, s: nat, to: nat)
    requires s in h.tiles && h.tiles[s] < |lists|
    ensures h.tiles[s] <= to ==> SplitHeap(h, s, to) == h && SplitLists(lists, s, h.tiles[s], to) == lists
    ensures h.tiles[s] > to ==>
              var l := h.tiles[s] - 1;
              && SplitHeap(h, s, to) == SplitHeap(Split(h, s), s, to)
              && SplitLists(lists, s, h.tiles[s], to)
                 == SplitLists(Pushed(Pushed(Removed(lists, h.tiles[s], s), l, s + Pow2(l)), l, s), s, l, to)
  {
  }

  /** The lower of a block and its buddy. */
  function Lower(s: nat, l: nat): int {
    if Aligned(s, l + 1) then s else Buddy(s, l)
  }

  /** What the coalescing loop knows of a block in hand whose buddy is free. */
  lemma ToJoin(h: Heap, s: nat)
    requires Tiling(h) && s in h.live && Mergeable(h.(live := h.live - {s}), s)
    ensures var l := h.tiles[s];
            var h0, b, low := h.(live := h.live - {s}), Buddy(s, l), Lower(s, l);
            && h.Free(b) && b != s && h.tiles[b] == l < h.top
            && low == (if b < s then b else s) && low >= 0 && low in h.tiles && h.tiles[low] == l
            && Tiling(h0) && Mergeable(h0, low) && Aligned(low, l + 1)
            && h0.End(low) == (if b < s then s else b)
  {
    hide Pow2, Aligned;
    var l := h.tiles[s];
    assert BlockOk(h, s);
    BuddyFacts(s, l);
    TilingIgnoresLive(h, h.(live := h.live - {s}));
  }

  /** Joining two neighbours that are on no list concerns no free block and no other header. */
  lemma MergeOffList(h: Heap, low: nat, up: nat)
    requires low in h.live && up in h.live && h.live <= h.tiles.Keys && up == h.End(low)
    ensures var h' := Merge(h, low).(live := h.live - {low, up} + {low});
            && h'.live <= h'.tiles.Keys && h'.top == h.top && h'.units == h.units
            && (forall t: nat :: h.Free(t) <==> h'.Free(t))
            && (forall t: nat :: h.Free(t) && h'.Free(t) ==> h'.tiles[t] == h.tiles[t])
            && (forall t :: t in h'.tiles && t !in {low} ==>
                 t in h.tiles && t !in {low, up} && h'.tiles[t] == h.tiles[t])
  {
  }

  lemma MergeLive(h: Heap, h0: Heap, s: nat)
    requires s in h.tiles && h0 == h.(live := h0.live)
    ensures Merge(h0, s) == Merge(h, s).(live := h0.live)
  {
  }

  /** The block in hand after a join, put aside, leaves the merged heap. */
  lemma JoinedHeap(h: Heap, s: nat, b: nat, low: nat)
    requires low in h.tiles && s in h.live && b !in h.live && low in {s, b}
    ensures var g := Merge(h, low).(live := h.live + {b} - {s, b} + {low});
            && low in g.live && g.tiles[low] == h.tiles[low] + 1 && g.units == h.units && g.top == h.top
            && g.(live := g.live - {low}) == Merge(h.(live := h.live - {s}), low)
  {
    assert h.live + {b} - {s, b} + {low} - {low} == h.live - {s};
  }

  /** Joining the blocks `s` and its buddy, both on no list, leaves the joined block in hand. */
  lemma MergeImage(m: Memory, lists: Lists, h: Heap, s: nat, b: nat)
    requires s in h.live && b in h.live && s != b && Image(m, lists, h, {s, b})
    requires h.live <= h.tiles.Keys && Mergeable(h.(live := h.live - {s, b}), s) && b == Buddy(s, h.tiles[s])
    ensures var low: nat := Lower(s, h.tiles[s]);
            && low in h.tiles
            && var h' := Merge(h, low).(live := h.live - {s, b} + {low});
            h'.live <= h'.tiles.Keys && Image(m, lists, h', {low})
  {
    hide Pow2, Aligned, Buddy, ListOk, HeaderOk, BlockOk, Merge, Mergeable, Linked, Mapped;
    var h1 := h.(live := h.live - {b});
    var h0 := h.(live := h.live - {s, b});
    assert h1.(live := h1.live - {s}) == h0;
    TilingIgnoresLive(h, h1);
    ToJoin(h1, s);
    var low: nat := Lower(s, h.tiles[s]);
    MergeTiling(h0, low);
    var h' := Merge(h, low).(live := h.live - {s, b} + {low});
    var up := if low == s then b else s;
    assert {s, b} == {low, up};
    MergeOffList(h, low, up);
    assert h' == Merge(h0, low).(live := h'.live) by { MergeLive(h, h0, low); }
    TilingIgnoresLive(Merge(h0, low), h');
    RestructureImage(m, lists, h, {s, b}, h', {low});
  }

  /** coalesce as an operation on the free block `s`: swallow the buddy while it is free. */
  function Coalesced(h: Heap, s: nat, lists: Lists): (Heap, Lists)
    requires s in h.tiles && h.tiles[s] <= h.top < |lists|
    decreases h.top - h.tiles[s]
  {
    var l := h.tiles[s];
    if !Mergeable(h, s) then (h, Pushed(lists, l, s))
    else
      var low: nat := Lower(s, l);
      Coalesced(Merge(h, low), low, Removed(lists, l, Buddy(s, l)))
  }

  lemma CoalescedUnfold(h: Heap, s: nat, lists: Lists)
    requires s in h.tiles && h.tiles[s] <= h.top < |lists|
    ensures !Mergeable(h, s) ==> Coalesced(h, s, lists) == (h, Pushed(lists, h.tiles[s], s))
    ensures Mergeable(h, s) ==>
              Coalesced(h, s, lists)
              == var low: nat := Lower(s, h.tiles[s]);
                 Coalesced(Merge(h, low), low, Removed(lists, h.tiles[s], Buddy(s, h.tiles[s])))
  {
  }

  lemma NothingToJoin(h: Heap, s: nat)
    requires s in h.tiles && CanonicalBut(h, s) && !Mergeable(h, s) && Tiling(h)
    ensures Canonical(h)
  {
    forall t | t in h.tiles ensures !Mergeable(h, t) {
      assert BlockOk(h, t);
      BuddyFacts(t, h.tiles[t]);
    }
  }
}
