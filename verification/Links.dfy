/** Intrusive doubly linked lists. The link fields of all nodes are two maps; a list is
    delimited by an end marker that is not a node of it: NULL for the buddy free lists and
    the process queues, the sentinel for the first-fit free list. */
module Links {
  import opened Sequences

  const NIL := -1

  type Pointers = map<int, int>

  /** The node at position `i`, or the end marker beyond either end. */
  function At(s: seq<int>, i: int, end: int): int {
    if 0 <= i < |s| then s[i] else end
  }

  lemma AtMember(s: seq<int>, i: int, end: int)
    ensures 0 <= i < |s| ==> At(s, i, end) in s
  {
  }

  ghost predicate LinkOk(next: Pointers, prev: Pointers, end: int, s: seq<int>, i: nat)
    requires i < |s|
  {
    && s[i] in next && next[s[i]] == At(s, i + 1, end)
    && s[i] in prev && prev[s[i]] == At(s, i - 1, end)
  }

  /** The link fields spell out the sequence `s` in both directions. */
  ghost predicate Linked(next: Pointers, prev: Pointers, end: int, s: seq<int>) {
    && end !in s
    && Distinct(s)
    && (forall i {:trigger LinkOk(next, prev, end, s, i)} :: 0 <= i < |s| ==> LinkOk(next, prev, end, s, i))
  }

  function Index(s: seq<int>, x: int): (i: nat)
    requires x in s
    ensures i < |s| && s[i] == x
  {
    if s[0] == x then 0 else 1 + Index(s[1..], x)
  }

  /** `s` with the first occurrence of `x` taken out. */
  function Without(s: seq<int>, x: int): (r: seq<int>)
    ensures x !in s ==> r == s
    ensures x in s ==> |r| == |s| - 1
    ensures forall y :: y in r ==> y in s
    ensures forall y :: y in s && y != x ==> y in r
  {
    if s == [] then []
    else if s[0] == x then s[1..]
    else [s[0]] + Without(s[1..], x)
  }

  lemma WithoutIs(s: seq<int>, i: nat)
    requires i < |s| && Distinct(s)
    ensures Without(s, s[i]) == s[..i] + s[i + 1..]
    ensures Distinct(Without(s, s[i]))
    ensures s[i] !in Without(s, s[i])
  {
    hide Without;
    WithoutCuts(s, i);
  }

  lemma {:induction false} WithoutCuts(s: seq<int>, i: nat)
    requires i < |s| && forall j :: 0 <= j < i ==> s[j] != s[i]
    ensures Without(s, s[i]) == s[..i] + s[i + 1..]
  {
    if i > 0 {
      var t := s[1..];
      assert t[i - 1] == s[i] && forall j :: 0 <= j < i - 1 ==> t[j] == s[j + 1];
      WithoutCuts(t, i - 1);
      assert Without(s, s[i]) == [s[0]] + Without(t, s[i]);
      assert t[..i - 1] == s[1..i] && t[i..] == s[i + 1..];
      assert s[..i] == [s[0]] + s[1..i];
    }
  }

  lemma WithoutEnds(s: seq<int>, i: nat, end: int)
    requires i < |s| && Distinct(s)
    ensures var t := Without(s, s[i]);
            && At(t, 0, end) == (if i > 0 then s[0] else At(s, 1, end))
            && At(t, |t| - 1, end) == (if i + 1 < |s| then s[|s| - 1] else At(s, i - 1, end))
            && s[i] !in t
  {
    hide Without, Distinct;
    WithoutIs(s, i);
    var t := s[..i] + s[i + 1..];
    assert i + 1 < |s| ==> t[|t| - 1] == s[|s| - 1];
  }

  /** Two sequences spelled by the same links from the same head are equal. */
  lemma {:induction false} LinkedUnique(next: Pointers, prev: Pointers, end: int, s: seq<int>, t: seq<int>, k: nat)
    requires Linked(next, prev, end, s) && Linked(next, prev, end, t)
    requires At(s, 0, end) == At(t, 0, end)
    requires k <= |s|
    ensures k <= |t| && s[..k] == t[..k] && At(s, k, end) == At(t, k, end)
  {
    if k > 0 {
      LinkedUnique(next, prev, end, s, t, k - 1);
      assert LinkOk(next, prev, end, s, k - 1);
      assert k - 1 < |t| ==> LinkOk(next, prev, end, t, k - 1);
      assert s[k - 1] == t[k - 1];
      assert s[..k] == s[..k - 1] + [s[k - 1]];
      assert t[..k] == t[..k - 1] + [t[k - 1]];
    }
  }

  /** Writing the links of other nodes leaves a list as it is. */
  lemma LinkedFrame(next: Pointers, prev: Pointers, next': Pointers, prev': Pointers, end: int, s: seq<int>)
    requires Linked(next, prev, end, s)
    requires forall x :: x in s && x in next ==> x in next' && next'[x] == next[x]
    requires forall x :: x in s && x in prev ==> x in prev' && prev'[x] == prev[x]
    ensures Linked(next', prev', end, s)
  {
    forall i | 0 <= i < |s| ensures LinkOk(next', prev', end, s, i) {
      var x := s[i];
      assert x in s;
      assert LinkOk(next, prev, end, s, i);
      assert x in next && x in prev;
    }
  }

  /** Linking a fresh node in front of the first one. */
  lemma LinkedFront(next: Pointers, prev: Pointers, end: int, s: seq<int>, b: int)
    requires Linked(next, prev, end, s) && b !in s && b != end
    ensures var prev' := prev[b := end];
            Linked(next[b := At(s, 0, end)], if s == [] then prev' else prev'[s[0] := b], end, [b] + s)
  {
    var t := [b] + s;
    var next', prev' := next[b := At(s, 0, end)], prev[b := end];
    prev' := if s == [] then prev' else prev'[s[0] := b];
    forall i | 0 <= i < |t| ensures LinkOk(next', prev', end, t, i) {
      if i > 0 { assert LinkOk(next, prev, end, s, i - 1); }
    }
  }

  /** Linking a fresh node behind the last one. */
  lemma LinkedBack(next: Pointers, prev: Pointers, end: int, s: seq<int>, b: int)
    requires Linked(next, prev, end, s) && b !in s && b != end
    ensures var next' := next[b := end];
            Linked(if s == [] then next' else next'[s[|s| - 1] := b], prev[b := At(s, |s| - 1, end)], end, s + [b])
  {
    var t := s + [b];
    var next', prev' := next[b := end], prev[b := At(s, |s| - 1, end)];
    next' := if s == [] then next' else next'[s[|s| - 1] := b];
    forall i | 0 <= i < |t| ensures LinkOk(next', prev', end, t, i) {
      if i < |s| { assert LinkOk(next, prev, end, s, i); }
    }
  }

  /** Bypassing the node at position `i`. */
  lemma LinkedRemove(next: Pointers, prev: Pointers, end: int, s: seq<int>, i: nat)
    requires Linked(next, prev, end, s) && i < |s|
    requires s[i] in next && s[i] in prev
    ensures var next' := if i > 0 then next[s[i - 1] := next[s[i]]] else next;
            var prev' := if i + 1 < |s| then prev[s[i + 1] := prev[s[i]]] else prev;
            Linked(next', prev', end, Without(s, s[i]))
  {
    WithoutIs(s, i);
    var t := s[..i] + s[i + 1..];
    var next' := if i > 0 then next[s[i - 1] := next[s[i]]] else next;
    var prev' := if i + 1 < |s| then prev[s[i + 1] := prev[s[i]]] else prev;
    forall j | 0 <= j < |t| ensures LinkOk(next', prev', end, t, j) {
      LinkedRemoveAt(next, prev, end, s, i, j);
    }
  }

  lemma LinkedRemoveAt(next: Pointers, prev: Pointers, end: int, s: seq<int>, i: nat, j: nat)
    requires Linked(next, prev, end, s) && i < |s| && j < |s| - 1
    requires s[i] in next && s[i] in prev
    ensures var next' := if i > 0 then next[s[i - 1] := next[s[i]]] else next;
            var prev' := if i + 1 < |s| then prev[s[i + 1] := prev[s[i]]] else prev;
            LinkOk(next', prev', end, s[..i] + s[i + 1..], j)
  {
    assert LinkOk(next, prev, end, s, i);
    if j < i {
      assert LinkOk(next, prev, end, s, j);
    } else {
      assert LinkOk(next, prev, end, s, j + 1);
    }
  }

  /** Linking a fresh node behind the node at position `i`. */
  lemma LinkedInsert(next: Pointers, prev: Pointers, end: int, s: seq<int>, i: nat, b: int)
    requires Linked(next, prev, end, s) && i < |s| && b !in s && b != end
    ensures var next' := next[b := At(s, i + 1, end)][s[i] := b];
            var prev' := prev[b := s[i]];
            Linked(next', if i + 1 < |s| then prev'[s[i + 1] := b] else prev', end, s[..i + 1] + [b] + s[i + 1..])
  {
    var t := s[..i + 1] + [b] + s[i + 1..];
    var next' := next[b := At(s, i + 1, end)][s[i] := b];
    var prev' := prev[b := s[i]];
    prev' := if i + 1 < |s| then prev'[s[i + 1] := b] else prev';
    forall j | 0 <= j < |t| ensures LinkOk(next', prev', end, t, j) {
      LinkedInsertAt(next, prev, end, s, i, b, j);
    }
    InsertDistinct(s, i, b);
  }

  lemma InsertDistinct(s: seq<int>, i: nat, b: int)
    requires Distinct(s) && i < |s| && b !in s
    ensures Distinct(s[..i + 1] + [b] + s[i + 1..])
  {
  }

  lemma LinkedInsertAt(next: Pointers, prev: Pointers, end: int, s: seq<int>, i: nat, b: int, j: nat)
    requires Linked(next, prev, end, s) && i < |s| && b !in s && b != end && j < |s| + 1
    ensures var next' := next[b := At(s, i + 1, end)][s[i] := b];
            var prev' := prev[b := s[i]];
            LinkOk(next', if i + 1 < |s| then prev'[s[i + 1] := b] else prev', end, s[..i + 1] + [b] + s[i + 1..], j)
  {
    if j <= i {
      assert LinkOk(next, prev, end, s, j);
      assert s[j] in s;
    } else if j > i + 1 {
      assert LinkOk(next, prev, end, s, j - 1);
      assert s[j - 1] in s;
    }
  }

  /** A circular list: the end marker is a node too, whose links name the first and the last. */
  ghost predicate Ring(next: Pointers, prev: Pointers, end: int, s: seq<int>) {
    && Linked(next, prev, end, s)
    && end in next && next[end] == At(s, 0, end)
    && end in prev && prev[end] == At(s, |s| - 1, end)
  }

  /** Inserting behind the marker of a circular list. */
  lemma RingFront(next: Pointers, prev: Pointers, end: int, s: seq<int>, b: int)
    requires Ring(next, prev, end, s) && b !in s && b != end
    ensures var next' := next[b := next[end]];
            var prev' := prev[b := end][next[end] := b];
            Ring(next'[end := b], prev', end, [b] + s)
  {
    LinkedFront(next, prev, end, s, b);
    var prev' := prev[b := end];
    var mid := if s == [] then prev' else prev'[s[0] := b];
    assert s != [] ==> s[0] in s;
    LinkedFrame(next[b := At(s, 0, end)], mid, next[b := next[end]][end := b], prev'[next[end] := b], end, [b] + s);
  }

  /** Bypassing a node of a circular list. */
  lemma RingRemove(next: Pointers, prev: Pointers, end: int, s: seq<int>, i: nat)
    requires Ring(next, prev, end, s) && i < |s| && s[i] in next && s[i] in prev
    ensures prev[s[i]] in next && next[s[i]] in prev && prev[s[i]] != s[i] && next[s[i]] != s[i]
    ensures Ring(next[prev[s[i]] := next[s[i]]], prev[next[s[i]] := prev[s[i]]], end, Without(s, s[i]))
  {
    var p := s[i];
    assert LinkOk(next, prev, end, s, i);
    assert s[i] in s && (i > 0 ==> s[i - 1] in s && LinkOk(next, prev, end, s, i - 1));
    assert i + 1 < |s| ==> s[i + 1] in s && LinkOk(next, prev, end, s, i + 1);
    RingRemoveLinked(next, prev, end, s, i);
    WithoutEnds(s, i, end);
  }

  lemma RingRemoveLinked(next: Pointers, prev: Pointers, end: int, s: seq<int>, i: nat)
    requires Ring(next, prev, end, s) && i < |s| && s[i] in next && s[i] in prev
    requires prev[s[i]] == At(s, i - 1, end) && next[s[i]] == At(s, i + 1, end)
    ensures Linked(next[prev[s[i]] := next[s[i]]], prev[next[s[i]] := prev[s[i]]], end, Without(s, s[i]))
  {
    hide Without;
    LinkedRemove(next, prev, end, s, i);
    var next' := if i > 0 then next[s[i - 1] := next[s[i]]] else next;
    var prev' := if i + 1 < |s| then prev[s[i + 1] := prev[s[i]]] else prev;
    LinkedFrame(next', prev', next[prev[s[i]] := next[s[i]]], prev[next[s[i]] := prev[s[i]]], end, Without(s, s[i]));
  }

  /** Taking a node out of a circular list and clearing its links. */
  lemma RingDetach(next: Pointers, prev: Pointers, end: int, s: seq<int>, i: nat)
    requires Ring(next, prev, end, s) && i < |s| && s[i] in next && s[i] in prev
    ensures prev[s[i]] in next && next[s[i]] in prev && prev[s[i]] != s[i]
    ensures var p := s[i];
            && Ring(next[prev[p] := next[p]][p := NIL], prev[next[p] := prev[p]][p := NIL], end, Without(s, p))
            && p !in Without(s, p)
  {
    hide Without;
    var p := s[i];
    RingRemove(next, prev, end, s, i);
    WithoutIs(s, i);
    var n1, p1 := next[prev[p] := next[p]], prev[next[p] := prev[p]];
    assert p in s;
    LinkedFrame(n1, p1, n1[p := NIL], p1[p := NIL], end, Without(s, p));
  }
}
