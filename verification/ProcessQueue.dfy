/** The intrusive process queues of Kernel/proc/process.c. All queues thread through the same two
    link fields of the process, so a process can be in one queue at a time. */
module ProcessQueue {
  import opened Sequences
  import opened Links

  type Lists = seq<seq<int>>

  /** The links and the end pointers spell the sequences, and no process is in two of them. */
  ghost predicate Spells(next: Pointers, prev: Pointers, head: seq<int>, tail: seq<int>, lists: Lists) {
    && |head| == |tail| == |lists|
    && (forall q {:trigger lists[q]} :: 0 <= q < |lists| ==>
          && Linked(next, prev, NIL, lists[q])
          && head[q] == At(lists[q], 0, NIL)
          && tail[q] == At(lists[q], |lists[q]| - 1, NIL))
    && (forall q, r, p {:trigger p in lists[q], p in lists[r]} ::
          0 <= q < |lists| && 0 <= r < |lists| && q != r && p in lists[q] ==> p !in lists[r])
  }

  class Pool {
    var next: Pointers
    var prev: Pointers
    var head: seq<int>
    var tail: seq<int>
    var size: seq<nat>
    ghost var lists: Lists

    ghost predicate Valid()
      reads this
    {
      && Spells(next, prev, head, tail, lists)
      && |head| == |tail| == |size| == |lists|
      && (forall q :: 0 <= q < |lists| ==> size[q] == |lists[q]|)
      && next.Keys == prev.Keys
      && NIL !in next
    }

    /** process_queue_init for `n` queues. */
    constructor (n: nat)
      ensures Valid() && lists == seq(n, _ => []) && next.Keys == {}
    {
      next, prev := map[], map[];
      head, tail := seq(n, _ => NIL), seq(n, _ => NIL);
      size := seq(n, _ => 0);
      lists := seq(n, _ => []);
    }

    /** A process comes into being with empty links. */
    method Register(p: int)
      requires Valid() && p != NIL && p !in next
      modifies this`next, this`prev
      ensures Valid() && next.Keys == old(next).Keys + {p}
    {
      ghost var next0, prev0 := next, prev;
      next, prev := next[p := NIL], prev[p := NIL];
      forall q | 0 <= q < |lists| ensures Linked(next, prev, NIL, lists[q]) {
        NodesKnown(next0, prev0, lists[q]);
        LinkedFrame(next0, prev0, next, prev, NIL, lists[q]);
      }
    }

    /** detach_from_queue: looks the process up in the queue and bypasses it. */
    method Detach(q: nat, p: int)
      requires Valid() && q < |lists| && p in next
      modifies this
      ensures Valid() && next.Keys == old(next).Keys
      ensures lists == old(lists)[q := Without(old(lists)[q], p)]
      ensures p !in lists[q]
    {
      var it := head[q];
      ghost var i: nat := 0;
      while it != NIL && it != p
        invariant i <= |lists[q]| && it == At(lists[q], i, NIL)
        invariant p !in lists[q][..i]
        decreases |lists[q]| - i
        modifies {}
      {
        assert LinkOk(next, prev, NIL, lists[q], i);
        assert lists[q][..i + 1] == lists[q][..i] + [lists[q][i]];
        it := next[it];
        i := i + 1;
      }
      if it == NIL {
        assert lists[q][..i] == lists[q];
        assert lists[q := lists[q]] == lists;
        return;
      }
      Bypass(q, p, i);
    }

    /** The end of detach_from_queue, once the process is found. */
    method Bypass(q: nat, p: int, ghost i: nat)
      requires Valid() && q < |lists| && i < |lists[q]| && lists[q][i] == p
      requires p in next
      modifies this
      ensures Valid() && next.Keys == old(next).Keys
      ensures lists == old(lists)[q := Without(old(lists)[q], p)]
      ensures p !in lists[q]
    {
      hide Linked, Spells;
      BypassSpells(next, prev, head, tail, lists, q, i);
      if prev[p] != NIL {
        next := next[prev[p] := next[p]];
      } else {
        head := head[q := next[p]];
      }
      if next[p] != NIL {
        prev := prev[next[p] := prev[p]];
      } else {
        tail := tail[q := prev[p]];
      }
      size := if size[q] != 0 then size[q := size[q] - 1] else size;
      next, prev := next[p := NIL], prev[p := NIL];
      lists := lists[q := Without(lists[q], p)];
    }

    /** process_queue_push: the process is in no other queue; a member moves to the tail. */
    method Push(q: nat, p: int)
      requires Valid() && q < |lists| && p in next
      requires forall r :: 0 <= r < |lists| && r != q ==> p !in lists[r]
      modifies this
      ensures Valid() && next.Keys == old(next).Keys
      ensures lists == old(lists)[q := Without(old(lists)[q], p) + [p]]
    {
      if next[p] != NIL || prev[p] != NIL || head[q] == p {
        Detach(q, p);
      } else {
        NotLinkedIn(next, prev, lists[q], head[q], p);
      }
      Append(q, p);
    }

    /** The end of process_queue_push. */
    method Append(q: nat, p: int)
      requires Valid() && q < |lists| && p in next
      requires forall r :: 0 <= r < |lists| ==> p !in lists[r]
      modifies this
      ensures Valid() && next.Keys == old(next).Keys
      ensures lists == old(lists)[q := old(lists)[q] + [p]]
    {
      ghost var s := lists[q];
      NodesKnown(next, prev, s);
      AppendSpells(next, prev, head, tail, lists, q, p);
      if head[q] == NIL {
        head, tail := head[q := p], tail[q := p];
        next, prev := next[p := NIL], prev[p := NIL];
        size := size[q := 1];
      } else {
        prev := prev[p := tail[q]];
        next := next[p := NIL];
        next := next[tail[q] := p];
        tail := tail[q := p];
        size := size[q := size[q] + 1];
      }
      lists := lists[q := s + [p]];
    }

    /** process_queue_pop: NIL when the queue is empty. */
    method Pop(q: nat) returns (p: int)
      requires Valid() && q < |lists|
      modifies this
      ensures Valid() && next.Keys == old(next).Keys
      ensures p == At(old(lists)[q], 0, NIL)
      ensures lists == old(lists)[q := Without(old(lists)[q], p)]
    {
      p := head[q];
      if p == NIL {
        assert lists[q := Without(lists[q], NIL)] == lists;
        return;
      }
      NodesKnown(next, prev, lists[q]);
      assert lists[q][0] in lists[q];
      Detach(q, p);
    }

    /** The head of a queue, NIL when it is empty. */
    function First(q: nat): (p: int)
      requires Valid() && q < |lists|
      reads this
      ensures p == At(lists[q], 0, NIL)
    {
      head[q]
    }

    /** The node behind the one at position `i`. */
    function After(q: nat, p: int, ghost i: nat): (n: int)
      requires Valid() && q < |lists| && i < |lists[q]| && lists[q][i] == p
      reads this
      ensures n == At(lists[q], i + 1, NIL)
    {
      assert LinkOk(next, prev, NIL, lists[q], i);
      next[p]
    }

    /** process_destroy frees a process that is in no queue. */
    method Forget(p: int)
      requires Valid() && forall q :: 0 <= q < |lists| ==> p !in lists[q]
      modifies this`next, this`prev
      ensures Valid() && next.Keys == old(next).Keys - {p}
    {
      ghost var next0, prev0 := next, prev;
      next, prev := next - {p}, prev - {p};
      forall q | 0 <= q < |lists| ensures Linked(next, prev, NIL, lists[q]) {
        NodesKnown(next0, prev0, lists[q]);
        LinkedFrame(next0, prev0, next, prev, NIL, lists[q]);
      }
    }
  }

  lemma NodesKnown(next: Pointers, prev: Pointers, s: seq<int>)
    requires Linked(next, prev, NIL, s)
    ensures forall x :: x in s ==> x in next && x in prev && x != NIL
  {
    forall x | x in s ensures x in next && x in prev {
      assert LinkOk(next, prev, NIL, s, Index(s, x));
    }
  }

  /** The test at the head of process_queue_push: a member always has a link or is the head. */
  lemma NotLinkedIn(next: Pointers, prev: Pointers, s: seq<int>, head: int, p: int)
    requires Linked(next, prev, NIL, s) && head == At(s, 0, NIL) && p in next && p in prev
    requires next[p] == NIL && prev[p] == NIL && head != p
    ensures p !in s
  {
    forall i | 0 <= i < |s| ensures s[i] != p {
      assert LinkOk(next, prev, NIL, s, i);
      assert i > 0 ==> s[i - 1] in s;
    }
  }

  /** The links after bypassing the process at position `i` of `s`. */
  function NextWithout(next: Pointers, prev: Pointers, p: int): Pointers
    requires p in next && p in prev
  {
    (if prev[p] != NIL then next[prev[p] := next[p]] else next)[p := NIL]
  }

  function PrevWithout(next: Pointers, prev: Pointers, p: int): Pointers
    requires p in next && p in prev
  {
    (if next[p] != NIL then prev[next[p] := prev[p]] else prev)[p := NIL]
  }

  lemma BypassOwn(next: Pointers, prev: Pointers, s: seq<int>, i: nat)
    requires Linked(next, prev, NIL, s) && i < |s| && s[i] in next && s[i] in prev
    ensures var p, t := s[i], Without(s, s[i]);
            && Linked(NextWithout(next, prev, p), PrevWithout(next, prev, p), NIL, t)
            && At(t, 0, NIL) == (if prev[p] != NIL then At(s, 0, NIL) else next[p])
            && At(t, |t| - 1, NIL) == (if next[p] != NIL then At(s, |s| - 1, NIL) else prev[p])
            && p !in t
            && prev[p] != p && (prev[p] != NIL ==> prev[p] in next) && (next[p] != NIL ==> next[p] in prev)
  {
    hide Linked, Distinct, Without;
    var p := s[i];
    NodesKnown(next, prev, s);
    Neighbours(next, prev, s, i);
    WithoutEnds(s, i, NIL);
    LinkedRemove(next, prev, NIL, s, i);
    var next' := if i > 0 then next[s[i - 1] := next[p]] else next;
    var prev' := if i + 1 < |s| then prev[s[i + 1] := prev[p]] else prev;
    LinkedFrame(next', prev', NextWithout(next, prev, p), PrevWithout(next, prev, p), NIL, Without(s, p));
  }

  lemma Neighbours(next: Pointers, prev: Pointers, s: seq<int>, i: nat)
    requires Linked(next, prev, NIL, s) && i < |s| && s[i] in next && s[i] in prev
    ensures prev[s[i]] == At(s, i - 1, NIL) && next[s[i]] == At(s, i + 1, NIL)
    ensures prev[s[i]] != s[i]
    ensures i > 0 ==> s[i - 1] in s && s[i - 1] != NIL
    ensures i + 1 < |s| ==> s[i + 1] in s && s[i + 1] != NIL
    ensures Distinct(s)
  {
    NodesKnown(next, prev, s);
    assert LinkOk(next, prev, NIL, s, i);
    assert s[i] in s && (i > 0 ==> s[i - 1] in s) && (i + 1 < |s| ==> s[i + 1] in s);
  }

  lemma BypassOther(next: Pointers, prev: Pointers, s: seq<int>, i: nat, t: seq<int>)
    requires Linked(next, prev, NIL, s) && i < |s| && s[i] in next && s[i] in prev
    requires Linked(next, prev, NIL, t) && forall x :: x in t ==> x !in s
    ensures Linked(NextWithout(next, prev, s[i]), PrevWithout(next, prev, s[i]), NIL, t)
  {
    assert LinkOk(next, prev, NIL, s, i);
    assert s[i] in s && (i > 0 ==> s[i - 1] in s) && (i + 1 < |s| ==> s[i + 1] in s);
    NodesKnown(next, prev, t);
    LinkedFrame(next, prev, NextWithout(next, prev, s[i]), PrevWithout(next, prev, s[i]), NIL, t);
  }

  lemma BypassSpells(next: Pointers, prev: Pointers, head: seq<int>, tail: seq<int>, lists: Lists, q: nat, i: nat)
    requires Spells(next, prev, head, tail, lists) && q < |lists| && i < |lists[q]|
    requires lists[q][i] in next && lists[q][i] in prev
    ensures var p := lists[q][i];
            && Spells(NextWithout(next, prev, p), PrevWithout(next, prev, p),
                      if prev[p] != NIL then head else head[q := next[p]],
                      if next[p] != NIL then tail else tail[q := prev[p]],
                      lists[q := Without(lists[q], p)])
            && p !in Without(lists[q], p)
            && prev[p] != p && (prev[p] != NIL ==> prev[p] in next) && (next[p] != NIL ==> next[p] in prev)
            && |lists[q]| > 0
  {
    hide Linked, NextWithout, PrevWithout;
    BypassOwn(next, prev, lists[q], i);
    forall r | 0 <= r < |lists| && r != q
      ensures Linked(NextWithout(next, prev, lists[q][i]), PrevWithout(next, prev, lists[q][i]), NIL, lists[r])
    {
      BypassOther(next, prev, lists[q], i, lists[r]);
    }
  }

  lemma AppendSpells(next: Pointers, prev: Pointers, head: seq<int>, tail: seq<int>, lists: Lists, q: nat, p: int)
    requires Spells(next, prev, head, tail, lists) && q < |lists| && p != NIL
    requires forall r :: 0 <= r < |lists| ==> p !in lists[r]
    ensures var next' := next[p := NIL];
            Spells(if head[q] == NIL then next' else next'[tail[q] := p], prev[p := tail[q]],
                   if head[q] == NIL then head[q := p] else head, tail[q := p],
                   lists[q := lists[q] + [p]])
  {
    var s := lists[q];
    var next' := if head[q] == NIL then next[p := NIL] else next[p := NIL][tail[q] := p];
    var prev' := prev[p := tail[q]];
    NodesKnown(next, prev, s);
    assert s != [] ==> s[0] in s && s[|s| - 1] in s;
    LinkedBack(next, prev, NIL, s, p);
    forall r | 0 <= r < |lists| && r != q ensures Linked(next', prev', NIL, lists[r]) {
      LinkedFrame(next, prev, next', prev', NIL, lists[r]);
    }
  }

  /** Pushing a process that is still first in another queue, as the waiter wake-up loops do,
      leaves that queue spelling no sequence at all. */
  lemma PushElsewhereBreaks(next: Pointers, prev: Pointers, head: seq<int>, tail: seq<int>, lists: Lists, q: nat,
                            r: nat)
    requires Spells(next, prev, head, tail, lists) && q < |lists| && r < |lists| && q != r
    requires lists[q] != [] && lists[r] != []
    ensures var p := head[r];
            var next', prev' := next[p := NIL][tail[q] := p], prev[p := tail[q]];
            forall s :: Linked(next', prev', NIL, s) ==> At(s, 0, NIL) != p
  {
    var p := head[r];
    var prev' := prev[p := tail[q]];
    NodesKnown(next, prev, lists[q]);
    NodesKnown(next, prev, lists[r]);
    assert lists[r][0] in lists[r];
    assert lists[q][|lists[q]| - 1] in lists[q];
    forall s | Linked(next[p := NIL][tail[q] := p], prev', NIL, s) ensures At(s, 0, NIL) != p {
      if s != [] { assert LinkOk(next[p := NIL][tail[q] := p], prev', NIL, s, 0); }
    }
  }
}
