/** The wait queues of Kernel/ipc/semaphore.c: singly linked through sem_waiter_next, with a head and
    a tail per semaphore. They spell the sequences of sleepers that Semaphore works with. */
module WaitQueue {
  import opened Sequences
  import opened Links
  import opened Semaphore

  /** The links spell the sequence. */
  ghost predicate Chain(next: Pointers, s: seq<Pid>) {
    && Distinct(s) && NIL !in s
    && forall i :: 0 <= i < |s| ==> s[i] in next && next[s[i]] == At(s, i + 1, NIL)
  }

  ghost predicate Spelled(next: Pointers, head: Pid, tail: Pid, s: seq<Pid>) {
    Chain(next, s) && head == At(s, 0, NIL) && tail == At(s, |s| - 1, NIL)
  }

  lemma ChainAppend(next: Pointers, s: seq<Pid>, p: Pid)
    requires Chain(next, s) && p !in s && p != NIL
    ensures var linked := if s == [] then next[p := NIL] else next[p := NIL][s[|s| - 1] := p];
            Chain(linked, s + [p])
  {
    var linked := if s == [] then next[p := NIL] else next[p := NIL][s[|s| - 1] := p];
    var t := s + [p];
    forall i | 0 <= i < |t| ensures t[i] in linked && linked[t[i]] == At(t, i + 1, NIL) {
      if i + 1 < |s| { assert s[i] != s[|s| - 1] && s[i] in s; }
    }
  }

  lemma ChainTail(next: Pointers, s: seq<Pid>)
    requires Chain(next, s) && s != []
    ensures Chain(next[s[0] := NIL], s[1..]) && s[0] !in s[1..] && next[s[0]] == At(s[1..], 0, NIL)
  {
    var t := s[1..];
    forall i | 0 <= i < |t| ensures t[i] in next && t[i] != s[0] && next[t[i]] == At(t, i + 1, NIL) {
      assert t[i] == s[i + 1];
    }
  }

  /** Writing the link of a process that is not in a queue leaves that queue alone. */
  lemma ChainFrame(next: Pointers, s: seq<Pid>, p: Pid, n: Pid)
    requires Chain(next, s) && p !in s
    ensures Chain(next[p := n], s)
  {
    forall i | 0 <= i < |s| ensures s[i] in next[p := n] && next[p := n][s[i]] == At(s, i + 1, NIL) {
      assert s[i] in s;
    }
  }

  class Waiters {
    var head: seq<Pid>
    var tail: seq<Pid>
    var next: Pointers
    ghost var queues: seq<seq<Pid>>

    ghost predicate Valid()
      reads this
    {
      && |head| == |tail| == |queues|
      && (forall k :: 0 <= k < |queues| ==> Spelled(next, head[k], tail[k], queues[k]))
      && (forall j, k, p :: 0 <= j < k < |queues| && p in queues[j] ==> p !in queues[k])
    }

    constructor (n: nat)
      ensures Valid() && queues == seq(n, _ => [])
    {
      head, tail := seq(n, _ => NIL), seq(n, _ => NIL);
      next, queues := map[], seq(n, _ => []);
    }

    /** enqueue_waiter, for a process that sleeps on no semaphore yet. */
    method Enqueue(k: nat, p: Pid)
      requires Valid() && k < |queues| && p != NIL && forall j :: 0 <= j < |queues| ==> p !in queues[j]
      modifies this
      ensures Valid() && queues == old(queues)[k := old(queues)[k] + [p]]
    {
      hide Chain;
      ghost var last := tail[k];
      assert last != NIL ==> last in queues[k];
      ChainAppend(next, queues[k], p);
      forall j | 0 <= j < |queues| && j != k ensures Chain(next[p := NIL], queues[j])
          && Chain(next[p := NIL][last := p], queues[j]) {
        ChainFrame(next, queues[j], p, NIL);
        assert last !in queues[j] by { NilOutside(next, queues[j]); }
        ChainFrame(next[p := NIL], queues[j], last, p);
      }
      NilOutside(next, queues[k]);
      next := next[p := NIL];
      if head[k] == NIL {
        head, tail := head[k := p], tail[k := p];
      } else {
        next := next[tail[k] := p];
        tail := tail[k := p];
      }
      queues := queues[k := queues[k] + [p]];
    }

    /** dequeue_waiter: NIL when nobody sleeps. */
    method Dequeue(k: nat) returns (p: Pid)
      requires Valid() && k < |queues|
      modifies this
      ensures Valid() && p == At(old(queues)[k], 0, NIL)
      ensures queues == old(queues)[k := if p == NIL then [] else old(queues)[k][1..]]
      ensures p == NIL <==> old(queues)[k] == []
    {
      hide Chain;
      NilOutside(next, queues[k]);
      p := head[k];
      if p == NIL {
        return;
      }
      ChainTail(next, queues[k]);
      forall j | 0 <= j < |queues| && j != k ensures Chain(next[p := NIL], queues[j]) {
        ChainFrame(next, queues[j], p, NIL);
      }
      head := head[k := next[p]];
      NilOutside(next[p := NIL], queues[k][1..]);
      if head[k] == NIL {
        tail := tail[k := NIL];
      }
      next := next[p := NIL];
      queues := queues[k := queues[k][1..]];
    }

    /** The reset in sem_close_by_id forgets the sleepers. */
    method Forget(k: nat)
      requires Valid() && k < |queues|
      modifies this
      ensures Valid() && queues == old(queues)[k := []]
    {
      head, tail := head[k := NIL], tail[k := NIL];
      queues := queues[k := []];
    }
  }

  lemma NilOutside(next: Pointers, s: seq<Pid>)
    requires Chain(next, s)
    ensures NIL !in s && (s != [] <==> At(s, 0, NIL) != NIL) && (s != [] ==> s[0] in next && s[|s| - 1] in next)
  {
    assert s != [] ==> s[0] in s;
  }
}
