/** Counting semaphores of Kernel/ipc/semaphore.c. */
module Semaphore {
  type Pid = int

  /** The counter and the processes asleep on it, oldest first. */
  datatype Sem = Sem(value: int, queue: seq<Pid>)

  /** No permit is available while somebody sleeps. */
  predicate Ok(s: Sem) {
    s.value >= 0 && (s.queue != [] ==> s.value == 0)
  }

  /** sem_wait_by_id: whether the permit was granted at once; otherwise `p` sleeps. */
  function Wait(s: Sem, p: Pid): (r: (Sem, bool)) {
    if s.value > 0 then (s.(value := s.value - 1), true)
    else (s.(queue := s.queue + [p]), false)
  }

  /** sem_signal_by_id: the processes it wakes. */
  function Signal(s: Sem): (r: (Sem, seq<Pid>)) {
    if s.queue != [] then (s.(queue := s.queue[1..]), [s.queue[0]])
    else (s.(value := s.value + 1), [])
  }

  /** sem_set_by_id: sleepers are served out of the new value first. */
  function Set(s: Sem, n: nat): (r: (Sem, seq<Pid>)) {
    var k := if n < |s.queue| then n else |s.queue|;
    (Sem(n - k, s.queue[k..]), s.queue[..k])
  }

  // ---------------------------------------------------------------- the law over runs

  datatype Op = OpWait(pid: Pid) | OpSignal | OpSet(n: nat)

  /** A semaphore with its history: who asked, who was granted, in order; and the permits issued,
      counted so that a set re-bases them. */
  datatype History = History(sem: Sem, asked: seq<Pid>, granted: seq<Pid>, issued: int)

  function Step(h: History, op: Op): History {
    match op
    case OpWait(p) =>
      var (s, now) := Wait(h.sem, p);
      h.(sem := s, asked := h.asked + [p], granted := if now then h.granted + [p] else h.granted)
    case OpSignal =>
      var (s, woken) := Signal(h.sem);
      h.(sem := s, granted := h.granted + woken, issued := h.issued + 1)
    case OpSet(n) =>
      var (s, woken) := Set(h.sem, n);
      History(s, h.asked, h.granted + woken, |h.granted| + n)
  }

  function After(h: History, ops: seq<Op>): History
    decreases |ops|
  {
    if ops == [] then h else After(Step(h, ops[0]), ops[1..])
  }

  function Fresh(initial: nat): History {
    History(Sem(initial, []), [], [], initial)
  }

  /** The value never goes negative and is zero while somebody sleeps, permits are neither lost nor
      invented, and requests are granted strictly in the order in which they were made. */
  ghost predicate Lawful(h: History) {
    && Ok(h.sem)
    && h.sem.value + |h.granted| == h.issued
    && h.granted + h.sem.queue == h.asked
  }

  lemma StepLawful(h: History, op: Op)
    requires Lawful(h)
    ensures Lawful(Step(h, op))
  {
    match op
    case OpWait(p) =>
      assert h.sem.value > 0 ==> h.sem.queue == [];
      assert h.granted + (h.sem.queue + [p]) == h.asked + [p];
    case OpSignal =>
      if h.sem.queue != [] {
        assert h.granted + [h.sem.queue[0]] + h.sem.queue[1..] == h.granted + h.sem.queue;
      }
    case OpSet(n) =>
      var k := if n < |h.sem.queue| then n else |h.sem.queue|;
      assert h.granted + h.sem.queue[..k] + h.sem.queue[k..] == h.granted + h.sem.queue;
  }

  /** The semaphore law for every run. */
  lemma {:induction false} RunLawful(h: History, ops: seq<Op>)
    requires Lawful(h)
    ensures Lawful(After(h, ops))
    decreases |ops|
  {
    if ops != [] {
      StepLawful(h, ops[0]);
      RunLawful(Step(h, ops[0]), ops[1..]);
    }
  }

  function Count(ops: seq<Op>): nat {
    if ops == [] then 0 else (if ops[0].OpSignal? then 1 else 0) + Count(ops[1..])
  }

  /** Without sets, the value is the initial one plus the signals minus the grants. */
  lemma {:induction false} ValueFormula(h: History, ops: seq<Op>)
    requires Lawful(h) && forall i :: 0 <= i < |ops| ==> !ops[i].OpSet?
    ensures After(h, ops).sem.value == h.sem.value + Count(ops) - (|After(h, ops).granted| - |h.granted|)
    decreases |ops|
  {
    if ops != [] {
      StepLawful(h, ops[0]);
      ValueFormula(Step(h, ops[0]), ops[1..]);
    }
  }

  /** Nobody signals a permit that is not held: at every signal somebody is inside. */
  ghost predicate Disciplined(h: History, released: nat, ops: seq<Op>)
    decreases |ops|
  {
    ops == []
    || match ops[0]
       case OpWait(_) => Disciplined(Step(h, ops[0]), released, ops[1..])
       case OpSignal => released < |h.granted| && Disciplined(Step(h, ops[0]), released + 1, ops[1..])
       case OpSet(_) => false
  }

  /** Mutual exclusion: a semaphore created at 1 and signalled only by holders has at most one. */
  lemma {:induction false} MutualExclusion(h: History, released: nat, ops: seq<Op>)
    requires Lawful(h) && Disciplined(h, released, ops)
    requires h.issued == 1 + released && released <= |h.granted|
    ensures var inside := |After(h, ops).granted| - (released + Count(ops));
            0 <= inside <= 1
    decreases |ops|
  {
    if ops != [] {
      StepLawful(h, ops[0]);
      MutualExclusion(Step(h, ops[0]), if ops[0].OpSignal? then released + 1 else released, ops[1..]);
    }
  }

  /** Both for a semaphore from its creation on. */
  lemma LawFromCreation(initial: nat, ops: seq<Op>)
    ensures Lawful(After(Fresh(initial), ops))
  {
    RunLawful(Fresh(initial), ops);
  }

  lemma MutexFromCreation(ops: seq<Op>)
    requires Disciplined(Fresh(1), 0, ops)
    ensures 0 <= |After(Fresh(1), ops).granted| - Count(ops) <= 1
  {
    MutualExclusion(Fresh(1), 0, ops);
  }
}
