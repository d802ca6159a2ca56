/** Kernel/proc/scheduler.c over the intrusive queues of process.c. Every method computes the
    operation of the same name in SchedulerSteps and SchedulerRuns. */
module Scheduler {
  import opened Sequences
  import opened Links
  import opened SchedulerSpec
  import opened SchedulerSteps
  import opened SchedulerRuns
  import PQ = ProcessQueue

  lemma InOneQueue(s: State, out: set<Pid>, p: Pid, q: nat, i: nat)
    requires Homed(s, out) && q < QUEUES && i < |s.queues[q]| && s.queues[q][i] == p
    ensures p in s.queues[q] && forall r :: 0 <= r < QUEUES && r != q ==> p !in s.queues[r]
  {
    assert p in s.queues[q];
  }

  lemma NotQueued(s: State, out: set<Pid>, p: Pid)
    requires Homed(s, out) && p in out
    ensures |s.queues| == QUEUES && forall q :: 0 <= q < QUEUES ==> p !in s.queues[q]
  {
  }

  /** Where a process is, by its state. */
  lemma WhereItIs(s: State, p: Pid)
    requires Inv(s) && p in s.procs
    ensures s.procs[p].priority <= TOP && s.current in s.procs
    ensures p in Out(s) ==> forall q :: 0 <= q < QUEUES ==> p !in s.queues[q]
    ensures p in Out(s) ==> s.procs[p].state != Ready
    ensures p !in Out(s) ==>
              forall q :: 0 <= q < QUEUES && q != QueueOf(s.procs[p]) ==> p !in s.queues[q]
    ensures p !in Out(s) ==> s.procs[p].state in {Ready, Blocked, Finished}
    ensures p !in Out(s) ==> p in s.queues[QueueOf(s.procs[p])] && Distinct(s.queues[QueueOf(s.procs[p])])
  {
    assert ProcessOk(s.procs[p]);
    if p !in Out(s) {
      var q := QueueOf(s.procs[p]);
      assert p in s.queues[q];
    }
  }

  lemma NowhereElse(s: State, p: Pid)
    requires Inv(s)
    ensures (forall q :: 0 <= q < QUEUES ==> p !in s.queues[q]) && Found(s, p) ==> p == s.current
  {
    if Found(s, p) && p != s.current { WhereItIs(s, p); }
  }

  /** schedule() in the order in which it happens, with what each stage needs of the one before. */
  lemma ScheduleUnfold(s: State)
    requires Schedulable(s)
    ensures var a := Age(s);
            && Schedulable(a) && Known(a) && a.current in a.procs && Homed(a, Out(a))
            && var b := a.(needResched := false);
            && Schedulable(b) && |b.queues| == QUEUES && b.current in b.procs
            && var c := SaveContext(b);
            && Homed(c, {c.idle}) && Known(c) && c.idle in c.procs
            && var d := Dispatch(c);
            && Homed(d, Out(d)) && |d.queues| == QUEUES && !Doomed(d)
            && SchedulerSteps.Schedule(s) == if !MustSwitch(a) then a else Reap(d, MAX_FINISHED_COLLECT)
  {
    hide Age, Homed;
    var a := Age(s);
    AgeSchedulable(s);
    HomedKnown(a, Out(a));
    var b := a.(needResched := false);
    RehomeClock(a, b);
    SaveKeeps(b);
    var c := SaveContext(b);
    HomedKnown(c, {c.idle});
    DispatchKeeps(c);
    HomedKnown(Dispatch(c), Out(Dispatch(c)));
  }

  /** The process that leaves the CPU is in no queue, or in the finished one if it was killed. */
  lemma LeavingHome(s: State)
    requires Schedulable(s)
    ensures |s.queues| == QUEUES
    ensures forall q :: 0 <= q < QUEUES && s.current in s.queues[q] ==>
              q == FINISHED_Q && s.procs[s.current].state == Finished
  {
  }

  lemma FreshPid(s: State)
    requires Inv(s)
    ensures s.nextPid !in s.procs && s.nextPid != NIL
    ensures forall q :: 0 <= q < QUEUES ==> s.nextPid !in s.queues[q]
  {
    assert s.idle in s.procs;
  }

  lemma ReapNothing(s: State)
    requires |s.queues| == QUEUES
    ensures Reap(s, 0) == s
  {
  }

  /** One round of the collecting loop. */
  lemma ReapUnfold(s: State, out: set<Pid>, n: nat)
    requires Homed(s, out) && n > 0
    ensures |s.queues| == QUEUES
    ensures s.queues[FINISHED_Q] == [] ==> Reap(s, n) == s
    ensures s.queues[FINISHED_Q] != [] ==>
              var p := s.queues[FINISHED_Q][0];
              var t := Remove(s, FINISHED_Q, p).(procs := s.procs - {p});
              Homed(t, out) && Reap(s, n) == Reap(t, n - 1) && p in s.procs
              && forall q :: 0 <= q < QUEUES ==> p !in t.queues[q]
  {
    if s.queues[FINISHED_Q] != [] {
      var p := s.queues[FINISHED_Q][0];
      assert p in s.queues[FINISHED_Q];
      assert ProcessOk(s.procs[p]);
      DestroyKeeps(s, out, p);
    }
  }

  /** An entry of the process listing. */
  datatype Info = Info(pid: Pid, state: Activity, priority: nat)

  function Pids(buffer: seq<Info>): (r: seq<Pid>)
    ensures |r| == |buffer|
  {
    seq(|buffer|, i requires 0 <= i < |buffer| => buffer[i].pid)
  }

  predicate Describes(s: State, info: Info) {
    info.pid in s.procs && info.state == s.procs[info.pid].state && info.priority == s.procs[info.pid].priority
  }

  lemma PidsMember(buffer: seq<Info>, p: Pid)
    ensures p in Pids(buffer) <==> exists j :: 0 <= j < |buffer| && buffer[j].pid == p
  {
    if j :| 0 <= j < |buffer| && buffer[j].pid == p { assert Pids(buffer)[j] == p; }
  }

  lemma TakeNothing(l: seq<Pid>)
    ensures Take(l, 0) == [] && Take([], 0) == []
  {
  }

  class Kernel {
    const pool: PQ.Pool
    var procs: map<Pid, Process>
    var current: Pid
    var idle: Pid
    var lastSwitch: int
    var needResched: bool
    var ticks: int
    var nextPid: Pid

    ghost predicate Valid()
      reads this, pool
    {
      pool.Valid() && |pool.lists| == QUEUES && pool.next.Keys == procs.Keys
    }

    ghost function Model(): State
      reads this, pool
    {
      State(procs, pool.lists, current, idle, lastSwitch, needResched, ticks, nextPid)
    }

    /** init_scheduler: only the idle process exists, and it runs. Pids start at 1. */
    constructor (now: int)
      ensures Valid() && Inv(Model())
      ensures fresh(pool)
      ensures Model() == Boot(now)
    {
      pool := new PQ.Pool(QUEUES);
      procs := map[1 := Process(Running, 1, 1, 0)];
      current, idle, nextPid := 1, 1, 2;
      lastSwitch, ticks, needResched := now, now, false;
      new;
      pool.Register(1);
      assert ProcessOk(procs[1]);
    }

    /** ready_queue_push */
    method ReadyQueuePush(p: Pid)
      requires Valid() && p in procs
      requires forall q :: 0 <= q < QUEUES && q != Clamp(procs[p].priority) ==> p !in pool.lists[q]
      modifies this`procs, pool
      ensures Valid() && Model() == ReadyPush(old(Model()), p)
    {
      var pr := Clamp(procs[p].priority);
      procs := procs[p := procs[p].(priority := pr)];
      pool.Push(pr, p);
    }

    /** The body of the loop in apply_aging; returns the process to visit next. */
    method AgeOne(pr: nat, p: Pid, ghost i: nat) returns (n: Pid, ghost j: nat)
      requires Valid() && Homed(Model(), Out(Model())) && pr <= TOP
      requires i < |pool.lists[pr]| && pool.lists[pr][i] == p
      modifies this`procs, pool
      ensures p in old(procs) && old(procs)[p].priority == pr
      ensures Valid() && Model() == Visit(old(Model()), pr, i) && Homed(Model(), Out(Model()))
      ensures j == (if Promotes(old(Model()), pr, i) then 0 else i + 1)
      ensures j <= |pool.lists[pr]| && n == At(pool.lists[pr], j, NIL)
      ensures Promotes(old(Model()), pr, i) ==> |pool.lists[pr]| < |old(pool.lists)[pr]|
      ensures !Promotes(old(Model()), pr, i) ==> |pool.lists[pr]| == |old(pool.lists)[pr]|
    {
      hide Homed, PQ.Spells;
      ghost var s := Model();
      VisitKeeps(s, Out(s), pr, i);
      InOneQueue(s, Out(s), p, pr, i);
      if procs[p].waitTicks + 1 >= AGING_THRESHOLD && procs[p].priority < TOP {
        Promote(pr, p);
        n, j := pool.First(pr), 0;
      } else {
        procs := procs[p := procs[p].(waitTicks := procs[p].waitTicks + 1)];
        n, j := pool.After(pr, p, i), i + 1;
      }
    }

    /** The promotion in apply_aging. */
    method Promote(pr: nat, p: Pid)
      requires Valid() && pr < TOP && p in procs && procs[p].priority == pr
      requires p in pool.lists[pr] && forall r :: 0 <= r < QUEUES && r != pr ==> p !in pool.lists[r]
      modifies this`procs, pool
      ensures Valid()
      ensures var pcb := old(procs)[p].(priority := pr + 1, waitTicks := 0);
              Model() == Update(SchedulerSpec.Push(Remove(old(Model()), pr, p), pr + 1, p), p, pcb)
    {
      hide PQ.Spells;
      procs := procs[p := procs[p].(waitTicks := procs[p].waitTicks + 1)];
      pool.Detach(pr, p);
      procs := procs[p := procs[p].(priority := Clamp(procs[p].priority + 1))];
      pool.Push(procs[p].priority, p);
      procs := procs[p := procs[p].(waitTicks := 0)];
    }

    /** apply_aging */
    method ApplyAging()
      requires Valid() && Homed(Model(), Out(Model()))
      modifies this`procs, pool
      ensures Valid() && Model() == Age(old(Model()))
    {
      AgeQueue(0);
      AgeQueue(1);
      AgeQueue(2);
    }

    /** One round of the outer loop of apply_aging. */
    method AgeQueue(pr: nat)
      requires Valid() && Homed(Model(), Out(Model())) && pr <= TOP
      modifies this`procs, pool
      ensures Valid() && Homed(Model(), Out(Model())) && Model() == AgeLevel(old(Model()), pr, 0)
    {
      hide Homed, Visit, Promotes;
      ghost var s0 := Model();
      var p := pool.head[pr];
      ghost var i: nat := 0;
      while p != NIL
        invariant Valid() && Homed(Model(), Out(Model()))
        invariant i <= |pool.lists[pr]| && p == At(pool.lists[pr], i, NIL)
        invariant AgeLevel(Model(), pr, i) == AgeLevel(s0, pr, 0)
        decreases |pool.lists[pr]|, |pool.lists[pr]| - i
      {
        p, i := AgeOne(pr, p, i);
      }
      NoNilInQueue(pr, i);
    }

    /** save_context */
    method Save()
      requires Valid() && Schedulable(Model())
      modifies this`procs, pool
      ensures Valid() && Model() == SaveContext(old(Model()))
    {
      hide Homed, PQ.Spells;
      LeavingHome(Model());
      var pcb := procs[current];
      match pcb.state
      case Running =>
        if current != idle {
          procs := procs[current := pcb.(state := Ready)];
          ReadyQueuePush(current);
        }
      case Blocked => pool.Push(BLOCKED_Q, current);
      case Finished => pool.Push(FINISHED_Q, current);
      case _ =>
    }

    /** ready_queue_pop_highest: NIL when nobody is ready. */
    method PopHighest() returns (p: Pid)
      requires Valid() && Homed(Model(), {idle})
      modifies pool
      ensures Valid() && pool.next.Keys == old(pool.next.Keys)
      ensures var l := Highest(old(pool.lists), TOP);
              if l < 0 then p == NIL && pool.lists == old(pool.lists)
              else p == old(pool.lists)[l][0] && p != NIL
                   && pool.lists == old(pool.lists)[l := Without(old(pool.lists)[l], p)]
    {
      hide Homed, PQ.Spells;
      ghost var queues := pool.lists;
      var pr: int := TOP;
      p := NIL;
      while pr >= 0
        invariant NIL <= pr <= TOP && p == NIL && Valid() && pool.lists == queues
                  && pool.next.Keys == old(pool.next.Keys)
        invariant Highest(queues, TOP) == Highest(queues, pr)
      {
        AtMember(pool.lists[pr], 0, NIL);
        NoNil(pr);
        p := pool.Pop(pr);
        if p != NIL {
          return;
        }
        pr := pr - 1;
      }
    }

    lemma NoNil(q: nat)
      requires pool.Valid() && q < |pool.lists|
      ensures NIL !in pool.lists[q]
    {
    }

    /** The loop of schedule() that looks for a process of higher priority. */
    method PeekHighest() returns (p: Pid)
      requires Valid() && Known(Model())
      ensures p == Peek(Model())
    {
      hide PQ.Spells;
      var pr: int := TOP;
      p := NIL;
      while pr >= 0
        invariant NIL <= pr <= TOP
        invariant Highest(pool.lists, TOP) == Highest(pool.lists, pr)
      {
        AtMember(pool.lists[pr], 0, NIL);
        NoNil(pr);
        if pool.First(pr) != NIL {
          return pool.First(pr);
        }
        pr := pr - 1;
      }
    }

    /** The loop of schedule() that destroys finished processes. */
    method CollectFinished()
      requires Valid() && Homed(Model(), Out(Model())) && !Doomed(Model())
      modifies this`procs, pool
      ensures Valid() && Model() == Reap(old(Model()), MAX_FINISHED_COLLECT)
    {
      hide Homed, PQ.Spells, Reap;
      var n := 0;
      while n < MAX_FINISHED_COLLECT
        invariant 0 <= n <= MAX_FINISHED_COLLECT && Valid() && Homed(Model(), Out(Model())) && !Doomed(Model())
        invariant Reap(Model(), MAX_FINISHED_COLLECT - n) == Reap(old(Model()), MAX_FINISHED_COLLECT)
        invariant current == old(current) && idle == old(idle)
      {
        ReapUnfold(Model(), Out(Model()), MAX_FINISHED_COLLECT - n);
        AtMember(pool.lists[FINISHED_Q], 0, NIL);
        NoNil(FINISHED_Q);
        var p := pool.Pop(FINISHED_Q);
        if p == NIL {
          break;
        }
        pool.Forget(p);
        procs := procs - {p};
        n := n + 1;
      }
      if n == MAX_FINISHED_COLLECT { ReapNothing(Model()); }
    }

    /** schedule(), after the timer handler has advanced the clock. */
    method Schedule()
      requires Valid() && Schedulable(Model()) && ticks >= lastSwitch
      modifies this, pool
      ensures Valid() && Inv(Model()) && Model() == SchedulerSteps.Schedule(old(Model()))
    {
      hide Homed, PQ.Spells, Age, Reap, Inv, MustSwitch, Dispatch, SaveContext, Known;
      ghost var s := Model();
      ScheduleKeeps(s);
      AgeSchedulable(s);
      ScheduleUnfold(s);
      var now := ticks;
      ApplyAging();
      var mustSwitch := NeedsSwitch(now);
      if !mustSwitch {
        return;
      }
      needResched := false;
      Save();
      Switch(now);
      CollectFinished();
    }

    /** The decision in schedule(). */
    method NeedsSwitch(now: int) returns (mustSwitch: bool)
      requires Valid() && Known(Model()) && current in procs && now == ticks
      ensures mustSwitch == MustSwitch(Model())
    {
      hide PQ.Spells;
      var expired := now - lastSwitch >= QUANTUM_TICKS;
      mustSwitch := procs[current].state != Running;
      var peek := PeekHighest();
      var higher := peek != NIL && procs[peek].priority > procs[current].priority;
      mustSwitch := mustSwitch || higher || expired || needResched;
    }

    /** The switch in schedule(). */
    method Switch(now: int)
      requires Valid() && Homed(Model(), {idle}) && Known(Model()) && idle in procs && now == ticks
      modifies this`procs, this`current, this`lastSwitch, pool
      ensures Valid() && Model() == Dispatch(old(Model()))
    {
      hide Homed, PQ.Spells;
      ghost var s := Model();
      AtMember(pool.lists[0], 0, NIL);
      assert Highest(s.queues, TOP) >= 0 ==> s.queues[Highest(s.queues, TOP)][0] in s.queues[Highest(s.queues, TOP)];
      var next := PopHighest();
      if next == NIL {
        next := idle;
      }
      var pcb := procs[next].(state := Running, waitTicks := 0);
      if next != idle && pcb.priority > pcb.basePriority {
        pcb := pcb.(priority := pcb.basePriority);
      }
      procs := procs[next := pcb];
      current := next;
      lastSwitch := now;
    }

    /** The timer interrupt: timer_handler, then schedule(). */
    method TimerTick()
      requires Valid() && Inv(Model())
      modifies this, pool
      ensures Valid() && Inv(Model()) && Model() == Apply(old(Model()), Tick)
    {
      hide Homed, PQ.Spells, SchedulerSteps.Schedule;
      TickedSchedulable(Model());
      ticks := ticks + 1;
      Schedule();
    }

    /** scheduler_yield_current */
    method YieldCurrent()
      requires Valid() && Inv(Model())
      modifies this, pool
      ensures Valid() && Inv(Model()) && Model() == Apply(old(Model()), Yield)
    {
      hide Homed, PQ.Spells, SchedulerSteps.Schedule;
      if current == idle {
        return;
      }
      TickedSchedulable(Model());
      lastSwitch := ticks - QUANTUM_TICKS;
      ticks := ticks + 1;
      Schedule();
    }

    /** scheduler_spawn_process, once process_create has succeeded. */
    method Spawn(priority: nat) returns (p: Pid)
      requires Valid() && Inv(Model())
      modifies this, pool
      ensures Valid() && Inv(Model()) && Model() == Apply(old(Model()), Event.Spawn(priority)) && p == old(nextPid)
    {
      hide Homed, Inv, SpawnStep, PQ.Spells;
      InvKept(Model(), Event.Spawn(priority));
      FreshPid(Model());
      p := Enlist(priority);
    }

    /** Its body, for an unused pid. */
    method Enlist(priority: nat) returns (p: Pid)
      requires Valid() && nextPid !in procs && nextPid != NIL
      requires forall q :: 0 <= q < QUEUES ==> nextPid !in pool.lists[q]
      modifies this`procs, this`nextPid, pool
      ensures Valid() && Model() == SpawnStep(old(Model()), priority) && p == old(nextPid)
    {
      hide PQ.Spells;
      p := nextPid;
      nextPid := nextPid + 1;
      var pr := Clamp(priority);
      pool.Register(p);
      procs := procs[p := Process(Ready, pr, pr, 0)];
      ReadyQueuePush(p);
    }

    /** scheduler_block_current */
    method BlockCurrent()
      requires Valid() && Inv(Model())
      modifies this`procs, this`needResched
      ensures Valid() && Model() == Apply(old(Model()), Event.BlockCurrent)
      ensures Inv(Model()) <==> Allowed(old(Model()), Event.BlockCurrent)
    {
      hide Homed, PQ.Spells;
      DomainExact(Model(), Event.BlockCurrent);
      if current == idle {
        return;
      }
      procs := procs[current := procs[current].(state := Blocked)];
      needResched := true;
    }

    /** scheduler_finish_current, without the closing of the descriptors. */
    method FinishCurrent()
      requires Valid() && Inv(Model())
      modifies this`procs, this`needResched
      ensures Valid() && Inv(Model()) && Model() == Apply(old(Model()), Event.FinishCurrent)
    {
      hide Homed, PQ.Spells;
      InvKept(Model(), Event.FinishCurrent);
      if current == idle {
        return;
      }
      procs := procs[current := procs[current].(state := Finished)];
      needResched := true;
    }

    /** find_in_queue */
    method FindInQueue(q: nat, pid: Pid) returns (p: Pid)
      requires Valid() && q < QUEUES
      ensures p == if pid in pool.lists[q] then pid else NIL
    {
      hide PQ.Spells;
      p := pool.First(q);
      NoNil(q);
      ghost var i: nat := 0;
      while p != NIL
        invariant i <= |pool.lists[q]| && p == At(pool.lists[q], i, NIL) && pid !in pool.lists[q][..i]
        decreases |pool.lists[q]| - i
      {
        if p == pid {
          return;
        }
        assert pool.lists[q][..i + 1] == pool.lists[q][..i] + [pool.lists[q][i]];
        p := pool.After(q, p, i);
        i := i + 1;
      }
      NoNilInQueue(q, i);
      assert pool.lists[q][..i] == pool.lists[q];
    }

    /** scheduler_find_by_pid */
    method FindByPid(pid: Pid) returns (p: Pid)
      requires Valid() && Inv(Model())
      ensures p == if Found(Model(), pid) then pid else NIL
      ensures p != NIL ==> Found(Model(), pid)
    {
      hide PQ.Spells;
      for q := 0 to QUEUES
        invariant forall r :: 0 <= r < q ==> pid !in pool.lists[r]
      {
        p := FindInQueue(q, pid);
        if p != NIL {
          assert pid in pool.lists[q];
          return;
        }
        NoNil(q);
      }
      NowhereElse(Model(), pid);
      assert 0 <= current;
      return if current == pid then current else NIL;
    }

    /** scheduler_unblock_process */
    method UnblockProcess(p: Pid)
      requires Valid() && Inv(Model()) && Found(Model(), p) && p !in pool.lists[FINISHED_Q]
      modifies this`procs, this`needResched, pool
      ensures Valid() && Model() == Apply(old(Model()), Event.Unblock(p))
      ensures Inv(Model()) <==> Allowed(old(Model()), Event.Unblock(p))
    {
      hide Homed, Inv, Allowed, UnblockStep, PQ.Spells;
      ghost var s := Model();
      DomainExact(s, Event.Unblock(p));
      WhereItIs(s, p);
      MakeReady(p);
      assert Apply(s, Event.Unblock(p)) == UnblockStep(s, p);
    }

    /** Its body, for a process that is in no other queue than that of its state. */
    method MakeReady(p: Pid)
      requires Valid() && p in procs && current in procs && procs[p].priority <= TOP
      requires forall q :: 0 <= q < QUEUES && p in pool.lists[q] ==>
                 (procs[p].state == Blocked && q == BLOCKED_Q) || (procs[p].state == Ready && q == procs[p].priority)
      modifies this`procs, this`needResched, pool
      ensures Valid() && Model() == UnblockStep(old(Model()), p)
    {
      hide PQ.Spells;
      if procs[p].state == Blocked {
        pool.Detach(BLOCKED_Q, p);
      }
      procs := procs[p := procs[p].(state := Ready)];
      ReadyQueuePush(p);
      if procs[p].priority > procs[current].priority {
        needResched := true;
      }
    }

    /** scheduler_kill_by_pid, without the descriptors and without parked waiters. */
    method KillByPid(pid: Pid) returns (found: bool)
      requires Valid() && Inv(Model())
      modifies this`procs, this`needResched, pool
      ensures Valid() && Model() == Apply(old(Model()), Event.Kill(pid))
      ensures Inv(Model()) <==> Allowed(old(Model()), Event.Kill(pid))
      ensures found == Found(old(Model()), pid)
    {
      hide Homed, Inv, Allowed, PQ.Spells;
      ghost var s := Model();
      DomainExact(s, Event.Kill(pid));
      var p := FindByPid(pid);
      found := p != NIL;
      if !found {
        return;
      }
      WhereItIs(s, p);
      Terminate(p);
    }

    /** The end of scheduler_kill_by_pid. */
    method Terminate(p: Pid)
      requires Valid() && p in procs && procs[p].priority <= TOP
      requires forall q :: 0 <= q < QUEUES && q != QueueOf(procs[p]) ==> p !in pool.lists[q]
      modifies this`procs, this`needResched, pool
      ensures Valid() && Model() == KillStep(old(Model()), p)
    {
      hide PQ.Spells;
      if procs[p].state == Ready {
        pool.Detach(procs[p].priority, p);
      } else if procs[p].state == Blocked {
        pool.Detach(BLOCKED_Q, p);
      }
      procs := procs[p := procs[p].(state := Finished)];
      pool.Push(FINISHED_Q, p);
      needResched := needResched || p == current;
    }

    /** scheduler_set_priority */
    method SetPriority(pid: Pid, newPriority: nat) returns (found: bool)
      requires Valid() && Inv(Model())
      modifies this`procs, this`needResched, pool
      ensures Valid() && Inv(Model()) && Model() == Apply(old(Model()), Event.Renice(pid, newPriority))
      ensures found == (Found(old(Model()), pid) && pid != idle)
    {
      hide Homed, Inv, PQ.Spells;
      ghost var s := Model();
      InvKept(s, Event.Renice(pid, newPriority));
      var p := FindByPid(pid);
      found := p != NIL && p != idle;
      if !found {
        return;
      }
      var clamped := Clamp(newPriority);
      var oldp := procs[p].priority;
      WhereItIs(s, p);
      if oldp == clamped {
        return;
      }
      if procs[p].state == Ready {
        pool.Detach(oldp, p);
      }
      procs := procs[p := procs[p].(priority := clamped, basePriority := clamped, waitTicks := 0)];
      if procs[p].state == Ready {
        ReadyQueuePush(p);
      }
      if procs[p].priority > procs[current].priority {
        needResched := true;
      }
    }

    /** scheduler_block_by_pid */
    method BlockByPid(pid: Pid) returns (found: bool)
      requires Valid() && Inv(Model())
      modifies this`procs, this`needResched, pool
      ensures Valid() && Model() == Apply(old(Model()), Event.BlockPid(pid))
      ensures Inv(Model()) <==> Allowed(old(Model()), Event.BlockPid(pid))
      ensures found == (Found(old(Model()), pid) && pid != idle)
    {
      hide Homed, Inv, Allowed, PQ.Spells;
      ghost var s := Model();
      DomainExact(s, Event.BlockPid(pid));
      var p := FindByPid(pid);
      found := p != NIL && p != idle;
      if !found {
        return;
      }
      WhereItIs(s, p);
      if p == current {
        procs := procs[current := procs[current].(state := Blocked)];
        needResched := true;
      } else if procs[p].state == Ready {
        pool.Detach(procs[p].priority, p);
        procs := procs[p := procs[p].(state := Blocked)];
        pool.Push(BLOCKED_Q, p);
        needResched := true;
      }
    }

    /** scheduler_list_all_processes: `room` is the capacity of the caller's buffer. */
    method ListAll(room: nat) returns (buffer: seq<Info>)
      requires Valid() && Inv(Model())
      ensures Pids(buffer) == Listing(Model(), room)
      ensures forall i :: 0 <= i < |buffer| ==> Describes(Model(), buffer[i])
    {
      hide Homed, PQ.Spells;
      buffer := [];
      if room == 0 {
        TakeNothing(Joined(pool.lists, QUEUES));
        return;
      }
      TakeNothing(Joined(pool.lists, 0));
      for q := 0 to QUEUES
        invariant Pids(buffer) == Take(Joined(pool.lists, q), room)
        invariant forall i :: 0 <= i < |buffer| ==> Describes(Model(), buffer[i])
      {
        buffer := ListQueue(buffer, q, room);
      }
      if |buffer| < room {
        var added := false;
        for i := 0 to |buffer|
          invariant !added ==> forall j :: 0 <= j < i ==> buffer[j].pid != current
          invariant added ==> exists j :: 0 <= j < i && buffer[j].pid == current
        {
          if buffer[i].pid == current { added := true; }
        }
        assert added <==> current in Pids(buffer) by { PidsMember(buffer, current); }
        if !added && current != idle {
          buffer := buffer + [Info(current, procs[current].state, procs[current].priority)];
        }
      }
    }

    /** One of the loops over a queue in scheduler_list_all_processes. */
    method ListQueue(start: seq<Info>, q: nat, room: nat) returns (buffer: seq<Info>)
      requires Valid() && Inv(Model()) && q < QUEUES
      requires Pids(start) == Take(Joined(pool.lists, q), room)
      requires forall i :: 0 <= i < |start| ==> Describes(Model(), start[i])
      ensures Pids(buffer) == Take(Joined(pool.lists, q + 1), room)
      ensures forall i :: 0 <= i < |buffer| ==> Describes(Model(), buffer[i])
    {
      hide Homed, PQ.Spells;
      HomedKnown(Model(), Out(Model()));
      NotQueued(Model(), Out(Model()), idle);
      NoNil(q);
      buffer := start;
      var p := pool.First(q);
      ghost var i: nat := 0;
      ghost var all := pool.lists[q];
      assert Joined(pool.lists, q) + all[..0] == Joined(pool.lists, q);
      while p != NIL && |buffer| < room
        invariant i <= |all| && p == At(all, i, NIL)
        invariant Pids(buffer) == Take(Joined(pool.lists, q) + all[..i], room)
        invariant forall k :: 0 <= k < |buffer| ==> Describes(Model(), buffer[k])
        decreases |all| - i
      {
        assert p in all;
        assert Joined(pool.lists, q) + all[..i + 1] == Joined(pool.lists, q) + all[..i] + [p];
        buffer := buffer + [Info(p, procs[p].state, procs[p].priority)];
        p := pool.After(q, p, i);
        i := i + 1;
      }
      AtMember(all, i, NIL);
      assert all == all[..i] + all[i..];
      assert Joined(pool.lists, q) + all == Joined(pool.lists, q) + all[..i] + all[i..];
    }

    lemma NoNilInQueue(pr: nat, i: nat)
      requires pool.Valid() && pr < |pool.lists| && i <= |pool.lists[pr]| && At(pool.lists[pr], i, NIL) == NIL
      ensures i == |pool.lists[pr]|
    {
      AtMember(pool.lists[pr], i, NIL);
    }
  }
}
