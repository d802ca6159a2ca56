/** Runs of the scheduler: the kernel entries as events, and the membership invariant over them. */
module SchedulerRuns {
  import opened Sequences
  import opened Links
  import opened SchedulerSpec
  import opened SchedulerSteps

  datatype Event =
    | Tick                                      // timer interrupt
    | Yield                                     // scheduler_yield_current
    | Spawn(priority: nat)                      // scheduler_spawn_process
    | BlockCurrent                              // scheduler_block_current
    | FinishCurrent                             // scheduler_finish_current
    | Unblock(pid: Pid)                         // scheduler_unblock_process, _by_pid
    | Kill(pid: Pid)                            // scheduler_kill_by_pid
    | Renice(pid: Pid, priority: nat)           // scheduler_set_priority
    | BlockPid(pid: Pid)                        // scheduler_block_by_pid

  /** scheduler_find_by_pid finds every process but an idle process that is not running. */
  predicate Found(s: State, p: Pid) {
    p in s.procs && (p != s.idle || p == s.current)
  }

  /** The domain. The running process and a finished one are not unblocked, the idle process is not
      killed, and a running process that was killed does not block before the next switch. */
  predicate Allowed(s: State, e: Event) {
    match e
    case Unblock(p) => Found(s, p) ==> p != s.current && s.procs[p].state != Finished
    case Kill(p) => Found(s, p) ==> p != s.idle
    case BlockCurrent => !Doomed(s)
    case BlockPid(p) => p == s.current ==> !Doomed(s)
    case _ => true
  }

  function SetCurrent(s: State, a: Activity): State
    requires s.current in s.procs
  {
    if s.current == s.idle then s
    else Update(s, s.current, s.procs[s.current].(state := a)).(needResched := true)
  }

  function SpawnStep(s: State, priority: nat): State
    requires |s.queues| == QUEUES
  {
    var pr := Clamp(priority);
    ReadyPush(Update(s, s.nextPid, Process(Ready, pr, pr, 0)), s.nextPid).(nextPid := s.nextPid + 1)
  }

  function UnblockStep(s: State, p: Pid): State
    requires |s.queues| == QUEUES && s.current in s.procs && p in s.procs
  {
    var s1 := if s.procs[p].state == Blocked then Remove(s, BLOCKED_Q, p) else s;
    var s2 := ReadyPush(Update(s1, p, s1.procs[p].(state := Ready)), p);
    s2.(needResched := s.needResched || s2.procs[p].priority > s2.procs[s.current].priority)
  }

  function KillStep(s: State, p: Pid): State
    requires |s.queues| == QUEUES && p in s.procs && s.procs[p].priority <= TOP
  {
    var pcb := s.procs[p];
    var s1 := if pcb.state == Ready then Remove(s, pcb.priority, p)
              else if pcb.state == Blocked then Remove(s, BLOCKED_Q, p)
              else s;
    var s2 := Push(Update(s1, p, pcb.(state := Finished)), FINISHED_Q, p);
    s2.(needResched := s.needResched || p == s.current)
  }

  function ReniceStep(s: State, p: Pid, priority: nat): State
    requires |s.queues| == QUEUES && s.current in s.procs && p in s.procs && s.procs[p].priority <= TOP
  {
    var pcb, pr := s.procs[p], Clamp(priority);
    if p == s.idle || pcb.priority == pr then s
    else
      var s1 := if pcb.state == Ready then Remove(s, pcb.priority, p) else s;
      var s2 := Update(s1, p, pcb.(priority := pr, basePriority := pr, waitTicks := 0));
      var s3 := if pcb.state == Ready then ReadyPush(s2, p) else s2;
      s3.(needResched := s.needResched || pr > s3.procs[s.current].priority)
  }

  function BlockPidStep(s: State, p: Pid): State
    requires |s.queues| == QUEUES && p in s.procs && s.procs[p].priority <= TOP
  {
    var pcb := s.procs[p];
    if p == s.idle then s
    else if p == s.current then Update(s, p, pcb.(state := Blocked)).(needResched := true)
    else if pcb.state == Ready then
      Push(Update(Remove(s, pcb.priority, p), p, pcb.(state := Blocked)), BLOCKED_Q, p).(needResched := true)
    else s
  }

  function Ticked(s: State): State {
    s.(ticks := s.ticks + 1)
  }

  /** scheduler_yield_current backdates the last switch by a whole quantum. */
  function Backdated(s: State): State {
    Ticked(s).(lastSwitch := s.ticks - QUANTUM_TICKS)
  }

  lemma TickedSchedulable(s: State)
    requires Inv(s)
    ensures Schedulable(Ticked(s)) && Schedulable(Backdated(s))
  {
    RehomeClock(s, Ticked(s));
    RehomeClock(s, Backdated(s));
  }

  lemma RehomeClock(s: State, t: State)
    requires Homed(s, Out(s)) && t == s.(ticks := t.ticks, lastSwitch := t.lastSwitch, needResched := t.needResched)
    ensures Homed(t, Out(s))
  {
    forall p | p in t.procs ensures ProcessOk(t.procs[p]) { assert ProcessOk(s.procs[p]); }
  }

  ghost function Apply(s: State, e: Event): State
    requires Inv(s)
  {
    match e
    case Tick => TickedSchedulable(s); Schedule(Ticked(s))
    case Yield => if s.current == s.idle then s else TickedSchedulable(s); Schedule(Backdated(s))
    case Spawn(pr) => SpawnStep(s, pr)
    case BlockCurrent => SetCurrent(s, Blocked)
    case FinishCurrent => SetCurrent(s, Finished)
    case Unblock(p) => if Found(s, p) then UnblockStep(s, p) else s
    case Kill(p) => if Found(s, p) then assert ProcessOk(s.procs[p]); KillStep(s, p) else s
    case Renice(p, pr) => if Found(s, p) then assert ProcessOk(s.procs[p]); ReniceStep(s, p, pr) else s
    case BlockPid(p) => if Found(s, p) then assert ProcessOk(s.procs[p]); BlockPidStep(s, p) else s
  }

  // ---------------------------------------------------------------- the invariant

  lemma ScheduleKeeps(s: State)
    requires Schedulable(s) && s.ticks - s.lastSwitch >= 0
    ensures Inv(Schedule(s))
  {
    hide Homed;
    var a := Age(s);
    AgeSchedulable(s);
    HomedKnown(a, Out(a));
    if MustSwitch(a) {
      var b := a.(needResched := false);
      RehomeClock(a, b);
      SaveKeeps(b);
      var c := SaveContext(b);
      DispatchKeeps(c);
      var d := Dispatch(c);
      ReapKeeps(d, Out(d), MAX_FINISHED_COLLECT);
    }
  }

  /** Every kernel entry of the domain keeps every process in exactly one place. */
  lemma InvKept(s: State, e: Event)
    requires Inv(s) && Allowed(s, e)
    ensures Inv(Apply(s, e))
  {
    hide Homed;
    match e
    case Tick =>
      TickedSchedulable(s);
      ScheduleKeeps(Ticked(s));
    case Yield =>
      if s.current != s.idle {
        TickedSchedulable(s);
        ScheduleKeeps(Backdated(s));
      }
    case Spawn(pr) => SpawnKeeps(s, pr);
    case BlockCurrent => CurrentKeeps(s, Blocked);
    case FinishCurrent => CurrentKeeps(s, Finished);
    case Unblock(p) => if Found(s, p) { UnblockKeeps(s, p); }
    case Kill(p) => if Found(s, p) { KillKeeps(s, p); }
    case Renice(p, pr) => if Found(s, p) { ReniceKeeps(s, p, pr); }
    case BlockPid(p) => if Found(s, p) { BlockPidKeeps(s, p); }
  }

  /** The domain is exact: outside of it every entry breaks the invariant. */
  lemma DomainExact(s: State, e: Event)
    requires Inv(s)
    ensures Inv(Apply(s, e)) <==> Allowed(s, e)
  {
    if Allowed(s, e) {
      InvKept(s, e);
    } else {
      match e
      case Unblock(p) => UnblockBreaks(s, p);
      case Kill(p) => KillIdleBreaks(s);
      case BlockCurrent => BlockDoomedBreaks(s, Apply(s, e));
      case BlockPid(p) => BlockDoomedBreaks(s, Apply(s, e));
    }
  }

  lemma UnblockBreaks(s: State, p: Pid)
    requires Inv(s) && Found(s, p) && (p == s.current || s.procs[p].state == Finished)
    ensures !Inv(UnblockStep(s, p))
  {
    assert ProcessOk(s.procs[p]);
    var t := UnblockStep(s, p);
    if p != s.current {
      assert p in s.queues[FINISHED_Q];
      assert p in t.queues[FINISHED_Q] && QueueOf(t.procs[p]) != FINISHED_Q;
    }
  }

  lemma KillIdleBreaks(s: State)
    requires Inv(s)
    ensures s.procs[s.idle].priority <= TOP && !Inv(KillStep(s, s.idle))
  {
    assert ProcessOk(s.procs[s.idle]);
    assert KillStep(s, s.idle).procs[s.idle].state == Finished;
  }

  /** A process that was killed while running is in the finished queue: once it blocks, its queue is
      not that of its state. */
  lemma BlockDoomedBreaks(s: State, t: State)
    requires Inv(s) && Doomed(s) && s.current in t.procs
    requires t.queues == s.queues && t.procs[s.current].state == Blocked
    ensures !Inv(t)
  {
    assert s.current in t.queues[FINISHED_Q] && QueueOf(t.procs[s.current]) != FINISHED_Q;
  }

  /** Moving a waiting process to the queue of its new state, at the tail. */
  function Moved(s: State, p: Pid, from: nat, pcb: Process): State
    requires from < |s.queues| && 0 <= QueueOf(pcb) < |s.queues|
  {
    Push(Update(Remove(s, from, p), p, pcb), QueueOf(pcb), p)
  }

  lemma MovedKeeps(s: State, out: set<Pid>, p: Pid, pcb: Process)
    requires Homed(s, out) && p in s.procs && p !in out && ProcessOk(pcb) && 0 <= QueueOf(pcb) < QUEUES
    ensures 0 <= QueueOf(s.procs[p]) < QUEUES && |s.queues| == QUEUES
    ensures Homed(Moved(s, p, QueueOf(s.procs[p]), pcb), out)
  {
    var q := QueueOf(s.procs[p]);
    DequeueKeeps(s, out, p);
    ChangeKeeps(Remove(s, q, p), out + {p}, p, pcb);
    EnqueueKeeps(Update(Remove(s, q, p), p, pcb), out + {p}, p);
    assert out + {p} - {p} == out;
  }

  lemma SpawnKeeps(s: State, pr: nat)
    requires Inv(s)
    ensures Inv(SpawnStep(s, pr))
  {
    var p := s.nextPid;
    var pcb := Process(Ready, Clamp(pr), Clamp(pr), 0);
    var s1 := Update(s, p, pcb).(nextPid := p + 1);
    assert Homed(s1, Out(s) + {p}) by {
      forall x | x in s1.procs ensures ProcessOk(s1.procs[x]) {
        if x != p { assert ProcessOk(s.procs[x]); }
      }
    }
    EnqueueKeeps(s1, Out(s) + {p}, p);
    assert Out(s) + {p} - {p} == Out(s);
  }

  lemma CurrentKeeps(s: State, a: Activity)
    requires Inv(s) && (a == Finished || (a == Blocked && !Doomed(s)))
    ensures Inv(SetCurrent(s, a))
  {
    if s.current != s.idle {
      assert ProcessOk(s.procs[s.current]);
      if Doomed(s) {
        RewriteKeeps(s, Out(s), s.current, s.procs[s.current].(state := a));
      } else {
        ChangeKeeps(s, Out(s), s.current, s.procs[s.current].(state := a));
      }
      var s1 := Update(s, s.current, s.procs[s.current].(state := a));
      RehomeClock(s1, s1.(needResched := true));
    }
  }

  lemma UnblockKeeps(s: State, p: Pid)
    requires Inv(s) && Found(s, p) && p != s.current && s.procs[p].state != Finished
    ensures Inv(UnblockStep(s, p))
  {
    assert ProcessOk(s.procs[p]);
    var pcb := s.procs[p].(state := Ready);
    MovedKeeps(s, Out(s), p, pcb);
    var m := Moved(s, p, QueueOf(s.procs[p]), pcb);
    UnblockIsMove(s, p);
    RehomeClock(m, UnblockStep(s, p));
  }

  lemma UnblockIsMove(s: State, p: Pid)
    requires Inv(s) && Found(s, p) && p != s.current && s.procs[p].state != Finished
    ensures 0 <= QueueOf(s.procs[p]) < QUEUES && s.procs[p].priority <= TOP
    ensures UnblockStep(s, p).(needResched := s.needResched)
            == Moved(s, p, QueueOf(s.procs[p]), s.procs[p].(state := Ready))
  {
    assert ProcessOk(s.procs[p]);
    var q := QueueOf(s.procs[p]);
    assert p in s.queues[q];
    assert s.procs[p := s.procs[p]] == s.procs;
    if s.procs[p].state == Ready {
      WithoutIs(s.queues[q], Index(s.queues[q], p));
      assert Without(Without(s.queues[q], p), p) == Without(s.queues[q], p);
    }
  }

  lemma KillKeeps(s: State, p: Pid)
    requires Inv(s) && Found(s, p) && p != s.idle
    ensures s.procs[p].priority <= TOP && Inv(KillStep(s, p))
  {
    assert ProcessOk(s.procs[p]);
    if p in Out(s) {
      KillRunning(s);
    } else {
      var pcb := s.procs[p].(state := Finished);
      var q := QueueOf(s.procs[p]);
      MovedKeeps(s, Out(s), p, pcb);
      assert p in s.queues[q];
      if s.procs[p].state == Finished {
        WithoutTwice(s.queues[q], p);
      }
      var m := Moved(s, p, q, pcb);
      assert KillStep(s, p) == m.(needResched := s.needResched || p == s.current);
      RehomeClock(m, KillStep(s, p));
    }
  }

  /** Killing the running process, as Ctrl-C does: it enters the finished queue ahead of the switch. */
  lemma KillRunning(s: State)
    requires Inv(s) && s.current != s.idle && !Doomed(s)
    ensures s.procs[s.current].priority <= TOP
    ensures Inv(KillStep(s, s.current)) && Doomed(KillStep(s, s.current))
  {
    var p := s.current;
    assert ProcessOk(s.procs[p]);
    var pcb := s.procs[p].(state := Finished);
    assert s.queues[BLOCKED_Q := Without(s.queues[BLOCKED_Q], p)] == s.queues;
    ChangeKeeps(s, Out(s), p, pcb);
    EnqueueKeeps(Update(s, p, pcb), Out(s), p);
    assert Out(s) - {p} == {s.idle};
    var t := Push(Update(s, p, pcb), FINISHED_Q, p);
    assert KillStep(s, p) == t.(needResched := true);
    RehomeClock(t, KillStep(s, p));
  }

  lemma ReniceKeeps(s: State, p: Pid, pr: nat)
    requires Inv(s) && Found(s, p)
    ensures s.procs[p].priority <= TOP && Inv(ReniceStep(s, p, pr))
  {
    assert ProcessOk(s.procs[p]);
    var was, c := s.procs[p], Clamp(pr);
    if p != s.idle && was.priority != c {
      var pcb := was.(priority := c, basePriority := c, waitTicks := 0);
      var r := ReniceStep(s, p, pr);
      if was.state == Ready {
        MovedKeeps(s, Out(s), p, pcb);
        RehomeClock(Moved(s, p, QueueOf(was), pcb), r);
      } else if p in Out(s) {
        ChangeKeeps(s, Out(s), p, pcb);
        RehomeClock(Update(s, p, pcb), r);
      } else {
        RewriteKeeps(s, Out(s), p, pcb);
        RehomeClock(Update(s, p, pcb), r);
      }
    }
  }

  lemma BlockPidKeeps(s: State, p: Pid)
    requires Inv(s) && Found(s, p) && (p == s.current ==> !Doomed(s))
    ensures s.procs[p].priority <= TOP && Inv(BlockPidStep(s, p))
  {
    assert ProcessOk(s.procs[p]);
    var pcb := s.procs[p].(state := Blocked);
    if p == s.current && p != s.idle {
      CurrentKeeps(s, Blocked);
    } else if p != s.idle && s.procs[p].state == Ready {
      MovedKeeps(s, Out(s), p, pcb);
      var m := Moved(s, p, QueueOf(s.procs[p]), pcb);
      RehomeClock(m, m.(needResched := true));
    }
  }

  /** The state init_scheduler leaves: the idle process alone, and running. */
  function Boot(now: int): State {
    State(map[1 := Process(Running, 1, 1, 0)], seq(QUEUES, _ => []), 1, 1, now, false, now, 2)
  }

  ghost predicate Follows(s: State, e: Event, t: State) {
    Inv(s) ==> Allowed(s, e) && t == Apply(s, e)
  }

  ghost predicate Reaches(states: seq<State>, events: seq<Event>) {
    && |states| == |events| + 1
    && states[0] == Boot(states[0].ticks)
    && forall i :: 0 <= i < |events| ==> Follows(states[i], events[i], states[i + 1])
  }

  lemma {:induction false} Reachable(states: seq<State>, events: seq<Event>, k: nat)
    requires Reaches(states, events) && k <= |events|
    ensures Inv(states[k])
  {
    if k > 0 {
      Reachable(states, events, k - 1);
      assert Follows(states[k - 1], events[k - 1], states[k]);
      InvKept(states[k - 1], events[k - 1]);
    }
  }

  /** In every reachable state each process but the running and the idle one is in exactly one queue,
      once, that of its state and current priority, and does not run. The idle process is in none, and
      neither is the running one, unless it was killed: then it is in the finished queue. */
  lemma Membership(states: seq<State>, events: seq<Event>, k: nat)
    requires Reaches(states, events) && k <= |events|
    ensures var s := states[k];
            && |s.queues| == QUEUES
            && (forall q :: 0 <= q < QUEUES ==> Distinct(s.queues[q]) && s.idle !in s.queues[q])
            && (forall q :: 0 <= q < QUEUES && s.current in s.queues[q] ==>
                  q == FINISHED_Q && s.current in s.procs && s.procs[s.current].state == Finished)
            && (forall p :: p in s.procs && p != s.current && p != s.idle ==>
                  && s.procs[p].state in {Ready, Blocked, Finished}
                  && forall q :: 0 <= q < QUEUES ==> (p in s.queues[q] <==> q == QueueOf(s.procs[p])))
  {
    Reachable(states, events, k);
    var s := states[k];
    forall p | p in s.procs && p != s.current && p != s.idle ensures s.procs[p].state in {Ready, Blocked, Finished} {
      assert 0 <= QueueOf(s.procs[p]) < QUEUES;
    }
  }

  // ---------------------------------------------------------------- waiters

  /** The body of the wake-up loops in save_context and scheduler_kill_by_pid: a parked waiter is made
      ready without being taken out of the blocked queue. */
  function WakeWaiter(s: State, w: Pid): State
    requires |s.queues| == QUEUES && w in s.procs
  {
    ReadyPush(Update(s, w, s.procs[w].(state := Ready)), w)
  }

  /** The loop: `ws` is the list of waiters. */
  function WakeAll(s: State, ws: seq<Pid>): (r: State)
    requires |s.queues| == QUEUES && forall w :: w in ws ==> w in s.procs
    ensures |r.queues| == QUEUES && r.procs.Keys == s.procs.Keys
    ensures r == s.(procs := r.procs, queues := r.queues)
    decreases |ws|
  {
    if ws == [] then s else WakeAll(WakeWaiter(s, ws[0]), ws[1..])
  }

  /** Waking one process this way keeps everybody in one place if and only if it was ready already. */
  lemma WakeExactly(s: State, out: set<Pid>, w: Pid)
    requires Homed(s, out) && w in s.procs && w !in out
    ensures Homed(WakeWaiter(s, w), out) <==> s.procs[w].state == Ready
  {
    assert ProcessOk(s.procs[w]);
    var q, t := QueueOf(s.procs[w]), WakeWaiter(s, w);
    assert w in s.queues[q];
    if s.procs[w].state == Ready {
      assert s.procs[w := s.procs[w]] == s.procs;
      PushedAgain(s, out, w);
    } else {
      assert w in t.queues[q] && QueueOf(t.procs[w]) != q;
    }
  }

  /** A ready process in a queue that is not a ready queue. */
  predicate Stray(s: State, w: Pid, q: nat) {
    && |s.queues| == QUEUES && TOP < q < QUEUES && w in s.queues[q]
    && w in s.procs && s.procs[w].state == Ready && s.procs[w].priority <= TOP
  }

  lemma StrayBreaks(s: State, out: set<Pid>, w: Pid, q: nat)
    requires Stray(s, w, q)
    ensures !Homed(s, out)
  {
    assert w in s.queues[q] && QueueOf(s.procs[w]) != q;
  }

  /** Waking never takes a process out of such a queue. */
  lemma {:induction false} WakeAllStrays(s: State, ws: seq<Pid>, w: Pid, q: nat)
    requires |s.queues| == QUEUES && forall x :: x in ws ==> x in s.procs
    requires Stray(s, w, q) || (w in ws && TOP < q < QUEUES && w in s.queues[q])
    ensures Stray(WakeAll(s, ws), w, q)
    decreases |ws|
  {
    if ws != [] {
      assert ws[0] in ws && forall x :: x in ws[1..] ==> x in ws;
      WakeAllStrays(WakeWaiter(s, ws[0]), ws[1..], w, q);
    }
  }

  /** The whole loop keeps everybody in one place if and only if all its processes were ready already. */
  lemma {:induction false} WakeAllExactly(s: State, out: set<Pid>, ws: seq<Pid>)
    requires Homed(s, out) && forall w :: w in ws ==> w in s.procs && w !in out
    ensures Homed(WakeAll(s, ws), out) <==> forall w :: w in ws ==> s.procs[w].state == Ready
    decreases |ws|
  {
    hide Homed;
    HomedKnown(s, out);
    if ws != [] {
      var w, t := ws[0], WakeWaiter(s, ws[0]);
      assert w in ws && forall x :: x in ws[1..] ==> x in ws;
      WakeExactly(s, out, w);
      if s.procs[w].state == Ready {
        WakeAllExactly(t, out, ws[1..]);
        assert forall x :: x in ws ==> x == w || x in ws[1..];
      } else {
        var q := Misplaced(s, out, w);
        WakeAllStrays(s, ws, w, q);
        StrayBreaks(WakeAll(s, ws), out, w, q);
      }
    }
  }

  lemma Misplaced(s: State, out: set<Pid>, w: Pid) returns (q: nat)
    requires Homed(s, out) && w in s.procs && w !in out && s.procs[w].state != Ready
    ensures |s.queues| == QUEUES && TOP < q < QUEUES && w in s.queues[q]
    ensures s.procs[w].state == Blocked ==> q == BLOCKED_Q
  {
    assert ProcessOk(s.procs[w]);
    q := QueueOf(s.procs[w]);
    assert w in s.queues[q];
  }

  ghost predicate AllParked(s: State, ws: seq<Pid>) {
    forall w :: w in ws ==> w in s.procs && w !in Out(s) && s.procs[w].state == Blocked
  }

  /** So waking waiters that are parked in the blocked queue keeps the invariant if and only if there are
      none, while scheduler_unblock_process keeps it for each of them. */
  lemma WakeWaiterBreaks(s: State, ws: seq<Pid>)
    requires Inv(s) && AllParked(s, ws)
    ensures Inv(WakeAll(s, ws)) <==> ws == []
    ensures forall w :: w in ws ==> Inv(UnblockStep(s, w))
  {
    if ws != [] {
      assert ws[0] in ws;
      var q := Misplaced(s, Out(s), ws[0]);
      WakeAllStrays(s, ws, ws[0], q);
      StrayBreaks(WakeAll(s, ws), Out(WakeAll(s, ws)), ws[0], q);
    }
    forall w | w in ws ensures Inv(UnblockStep(s, w)) {
      assert w != s.current by { ParkedWaits(s, w); }
      UnblockKeeps(s, w);
    }
  }

  lemma ParkedWaits(s: State, w: Pid)
    requires Inv(s) && w in s.procs && w !in Out(s) && s.procs[w].state == Blocked
    ensures w != s.current && w != s.idle
  {
    assert Doomed(s) ==> s.procs[s.current].state == Finished;
  }

  /** scheduler_kill_by_pid with its waiters, `ws`. */
  function KillWaking(s: State, p: Pid, ws: seq<Pid>): State
    requires |s.queues| == QUEUES && p in s.procs && s.procs[p].priority <= TOP && forall w :: w in ws ==> w in s.procs
  {
    var pcb := s.procs[p];
    var s1 := if pcb.state == Ready then Remove(s, pcb.priority, p)
              else if pcb.state == Blocked then Remove(s, BLOCKED_Q, p)
              else s;
    var s2 := Push(WakeAll(Update(s1, p, pcb.(state := Finished)), ws), FINISHED_Q, p);
    s2.(needResched := s.needResched || p == s.current)
  }

  /** A kill keeps the invariant if and only if nobody waits for the victim. */
  lemma KillWakingExactly(s: State, p: Pid, ws: seq<Pid>)
    requires Inv(s) && Found(s, p) && p != s.idle && p !in ws && AllParked(s, ws)
    ensures s.procs[p].priority <= TOP && (Inv(KillWaking(s, p, ws)) <==> ws == [])
  {
    KillKeeps(s, p);
    if ws != [] {
      var w, pcb := ws[0], s.procs[p];
      assert w in ws && w in s.queues[BLOCKED_Q] && ProcessOk(s.procs[p]);
      var s1 := if pcb.state == Ready then Remove(s, pcb.priority, p)
                else if pcb.state == Blocked then Remove(s, BLOCKED_Q, p)
                else s;
      assert w in s1.queues[BLOCKED_Q];
      WakeAllStrays(Update(s1, p, pcb.(state := Finished)), ws, w, BLOCKED_Q);
      StrayBreaks(KillWaking(s, p, ws), Out(KillWaking(s, p, ws)), w, BLOCKED_Q);
    }
  }

  /** save_context for a process that has finished, with its waiters. */
  function SaveWaking(s: State, ws: seq<Pid>): State
    requires |s.queues| == QUEUES && forall w :: w in ws ==> w in s.procs
  {
    Push(WakeAll(s, ws), FINISHED_Q, s.current)
  }

  /** The same when a process ends by itself. */
  lemma SaveWakingExactly(s: State, ws: seq<Pid>)
    requires Schedulable(s) && s.procs[s.current].state == Finished && AllParked(s, ws)
    ensures Homed(SaveWaking(s, ws), {s.idle}) <==> ws == []
  {
    hide Homed;
    if ws == [] {
      SaveKeeps(s);
    } else {
      assert ws[0] in ws;
      var q := Misplaced(s, Out(s), ws[0]);
      WakeAllStrays(s, ws, ws[0], q);
      StrayBreaks(SaveWaking(s, ws), {s.idle}, ws[0], q);
    }
  }

  /** A process that blocks itself is parked by the next tick. */
  lemma BlockParks(s: State)
    requires Inv(s) && s.current != s.idle && !Doomed(s)
    ensures var t := Apply(s, BlockCurrent);
            Inv(t) && Inv(Apply(t, Tick)) && AllParked(Apply(t, Tick), [s.current])
  {
    hide Homed, Age, SaveContext, Dispatch, Reap;
    InvKept(s, BlockCurrent);
    var t := Apply(s, BlockCurrent);
    InvKept(t, Tick);
    TickedSchedulable(t);
    var a := Age(Ticked(t));
    AgeSchedulable(Ticked(t));
    HomedKnown(a, Out(a));
    RehomeClock(a, a.(needResched := false));
    SwitchParks(a.(needResched := false));
  }

  lemma SwitchParks(s: State)
    requires Schedulable(s) && s.current != s.idle && s.procs[s.current].state == Blocked
    ensures Homed(SaveContext(s), {s.idle}) && Known(SaveContext(s)) && s.idle in SaveContext(s).procs
    ensures |Dispatch(SaveContext(s)).queues| == QUEUES
    ensures AllParked(Reap(Dispatch(SaveContext(s)), MAX_FINISHED_COLLECT), [s.current])
  {
    hide Reap;
    SaveKeeps(s);
    var c := SaveContext(s);
    HomedKnown(c, {c.idle});
    var d := Dispatch(c);
    DispatchKeeps(c);
    assert d.current != s.current by {
      var l := Highest(c.queues, TOP);
      assert QueueOf(c.procs[s.current]) == BLOCKED_Q;
      assert l >= 0 ==> c.queues[l][0] in c.queues[l];
    }
    ReapKeeps(d, Out(d), MAX_FINISHED_COLLECT);
  }

  /** So states with a parked process are reached. */
  lemma ParkedReached(now: int) returns (states: seq<State>, events: seq<Event>)
    ensures Reaches(states, events) && AllParked(states[|events|], [2])
  {
    hide Homed, Apply;
    var s0 := Boot(now);
    BootRuns(now);
    var s1 := Apply(s0, Spawn(TOP));
    var s2 := Apply(s1, Tick);
    BlockParks(s2);
    var s3 := Apply(s2, BlockCurrent);
    states, events := [s0, s1, s2, s3, Apply(s3, Tick)], [Spawn(TOP), Tick, BlockCurrent, Tick];
    forall i | 0 <= i < |events| ensures Follows(states[i], events[i], states[i + 1]) {
      assert i == 0 || i == 1 || i == 2 || i == 3;
    }
  }

  /** So are states whose running process was killed: one more block breaks them. */
  lemma DoomedReached(now: int) returns (states: seq<State>, events: seq<Event>)
    ensures Reaches(states, events)
    ensures var s := states[|events|]; Inv(s) && Doomed(s) && !Inv(Apply(s, BlockCurrent))
  {
    hide Homed, Apply;
    var s0 := Boot(now);
    BootRuns(now);
    var s1 := Apply(s0, Spawn(TOP));
    var s2 := Apply(s1, Tick);
    KillCurrent(s2);
    var s3 := Apply(s2, Kill(2));
    DomainExact(s3, BlockCurrent);
    states, events := [s0, s1, s2, s3], [Spawn(TOP), Tick, Kill(2)];
    forall i | 0 <= i < |events| ensures Follows(states[i], events[i], states[i + 1]) {
      assert i == 0 || i == 1 || i == 2;
    }
  }

  /** The other entries outside of the domain are met as soon as the scheduler runs: the idle process is
      killed or unblocked, and a process that was killed is unblocked. */
  lemma OutsideMet(now: int)
    ensures Inv(Boot(now)) && !Inv(Apply(Boot(now), Kill(1))) && !Inv(Apply(Boot(now), Unblock(1)))
    ensures var s := Apply(Boot(now), Spawn(TOP));
            Inv(s) && Inv(Apply(s, Kill(2))) && !Inv(Apply(Apply(s, Kill(2)), Unblock(2)))
  {
    hide Homed;
    BootRuns(now);
    var s0 := Boot(now);
    DomainExact(s0, Kill(1));
    DomainExact(s0, Unblock(1));
    var s1 := Apply(s0, Spawn(TOP));
    DomainExact(s1, Kill(2));
    DomainExact(Apply(s1, Kill(2)), Unblock(2));
  }

  lemma KillCurrent(s: State)
    requires Inv(s) && s.current != s.idle && !Doomed(s)
    ensures Inv(Apply(s, Kill(s.current))) && Doomed(Apply(s, Kill(s.current)))
  {
    hide Homed;
    KillRunning(s);
  }

  lemma BootRuns(now: int)
    ensures Inv(Boot(now)) && Inv(Apply(Boot(now), Spawn(TOP)))
    ensures var s := Apply(Apply(Boot(now), Spawn(TOP)), Tick);
            Inv(s) && s.current == 2 && s.idle == 1 && !Doomed(s)
  {
    var s0 := Boot(now);
    assert ProcessOk(s0.procs[1]);
    InvKept(s0, Spawn(TOP));
    var s1 := SpawnStep(s0, TOP);
    assert s1.queues[TOP] == [2];
    LonelyRuns(s1, 2);
  }

  /** The only ready process, at the top priority, gets the CPU from an idle process below. */
  lemma LonelyRuns(s: State, p: Pid)
    requires Inv(s) && s.current == s.idle && s.procs[s.idle].priority < TOP && p != s.idle
    requires s.queues[0] == s.queues[1] == [] && s.queues[TOP] == [p] && p in s.procs && s.procs[p].priority == TOP
    ensures var r := Apply(s, Tick);
            Inv(r) && r.current == p && r.idle == s.idle && !Doomed(r)
  {
    hide Homed, Reap;
    InvKept(s, Tick);
    TickedSchedulable(s);
    var t := Ticked(s);
    var v := Visit(t, TOP, 0);
    assert Age(t) == v by {
      VisitKeeps(t, Out(t), TOP, 0);
      assert AgeLevel(t, 0, 0) == t && AgeLevel(t, 1, 0) == t;
      assert AgeLevel(t, TOP, 0) == AgeLevel(v, TOP, 1) == v;
    }
    AgeSchedulable(t);
    HomedKnown(v, Out(v));
    assert v.current == s.idle && v.procs[v.current] == s.procs[s.idle] && v.procs[p].priority == TOP;
    assert Peek(v) == p && p in v.queues[TOP];
    assert MustSwitch(v);
    var b := v.(needResched := false);
    RehomeClock(v, b);
    SaveKeeps(b);
    var c := SaveContext(b);
    assert c == b;
    HomedKnown(c, {c.idle});
    assert Dispatch(c).current == p;
    DispatchKeeps(c);
    ReapKeeps(Dispatch(c), Out(Dispatch(c)), MAX_FINISHED_COLLECT);
    assert !Doomed(Apply(s, Tick)) by { RunningNotDoomed(Apply(s, Tick)); }
  }

  lemma RunningNotDoomed(s: State)
    requires Inv(s) && s.procs[s.current].state == Running
    ensures !Doomed(s)
  {
    assert QueueOf(s.procs[s.current]) != FINISHED_Q;
  }

  // ---------------------------------------------------------------- the process listing

  function Joined(queues: seq<seq<Pid>>, n: nat): seq<Pid>
    requires n <= |queues|
  {
    if n == 0 then [] else Joined(queues, n - 1) + queues[n - 1]
  }

  function Take(l: seq<Pid>, n: nat): seq<Pid> {
    if |l| <= n then l else l[..n]
  }

  /** The pids scheduler_list_all_processes writes into a buffer with room for `room` entries. */
  function Listing(s: State, room: nat): seq<Pid>
    requires |s.queues| == QUEUES
  {
    var l := Take(Joined(s.queues, QUEUES), room);
    if |l| < room && s.current != s.idle && s.current !in l then l + [s.current] else l
  }

  lemma {:induction false} JoinedMembers(s: State, out: set<Pid>, n: nat)
    requires Homed(s, out) && n <= QUEUES
    ensures Distinct(Joined(s.queues, n))
    ensures forall p :: p in Joined(s.queues, n) <==> p in s.procs && p !in out && QueueOf(s.procs[p]) < n
  {
    if n > 0 {
      JoinedMembers(s, out, n - 1);
      var a, b := Joined(s.queues, n - 1), s.queues[n - 1];
      forall p ensures p in a + b <==> p in s.procs && p !in out && QueueOf(s.procs[p]) < n {
        assert p in s.procs && p !in out ==> 0 <= QueueOf(s.procs[p]) < QUEUES;
      }
      forall i, j | 0 <= i < j < |a + b| ensures (a + b)[i] != (a + b)[j] {
        if i < |a| <= j { assert a[i] in a && b[j - |a|] in b; }
      }
    }
  }

  /** With room for everybody the listing names each process but the idle one exactly once. */
  lemma ListingComplete(s: State, room: nat)
    requires Inv(s) && |s.procs| <= room
    ensures Distinct(Listing(s, room))
    ensures forall p :: p in Listing(s, room) <==> p in s.procs && p != s.idle
  {
    JoinedMembers(s, Out(s), QUEUES);
    var l := Joined(s.queues, QUEUES);
    assert forall p :: p in l ==> p in s.procs.Keys - {s.idle};
    DistinctFits(l, s.procs.Keys - {s.idle});
    forall p ensures p in Listing(s, room) <==> p in s.procs && p != s.idle {
      assert p in s.procs && p !in Out(s) ==> 0 <= QueueOf(s.procs[p]) < QUEUES;
    }
  }
}
