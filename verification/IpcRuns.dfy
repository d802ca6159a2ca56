/** Runs of the whole inter-process communication system, for any interleaving of its steps:
    counters agree, bytes arrive in order, no reader sleeps on data nobody is due to take, and
    nobody sleeps at end of file. */
module IpcRuns {
  import opened Sequences
  import opened Semaphore
  import opened PipeSpec
  import opened IpcSystem
  import opened IpcSteps

  datatype Event =
    | Create(freeSems: nat)                                               // syscall_pipe_create
    | Start(child: Pid, parent: Pid, stdinId: nat, stdoutId: nat)         // process_create
    | CloseFds(pid: Pid)                                                  // process_close_fds
    | End(pid: Pid)                                                       // process_destroy
    | DupFd(pid: Pid, id: nat, fd: nat, mode: nat)                        // syscall_pipe_dup
    | ReleaseFd(pid: Pid, fd: nat)                                        // syscall_pipe_release_fd
    | ReadFd(pid: Pid, num: int, want: nat)                                // syscall_read, up to its first sleep
    | WriteFd(pid: Pid, num: int, bytes: seq<char>)                        // syscall_write, up to its first sleep
    | Resume(pid: Pid)                                                    // a woken process goes on

  /** Whether `p` sleeps on a semaphore of a pipe. */
  predicate Asleep(s: Sys, p: Pid) {
    && p in s.tasks && s.tasks[p] != Idle && s.tasks[p].slot in s.pipes
    && (p in s.pipes[s.tasks[p].slot].items.queue || p in s.pipes[s.tasks[p].slot].spaces.queue)
  }

  /** The domain. A process calls only when it is not inside another call, and no process is killed or
      destroyed in the middle of one. */
  predicate Allowed(s: Sys, e: Event) {
    match e
    case Create(_) => true
    case Start(child, parent, _, _) => child !in s.fds && (parent == NONE || (HasTable(s, parent) && parent in s.tasks))
    case Resume(p) => p in s.tasks && s.tasks[p] != Idle && !Asleep(s, p)
    case _ => HasTable(s, e.pid) && e.pid in s.tasks && s.tasks[e.pid] == Idle
  }

  /** The pipe a read or write through descriptor `i` reaches, NONE if it reaches none. */
  function Reached(s: Sys, p: Pid, i: int, kind: Kind): Slot
    requires HasTable(s, p)
  {
    if 0 <= i < MAX_FDS && s.fds[p][i].kind == kind && s.fds[p][i].pipe in s.pipes then s.fds[p][i].pipe else NONE
  }

  function Apply(s: Sys, e: Event): Sys
    requires Allowed(s, e)
  {
    match e
    case Create(n) => CreatePipe(s, n)
    case Start(child, parent, a, b) => Spawn(s, child, parent, a, b)
    case CloseFds(p) => CloseAll(s, p, 0)
    case End(p) => Destroy(s, p)
    case DupFd(p, id, fd, mode) => Dup(s, p, id, fd, mode)
    case ReleaseFd(p, fd) => if fd >= MAX_FDS then s else Release(s, p, fd)
    case ReadFd(p, fd, want) =>
      var slot := Reached(s, p, fd, PipeRead);
      if want == 0 || slot == NONE || slot !in s.pipes then s else ReadStep(s, p, slot, want)
    case WriteFd(p, fd, bytes) =>
      var slot := Reached(s, p, fd, PipeWrite);
      if bytes == [] || slot == NONE || slot !in s.pipes then s else WriteStep(s, p, slot, bytes, 0)
    case Resume(p) => Resumed(s, p)
  }

  function Resumed(s: Sys, p: Pid): Sys
    requires p in s.tasks
  {
    match s.tasks[p]
    case Idle => s
    case InRead(slot, want) => if slot in s.pipes then ReadStep(s, p, slot, want) else s
    case InWrite(slot, bytes, done) =>
      if slot in s.pipes && done <= |bytes| then WriteStep(s, p, slot, bytes, done) else s
  }

  lemma IdleIsRunnable(s: Sys, p: Pid, slot: Slot, t: Task)
    requires Inv(s) && p in s.tasks && s.tasks[p] == Idle && slot in s.pipes && t != Idle && t.slot == slot
    requires TaskOk(s.fds, s.pipes.Keys, p, t)
    ensures Runnable(s, p, slot, t)
  {
    assert SleepersOk(s.tasks, slot, s.pipes[slot]);
  }

  lemma WokenIsRunnable(s: Sys, p: Pid)
    requires Inv(s) && p in s.tasks && s.tasks[p] != Idle && !Asleep(s, p)
    ensures s.tasks[p].slot in s.pipes && Runnable(s, p, s.tasks[p].slot, s.tasks[p])
  {
    assert TaskOk(s.fds, s.pipes.Keys, p, s.tasks[p]);
  }

  /** Every step keeps the invariant. */
  lemma InvKept(s: Sys, e: Event)
    requires Inv(s) && Allowed(s, e)
    ensures Inv(Apply(s, e))
  {
    hide CountsOk, SleepersOk, ReadStep, WriteStep, Dup, Spawn, CloseAll, Destroy, CreatePipe, Release;
    match e
    case Create(n) => CreateKeeps(s, n);
    case Start(child, parent, a, b) => SpawnKeeps(s, child, parent, a, b);
    case CloseFds(p) => CloseAllKeeps(s, p, 0);
    case End(p) => DestroyKeeps(s, p);
    case DupFd(p, id, fd, mode) => DupKeeps(s, p, id, fd, mode);
    case ReleaseFd(p, fd) => if fd < MAX_FDS { ReleaseKeeps(s, p, fd); }
    case ReadFd(p, fd, want) => CallKeeps(s, e);
    case WriteFd(p, fd, bytes) => CallKeeps(s, e);
    case Resume(p) => ResumeKeeps(s, p);
  }

  lemma CallKeeps(s: Sys, e: Event)
    requires Inv(s) && Allowed(s, e) && (e.ReadFd? || e.WriteFd?)
    ensures Inv(Apply(s, e))
  {
    hide CountsOk, SleepersOk, ReadStep, WriteStep, Fifo, Ends, Readers, Writers;
    assert TableOk(s.pipes.Keys, s.fds[e.pid]);
    if e.ReadFd? {
      var slot := Reached(s, e.pid, e.num, PipeRead);
      if e.want > 0 && slot != NONE {
        IdleIsRunnable(s, e.pid, slot, InRead(slot, e.want));
        ReadStepKeeps(s, e.pid, slot, e.want);
      }
    } else {
      var slot := Reached(s, e.pid, e.num, PipeWrite);
      if e.bytes != [] && slot != NONE {
        IdleIsRunnable(s, e.pid, slot, InWrite(slot, e.bytes, 0));
        WriteStepKeeps(s, e.pid, slot, e.bytes, 0);
      }
    }
  }

  lemma ResumeKeeps(s: Sys, p: Pid)
    requires Inv(s) && p in s.tasks && s.tasks[p] != Idle && !Asleep(s, p)
    ensures Inv(Resumed(s, p))
  {
    hide CountsOk, SleepersOk, ReadStep, WriteStep, Fifo, Ends, Readers, Writers;
    WokenIsRunnable(s, p);
    match s.tasks[p]
    case InRead(slot, want) => ReadStepKeeps(s, p, slot, want);
    case InWrite(slot, bytes, done) => WriteStepKeeps(s, p, slot, bytes, done);
  }

  // ---------------------------------------------------------------- what the invariant says

  const Empty := Sys(map[], map[], 1, map[], map[])

  ghost predicate Run(states: seq<Sys>, events: seq<Event>) {
    && |states| == |events| + 1
    && states[0] == Empty
    && forall i :: 0 <= i < |events| ==> Allowed(states[i], events[i]) && states[i + 1] == Apply(states[i], events[i])
  }

  /** The invariant holds in every reachable state. */
  lemma {:induction false} Reachable(states: seq<Sys>, events: seq<Event>, k: nat)
    requires Run(states, events) && k <= |events|
    ensures Inv(states[k])
  {
    if k > 0 {
      Reachable(states, events, k - 1);
      InvKept(states[k - 1], events[k - 1]);
    }
  }

  /** The readers of a pipe that were woken and have not gone on yet. */
  function Due(s: Sys, slot: Slot): set<Pid>
    requires slot in s.pipes
  {
    set p | p in Readers(s.tasks, slot) && p !in s.pipes[slot].items.queue
  }

  /** No lost wake-up: while a reader sleeps, the bytes in the pipe number at most the readers that are
      due to take them. */
  lemma NoLostWakeup(states: seq<Sys>, events: seq<Event>, k: nat, slot: Slot)
    requires Run(states, events) && k <= |events| && slot in states[k].pipes
    requires states[k].pipes[slot].items.queue != []
    ensures |states[k].pipes[slot].data| <= |Due(states[k], slot)|
  {
    var s := states[k];
    Reachable(states, events, k);
    assert SleepersOk(s.tasks, slot, s.pipes[slot]);
    SplitOff(s.pipes[slot].items.queue, Readers(s.tasks, slot));
    var q := s.pipes[slot].items.queue;
    assert Due(s, slot) == set p | p in Readers(s.tasks, slot) && p !in q;
  }

  lemma {:induction false} SplitOff(q: seq<Pid>, all: set<Pid>)
    requires Distinct(q) && forall x :: x in q ==> x in all
    ensures |set p | p in all && p !in q| == |all| - |q|
  {
    if q == [] {
      assert (set p | p in all && p !in q) == all;
    } else {
      assert q[0] in q;
      assert forall x :: x in q[1..] ==> x in q && x != q[0];
      SplitOff(q[1..], all - {q[0]});
      assert (set p | p in all && p !in q) == set p | p in all - {q[0]} && p !in q[1..];
    }
  }

  /** Bytes arrive in the order in which they were accepted, over any interleaving, and the pipe never
      holds more than its capacity. */
  lemma FifoAlways(states: seq<Sys>, events: seq<Event>, k: nat, slot: Slot)
    requires Run(states, events) && k <= |events| && slot in states[k].pipes
    ensures var p := states[k].pipes[slot];
            p.received + p.data == p.sent && |p.data| <= 4096
  {
    Reachable(states, events, k);
    assert SleepersOk(states[k].tasks, slot, states[k].pipes[slot]);
  }

  /** The counters are the numbers of descriptors, and no descriptor names a slot that is not in use. */
  lemma CountsAgree(states: seq<Sys>, events: seq<Event>, k: nat)
    requires Run(states, events) && k <= |events|
    ensures forall a :: a in states[k].pipes ==>
              && states[k].pipes[a].readers == |Ends(states[k].fds, Fd(PipeRead, a))|
              && states[k].pipes[a].writers == |Ends(states[k].fds, Fd(PipeWrite, a))|
    ensures forall p, i :: p in states[k].fds && 0 <= i < |states[k].fds[p]| ==>
              states[k].fds[p][i].pipe == NONE || states[k].fds[p][i].pipe in states[k].pipes
  {
    hide Ends;
    var s := states[k];
    Reachable(states, events, k);
    forall a | a in s.pipes
      ensures s.pipes[a].readers == |Ends(s.fds, Fd(PipeRead, a))|
              && s.pipes[a].writers == |Ends(s.fds, Fd(PipeWrite, a))|
    {
      assert CountsOk(s.fds, a, s.pipes[a]);
    }
    forall p, i | p in s.fds && 0 <= i < |s.fds[p]| ensures s.fds[p][i].pipe == NONE || s.fds[p][i].pipe in s.pipes {
      assert TableOk(s.pipes.Keys, s.fds[p]);
    }
  }
}
