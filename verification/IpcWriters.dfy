/** No lost wake-up for writers: while a writer sleeps, every free place of the pipe has a woken writer
    due to fill it, up to the exact point at which a writer gives up for want of a reader. */
module IpcWriters {
  import opened Sequences
  import opened Semaphore
  import opened PipeSpec
  import opened IpcSystem
  import opened IpcSteps
  import opened IpcRuns
  import opened IpcClosing
  import opened IpcWakeups

  /** While a writer sleeps, the free places and the sleepers together number at most the writers
      inside, so that every free place has a woken writer due to fill it. */
  ghost predicate WritersServed(s: Sys) {
    forall a :: a in s.pipes && s.pipes[a].spaces.queue != [] ==> ServedAt(s.tasks, a, s.pipes[a])
  }

  predicate ServedAt(tasks: map<Pid, Task>, a: Slot, p: Pipe) {
    4096 - |p.data| + |p.spaces.queue| <= |Writers(tasks, a)|
  }

  lemma ShiftServed(s: Sys, t: Sys)
    requires WritersServed(s)
    requires forall a :: a in t.pipes ==>
               a in s.pipes && t.pipes[a].data == s.pipes[a].data && t.pipes[a].spaces == s.pipes[a].spaces
    requires forall a :: a in t.pipes ==> Writers(t.tasks, a) == Writers(s.tasks, a)
    ensures WritersServed(t)
  {
    hide Writers;
    forall a | a in t.pipes && t.pipes[a].spaces.queue != [] ensures ServedAt(t.tasks, a, t.pipes[a]) {
      assert ServedAt(s.tasks, a, s.pipes[a]);
    }
  }

  lemma ReadStepServed(s: Sys, p: Pid, slot: Slot, want: nat)
    requires Runnable(s, p, slot, InRead(slot, want)) && WritersServed(s)
    ensures WritersServed(ReadStep(s, p, slot, want))
  {
    hide Inv, Read, Fifo, Writers, Readers;
    var t := ReadStep(s, p, slot, want);
    PipeFifo(s, slot);
    ReadWakes(s.pipes[slot], p, want);
    ReaderEither(s, p, slot, want);
    forall a | a in t.pipes && t.pipes[a].spaces.queue != [] ensures ServedAt(t.tasks, a, t.pipes[a]) {
      TasksChange(s.tasks, p, t.tasks[p], a);
      if a != slot { OutsideOthers(s, p, slot, InRead(slot, want), a); }
      assert Writers(t.tasks, a) == Writers(s.tasks, a);
      assert ServedAt(s.tasks, a, s.pipes[a]);
    }
  }

  lemma WriteStepServed(s: Sys, p: Pid, slot: Slot, bytes: seq<char>, done: nat)
    requires Runnable(s, p, slot, InWrite(slot, bytes, done)) && WritersServed(s)
    requires s.tasks[p] != Idle ==> s.pipes[slot].readers > 0
    ensures WritersServed(WriteStep(s, p, slot, bytes, done))
  {
    hide Inv, Write, Fifo, SignalMany, Writers, Readers, Distinct;
    var pipe := s.pipes[slot];
    var t := WriteStep(s, p, slot, bytes, done);
    var w := Write(pipe, p, bytes, done);
    PipeFifo(s, slot);
    WriteCorrect(pipe, p, bytes, done);
    WriterEither(s, p, slot, bytes, done);
    SleepingWriters(s, slot);
    forall a | a in t.pipes && t.pipes[a].spaces.queue != [] ensures ServedAt(t.tasks, a, t.pipes[a]) {
      TasksChange(s.tasks, p, t.tasks[p], a);
      if a != slot {
        OutsideOthers(s, p, slot, InWrite(slot, bytes, done), a);
        assert ServedAt(s.tasks, a, s.pipes[a]);
      } else if w.asleep {
        SleepSettles(pipe.spaces.queue, p, Writers(s.tasks, slot));
      } else {
        assert w.pipe.spaces.queue == pipe.spaces.queue;
        assert ServedAt(s.tasks, slot, pipe);
        assert p in Writers(s.tasks, slot) ==> |Writers(s.tasks, slot) - {p}| == |Writers(s.tasks, slot)| - 1;
        assert p !in Writers(s.tasks, slot) ==> Writers(s.tasks, slot) - {p} == Writers(s.tasks, slot);
        assert |w.pipe.data| == |pipe.data| + (w.done - done);
      }
    }
  }

  lemma SleepingWriters(s: Sys, slot: Slot)
    requires Inv(s) && slot in s.pipes
    ensures Distinct(s.pipes[slot].spaces.queue)
    ensures forall x :: x in s.pipes[slot].spaces.queue ==> x in Writers(s.tasks, slot)
  {
    assert SleepersOk(s.tasks, slot, s.pipes[slot]);
  }

  /** A woken writer that finds no reader returns, and wakes nobody in its place. */
  lemma WriterGivesUp(s: Sys, p: Pid, slot: Slot, bytes: seq<char>, done: nat)
    requires Runnable(s, p, slot, InWrite(slot, bytes, done)) && s.tasks[p] == InWrite(slot, bytes, done)
    requires s.pipes[slot].readers == 0
    ensures var t := WriteStep(s, p, slot, bytes, done);
            && t.pipes == s.pipes && t.tasks == s.tasks[p := Idle]
            && Writers(t.tasks, slot) == Writers(s.tasks, slot) - {p} && p in Writers(s.tasks, slot)
            && forall a :: a != slot ==> Writers(t.tasks, a) == Writers(s.tasks, a)
  {
    hide Inv, Writers, Readers, Fifo;
    WriterEither(s, p, slot, bytes, done);
    forall a ensures a == slot || Writers(s.tasks[p := Idle], a) == Writers(s.tasks, a) {
      TasksChange(s.tasks, p, Idle, a);
      if a != slot { OutsideOthers(s, p, slot, InWrite(slot, bytes, done), a); }
    }
    TasksChange(s.tasks, p, Idle, slot);
    assert s.pipes[slot := s.pipes[slot]] == s.pipes;
  }

  /** More writers are inside than there are free places and sleepers. */
  predicate WriterToSpare(s: Sys, slot: Slot)
    requires slot in s.pipes
  {
    4096 - |s.pipes[slot].data| + |s.pipes[slot].spaces.queue| < |Writers(s.tasks, slot)|
  }

  /** Exactly when the return of a woken writer leaves the others with a due writer for every free place. */
  lemma ResumeExact(s: Sys, p: Pid)
    requires Inv(s) && Allowed(s, Resume(p)) && WritersServed(s) && s.tasks[p].InWrite?
    ensures var slot := s.tasks[p].slot;
            && slot in s.pipes
            && (WritersServed(Apply(s, Resume(p))) <==>
                  s.pipes[slot].readers > 0 || s.pipes[slot].spaces.queue == [] || WriterToSpare(s, slot))
  {
    hide Inv, WriteStep, Writers, Fifo;
    WokenIsRunnable(s, p);
    var InWrite(slot, bytes, done) := s.tasks[p];
    DoneWithin(s, p);
    if s.pipes[slot].readers > 0 {
      WriteStepServed(s, p, slot, bytes, done);
    } else {
      var t := WriteStep(s, p, slot, bytes, done);
      WriterGivesUp(s, p, slot, bytes, done);
      assert |Writers(s.tasks, slot) - {p}| == |Writers(s.tasks, slot)| - 1;
      forall a | a in s.pipes && a != slot && s.pipes[a].spaces.queue != [] ensures ServedAt(t.tasks, a, t.pipes[a]) {
        assert ServedAt(s.tasks, a, s.pipes[a]);
      }
    }
  }

  lemma DoneWithin(s: Sys, p: Pid)
    requires Inv(s) && p in s.tasks && s.tasks[p].InWrite?
    ensures s.tasks[p].slot in s.pipes && s.tasks[p].done <= |s.tasks[p].bytes|
  {
    assert TaskOk(s.fds, s.pipes.Keys, p, s.tasks[p]);
  }

  /** The event makes a writer return for want of a reader that somebody else was counting on. */
  predicate LosesPlaces(s: Sys, e: Event) {
    && e.Resume? && e.pid in s.tasks && s.tasks[e.pid].InWrite?
    && var slot := s.tasks[e.pid].slot;
    && slot in s.pipes && s.pipes[slot].readers == 0 && s.pipes[slot].spaces.queue != [] && !WriterToSpare(s, slot)
  }

  /** Exactly when a step keeps the claim. */
  lemma ServedExact(s: Sys, e: Event)
    requires Inv(s) && Allowed(s, e) && WritersServed(s)
    ensures WritersServed(Apply(s, e)) <==> !LosesPlaces(s, e)
  {
    hide Inv, Apply, WritersServed, WriterToSpare;
    if e.Resume? && s.tasks[e.pid].InWrite? {
      ResumeExact(s, e.pid);
    } else {
      StepServed(s, e);
    }
  }

  lemma StepServed(s: Sys, e: Event)
    requires Inv(s) && Allowed(s, e) && WritersServed(s) && !(e.Resume? && s.tasks[e.pid].InWrite?)
    ensures WritersServed(Apply(s, e))
  {
    hide Inv, ReadStep, WriteStep, Dup, Spawn, CloseAll, Release, Writers;
    var t := Apply(s, e);
    match e
    case Create(n) => CreateServed(s, n);
    case Start(child, parent, a, b) =>
      SpawnOpens(s, child, parent, a, b);
      NewcomerWritesNothing(s, child, t.pipes.Keys);
      ShiftServed(s, t);
    case CloseFds(p) =>
      ClosesShift(s, e);
      CloseAllTasks(s, p, 0);
      ShiftServed(s, t);
    case End(p) =>
      ClosesShift(s, e);
      CloseAllTasks(s, p, 0);
      LeaverWritesNothing(s, p, t.pipes.Keys);
      ShiftServed(s, t);
    case DupFd(p, id, fd, mode) =>
      ClosesShift(s, e);
      DupTasks(s, p, id, fd, mode);
      ShiftServed(s, t);
    case ReleaseFd(p, fd) =>
      if fd < MAX_FDS {
        ClosesShift(s, e);
        ReleaseKeeps(s, p, fd);
        ShiftServed(s, t);
      }
    case ReadFd(p, fd, want) => CallServed(s, e);
    case WriteFd(p, fd, bytes) => CallServed(s, e);
    case Resume(p) =>
      WokenIsRunnable(s, p);
      ReadStepServed(s, p, s.tasks[p].slot, s.tasks[p].want);
  }

  lemma CreateServed(s: Sys, n: nat)
    requires WritersServed(s)
    ensures WritersServed(CreatePipe(s, n))
  {
    hide Writers;
    var t := CreatePipe(s, n);
    forall a | a in t.pipes && t.pipes[a].spaces.queue != [] ensures ServedAt(t.tasks, a, t.pipes[a]) {
      assert ServedAt(s.tasks, a, s.pipes[a]);
    }
  }

  lemma NewcomerWritesNothing(s: Sys, p: Pid, slots: set<Slot>)
    requires Inv(s) && p !in s.fds
    ensures forall a :: a in slots ==> Writers(s.tasks[p := Idle], a) == Writers(s.tasks, a)
  {
  }

  lemma LeaverWritesNothing(s: Sys, p: Pid, slots: set<Slot>)
    requires p in s.tasks && s.tasks[p] == Idle
    ensures forall a :: a in slots ==> Writers(s.tasks - {p}, a) == Writers(s.tasks, a)
  {
  }

  lemma {:induction false} CloseAllTasks(s: Sys, p: Pid, i: nat)
    requires HasTable(s, p) && i <= MAX_FDS
    ensures CloseAll(s, p, i).tasks == s.tasks
    decreases MAX_FDS - i
  {
    if i < MAX_FDS { CloseAllTasks(Release(s, p, i), p, i + 1); }
  }

  lemma DupTasks(s: Sys, p: Pid, id: nat, i: nat, mode: nat)
    requires HasTable(s, p)
    ensures Dup(s, p, id, i, mode).tasks == s.tasks
  {
  }

  lemma CallServed(s: Sys, e: Event)
    requires Inv(s) && Allowed(s, e) && WritersServed(s) && (e.ReadFd? || e.WriteFd?)
    ensures WritersServed(Apply(s, e))
  {
    hide CountsOk, SleepersOk, ReadStep, WriteStep, Fifo, Ends, Readers, Writers, WritersServed;
    assert TableOk(s.pipes.Keys, s.fds[e.pid]);
    if e.ReadFd? {
      var slot := Reached(s, e.pid, e.num, PipeRead);
      if e.want > 0 && slot != NONE {
        IdleIsRunnable(s, e.pid, slot, InRead(slot, e.want));
        ReadStepServed(s, e.pid, slot, e.want);
      }
    } else {
      var slot := Reached(s, e.pid, e.num, PipeWrite);
      if e.bytes != [] && slot != NONE {
        IdleIsRunnable(s, e.pid, slot, InWrite(slot, e.bytes, 0));
        WriteStepServed(s, e.pid, slot, e.bytes, 0);
      }
    }
  }

  /** No lost wake-up for writers, in every run in which no writer that others count on returns for want
      of a reader; in particular in every run in which woken writers find a reader. */
  lemma {:induction false} WritersAlwaysServed(states: seq<Sys>, events: seq<Event>, k: nat)
    requires Run(states, events) && k <= |events|
    requires forall i :: 0 <= i < k ==> !LosesPlaces(states[i], events[i])
    ensures WritersServed(states[k])
  {
    if k > 0 {
      WritersAlwaysServed(states, events, k - 1);
      Reachable(states, events, k - 1);
      ServedExact(states[k - 1], events[k - 1]);
    }
  }
}
