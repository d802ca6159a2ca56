/** End of file, and its counterpart for writers, with the exact conditions. Nobody sleeps for bytes
    that cannot come unless the last writer leaves more than 100 sleeping readers behind; and nobody
    sleeps for space that cannot come unless the last reader leaves a sleeping writer behind. */
module IpcWakeups {
  import opened Semaphore
  import opened PipeSpec
  import opened IpcSystem
  import opened IpcSteps
  import opened IpcRuns
  import opened IpcClosing

  /** Nobody sleeps for bytes on a pipe that no one can write to. */
  ghost predicate NoneStuck(pipes: Pipes) {
    forall a :: a in pipes && pipes[a].writers == 0 ==> pipes[a].items.queue == []
  }

  /** Nobody sleeps for space on a pipe that no one reads. */
  ghost predicate NoneStranded(pipes: Pipes) {
    forall a :: a in pipes && pipes[a].readers == 0 ==> pipes[a].spaces.queue == []
  }

  /** No pipe has more read ends than its last writer can wake. */
  predicate Bounded(pipes: Pipes) {
    forall a :: a in pipes ==> pipes[a].readers <= 100
  }

  // ---------------------------------------------------------------- reads and writes

  /** What a stretch of a read does to the sleeping writers: each byte taken wakes one. */
  lemma ReadWakes(p: Pipe, me: Pid, want: nat)
    requires Fifo(p)
    ensures var r := Read(p, me, want, []);
            && r.pipe.writers == p.writers && r.pipe.readers == p.readers
            && (p.writers == 0 ==> r.pipe.items.queue == p.items.queue)
            && (r.pipe.spaces.queue != [] ==>
                  p.spaces.queue != [] && |r.pipe.spaces.queue| - |r.pipe.data| == |p.spaces.queue| - |p.data|)
  {
    hide Read, ReadsWell, Fifo, SignalMany;
    ReadCorrect(p, me, want, []);
    ReadTakes(p, me, want, Read(p, me, want, []));
    FifoSems(p);
    SignalManyWakes(p.spaces, Least(want, |p.data|));
  }

  lemma ReadTakes(p: Pipe, me: Pid, want: nat, r: Reading)
    requires ReadsWell(p, me, want, [], r)
    ensures |r.pipe.data| == |p.data| - Least(want, |p.data|) && r.pipe.writers == p.writers
    ensures r.pipe.readers == p.readers && r.pipe.spaces == SignalMany(p.spaces, Least(want, |p.data|))
    ensures p.writers == 0 ==> r.pipe.items.queue == p.items.queue
  {
    hide Fifo, SignalMany;
  }

  lemma WriteWakes(p: Pipe, me: Pid, bytes: seq<char>, done: nat)
    requires Fifo(p) && done <= |bytes|
    ensures var w := Write(p, me, bytes, done);
            && w.pipe.writers == p.writers
            && (p.items.queue == [] ==> w.pipe.items.queue == [])
  {
    hide Write, Fifo, SignalMany, WritesWell;
    WriteCorrect(p, me, bytes, done);
    var w := Write(p, me, bytes, done);
    WriteSignals(p, me, bytes, done, w);
    FifoSems(p);
    if p.items.queue == [] { SignalNobody(p.items, w.done - done); }
  }

  lemma {:induction false} SignalNobody(s: Sem, n: nat)
    requires s.queue == []
    ensures SignalMany(s, n).queue == []
    decreases n
  {
    if n > 0 { SignalNobody(Signal(s).0, n - 1); }
  }

  lemma WriteSignals(p: Pipe, me: Pid, bytes: seq<char>, done: nat, w: Writing)
    requires WritesWell(p, me, bytes, done, w)
    ensures done <= w.done && w.pipe.items == SignalMany(p.items, w.done - done) && w.pipe.writers == p.writers
  {
  }

  /** A write puts its caller to sleep only while somebody can read. */
  lemma WriteStrands(p: Pipe, me: Pid, bytes: seq<char>, done: nat)
    requires Fifo(p) && done <= |bytes|
    ensures var w := Write(p, me, bytes, done);
            && w.pipe.readers == p.readers
            && (p.readers == 0 ==> w.pipe.spaces.queue == p.spaces.queue)
  {
    hide Write, Fifo, SignalMany;
    WriteCorrect(p, me, bytes, done);
  }

  lemma WriteStepEof(s: Sys, p: Pid, slot: Slot, bytes: seq<char>, done: nat)
    requires Inv(s) && slot in s.pipes && done <= |bytes|
    ensures NoneStuck(s.pipes) ==> NoneStuck(WriteStep(s, p, slot, bytes, done).pipes)
    ensures NoneStranded(s.pipes) ==> NoneStranded(WriteStep(s, p, slot, bytes, done).pipes)
  {
    hide Inv, Write, Fifo;
    PipeFifo(s, slot);
    WriteWakes(s.pipes[slot], p, bytes, done);
    WriteStrands(s.pipes[slot], p, bytes, done);
  }

  lemma ReadStepEof(s: Sys, p: Pid, slot: Slot, want: nat)
    requires Inv(s) && slot in s.pipes
    ensures NoneStuck(s.pipes) ==> NoneStuck(ReadStep(s, p, slot, want).pipes)
    ensures NoneStranded(s.pipes) ==> NoneStranded(ReadStep(s, p, slot, want).pipes)
  {
    hide Inv, Read, Fifo;
    PipeFifo(s, slot);
    ReadWakes(s.pipes[slot], p, want);
  }

  /** Events that close no descriptor strand nobody. */
  lemma OtherSteps(s: Sys, e: Event)
    requires Inv(s) && Allowed(s, e) && !Closes(e)
    ensures NoneStuck(s.pipes) ==> NoneStuck(Apply(s, e).pipes)
    ensures NoneStranded(s.pipes) ==> NoneStranded(Apply(s, e).pipes)
  {
    hide Inv, ReadStep, WriteStep, Spawn;
    match e
    case Create(n) =>
    case Start(child, parent, a, b) => SpawnOpens(s, child, parent, a, b);
    case ReadFd(p, fd, want) =>
      if Reached(s, p, fd, PipeRead) in s.pipes { ReadStepEof(s, p, Reached(s, p, fd, PipeRead), want); }
    case WriteFd(p, fd, bytes) =>
      if Reached(s, p, fd, PipeWrite) in s.pipes { WriteStepEof(s, p, Reached(s, p, fd, PipeWrite), bytes, 0); }
    case Resume(p) =>
      if s.tasks[p].slot in s.pipes {
        if s.tasks[p].InRead? {
          ReadStepEof(s, p, s.tasks[p].slot, s.tasks[p].want);
        } else if s.tasks[p].done <= |s.tasks[p].bytes| {
          WriteStepEof(s, p, s.tasks[p].slot, s.tasks[p].bytes, s.tasks[p].done);
        }
      }
  }

  // ---------------------------------------------------------------- end of file

  /** The event drops the last write end of a pipe with more than 100 sleeping readers. */
  ghost predicate LosesReaders(s: Sys, e: Event) {
    exists a :: a in s.pipes && |s.pipes[a].items.queue| > 100 && DropsAll(s, e, Fd(PipeWrite, a))
  }

  /** The counters after the event, from the descriptors it drops. */
  lemma CountsAfter(s: Sys, e: Event, a: Slot)
    requires Inv(s) && Allowed(s, e) && Closes(e) && a in Apply(s, e).pipes
    ensures Apply(s, e).pipes[a].writers == 0 <==> DropsAll(s, e, Fd(PipeWrite, a))
    ensures Apply(s, e).pipes[a].readers == 0 <==> DropsAll(s, e, Fd(PipeRead, a))
  {
    hide Ends, Apply, DropsAll, SleepersOk;
    var t := Apply(s, e);
    InvKept(s, e);
    assert CountsOk(t.fds, a, t.pipes[a]);
    EndsAfter(s, e, Fd(PipeWrite, a));
    EndsAfter(s, e, Fd(PipeRead, a));
  }

  /** No end is dropped by an event that closes none, if there is one. */
  lemma NothingDropped(s: Sys, e: Event, a: Slot)
    requires Inv(s) && !Closes(e) && a in s.pipes
    ensures s.pipes[a].writers > 0 ==> !DropsAll(s, e, Fd(PipeWrite, a))
    ensures s.pipes[a].readers > 0 ==> !DropsAll(s, e, Fd(PipeRead, a))
  {
    hide Ends;
    assert CountsOk(s.fds, a, s.pipes[a]);
  }

  /** Exactly when a step leaves a reader asleep at end of file. */
  lemma EofExact(s: Sys, e: Event)
    requires Inv(s) && Allowed(s, e) && NoneStuck(s.pipes)
    ensures NoneStuck(Apply(s, e).pipes) <==> !LosesReaders(s, e)
  {
    hide Inv, Apply, DropsAll;
    var t := Apply(s, e);
    if Closes(e) {
      ClosesShift(s, e);
      forall a | a in t.pipes ensures t.pipes[a].writers == 0 <==> DropsAll(s, e, Fd(PipeWrite, a)) {
        CountsAfter(s, e, a);
      }
      forall a | a in s.pipes && s.pipes[a].items.queue != [] ensures a in t.pipes {
        SleptOnSurvives(s, e, a);
      }
    } else {
      OtherSteps(s, e);
      forall a | a in s.pipes && s.pipes[a].writers > 0 ensures !DropsAll(s, e, Fd(PipeWrite, a)) {
        NothingDropped(s, e, a);
      }
    }
  }

  /** End of file: in every run in which no pipe has more than 100 read ends, nobody ever sleeps for
      bytes on a pipe whose last writer has gone. */
  lemma {:induction false} EndOfFile(states: seq<Sys>, events: seq<Event>, k: nat)
    requires Run(states, events) && k <= |events|
    requires forall i :: 0 <= i < k ==> Bounded(states[i].pipes)
    ensures NoneStuck(states[k].pipes)
  {
    hide Apply, LosesReaders;
    if k > 0 {
      EndOfFile(states, events, k - 1);
      Reachable(states, events, k - 1);
      BoundedLosesNone(states[k - 1], events[k - 1]);
      EofExact(states[k - 1], events[k - 1]);
    }
  }

  lemma BoundedLosesNone(s: Sys, e: Event)
    requires Inv(s) && Bounded(s.pipes)
    ensures !LosesReaders(s, e)
  {
    hide Inv, DropsAll;
    forall a | a in s.pipes ensures |s.pipes[a].items.queue| <= 100 { SleepersHold(s, a); }
  }

  // ---------------------------------------------------------------- its counterpart for writers

  /** The event drops the last read end of a pipe with a sleeping writer. */
  ghost predicate LosesWriters(s: Sys, e: Event) {
    exists a :: a in s.pipes && s.pipes[a].spaces.queue != [] && DropsAll(s, e, Fd(PipeRead, a))
  }

  /** Closing the last reader wakes no writer: this is exactly when a step leaves one asleep for space
      that nobody will make. */
  lemma StrandExact(s: Sys, e: Event)
    requires Inv(s) && Allowed(s, e) && NoneStranded(s.pipes)
    ensures NoneStranded(Apply(s, e).pipes) <==> !LosesWriters(s, e)
  {
    hide Inv, Apply, DropsAll;
    var t := Apply(s, e);
    if Closes(e) {
      ClosesShift(s, e);
      forall a | a in t.pipes ensures t.pipes[a].readers == 0 <==> DropsAll(s, e, Fd(PipeRead, a)) {
        CountsAfter(s, e, a);
      }
      forall a | a in s.pipes && s.pipes[a].spaces.queue != [] ensures a in t.pipes {
        SleptOnSurvives(s, e, a);
      }
    } else {
      OtherSteps(s, e);
      forall a | a in s.pipes && s.pipes[a].readers > 0 ensures !DropsAll(s, e, Fd(PipeRead, a)) {
        NothingDropped(s, e, a);
      }
    }
  }

  /** In every run in which no last reader leaves a sleeping writer behind, nobody ever sleeps for space
      on a pipe without readers. */
  lemma {:induction false} NeverStranded(states: seq<Sys>, events: seq<Event>, k: nat)
    requires Run(states, events) && k <= |events|
    requires forall i :: 0 <= i < k ==> !LosesWriters(states[i], events[i])
    ensures NoneStranded(states[k].pipes)
  {
    hide Apply, LosesWriters;
    if k > 0 {
      NeverStranded(states, events, k - 1);
      Reachable(states, events, k - 1);
      StrandExact(states[k - 1], events[k - 1]);
    }
  }
}
