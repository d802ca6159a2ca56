/** Runs that reach the states in which the wake-ups of Kernel/ipc/pipe.c fall short. */
module IpcWitness {
  import opened Semaphore
  import opened PipeSpec
  import opened IpcSystem
  import opened IpcSteps
  import opened IpcRuns
  import opened IpcClosing
  import opened IpcWakeups
  import opened IpcWriters

  /** One more event at the end of a run. */
  lemma Extended(states: seq<Sys>, events: seq<Event>, e: Event)
    requires Run(states, events) && Allowed(states[|events|], e)
    ensures Run(states + [Apply(states[|events|], e)], events + [e])
  {
    hide Apply, Allowed;
    var ss, es := states + [Apply(states[|events|], e)], events + [e];
    forall i | 0 <= i < |es| ensures Allowed(ss[i], es[i]) && ss[i + 1] == Apply(ss[i], es[i]) {
      if i < |events| { assert ss[i] == states[i] && ss[i + 1] == states[i + 1] && es[i] == events[i]; }
    }
  }

  const ID := 1

  /** One pipe, in slot 0, empty, with `n` sleeping readers and a writer, process 0. */
  ghost predicate Crowded(s: Sys, n: nat) {
    && Inv(s)
    && s.pipes.Keys == {0} && s.ids.Keys == {0} && s.ids[0] == ID
    && s.pipes[0].data == [] && s.pipes[0].writers == 1 && s.pipes[0].items.value == 0
    && |s.pipes[0].items.queue| == n
    && HasTable(s, 0) && s.fds[0][STDOUT] == Fd(PipeWrite, 0) && 0 in s.tasks && s.tasks[0] == Idle
    && forall p :: p in s.fds ==> 0 <= p <= n
  }

  lemma FindsFirst(s: Sys)
    requires 0 in s.ids && s.ids[0] == ID
    ensures FindId(s.ids, ID, 0) == 0 && FindId(s.ids, 0, 0) == NONE
  {
  }

  /** Process creation without a parent and with a pipe for its standard input. */
  lemma StartsReader(s: Sys, child: Pid)
    requires child !in s.fds && 0 in s.pipes && 0 in s.ids && s.ids[0] == ID
    ensures var t := Apply(s, Start(child, NONE, ID, 0));
            && t == s.(pipes := t.pipes, fds := t.fds, tasks := s.tasks[child := Idle])
            && t.pipes == s.pipes[0 := s.pipes[0].(readers := s.pipes[0].readers + 1)]
            && HasTable(t, child) && t.fds[child][STDIN] == Fd(PipeRead, 0) && t.fds == s.fds[child := t.fds[child]]
  {
    hide FindId;
    FindsFirst(s);
    var closed := seq(MAX_FDS, _ => Closed);
    var t0 := s.(fds := s.fds[child := closed], tasks := s.tasks[child := Idle]);
    var t1 := OpenFor(t0, child, STDIN, PipeRead, ID);
    assert t1 == AddEnd(t0, child, STDIN, Fd(PipeRead, 0));
    assert OpenFor(t1, child, STDOUT, PipeWrite, 0) == t1;
    assert t1.fds == s.fds[child := closed[STDIN := Fd(PipeRead, 0)]];
  }

  /** ... and for its standard output. */
  lemma StartsWriter(s: Sys, child: Pid)
    requires child !in s.fds && 0 in s.pipes && 0 in s.ids && s.ids[0] == ID
    ensures var t := Apply(s, Start(child, NONE, 0, ID));
            && t == s.(pipes := t.pipes, fds := t.fds, tasks := s.tasks[child := Idle])
            && t.pipes == s.pipes[0 := s.pipes[0].(writers := s.pipes[0].writers + 1)]
            && HasTable(t, child) && t.fds[child][STDOUT] == Fd(PipeWrite, 0) && t.fds == s.fds[child := t.fds[child]]
  {
    hide FindId;
    FindsFirst(s);
    var closed := seq(MAX_FDS, _ => Closed);
    var t0 := s.(fds := s.fds[child := closed], tasks := s.tasks[child := Idle]);
    var t1 := OpenFor(t0, child, STDIN, PipeRead, 0);
    assert t1 == t0;
    var t2 := OpenFor(t1, child, STDOUT, PipeWrite, ID);
    assert t2 == AddEnd(t0, child, STDOUT, Fd(PipeWrite, 0));
    assert t2.fds == s.fds[child := closed[STDOUT := Fd(PipeWrite, 0)]];
  }

  /** A read of an empty pipe with a writer and no hint to spend puts the reader to sleep. */
  lemma ReaderSleeps(s: Sys, p: Pid)
    requires HasTable(s, p) && s.fds[p][STDIN] == Fd(PipeRead, 0) && p in s.tasks && s.tasks[p] == Idle && 0 in s.pipes
    requires s.pipes[0].data == [] && s.pipes[0].writers > 0 && s.pipes[0].items.value == 0
    ensures var q := s.pipes[0].items.queue;
            Apply(s, ReadFd(p, STDIN, 1)) ==
              s.(pipes := s.pipes[0 := s.pipes[0].(items := Sem(0, q + [p]))], tasks := s.tasks[p := InRead(0, 1)])
  {
  }

  lemma FirstPipe()
    ensures var s := Apply(Empty, Create(3));
            && s.pipes == map[0 := NewPipe] && s.ids == map[0 := ID] && s.nextId == 2
            && s.fds == map[] && s.tasks == map[]
  {
    assert FreeSlot({}, 0) == 0;
  }

  /** Any number of sleeping readers is reached. */
  lemma {:induction false} CrowdReached(n: nat) returns (states: seq<Sys>, events: seq<Event>)
    ensures Run(states, events) && Crowded(states[|events|], n)
  {
    hide Apply, Inv;
    if n == 0 {
      FirstPipe();
      var s := Apply(Empty, Create(3));
      StartsWriter(s, 0);
      states, events := [Empty], [];
      Extended(states, events, Create(3));
      states, events := states + [s], events + [Create(3)];
      Extended(states, events, Start(0, NONE, 0, ID));
      states, events := states + [Apply(s, Start(0, NONE, 0, ID))], events + [Start(0, NONE, 0, ID)];
      Reachable(states, events, |events|);
    } else {
      states, events := CrowdReached(n - 1);
      var s := states[|events|];
      StartsReader(s, n);
      Extended(states, events, Start(n, NONE, ID, 0));
      var t := Apply(s, Start(n, NONE, ID, 0));
      states, events := states + [t], events + [Start(n, NONE, ID, 0)];
      ReaderSleeps(t, n);
      Extended(states, events, ReadFd(n, STDIN, 1));
      states, events := states + [Apply(t, ReadFd(n, STDIN, 1))], events + [ReadFd(n, STDIN, 1)];
      Reachable(states, events, |events|);
    }
  }

  /** Killing a sleeping reader closes the end it calls through and leaves it asleep. */
  lemma KilledInside() returns (states: seq<Sys>, events: seq<Event>, p: Pid)
    ensures Run(states, events)
    ensures var s := states[|events|];
            HasTable(s, p) && p in s.tasks && s.tasks[p].InRead? && !Inv(CloseAll(s, p, 0))
  {
    hide Apply, Ends, CloseAll;
    states, events := CrowdReached(1);
    var s := states[|events|];
    assert SleepersOk(s.tasks, 0, s.pipes[0]);
    p := s.pipes[0].items.queue[0];
    assert p in s.pipes[0].items.queue;
    assert TableOk(s.pipes.Keys, s.fds[p]);
    CloseAllExact(s, p);
  }

  /** A descriptor that names the only end of its kind is the only one to do so. */
  lemma OnlyEnd(fds: Tables, f: Fd, p: Pid, i: int)
    requires |Ends(fds, f)| == 1 && Names(fds, p, i, f)
    ensures Ends(fds, f) == {(p, i)}
  {
    hide Ends;
    EndsMember(fds, f, (p, i));
    assert |Ends(fds, f) - {(p, i)}| == 0;
    assert Ends(fds, f) == {(p, i)};
  }

  /** With 101 sleeping readers, the last writer leaves one of them asleep at end of file. */
  lemma EofFallsShort() returns (states: seq<Sys>, events: seq<Event>)
    ensures Run(states, events) && !NoneStuck(states[|events|].pipes)
  {
    hide Apply, Ends;
    states, events := CrowdReached(MAX_WAKE + 1);
    var s, e := states[|events|], ReleaseFd(0, STDOUT);
    assert CountsOk(s.fds, 0, s.pipes[0]);
    OnlyEnd(s.fds, Fd(PipeWrite, 0), 0, STDOUT);
    assert NoneStuck(s.pipes);
    assert DropsAll(s, e, Fd(PipeWrite, 0));
    EofExact(s, e);
    Extended(states, events, e);
    states, events := states + [Apply(s, e)], events + [e];
  }

  /** A write of more than the pipe can hold puts the writer to sleep, however many hints there are. */
  lemma WriterSleeps(s: Sys, p: Pid, bytes: seq<char>)
    requires Inv(s) && HasTable(s, p) && s.fds[p][STDOUT] == Fd(PipeWrite, 0) && p in s.tasks && s.tasks[p] == Idle
    requires 0 in s.pipes && s.pipes[0].readers > 0 && bytes != [] && |s.pipes[0].data| + |bytes| > PIPE_SIZE
    ensures var t := Apply(s, WriteFd(p, STDOUT, bytes));
            && t.pipes.Keys == s.pipes.Keys && t.pipes[0].readers == s.pipes[0].readers
            && t.pipes[0].spaces.queue == s.pipes[0].spaces.queue + [p] && |t.pipes[0].data| == PIPE_SIZE
            && t.fds == s.fds && p in t.tasks && t.tasks == s.tasks[p := t.tasks[p]]
            && t.tasks[p].InWrite? && t.tasks[p].slot == 0
  {
    hide Inv, Write, SignalMany;
    PipeFifo(s, 0);
    WriteCorrect(s.pipes[0], p, bytes, 0);
  }

  /** A read of one byte from a pipe that holds some wakes the oldest sleeping writer. */
  lemma ReaderTakes(s: Sys, p: Pid)
    requires Inv(s) && HasTable(s, p) && s.fds[p][STDIN] == Fd(PipeRead, 0) && p in s.tasks && s.tasks[p] == Idle
    requires 0 in s.pipes && s.pipes[0].data != [] && s.pipes[0].spaces.queue != []
    ensures var t := Apply(s, ReadFd(p, STDIN, 1));
            && t.pipes.Keys == s.pipes.Keys && t.fds == s.fds && t.tasks == s.tasks
            && t.pipes[0].readers == s.pipes[0].readers && |t.pipes[0].data| == |s.pipes[0].data| - 1
            && t.pipes[0].spaces.queue == s.pipes[0].spaces.queue[1..]
  {
    hide Inv, Read, SignalMany;
    PipeFifo(s, 0);
    ReadCorrect(s.pipes[0], p, 1, []);
    SignalManyWakes(s.pipes[0].spaces, 1);
    assert s.tasks[p := Idle] == s.tasks;
  }

  /** The only reader lets go of a pipe on which writers wait. */
  lemma ReaderGone(s: Sys, p: Pid)
    requires Inv(s) && HasTable(s, p) && s.fds[p][STDIN] == Fd(PipeRead, 0) && p in s.tasks && s.tasks[p] == Idle
    requires s.pipes.Keys == {0} && s.pipes[0].readers == 1 && s.pipes[0].spaces.queue != []
    ensures var t := Apply(s, ReleaseFd(p, STDIN));
            && 0 in t.pipes && t.pipes[0].readers == 0 && t.tasks == s.tasks
            && t.pipes[0].data == s.pipes[0].data && t.pipes[0].spaces == s.pipes[0].spaces
  {
    hide Apply, Ends;
    var e := ReleaseFd(p, STDIN);
    assert CountsOk(s.fds, 0, s.pipes[0]);
    OnlyEnd(s.fds, Fd(PipeRead, 0), p, STDIN);
    assert DropsAll(s, e, Fd(PipeRead, 0));
    SleptOnSurvives(s, e, 0);
    CountsAfter(s, e, 0);
    ClosesShift(s, e);
    ReleaseIsRelease(s, p);
    ReleaseKeeps(s, p, STDIN);
  }

  lemma ReleaseIsRelease(s: Sys, p: Pid)
    requires Allowed(s, ReleaseFd(p, STDIN))
    ensures Apply(s, ReleaseFd(p, STDIN)) == Release(s, p, STDIN)
  {
  }

  /** An empty pipe with one reader, process 1, and two writers, 2 and 3. */
  lemma ReaderAndWriters() returns (states: seq<Sys>, events: seq<Event>)
    ensures Run(states, events) && forall i :: 0 <= i < |events| ==> !events[i].Resume?
    ensures var s := states[|events|];
            && s.pipes.Keys == {0} && s.pipes[0].readers == 1 && s.pipes[0].data == [] && s.pipes[0].spaces.queue == []
            && HasTable(s, 1) && s.fds[1][STDIN] == Fd(PipeRead, 0)
            && HasTable(s, 2) && s.fds[2][STDOUT] == Fd(PipeWrite, 0)
            && HasTable(s, 3) && s.fds[3][STDOUT] == Fd(PipeWrite, 0)
            && s.tasks == map[1 := Idle, 2 := Idle, 3 := Idle]
  {
    hide Apply, Ends, Inv;
    FirstPipe();
    states, events := [Empty], [];
    Extended(states, events, Create(3));
    states, events := states + [Apply(Empty, Create(3))], events + [Create(3)];
    var s1 := states[|events|];
    StartsReader(s1, 1);
    Extended(states, events, Start(1, NONE, ID, 0));
    states, events := states + [Apply(s1, Start(1, NONE, ID, 0))], events + [Start(1, NONE, ID, 0)];
    var s2 := states[|events|];
    StartsWriter(s2, 2);
    Extended(states, events, Start(2, NONE, 0, ID));
    states, events := states + [Apply(s2, Start(2, NONE, 0, ID))], events + [Start(2, NONE, 0, ID)];
    var s3 := states[|events|];
    StartsWriter(s3, 3);
    Extended(states, events, Start(3, NONE, 0, ID));
    states, events := states + [Apply(s3, Start(3, NONE, 0, ID))], events + [Start(3, NONE, 0, ID)];
  }

  /** A write of 4097 bytes fills the pipe and sleeps; once the only reader goes, the writer sleeps for
      space that nobody will make. */
  lemma StrandedReached(bytes: seq<char>) returns (states: seq<Sys>, events: seq<Event>)
    requires |bytes| == PIPE_SIZE + 1
    ensures Run(states, events) && !NoneStranded(states[|events|].pipes)
  {
    hide Apply, Ends, Inv;
    states, events := ReaderAndWriters();
    states, events := WriteOnce(states, events, 2, bytes);
    var s, e := states[|events|], ReleaseFd(1, STDIN);
    Reachable(states, events, |events|);
    ReaderGone(s, 1);
    Extended(states, events, e);
    states, events := states + [Apply(s, e)], events + [e];
  }

  /** Two writers sleep on a full pipe; its reader takes a byte, which wakes the first of them, and goes.
      The first writer then returns and leaves the second asleep beside the free place. */
  lemma PlaceLost(bytes: seq<char>) returns (states: seq<Sys>, events: seq<Event>)
    requires |bytes| == PIPE_SIZE + 1
    ensures Run(states, events) && !WritersServed(states[|events|])
  {
    hide Apply, Ends, Inv, Allowed, WritersServed;
    var e;
    states, events := ReaderAndWriters();
    states, events := WriteOnce(states, events, 2, bytes);
    states, events := WriteOnce(states, events, 3, bytes);
    var s := states[|events|];
    Reachable(states, events, |events|);
    ReaderTakes(s, 1);
    e := ReadFd(1, STDIN, 1);
    assert Allowed(s, e) by { IdleMay(s, e); }
    Extended(states, events, e);
    states, events := states + [Apply(s, e)], events + [e];
    var s1 := states[|events|];
    Reachable(states, events, |events|);
    ReaderGone(s1, 1);
    e := ReleaseFd(1, STDIN);
    assert Allowed(s1, e) by { IdleMay(s1, e); }
    Extended(states, events, e);
    states, events := states + [Apply(s1, e)], events + [e];
    var s2 := states[|events|];
    Reachable(states, events, |events|);
    WritersAlwaysServed(states, events, |events|);
    TwoInside(s2);
    e := Resume(2);
    Extended(states, events, e);
    ServedExact(s2, e);
    states, events := states + [Apply(s2, e)], events + [e];
  }

  lemma IdleMay(s: Sys, e: Event)
    requires (e.ReadFd? || e.WriteFd? || e.ReleaseFd?) && HasTable(s, e.pid) && e.pid in s.tasks
             && s.tasks[e.pid] == Idle
    ensures Allowed(s, e)
  {
  }

  /** Processes 2 and 3 are the writers inside: 3 sleeps, and 2 may go on. */
  lemma TwoInside(s: Sys)
    requires Inv(s) && s.tasks.Keys == {1, 2, 3} && s.tasks[1] == Idle && 0 in s.pipes
    requires s.tasks[2].InWrite? && s.tasks[3].InWrite? && s.tasks[2].slot == s.tasks[3].slot == 0
    requires s.pipes[0].readers == 0 && |s.pipes[0].data| == PIPE_SIZE - 1 && s.pipes[0].spaces.queue == [3]
    ensures Allowed(s, Resume(2)) && LosesPlaces(s, Resume(2))
  {
    assert SleepersOk(s.tasks, 0, s.pipes[0]);
    assert Writers(s.tasks, 0) == {2, 3} && 2 !in Readers(s.tasks, 0);
  }

  lemma WriteOnce(states0: seq<Sys>, events0: seq<Event>, p: Pid, bytes: seq<char>)
                  returns (states: seq<Sys>, events: seq<Event>)
    requires Run(states0, events0) && bytes != []
    requires var s := states0[|events0|];
             && HasTable(s, p) && s.fds[p][STDOUT] == Fd(PipeWrite, 0) && p in s.tasks && s.tasks[p] == Idle
             && 0 in s.pipes && s.pipes[0].readers > 0 && |s.pipes[0].data| + |bytes| > PIPE_SIZE
    ensures Run(states, events) && events == events0 + [WriteFd(p, STDOUT, bytes)]
    ensures var s, t := states0[|events0|], states[|events|];
            && t.pipes.Keys == s.pipes.Keys && t.pipes[0].readers == s.pipes[0].readers
            && t.pipes[0].spaces.queue == s.pipes[0].spaces.queue + [p] && |t.pipes[0].data| == PIPE_SIZE
            && t.fds == s.fds && p in t.tasks && t.tasks == s.tasks[p := t.tasks[p]]
            && t.tasks[p].InWrite? && t.tasks[p].slot == 0
  {
    hide Apply, Inv;
    var s, e := states0[|events0|], WriteFd(p, STDOUT, bytes);
    Reachable(states0, events0, |events0|);
    WriterSleeps(s, p, bytes);
    Extended(states0, events0, e);
    states, events := states0 + [Apply(s, e)], events0 + [e];
  }
}
