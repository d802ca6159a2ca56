/** A read or a write of a pipe as its caller sees it, over all the stretches between which it sleeps, and
    whatever other processes do meanwhile: which bytes it hands over, and when it returns. */
module IpcCalls {
  import opened Semaphore
  import opened PipeSpec
  import opened IpcSystem
  import opened IpcSteps
  import opened IpcRuns
  import opened IpcClosing

  /** The event is `p` running inside a read or a write. */
  predicate Own(e: Event, p: Pid) {
    (e.ReadFd? || e.WriteFd? || e.Resume?) && e.pid == p
  }

  /** What is new at the end of a sequence that has grown. */
  function Added(before: seq<char>, after: seq<char>): seq<char> {
    if |before| <= |after| then after[|before|..] else []
  }

  /** The bytes that a step adds to those accepted, and to those delivered, by the pipe in slot `a`. */
  function Put(s: Sys, t: Sys, a: Slot): seq<char> {
    if a in s.pipes && a in t.pipes then Added(s.pipes[a].sent, t.pipes[a].sent) else []
  }

  function Got(s: Sys, t: Sys, a: Slot): seq<char> {
    if a in s.pipes && a in t.pipes then Added(s.pipes[a].received, t.pipes[a].received) else []
  }

  /** The bytes that the pipe accepted from `p`, between two points of a run. */
  function Accepted(states: seq<Sys>, events: seq<Event>, p: Pid, a: Slot, i: nat, j: nat): seq<char>
    requires i <= j <= |events| < |states|
    decreases j
  {
    if i == j then []
    else
      Accepted(states, events, p, a, i, j - 1)
      + if Own(events[j - 1], p) then Put(states[j - 1], states[j], a) else []
  }

  /** The bytes that it delivered to `p`. */
  function Delivered(states: seq<Sys>, events: seq<Event>, p: Pid, a: Slot, i: nat, j: nat): seq<char>
    requires i <= j <= |events| < |states|
    decreases j
  {
    if i == j then []
    else
      Delivered(states, events, p, a, i, j - 1)
      + if Own(events[j - 1], p) then Got(states[j - 1], states[j], a) else []
  }

  // ---------------------------------------------------------------- steps

  /** Nothing that others do moves a process that is inside a call. */
  lemma OthersLeave(s: Sys, e: Event, p: Pid)
    requires Inv(s) && Allowed(s, e) && p in s.tasks && s.tasks[p] != Idle && e != Resume(p)
    ensures p in Apply(s, e).tasks && Apply(s, e).tasks[p] == s.tasks[p] && !Own(e, p)
  {
    hide Inv, Dup, Spawn, CloseAll, Release;
    match e
    case Create(n) =>
    case Start(child, parent, a, b) =>
      TasksHaveTables(s);
      SpawnOpens(s, child, parent, a, b);
    case CloseFds(q) => CloseAllTable(s, q, 0);
    case End(q) => CloseAllTable(s, q, 0);
    case DupFd(q, id, fd, mode) => DupKeepsTasks(s, q, id, fd, mode);
    case ReleaseFd(q, fd) => if fd < MAX_FDS { ReleaseKeeps(s, q, fd); }
    case ReadFd(q, fd, want) =>
    case WriteFd(q, fd, bytes) =>
    case Resume(q) =>
  }

  lemma TasksHaveTables(s: Sys)
    requires Inv(s)
    ensures s.tasks.Keys == s.fds.Keys
  {
  }

  lemma DupKeepsTasks(s: Sys, p: Pid, id: nat, i: nat, mode: nat)
    requires HasTable(s, p)
    ensures Dup(s, p, id, i, mode).tasks == s.tasks
  {
  }

  /** One stretch of a write, from byte `n` on. */
  ghost predicate Writes(s: Sys, t: Sys, p: Pid, a: Slot, bytes: seq<char>, n: nat)
    requires a in s.pipes
  {
    && a in t.pipes && p in t.tasks && n <= |bytes|
    && var m := n + |Put(s, t, a)|;
    && m <= |bytes| && Put(s, t, a) == bytes[n..m]
    && (t.tasks[p] == Idle || (t.tasks[p] == InWrite(a, bytes, m) && m < |bytes|))
    && (t.tasks[p] == Idle ==> m == |bytes| || s.pipes[a].readers == 0)
  }

  lemma WriteStretch(s: Sys, p: Pid, a: Slot, bytes: seq<char>, n: nat)
    requires Runnable(s, p, a, InWrite(a, bytes, n))
    ensures Writes(s, WriteStep(s, p, a, bytes, n), p, a, bytes, n)
  {
    hide Inv, Write, WritesWell, Fifo;
    PipeFifo(s, a);
    WriteCorrect(s.pipes[a], p, bytes, n);
    WriteHands(s.pipes[a], p, bytes, n, Write(s.pipes[a], p, bytes, n));
  }

  /** What a stretch of a write adds to the bytes accepted. */
  lemma WriteHands(pipe: Pipe, p: Pid, bytes: seq<char>, n: nat, w: Writing)
    requires WritesWell(pipe, p, bytes, n, w)
    ensures n <= w.done <= |bytes| && Added(pipe.sent, w.pipe.sent) == bytes[n..w.done]
    ensures w.asleep ==> w.done < |bytes|
    ensures !w.asleep ==> w.done == |bytes| || pipe.readers == 0
  {
    hide Fifo, SignalMany;
    assert w.pipe.sent == pipe.sent + bytes[n..w.done];
  }

  /** One stretch of a read of `want` bytes. */
  ghost predicate Reads(s: Sys, t: Sys, p: Pid, a: Slot, want: nat)
    requires a in s.pipes
  {
    var data := s.pipes[a].data;
    var n := if |data| < want then |data| else want;
    && a in t.pipes && p in t.tasks
    && Got(s, t, a) == (if |data| < want then data else data[..want]) && Got(s, t, a) + t.pipes[a].data == data
    && (t.tasks[p] == Idle || (t.tasks[p] == InRead(a, want) && n == 0))
    && (t.tasks[p] == Idle && n == 0 ==> s.pipes[a].writers == 0)
  }

  lemma ReadStretch(s: Sys, p: Pid, a: Slot, want: nat)
    requires Runnable(s, p, a, InRead(a, want))
    ensures Reads(s, ReadStep(s, p, a, want), p, a, want)
  {
    hide Inv, Read, ReadsWell, Fifo;
    PipeFifo(s, a);
    ReadCorrect(s.pipes[a], p, want, []);
    ReadHands(s.pipes[a], p, want, Read(s.pipes[a], p, want, []));
  }

  /** What a stretch of a read adds to the bytes delivered. */
  lemma ReadHands(pipe: Pipe, p: Pid, want: nat, r: Reading)
    requires ReadsWell(pipe, p, want, [], r) && want > 0
    ensures var data, got := pipe.data, Added(pipe.received, r.pipe.received);
            && got == (if |data| < want then data else data[..want]) && got + r.pipe.data == data
            && (r.asleep ==> data == [])
            && (!r.asleep && data == [] ==> pipe.writers == 0)
  {
    hide Fifo, SignalMany;
    var data := pipe.data;
    var n := Least(want, |data|);
    assert r.pipe.received == pipe.received + data[..n];
    assert Added(pipe.received, r.pipe.received) == data[..n];
    assert data[..n] + data[n..] == data && (n == |data| ==> data[..n] == data);
  }

  /** A call starts through a descriptor that names the right end. */
  lemma WriteStarts(s: Sys, p: Pid, num: int, a: Slot, bytes: seq<char>)
    requires Inv(s) && Allowed(s, WriteFd(p, num, bytes)) && bytes != []
    requires 0 <= num < MAX_FDS && s.fds[p][num] == Fd(PipeWrite, a) && a != NONE
    ensures a in s.pipes && Writes(s, Apply(s, WriteFd(p, num, bytes)), p, a, bytes, 0)
  {
    hide CountsOk, SleepersOk, WriteStep, Writes;
    assert TableOk(s.pipes.Keys, s.fds[p]);
    IdleIsRunnable(s, p, a, InWrite(a, bytes, 0));
    WriteStretch(s, p, a, bytes, 0);
  }

  lemma ReadStarts(s: Sys, p: Pid, num: int, a: Slot, want: nat)
    requires Inv(s) && Allowed(s, ReadFd(p, num, want)) && want > 0
    requires 0 <= num < MAX_FDS && s.fds[p][num] == Fd(PipeRead, a) && a != NONE
    ensures a in s.pipes && Reads(s, Apply(s, ReadFd(p, num, want)), p, a, want)
  {
    hide CountsOk, SleepersOk, ReadStep, Reads;
    assert TableOk(s.pipes.Keys, s.fds[p]);
    IdleIsRunnable(s, p, a, InRead(a, want));
    ReadStretch(s, p, a, want);
  }

  /** A call through any other descriptor does nothing. */
  lemma CallRefused(s: Sys, p: Pid, num: int, bytes: seq<char>, want: nat)
    requires Inv(s) && HasTable(s, p) && p in s.tasks && s.tasks[p] == Idle
    ensures !(0 <= num < MAX_FDS && s.fds[p][num].kind == PipeWrite && s.fds[p][num].pipe != NONE) || bytes == [] ==>
              Apply(s, WriteFd(p, num, bytes)) == s
    ensures !(0 <= num < MAX_FDS && s.fds[p][num].kind == PipeRead && s.fds[p][num].pipe != NONE) || want == 0 ==>
              Apply(s, ReadFd(p, num, want)) == s
  {
    hide CountsOk, SleepersOk, WriteStep, ReadStep;
    NoneIsFree(s);
  }

  lemma ResumesWrite(s: Sys, p: Pid, a: Slot, bytes: seq<char>, n: nat)
    requires Inv(s) && Allowed(s, Resume(p)) && s.tasks[p] == InWrite(a, bytes, n)
    ensures a in s.pipes && Writes(s, Apply(s, Resume(p)), p, a, bytes, n)
  {
    hide Inv, WriteStep, Writes;
    WokenIsRunnable(s, p);
    assert n <= |bytes| by { InsideHolds(s, p); }
    WriteStretch(s, p, a, bytes, n);
  }

  lemma ResumesRead(s: Sys, p: Pid, a: Slot, want: nat)
    requires Inv(s) && Allowed(s, Resume(p)) && s.tasks[p] == InRead(a, want)
    ensures a in s.pipes && Reads(s, Apply(s, Resume(p)), p, a, want)
  {
    hide Inv, ReadStep, Reads;
    WokenIsRunnable(s, p);
    ReadStretch(s, p, a, want);
  }

  lemma InsideHolds(s: Sys, p: Pid)
    requires Inv(s) && p in s.tasks && s.tasks[p] != Idle
    ensures s.tasks[p].slot in s.pipes && (s.tasks[p].InWrite? ==> s.tasks[p].done < |s.tasks[p].bytes|)
  {
    assert TaskOk(s.fds, s.pipes.Keys, p, s.tasks[p]);
  }

  /** The history of a pipe has grown at its end, if at all. */
  predicate Grows(p: Pipe, q: Pipe) {
    p.sent <= q.sent && p.received <= q.received
  }

  predicate SameHistory(p: Pipe, q: Pipe) {
    p.sent == q.sent && p.received == q.received
  }

  predicate IsCall(e: Event) {
    e.ReadFd? || e.WriteFd? || e.Resume?
  }

  /** No event rewrites what was accepted or delivered, and only reads and writes add to it. */
  lemma HistoryGrows(s: Sys, e: Event, a: Slot)
    requires Inv(s) && Allowed(s, e) && a in s.pipes && a in Apply(s, e).pipes
    ensures Grows(s.pipes[a], Apply(s, e).pipes[a])
    ensures !IsCall(e) ==> SameHistory(s.pipes[a], Apply(s, e).pipes[a])
  {
    hide Inv, Dup, Spawn, CloseAll, Release, ReadStep, WriteStep, FreeSlot;
    match e
    case Create(n) =>
    case Start(child, parent, x, y) => SpawnOpens(s, child, parent, x, y);
    case CloseFds(q) => ClosesShift(s, e);
    case End(q) => ClosesShift(s, e);
    case DupFd(q, id, fd, mode) => ClosesShift(s, e);
    case ReleaseFd(q, fd) => ClosesShift(s, e);
    case ReadFd(q, fd, want) =>
      if Reached(s, q, fd, PipeRead) in s.pipes { ReadGrows(s, q, Reached(s, q, fd, PipeRead), want, a); }
    case WriteFd(q, fd, bytes) =>
      if Reached(s, q, fd, PipeWrite) in s.pipes { WriteGrows(s, q, Reached(s, q, fd, PipeWrite), bytes, 0, a); }
    case Resume(q) => ResumeGrows(s, q, a);
  }

  lemma ResumeGrows(s: Sys, p: Pid, a: Slot)
    requires Inv(s) && p in s.tasks && s.tasks[p] != Idle && a in s.pipes
    ensures a in Resumed(s, p).pipes && Grows(s.pipes[a], Resumed(s, p).pipes[a])
  {
    hide Inv, ReadStep, WriteStep, Grows;
    InsideHolds(s, p);
    match s.tasks[p]
    case InRead(slot, want) => ReadGrows(s, p, slot, want, a);
    case InWrite(slot, bytes, done) => WriteGrows(s, p, slot, bytes, done, a);
  }

  lemma ReadGrows(s: Sys, p: Pid, slot: Slot, want: nat, a: Slot)
    requires Inv(s) && slot in s.pipes && a in s.pipes
    ensures a in ReadStep(s, p, slot, want).pipes && Grows(s.pipes[a], ReadStep(s, p, slot, want).pipes[a])
  {
    hide Inv, Read, ReadsWell, Fifo;
    PipeFifo(s, slot);
    ReadCorrect(s.pipes[slot], p, want, []);
    ReadsGrow(s.pipes[slot], p, want, Read(s.pipes[slot], p, want, []));
  }

  lemma ReadsGrow(p: Pipe, me: Pid, want: nat, r: Reading)
    requires ReadsWell(p, me, want, [], r)
    ensures Grows(p, r.pipe)
  {
    hide Fifo, SignalMany;
  }

  lemma WriteGrows(s: Sys, p: Pid, slot: Slot, bytes: seq<char>, done: nat, a: Slot)
    requires Inv(s) && slot in s.pipes && a in s.pipes && done <= |bytes|
    ensures a in WriteStep(s, p, slot, bytes, done).pipes
    ensures Grows(s.pipes[a], WriteStep(s, p, slot, bytes, done).pipes[a])
  {
    hide Inv, Write, WritesWell, Fifo;
    PipeFifo(s, slot);
    WriteCorrect(s.pipes[slot], p, bytes, done);
    WritesGrow(s.pipes[slot], p, bytes, done, Write(s.pipes[slot], p, bytes, done));
  }

  lemma WritesGrow(p: Pipe, me: Pid, bytes: seq<char>, done: nat, w: Writing)
    requires WritesWell(p, me, bytes, done, w)
    ensures Grows(p, w.pipe)
  {
    hide Fifo, SignalMany;
  }

  // ---------------------------------------------------------------- whole calls

  /** `p` is inside a call at every point strictly between `i` and `j`. */
  predicate InsideBetween(states: seq<Sys>, p: Pid, i: nat, j: nat)
    requires j < |states|
  {
    forall k :: i < k < j ==> p in states[k].tasks && states[k].tasks[p] != Idle
  }

  lemma RunStep(states: seq<Sys>, events: seq<Event>, k: nat)
    requires Run(states, events) && k < |events|
    ensures |states| == |events| + 1 && Inv(states[k]) && Inv(states[k + 1])
    ensures Allowed(states[k], events[k]) && states[k + 1] == Apply(states[k], events[k])
  {
    hide Apply, Inv;
    Reachable(states, events, k);
    Reachable(states, events, k + 1);
  }

  /** The bytes that a write has had accepted so far, over all its stretches, are the first of those it was
      given, each once and in order; it returns once they are all accepted, or for want of a reader. */
  lemma {:induction false} WriteCall(states: seq<Sys>, events: seq<Event>, p: Pid, num: int, a: Slot, bytes: seq<char>,
                                     i: nat, j: nat)
    requires Run(states, events) && i < j <= |events| && events[i] == WriteFd(p, num, bytes) && bytes != []
    requires 0 <= num < MAX_FDS && Names(states[i].fds, p, num, Fd(PipeWrite, a)) && a != NONE
    requires InsideBetween(states, p, i, j)
    ensures a in states[j].pipes && a in states[j - 1].pipes && p in states[j].tasks
    ensures var accepted := Accepted(states, events, p, a, i, j);
            && accepted <= bytes
            && (states[j].tasks[p] == Idle
                || (states[j].tasks[p] == InWrite(a, bytes, |accepted|) && accepted != bytes))
            && (states[j].tasks[p] == Idle ==> accepted == bytes || states[j - 1].pipes[a].readers == 0)
    decreases j
  {
    hide Apply, Inv, Allowed, Run, Put;
    var k := j - 1;
    RunStep(states, events, k);
    if k == i {
      WriteStarts(states[i], p, num, a, bytes);
      assert Accepted(states, events, p, a, i, i) == [];
    } else {
      WriteCall(states, events, p, num, a, bytes, i, k);
      var sofar := Accepted(states, events, p, a, i, k);
      if events[k] == Resume(p) {
        ResumesWrite(states[k], p, a, bytes, |sofar|);
        var m := |sofar| + |Put(states[k], states[j], a)|;
        assert bytes[..|sofar|] + bytes[|sofar|..m] == bytes[..m];
      } else {
        OthersLeave(states[k], events[k], p);
        InsideHolds(states[k], p);
        InsideHolds(states[j], p);
      }
    }
  }

  /** A read that is in state `t` after the last step from `s`, and has had `delivered`. */
  ghost predicate ReadSoFar(s: Sys, t: Sys, p: Pid, a: Slot, want: nat, delivered: seq<char>) {
    && a in s.pipes && a in t.pipes && p in t.tasks
    && var data := s.pipes[a].data;
    && (t.tasks[p] == Idle || (t.tasks[p] == InRead(a, want) && delivered == []))
    && (t.tasks[p] == Idle ==>
          && delivered == (if |data| < want then data else data[..want])
          && delivered + t.pipes[a].data == data
          && (delivered == [] ==> s.pipes[a].writers == 0))
  }

  lemma ReadsSoFar(s: Sys, t: Sys, p: Pid, a: Slot, want: nat)
    requires a in s.pipes && Reads(s, t, p, a, want) && want > 0
    ensures ReadSoFar(s, t, p, a, want, Got(s, t, a))
  {
  }

  /** A read sleeps until there is something for it, and then returns with the oldest bytes, as many as
      there are, up to the number asked for; it returns with none only at end of file. */
  lemma {:induction false} ReadCall(states: seq<Sys>, events: seq<Event>, p: Pid, num: int, a: Slot, want: nat,
                                    i: nat, j: nat)
    requires Run(states, events) && i < j <= |events| && events[i] == ReadFd(p, num, want) && want > 0
    requires 0 <= num < MAX_FDS && Names(states[i].fds, p, num, Fd(PipeRead, a)) && a != NONE
    requires InsideBetween(states, p, i, j)
    ensures ReadSoFar(states[j - 1], states[j], p, a, want, Delivered(states, events, p, a, i, j))
    decreases j
  {
    hide Apply, Inv, Allowed, Reads, Got, Run, ReadSoFar;
    var k := j - 1;
    RunStep(states, events, k);
    var got := Got(states[k], states[j], a);
    assert [] + got == got;
    if k == i {
      ReadStarts(states[i], p, num, a, want);
      ReadsSoFar(states[k], states[j], p, a, want);
      assert Delivered(states, events, p, a, i, i) == [];
    } else {
      ReadCall(states, events, p, num, a, want, i, k);
      StillReading(states[k - 1], states[k], p, a, want, Delivered(states, events, p, a, i, k));
      if events[k] == Resume(p) {
        ResumesRead(states[k], p, a, want);
        ReadsSoFar(states[k], states[j], p, a, want);
      } else {
        OthersLeave(states[k], events[k], p);
        InsideHolds(states[k], p);
        InsideHolds(states[j], p);
        StaysReading(states[k], states[j], p, a, want);
      }
    }
  }

  lemma StillReading(s: Sys, t: Sys, p: Pid, a: Slot, want: nat, delivered: seq<char>)
    requires ReadSoFar(s, t, p, a, want, delivered) && p in t.tasks && t.tasks[p] != Idle
    ensures delivered == [] && t.tasks[p] == InRead(a, want) && a in t.pipes
  {
  }

  lemma StaysReading(s: Sys, t: Sys, p: Pid, a: Slot, want: nat)
    requires a in s.pipes && a in t.pipes && p in t.tasks && t.tasks[p] == InRead(a, want)
    ensures ReadSoFar(s, t, p, a, want, [])
  {
  }
}
