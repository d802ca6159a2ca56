/** Descriptor tables, pipes and sleeping processes together: the state of Kernel/proc/process.c,
    Kernel/ipc/pipe.c and the descriptor system calls of Kernel/syscalls/syscalls_kernel.c. */
module IpcSystem {
  import opened Sequences
  import opened Semaphore
  import opened PipeSpec

  const MAX_PIPES := 64
  const MAX_FDS := 16
  const STDIN := 0
  const STDOUT := 1
  const NONE := -1

  type Slot = int

  datatype Kind = Terminal | PipeRead | PipeWrite

  /** A descriptor: its type and the pipe slot it points at, NONE for NULL. */
  datatype Fd = Fd(kind: Kind, pipe: Slot)

  const Closed := Fd(Terminal, NONE)

  /** What a process is in the middle of. A reader sleeps only before its first byte. */
  datatype Task = Idle | InRead(slot: Slot, want: nat) | InWrite(slot: Slot, bytes: seq<char>, done: nat)

  /** `pipes` holds the used slots, `ids` their public ids. */
  datatype Sys = Sys(
    pipes: map<Slot, Pipe>, ids: map<Slot, nat>, nextId: nat,
    fds: map<Pid, seq<Fd>>, tasks: map<Pid, Task>)

  type Tables = map<Pid, seq<Fd>>

  predicate Names(fds: Tables, p: Pid, i: int, f: Fd) {
    p in fds && 0 <= i < |fds[p]| && fds[p][i] == f
  }

  /** The descriptors, over all processes, that read `f`: an end of a pipe. */
  function Ends(fds: Tables, f: Fd): set<(Pid, int)> {
    set p, i | p in fds && 0 <= i < |fds[p]| && Names(fds, p, i, f) :: (p, i)
  }

  /** The processes inside a read, or a write, of the pipe in `slot`. */
  function Readers(tasks: map<Pid, Task>, slot: Slot): set<Pid> {
    set p | p in tasks && tasks[p].InRead? && tasks[p].slot == slot
  }

  function Writers(tasks: map<Pid, Task>, slot: Slot): set<Pid> {
    set p | p in tasks && tasks[p].InWrite? && tasks[p].slot == slot
  }

  /** Sixteen descriptors, none naming a slot that is not in use. */
  ghost predicate TableOk(used: set<Slot>, t: seq<Fd>) {
    && |t| == MAX_FDS
    && forall i :: 0 <= i < |t| && t[i].pipe != NONE ==> t[i].pipe in used && t[i].kind != Terminal
  }

  predicate Holds(fds: Tables, p: Pid, f: Fd) {
    p in fds && f in fds[p]
  }

  /** A process inside a call holds the end it calls through. */
  ghost predicate TaskOk(fds: Tables, used: set<Slot>, p: Pid, t: Task) {
    match t
    case Idle => true
    case InRead(slot, want) => slot in used && want > 0 && Holds(fds, p, Fd(PipeRead, slot))
    case InWrite(slot, bytes, done) => slot in used && done < |bytes| && Holds(fds, p, Fd(PipeWrite, slot))
  }

  /** The counters of a pipe are the numbers of its ends. */
  ghost predicate CountsOk(fds: Tables, slot: Slot, p: Pipe) {
    && p.readers == |Ends(fds, Fd(PipeRead, slot))|
    && p.writers == |Ends(fds, Fd(PipeWrite, slot))|
  }

  /** The sleepers of a pipe are processes inside a call on it; and while a reader sleeps, the bytes
      and the sleepers together number at most the readers inside, so that every byte has a woken
      reader due to take it. */
  ghost predicate SleepersOk(tasks: map<Pid, Task>, slot: Slot, p: Pipe) {
    && Fifo(p)
    && Distinct(p.items.queue) && Distinct(p.spaces.queue)
    && (forall x :: x in p.items.queue ==> x in Readers(tasks, slot))
    && (forall x :: x in p.spaces.queue ==> x in Writers(tasks, slot))
    && (p.items.queue != [] ==> |p.data| + |p.items.queue| <= |Readers(tasks, slot)|)
  }

  ghost predicate IdsOk(s: Sys) {
    && s.ids.Keys == s.pipes.Keys && s.nextId >= 1
    && (forall a :: a in s.ids ==> 0 <= a < MAX_PIPES && 1 <= s.ids[a] < s.nextId)
    && (forall a, b :: a in s.ids && b in s.ids && a != b ==> s.ids[a] != s.ids[b])
  }

  ghost predicate Inv(s: Sys) {
    && IdsOk(s)
    && s.tasks.Keys == s.fds.Keys
    && (forall p {:trigger TableOk(s.pipes.Keys, s.fds[p])} :: p in s.fds ==> TableOk(s.pipes.Keys, s.fds[p]))
    && (forall p {:trigger TaskOk(s.fds, s.pipes.Keys, p, s.tasks[p])} :: p in s.tasks ==>
          TaskOk(s.fds, s.pipes.Keys, p, s.tasks[p]))
    && (forall a {:trigger CountsOk(s.fds, a, s.pipes[a])} :: a in s.pipes ==> CountsOk(s.fds, a, s.pipes[a]))
    && (forall a {:trigger SleepersOk(s.tasks, a, s.pipes[a])} :: a in s.pipes ==> SleepersOk(s.tasks, a, s.pipes[a]))
  }

  // ---------------------------------------------------------------- ends

  function SetFd(fds: Tables, p: Pid, i: nat, f: Fd): Tables
    requires p in fds && i < |fds[p]|
  {
    fds[p := fds[p][i := f]]
  }

  lemma EndsMember(fds: Tables, f: Fd, e: (Pid, int))
    ensures e in Ends(fds, f) <==> Names(fds, e.0, e.1, f)
  {
    var (p, i) := e;
    assert e == (p, i);
    if Names(fds, p, i, f) { assert (p, i) in Ends(fds, f); }
  }

  lemma EndsSet(fds: Tables, p: Pid, i: nat, f: Fd, g: Fd)
    requires p in fds && i < |fds[p]|
    ensures Ends(SetFd(fds, p, i, f), g) == Ends(fds, g) - {(p, i as int)} + (if f == g then {(p, i as int)} else {})
  {
    hide Ends;
    var rhs := Ends(fds, g) - {(p, i as int)} + (if f == g then {(p, i as int)} else {});
    forall e: (Pid, int) ensures e in Ends(SetFd(fds, p, i, f), g) <==> e in rhs {
      EndsMember(fds, g, e);
      EndsMember(SetFd(fds, p, i, f), g, e);
    }
    assert Ends(SetFd(fds, p, i, f), g) == rhs;
  }

  /** Rewriting one descriptor changes the number of ends by what it named and what it names. */
  lemma EndsAfterSet(fds: Tables, p: Pid, i: nat, f: Fd, g: Fd)
    requires p in fds && i < |fds[p]|
    ensures |Ends(SetFd(fds, p, i, f), g)|
            == |Ends(fds, g)| - (if fds[p][i] == g then 1 else 0) + (if f == g then 1 else 0)
  {
    hide Ends;
    var e := (p, i as int);
    var was := Ends(fds, g);
    EndsMember(fds, g, e);
    EndsSet(fds, p, i, f, g);
    assert e in was ==> |was - {e}| == |was| - 1;
    assert e !in was ==> was - {e} == was;
  }

  // ---------------------------------------------------------------- opening and closing an end

  /** pipe_open_by_id, with the descriptor that now names the pipe. */
  function AddEnd(s: Sys, p: Pid, i: nat, f: Fd): Sys
    requires p in s.fds && i < |s.fds[p]| && f.pipe in s.pipes
  {
    s.(pipes := s.pipes[f.pipe := Open(s.pipes[f.pipe], f.kind == PipeWrite)], fds := SetFd(s.fds, p, i, f))
  }

  lemma AddEndKeeps(s: Sys, p: Pid, i: nat, f: Fd)
    requires Inv(s) && p in s.fds && i < |s.fds[p]| && f.pipe in s.pipes && f.kind != Terminal
    requires s.fds[p][i].pipe == NONE
    ensures Inv(AddEnd(s, p, i, f))
  {
    hide Ends, Readers, Writers, Fifo;
    var t := AddEnd(s, p, i, f);
    assert t.pipes.Keys == s.pipes.Keys;
    assert NONE !in s.pipes by { assert NONE !in s.ids; }
    assert CountsOk(s.fds, f.pipe, s.pipes[f.pipe]) && SleepersOk(s.tasks, f.pipe, s.pipes[f.pipe]);
    forall a | a in t.pipes ensures CountsOk(t.fds, a, t.pipes[a]) && SleepersOk(t.tasks, a, t.pipes[a]) {
      assert CountsOk(s.fds, a, s.pipes[a]) && SleepersOk(s.tasks, a, s.pipes[a]);
      EndsAfterSet(s.fds, p, i, f, Fd(PipeRead, a));
      EndsAfterSet(s.fds, p, i, f, Fd(PipeWrite, a));
      assert Fifo(t.pipes[a]) by { OpenFifo(s.pipes[a], f.kind == PipeWrite); }
    }
    forall x | x in t.fds ensures TableOk(t.pipes.Keys, t.fds[x]) { assert TableOk(s.pipes.Keys, s.fds[x]); }
    forall x | x in t.tasks ensures TaskOk(t.fds, t.pipes.Keys, x, t.tasks[x]) {
      assert TaskOk(s.fds, s.pipes.Keys, x, s.tasks[x]);
      if x == p { StillHolds(s.fds, p, i, f, s.tasks[p]); }
    }
  }

  lemma OpenFifo(p: Pipe, writer: bool)
    requires Fifo(p)
    ensures Fifo(Open(p, writer)) && Fifo(DropEnd(p, writer))
  {
  }

  /** A process does not lose the end it calls through when another of its descriptors changes. */
  lemma StillHolds(fds: Tables, p: Pid, i: nat, f: Fd, t: Task)
    requires p in fds && i < |fds[p]|
    requires t == Idle || fds[p][i].pipe == NONE
    ensures forall g: Fd :: g.pipe != NONE && Holds(fds, p, g) && t != Idle ==> Holds(SetFd(fds, p, i, f), p, g)
  {
    forall g: Fd | g.pipe != NONE && Holds(fds, p, g) && t != Idle ensures Holds(SetFd(fds, p, i, f), p, g) {
      var k :| 0 <= k < |fds[p]| && fds[p][k] == g;
      assert SetFd(fds, p, i, f)[p][k] == g;
    }
  }

  /** pipe_close_by_id on the pipe in `slot`. */
  function CloseSlot(s: Sys, slot: Slot, writer: bool): Sys
    requires slot in s.pipes
  {
    if Dies(s.pipes[slot], writer) then s.(pipes := s.pipes - {slot}, ids := s.ids - {slot})
    else s.(pipes := s.pipes[slot := Close(s.pipes[slot], writer)])
  }

  /** Closing the end a descriptor names, and rewriting the descriptor. */
  function DropFd(s: Sys, p: Pid, i: nat, f: Fd): Sys
    requires p in s.fds && i < |s.fds[p]| && s.fds[p][i].pipe in s.pipes
  {
    CloseSlot(s, s.fds[p][i].pipe, s.fds[p][i].kind == PipeWrite).(fds := SetFd(s.fds, p, i, f))
  }

  ghost predicate Droppable(s: Sys, p: Pid, i: nat, f: Fd) {
    && Inv(s) && p in s.fds && i < |s.fds[p]| && s.fds[p][i].pipe in s.pipes
    && f.pipe == NONE && s.tasks[p] == Idle
  }

  lemma DropFdKeeps(s: Sys, p: Pid, i: nat, f: Fd)
    requires Droppable(s, p, i, f)
    ensures Inv(DropFd(s, p, i, f))
  {
    hide Ends, Readers, Writers, Fifo, SleepersOk;
    var t := DropFd(s, p, i, f);
    var was := s.fds[p][i];
    assert NONE !in s.pipes by { assert NONE !in s.ids; }
    assert TableOk(s.pipes.Keys, s.fds[p]);
    forall a | a in t.pipes ensures CountsOk(t.fds, a, t.pipes[a]) && SleepersOk(t.tasks, a, t.pipes[a]) {
      DropCounts(s, p, i, f, a);
      DropSleepers(s, p, i, f, a);
    }
    DropUsed(s, p, i, f);
    forall x | x in t.fds ensures TableOk(t.pipes.Keys, t.fds[x]) { assert TableOk(s.pipes.Keys, s.fds[x]); }
    forall x | x in t.tasks ensures TaskOk(t.fds, t.pipes.Keys, x, t.tasks[x]) {
      assert TaskOk(s.fds, s.pipes.Keys, x, s.tasks[x]);
    }
  }

  lemma DropCounts(s: Sys, p: Pid, i: nat, f: Fd, a: Slot)
    requires Droppable(s, p, i, f) && a in s.pipes
    ensures var d := if a == s.fds[p][i].pipe then DropEnd(s.pipes[a], s.fds[p][i].kind == PipeWrite) else s.pipes[a];
            CountsOk(SetFd(s.fds, p, i, f), a, d)
  {
    hide Ends;
    assert CountsOk(s.fds, a, s.pipes[a]);
    assert TableOk(s.pipes.Keys, s.fds[p]);
    EndsAfterSet(s.fds, p, i, f, Fd(PipeRead, a));
    EndsAfterSet(s.fds, p, i, f, Fd(PipeWrite, a));
    assert a != NONE by { assert NONE !in s.ids; }
  }

  lemma DropSleepers(s: Sys, p: Pid, i: nat, f: Fd, a: Slot)
    requires Droppable(s, p, i, f) && a in DropFd(s, p, i, f).pipes
    ensures SleepersOk(s.tasks, a, DropFd(s, p, i, f).pipes[a])
  {
    hide Readers, Writers, Fifo, Close;
    assert SleepersOk(s.tasks, a, s.pipes[a]);
    CloseCorrect(s.pipes[a], s.fds[p][i].kind == PipeWrite);
  }

  /** When a pipe dies no descriptor names it any more, and nobody is inside a call on it. */
  lemma DropUsed(s: Sys, p: Pid, i: nat, f: Fd)
    requires Droppable(s, p, i, f)
    ensures var t := DropFd(s, p, i, f);
            && (forall x, k ::
                  x in t.fds && 0 <= k < |t.fds[x]| && t.fds[x][k].pipe in s.pipes && t.fds[x][k].kind != Terminal ==>
                    t.fds[x][k].pipe in t.pipes)
            && (forall x {:trigger TaskOk(t.fds, t.pipes.Keys, x, t.tasks[x])} :: x in t.tasks
                  ==> TaskOk(t.fds, t.pipes.Keys, x, t.tasks[x]))
  {
    hide Ends, Readers, Writers, Fifo, SleepersOk;
    var t := DropFd(s, p, i, f);
    var slot := s.fds[p][i].pipe;
    DropCounts(s, p, i, f, slot);
    forall x, k | x in t.fds && 0 <= k < |t.fds[x]| && t.fds[x][k].pipe in s.pipes && t.fds[x][k].kind != Terminal
      ensures t.fds[x][k].pipe in t.pipes
    {
      if t.fds[x][k].pipe == slot { EndCounts(t.fds, x, k); }
    }
    forall x | x in t.tasks ensures TaskOk(t.fds, t.pipes.Keys, x, t.tasks[x]) {
      assert TaskOk(s.fds, s.pipes.Keys, x, s.tasks[x]);
      if x != p {
        if t.tasks[x].InRead? {
          var k :| 0 <= k < |t.fds[x]| && t.fds[x][k] == Fd(PipeRead, t.tasks[x].slot);
        } else if t.tasks[x].InWrite? {
          var k :| 0 <= k < |t.fds[x]| && t.fds[x][k] == Fd(PipeWrite, t.tasks[x].slot);
        }
      }
    }
  }

  /** A descriptor that names an end is counted. */
  lemma EndCounts(fds: Tables, p: Pid, i: int)
    requires p in fds && 0 <= i < |fds[p]|
    ensures |Ends(fds, fds[p][i])| > 0
  {
    EndsMember(fds, fds[p][i], (p, i));
  }

  /** Rewriting a descriptor that names no pipe with another that names none. */
  lemma RelabelKeeps(s: Sys, p: Pid, i: nat, f: Fd)
    requires Inv(s) && p in s.fds && i < |s.fds[p]| && s.fds[p][i].pipe == NONE && f.pipe == NONE
    ensures Inv(s.(fds := SetFd(s.fds, p, i, f)))
  {
    hide Ends, Readers, Writers, Fifo, SleepersOk;
    var t := s.(fds := SetFd(s.fds, p, i, f));
    assert NONE !in s.pipes by { assert NONE !in s.ids; }
    forall a | a in t.pipes ensures CountsOk(t.fds, a, t.pipes[a]) && SleepersOk(t.tasks, a, t.pipes[a]) {
      assert CountsOk(s.fds, a, s.pipes[a]) && SleepersOk(s.tasks, a, s.pipes[a]);
      EndsAfterSet(s.fds, p, i, f, Fd(PipeRead, a));
      EndsAfterSet(s.fds, p, i, f, Fd(PipeWrite, a));
    }
    forall x | x in t.fds ensures TableOk(t.pipes.Keys, t.fds[x]) { assert TableOk(s.pipes.Keys, s.fds[x]); }
    forall x | x in t.tasks ensures TaskOk(t.fds, t.pipes.Keys, x, t.tasks[x]) {
      assert TaskOk(s.fds, s.pipes.Keys, x, s.tasks[x]);
      if x == p { StillHolds(s.fds, p, i, f, s.tasks[p]); }
    }
  }
}
