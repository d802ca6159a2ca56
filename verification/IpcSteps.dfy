/** The descriptor operations and the reads and writes, as steps of the whole system, and the proof
    that every one of them keeps the counters, the tables and the sleepers in agreement. */
module IpcSteps {
  import opened Sequences
  import opened Semaphore
  import opened PipeSpec
  import opened IpcSystem

  predicate HasTable(s: Sys, p: Pid) {
    p in s.fds && |s.fds[p]| == MAX_FDS
  }

  /** pipe_get_by_id: the slot of a public id, NONE if there is none. */
  function FindId(ids: map<Slot, nat>, id: nat, from: nat): (r: Slot)
    requires from <= MAX_PIPES
    ensures r == NONE || (r in ids && ids[r] == id && id != 0)
    decreases MAX_PIPES - from
  {
    if from == MAX_PIPES || id == 0 then NONE
    else if from in ids && ids[from] == id then from
    else FindId(ids, id, from + 1)
  }

  /** The first unused slot from `from` on, MAX_PIPES if all are used. */
  function FreeSlot(used: set<Slot>, from: nat): (r: nat)
    requires from <= MAX_PIPES
    ensures from <= r <= MAX_PIPES && (r < MAX_PIPES ==> r !in used)
    ensures forall a :: from <= a < r ==> a in used
    decreases MAX_PIPES - from
  {
    if from == MAX_PIPES || from !in used then from else FreeSlot(used, from + 1)
  }

  /** pipe_create: it needs a slot and three semaphores. */
  function CreatePipe(s: Sys, freeSems: nat): Sys {
    var slot := FreeSlot(s.pipes.Keys, 0);
    if slot == MAX_PIPES || freeSems < 3 then s
    else s.(pipes := s.pipes[slot := NewPipe], ids := s.ids[slot := s.nextId], nextId := s.nextId + 1)
  }

  /** syscall_pipe_release_fd, and one round of the loops that close all descriptors. */
  function Release(s: Sys, p: Pid, i: nat): Sys
    requires p in s.fds && i < |s.fds[p]|
  {
    if s.fds[p][i].kind != Terminal && s.fds[p][i].pipe in s.pipes then DropFd(s, p, i, Closed)
    else s.(fds := SetFd(s.fds, p, i, Closed))
  }

  /** process_close_fds from descriptor `i` on. */
  function CloseAll(s: Sys, p: Pid, i: nat): Sys
    requires HasTable(s, p) && i <= MAX_FDS
    decreases MAX_FDS - i
  {
    if i == MAX_FDS then s else CloseAll(Release(s, p, i), p, i + 1)
  }

  /** process_destroy */
  function Destroy(s: Sys, p: Pid): Sys
    requires HasTable(s, p)
  {
    var t := CloseAll(s, p, 0);
    t.(fds := t.fds - {p}, tasks := t.tasks - {p})
  }

  /** The first half of syscall_pipe_dup: whatever the descriptor names is closed. */
  function Vacate(s: Sys, p: Pid, i: nat): Sys
    requires p in s.fds && i < |s.fds[p]|
  {
    var f := s.fds[p][i];
    if f.kind == Terminal then s
    else if f.pipe in s.pipes then DropFd(s, p, i, Fd(f.kind, NONE))
    else s.(fds := SetFd(s.fds, p, i, Fd(f.kind, NONE)))
  }

  /** syscall_pipe_dup. Closing the old end may destroy the very pipe that is to be opened. */
  function Dup(s: Sys, p: Pid, id: nat, i: nat, mode: nat): Sys
    requires HasTable(s, p)
  {
    if i >= MAX_FDS || FindId(s.ids, id, 0) == NONE then s
    else
      var t := Vacate(s, p, i);
      if mode > 1 then t
      else
        var kind := if mode == 0 then PipeRead else PipeWrite;
        var slot := FindId(t.ids, id, 0);
        if slot == NONE || slot !in t.pipes then t.(fds := SetFd(t.fds, p, i, Fd(kind, NONE)))
        else AddEnd(t, p, i, Fd(kind, slot))
  }

  /** Opens the pipe with public id `id` for a descriptor of a new process, if there is one. */
  function OpenFor(s: Sys, p: Pid, i: nat, kind: Kind, id: nat): Sys
    requires p in s.fds && i < |s.fds[p]|
  {
    var slot := FindId(s.ids, id, 0);
    if slot == NONE || slot !in s.pipes then s else AddEnd(s, p, i, Fd(kind, slot))
  }

  /** One round of the inheritance loop of process_create. */
  function InheritOne(s: Sys, child: Pid, parent: Pid, stdinId: nat, stdoutId: nat, i: nat): Sys
    requires HasTable(s, child) && HasTable(s, parent) && i < MAX_FDS
  {
    var f := s.fds[parent][i];
    if (i == STDIN && stdinId != 0) || (i == STDOUT && stdoutId != 0) then s
    else if f.kind != Terminal && f.pipe in s.pipes then AddEnd(s, child, i, f)
    else s.(fds := SetFd(s.fds, child, i, Closed))
  }

  /** The inheritance loop of process_create from descriptor `i` on. */
  function Inherit(s: Sys, child: Pid, parent: Pid, stdinId: nat, stdoutId: nat, i: nat): Sys
    requires HasTable(s, child) && HasTable(s, parent) && i <= MAX_FDS
    decreases MAX_FDS - i
  {
    if i == MAX_FDS then s
    else Inherit(InheritOne(s, child, parent, stdinId, stdoutId, i), child, parent, stdinId, stdoutId, i + 1)
  }

  /** process_create, once its memory is there; `parent` is NONE for a process without one. */
  function Spawn(s: Sys, child: Pid, parent: Pid, stdinId: nat, stdoutId: nat): Sys
    requires child !in s.fds && (parent != NONE ==> HasTable(s, parent))
  {
    var t0 := s.(fds := s.fds[child := seq(MAX_FDS, _ => Closed)], tasks := s.tasks[child := Idle]);
    var t1 := OpenFor(t0, child, STDIN, PipeRead, stdinId);
    var t2 := OpenFor(t1, child, STDOUT, PipeWrite, stdoutId);
    if parent == NONE then t2 else Inherit(t2, child, parent, stdinId, stdoutId, 0)
  }

  /** A stretch of pipe_read by `p`. */
  function ReadStep(s: Sys, p: Pid, slot: Slot, want: nat): Sys
    requires slot in s.pipes
  {
    var r := Read(s.pipes[slot], p, want, []);
    s.(pipes := s.pipes[slot := r.pipe], tasks := s.tasks[p := if r.asleep then InRead(slot, want) else Idle])
  }

  /** A stretch of pipe_write by `p`. */
  function WriteStep(s: Sys, p: Pid, slot: Slot, bytes: seq<char>, done: nat): Sys
    requires slot in s.pipes && done <= |bytes|
  {
    var w := Write(s.pipes[slot], p, bytes, done);
    s.(pipes := s.pipes[slot := w.pipe], tasks := s.tasks[p := if w.asleep then InWrite(slot, bytes, w.done) else Idle])
  }

  // ---------------------------------------------------------------- descriptor operations keep the invariant

  lemma ReleaseKeeps(s: Sys, p: Pid, i: nat)
    requires Inv(s) && HasTable(s, p) && i < MAX_FDS && s.tasks[p] == Idle
    ensures var t := Release(s, p, i);
            && Inv(t) && t.tasks == s.tasks && t.fds == SetFd(s.fds, p, i, Closed)
  {
    hide CountsOk, SleepersOk;
    assert TableOk(s.pipes.Keys, s.fds[p]);
    if s.fds[p][i].kind != Terminal && s.fds[p][i].pipe in s.pipes {
      DropFdKeeps(s, p, i, Closed);
    } else {
      RelabelKeeps(s, p, i, Closed);
    }
  }

  lemma {:induction false} CloseAllKeeps(s: Sys, p: Pid, i: nat)
    requires Inv(s) && HasTable(s, p) && i <= MAX_FDS && s.tasks[p] == Idle
    requires forall k :: 0 <= k < i ==> s.fds[p][k] == Closed
    ensures var t := CloseAll(s, p, i);
            && Inv(t) && t.tasks == s.tasks && HasTable(t, p)
            && t.fds == s.fds[p := t.fds[p]] && (forall k :: 0 <= k < MAX_FDS ==> t.fds[p][k] == Closed)
    decreases MAX_FDS - i
  {
    hide Inv, DropFd, CountsOk, SleepersOk;
    if i < MAX_FDS {
      ReleaseKeeps(s, p, i);
      CloseAllKeeps(Release(s, p, i), p, i + 1);
    }
  }

  lemma {:induction false} CloseAllTable(s: Sys, p: Pid, i: nat)
    requires HasTable(s, p) && i <= MAX_FDS && forall k :: 0 <= k < i ==> s.fds[p][k] == Closed
    ensures var t := CloseAll(s, p, i);
            t.tasks == s.tasks && HasTable(t, p) && forall k :: 0 <= k < MAX_FDS ==> t.fds[p][k] == Closed
    decreases MAX_FDS - i
  {
    if i < MAX_FDS { CloseAllTable(Release(s, p, i), p, i + 1); }
  }

  /** process_close_fds keeps the agreement if and only if its process is not inside a read or a write. */
  lemma CloseAllExact(s: Sys, p: Pid)
    requires Inv(s) && HasTable(s, p)
    ensures Inv(CloseAll(s, p, 0)) <==> s.tasks[p] == Idle
  {
    hide CloseAll, CountsOk, SleepersOk;
    var t := CloseAll(s, p, 0);
    CloseAllTable(s, p, 0);
    if s.tasks[p] == Idle {
      CloseAllKeeps(s, p, 0);
    } else {
      NoneIsFree(s);
      assert TaskOk(s.fds, s.pipes.Keys, p, s.tasks[p]);
      assert !TaskOk(t.fds, t.pipes.Keys, p, t.tasks[p]);
    }
  }

  lemma NoneIsFree(s: Sys)
    requires Inv(s)
    ensures NONE !in s.pipes
  {
    assert NONE !in s.ids;
  }

  /** A table that names no pipe adds no end and takes none away. */
  lemma EndsOfClosed(fds: Tables, p: Pid, t: seq<Fd>, f: Fd)
    requires p !in fds && f.pipe != NONE && forall k :: 0 <= k < |t| ==> t[k].pipe == NONE
    ensures Ends(fds[p := t], f) == Ends(fds, f)
  {
    hide Ends;
    forall e: (Pid, int) ensures e in Ends(fds[p := t], f) <==> e in Ends(fds, f) {
      EndsMember(fds, f, e);
      EndsMember(fds[p := t], f, e);
    }
    assert Ends(fds[p := t], f) == Ends(fds, f);
  }

  lemma NewProcessKeeps(s: Sys, p: Pid)
    requires Inv(s) && p !in s.fds
    ensures Inv(s.(fds := s.fds[p := seq(MAX_FDS, _ => Closed)], tasks := s.tasks[p := Idle]))
  {
    hide Ends, Fifo;
    var table := seq(MAX_FDS, _ => Closed);
    var t := s.(fds := s.fds[p := table], tasks := s.tasks[p := Idle]);
    forall a | a in t.pipes ensures CountsOk(t.fds, a, t.pipes[a]) && SleepersOk(t.tasks, a, t.pipes[a]) {
      assert CountsOk(s.fds, a, s.pipes[a]) && SleepersOk(s.tasks, a, s.pipes[a]);
      assert a != NONE by { assert a in s.ids; }
      EndsOfClosed(s.fds, p, table, Fd(PipeRead, a));
      EndsOfClosed(s.fds, p, table, Fd(PipeWrite, a));
      assert Readers(t.tasks, a) == Readers(s.tasks, a) && Writers(t.tasks, a) == Writers(s.tasks, a);
    }
    forall x | x in t.fds ensures TableOk(t.pipes.Keys, t.fds[x]) {
      if x != p { assert TableOk(s.pipes.Keys, s.fds[x]); }
    }
    forall x | x in t.tasks ensures TaskOk(t.fds, t.pipes.Keys, x, t.tasks[x]) {
      if x != p { assert TaskOk(s.fds, s.pipes.Keys, x, s.tasks[x]); }
    }
  }

  lemma ForgetKeeps(s: Sys, p: Pid)
    requires Inv(s) && HasTable(s, p) && s.tasks[p] == Idle && forall k :: 0 <= k < MAX_FDS ==> s.fds[p][k] == Closed
    ensures Inv(s.(fds := s.fds - {p}, tasks := s.tasks - {p}))
  {
    hide Ends, Fifo;
    var t := s.(fds := s.fds - {p}, tasks := s.tasks - {p});
    assert s.fds == t.fds[p := s.fds[p]];
    forall a | a in t.pipes ensures CountsOk(t.fds, a, t.pipes[a]) && SleepersOk(t.tasks, a, t.pipes[a]) {
      assert CountsOk(s.fds, a, s.pipes[a]) && SleepersOk(s.tasks, a, s.pipes[a]);
      assert a != NONE by { assert a in s.ids; }
      EndsOfClosed(t.fds, p, s.fds[p], Fd(PipeRead, a));
      EndsOfClosed(t.fds, p, s.fds[p], Fd(PipeWrite, a));
      assert Readers(t.tasks, a) == Readers(s.tasks, a) && Writers(t.tasks, a) == Writers(s.tasks, a);
    }
    forall x | x in t.fds ensures TableOk(t.pipes.Keys, t.fds[x]) { assert TableOk(s.pipes.Keys, s.fds[x]); }
    forall x | x in t.tasks ensures TaskOk(t.fds, t.pipes.Keys, x, t.tasks[x]) {
      assert TaskOk(s.fds, s.pipes.Keys, x, s.tasks[x]);
    }
  }

  lemma DestroyKeeps(s: Sys, p: Pid)
    requires Inv(s) && HasTable(s, p) && s.tasks[p] == Idle
    ensures Inv(Destroy(s, p))
  {
    hide Inv;
    CloseAllKeeps(s, p, 0);
    ForgetKeeps(CloseAll(s, p, 0), p);
  }

  lemma DupKeeps(s: Sys, p: Pid, id: nat, i: nat, mode: nat)
    requires Inv(s) && HasTable(s, p) && s.tasks[p] == Idle
    ensures Inv(Dup(s, p, id, i, mode))
  {
    hide CountsOk, SleepersOk, FindId;
    assert TableOk(s.pipes.Keys, s.fds[p]);
    if i < MAX_FDS {
      var f := s.fds[p][i];
      if f.kind != Terminal {
        if f.pipe in s.pipes {
          DropFdKeeps(s, p, i, Fd(f.kind, NONE));
        } else {
          RelabelKeeps(s, p, i, Fd(f.kind, NONE));
        }
      }
      var t := Vacate(s, p, i);
      assert Inv(t);
      if mode <= 1 {
        var kind := if mode == 0 then PipeRead else PipeWrite;
        var slot := FindId(t.ids, id, 0);
        if slot == NONE || slot !in t.pipes {
          RelabelKeeps(t, p, i, Fd(kind, NONE));
        } else {
          AddEndKeeps(t, p, i, Fd(kind, slot));
        }
      }
    }
  }

  lemma OpenForKeeps(s: Sys, p: Pid, i: nat, kind: Kind, id: nat)
    requires Inv(s) && HasTable(s, p) && i < MAX_FDS && kind != Terminal && s.fds[p][i].pipe == NONE
    ensures var t := OpenFor(s, p, i, kind, id);
            && Inv(t) && HasTable(t, p) && t.tasks == s.tasks
            && t.fds == s.fds[p := s.fds[p][i := t.fds[p][i]]]
  {
    hide CountsOk, SleepersOk, FindId;
    var slot := FindId(s.ids, id, 0);
    if slot == NONE || slot !in s.pipes {
      assert s.fds[p][i := s.fds[p][i]] == s.fds[p];
      assert s.fds[p := s.fds[p]] == s.fds;
    } else {
      AddEndKeeps(s, p, i, Fd(kind, slot));
    }
  }

  /** The descriptors of the child that the loop may still write name no pipe. */
  ghost predicate Inheriting(s: Sys, child: Pid, stdinId: nat, stdoutId: nat, i: nat) {
    HasTable(s, child)
    && forall k :: i <= k < MAX_FDS && !(k == STDIN && stdinId != 0) && !(k == STDOUT && stdoutId != 0)
                   ==> s.fds[child][k].pipe == NONE
  }

  lemma InheritOneKeeps(s: Sys, child: Pid, parent: Pid, stdinId: nat, stdoutId: nat, i: nat)
    requires Inv(s) && Inheriting(s, child, stdinId, stdoutId, i) && HasTable(s, parent) && child != parent
             && i < MAX_FDS
    ensures var t := InheritOne(s, child, parent, stdinId, stdoutId, i);
            Inv(t) && Inheriting(t, child, stdinId, stdoutId, i + 1) && HasTable(t, parent)
  {
    hide CountsOk, SleepersOk;
    assert TableOk(s.pipes.Keys, s.fds[parent]);
    var f := s.fds[parent][i];
    if !(i == STDIN && stdinId != 0) && !(i == STDOUT && stdoutId != 0) {
      if f.kind != Terminal && f.pipe in s.pipes {
        AddEndKeeps(s, child, i, f);
      } else {
        RelabelKeeps(s, child, i, Closed);
      }
    }
  }

  lemma {:induction false} InheritKeeps(s: Sys, child: Pid, parent: Pid, stdinId: nat, stdoutId: nat, i: nat)
    requires Inv(s) && Inheriting(s, child, stdinId, stdoutId, i) && HasTable(s, parent) && child != parent
             && i <= MAX_FDS
    ensures Inv(Inherit(s, child, parent, stdinId, stdoutId, i))
    decreases MAX_FDS - i
  {
    hide Inv, InheritOne;
    if i < MAX_FDS {
      InheritOneKeeps(s, child, parent, stdinId, stdoutId, i);
      InheritKeeps(InheritOne(s, child, parent, stdinId, stdoutId, i), child, parent, stdinId, stdoutId, i + 1);
    }
  }

  lemma SpawnKeeps(s: Sys, child: Pid, parent: Pid, stdinId: nat, stdoutId: nat)
    requires Inv(s) && child !in s.fds && (parent != NONE ==> HasTable(s, parent))
    ensures Inv(Spawn(s, child, parent, stdinId, stdoutId))
  {
    hide Inv, AddEnd, FindId;
    var t0 := s.(fds := s.fds[child := seq(MAX_FDS, _ => Closed)], tasks := s.tasks[child := Idle]);
    NewProcessKeeps(s, child);
    OpenForKeeps(t0, child, STDIN, PipeRead, stdinId);
    var t1 := OpenFor(t0, child, STDIN, PipeRead, stdinId);
    OpenForKeeps(t1, child, STDOUT, PipeWrite, stdoutId);
    var t2 := OpenFor(t1, child, STDOUT, PipeWrite, stdoutId);
    if parent != NONE {
      NoId(t0.ids);
      NoId(t1.ids);
      InheritKeeps(t2, child, parent, stdinId, stdoutId, 0);
    }
  }

  lemma {:induction false} FindIdFinds(ids: map<Slot, nat>, slot: Slot, from: nat)
    requires 0 <= from <= slot < MAX_PIPES && slot in ids && ids[slot] != 0
    requires forall a :: a in ids && a != slot ==> ids[a] != ids[slot]
    ensures FindId(ids, ids[slot], from) == slot
    decreases slot - from
  {
    if from < slot { FindIdFinds(ids, slot, from + 1); }
  }

  /** The id of a used pipe leads back to it. */
  lemma IdLeadsBack(s: Sys, slot: Slot)
    requires Inv(s) && slot in s.pipes
    ensures slot in s.ids && s.ids[slot] != 0 && FindId(s.ids, s.ids[slot], 0) == slot
  {
    hide TableOk, TaskOk, CountsOk, SleepersOk, FindId;
    FindIdFinds(s.ids, slot, 0);
  }

  /** Id 0 stands for no pipe. */
  lemma NoId(ids: map<Slot, nat>)
    ensures FindId(ids, 0, 0) == NONE
  {
  }

  lemma CreateKeeps(s: Sys, freeSems: nat)
    requires Inv(s)
    ensures Inv(CreatePipe(s, freeSems))
  {
    hide Ends, Fifo;
    var slot := FreeSlot(s.pipes.Keys, 0);
    if slot != MAX_PIPES && freeSems >= 3 {
      var t := CreatePipe(s, freeSems);
      forall kind: Kind | kind != Terminal ensures Ends(s.fds, Fd(kind, slot)) == {} { NoEnds(s, kind, slot); }
      forall a | a in t.pipes ensures CountsOk(t.fds, a, t.pipes[a]) && SleepersOk(t.tasks, a, t.pipes[a]) {
        if a != slot { assert CountsOk(s.fds, a, s.pipes[a]) && SleepersOk(s.tasks, a, s.pipes[a]); }
        else { assert Fifo(NewPipe) by { NewPipeFifo(); } }
      }
      forall x | x in t.fds ensures TableOk(t.pipes.Keys, t.fds[x]) { assert TableOk(s.pipes.Keys, s.fds[x]); }
      forall x | x in t.tasks ensures TaskOk(t.fds, t.pipes.Keys, x, t.tasks[x]) {
        assert TaskOk(s.fds, s.pipes.Keys, x, s.tasks[x]);
      }
    }
  }

  lemma NewPipeFifo()
    ensures Fifo(NewPipe)
  {
  }

  lemma NoEnds(s: Sys, kind: Kind, slot: Slot)
    requires Inv(s) && slot !in s.pipes && slot != NONE
    ensures Ends(s.fds, Fd(kind, slot)) == {}
  {
    hide Ends;
    forall e: (Pid, int) ensures e !in Ends(s.fds, Fd(kind, slot)) {
      EndsMember(s.fds, Fd(kind, slot), e);
      if e.0 in s.fds { assert TableOk(s.pipes.Keys, s.fds[e.0]); }
    }
    assert Ends(s.fds, Fd(kind, slot)) == {};
  }

  // ---------------------------------------------------------------- reads and writes keep the invariant

  /** `p` may run on the pipe in `slot`: it is starting the call `t`, or was woken inside it. */
  ghost predicate Runnable(s: Sys, p: Pid, slot: Slot, t: Task) {
    && Inv(s) && p in s.tasks && slot in s.pipes && t != Idle && t.slot == slot
    && TaskOk(s.fds, s.pipes.Keys, p, t)
    && (s.tasks[p] == Idle || s.tasks[p] == t)
    && p !in s.pipes[slot].items.queue && p !in s.pipes[slot].spaces.queue
  }

  /** Changing the task of one process, between calls on the same pipe, as seen from a pipe. */
  lemma TasksChange(tasks: map<Pid, Task>, p: Pid, t: Task, a: Slot)
    requires p in tasks
    ensures var in' := t.InRead? && t.slot == a;
            Readers(tasks[p := t], a) == if in' then Readers(tasks, a) + {p} else Readers(tasks, a) - {p}
    ensures var in' := t.InWrite? && t.slot == a;
            Writers(tasks[p := t], a) == if in' then Writers(tasks, a) + {p} else Writers(tasks, a) - {p}
  {
  }

  lemma ReadStepKeeps(s: Sys, p: Pid, slot: Slot, want: nat)
    requires Runnable(s, p, slot, InRead(slot, want))
    ensures Inv(ReadStep(s, p, slot, want))
  {
    hide Read, Fifo, CountsOk, Ends, Readers, Writers, SignalMany;
    var t := ReadStep(s, p, slot, want);
    assert t.pipes.Keys == s.pipes.Keys;
    ReadSleepers(s, p, slot, want);
    forall a | a in t.pipes ensures CountsOk(t.fds, a, t.pipes[a]) && SleepersOk(t.tasks, a, t.pipes[a]) {
      assert CountsOk(s.fds, a, s.pipes[a]) && SleepersOk(s.tasks, a, s.pipes[a]);
      SameCounts(s.fds, a, s.pipes[a], t.pipes[a]);
      TasksChange(s.tasks, p, t.tasks[p], a);
      if a != slot { OutsideOthers(s, p, slot, InRead(slot, want), a); }
    }
    forall x | x in t.fds ensures TableOk(t.pipes.Keys, t.fds[x]) { assert TableOk(s.pipes.Keys, s.fds[x]); }
    forall x | x in t.tasks ensures TaskOk(t.fds, t.pipes.Keys, x, t.tasks[x]) {
      assert TaskOk(s.fds, s.pipes.Keys, x, s.tasks[x]);
    }
  }

  lemma SameCounts(fds: Tables, a: Slot, p: Pipe, q: Pipe)
    requires CountsOk(fds, a, p) && q.readers == p.readers && q.writers == p.writers
    ensures CountsOk(fds, a, q)
  {
  }

  lemma OutsideOthers(s: Sys, p: Pid, slot: Slot, t: Task, a: Slot)
    requires Runnable(s, p, slot, t) && a != slot
    ensures p !in Readers(s.tasks, a) && p !in Writers(s.tasks, a)
  {
  }

  lemma ReadSleepers(s: Sys, p: Pid, slot: Slot, want: nat)
    requires Runnable(s, p, slot, InRead(slot, want))
    ensures var t := ReadStep(s, p, slot, want);
            && SleepersOk(t.tasks, slot, t.pipes[slot])
            && t.pipes[slot].readers == s.pipes[slot].readers && t.pipes[slot].writers == s.pipes[slot].writers
  {
    hide Read, CountsOk, Ends, Readers, Writers, SignalMany, ReadsWell;
    var pipe := s.pipes[slot];
    assert SleepersOk(s.tasks, slot, pipe);
    ReadCorrect(pipe, p, want, []);
    var r := Read(pipe, p, want, []);
    var t := ReadStep(s, p, slot, want);
    TasksChange(s.tasks, p, t.tasks[p], slot);
    ReaderEither(s, p, slot, want);
    ReadSettles(pipe, p, want, r, Readers(s.tasks, slot), Readers(t.tasks, slot));
  }

  /** The arithmetic of a read: a reader that leaves has taken a byte, or there was none. */
  lemma ReadSettles(pipe: Pipe, p: Pid, want: nat, r: Reading, inside: set<Pid>, after: set<Pid>)
    requires Fifo(pipe) && want > 0 && ReadsWell(pipe, p, want, [], r)
    requires Distinct(pipe.items.queue) && Distinct(pipe.spaces.queue) && p !in pipe.items.queue
    requires forall x :: x in pipe.items.queue ==> x in inside
    requires pipe.items.queue != [] ==> |pipe.data| + |pipe.items.queue| <= |inside|
    requires after == if r.asleep then inside + {p} else inside - {p}
    ensures Fifo(r.pipe) && r.pipe.readers == pipe.readers && r.pipe.writers == pipe.writers
    ensures Distinct(r.pipe.items.queue) && Distinct(r.pipe.spaces.queue)
    ensures forall x :: x in r.pipe.items.queue ==> x in after
    ensures forall x :: x in r.pipe.spaces.queue ==> x in pipe.spaces.queue
    ensures r.pipe.items.queue != [] ==> |r.pipe.data| + |r.pipe.items.queue| <= |after|
  {
    hide Fifo, SignalMany, Distinct, Signal, Wait;
    var n := Least(want, |pipe.data|);
    FifoSems(pipe);
    SuffixSettles(pipe.spaces, n);
    if r.asleep {
      SleepSettles(pipe.items.queue, p, inside);
    } else {
      assert r.pipe.items.queue == pipe.items.queue;
      LeaveSettles(pipe.items.queue, p, |pipe.data|, |r.pipe.data|, inside);
    }
  }

  /** Waking the first few sleepers leaves a sequence of some of them. */
  lemma SuffixSettles(s: Sem, n: nat)
    requires Ok(s) && Distinct(s.queue)
    ensures Distinct(SignalMany(s, n).queue) && forall x :: x in SignalMany(s, n).queue ==> x in s.queue
  {
    hide SignalMany;
    SignalManyWakes(s, n);
  }

  lemma SleepSettles(q: seq<Pid>, p: Pid, inside: set<Pid>)
    requires Distinct(q) && p !in q && forall x :: x in q ==> x in inside
    ensures Distinct(q + [p]) && (forall x :: x in q + [p] ==> x in inside + {p}) && |q + [p]| <= |inside + {p}|
  {
    DistinctFits(q + [p], inside + {p});
  }

  lemma LeaveSettles(q: seq<Pid>, p: Pid, bytes: nat, left: nat, inside: set<Pid>)
    requires Distinct(q) && p !in q && forall x :: x in q ==> x in inside
    requires q != [] ==> bytes + |q| <= |inside|
    requires left < bytes || left == 0
    ensures (forall x :: x in q ==> x in inside - {p}) && (q != [] ==> left + |q| <= |inside - {p}|)
  {
    DistinctFits(q, inside - {p});
  }

  lemma FifoSems(p: Pipe)
    requires Fifo(p)
    ensures Ok(p.items) && Ok(p.spaces)
  {
  }

  /** Before a read `p` is not among the writers of the pipe. */
  lemma ReaderEither(s: Sys, p: Pid, slot: Slot, want: nat)
    requires Runnable(s, p, slot, InRead(slot, want))
    ensures p !in Writers(s.tasks, slot)
    ensures p in Readers(s.tasks, slot) <==> s.tasks[p] == InRead(slot, want)
  {
  }

  lemma WriterEither(s: Sys, p: Pid, slot: Slot, bytes: seq<char>, done: nat)
    requires Runnable(s, p, slot, InWrite(slot, bytes, done))
    ensures p !in Readers(s.tasks, slot)
    ensures p in Writers(s.tasks, slot) <==> s.tasks[p] == InWrite(slot, bytes, done)
  {
  }

  lemma WriteStepKeeps(s: Sys, p: Pid, slot: Slot, bytes: seq<char>, done: nat)
    requires Runnable(s, p, slot, InWrite(slot, bytes, done))
    ensures Inv(WriteStep(s, p, slot, bytes, done))
  {
    hide Write, Fifo, CountsOk, Ends, Readers, Writers, SignalMany;
    var t := WriteStep(s, p, slot, bytes, done);
    assert t.pipes.Keys == s.pipes.Keys;
    WriteSleepers(s, p, slot, bytes, done);
    forall a | a in t.pipes ensures CountsOk(t.fds, a, t.pipes[a]) && SleepersOk(t.tasks, a, t.pipes[a]) {
      assert CountsOk(s.fds, a, s.pipes[a]) && SleepersOk(s.tasks, a, s.pipes[a]);
      SameCounts(s.fds, a, s.pipes[a], t.pipes[a]);
      TasksChange(s.tasks, p, t.tasks[p], a);
      if a != slot { OutsideOthers(s, p, slot, InWrite(slot, bytes, done), a); }
    }
    forall x | x in t.fds ensures TableOk(t.pipes.Keys, t.fds[x]) { assert TableOk(s.pipes.Keys, s.fds[x]); }
    forall x | x in t.tasks ensures TaskOk(t.fds, t.pipes.Keys, x, t.tasks[x]) {
      assert TaskOk(s.fds, s.pipes.Keys, x, s.tasks[x]);
    }
  }

  lemma WriteSleepers(s: Sys, p: Pid, slot: Slot, bytes: seq<char>, done: nat)
    requires Runnable(s, p, slot, InWrite(slot, bytes, done))
    ensures var t := WriteStep(s, p, slot, bytes, done);
            var w := Write(s.pipes[slot], p, bytes, done);
            && SleepersOk(t.tasks, slot, t.pipes[slot])
            && t.pipes[slot].readers == s.pipes[slot].readers && t.pipes[slot].writers == s.pipes[slot].writers
            && (w.asleep ==> w.done < |bytes|)
  {
    hide Write, WritesWell, CountsOk, Ends, Readers, Writers, SignalMany, Fifo, Distinct;
    var pipe := s.pipes[slot];
    assert SleepersOk(s.tasks, slot, pipe);
    var w := Write(pipe, p, bytes, done);
    WriteCorrect(pipe, p, bytes, done);
    WriteSettles(pipe, p, bytes, done, w);
    var t := WriteStep(s, p, slot, bytes, done);
    TasksChange(s.tasks, p, t.tasks[p], slot);
    WriterEither(s, p, slot, bytes, done);
  }

  /** What a write does to the sleepers: readers are woken by the bytes, and the writer may join. */
  lemma WriteSettles(pipe: Pipe, p: Pid, bytes: seq<char>, done: nat, w: Writing)
    requires Fifo(pipe) && WritesWell(pipe, p, bytes, done, w) && p !in pipe.spaces.queue
    requires Distinct(pipe.items.queue) && Distinct(pipe.spaces.queue)
    ensures Fifo(w.pipe) && w.pipe.readers == pipe.readers && w.pipe.writers == pipe.writers
    ensures Distinct(w.pipe.items.queue) && Distinct(w.pipe.spaces.queue)
    ensures forall x :: x in w.pipe.items.queue ==> x in pipe.items.queue
    ensures w.pipe.spaces.queue == pipe.spaces.queue + if w.asleep then [p] else []
    ensures w.pipe.items.queue != [] ==>
              pipe.items.queue != [] && |w.pipe.data| + |w.pipe.items.queue| == |pipe.data| + |pipe.items.queue|
    ensures w.asleep ==> w.done < |bytes|
  {
    hide SignalMany;
    SignalManyWakes(pipe.items, w.done - done);
  }
}
