/** The descriptor operations of Kernel/proc/process.c and Kernel/syscalls/syscalls_kernel.c as they
    run: through the public ids of the pipes, entry by entry. Each is proved equal to a step of the
    whole system, and so keeps its invariant. */
module Descriptors {
  import opened Semaphore
  import opened PipeSpec
  import opened IpcSystem
  import opened IpcSteps
  import IpcRuns

  /** An entry that names a pipe names a used one, and a terminal entry names none. */
  lemma EntryFacts(s: Sys, p: Pid, i: nat)
    requires Inv(s) && p in s.fds && i < MAX_FDS
    ensures HasTable(s, p) && p in s.tasks && NONE !in s.pipes
    ensures s.fds[p][i].pipe != NONE ==> s.fds[p][i].pipe in s.pipes && s.fds[p][i].kind != Terminal
    ensures s.fds[p][i].kind == Terminal ==> s.fds[p][i] == Closed && SetFd(s.fds, p, i, Closed) == s.fds
  {
    hide TaskOk, CountsOk, SleepersOk;
    assert TableOk(s.pipes.Keys, s.fds[p]);
    assert NONE !in s.ids;
    if s.fds[p][i].kind == Terminal {
      assert s.fds[p][i := Closed] == s.fds[p];
    }
  }

  class System {
    var pipes: map<Slot, Pipe>
    var ids: map<Slot, nat>
    var nextId: nat
    var fds: Tables
    ghost var tasks: map<Pid, Task>

    ghost function Model(): Sys
      reads this
    {
      Sys(pipes, ids, nextId, fds, tasks)
    }

    ghost predicate Valid()
      reads this
    {
      Inv(Model())
    }

    constructor ()
      ensures Valid() && Model() == IpcRuns.Empty
    {
      pipes, ids, nextId, fds, tasks := map[], map[], 1, map[], map[];
    }

    /** pipe_get_by_id */
    method GetById(id: nat) returns (slot: Slot)
      ensures slot == FindId(ids, id, 0)
    {
      if id == 0 {
        return NONE;
      }
      for i := 0 to MAX_PIPES
        invariant FindId(ids, id, 0) == FindId(ids, id, i)
      {
        if i in ids && ids[i] == id {
          return i;
        }
      }
      slot := NONE;
    }

    /** pipe_get_id: 0 for NULL and for a released slot. */
    function GetId(slot: Slot): nat
      reads this
    {
      if slot in ids then ids[slot] else 0
    }

    /** pipe_create; `freeSems` semaphores are left in their table. */
    method CreateNewPipe(freeSems: nat) returns (id: nat)
      requires Valid()
      modifies this
      ensures Valid() && Model() == CreatePipe(old(Model()), freeSems)
      ensures id == 0 <==> Model() == old(Model())
      ensures id != 0 ==>
                && id == old(nextId)
                && exists slot :: slot in ids && slot !in old(pipes) && slot in pipes && ids[slot] == id
    {
      hide CountsOk, SleepersOk;
      CreateKeeps(Model(), freeSems);
      for i := 0 to MAX_PIPES
        invariant Model() == old(Model()) && FreeSlot(pipes.Keys, 0) == FreeSlot(pipes.Keys, i)
      {
        if i !in pipes {
          if freeSems < 3 {
            return 0;
          }
          id := nextId;
          nextId := nextId + 1;
          pipes, ids := pipes[i := NewPipe], ids[i := id];
          return;
        }
      }
      id := 0;
    }

    /** pipe_open_by_id */
    method OpenById(id: nat, writer: bool) returns (ok: bool)
      modifies this`pipes
      ensures var slot := FindId(ids, id, 0);
              && ok == (slot != NONE && slot in old(pipes))
              && pipes == if ok then old(pipes)[slot := Open(old(pipes)[slot], writer)] else old(pipes)
    {
      var slot := GetById(id);
      if slot == NONE || slot !in pipes {
        return false;
      }
      pipes := pipes[slot := Open(pipes[slot], writer)];
      ok := true;
    }

    /** pipe_close_by_id */
    method CloseById(id: nat, writer: bool)
      modifies this`pipes, this`ids
      ensures var slot := FindId(old(ids), id, 0);
              Model() == if slot != NONE && slot in old(pipes) then CloseSlot(old(Model()), slot, writer)
                  else old(Model())
    {
      var slot := GetById(id);
      if slot == NONE || slot !in pipes {
        return;
      }
      if Dies(pipes[slot], writer) {
        pipes, ids := pipes - {slot}, ids - {slot};
      } else {
        pipes := pipes[slot := Close(pipes[slot], writer)];
      }
    }

    /** Closes the end that an entry names, if it names one. The entry is left as it is. */
    method CloseEntry(p: Pid, i: nat)
      requires Valid() && p in fds && i < MAX_FDS && |fds[p]| == MAX_FDS
      modifies this`pipes, this`ids
      ensures Model() == if fds[p][i].pipe in old(pipes) then CloseSlot(old(Model()), fds[p][i].pipe, fds[p][i].kind
              == PipeWrite)
                         else old(Model())
    {
      hide Inv, CloseSlot, FindId;
      EntryFacts(Model(), p, i);
      var f := fds[p][i];
      if f.pipe != NONE {
        IdLeadsBack(Model(), f.pipe);
        var id := GetId(f.pipe);
        if id != 0 {
          CloseById(id, f.kind == PipeWrite);
        }
      }
    }

    /** syscall_pipe_release_fd by process `p`. */
    method ReleaseFd(p: Pid, fd: nat) returns (ok: bool)
      requires Valid() && p in fds && p in tasks && tasks[p] == Idle
      modifies this`pipes, this`ids, this`fds
      ensures Valid() && fds.Keys == old(fds).Keys && ok == (fd < MAX_FDS)
      ensures p in old(fds) && (fd < MAX_FDS ==> HasTable(old(Model()), p))
      ensures Model() == if fd < MAX_FDS then Release(old(Model()), p, fd) else old(Model())
    {
      hide Inv, CloseSlot, FindId;
      if fd >= MAX_FDS {
        return false;
      }
      EntryFacts(Model(), p, fd);
      ReleaseKeeps(Model(), p, fd);
      if fds[p][fd].kind != Terminal {
        CloseEntry(p, fd);
      }
      fds := fds[p := fds[p][fd := Closed]];
      ok := true;
    }

    /** process_close_fds, and the loop of process_destroy. */
    method CloseFds(p: Pid)
      requires Valid() && p in fds && p in tasks && tasks[p] == Idle
      modifies this`pipes, this`ids, this`fds
      ensures Valid() && HasTable(old(Model()), p) && Model() == CloseAll(old(Model()), p, 0)
      ensures fds == old(fds)[p := seq(MAX_FDS, _ => Closed)]
    {
      hide Inv, CloseSlot, FindId, Release;
      EntryFacts(Model(), p, 0);
      CloseAllKeeps(Model(), p, 0);
      for i := 0 to MAX_FDS
        invariant Valid() && HasTable(Model(), p) && CloseAll(Model(), p, i) == CloseAll(old(Model()), p, 0)
      {
        EntryFacts(Model(), p, i);
        ReleaseKeeps(Model(), p, i);
        ReleaseIs(Model(), p, i);
        if fds[p][i].kind != Terminal {
          CloseEntry(p, i);
          fds := fds[p := fds[p][i := Closed]];
        }
      }
      assert fds[p] == seq(MAX_FDS, _ => Closed);
    }

    /** process_destroy: the memory of the process is not modelled. */
    method Destroy(p: Pid)
      requires Valid() && p in fds && p in tasks && tasks[p] == Idle
      modifies this`pipes, this`ids, this`fds, this`tasks
      ensures Valid() && HasTable(old(Model()), p) && Model() == IpcSteps.Destroy(old(Model()), p)
    {
      hide Inv, CloseAll;
      EntryFacts(Model(), p, 0);
      DestroyKeeps(Model(), p);
      CloseFds(p);
      fds, tasks := fds - {p}, tasks - {p};
    }

    /** syscall_pipe_dup by process `p`. */
    method PipeDup(p: Pid, id: nat, fd: nat, mode: nat) returns (ok: bool)
      requires Valid() && p in fds && p in tasks && tasks[p] == Idle
      modifies this`pipes, this`ids, this`fds
      ensures Valid() && HasTable(old(Model()), p) && Model() == Dup(old(Model()), p, id, fd, mode)
      ensures ok ==> fd < MAX_FDS && mode <= 1 && HasTable(Model(), p) && fds[p][fd].pipe == FindId(old(ids), id, 0)
      ensures ok <==> fd < MAX_FDS && mode <= 1 && FindId(Vacated(old(Model()), p, fd).ids, id, 0) != NONE
    {
      hide Inv, CloseSlot, FindId;
      EntryFacts(Model(), p, 0);
      DupKeeps(Model(), p, id, fd, mode);
      if fd >= MAX_FDS {
        return false;
      }
      ghost var s := Model();
      VacateIds(s, p, fd, id);
      var pipe := GetById(id);
      if pipe == NONE {
        return false;
      }
      EntryFacts(s, p, fd);
      if fds[p][fd].kind != Terminal {
        CloseEntry(p, fd);
        fds := fds[p := fds[p][fd := Fd(fds[p][fd].kind, NONE)]];
      }
      ghost var t := Model();
      assert t == Vacate(s, p, fd) && fds[p][fd].pipe == NONE;
      if mode > 1 {
        return false;
      }
      fds := fds[p := fds[p][fd := Fd(if mode == 0 then PipeRead else PipeWrite, fds[p][fd].pipe)]];
      ok := OpenById(id, mode == 1);
      if ok {
        SetTwice(t.fds, p, fd, fds[p][fd], Fd(fds[p][fd].kind, pipe));
        fds := fds[p := fds[p][fd := Fd(fds[p][fd].kind, pipe)]];
      }
    }

    /** The descriptor part of process_create; `parent` is NONE for a process without one. */
    method CreateProcess(child: Pid, parent: Pid, stdinId: nat, stdoutId: nat)
      requires Valid() && child !in fds && (parent != NONE ==> parent in fds)
      modifies this`pipes, this`fds, this`tasks
      ensures Valid() && (parent != NONE ==> HasTable(old(Model()), parent))
      ensures Model() == Spawn(old(Model()), child, parent, stdinId, stdoutId)
    {
      hide Inv, FindId, Inherit;
      if parent != NONE { EntryFacts(Model(), parent, 0); }
      SpawnKeeps(Model(), child, parent, stdinId, stdoutId);
      ghost var s := Model();
      fds := fds[child := seq(MAX_FDS, _ => Closed)];
      tasks := tasks[child := Idle];
      NewProcessKeeps(s, child);
      ghost var t0 := Model();
      OpenStd(child, STDIN, PipeRead, stdinId);
      ghost var t1 := Model();
      OpenStd(child, STDOUT, PipeWrite, stdoutId);
      if parent != NONE {
        NoId(t0.ids);
        NoId(t1.ids);
        InheritAll(child, parent, stdinId, stdoutId);
      }
    }

    /** Opens the pipe given for a standard descriptor, if its id is not 0. */
    method OpenStd(child: Pid, fd: nat, kind: Kind, id: nat)
      requires Valid() && HasTable(Model(), child) && fd < MAX_FDS && kind != Terminal && fds[child][fd].pipe == NONE
      modifies this`pipes, this`fds
      ensures Valid() && HasTable(Model(), child) && Model() == OpenFor(old(Model()), child, fd, kind, id)
      ensures fds == old(fds)[child := old(fds)[child][fd := fds[child][fd]]]
    {
      hide Inv, FindId;
      OpenForKeeps(Model(), child, fd, kind, id);
      NoId(ids);
      if id != 0 {
        var pipe := GetById(id);
        if pipe != NONE {
          var ok := OpenById(id, kind == PipeWrite);
          if ok {
            fds := fds[child := fds[child][fd := Fd(kind, pipe)]];
          }
        }
      }
    }

    /** The inheritance loop of process_create. */
    method InheritAll(child: Pid, parent: Pid, stdinId: nat, stdoutId: nat)
      requires Valid() && Inheriting(Model(), child, stdinId, stdoutId, 0) && HasTable(Model(), parent)
               && child != parent
      modifies this`pipes, this`fds
      ensures Valid() && Model() == Inherit(old(Model()), child, parent, stdinId, stdoutId, 0)
    {
      hide Inv, FindId, InheritOne;
      for i := 0 to MAX_FDS
        invariant Valid() && Inheriting(Model(), child, stdinId, stdoutId, i) && HasTable(Model(), parent)
        invariant Inherit(Model(), child, parent, stdinId, stdoutId, i)
                  == Inherit(old(Model()), child, parent, stdinId, stdoutId, 0)
      {
        InheritEntry(child, parent, stdinId, stdoutId, i);
      }
    }

    /** One round of it. */
    method InheritEntry(child: Pid, parent: Pid, stdinId: nat, stdoutId: nat, i: nat)
      requires Valid() && Inheriting(Model(), child, stdinId, stdoutId, i) && HasTable(Model(), parent)
               && child != parent && i < MAX_FDS
      modifies this`pipes, this`fds
      ensures Valid() && Inheriting(Model(), child, stdinId, stdoutId, i + 1) && HasTable(Model(), parent)
      ensures Model() == InheritOne(old(Model()), child, parent, stdinId, stdoutId, i)
    {
      hide Inv, FindId;
      InheritOneKeeps(Model(), child, parent, stdinId, stdoutId, i);
      EntryFacts(Model(), parent, i);
      if (i == STDIN && stdinId != 0) || (i == STDOUT && stdoutId != 0) {
        return;
      }
      var f := fds[parent][i];
      var shared := false;
      if f.kind != Terminal && f.pipe != NONE {
        IdLeadsBack(Model(), f.pipe);
        var id := GetId(f.pipe);
        if id != 0 {
          shared := OpenById(id, f.kind == PipeWrite);
        }
      }
      fds := fds[child := fds[child][i := if shared then f else Closed]];
    }
  }

  ghost function Vacated(s: Sys, p: Pid, i: nat): Sys {
    if p in s.fds && i < |s.fds[p]| then Vacate(s, p, i) else s
  }

  lemma SetTwice(fds: Tables, p: Pid, i: nat, f: Fd, g: Fd)
    requires p in fds && i < |fds[p]|
    ensures SetFd(SetFd(fds, p, i, f), p, i, g) == SetFd(fds, p, i, g)
  {
    assert fds[p][i := f][i := g] == fds[p][i := g];
  }

  /** Vacating an entry takes away one pipe at most, so an id still leads where it did or nowhere. */
  lemma VacateIds(s: Sys, p: Pid, i: nat, id: nat)
    requires Inv(s) && HasTable(s, p) && i < MAX_FDS
    ensures var t := Vacate(s, p, i);
            var r := FindId(t.ids, id, 0);
            r == NONE || (r == FindId(s.ids, id, 0) && r in t.pipes)
  {
    hide TableOk, TaskOk, CountsOk, SleepersOk, FindId;
    var t := Vacate(s, p, i);
    var r := FindId(t.ids, id, 0);
    assert t.ids.Keys == t.pipes.Keys && t.pipes.Keys <= s.pipes.Keys;
    if r != NONE {
      assert s.ids[r] == id;
      IdLeadsBack(s, r);
    }
  }

  /** Closing an entry and resetting it is a release. */
  lemma ReleaseIs(s: Sys, p: Pid, i: nat)
    requires p in s.fds && i < |s.fds[p]| && Inv(s) && i < MAX_FDS
    ensures var f := s.fds[p][i];
            var t := if f.pipe in s.pipes then CloseSlot(s, f.pipe, f.kind == PipeWrite) else s;
            Release(s, p, i) == if f.kind == Terminal then s else t.(fds := SetFd(s.fds, p, i, Closed))
  {
    hide Inv, CloseSlot;
    EntryFacts(s, p, i);
  }
}
