/** What the events do to the descriptor tables, entry by entry, and when a pipe ends. */
module IpcTables {
  import opened Semaphore
  import opened PipeSpec
  import opened IpcSystem
  import opened IpcSteps
  import opened IpcRuns
  import opened IpcClosing

  predicate Named(s: Sys, id: nat, slot: Slot) {
    slot in s.pipes && slot in s.ids && s.ids[slot] == id
  }

  /** The tables of everybody but `p` are as they were. */
  predicate OthersKept(s: Sys, t: Sys, p: Pid) {
    t.fds - {p} == s.fds - {p} && t.tasks - {p} == s.tasks - {p}
  }

  lemma FindsNamed(s: Sys, id: nat)
    requires Inv(s)
    ensures var slot := FindId(s.ids, id, 0);
            && (slot != NONE ==> Named(s, id, slot))
            && (forall a :: Named(s, id, a) ==> a == slot != NONE && id != 0)
  {
    hide TableOk, TaskOk, CountsOk, SleepersOk, FindId;
    forall a | Named(s, id, a) ensures a == FindId(s.ids, id, 0) != NONE && id != 0 {
      FindIdFinds(s.ids, a, 0);
    }
  }

  // ---------------------------------------------------------------- creation of a process

  /** The entry of a standard descriptor for which a pipe is given. */
  ghost predicate Standard(s: Sys, f: Fd, kind: Kind, id: nat) {
    if exists a :: Named(s, id, a) then f.kind == kind && Named(s, id, f.pipe) else f == Closed
  }

  /** The entry inherited from `f`. */
  function Inherited(f: Fd): Fd {
    if f.kind != Terminal && f.pipe != NONE then f else Closed
  }

  predicate Given(stdinId: nat, stdoutId: nat, i: int) {
    (i == 0 && stdinId != 0) || (i == 1 && stdoutId != 0)
  }

  /** The inheritance loop from descriptor `i` on. */
  lemma {:induction false} InheritTable(s: Sys, child: Pid, parent: Pid, a: nat, b: nat, i: nat)
    requires Inv(s) && Inheriting(s, child, a, b, i) && HasTable(s, parent) && child != parent && i <= MAX_FDS
    ensures var t := Inherit(s, child, parent, a, b, i);
            && OthersKept(s, t, child) && HasTable(t, child)
            && forall k :: 0 <= k < MAX_FDS ==>
                 t.fds[child][k] == if k < i || Given(a, b, k) then s.fds[child][k] else Inherited(s.fds[parent][k])
    decreases MAX_FDS - i
  {
    hide Inv, InheritOne;
    if i < MAX_FDS {
      InheritOneKeeps(s, child, parent, a, b, i);
      InheritEntryIs(s, child, parent, a, b, i);
      var r := InheritOne(s, child, parent, a, b, i);
      InheritTable(r, child, parent, a, b, i + 1);
      KeptTable(s, r, child, parent);
    }
  }

  lemma KeptTable(s: Sys, t: Sys, child: Pid, x: Pid)
    requires OthersKept(s, t, child) && x != child && x in s.fds
    ensures x in t.fds && t.fds[x] == s.fds[x]
  {
    assert x in (s.fds - {child}) && (s.fds - {child})[x] == s.fds[x];
    assert x in (t.fds - {child}) && (t.fds - {child})[x] == t.fds[x];
  }

  lemma InheritEntryIs(s: Sys, child: Pid, parent: Pid, a: nat, b: nat, i: nat)
    requires Inv(s) && Inheriting(s, child, a, b, i) && HasTable(s, parent) && child != parent && i < MAX_FDS
    ensures var t := InheritOne(s, child, parent, a, b, i);
            && OthersKept(s, t, child) && HasTable(t, child)
            && t.fds[child] == if Given(a, b, i) then s.fds[child] else s.fds[child][i := Inherited(s.fds[parent][i])]
  {
    hide CountsOk, SleepersOk;
    assert TableOk(s.pipes.Keys, s.fds[parent]);
    NoneIsFree(s);
  }

  lemma OpenForIs(s: Sys, p: Pid, i: nat, kind: Kind, id: nat)
    requires Inv(s) && HasTable(s, p) && i < MAX_FDS && s.fds[p][i] == Closed && kind != Terminal
    ensures var t := OpenFor(s, p, i, kind, id);
            && OthersKept(s, t, p) && HasTable(t, p) && t.ids == s.ids && t.pipes.Keys == s.pipes.Keys
            && t.fds[p] == s.fds[p][i := t.fds[p][i]] && Standard(s, t.fds[p][i], kind, id)
  {
    hide CountsOk, SleepersOk, FindId;
    FindsNamed(s, id);
    var t := OpenFor(s, p, i, kind, id);
    assert s.fds[p][i := s.fds[p][i]] == s.fds[p];
  }

  lemma StandardSame(s: Sys, t: Sys, f: Fd, kind: Kind, id: nat)
    requires t.ids == s.ids && t.pipes.Keys == s.pipes.Keys && Standard(t, f, kind, id)
    ensures Standard(s, f, kind, id)
  {
    assert forall a :: Named(t, id, a) <==> Named(s, id, a);
  }

  /** process_create: a pipe given for a standard descriptor is opened on it if there is one; all other
      entries are those of the parent that name a pipe. Nobody else's table changes. */
  lemma StartTables(s: Sys, child: Pid, parent: Pid, a: nat, b: nat)
    requires Inv(s) && Allowed(s, Start(child, parent, a, b))
    ensures var t := Apply(s, Start(child, parent, a, b));
            && Inv(t) && OthersKept(s, t, child) && HasTable(t, child) && child in t.tasks && t.tasks[child] == Idle
            && |t.fds[child]| == 16
            && (a != 0 ==> Standard(s, t.fds[child][0], PipeRead, a))
            && (b != 0 ==> Standard(s, t.fds[child][1], PipeWrite, b))
            && forall i :: 0 <= i < MAX_FDS && !Given(a, b, i) ==>
                 t.fds[child][i] == if parent == NONE then Closed else Inherited(s.fds[parent][i])
  {
    hide Inv, Inherit, OpenFor;
    InvKept(s, Start(child, parent, a, b));
    var t0 := s.(fds := s.fds[child := seq(MAX_FDS, _ => Closed)], tasks := s.tasks[child := Idle]);
    NewProcessKeeps(s, child);
    OpenForKeeps(t0, child, STDIN, PipeRead, a);
    OpenForIs(t0, child, STDIN, PipeRead, a);
    var t1 := OpenFor(t0, child, STDIN, PipeRead, a);
    OpenForKeeps(t1, child, STDOUT, PipeWrite, b);
    OpenForIs(t1, child, STDOUT, PipeWrite, b);
    var t2 := OpenFor(t1, child, STDOUT, PipeWrite, b);
    StandardSame(s, t0, t1.fds[child][0], PipeRead, a);
    StandardSame(s, t1, t2.fds[child][1], PipeWrite, b);
    if a == 0 { NothingNamed(s, t0, t1.fds[child][0], PipeRead); }
    if b == 0 { NothingNamed(s, t1, t2.fds[child][1], PipeWrite); }
    SpawnOpens(s, child, parent, a, b);
    if parent != NONE {
      InheritTable(t2, child, parent, a, b, 0);
      KeptTable(s, t0, child, parent);
      KeptTable(t0, t1, child, parent);
      KeptTable(t1, t2, child, parent);
    }
  }

  /** Id 0 names no pipe. */
  lemma NothingNamed(s: Sys, t: Sys, f: Fd, kind: Kind)
    requires Inv(s) && t.ids == s.ids && Standard(t, f, kind, 0)
    ensures f == Closed
  {
    hide TableOk, TaskOk, CountsOk, SleepersOk;
    assert forall a :: !Named(t, 0, a);
  }

  // ---------------------------------------------------------------- closing, duplicating, reading and writing

  /** syscall_pipe_release_fd, process_close_fds and process_destroy */
  lemma CloseTables(s: Sys, e: Event)
    requires Inv(s) && Allowed(s, e) && (e.ReleaseFd? || e.CloseFds? || e.End?)
    ensures var t := Apply(s, e);
            && OthersKept(s, t, e.pid)
            && (e.End? ==> e.pid !in t.fds && e.pid !in t.tasks)
            && (!e.End? ==> HasTable(t, e.pid) && t.tasks == s.tasks)
            && (e.CloseFds? ==> forall k :: 0 <= k < MAX_FDS ==> t.fds[e.pid][k] == Closed)
            && (e.ReleaseFd? ==> forall k :: 0 <= k < MAX_FDS ==>
                  t.fds[e.pid][k] == if k == e.fd then Closed else s.fds[e.pid][k])
  {
    hide Inv, CloseAll, Release;
    match e
    case ReleaseFd(p, fd) => if fd < MAX_FDS { ReleaseKeeps(s, p, fd); }
    case CloseFds(p) => CloseAllKeeps(s, p, 0);
    case End(p) => CloseAllKeeps(s, p, 0);
  }

  /** syscall_pipe_dup: the entry names the pipe that `id` names, unless closing what it named before has
      ended that very pipe. */
  lemma DupTable(s: Sys, p: Pid, id: nat, fd: nat, mode: nat)
    requires Inv(s) && Allowed(s, DupFd(p, id, fd, mode))
    ensures var t := Apply(s, DupFd(p, id, fd, mode));
            && OthersKept(s, t, p) && HasTable(t, p) && t.tasks == s.tasks
            && (forall k :: 0 <= k < MAX_FDS && k != fd ==> t.fds[p][k] == s.fds[p][k])
            && (fd >= MAX_FDS || !(exists a :: Named(s, id, a)) ==> t == s)
            && (fd < MAX_FDS ==> forall a :: Named(s, id, a) ==>
                  t.fds[p][fd] == if mode == 0 then Fd(PipeRead, if a in t.pipes then a else NONE)
                                  else if mode == 1 then Fd(PipeWrite, if a in t.pipes then a else NONE)
                                  else Fd(s.fds[p][fd].kind, NONE))
  {
    hide Inv, FindId, Vacate, AddEnd;
    FindsNamed(s, id);
    var slot := FindId(s.ids, id, 0);
    if fd < MAX_FDS && slot != NONE {
      var v := Vacate(s, p, fd);
      VacateTable(s, p, fd);
      VacateNames(s, p, fd, id, slot);
      VacateKinds(s, p, fd);
      var kind, found := if mode == 0 then PipeRead else PipeWrite, FindId(v.ids, id, 0);
      if found != NONE { VacateNames(s, p, fd, id, found); }
      AddEndTables(v, p, fd, Fd(kind, found));
    }
  }

  lemma VacateKinds(s: Sys, p: Pid, i: nat)
    requires Inv(s) && HasTable(s, p) && i < MAX_FDS
    ensures s.fds[p][i].kind == Terminal ==> s.fds[p][i].pipe == NONE
    ensures HasTable(Vacate(s, p, i), p) && Vacate(s, p, i).fds[p][i] == Fd(s.fds[p][i].kind, NONE)
  {
    hide CountsOk, SleepersOk, TaskOk;
    assert TableOk(s.pipes.Keys, s.fds[p]);
  }

  /** Reads and writes change no table, and no other process. */
  lemma CallTables(s: Sys, e: Event)
    requires Inv(s) && Allowed(s, e) && (e.ReadFd? || e.WriteFd? || e.Resume?)
    ensures var t := Apply(s, e);
            t.fds == s.fds && t.ids == s.ids && t.pipes.Keys == s.pipes.Keys && t.tasks - {e.pid} == s.tasks - {e.pid}
  {
    hide CountsOk, SleepersOk;
  }

  // ---------------------------------------------------------------- the life of a pipe

  /** pipe_create: an empty pipe without ends, with a new id, if one of the 64 slots is unused and three
      semaphores are left. */
  lemma CreateExact(s: Sys, n: nat)
    requires Inv(s)
    ensures var t := Apply(s, Create(n));
            && t.fds == s.fds && t.tasks == s.tasks
            && ((n < 3 || forall a :: 0 <= a < 64 ==> a in s.pipes) ==> t == s)
            && (!(n < 3 || forall a :: 0 <= a < 64 ==> a in s.pipes) ==>
                  exists a :: NewSlot(s, t, a))
  {
    hide Inv;
    var slot := FreeSlot(s.pipes.Keys, 0);
    if n >= 3 && slot < MAX_PIPES {
      IdsBelow(s);
      assert NewSlot(s, Apply(s, Create(n)), slot);
    }
  }

  lemma IdsBelow(s: Sys)
    requires Inv(s)
    ensures s.ids.Keys == s.pipes.Keys && forall a :: a in s.ids ==> s.ids[a] != s.nextId
  {
  }

  ghost predicate NewSlot(s: Sys, t: Sys, a: Slot) {
    && 0 <= a < 64 && a !in s.pipes && (forall b :: 0 <= b < a ==> b in s.pipes)
    && t.pipes == s.pipes[a := Pipe([], 0, 0, Sem(0, []), Sem(4096, []), [], [])]
    && a in t.ids && t.ids == s.ids[a := t.ids[a]] && (forall b :: b in s.ids ==> s.ids[b] != t.ids[a])
  }

  /** All descriptors that name the pipe in slot `a`. */
  function AllEnds(fds: Tables, a: Slot): set<(Pid, int)> {
    Ends(fds, Fd(PipeRead, a)) + Ends(fds, Fd(PipeWrite, a))
  }

  /** Whether a pipe with descriptors `ends` outlives the closing of `closed`. */
  predicate Outlives(ends: set<(Pid, int)>, closed: set<(Pid, int)>) {
    ends - closed != {} || ends * closed == {}
  }

  lemma AllEndsSet(fds: Tables, p: Pid, i: nat, f: Fd, a: Slot)
    requires p in fds && i < |fds[p]| && f.pipe == NONE && a != NONE
    ensures AllEnds(SetFd(fds, p, i, f), a) == AllEnds(fds, a) - {(p, i as int)}
  {
    hide Ends;
    EndsSet(fds, p, i, f, Fd(PipeRead, a));
    EndsSet(fds, p, i, f, Fd(PipeWrite, a));
  }

  lemma EndsOf(fds: Tables, p: Pid, i: int, a: Slot)
    requires p in fds && 0 <= i < |fds[p]|
    ensures (p, i) in AllEnds(fds, a) <==> fds[p][i].kind != Terminal && fds[p][i].pipe == a
  {
    hide Ends;
    EndsMember(fds, Fd(PipeRead, a), (p, i));
    EndsMember(fds, Fd(PipeWrite, a), (p, i));
  }

  /** Closing one end ends its pipe exactly when it was the last. */
  lemma DropEnds(s: Sys, p: Pid, i: nat, f: Fd, a: Slot)
    requires Droppable(s, p, i, f) && s.fds[p][i].kind != Terminal && a in s.pipes
    ensures a in DropFd(s, p, i, f).pipes <==> Outlives(AllEnds(s.fds, a), {(p, i as int)})
    ensures AllEnds(DropFd(s, p, i, f).fds, a) == AllEnds(s.fds, a) - {(p, i as int)}
  {
    hide Ends, Inv, AllEnds;
    NoneIsFree(s);
    AllEndsSet(s.fds, p, i, f, a);
    EndsOf(s.fds, p, i, a);
    if a == s.fds[p][i].pipe {
      DropCounts(s, p, i, f, a);
      NoEndsLeft(SetFd(s.fds, p, i, f), a, DropEnd(s.pipes[a], s.fds[p][i].kind == PipeWrite));
    }
  }

  lemma NoEndsLeft(fds: Tables, a: Slot, p: Pipe)
    requires CountsOk(fds, a, p)
    ensures p.readers == 0 && p.writers == 0 <==> AllEnds(fds, a) == {}
  {
    hide Ends;
  }

  lemma ReleaseEnds(s: Sys, p: Pid, i: nat, a: Slot)
    requires Inv(s) && HasTable(s, p) && i < MAX_FDS && s.tasks[p] == Idle && a in s.pipes
    ensures a in Release(s, p, i).pipes <==> Outlives(AllEnds(s.fds, a), {(p, i as int)})
    ensures AllEnds(Release(s, p, i).fds, a) == AllEnds(s.fds, a) - {(p, i as int)}
  {
    hide Inv, Ends, AllEnds, DropFd;
    NoneIsFree(s);
    if s.fds[p][i].kind != Terminal && s.fds[p][i].pipe in s.pipes {
      DropEnds(s, p, i, Closed, a);
    } else {
      AllEndsSet(s.fds, p, i, Closed, a);
      EndsOf(s.fds, p, i, a);
    }
  }

  function From(p: Pid, i: nat): set<(Pid, int)> {
    set k | i <= k < MAX_FDS :: (p, k)
  }

  lemma {:induction false} CloseAllEnds(s: Sys, p: Pid, i: nat, a: Slot)
    requires Inv(s) && HasTable(s, p) && i <= MAX_FDS && s.tasks[p] == Idle && a in s.pipes
    ensures a in CloseAll(s, p, i).pipes <==> Outlives(AllEnds(s.fds, a), From(p, i))
    decreases MAX_FDS - i
  {
    hide Inv, Release, AllEnds;
    if i == MAX_FDS {
      assert From(p, i) == {};
    } else {
      var r := Release(s, p, i);
      ReleaseKeeps(s, p, i);
      ReleaseEnds(s, p, i, a);
      assert From(p, i) == {(p, i as int)} + From(p, i + 1);
      if a in r.pipes {
        CloseAllEnds(r, p, i + 1, a);
      } else {
        CloseAllCloses(r, p, i + 1);
      }
    }
  }

  /** A pipe ends with the last descriptor that names it, at the moment that one is closed, and never
      otherwise. */
  lemma LifeExact(s: Sys, e: Event, a: Slot)
    requires Inv(s) && Allowed(s, e) && a in s.pipes
    ensures a in Apply(s, e).pipes <==> Outlives(AllEnds(s.fds, a), ClosedBy(s, e))
  {
    hide Inv, AllEnds, Dup, Spawn, CloseAll, Release, ReadStep, WriteStep;
    match e
    case Create(n) =>
    case Start(child, parent, x, y) => SpawnPipes(s, child, parent, x, y);
    case CloseFds(p) =>
      CloseAllEnds(s, p, 0, a);
      assert From(p, 0) == WholeTable(p);
    case End(p) =>
      CloseAllEnds(s, p, 0, a);
      assert From(p, 0) == WholeTable(p);
    case ReleaseFd(p, fd) => if fd < MAX_FDS { ReleaseEnds(s, p, fd, a); }
    case DupFd(p, id, fd, mode) => DupEndsPipe(s, p, id, fd, mode, a);
    case ReadFd(p, fd, want) => CallTables(s, e);
    case WriteFd(p, fd, bytes) => CallTables(s, e);
    case Resume(p) => CallTables(s, e);
  }

  lemma DupEndsPipe(s: Sys, p: Pid, id: nat, fd: nat, mode: nat, a: Slot)
    requires Inv(s) && HasTable(s, p) && s.tasks[p] == Idle && a in s.pipes
    ensures a in Dup(s, p, id, fd, mode).pipes <==> Outlives(AllEnds(s.fds, a), ClosedBy(s, DupFd(p, id, fd, mode)))
  {
    hide Inv, FindId, DropFd, AllEnds;
    NoneIsFree(s);
    if fd < MAX_FDS && FindId(s.ids, id, 0) != NONE {
      var f := s.fds[p][fd];
      VacateTable(s, p, fd);
      if f.kind != Terminal && f.pipe in s.pipes {
        DropEnds(s, p, fd, Fd(f.kind, NONE), a);
      } else {
        EndsOf(s.fds, p, fd, a);
      }
    }
  }

  lemma {:induction false} InheritPipes(s: Sys, child: Pid, parent: Pid, x: nat, y: nat, i: nat)
    requires HasTable(s, child) && HasTable(s, parent) && i <= MAX_FDS
    ensures Inherit(s, child, parent, x, y, i).pipes.Keys == s.pipes.Keys
    decreases MAX_FDS - i
  {
    if i < MAX_FDS { InheritPipes(InheritOne(s, child, parent, x, y, i), child, parent, x, y, i + 1); }
  }

  lemma SpawnPipes(s: Sys, child: Pid, parent: Pid, x: nat, y: nat)
    requires child !in s.fds && (parent != NONE ==> HasTable(s, parent))
    ensures Spawn(s, child, parent, x, y).pipes.Keys == s.pipes.Keys
  {
    hide FindId, Inherit;
    var t0 := s.(fds := s.fds[child := seq(MAX_FDS, _ => Closed)], tasks := s.tasks[child := Idle]);
    var t1 := OpenFor(t0, child, STDIN, PipeRead, x);
    var t2 := OpenFor(t1, child, STDOUT, PipeWrite, y);
    if parent != NONE { InheritPipes(t2, child, parent, x, y, 0); }
  }
}
