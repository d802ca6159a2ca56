/** What the events that close descriptors do to pipes and sleepers, and which ends they leave. */
module IpcClosing {
  import opened Sequences
  import opened Semaphore
  import opened PipeSpec
  import opened IpcSystem
  import opened IpcSteps
  import opened IpcRuns

  type Pipes = map<Slot, Pipe>

  // ---------------------------------------------------------------- the pipes

  /** The readers still asleep once `writers` writers are left: the last one to go wakes 100 at most. */
  function StillAsleep(p: Pipe, writers: nat): seq<Pid> {
    if p.writers > 0 && writers == 0 then p.items.queue[Least(MAX_WAKE, |p.items.queue|)..] else p.items.queue
  }

  /** The bytes, their history and the sleeping writers are left alone. */
  predicate SameBytes(p: Pipe, q: Pipe) {
    q.data == p.data && q.sent == p.sent && q.received == p.received && q.spaces == p.spaces
  }

  /** What closing ends does to the pipes that survive it. */
  ghost predicate Closing(m: Pipes, n: Pipes) {
    forall a :: a in n ==>
      && a in m && SameBytes(m[a], n[a])
      && n[a].writers <= m[a].writers && n[a].items.queue == StillAsleep(m[a], n[a].writers)
  }

  /** What opening ends does to them. */
  ghost predicate Opening(m: Pipes, n: Pipes) {
    forall a :: a in n ==>
      && a in m && SameBytes(m[a], n[a]) && n[a].items == m[a].items
      && n[a].writers >= m[a].writers && n[a].readers >= m[a].readers
  }

  /** What any number of both does: bytes and sleeping writers are left alone, and sleeping readers are
      woken by the last writer only. */
  ghost predicate Shifted(m: Pipes, n: Pipes) {
    forall a :: a in n ==>
      && a in m && SameBytes(m[a], n[a])
      && (n[a].writers == 0 ==> n[a].items.queue == StillAsleep(m[a], 0))
  }

  lemma ClosingSelf(m: Pipes)
    ensures Closing(m, m)
  {
  }

  lemma ClosingTwice(a: Pipes, b: Pipes, c: Pipes)
    requires Closing(a, b) && Closing(b, c)
    ensures Closing(a, c)
  {
  }

  lemma OpeningSelf(m: Pipes)
    ensures Opening(m, m)
  {
  }

  lemma OpeningTwice(a: Pipes, b: Pipes, c: Pipes)
    requires Opening(a, b) && Opening(b, c)
    ensures Opening(a, c)
  {
  }

  lemma CloseThenOpen(a: Pipes, b: Pipes, c: Pipes)
    requires Closing(a, b) && Opening(b, c)
    ensures Shifted(a, c)
  {
  }

  /** Sleepers that each hold an end number at most the ends. */
  lemma {:induction false} HeldEnds(q: seq<Pid>, ends: set<(Pid, int)>)
    requires Distinct(q) && forall x :: x in q ==> exists i :: (x, i) in ends
    ensures |q| <= |ends|
  {
    if q != [] {
      var x := q[0];
      assert x in q;
      var i :| (x, i) in ends;
      var rest := ends - {(x, i)};
      forall y | y in q[1..] ensures exists j :: (y, j) in rest {
        assert y in q && y != x;
        var j :| (y, j) in ends;
        assert (y, j) in rest;
      }
      HeldEnds(q[1..], rest);
    }
  }

  lemma SleepersHold(s: Sys, slot: Slot)
    requires Inv(s) && slot in s.pipes
    ensures |s.pipes[slot].items.queue| <= s.pipes[slot].readers
  {
    hide Ends, Fifo;
    var q := s.pipes[slot].items.queue;
    var ends := Ends(s.fds, Fd(PipeRead, slot));
    assert SleepersOk(s.tasks, slot, s.pipes[slot]) && CountsOk(s.fds, slot, s.pipes[slot]);
    forall x | x in q ensures exists i :: (x, i) in ends {
      assert TaskOk(s.fds, s.pipes.Keys, x, s.tasks[x]);
      var i :| 0 <= i < |s.fds[x]| && s.fds[x][i] == Fd(PipeRead, slot);
      EndsMember(s.fds, Fd(PipeRead, slot), (x, i));
    }
    HeldEnds(q, ends);
  }

  lemma PipeFifo(s: Sys, slot: Slot)
    requires Inv(s) && slot in s.pipes
    ensures Fifo(s.pipes[slot])
  {
    assert SleepersOk(s.tasks, slot, s.pipes[slot]);
  }

  lemma DropFdCloses(s: Sys, p: Pid, i: nat, f: Fd)
    requires Droppable(s, p, i, f)
    ensures Closing(s.pipes, DropFd(s, p, i, f).pipes)
  {
    hide Inv, SignalMany, Fifo, Close;
    var slot := s.fds[p][i].pipe;
    SleepersHold(s, slot);
    assert Fifo(s.pipes[slot]) by { PipeFifo(s, slot); }
    CloseCorrect(s.pipes[slot], s.fds[p][i].kind == PipeWrite);
  }

  lemma ReleaseCloses(s: Sys, p: Pid, i: nat)
    requires Inv(s) && HasTable(s, p) && i < MAX_FDS && s.tasks[p] == Idle
    ensures Closing(s.pipes, Release(s, p, i).pipes)
  {
    hide Inv, DropFd;
    if s.fds[p][i].kind != Terminal && s.fds[p][i].pipe in s.pipes { DropFdCloses(s, p, i, Closed); }
  }

  lemma {:induction false} CloseAllCloses(s: Sys, p: Pid, i: nat)
    requires Inv(s) && HasTable(s, p) && i <= MAX_FDS && s.tasks[p] == Idle
    ensures Closing(s.pipes, CloseAll(s, p, i).pipes)
    decreases MAX_FDS - i
  {
    hide Inv, Release, Closing;
    ClosingSelf(s.pipes);
    if i < MAX_FDS {
      var t := Release(s, p, i);
      ReleaseKeeps(s, p, i);
      ReleaseCloses(s, p, i);
      CloseAllCloses(t, p, i + 1);
      ClosingTwice(s.pipes, t.pipes, CloseAll(t, p, i + 1).pipes);
    }
  }

  lemma VacateCloses(s: Sys, p: Pid, i: nat)
    requires Inv(s) && HasTable(s, p) && i < MAX_FDS && s.tasks[p] == Idle
    ensures Closing(s.pipes, Vacate(s, p, i).pipes)
  {
    hide Inv, DropFd, Closing;
    ClosingSelf(s.pipes);
    var f := s.fds[p][i];
    if f.kind != Terminal && f.pipe in s.pipes { DropFdCloses(s, p, i, Fd(f.kind, NONE)); }
  }

  lemma AddEndOpens(s: Sys, p: Pid, i: nat, f: Fd)
    requires p in s.fds && i < |s.fds[p]| && f.pipe in s.pipes
    ensures Opening(s.pipes, AddEnd(s, p, i, f).pipes)
  {
  }

  lemma DupShifts(s: Sys, p: Pid, id: nat, i: nat, mode: nat)
    requires Inv(s) && HasTable(s, p) && s.tasks[p] == Idle
    ensures Shifted(s.pipes, Dup(s, p, id, i, mode).pipes)
  {
    hide Inv, FindId, Vacate, Closing, Opening, Shifted;
    var t := Dup(s, p, id, i, mode);
    ClosingSelf(s.pipes);
    OpeningSelf(s.pipes);
    if i >= MAX_FDS || FindId(s.ids, id, 0) == NONE {
      CloseThenOpen(s.pipes, s.pipes, s.pipes);
    } else {
      var v := Vacate(s, p, i);
      VacateCloses(s, p, i);
      VacateTable(s, p, i);
      OpeningSelf(v.pipes);
      var slot, kind := FindId(v.ids, id, 0), if mode == 0 then PipeRead else PipeWrite;
      if mode <= 1 && slot != NONE && slot in v.pipes { AddEndOpens(v, p, i, Fd(kind, slot)); }
      CloseThenOpen(s.pipes, v.pipes, t.pipes);
    }
  }

  /** What vacating a descriptor leaves of the tables. */
  lemma VacateTable(s: Sys, p: Pid, i: nat)
    requires HasTable(s, p) && i < MAX_FDS
    ensures var v := Vacate(s, p, i);
            && HasTable(v, p) && v.tasks == s.tasks
            && v.fds == if s.fds[p][i].kind == Terminal then s.fds else SetFd(s.fds, p, i, Fd(s.fds[p][i].kind, NONE))
  {
  }

  // ---------------------------------------------------------------- opening on creation

  lemma InheritOneOpens(s: Sys, child: Pid, parent: Pid, stdinId: nat, stdoutId: nat, i: nat)
    requires HasTable(s, child) && HasTable(s, parent) && i < MAX_FDS
    ensures var t := InheritOne(s, child, parent, stdinId, stdoutId, i);
            Opening(s.pipes, t.pipes) && t.tasks == s.tasks && HasTable(t, child) && HasTable(t, parent)
  {
    hide Opening;
    OpeningSelf(s.pipes);
    var f := s.fds[parent][i];
    if f.kind != Terminal && f.pipe in s.pipes { AddEndOpens(s, child, i, f); }
  }

  lemma {:induction false} InheritOpens(s: Sys, child: Pid, parent: Pid, stdinId: nat, stdoutId: nat, i: nat)
    requires HasTable(s, child) && HasTable(s, parent) && i <= MAX_FDS
    ensures var t := Inherit(s, child, parent, stdinId, stdoutId, i);
            Opening(s.pipes, t.pipes) && t.tasks == s.tasks
    decreases MAX_FDS - i
  {
    hide Opening, InheritOne;
    OpeningSelf(s.pipes);
    if i < MAX_FDS {
      var t := InheritOne(s, child, parent, stdinId, stdoutId, i);
      InheritOneOpens(s, child, parent, stdinId, stdoutId, i);
      InheritOpens(t, child, parent, stdinId, stdoutId, i + 1);
      OpeningTwice(s.pipes, t.pipes, Inherit(t, child, parent, stdinId, stdoutId, i + 1).pipes);
    }
  }

  lemma OpenForOpens(s: Sys, p: Pid, i: nat, kind: Kind, id: nat)
    requires HasTable(s, p) && i < MAX_FDS
    ensures var t := OpenFor(s, p, i, kind, id);
            && Opening(s.pipes, t.pipes) && t.tasks == s.tasks && HasTable(t, p)
            && t.fds == s.fds[p := t.fds[p]]
  {
    hide Opening, FindId;
    OpeningSelf(s.pipes);
    var slot := FindId(s.ids, id, 0);
    if slot in s.pipes { AddEndOpens(s, p, i, Fd(kind, slot)); }
    assert s.fds[p := s.fds[p]] == s.fds;
  }

  lemma SpawnOpens(s: Sys, child: Pid, parent: Pid, stdinId: nat, stdoutId: nat)
    requires child !in s.fds && (parent != NONE ==> HasTable(s, parent))
    ensures var t := Spawn(s, child, parent, stdinId, stdoutId);
            Opening(s.pipes, t.pipes) && t.tasks == s.tasks[child := Idle]
  {
    hide Opening, FindId, Inherit, OpenFor;
    var t0 := s.(fds := s.fds[child := seq(MAX_FDS, _ => Closed)], tasks := s.tasks[child := Idle]);
    OpenForOpens(t0, child, STDIN, PipeRead, stdinId);
    var t1 := OpenFor(t0, child, STDIN, PipeRead, stdinId);
    OpenForOpens(t1, child, STDOUT, PipeWrite, stdoutId);
    var t2 := OpenFor(t1, child, STDOUT, PipeWrite, stdoutId);
    OpeningTwice(t0.pipes, t1.pipes, t2.pipes);
    if parent != NONE {
      InheritOpens(t2, child, parent, stdinId, stdoutId, 0);
      OpeningTwice(t0.pipes, t2.pipes, Inherit(t2, child, parent, stdinId, stdoutId, 0).pipes);
    }
  }

  // ---------------------------------------------------------------- the ends that are left

  predicate Closes(e: Event) {
    e.CloseFds? || e.End? || e.DupFd? || e.ReleaseFd?
  }

  function WholeTable(p: Pid): set<(Pid, int)> {
    set i | 0 <= i < MAX_FDS :: (p, i)
  }

  /** The descriptors that an event closes. */
  function ClosedBy(s: Sys, e: Event): set<(Pid, int)> {
    match e
    case CloseFds(p) => WholeTable(p)
    case End(p) => WholeTable(p)
    case ReleaseFd(p, fd) => if fd < MAX_FDS then {(p, fd as int)} else {}
    case DupFd(p, id, fd, _) => if fd < MAX_FDS && FindId(s.ids, id, 0) != NONE then {(p, fd as int)} else {}
    case _ => {}
  }

  /** The event opens the very end `f` after closing. */
  predicate Reopens(s: Sys, e: Event, f: Fd) {
    && e.DupFd? && e.fd < MAX_FDS && e.mode <= 1 && f.pipe != NONE
    && f == Fd(if e.mode == 0 then PipeRead else PipeWrite, FindId(s.ids, e.id, 0))
  }

  /** The event closes every descriptor that names the end `f`, and opens none. */
  ghost predicate DropsAll(s: Sys, e: Event, f: Fd) {
    Ends(s.fds, f) <= ClosedBy(s, e) && !Reopens(s, e, f)
  }

  lemma EndsOfRest(fds: Tables, p: Pid, t: Tables, g: Fd)
    requires p in fds && |fds[p]| == MAX_FDS && g.pipe != NONE
    requires t - {p} == fds - {p} && (p in t ==> forall k :: 0 <= k < |t[p]| ==> t[p][k].pipe == NONE)
    ensures Ends(t, g) == Ends(fds, g) - WholeTable(p)
  {
    hide Ends;
    forall e: (Pid, int) ensures e in Ends(t, g) <==> e in Ends(fds, g) - WholeTable(p) {
      EndsMember(fds, g, e);
      EndsMember(t, g, e);
      var (x, k) := e;
      assert e == (x, k);
      assert x != p ==> (x in t <==> x in t - {p}) && (x in fds <==> x in fds - {p});
      assert x != p && x in t ==> t[x] == (t - {p})[x] && fds[x] == (fds - {p})[x];
    }
    assert Ends(t, g) == Ends(fds, g) - WholeTable(p);
  }

  lemma DupEnds(s: Sys, p: Pid, id: nat, i: nat, mode: nat, g: Fd)
    requires Inv(s) && HasTable(s, p) && s.tasks[p] == Idle && i < MAX_FDS && FindId(s.ids, id, 0) != NONE
    requires g.pipe in Dup(s, p, id, i, mode).pipes && g.kind != Terminal
    ensures var t, slot := Dup(s, p, id, i, mode), FindId(s.ids, id, 0);
            Ends(t.fds, g) == Ends(s.fds, g) - {(p, i as int)}
              + if mode <= 1 && g == Fd(if mode == 0 then PipeRead else PipeWrite, slot) then {(p, i as int)} else {}
  {
    hide Inv, FindId, Vacate, Ends, AddEnd;
    var v := Vacate(s, p, i);
    VacateTable(s, p, i);
    VacateNames(s, p, i, id, g.pipe);
    var was := s.fds[p][i];
    if was.kind == Terminal {
      EndsMember(s.fds, g, (p, i as int));
    } else {
      EndsSet(s.fds, p, i, Fd(was.kind, NONE), g);
    }
    if mode <= 1 {
      var kind, slot := if mode == 0 then PipeRead else PipeWrite, FindId(v.ids, id, 0);
      EndsSet(v.fds, p, i, Fd(kind, NONE), g);
      EndsSet(v.fds, p, i, Fd(kind, slot), g);
      AddEndTables(v, p, i, Fd(kind, slot));
    }
  }

  lemma AddEndTables(s: Sys, p: Pid, i: nat, f: Fd)
    requires p in s.fds && i < |s.fds[p]|
    ensures f.pipe in s.pipes ==>
              && AddEnd(s, p, i, f).fds == SetFd(s.fds, p, i, f) && AddEnd(s, p, i, f).tasks == s.tasks
              && AddEnd(s, p, i, f).pipes.Keys == s.pipes.Keys
  {
  }

  /** An id still names a pipe that outlives the vacating, and names nothing new. */
  lemma VacateNames(s: Sys, p: Pid, i: nat, id: nat, a: Slot)
    requires Inv(s) && HasTable(s, p) && i < MAX_FDS && s.tasks[p] == Idle && FindId(s.ids, id, 0) != NONE
    ensures var v := Vacate(s, p, i);
            && NONE !in v.pipes && v.ids.Keys == v.pipes.Keys
            && (a in v.pipes ==> (FindId(v.ids, id, 0) == a <==> FindId(s.ids, id, 0) == a))
  {
    hide TableOk, TaskOk, CountsOk, SleepersOk, FindId;
    var v := Vacate(s, p, i);
    assert NONE !in s.ids && forall x :: x in v.ids ==> x in s.ids && v.ids[x] == s.ids[x];
    if a in v.pipes {
      FindIdFinds(v.ids, a, 0);
      FindIdFinds(s.ids, a, 0);
    }
  }

  /** After an event that closes descriptors, an end of a surviving pipe has none left exactly when the
      event drops them all. */
  lemma EndsAfter(s: Sys, e: Event, f: Fd)
    requires Inv(s) && Allowed(s, e) && Closes(e) && f.kind != Terminal && f.pipe in Apply(s, e).pipes
    ensures Ends(Apply(s, e).fds, f) == {} <==> DropsAll(s, e, f)
  {
    hide Inv, Ends, FindId, Dup, CloseAll, Release, WholeTable;
    InvKept(s, e);
    NoneIsFree(Apply(s, e));
    NothingLeft(Ends(s.fds, f), ClosedBy(s, e));
    match e
    case CloseFds(p) =>
      CloseAllKeeps(s, p, 0);
      EndsOfRest(s.fds, p, Apply(s, e).fds, f);
    case End(p) =>
      CloseAllKeeps(s, p, 0);
      EndsOfRest(s.fds, p, CloseAll(s, p, 0).fds - {p}, f);
    case ReleaseFd(p, fd) =>
      if fd < MAX_FDS {
        ReleaseKeeps(s, p, fd);
        EndsSet(s.fds, p, fd, Closed, f);
      }
    case DupFd(p, id, fd, mode) =>
      if fd < MAX_FDS && FindId(s.ids, id, 0) != NONE {
        DupEnds(s, p, id, fd, mode, f);
      } else {
        assert Apply(s, e) == s by { DupRefused(s, p, id, fd, mode); }
      }
  }

  lemma NothingLeft(a: set<(Pid, int)>, b: set<(Pid, int)>)
    ensures a - b == {} <==> a <= b
  {
    if a - b == {} {
      forall e | e in a ensures e in b { assert e !in a - b; }
    }
  }

  lemma DupRefused(s: Sys, p: Pid, id: nat, i: nat, mode: nat)
    requires HasTable(s, p) && (i >= MAX_FDS || FindId(s.ids, id, 0) == NONE)
    ensures Dup(s, p, id, i, mode) == s
  {
  }

  /** The events that close descriptors, as the pipes see them. */
  lemma ClosesShift(s: Sys, e: Event)
    requires Inv(s) && Allowed(s, e) && Closes(e)
    ensures Shifted(s.pipes, Apply(s, e).pipes)
  {
    hide Inv, Dup, CloseAll, Release, Closing, Opening, Shifted;
    OpeningSelf(Apply(s, e).pipes);
    ClosingSelf(s.pipes);
    match e
    case CloseFds(p) => CloseAllCloses(s, p, 0); CloseThenOpen(s.pipes, CloseAll(s, p, 0).pipes, Apply(s, e).pipes);
    case End(p) => CloseAllCloses(s, p, 0); CloseThenOpen(s.pipes, CloseAll(s, p, 0).pipes, Apply(s, e).pipes);
    case ReleaseFd(p, fd) =>
      if fd < MAX_FDS { ReleaseCloses(s, p, fd); }
      CloseThenOpen(s.pipes, Apply(s, e).pipes, Apply(s, e).pipes);
    case DupFd(p, id, fd, mode) => DupShifts(s, p, id, fd, mode);
  }

  /** The tables of other processes are left alone. */
  lemma ClosesOwn(s: Sys, e: Event, x: Pid)
    requires Inv(s) && Allowed(s, e) && Closes(e) && x in s.fds && x != e.pid
    ensures x in Apply(s, e).fds && Apply(s, e).fds[x] == s.fds[x]
  {
    hide Inv, FindId, CloseAll, Release, Vacate, AddEnd;
    match e
    case CloseFds(p) => CloseAllKeeps(s, p, 0);
    case End(p) => CloseAllKeeps(s, p, 0);
    case ReleaseFd(p, fd) => if fd < MAX_FDS { ReleaseKeeps(s, p, fd); }
    case DupFd(p, id, fd, mode) =>
      if fd < MAX_FDS {
        VacateTable(s, p, fd);
        var v := Vacate(s, p, fd);
        var slot, kind := FindId(v.ids, id, 0), if mode == 0 then PipeRead else PipeWrite;
        AddEndTables(v, p, fd, Fd(kind, slot));
      }
  }

  /** A pipe on which somebody sleeps outlives every such event. */
  lemma SleptOnSurvives(s: Sys, e: Event, a: Slot)
    requires Inv(s) && Allowed(s, e) && Closes(e) && a in s.pipes
    requires s.pipes[a].items.queue != [] || s.pipes[a].spaces.queue != []
    ensures a in Apply(s, e).pipes
  {
    hide Ends, Fifo, Apply;
    assert SleepersOk(s.tasks, a, s.pipes[a]);
    var q := if s.pipes[a].items.queue != [] then s.pipes[a].items.queue else s.pipes[a].spaces.queue;
    var x := q[0];
    assert x in q;
    assert TaskOk(s.fds, s.pipes.Keys, x, s.tasks[x]);
    var kind := if s.pipes[a].items.queue != [] then PipeRead else PipeWrite;
    assert Holds(s.fds, x, Fd(kind, a));
    var k :| 0 <= k < |s.fds[x]| && s.fds[x][k] == Fd(kind, a);
    ClosesOwn(s, e, x);
    InvKept(s, e);
    assert TableOk(Apply(s, e).pipes.Keys, Apply(s, e).fds[x]);
    NoneIsFree(s);
  }
}
