/** What each kernel entry of Kernel/proc/scheduler.c does to the processes and the queues, said without
    the steps it takes: who runs next, who loses the CPU, who is destroyed, and what a system call changes. */
module SchedulerEffects {
  import opened Sequences
  import opened Links
  import opened SchedulerSpec
  import opened SchedulerSteps
  import opened SchedulerRuns
  import opened SchedulerAging

  // ---------------------------------------------------------------- schedule()

  /** The ready queue `q` with the process that leaves the CPU at its end. */
  function Line(a: State, q: nat): seq<Pid>
    requires |a.queues| == QUEUES && q <= 2 && a.current in a.procs
  {
    var c := a.procs[a.current];
    a.queues[q] + if c.state == Running && a.current != a.idle && c.priority == q then [a.current] else []
  }

  /** The blocked and the finished queue with it at their end, if that is where it goes. */
  function BlockedLine(a: State): seq<Pid>
    requires |a.queues| == QUEUES && a.current in a.procs
  {
    a.queues[BLOCKED_Q] + if a.procs[a.current].state == Blocked then [a.current] else []
  }

  function FinishedLine(a: State): seq<Pid>
    requires |a.queues| == QUEUES && a.current in a.procs
  {
    if a.procs[a.current].state == Finished then Without(a.queues[FINISHED_Q], a.current) + [a.current]
    else a.queues[FINISHED_Q]
  }

  /** A process that is put off the CPU is ready; nobody else changes. */
  function AfterLeaving(a: State, p: Pid): Process
    requires p in a.procs
  {
    if p == a.current != a.idle && a.procs[p].state == Running then a.procs[p].(state := Ready) else a.procs[p]
  }

  /** The head of line `l` gets the CPU, and the lines above are empty; the idle process if `l` is -1. */
  predicate ChosenAt(a: State, t: State, l: int)
    requires |a.queues| == |t.queues| == QUEUES && a.current in a.procs
  {
    && -1 <= l <= 2
    && (forall k :: 0 <= k <= 2 && k > l ==> Line(a, k) == [])
    && (if l < 0 then t.current == a.idle else Line(a, l) != [] && t.current == Line(a, l)[0])
    && (forall k :: 0 <= k <= 2 ==> t.queues[k] == if k == l then Line(a, k)[1..] else Line(a, k))
  }

  /** A process that gets the CPU starts its wait anew and falls back to its base priority. */
  predicate GetsCpu(was: Process, now: Process, idle: bool) {
    && now.state == Running && now.waitTicks == 0 && now.basePriority == was.basePriority
    && now.priority == if !idle && was.priority > was.basePriority then was.basePriority else was.priority
  }

  function Members(q: seq<Pid>): set<Pid> {
    set p | p in q
  }

  function FirstFour(q: seq<Pid>): seq<Pid> {
    if |q| < 4 then q else q[..4]
  }

  /** The outcome of a switch from `a`. */
  ghost predicate Switched(a: State, t: State)
    requires |a.queues| == QUEUES && a.current in a.procs
  {
    && |t.queues| == QUEUES && t.idle == a.idle && t.nextPid == a.nextPid
    && t.ticks == t.lastSwitch == a.ticks && !t.needResched
    && (exists l :: ChosenAt(a, t, l))
    && t.queues[BLOCKED_Q] == BlockedLine(a)
    && FirstFour(FinishedLine(a)) + t.queues[FINISHED_Q] == FinishedLine(a)
    && t.procs.Keys == a.procs.Keys - Members(FirstFour(FinishedLine(a)))
    && t.current in t.procs && GetsCpu(a.procs[t.current], t.procs[t.current], t.current == a.idle)
    && forall p :: p in t.procs && p != t.current ==>
         t.procs[p] == AfterLeaving(a, p)
  }

  lemma {:induction false} ReapExact(s: State, out: set<Pid>, n: nat)
    requires Homed(s, out) && |s.queues| == QUEUES
    ensures var r, q := Reap(s, n), s.queues[FINISHED_Q];
            var k := if |q| < n then |q| else n;
            && |r.queues| == QUEUES && r.queues[FINISHED_Q] == q[k..]
            && r.procs.Keys == s.procs.Keys - Members(q[..k])
            && forall p :: p in r.procs ==> r.procs[p] == s.procs[p]
    decreases n
  {
    hide Homed, Members, Without;
    var q := s.queues[FINISHED_Q];
    var k := if |q| < n then |q| else n;
    if n > 0 && q != [] {
      var p := q[0];
      FinishedHead(s, out);
      var s' := Remove(s, FINISHED_Q, p).(procs := s.procs - {p});
      assert s'.queues[FINISHED_Q] == q[1..] by { WithoutHead(q); }
      ReapExact(s', out, n - 1);
      MembersCons(q, k);
      assert q[1..][k - 1..] == q[k..];
    } else {
      assert q[..k] == [];
      NoMembers();
    }
  }

  lemma WithoutHead(q: seq<Pid>)
    requires q != []
    ensures Without(q, q[0]) == q[1..]
  {
  }

  lemma MembersCons(q: seq<Pid>, k: nat)
    requires 0 < k <= |q|
    ensures Members(q[..k]) == {q[0]} + Members(q[1..][..k - 1])
  {
    assert q[..k] == [q[0]] + q[1..][..k - 1];
  }

  lemma NoMembers()
    ensures Members([]) == {}
  {
  }

  lemma FinishedHead(s: State, out: set<Pid>)
    requires Homed(s, out) && |s.queues| == QUEUES && s.queues[FINISHED_Q] != []
    ensures var p := s.queues[FINISHED_Q][0];
            p in s.procs && Homed(Remove(s, FINISHED_Q, p).(procs := s.procs - {p}), out)
  {
    var p := s.queues[FINISHED_Q][0];
    assert p in s.queues[FINISHED_Q];
    assert ProcessOk(s.procs[p]);
    DestroyKeeps(s, out, p);
  }

  /** Where the process that leaves the CPU goes. */
  lemma SaveExact(a: State)
    requires Schedulable(a)
    ensures var c := SaveContext(a);
            && |a.queues| == |c.queues| == QUEUES && c.procs.Keys == a.procs.Keys
            && c == a.(procs := c.procs, queues := c.queues)
            && (forall k :: 0 <= k <= 2 ==> c.queues[k] == Line(a, k))
            && c.queues[BLOCKED_Q] == BlockedLine(a)
            && c.queues[FINISHED_Q] == FinishedLine(a)
            && forall p :: p in c.procs ==>
                 c.procs[p] == AfterLeaving(a, p)
  {
    assert ProcessOk(a.procs[a.current]);
    if a.current == a.idle {
      assert a.procs[a.idle].state == Running;
    } else if !Doomed(a) {
      assert forall q :: 0 <= q < QUEUES ==> a.current !in a.queues[q];
    }
  }

  /** The outcome of a switch but for the finished processes, which are still there. */
  ghost predicate Settled(a: State, d: State)
    requires |a.queues| == QUEUES && a.current in a.procs
  {
    && |d.queues| == QUEUES && d.idle == a.idle && d.nextPid == a.nextPid
    && d.ticks == d.lastSwitch == a.ticks && d.needResched == a.needResched
    && (exists l :: ChosenAt(a, d, l))
    && d.queues[BLOCKED_Q] == BlockedLine(a)
    && d.queues[FINISHED_Q] == FinishedLine(a)
    && d.procs.Keys == a.procs.Keys
    && d.current in d.procs && GetsCpu(a.procs[d.current], d.procs[d.current], d.current == a.idle)
    && forall p :: p in d.procs && p != d.current ==>
         d.procs[p] == AfterLeaving(a, p)
  }

  lemma DispatchExact(a: State)
    requires Schedulable(a)
    ensures |a.queues| == QUEUES && Homed(SaveContext(a), {a.idle}) && Known(SaveContext(a))
    ensures SaveContext(a).idle == a.idle && a.idle in SaveContext(a).procs
    ensures Settled(a, Dispatch(SaveContext(a)))
  {
    hide Homed, SaveContext, Dispatch, Line, FinishedLine;
    SaveKeeps(a);
    SaveExact(a);
    var c := SaveContext(a);
    HomedKnown(c, {c.idle});
    IdleKnown(c);
    DispatchKeeps(c);
    HeadTaken(c);
    assert ChosenAt(a, Dispatch(c), Highest(c.queues, TOP));
  }

  lemma SwitchExact(a: State)
    requires Schedulable(a)
    ensures |a.queues| == QUEUES && Homed(SaveContext(a), {a.idle}) && Known(SaveContext(a))
    ensures SaveContext(a).idle == a.idle && a.idle in SaveContext(a).procs
    ensures |Dispatch(SaveContext(a)).queues| == QUEUES
    ensures !a.needResched ==> Switched(a, Reap(Dispatch(SaveContext(a)), 4))
  {
    hide Homed, SaveContext, Dispatch, Reap, Switched;
    DispatchExact(a);
    SaveKeeps(a);
    DispatchKeeps(SaveContext(a));
    if !a.needResched { ReapSettled(a, Dispatch(SaveContext(a))); }
  }

  lemma ReapSettled(a: State, d: State)
    requires |a.queues| == QUEUES && a.current in a.procs && Settled(a, d) && Homed(d, Out(d)) && !d.needResched
    requires d.current in d.procs && d.procs[d.current].state == Running
    ensures Switched(a, Reap(d, 4))
  {
    hide Homed, Reap, Line, FinishedLine, Members, GetsCpu;
    var r, q := Reap(d, 4), d.queues[FINISHED_Q];
    ReapExact(d, Out(d), 4);
    ReapKeeps(d, Out(d), 4);
    var l :| ChosenAt(a, d, l);
    assert ChosenAt(a, r, l);
    assert FirstFour(q) == q[..if |q| < 4 then |q| else 4];
    assert d.current in r.procs;
  }

  lemma IdleKnown(s: State)
    requires Homed(s, {s.idle})
    ensures s.idle in s.procs
  {
  }

  /** The head of the highest queue leaves it. */
  lemma HeadTaken(c: State)
    requires Homed(c, {c.idle}) && Known(c) && c.idle in c.procs
    ensures var d, l := Dispatch(c), Highest(c.queues, TOP);
            && |d.queues| == QUEUES
            && (l < 0 ==> d.current == c.idle && d.queues == c.queues)
            && (l >= 0 ==> d.current == c.queues[l][0] && d.current != c.idle)
            && (l >= 0 ==> d.queues == c.queues[l := c.queues[l][1..]])
            && d.procs[d.current].state == Running
            && GetsCpu(c.procs[d.current], d.procs[d.current], d.current == c.idle)
            && (l >= 0 ==> c.procs[d.current].state == Ready)
  {
    var l := Highest(c.queues, TOP);
    if l >= 0 {
      var next := c.queues[l][0];
      assert next in c.queues[l];
      assert ProcessOk(c.procs[next]);
      assert Without(c.queues[l], next) == c.queues[l][1..];
    }
  }

  /** The running process keeps the CPU over a tick. */
  ghost predicate KeepsCpu(s: State)
    requires Inv(s)
  {
    TickedSchedulable(s);
    var a := Age(Ticked(s));
    && s.procs[s.current].state == Running && !s.needResched
    && s.ticks + 1 - s.lastSwitch < 8
    && forall p :: Waits(a, p) && s.current in a.procs ==> a.procs[p].priority <= a.procs[s.current].priority
  }

  lemma PeekIsHighest(a: State)
    requires Schedulable(a) && Known(a)
    ensures (Peek(a) != NIL && a.procs[Peek(a)].priority > a.procs[a.current].priority)
            <==> exists p :: Waits(a, p) && a.procs[p].priority > a.procs[a.current].priority
  {
    hide Homed;
    LevelDistinct(a, 0);
    LevelDistinct(a, 1);
    LevelDistinct(a, 2);
    var l := Highest(a.queues, TOP);
    if l >= 0 {
      assert a.queues[l][0] in a.queues[l];
      assert Waits(a, Peek(a)) && a.procs[Peek(a)].priority == l;
    }
    forall p | Waits(a, p) ensures l >= 0 && a.procs[p].priority <= l {
      ReadyLevel(a, p);
      assert p in a.queues[a.procs[p].priority];
    }
  }

  /** A tick, whole: either the running process keeps the CPU and nothing but aging happens, or there is a
      switch; and which of the two. */
  lemma TickExact(s: State)
    requires Inv(s)
    ensures Schedulable(Ticked(s)) && |Age(Ticked(s)).queues| == QUEUES && s.current in Age(Ticked(s)).procs
    ensures var a, t := Age(Ticked(s)), Apply(s, Tick);
            && (KeepsCpu(s) ==> t == a)
            && (!KeepsCpu(s) ==> Switched(a, t))
            && (KeepsCpu(s) <==> t.lastSwitch == s.lastSwitch)
  {
    hide Homed, Age, Reap, Dispatch, SaveContext, Peek;
    TickedSchedulable(s);
    var a := Age(Ticked(s));
    AgeSchedulable(Ticked(s));
    HomedKnown(a, Out(a));
    PeekIsHighest(a);
    var b := a.(needResched := false);
    RehomeClock(a, b);
    SwitchExact(b);
    SameButFlag(a, b, Reap(Dispatch(SaveContext(b)), 4));
  }

  lemma SameButFlag(a: State, b: State, t: State)
    requires |a.queues| == QUEUES && a.current in a.procs && b == a.(needResched := b.needResched) && Switched(b, t)
    ensures Switched(a, t)
  {
    var l :| ChosenAt(b, t, l);
    assert forall k :: 0 <= k <= 2 ==> Line(a, k) == Line(b, k);
    assert ChosenAt(a, t, l);
  }

  /** A process other than the idle one that yields always causes a switch. */
  lemma YieldExact(s: State)
    requires Inv(s)
    ensures s.current == s.idle ==> Apply(s, Yield) == s
    ensures Schedulable(Backdated(s))
    ensures var a := Age(Backdated(s));
            && |a.queues| == QUEUES && s.current in a.procs
            && (s.current != s.idle ==> Switched(a, Apply(s, Yield)))
  {
    hide Homed, Age, Reap, Dispatch, SaveContext, Peek;
    TickedSchedulable(s);
    var a := Age(Backdated(s));
    AgeSchedulable(Backdated(s));
    HomedKnown(a, Out(a));
    var b := a.(needResched := false);
    RehomeClock(a, b);
    SwitchExact(b);
    SameButFlag(a, b, Reap(Dispatch(SaveContext(b)), 4));
  }

  // ---------------------------------------------------------------- the base priority

  /** Priority gained by aging is spent on getting the CPU. */
  predicate Spent(s: State) {
    s.current != s.idle && s.current in s.procs ==> s.procs[s.current].priority <= s.procs[s.current].basePriority
  }

  lemma StepSpends(s: State, e: Event)
    requires Inv(s) && Allowed(s, e) && Spent(s)
    ensures Spent(Apply(s, e))
  {
    hide Homed, Schedule;
    match e
    case Tick =>
      TickExact(s);
      AgeSchedulable(Ticked(s));
    case Yield =>
      YieldExact(s);
    case Spawn(pr) => SpawnExact(s, pr);
    case Unblock(p) => UnblockExact(s, p);
    case Kill(p) => KillExact(s, p);
    case Renice(p, pr) => ReniceExact(s, p, pr);
    case BlockPid(p) => BlockPidExact(s, p);
    case _ => StopExact(s);
  }

  lemma FreshIsNew(s: State)
    requires Inv(s)
    ensures s.nextPid !in s.procs
  {
  }

  /** In every reachable state the running process is at its base priority or below, however far aging had
      raised it. */
  lemma {:induction false} NeverAboveBase(states: seq<State>, events: seq<Event>, k: nat)
    requires Reaches(states, events) && k <= |events|
    ensures Spent(states[k])
  {
    hide Homed;
    if k > 0 {
      var i := k - 1;
      NeverAboveBase(states, events, i);
      Reachable(states, events, i);
      assert Follows(states[i], events[i], states[i + 1]);
      StepSpends(states[i], events[i]);
    }
  }

  // ---------------------------------------------------------------- the other entries

  /** `p` is at the end of queue `q` and in no other; everybody else stays where it was. */
  predicate Placed(s: State, t: State, p: Pid, q: nat) {
    && |s.queues| == |t.queues| == QUEUES && q < QUEUES
    && forall k :: 0 <= k < QUEUES ==>
         t.queues[k] == if k == q then Without(s.queues[k], p) + [p] else Without(s.queues[k], p)
  }

  /** Nothing changes but the processes, the queues, and whether a switch is asked for. */
  predicate SameRest(s: State, t: State) {
    t == s.(procs := t.procs, queues := t.queues, needResched := t.needResched)
  }

  function AtMost2(priority: nat): nat {
    if priority <= 2 then priority else 2
  }

  /** A process is in no queue but that of its state. */
  lemma InOwnQueue(s: State, p: Pid)
    requires Inv(s) && p in s.procs
    ensures |s.queues| == QUEUES && s.procs[p].priority <= 2
    ensures forall q :: 0 <= q < QUEUES && q != QueueOf(s.procs[p]) ==> Without(s.queues[q], p) == s.queues[q]
    ensures p in Out(s) ==> forall q :: 0 <= q < QUEUES ==> Without(s.queues[q], p) == s.queues[q]
    ensures forall q :: 0 <= q < QUEUES ==> Without(Without(s.queues[q], p), p) == Without(s.queues[q], p)
  {
    assert ProcessOk(s.procs[p]);
    forall q | 0 <= q < QUEUES ensures Without(Without(s.queues[q], p), p) == Without(s.queues[q], p) {
      if p in s.queues[q] { WithoutTwice(s.queues[q], p); }
    }
  }

  /** scheduler_set_priority */
  lemma ReniceExact(s: State, p: Pid, pr: nat)
    requires Inv(s)
    ensures var t := Apply(s, Renice(p, pr));
            && (!Found(s, p) || p == s.idle ==> t == s)
            && (Found(s, p) && p != s.idle ==>
                  && SameRest(s, t) && t.procs.Keys == s.procs.Keys
                  && t.procs[p].priority == AtMost2(pr)
                  && (forall x :: x in s.procs && x != p ==> t.procs[x] == s.procs[x])
                  && (s.procs[p].priority == AtMost2(pr) ==> t == s)
                  && (s.procs[p].priority != AtMost2(pr) ==>
                        && t.procs[p] == Process(s.procs[p].state, AtMost2(pr), AtMost2(pr), 0)
                        && (s.procs[p].state == Ready ==> Placed(s, t, p, AtMost2(pr)))
                        && (s.procs[p].state != Ready ==> t.queues == s.queues)
                        && (t.needResched <==> s.needResched || AtMost2(pr) > t.procs[s.current].priority)))
  {
    hide Homed, Placed;
    if Found(s, p) && p != s.idle {
      InOwnQueue(s, p);
      if s.procs[p].priority != AtMost2(pr) { ReniceMoves(s, p, pr); }
    }
  }

  lemma ReniceMoves(s: State, p: Pid, pr: nat)
    requires Inv(s) && Found(s, p) && p != s.idle && s.procs[p].priority != AtMost2(pr) && s.procs[p].priority <= TOP
    ensures var t, c := ReniceStep(s, p, pr), AtMost2(pr);
            && SameRest(s, t) && t.procs == s.procs[p := Process(s.procs[p].state, c, c, 0)]
            && (s.procs[p].state == Ready ==> Placed(s, t, p, c))
            && (s.procs[p].state != Ready ==> t.queues == s.queues)
            && (t.needResched <==> s.needResched || c > t.procs[s.current].priority)
  {
    hide Homed;
    InOwnQueue(s, p);
  }

  /** scheduler_unblock_process */
  lemma UnblockExact(s: State, p: Pid)
    requires Inv(s) && Allowed(s, Unblock(p))
    ensures var t := Apply(s, Unblock(p));
            && (!Found(s, p) ==> t == s)
            && (Found(s, p) ==>
                  && SameRest(s, t) && t.procs == s.procs[p := s.procs[p].(state := Ready)]
                  && Placed(s, t, p, s.procs[p].priority)
                  && (t.needResched <==> s.needResched || s.procs[p].priority > t.procs[s.current].priority))
  {
    hide Homed;
    if Found(s, p) {
      InOwnQueue(s, p);
      WhichQueue(s, p);
    }
  }

  lemma WhichQueue(s: State, p: Pid)
    requires Inv(s) && p in s.procs && p !in Out(s)
    ensures s.procs[p].state in {Ready, Blocked, Finished}
  {
    assert 0 <= QueueOf(s.procs[p]) < QUEUES;
  }

  /** scheduler_kill_by_pid without waiters */
  lemma KillExact(s: State, p: Pid)
    requires Inv(s) && Allowed(s, Kill(p))
    ensures var t := Apply(s, Kill(p));
            && (!Found(s, p) ==> t == s)
            && (Found(s, p) ==>
                  && SameRest(s, t) && t.procs == s.procs[p := s.procs[p].(state := Finished)]
                  && Placed(s, t, p, FINISHED_Q)
                  && (t.needResched <==> s.needResched || p == s.current))
  {
    hide Homed;
    if Found(s, p) {
      InOwnQueue(s, p);
      if p !in Out(s) { WhichQueue(s, p); }
    }
  }

  /** scheduler_block_by_pid */
  lemma BlockPidExact(s: State, p: Pid)
    requires Inv(s)
    ensures var t := Apply(s, BlockPid(p));
            && (Found(s, p) && p != s.idle && (p == s.current || s.procs[p].state == Ready) ==>
                  && SameRest(s, t) && t.procs == s.procs[p := s.procs[p].(state := Blocked)] && t.needResched
                  && (if p == s.current then t.queues == s.queues else Placed(s, t, p, BLOCKED_Q)))
            && (!(Found(s, p) && p != s.idle && (p == s.current || s.procs[p].state == Ready)) ==> t == s)
  {
    hide Homed;
    if Found(s, p) { InOwnQueue(s, p); }
  }

  /** scheduler_block_current and scheduler_finish_current */
  lemma StopExact(s: State)
    requires Inv(s)
    ensures s.current == s.idle ==> Apply(s, BlockCurrent) == s && Apply(s, FinishCurrent) == s
    ensures s.current != s.idle ==>
              && Apply(s, BlockCurrent)
                 == s.(procs := s.procs[s.current := s.procs[s.current].(state := Blocked)], needResched := true)
              && Apply(s, FinishCurrent)
                 == s.(procs := s.procs[s.current := s.procs[s.current].(state := Finished)], needResched := true)
  {
  }

  /** scheduler_spawn_process */
  lemma SpawnExact(s: State, pr: nat)
    requires Inv(s)
    ensures var t, p := Apply(s, Spawn(pr)), s.nextPid;
            && p !in s.procs && t.nextPid > p
            && t == s.(procs := t.procs, queues := t.queues, nextPid := t.nextPid)
            && t.procs == s.procs[p := Process(Ready, AtMost2(pr), AtMost2(pr), 0)]
            && |s.queues| == |t.queues| == QUEUES
            && forall k :: 0 <= k < QUEUES ==> t.queues[k] == s.queues[k] + if k == AtMost2(pr) then [p] else []
  {
    FreshIsNew(s);
    assert forall k :: 0 <= k < QUEUES ==> s.nextPid !in s.queues[k];
  }

  /** The process listing for a smaller buffer is the beginning of the whole one. */
  lemma ListingPrefix(s: State, room: nat, all: nat)
    requires Inv(s) && |s.procs| <= all && room <= all && |s.queues| == QUEUES
    ensures Listing(s, room) == Take(Listing(s, all), room)
  {
    ListingComplete(s, all);
    DistinctFits(Listing(s, all), s.procs.Keys);
  }
}
