/** Bounded waiting. A ready process that nobody touches climbs to the top priority within 400
    calls of schedule(), and from position `k` of the top queue it runs within 8 * (k + 1) more,
    whatever the other processes do. */
module SchedulerFairness {
  import opened Sequences
  import opened Links
  import opened SchedulerSpec
  import opened SchedulerSteps
  import opened SchedulerRuns

  predicate Contender(s: State, p: Pid) {
    p in s.procs && s.procs[p].state == Ready && p !in Out(s)
  }

  predicate Targets(e: Event, p: Pid) {
    match e
    case Unblock(x) => x == p
    case Kill(x) => x == p
    case Renice(x, _) => x == p
    case BlockPid(x) => x == p
    case _ => false
  }

  /** Whether the event calls schedule(): a yield of the idle process does not. */
  predicate Calls(s: State, e: Event) {
    e.Tick? || (e.Yield? && s.current != s.idle)
  }

  // ---------------------------------------------------------------- positions in the top queue

  /** `p` has not lost ground from queue `a` to queue `b`. */
  predicate Ahead(a: seq<Pid>, b: seq<Pid>, p: Pid) {
    p in a && p in b && Index(b, p) <= Index(a, p)
  }

  lemma {:induction false} IndexPrefix(a: seq<Pid>, b: seq<Pid>, p: Pid)
    requires a <= b && p in a
    ensures p in b && Index(b, p) == Index(a, p)
  {
    if a[0] != p { IndexPrefix(a[1..], b[1..], p); }
  }

  lemma {:induction false} IndexWithout(a: seq<Pid>, x: Pid, p: Pid)
    requires p in a && x != p
    ensures Ahead(a, Without(a, x), p)
  {
    if a[0] != x && a[0] != p {
      IndexWithout(a[1..], x, p);
      var r := Without(a[1..], x);
      assert Without(a, x) == [a[0]] + r;
      assert ([a[0]] + r)[1..] == r;
    } else if a[0] == p {
      assert Without(a, x)[0] == p;
    }
  }

  lemma RemoveAhead(s: State, q: nat, x: Pid, p: Pid)
    requires |s.queues| == QUEUES && q < QUEUES && x != p && p in s.queues[TOP]
    ensures Ahead(s.queues[TOP], Remove(s, q, x).queues[TOP], p)
  {
    IndexWithout(s.queues[TOP], x, p);
  }

  lemma PushAhead(s: State, q: nat, x: Pid, p: Pid)
    requires |s.queues| == QUEUES && q < QUEUES && x != p && p in s.queues[TOP]
    ensures Ahead(s.queues[TOP], Push(s, q, x).queues[TOP], p)
  {
    IndexWithout(s.queues[TOP], x, p);
    IndexPrefix(Without(s.queues[TOP], x), Without(s.queues[TOP], x) + [x], p);
  }

  lemma MovedAhead(s: State, x: Pid, from: nat, pcb: Process, p: Pid)
    requires |s.queues| == QUEUES && from < QUEUES && 0 <= QueueOf(pcb) < QUEUES
    requires x != p && p in s.queues[TOP]
    ensures Ahead(s.queues[TOP], Moved(s, x, from, pcb).queues[TOP], p)
  {
    RemoveAhead(s, from, x, p);
    PushAhead(Update(Remove(s, from, x), x, pcb), QueueOf(pcb), x, p);
  }

  lemma InTopQueue(s: State, p: Pid)
    requires Homed(s, Out(s)) && Contender(s, p)
    ensures |s.queues| == QUEUES && ProcessOk(s.procs[p])
    ensures s.procs[p].priority == TOP ==> p in s.queues[TOP]
  {
    assert ProcessOk(s.procs[p]);
    var q := QueueOf(s.procs[p]);
    assert q == TOP ==> p in s.queues[q];
  }

  // ---------------------------------------------------------------- entries that do not schedule

  /** What an event that does not call schedule() and does not name `p` leaves of `p`. */
  ghost predicate Undisturbed(s: State, t: State, p: Pid) {
    && Contender(s, p) && Contender(t, p) && t.procs[p] == s.procs[p]
    && t.ticks == s.ticks && t.lastSwitch == s.lastSwitch
    && |s.queues| == |t.queues| == QUEUES
    && (p in s.queues[TOP] ==> Ahead(s.queues[TOP], t.queues[TOP], p))
  }

  lemma QuietStep(s: State, e: Event, p: Pid)
    requires Inv(s) && Allowed(s, e) && Contender(s, p) && !Targets(e, p) && !Calls(s, e)
    ensures Undisturbed(s, Apply(s, e), p)
  {
    match e
    case Spawn(pr) =>
      if p in s.queues[TOP] {
        PushAhead(Update(s, s.nextPid, Process(Ready, Clamp(pr), Clamp(pr), 0)), Clamp(pr), s.nextPid, p);
      }
    case Unblock(x) =>
      if Found(s, x) {
        UnblockIsMove(s, x);
        if p in s.queues[TOP] { MovedAhead(s, x, QueueOf(s.procs[x]), s.procs[x].(state := Ready), p); }
      }
    case Kill(x) => if Found(s, x) { QuietKill(s, x, p); }
    case Renice(x, pr) => if Found(s, x) { QuietRenice(s, x, pr, p); }
    case BlockPid(x) => if Found(s, x) { QuietBlock(s, x, p); }
    case _ =>
  }

  lemma QuietKill(s: State, x: Pid, p: Pid)
    requires Inv(s) && Found(s, x) && x != s.idle && x != p && Contender(s, p)
    ensures s.procs[x].priority <= TOP && Undisturbed(s, KillStep(s, x), p)
  {
    assert ProcessOk(s.procs[x]);
    var pcb := s.procs[x];
    if p in s.queues[TOP] {
      RemoveAhead(s, if pcb.state == Ready then pcb.priority else BLOCKED_Q, x, p);
      var s1 := if pcb.state == Ready then Remove(s, pcb.priority, x)
                else if pcb.state == Blocked then Remove(s, BLOCKED_Q, x) else s;
      PushAhead(Update(s1, x, pcb.(state := Finished)), FINISHED_Q, x, p);
    }
  }

  lemma QuietRenice(s: State, x: Pid, pr: nat, p: Pid)
    requires Inv(s) && Found(s, x) && x != p && Contender(s, p)
    ensures s.procs[x].priority <= TOP && Undisturbed(s, ReniceStep(s, x, pr), p)
  {
    assert ProcessOk(s.procs[x]);
    var pcb, c := s.procs[x], Clamp(pr);
    if p in s.queues[TOP] && pcb.state == Ready {
      RemoveAhead(s, pcb.priority, x, p);
      PushAhead(Update(Remove(s, pcb.priority, x), x, pcb.(priority := c, basePriority := c, waitTicks := 0)), c, x, p);
    }
  }

  lemma QuietBlock(s: State, x: Pid, p: Pid)
    requires Inv(s) && Found(s, x) && x != p && Contender(s, p)
    ensures s.procs[x].priority <= TOP && Undisturbed(s, BlockPidStep(s, x), p)
  {
    assert ProcessOk(s.procs[x]);
    if p in s.queues[TOP] && s.procs[x].state == Ready {
      MovedAhead(s, x, s.procs[x].priority, s.procs[x].(state := Blocked), p);
    }
  }

  // ---------------------------------------------------------------- schedule()

  /** One call of schedule() ages `p`, and a switch takes the head off the top queue. */
  ghost predicate Advanced(s: State, r: State, p: Pid) {
    && Contender(s, p) && Contender(r, p)
    && |s.queues| == |r.queues| == QUEUES
    && StrictlyOlder(s.procs[p], r.procs[p])
    && r.ticks == s.ticks
    && (p in s.queues[TOP] ==>
          && p in r.queues[TOP]
          && if r.lastSwitch == s.lastSwitch then
               Index(r.queues[TOP], p) == Index(s.queues[TOP], p) && s.ticks - s.lastSwitch < QUANTUM_TICKS
             else
               r.lastSwitch == s.ticks && Index(r.queues[TOP], p) == Index(s.queues[TOP], p) - 1)
  }

  lemma ScheduleAdvances(s: State, p: Pid)
    requires Schedulable(s) && Contender(s, p) && s.ticks > s.lastSwitch
    ensures Schedule(s).current == p || Advanced(s, Schedule(s), p)
  {
    hide Homed, Age;
    HomedKnown(s, Out(s));
    var a := Age(s);
    AgeSchedulable(s);
    AgeOlder(s, p);
    AgeQueues(s);
    HomedKnown(a, Out(a));
    if p in s.queues[TOP] { IndexPrefix(s.queues[TOP], a.queues[TOP], p); }
    if MustSwitch(a) {
      var b := a.(needResched := false);
      RehomeClock(a, b);
      SwitchAdvances(b, p);
    }
  }

  lemma SwitchAdvances(b: State, p: Pid)
    requires Schedulable(b) && Contender(b, p)
    ensures |b.queues| == QUEUES && b.idle in b.procs && Homed(SaveContext(b), {b.idle})
    ensures var r := Reap(Dispatch(SaveContext(b)), MAX_FINISHED_COLLECT);
            || r.current == p
            || (&& Contender(r, p) && r.procs[p] == b.procs[p] && r.ticks == r.lastSwitch == b.ticks
                && |r.queues| == QUEUES
                && (p in b.queues[TOP] ==>
                      p in r.queues[TOP] && Index(r.queues[TOP], p) == Index(b.queues[TOP], p) - 1))
  {
    hide Homed;
    HomedKnown(b, Out(b));
    SaveKeeps(b);
    var c := SaveContext(b);
    HomedKnown(c, {c.idle});
    if p in b.queues[TOP] { IndexPrefix(b.queues[TOP], c.queues[TOP], p); }
    DispatchKeeps(c);
    var d := Dispatch(c);
    HomedKnown(d, Out(d));
    ReapKeeps(d, Out(d), MAX_FINISHED_COLLECT);
    if p in b.queues[TOP] && d.current != p {
      var q := c.queues[TOP];
      assert Highest(c.queues, TOP) == TOP;
      assert d.queues[TOP] == Without(q, q[0]) == q[1..];
      assert q[0] != p;
    }
  }

  // ---------------------------------------------------------------- the bounds

  /** An upper bound on the calls of schedule() before a process in the top queue runs. */
  function TopDebt(s: State, p: Pid): int
    requires |s.queues| == QUEUES && p in s.queues[TOP]
  {
    QUANTUM_TICKS * Index(s.queues[TOP], p) + QUANTUM_TICKS - (s.ticks - s.lastSwitch)
  }

  /** One event lowers the debt and the rank of an undisturbed contender by one for each call of
      schedule(), and never raises them. */
  lemma StepAdvances(s: State, e: Event, p: Pid)
    requires Inv(s) && Allowed(s, e) && Contender(s, p) && !Targets(e, p)
    ensures var t := Apply(s, e);
            var paid := if Calls(s, e) then 1 else 0;
            && Inv(t)
            && (t.current == p
                || (&& Contender(t, p) && |s.queues| == |t.queues| == QUEUES
                    && t.procs[p].priority >= s.procs[p].priority
                    && (s.procs[p].priority < TOP ==> Rank(t.procs[p]) <= Rank(s.procs[p]) - paid)
                    && (p in s.queues[TOP] ==> p in t.queues[TOP] && TopDebt(t, p) <= TopDebt(s, p) - paid)))
  {
    hide Homed, Schedule;
    InvKept(s, e);
    if Calls(s, e) {
      TickedSchedulable(s);
      ScheduleAdvances(if e.Tick? then Ticked(s) else Backdated(s), p);
    } else {
      QuietStep(s, e, p);
    }
  }

  /** `p` stays ready without running while `es` happens, and no event names it. */
  ghost predicate Starves(s: State, es: seq<Event>, p: Pid)
    requires Inv(s)
    decreases |es|
  {
    && Contender(s, p)
    && (es == []
        || (&& Allowed(s, es[0]) && !Targets(es[0], p)
            && Inv(Apply(s, es[0])) && Starves(Apply(s, es[0]), es[1..], p)))
  }

  /** The number of calls of schedule() in a run. */
  ghost function CallCount(s: State, es: seq<Event>): nat
    requires Inv(s)
    decreases |es|
  {
    if es == [] then 0
    else
      (if Calls(s, es[0]) then 1 else 0)
      + if Inv(Apply(s, es[0])) then CallCount(Apply(s, es[0]), es[1..]) else 0
  }

  /** From position `k` of the top queue a process runs within `8 * (k + 1)` calls. */
  lemma {:induction false} TopWaitBounded(s: State, es: seq<Event>, p: Pid)
    requires Inv(s) && Starves(s, es, p) && s.procs[p].priority == TOP
    ensures p in s.queues[TOP]
    ensures CallCount(s, es) < TopDebt(s, p) <= 8 * (Index(s.queues[TOP], p) + 1)
    decreases |es|
  {
    hide Homed, Apply;
    InTopQueue(s, p);
    if es != [] {
      StepAdvances(s, es[0], p);
      InTopQueue(Apply(s, es[0]), p);
      TopWaitBounded(Apply(s, es[0]), es[1..], p);
    }
  }

  /** `p` stays below the top priority all along. */
  ghost predicate StaysBelow(s: State, es: seq<Event>, p: Pid)
    requires Inv(s) && Starves(s, es, p)
    decreases |es|
  {
    s.procs[p].priority < TOP && (es == [] || StaysBelow(Apply(s, es[0]), es[1..], p))
  }

  /** Within 400 calls an undisturbed ready process runs or reaches the top priority. */
  lemma {:induction false} AgingBounded(s: State, es: seq<Event>, p: Pid)
    requires Inv(s) && Starves(s, es, p) && StaysBelow(s, es, p)
    ensures CallCount(s, es) < Rank(s.procs[p]) <= 400
    decreases |es|
  {
    hide Homed, Apply;
    InTopQueue(s, p);
    if es != [] {
      StepAdvances(s, es[0], p);
      AgingBounded(Apply(s, es[0]), es[1..], p);
    }
  }

  /** The largest number of processes that exist at any point of the run. */
  ghost function Crowd(s: State, es: seq<Event>): (n: nat)
    requires Inv(s)
    ensures |s.procs| <= n
    decreases |es|
  {
    if es == [] || !Inv(Apply(s, es[0])) then |s.procs|
    else
      var later := Crowd(Apply(s, es[0]), es[1..]);
      if later < |s.procs| then |s.procs| else later
  }

  /** From below, a process needs the calls that lift it to the top queue and those it spends there. */
  lemma {:induction false} ClimbBounded(s: State, es: seq<Event>, p: Pid)
    requires Inv(s) && Starves(s, es, p) && s.procs[p].priority < TOP
    ensures CallCount(s, es) < Rank(s.procs[p]) + 8 * Crowd(s, es)
    decreases |es|
  {
    hide Homed, Apply;
    InTopQueue(s, p);
    if es != [] {
      var t := Apply(s, es[0]);
      StepAdvances(s, es[0], p);
      InTopQueue(t, p);
      if t.procs[p].priority == TOP {
        TopWaitBounded(t, es[1..], p);
        QueueFits(t);
      } else {
        ClimbBounded(t, es[1..], p);
      }
    }
  }

  /** No starvation: an undisturbed ready process runs within `400 + 8 * n` calls of schedule(), where
      `n` is the largest number of processes there are meanwhile. */
  lemma NoStarvation(s: State, es: seq<Event>, p: Pid)
    requires Inv(s) && Starves(s, es, p)
    ensures CallCount(s, es) < 400 + 8 * Crowd(s, es)
  {
    hide Homed, Apply;
    InTopQueue(s, p);
    if s.procs[p].priority < TOP {
      ClimbBounded(s, es, p);
    } else {
      TopWaitBounded(s, es, p);
      QueueFits(s);
    }
  }

  lemma QueueFits(s: State)
    requires Homed(s, Out(s))
    ensures |s.queues| == QUEUES && |s.queues[TOP]| <= |s.procs|
  {
    var q := s.queues[TOP];
    assert forall p :: p in q ==> p in s.procs.Keys;
    DistinctFits(q, s.procs.Keys);
  }
}
