/** The operations of Kernel/proc/scheduler.c on values, and the proof that each of them keeps
    every process in exactly one place. */
module SchedulerSteps {
  import opened Sequences
  import opened Links
  import opened SchedulerSpec

  /** ready_queue_push */
  function ReadyPush(s: State, p: Pid): State
    requires |s.queues| == QUEUES && p in s.procs
  {
    var pr := Clamp(s.procs[p].priority);
    Push(Update(s, p, s.procs[p].(priority := pr)), pr, p)
  }

  /** save_context: where the process that leaves the CPU goes. */
  function SaveContext(s: State): State
    requires |s.queues| == QUEUES && s.current in s.procs
  {
    var pcb := s.procs[s.current];
    match pcb.state
    case Running =>
      if s.current == s.idle then s
      else ReadyPush(Update(s, s.current, pcb.(state := Ready)), s.current)
    case Blocked => Push(s, BLOCKED_Q, s.current)
    case Finished => Push(s, FINISHED_Q, s.current)
    case _ => s
  }

  /** The highest priority, from `pr` down, with a ready process; NIL if there is none. */
  function Highest(queues: seq<seq<Pid>>, pr: int): (l: int)
    requires |queues| == QUEUES && NIL <= pr <= TOP
    ensures NIL <= l <= pr
    ensures l >= 0 ==> queues[l] != []
    ensures forall k :: 0 <= k && l < k <= pr ==> queues[k] == []
    decreases pr + 1
  {
    if pr < 0 || queues[pr] != [] then pr else Highest(queues, pr - 1)
  }

  /** The queues name existing processes only. */
  predicate Known(s: State) {
    && |s.queues| == QUEUES
    && forall q, p {:trigger p in s.queues[q]} :: 0 <= q < QUEUES && p in s.queues[q] ==> p in s.procs && p >= 0
  }

  /** The process schedule() looks at to decide on preemption. */
  function Peek(s: State): (p: Pid)
    requires Known(s)
    ensures p != NIL ==> p in s.procs
  {
    var l := Highest(s.queues, TOP);
    if l < 0 then NIL
    else
      var p := s.queues[l][0];
      assert p in s.queues[l];
      p
  }

  /** The end of a switch: `next` gets the CPU and falls back to its base priority. */
  function Run(s: State, next: Pid): State
    requires next in s.procs
  {
    var pcb := s.procs[next];
    var pr := if next != s.idle && pcb.priority > pcb.basePriority then pcb.basePriority else pcb.priority;
    Update(s, next, pcb.(state := Running, waitTicks := 0, priority := pr)).(current := next, lastSwitch := s.ticks)
  }

  /** ready_queue_pop_highest, with the idle process when nobody is ready, then Run. */
  function Dispatch(s: State): State
    requires Known(s) && s.idle in s.procs
  {
    var l := Highest(s.queues, TOP);
    if l < 0 then Run(s, s.idle)
    else
      var next := s.queues[l][0];
      assert next in s.queues[l];
      Run(Remove(s, l, next), next)
  }

  /** Collects and destroys up to `n` finished processes. */
  function Reap(s: State, n: nat): State
    requires |s.queues| == QUEUES
    decreases n
  {
    if n == 0 || s.queues[FINISHED_Q] == [] then s
    else
      var p := s.queues[FINISHED_Q][0];
      Reap(Remove(s, FINISHED_Q, p).(procs := s.procs - {p}), n - 1)
  }

  predicate MustSwitch(s: State)
    requires Known(s) && s.current in s.procs
  {
    var cur := s.procs[s.current];
    || cur.state != Running
    || (Peek(s) != NIL && s.procs[Peek(s)].priority > cur.priority)
    || s.ticks - s.lastSwitch >= QUANTUM_TICKS
    || s.needResched
  }

  /** The states in which schedule() may be entered. */
  ghost predicate Schedulable(s: State) {
    && Homed(s, Out(s))
    && s.current in s.procs
    && s.procs[s.current].state in {Running, Blocked, Finished}
  }

  /** schedule(), after the tick that precedes it. */
  ghost function Schedule(s: State): State
    requires Schedulable(s)
  {
    var a := Age(s);
    AgeSchedulable(s);
    if !MustSwitch(a) then a
    else
      SaveKeeps(a.(needResched := false));
      Reap(Dispatch(SaveContext(a.(needResched := false))), MAX_FINISHED_COLLECT)
  }

  lemma AgeSchedulable(s: State)
    requires Schedulable(s)
    ensures Schedulable(Age(s)) && Age(s).procs.Keys == s.procs.Keys
    ensures Age(s).procs[s.current] == s.procs[s.current]
  {
    AgeOlder(s, s.current);
  }

  lemma HomedKnown(s: State, out: set<Pid>)
    requires Homed(s, out)
    ensures Known(s)
  {
  }

  lemma SaveKeeps(s: State)
    requires Schedulable(s)
    ensures var r := SaveContext(s);
            && Homed(r, {s.idle}) && r.procs.Keys == s.procs.Keys
            && r == s.(procs := r.procs, queues := r.queues)
            && (forall p :: p in s.procs && p != s.current ==> r.procs[p] == s.procs[p])
            && s.queues[TOP] <= r.queues[TOP]
  {
    var c := s.current;
    var pcb := s.procs[c];
    assert ProcessOk(pcb);
    if c == s.idle {
      assert Out(s) == {s.idle};
    } else if Doomed(s) {
      PushedAgain(s, {s.idle}, c);
    } else {
      assert Out(s) - {c} == {s.idle};
      var pcb' := if pcb.state == Running then pcb.(state := Ready) else pcb;
      ChangeKeeps(s, Out(s), c, pcb');
      EnqueueKeeps(Update(s, c, pcb'), Out(s), c);
      assert s.procs[c := pcb] == s.procs;
    }
  }

  /** A member that is pushed again moves to the tail of its queue. */
  lemma PushedAgain(s: State, out: set<Pid>, p: Pid)
    requires Homed(s, out) && p in s.procs && p !in out
    ensures 0 <= QueueOf(s.procs[p]) < QUEUES && Homed(Push(s, QueueOf(s.procs[p]), p), out)
  {
    var q := QueueOf(s.procs[p]);
    DequeueKeeps(s, out, p);
    EnqueueKeeps(Remove(s, q, p), out + {p}, p);
    assert out + {p} - {p} == out;
    WithoutTwice(s.queues[q], p);
  }

  lemma WithoutTwice(s: seq<Pid>, p: Pid)
    requires Distinct(s) && p in s
    ensures Without(Without(s, p), p) == Without(s, p)
  {
    WithoutIs(s, Index(s, p));
  }

  lemma DispatchKeeps(s: State)
    requires Homed(s, {s.idle})
    ensures var r := Dispatch(s);
            && Homed(r, Out(r)) && Schedulable(r) && !Doomed(r) && r.procs.Keys == s.procs.Keys
            && r == s.(procs := r.procs, queues := r.queues, current := r.current, lastSwitch := s.ticks)
            && (forall p :: p in s.procs && p != r.current ==> r.procs[p] == s.procs[p])
  {
    var l := Highest(s.queues, TOP);
    if l < 0 {
      assert ProcessOk(s.procs[s.idle]);
      assert Out(s.(current := s.idle)) == {s.idle};
      ChangeKeeps(s, {s.idle}, s.idle, s.procs[s.idle].(waitTicks := 0));
    } else {
      var next := s.queues[l][0];
      assert next in s.queues[l];
      assert ProcessOk(s.procs[next]);
      DequeueKeeps(s, {s.idle}, next);
      ChangeKeeps(Remove(s, l, next), {s.idle} + {next}, next, Run(Remove(s, l, next), next).procs[next]);
      assert {s.idle} + {next} == {next, s.idle};
    }
  }

  lemma {:induction false} ReapKeeps(s: State, out: set<Pid>, n: nat)
    requires Homed(s, out)
    ensures var r := Reap(s, n);
            && Homed(r, out)
            && r == s.(procs := r.procs, queues := r.queues)
            && (forall q :: 0 <= q < FINISHED_Q ==> r.queues[q] == s.queues[q])
            && (forall p :: p in r.procs ==> p in s.procs && r.procs[p] == s.procs[p])
            && (forall p :: p in s.procs && (p in out || s.procs[p].state != Finished) ==> p in r.procs)
    decreases n
  {
    if n > 0 && s.queues[FINISHED_Q] != [] {
      var p := s.queues[FINISHED_Q][0];
      assert p in s.queues[FINISHED_Q];
      assert ProcessOk(s.procs[p]);
      var s' := Remove(s, FINISHED_Q, p).(procs := s.procs - {p});
      DestroyKeeps(s, out, p);
      ReapKeeps(s', out, n - 1);
    }
  }

  lemma DestroyKeeps(s: State, out: set<Pid>, p: Pid)
    requires Homed(s, out) && p in s.procs && p !in out && s.procs[p].state == Finished
    ensures Homed(Remove(s, FINISHED_Q, p).(procs := s.procs - {p}), out)
  {
    DequeueKeeps(s, out, p);
    var s1 := Remove(s, FINISHED_Q, p);
    var s' := s1.(procs := s.procs - {p});
    forall x | x in s'.procs ensures ProcessOk(s'.procs[x]) { assert ProcessOk(s1.procs[x]); }
  }
}
