/** The scheduler of Kernel/proc/scheduler.c as a state machine on values: three ready queues,
    the blocked and the finished queue, aging, the quantum and preemption. */
module SchedulerSpec {
  import opened Sequences
  import opened Links

  const TOP := 2            // PROCESS_PRIORITY_MAX
  const BLOCKED_Q := 3
  const FINISHED_Q := 4
  const QUEUES := 5
  const QUANTUM_TICKS := 8
  const MAX_FINISHED_COLLECT := 4
  const AGING_THRESHOLD := 200

  type Pid = int

  datatype Activity = New | Ready | Running | Blocked | Finished

  datatype Process = Process(state: Activity, priority: nat, basePriority: nat, waitTicks: nat)

  /** `queues` holds the ready queues by priority, then the blocked and the finished queue. */
  datatype State = State(
    procs: map<Pid, Process>, queues: seq<seq<Pid>>, current: Pid, idle: Pid,
    lastSwitch: int, needResched: bool, ticks: int, nextPid: Pid)

  function Clamp(priority: nat): nat {
    if priority > TOP then TOP else priority
  }

  /** process_queue_push: a member that is pushed again moves to the tail. */
  function Push(s: State, q: nat, p: Pid): State
    requires q < |s.queues|
  {
    s.(queues := s.queues[q := Without(s.queues[q], p) + [p]])
  }

  function Remove(s: State, q: nat, p: Pid): State
    requires q < |s.queues|
  {
    s.(queues := s.queues[q := Without(s.queues[q], p)])
  }

  function Update(s: State, p: Pid, pcb: Process): State {
    s.(procs := s.procs[p := pcb])
  }

  // ---------------------------------------------------------------- queue membership

  /** The queue a waiting process belongs in. */
  function QueueOf(pcb: Process): int {
    match pcb.state
    case Ready => pcb.priority
    case Blocked => BLOCKED_Q
    case Finished => FINISHED_Q
    case _ => NIL
  }

  predicate ProcessOk(pcb: Process) {
    && pcb.priority <= TOP
    && pcb.basePriority <= TOP
    && (pcb.priority < TOP ==> pcb.waitTicks < AGING_THRESHOLD)
  }

  /** Every process outside `out` is in exactly one queue, once: that of its state and priority. */
  ghost predicate Homed(s: State, out: set<Pid>) {
    && |s.queues| == QUEUES
    && (forall q :: 0 <= q < QUEUES ==> Distinct(s.queues[q]))
    && (forall q, p {:trigger p in s.queues[q]} :: 0 <= q < QUEUES ==>
          (p in s.queues[q] <==> p in s.procs && p !in out && QueueOf(s.procs[p]) == q))
    && (forall p {:trigger QueueOf(s.procs[p])} :: p in s.procs && p !in out ==> 0 <= QueueOf(s.procs[p]) < QUEUES)
    && (forall p {:trigger ProcessOk(s.procs[p])} :: p in s.procs ==> ProcessOk(s.procs[p]))
    && (forall p {:trigger p in s.procs} :: p in s.procs ==> 0 <= p < s.nextPid)
    && s.idle in s.procs && s.procs[s.idle].state == Running && s.idle in out
  }

  lemma FiveQueues(s: State, out: set<Pid>)
    requires Homed(s, out)
    ensures |s.queues| == QUEUES
  {
  }

  /** Taking a process out of its queue. */
  lemma DequeueKeeps(s: State, out: set<Pid>, p: Pid)
    requires Homed(s, out) && p in s.procs && p !in out
    ensures 0 <= QueueOf(s.procs[p]) < QUEUES && p in s.queues[QueueOf(s.procs[p])]
    ensures Homed(Remove(s, QueueOf(s.procs[p]), p), out + {p})
  {
    var q := QueueOf(s.procs[p]);
    assert p in s.queues[q];
    WithoutIs(s.queues[q], Index(s.queues[q], p));
  }

  /** Changing a process that is in no queue. */
  lemma ChangeKeeps(s: State, out: set<Pid>, p: Pid, pcb: Process)
    requires Homed(s, out) && p in s.procs && p in out && ProcessOk(pcb)
    requires p == s.idle ==> pcb.state == Running
    ensures Homed(Update(s, p, pcb), out)
  {
    var s' := Update(s, p, pcb);
    forall x | x in s'.procs ensures ProcessOk(s'.procs[x]) {
      if x != p { assert ProcessOk(s.procs[x]); }
    }
  }

  /** Putting a process that is in no queue where it belongs. */
  lemma EnqueueKeeps(s: State, out: set<Pid>, p: Pid)
    requires Homed(s, out) && p in s.procs && p in out && p != s.idle
    requires 0 <= QueueOf(s.procs[p]) < QUEUES
    ensures p !in s.queues[QueueOf(s.procs[p])]
    ensures Homed(Push(s, QueueOf(s.procs[p]), p), out - {p})
  {
    var q := QueueOf(s.procs[p]);
    assert p !in s.queues[q];
    assert Without(s.queues[q], p) == s.queues[q];
  }

  /** The running process was killed: it stands in the finished queue until the next switch. */
  predicate Doomed(s: State) {
    |s.queues| == QUEUES && s.current in s.queues[FINISHED_Q]
  }

  /** The processes that are in no queue between two kernel entries. */
  function Out(s: State): set<Pid> {
    if Doomed(s) then {s.idle} else {s.current, s.idle}
  }

  /** The invariant between two kernel entries. */
  ghost predicate Inv(s: State) {
    && Homed(s, Out(s))
    && s.current in s.procs
    && s.procs[s.current].state in {Running, Blocked, Finished}
    && 0 <= s.ticks - s.lastSwitch < QUANTUM_TICKS
  }

  // ---------------------------------------------------------------- apply_aging

  /** Whether the visit of the process at position `i` promotes it. */
  predicate Promotes(s: State, pr: nat, i: nat)
    requires pr < |s.queues| && i < |s.queues[pr]| && s.queues[pr][i] in s.procs
  {
    var pcb := s.procs[s.queues[pr][i]];
    pcb.waitTicks + 1 >= AGING_THRESHOLD && pcb.priority < TOP
  }

  function Visit(s: State, pr: nat, i: nat): State
    requires pr < |s.queues| && i < |s.queues[pr]| && s.queues[pr][i] in s.procs
    requires s.procs[s.queues[pr][i]].priority < TOP ==> TOP < |s.queues|
  {
    var p := s.queues[pr][i];
    var pcb := s.procs[p];
    if Promotes(s, pr, i) then
      var up := Clamp(pcb.priority + 1);
      Update(Push(Remove(s, pr, p), up, p), p, pcb.(priority := up, waitTicks := 0))
    else
      Update(s, p, pcb.(waitTicks := pcb.waitTicks + 1))
  }

  lemma VisitKeeps(s: State, out: set<Pid>, pr: nat, i: nat)
    requires Homed(s, out) && pr <= TOP && i < |s.queues[pr]|
    ensures s.queues[pr][i] in s.procs && s.procs[s.queues[pr][i]].state == Ready
    ensures s.procs[s.queues[pr][i]].priority == pr
    ensures Homed(Visit(s, pr, i), out)
    ensures !Promotes(s, pr, i) ==> Visit(s, pr, i).queues == s.queues
    ensures Promotes(s, pr, i) ==>
              && pr < TOP
              && Visit(s, pr, i).queues == s.queues[pr := Without(s.queues[pr], s.queues[pr][i])]
                                                   [pr + 1 := s.queues[pr + 1] + [s.queues[pr][i]]]
  {
    var p := s.queues[pr][i];
    assert p in s.queues[pr];
    assert ProcessOk(s.procs[p]);
    if Promotes(s, pr, i) {
      PromoteKeeps(s, out, p);
    } else {
      RewriteKeeps(s, out, p, s.procs[p].(waitTicks := s.procs[p].waitTicks + 1));
    }
  }

  lemma PromoteKeeps(s: State, out: set<Pid>, p: Pid)
    requires Homed(s, out) && p in s.procs && p !in out && s.procs[p].state == Ready && s.procs[p].priority < TOP
    ensures var pr, up := s.procs[p].priority, s.procs[p].priority + 1;
            var r := Update(Push(Remove(s, pr, p), up, p), p, s.procs[p].(priority := up, waitTicks := 0));
            && Homed(r, out) && |s.queues| == QUEUES
            && r.queues == s.queues[pr := Without(s.queues[pr], p)][up := s.queues[up] + [p]]
  {
    var pr := s.procs[p].priority;
    assert ProcessOk(s.procs[p]);
    DequeueKeeps(s, out, p);
    var s1 := Remove(s, pr, p);
    var pcb' := s.procs[p].(priority := pr + 1, waitTicks := 0);
    ChangeKeeps(s1, out + {p}, p, pcb');
    EnqueueKeeps(Update(s1, p, pcb'), out + {p}, p);
    assert out + {p} - {p} == out;
    assert p !in s.queues[pr + 1];
  }

  /** Changing a waiting process without changing the queue it belongs in. */
  lemma RewriteKeeps(s: State, out: set<Pid>, p: Pid, pcb: Process)
    requires Homed(s, out) && p in s.procs && p != s.idle && ProcessOk(pcb) && QueueOf(pcb) == QueueOf(s.procs[p])
    ensures Homed(Update(s, p, pcb), out)
  {
    var t := Update(s, p, pcb);
    forall x | x in t.procs ensures ProcessOk(t.procs[x]) {
      if x != p { assert ProcessOk(s.procs[x]); }
    }
  }

  /** The inner loop of apply_aging from position `i`: after a promotion it restarts at the head. */
  ghost function AgeLevel(s: State, pr: nat, i: nat): (r: State)
    requires Homed(s, Out(s)) && pr <= TOP && i <= |s.queues[pr]|
    ensures Homed(r, Out(s)) && |r.queues| == QUEUES && r == s.(procs := r.procs, queues := r.queues)
    ensures Out(r) == Out(s)
    decreases |s.queues[pr]|, |s.queues[pr]| - i
  {
    if i == |s.queues[pr]| then s
    else
      VisitKeeps(s, Out(s), pr, i);
      if Promotes(s, pr, i) then AgeLevel(Visit(s, pr, i), pr, 0)
      else AgeLevel(Visit(s, pr, i), pr, i + 1)
  }

  /** apply_aging */
  ghost function Age(s: State): (r: State)
    requires Homed(s, Out(s))
    ensures Homed(r, Out(s)) && |r.queues| == QUEUES && r == s.(procs := r.procs, queues := r.queues)
    ensures Out(r) == Out(s)
  {
    AgeLevel(AgeLevel(AgeLevel(s, 0, 0), 1, 0), 2, 0)
  }

  /** How far a process is from the top priority by aging alone. */
  function Rank(pcb: Process): int {
    if pcb.priority >= TOP then 0 else AGING_THRESHOLD * (TOP - pcb.priority) - pcb.waitTicks
  }

  /** What aging may do to a process: raise its priority or its waiting time. */
  predicate Older(a: Process, b: Process) {
    && b.state == a.state && b.basePriority == a.basePriority
    && b.priority >= a.priority
    && (b.priority == a.priority ==> b.waitTicks >= a.waitTicks)
    && Rank(b) <= Rank(a)
  }

  /** ... and what it does to a process it visits. */
  predicate StrictlyOlder(a: Process, b: Process) {
    && Older(a, b)
    && (b.priority == a.priority ==> b.waitTicks > a.waitTicks)
    && (a.priority < TOP ==> Rank(b) < Rank(a))
  }

  lemma {:induction false} AgeLevelOlder(s: State, pr: nat, i: nat, p: Pid)
    requires Homed(s, Out(s)) && pr <= TOP && i <= |s.queues[pr]| && p in s.procs
    ensures var r := AgeLevel(s, pr, i);
            && r.procs.Keys == s.procs.Keys
            && Older(s.procs[p], r.procs[p])
            && (s.procs[p].state != Ready || p in Out(s) ==> r.procs[p] == s.procs[p])
            && (p in s.queues[pr][i..] ==> StrictlyOlder(s.procs[p], r.procs[p]))
    decreases |s.queues[pr]|, |s.queues[pr]| - i
  {
    hide Homed;
    FiveQueues(s, Out(s));
    if i < |s.queues[pr]| {
      VisitKeeps(s, Out(s), pr, i);
      VisitOlder(s, pr, i, p);
      var v := Visit(s, pr, i);
      assert v.queues[FINISHED_Q] == s.queues[FINISHED_Q];
      if Promotes(s, pr, i) {
        AgeLevelOlder(v, pr, 0, p);
      } else {
        AgeLevelOlder(v, pr, i + 1, p);
      }
    }
  }

  /** One visit, and what it leaves to visit. */
  lemma VisitOlder(s: State, pr: nat, i: nat, p: Pid)
    requires Homed(s, Out(s)) && pr <= TOP && |s.queues| == QUEUES && i < |s.queues[pr]| && p in s.procs
    ensures s.queues[pr][i] in s.procs && s.procs[s.queues[pr][i]].priority <= TOP
    ensures var v := Visit(s, pr, i);
            && v.procs.Keys == s.procs.Keys
            && Older(s.procs[p], v.procs[p])
            && (p == s.queues[pr][i] ==> StrictlyOlder(s.procs[p], v.procs[p]))
            && (s.procs[p].state != Ready || p in Out(s) ==> v.procs[p] == s.procs[p])
            && (p in s.queues[pr][i..] && p != s.queues[pr][i] ==>
                  v.procs[p] == s.procs[p] && p in v.queues[pr][if Promotes(s, pr, i) then 0 else i + 1..])
  {
    var x := s.queues[pr][i];
    assert x in s.queues[pr];
    assert ProcessOk(s.procs[p]) && ProcessOk(s.procs[x]);
    VisitKeeps(s, Out(s), pr, i);
    var v := Visit(s, pr, i);
    if p in s.queues[pr][i..] && p != x {
      assert p in s.queues[pr];
      if Promotes(s, pr, i) {
        assert p in v.queues[pr];
        assert v.queues[pr][0..] == v.queues[pr];
      } else {
        assert s.queues[pr][i..] == [x] + s.queues[pr][i + 1..];
      }
    }
  }

  /** Aging appends to the queues above and never reorders the top one. */
  lemma {:induction false} AgeLevelQueues(s: State, pr: nat, i: nat)
    requires Homed(s, Out(s)) && pr <= TOP && i <= |s.queues[pr]|
    ensures var r := AgeLevel(s, pr, i);
            && s.queues[TOP] <= r.queues[TOP]
            && r.queues[BLOCKED_Q] == s.queues[BLOCKED_Q] && r.queues[FINISHED_Q] == s.queues[FINISHED_Q]
    decreases |s.queues[pr]|, |s.queues[pr]| - i
  {
    hide Homed;
    FiveQueues(s, Out(s));
    if i < |s.queues[pr]| {
      VisitKeeps(s, Out(s), pr, i);
      assert Visit(s, pr, i).queues[FINISHED_Q] == s.queues[FINISHED_Q];
      if Promotes(s, pr, i) {
        AgeLevelQueues(Visit(s, pr, i), pr, 0);
      } else {
        AgeLevelQueues(Visit(s, pr, i), pr, i + 1);
      }
    }
  }

  /** apply_aging keeps every process in its state, only raises priorities, and leaves every ready
      process either promoted or with a larger waiting time. */
  lemma AgeOlder(s: State, p: Pid)
    requires Homed(s, Out(s)) && |s.queues| == QUEUES && p in s.procs
    ensures var r := Age(s);
            && r.procs.Keys == s.procs.Keys
            && Older(s.procs[p], r.procs[p])
            && (s.procs[p].state != Ready || p in Out(s) ==> r.procs[p] == s.procs[p])
            && (s.procs[p].state == Ready && p !in Out(s) ==> StrictlyOlder(s.procs[p], r.procs[p]))
  {
    hide Homed, AgeLevel;
    var s1 := AgeLevel(s, 0, 0);
    var s2 := AgeLevel(s1, 1, 0);
    InItsQueue(s, p);
    AgeLevelOlder(s, 0, 0, p);
    InItsQueue(s1, p);
    AgeLevelOlder(s1, 1, 0, p);
    InItsQueue(s2, p);
    AgeLevelOlder(s2, 2, 0, p);
  }

  lemma InItsQueue(s: State, p: Pid)
    requires Homed(s, Out(s)) && p in s.procs
    ensures |s.queues| == QUEUES && ProcessOk(s.procs[p])
    ensures s.procs[p].state == Ready && p !in Out(s) ==> p in s.queues[s.procs[p].priority][0..]
  {
    assert ProcessOk(s.procs[p]);
    if s.procs[p].state == Ready && p !in Out(s) {
      var q := QueueOf(s.procs[p]);
      assert p in s.queues[q];
      assert s.queues[q][0..] == s.queues[q];
    }
  }

  lemma AgeQueues(s: State)
    requires Homed(s, Out(s)) && |s.queues| == QUEUES
    ensures s.queues[TOP] <= Age(s).queues[TOP]
    ensures Age(s).queues[BLOCKED_Q] == s.queues[BLOCKED_Q] && Age(s).queues[FINISHED_Q] == s.queues[FINISHED_Q]
  {
    hide Homed;
    var s1 := AgeLevel(s, 0, 0);
    var s2 := AgeLevel(s1, 1, 0);
    AgeLevelQueues(s, 0, 0);
    AgeLevelQueues(s1, 1, 0);
    AgeLevelQueues(s2, 2, 0);
  }
}
