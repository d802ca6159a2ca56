/** What apply_aging does to a process, in numbers. Every pass visits each ready process at least once;
    a promotion restarts the loop at the head of the queue, so that some are visited more often. */
module SchedulerAging {
  import opened Sequences
  import opened Links
  import opened SchedulerSpec

  /** The number of ready processes. */
  function ReadyCount(s: State): nat
    requires |s.queues| == QUEUES
  {
    |s.queues[0]| + |s.queues[1]| + |s.queues[2]|
  }

  predicate Waits(s: State, p: Pid) {
    p in s.procs && s.procs[p].state == Ready && p !in Out(s)
  }

  // ---------------------------------------------------------------- nobody is due

  /** One pass over a level in which nobody has waited long enough. */
  lemma {:induction false} QuietLevel(s: State, pr: nat, i: nat, p: Pid)
    requires Homed(s, Out(s)) && pr <= TOP && |s.queues| == QUEUES && i <= |s.queues[pr]| && p in s.procs
    requires forall j :: i <= j < |s.queues[pr]| && s.queues[pr][j] in s.procs ==>
               s.procs[s.queues[pr][j]].waitTicks < 199 || pr == 2
    ensures var r := AgeLevel(s, pr, i);
            && r.queues == s.queues && r.procs.Keys == s.procs.Keys
            && r.procs[p] == if p in s.queues[pr][i..] then s.procs[p].(waitTicks := s.procs[p].waitTicks + 1)
                             else s.procs[p]
    decreases |s.queues[pr]| - i
  {
    hide Homed;
    if i < |s.queues[pr]| {
      VisitKeeps(s, Out(s), pr, i);
      var x, v := s.queues[pr][i], Visit(s, pr, i);
      LevelDistinct(s, pr);
      assert !Promotes(s, pr, i);
      assert s.queues[pr][i..] == [x] + s.queues[pr][i + 1..];
      assert x !in s.queues[pr][i + 1..];
      QuietLevel(v, pr, i + 1, p);
    }
  }

  lemma LevelDistinct(s: State, pr: nat)
    requires Homed(s, Out(s)) && pr <= TOP && |s.queues| == QUEUES
    ensures Distinct(s.queues[pr])
    ensures forall p :: p in s.queues[pr] <==> Waits(s, p) && s.procs[p].priority == pr
    ensures forall p :: p in s.queues[pr] ==> ProcessOk(s.procs[p])
  {
    forall p ensures p in s.queues[pr] <==> Waits(s, p) && s.procs[p].priority == pr {
      if p in s.procs { assert ProcessOk(s.procs[p]); }
      assert p in s.queues[pr] <==> p in s.procs && p !in Out(s) && QueueOf(s.procs[p]) == pr;
    }
    forall p | p in s.queues[pr] ensures ProcessOk(s.procs[p]) { assert p in s.procs; }
  }

  /** Everybody in queue `pr` has waited one more. */
  ghost predicate OneMore(s: State, r: State, pr: nat)
    requires pr < |s.queues|
  {
    && r.queues == s.queues && r.procs.Keys == s.procs.Keys
    && forall x :: x in s.procs ==>
         r.procs[x] == if x in s.queues[pr] then s.procs[x].(waitTicks := s.procs[x].waitTicks + 1) else s.procs[x]
  }

  lemma QuietPass(s: State, pr: nat)
    requires Homed(s, Out(s)) && pr <= TOP && |s.queues| == QUEUES
    requires forall x :: x in s.queues[pr] && x in s.procs ==> s.procs[x].waitTicks < 199 || pr == 2
    ensures OneMore(s, AgeLevel(s, pr, 0), pr)
  {
    hide Homed, AgeLevel;
    assert s.queues[pr][0..] == s.queues[pr];
    forall j | 0 <= j < |s.queues[pr]| && s.queues[pr][j] in s.procs
      ensures s.procs[s.queues[pr][j]].waitTicks < 199 || pr == 2
    {
      var x := s.queues[pr][j];
      assert x in s.queues[pr];
    }
    assert s.idle in s.procs by { IdleThere(s); }
    QuietLevel(s, pr, 0, s.idle);
    forall x | x in s.procs
      ensures AgeLevel(s, pr, 0).procs[x]
              == if x in s.queues[pr] then s.procs[x].(waitTicks := s.procs[x].waitTicks + 1) else s.procs[x]
    {
      QuietLevel(s, pr, 0, x);
    }
  }

  lemma IdleThere(s: State)
    requires Homed(s, Out(s))
    ensures s.idle in s.procs
  {
  }

  /** Aging when nobody below the top has waited for 199 visits: everybody waits one more, and no queue
      changes. */
  lemma AgeQuiet(s: State)
    requires Homed(s, Out(s)) && |s.queues| == QUEUES
    requires forall x :: Waits(s, x) && s.procs[x].priority < 2 ==> s.procs[x].waitTicks < 199
    ensures var r := Age(s);
            && r.queues == s.queues && r.procs.Keys == s.procs.Keys
            && forall x :: x in s.procs ==>
                 r.procs[x] == if Waits(s, x) then s.procs[x].(waitTicks := s.procs[x].waitTicks + 1) else s.procs[x]
  {
    hide Homed, AgeLevel;
    LevelDistinct(s, 0);
    LevelDistinct(s, 1);
    LevelDistinct(s, 2);
    QuietPass(s, 0);
    var s1 := AgeLevel(s, 0, 0);
    QuietPass(s1, 1);
    var s2 := AgeLevel(s1, 1, 0);
    QuietPass(s2, 2);
    forall x | Waits(s, x) ensures s.procs[x].priority <= 2 { ReadyLevel(s, x); }
  }

  lemma ReadyLevel(s: State, p: Pid)
    requires Homed(s, Out(s)) && Waits(s, p)
    ensures s.procs[p].priority <= TOP
  {
    assert ProcessOk(s.procs[p]);
  }

  // ---------------------------------------------------------------- when somebody is

  /** A process that has waited for 199 visits is promoted by the next one. */
  lemma {:induction false} LevelPromotes(s: State, pr: nat, i: nat, p: Pid)
    requires Homed(s, Out(s)) && pr < TOP && |s.queues| == QUEUES && i <= |s.queues[pr]|
    requires p in s.queues[pr][i..] && p in s.procs && s.procs[p].waitTicks >= 199
    ensures var r := AgeLevel(s, pr, i);
            p in r.procs && r.procs[p].priority == pr + 1 && r.procs[p].waitTicks == 0
    decreases |s.queues[pr]|, |s.queues[pr]| - i
  {
    hide Homed, Older, StrictlyOlder;
    assert i < |s.queues[pr]|;
    VisitKeeps(s, Out(s), pr, i);
    VisitOlder(s, pr, i, p);
    LevelDistinct(s, pr);
    var v := Visit(s, pr, i);
    assert v.queues[FINISHED_Q] == s.queues[FINISHED_Q];
    if s.queues[pr][i] == p {
      LevelDistinct(v, pr);
      PromotedStays(v, pr, 0, p);
    } else if Promotes(s, pr, i) {
      LevelPromotes(v, pr, 0, p);
    } else {
      LevelPromotes(v, pr, i + 1, p);
    }
  }

  /** The loop over a level leaves the processes of other levels alone. */
  lemma {:induction false} PromotedStays(s: State, pr: nat, i: nat, p: Pid)
    requires Homed(s, Out(s)) && pr <= TOP && |s.queues| == QUEUES && i <= |s.queues[pr]|
    requires p in s.procs && p !in s.queues[pr]
    ensures p in AgeLevel(s, pr, i).procs && AgeLevel(s, pr, i).procs[p] == s.procs[p]
    decreases |s.queues[pr]|, |s.queues[pr]| - i
  {
    hide Homed;
    if i < |s.queues[pr]| {
      VisitKeeps(s, Out(s), pr, i);
      var v := Visit(s, pr, i);
      assert s.queues[pr][i] in s.queues[pr];
      assert v.queues[FINISHED_Q] == s.queues[FINISHED_Q];
      assert p !in v.queues[pr];
      PromotedStays(v, pr, if Promotes(s, pr, i) then 0 else i + 1, p);
    }
  }

  /** How often the loop over a level can still visit `p`. */
  function VisitsLeft(s: State, pr: nat, i: nat, p: Pid): int
    requires |s.queues| == QUEUES && pr <= TOP && i <= |s.queues[pr]|
  {
    |s.queues[pr]| - if p in s.queues[pr][..i] then 1 else 0
  }

  /** The loop visits a process once for every promotion in its level, and once more, at most. */
  lemma {:induction false} LevelVisits(s: State, pr: nat, i: nat, p: Pid)
    requires Homed(s, Out(s)) && pr <= TOP && |s.queues| == QUEUES && i <= |s.queues[pr]|
    requires p in s.queues[pr] && p in s.procs
    requires pr == 2 || s.procs[p].waitTicks + VisitsLeft(s, pr, i, p) < 200
    ensures var r := AgeLevel(s, pr, i);
            && p in r.procs && r.procs[p].priority == s.procs[p].priority
            && s.procs[p].waitTicks <= r.procs[p].waitTicks <= s.procs[p].waitTicks + VisitsLeft(s, pr, i, p)
    decreases |s.queues[pr]|, |s.queues[pr]| - i
  {
    hide Homed;
    LevelDistinct(s, pr);
    if i < |s.queues[pr]| {
      VisitKeeps(s, Out(s), pr, i);
      var x, v := s.queues[pr][i], Visit(s, pr, i);
      assert v.queues[FINISHED_Q] == s.queues[FINISHED_Q];
      assert s.queues[pr][..i + 1] == s.queues[pr][..i] + [x];
      if Promotes(s, pr, i) {
        assert x != p;
        assert p in v.queues[pr] && |v.queues[pr]| == |s.queues[pr]| - 1;
        LevelVisits(v, pr, 0, p);
      } else {
        assert x == p ==> p !in s.queues[pr][..i];
        LevelVisits(v, pr, i + 1, p);
      }
    }
  }

  /** The loop over a level keeps the number of ready processes and who waits. */
  lemma {:induction false} LevelCounts(s: State, pr: nat, i: nat)
    requires Homed(s, Out(s)) && pr <= TOP && |s.queues| == QUEUES && i <= |s.queues[pr]|
    ensures ReadyCount(AgeLevel(s, pr, i)) == ReadyCount(s)
    decreases |s.queues[pr]|, |s.queues[pr]| - i
  {
    hide Homed;
    if i < |s.queues[pr]| {
      VisitKeeps(s, Out(s), pr, i);
      var v := Visit(s, pr, i);
      assert s.queues[pr][i] in s.queues[pr];
      assert v.queues[FINISHED_Q] == s.queues[FINISHED_Q];
      assert ReadyCount(v) == ReadyCount(s);
      LevelCounts(v, pr, if Promotes(s, pr, i) then 0 else i + 1);
    }
  }

  /** What one pass over level `pr` does to a ready process, when fewer than 200 are ready. */
  lemma LevelEffect(s: State, pr: nat, p: Pid)
    requires Homed(s, Out(s)) && pr <= TOP && |s.queues| == QUEUES && Waits(s, p)
    ensures var r, n := AgeLevel(s, pr, 0), ReadyCount(s);
            && Waits(r, p) && Out(r) == Out(s)
            && (s.procs[p].priority != pr ==> r.procs[p] == s.procs[p])
            && (s.procs[p].priority == pr < TOP && s.procs[p].waitTicks >= 199 ==>
                  r.procs[p].priority == pr + 1 && r.procs[p].waitTicks == 0)
            && (s.procs[p].priority == pr && (pr == TOP || s.procs[p].waitTicks + n < 200) ==>
                  && r.procs[p].priority == pr
                  && s.procs[p].waitTicks < r.procs[p].waitTicks <= s.procs[p].waitTicks + n)
  {
    hide Homed, AgeLevel;
    LevelDistinct(s, pr);
    AgeLevelOlder(s, pr, 0, p);
    assert s.queues[pr][0..] == s.queues[pr] && s.queues[pr][..0] == [];
    if s.procs[p].priority != pr {
      PromotedStays(s, pr, 0, p);
    } else {
      if pr < TOP && s.procs[p].waitTicks >= 199 { LevelPromotes(s, pr, 0, p); }
      if pr == TOP || s.procs[p].waitTicks + ReadyCount(s) < 200 { LevelVisits(s, pr, 0, p); }
    }
  }

  /** The whole of apply_aging on a ready process, when fewer than 200 are ready: after 199 visits the next
      pass promotes it by one level and restarts its wait; and it is not promoted as long as even a visit
      for every ready process would leave it below 200. */
  lemma AgeEffect(s: State, p: Pid)
    requires Homed(s, Out(s)) && |s.queues| == QUEUES && Waits(s, p) && ReadyCount(s) < 200
    ensures var r, n := Age(s), ReadyCount(s);
            && Waits(r, p)
            && (s.procs[p].priority < 2 && s.procs[p].waitTicks >= 199 ==>
                  r.procs[p].priority == s.procs[p].priority + 1 && 0 < r.procs[p].waitTicks <= n)
            && (s.procs[p].priority == 2 || s.procs[p].waitTicks + n < 200 ==>
                  && r.procs[p].priority == s.procs[p].priority
                  && s.procs[p].waitTicks < r.procs[p].waitTicks <= s.procs[p].waitTicks + n)
  {
    hide Homed, AgeLevel;
    ReadyLevel(s, p);
    var s1 := AgeLevel(s, 0, 0);
    var s2 := AgeLevel(s1, 1, 0);
    LevelCounts(s, 0, 0);
    LevelCounts(s1, 1, 0);
    LevelEffect(s, 0, p);
    LevelEffect(s1, 1, p);
    LevelEffect(s2, 2, p);
  }
}
