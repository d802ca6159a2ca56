/** The table of semaphores of Kernel/ipc/semaphore.c and its system calls by id. */
module SemaphoreTable {
  import opened Semaphore

  const MAX_SEMAPHORES := 64

  datatype Slot = Slot(used: bool, id: nat, sem: Sem, refcount: int)

  /** semaphores[] and next_sem_id. The intrusive wait queue is a sequence. */
  class Table {
    var slots: seq<Slot>
    var nextId: nat

    ghost predicate Valid()
      reads this
    {
      && |slots| == MAX_SEMAPHORES && nextId >= 1
      && (forall i :: 0 <= i < |slots| && slots[i].used ==> 1 <= slots[i].id < nextId && Ok(slots[i].sem))
      && (forall i, j :: 0 <= i < j < |slots| && slots[i].used && slots[j].used ==> slots[i].id != slots[j].id)
    }

    constructor ()
      ensures Valid() && |slots| == 64 && nextId == 1 && forall i :: 0 <= i < |slots| ==> !slots[i].used
    {
      slots := seq(MAX_SEMAPHORES, _ => Slot(false, 0, Sem(0, []), 0));
      nextId := 1;
    }

    /** sem_get_by_id: -1 when there is no such semaphore. */
    method Find(id: nat) returns (k: int)
      requires Valid()
      ensures k == -1 ==> forall i :: 0 <= i < |slots| && slots[i].used ==> slots[i].id != id
      ensures k != -1 ==> 0 <= k < |slots| && slots[k].used && slots[k].id == id
    {
      if id == 0 {
        return -1;
      }
      for i := 0 to |slots|
        invariant forall j :: 0 <= j < i && slots[j].used ==> slots[j].id != id
      {
        if slots[i].used && slots[i].id == id {
          return i;
        }
      }
      k := -1;
    }

    /** sem_alloc: 0 when the table is full; ids are never reused. */
    method Alloc(initial: nat) returns (id: nat)
      requires Valid()
      modifies this
      ensures Valid()
      ensures id == 0 ==> slots == old(slots) && nextId == old(nextId)
      ensures id == 0 <==> forall i :: 0 <= i < |old(slots)| ==> old(slots)[i].used
      ensures id != 0 ==>
                && id == old(nextId) && nextId == id + 1
                && exists k :: 0 <= k < |slots| && !old(slots)[k].used
                               && (forall j :: 0 <= j < k ==> old(slots)[j].used)
                               && slots == old(slots)[k := Slot(true, id, Sem(initial, []), 1)]
    {
      for i := 0 to |slots|
        invariant slots == old(slots) && nextId == old(nextId)
        invariant forall j :: 0 <= j < i ==> slots[j].used
      {
        if !slots[i].used {
          id := nextId;
          nextId := nextId + 1;
          slots := slots[i := Slot(true, id, Sem(initial, []), 1)];
          return;
        }
      }
      id := 0;
    }

    /** sem_wait_by_id up to the point where the caller yields. */
    method WaitById(id: nat, me: Pid) returns (found: bool, slept: bool)
      requires Valid()
      modifies this`slots
      ensures Valid()
      ensures !found ==> slots == old(slots) && forall i :: 0 <= i < |slots| && slots[i].used ==> slots[i].id != id
      ensures found ==>
                exists k :: 0 <= k < |slots| && old(slots)[k].used && old(slots)[k].id == id
                            && slots == old(slots)[k := old(slots)[k].(sem := Wait(old(slots)[k].sem, me).0)]
                            && slept == !Wait(old(slots)[k].sem, me).1
    {
      var k := Find(id);
      if k == -1 {
        return false, false;
      }
      var s := slots[k].sem;
      if s.value > 0 {
        slots := slots[k := slots[k].(sem := s.(value := s.value - 1))];
        return true, false;
      }
      slots := slots[k := slots[k].(sem := s.(queue := s.queue + [me]))];
      return true, true;
    }

    /** sem_signal_by_id: `woken` is the process handed to scheduler_unblock_process, if any. */
    method SignalById(id: nat) returns (found: bool, woken: seq<Pid>)
      requires Valid()
      modifies this`slots
      ensures Valid()
      ensures !found ==> slots == old(slots) && forall i :: 0 <= i < |slots| && slots[i].used ==> slots[i].id != id
      ensures found ==>
                exists k :: 0 <= k < |slots| && old(slots)[k].used && old(slots)[k].id == id
                            && slots == old(slots)[k := old(slots)[k].(sem := Signal(old(slots)[k].sem).0)]
                            && woken == Signal(old(slots)[k].sem).1
    {
      var k := Find(id);
      if k == -1 {
        return false, [];
      }
      var s := slots[k].sem;
      if s.queue != [] {
        woken := [s.queue[0]];
        slots := slots[k := slots[k].(sem := s.(queue := s.queue[1..]))];
      } else {
        woken := [];
        slots := slots[k := slots[k].(sem := s.(value := s.value + 1))];
      }
      found := true;
    }

    /** sem_set_by_id: a negative value is refused. */
    method SetById(id: nat, newValue: int) returns (done: bool, woken: seq<Pid>)
      requires Valid()
      modifies this`slots
      ensures Valid()
      ensures !done ==> slots == old(slots)
      ensures done ==>
                newValue >= 0
                && exists k :: 0 <= k < |slots| && old(slots)[k].used && old(slots)[k].id == id
                               && slots == old(slots)[k := old(slots)[k].(sem := Set(old(slots)[k].sem, newValue).0)]
                               && woken == Set(old(slots)[k].sem, newValue).1
      ensures !done <==> newValue < 0 || forall i :: 0 <= i < |old(slots)| && old(slots)[i].used ==>
              old(slots)[i].id != id
    {
      var k := Find(id);
      if k == -1 || newValue < 0 {
        return false, [];
      }
      var all := slots[k].sem.queue;
      var queue, awaken := all, 0;
      woken := [];
      while awaken < newValue && queue != []
        invariant 0 <= awaken <= newValue && awaken <= |all| && queue == all[awaken..] && woken == all[..awaken]
        decreases newValue - awaken
        modifies {}
      {
        woken := woken + [queue[0]];
        queue := queue[1..];
        awaken := awaken + 1;
      }
      slots := slots[k := slots[k].(sem := Sem(newValue - awaken, queue))];
      done := true;
    }

    /** sem_close_by_id: the last reference frees the slot and forgets its sleepers. */
    method CloseById(id: nat) returns (found: bool)
      requires Valid()
      modifies this`slots
      ensures Valid()
      ensures !found ==> slots == old(slots) && forall i :: 0 <= i < |slots| && slots[i].used ==> slots[i].id != id
      ensures found ==>
                exists k :: 0 <= k < |slots| && old(slots)[k].used && old(slots)[k].id == id
                            && var s := old(slots)[k];
                            slots == old(slots)[k := if s.refcount - 1 <= 0 then
                                                       Slot(false, id, Sem(s.sem.value, []), s.refcount - 1)
                                                     else s.(refcount := s.refcount - 1)]
    {
      var k := Find(id);
      if k == -1 {
        return false;
      }
      var s := slots[k].(refcount := slots[k].refcount - 1);
      if s.refcount <= 0 {
        s := s.(used := false, sem := Sem(s.sem.value, []));
      }
      slots := slots[k := s];
      found := true;
    }
  }
}
