/** Kernel/ipc/pipe.c: the ring buffer behind a pipe, with its reference counts and semaphores.
    The pipe's semaphores are its own; their ids are not modelled. */
module PipeRing {
  import opened Semaphore
  import opened PipeSpec

  /** The `n` bytes of a ring that start at `from`. */
  function RingBytes(b: seq<char>, from: nat, n: nat): seq<char>
    requires |b| == PIPE_SIZE
  {
    seq(n, i requires 0 <= i < n => b[(from + i) % PIPE_SIZE])
  }

  lemma RingTail(b: seq<char>, from: nat, n: nat)
    requires |b| == PIPE_SIZE && from < PIPE_SIZE && n > 0
    ensures |RingBytes(b, from, n)| == n && RingBytes(b, from, n)[0] == b[from]
    ensures RingBytes(b, (from + 1) % PIPE_SIZE, n - 1) == RingBytes(b, from, n)[1..]
  {
    var s, t := RingBytes(b, from, n), RingBytes(b, (from + 1) % PIPE_SIZE, n - 1);
    forall i | 0 <= i < n - 1 ensures t[i] == s[1..][i] {
      assert ((from + 1) % PIPE_SIZE + i) % PIPE_SIZE == (from + (i + 1)) % PIPE_SIZE;
    }
  }

  lemma RingAppend(b: seq<char>, from: nat, n: nat, c: char)
    requires |b| == PIPE_SIZE && from < PIPE_SIZE && n < PIPE_SIZE
    ensures |RingBytes(b, from, n)| == n
    ensures RingBytes(b[(from + n) % PIPE_SIZE := c], from, n + 1) == RingBytes(b, from, n) + [c]
  {
    var at := (from + n) % PIPE_SIZE;
    var s, t := RingBytes(b, from, n) + [c], RingBytes(b[at := c], from, n + 1);
    forall i | 0 <= i < n ensures t[i] == s[i] {
      assert (from + i) % PIPE_SIZE != at;
    }
  }

  class Ring {
    const buffer: array<char>
    var readPos: nat
    var writePos: nat
    var count: nat
    var readers: nat
    var writers: nat
    var items: Sem
    var spaces: Sem
    var mutex: Sem
    ghost var sent: seq<char>
    ghost var received: seq<char>

    /** Between steps nobody holds the pipe's mutex or waits for it. */
    ghost predicate Valid()
      reads this, buffer
    {
      && buffer.Length == PIPE_SIZE
      && readPos < PIPE_SIZE && count <= PIPE_SIZE
      && writePos == (readPos + count) % PIPE_SIZE
      && mutex == Sem(1, [])
      && Fifo(Model())
    }

    ghost function Model(): Pipe
      requires buffer.Length == PIPE_SIZE
      reads this, buffer
    {
      Pipe(RingBytes(buffer[..], readPos, count), readers, writers, items, spaces, sent, received)
    }

    /** pipe_create, once its slot and semaphores are found. */
    constructor ()
      ensures Valid() && Model() == NewPipe && fresh(buffer)
    {
      buffer := new char[PIPE_SIZE];
      readPos, writePos, count, readers, writers := 0, 0, 0, 0, 0;
      items, spaces, mutex := Sem(0, []), Sem(PIPE_SIZE, []), Sem(1, []);
      sent, received := [], [];
    }

    /** The branch of pipe_read that takes a byte, with both signals. */
    method TakeOne() returns (c: char)
      requires Valid() && count > 0
      modifies this
      ensures Valid() && c == old(Model()).data[0] && Model() == TakeByte(old(Model()))
    {
      hide RingBytes;
      RingTail(buffer[..], readPos, count);
      c := buffer[readPos];
      received := received + [c];
      readPos := (readPos + 1) % PIPE_SIZE;
      count := count - 1;
      spaces := Signal(spaces).0;
      assert received + Model().data == old(received) + old(Model()).data;
    }

    /** The branch of pipe_write that puts a byte, with both signals. */
    method PutOne(c: char)
      requires Valid() && count < PIPE_SIZE
      modifies this, buffer
      ensures Valid() && Model() == PutByte(old(Model()), c)
    {
      hide RingBytes;
      RingAppend(buffer[..], readPos, count, c);
      ghost var b := buffer[..];
      buffer[writePos] := c;
      assert buffer[..] == b[writePos := c];
      sent := sent + [c];
      writePos := (writePos + 1) % PIPE_SIZE;
      count := count + 1;
      items := Signal(items).0;
      assert received + Model().data == received + old(Model()).data + [c];
    }

    /** pipe_read up to its return or its sleep on sem_items; `start` is what an earlier stretch of the
        same call got. */
    method ReadStretch(me: Pid, want: nat, start: seq<char>) returns (got: seq<char>, asleep: bool)
      requires Valid() && |start| <= want
      modifies this
      ensures Valid()
      ensures Reading(Model(), got, asleep) == Read(old(Model()), me, want, start)
    {
      hide Fifo;
      got, asleep := start, false;
      while |got| < want
        invariant Valid() && |got| <= want && !asleep
        invariant Read(Model(), me, want, got) == Read(old(Model()), me, want, start)
        decreases want - |got| + if items.value > 0 then items.value else 0
      {
        mutex := Wait(mutex, me).0;
        if count == 0 && writers == 0 {
          mutex := Signal(mutex).0;
          break;
        }
        if count > 0 {
          mutex := Signal(mutex).0;
          var c := TakeOne();
          got := got + [c];
        } else {
          if got != [] {
            mutex := Signal(mutex).0;
            break;
          }
          mutex := Signal(mutex).0;
          asleep := WaitForItems(me);
          if asleep {
            break;
          }
        }
      }
    }

    /** sem_wait_by_id(p->sem_items) */
    method WaitForItems(me: Pid) returns (slept: bool)
      requires Valid()
      modifies this`items
      ensures Valid() && Model() == old(Model()).(items := Wait(old(items), me).0) && slept == !Wait(old(items), me).1
    {
      slept := !Wait(items, me).1;
      items := Wait(items, me).0;
    }

    /** sem_wait_by_id(p->sem_spaces) */
    method WaitForSpaces(me: Pid) returns (slept: bool)
      requires Valid()
      modifies this`spaces
      ensures Valid() && Model() == old(Model()).(spaces := Wait(old(spaces), me).0)
              && slept == !Wait(old(spaces), me).1
    {
      slept := !Wait(spaces, me).1;
      spaces := Wait(spaces, me).0;
    }

    /** pipe_write up to its return or its sleep on sem_spaces. */
    method WriteStretch(me: Pid, bytes: seq<char>, start: nat) returns (done: nat, asleep: bool)
      requires Valid() && start <= |bytes|
      modifies this, buffer
      ensures Valid()
      ensures Writing(Model(), done, asleep) == Write(old(Model()), me, bytes, start)
    {
      hide Fifo;
      done, asleep := start, false;
      while done < |bytes|
        invariant Valid() && done <= |bytes| && !asleep
        invariant Write(Model(), me, bytes, done) == Write(old(Model()), me, bytes, start)
        decreases |bytes| - done + if spaces.value > 0 then spaces.value else 0
      {
        mutex := Wait(mutex, me).0;
        if readers == 0 {
          mutex := Signal(mutex).0;
          break;
        }
        if count < PIPE_SIZE {
          mutex := Signal(mutex).0;
          PutOne(bytes[done]);
          done := done + 1;
        } else {
          mutex := Signal(mutex).0;
          asleep := WaitForSpaces(me);
          if asleep {
            break;
          }
        }
      }
    }

    /** pipe_open_by_id */
    method OpenEnd(me: Pid, writer: bool)
      requires Valid()
      modifies this
      ensures Valid() && Model() == Open(old(Model()), writer)
    {
      mutex := Wait(mutex, me).0;
      if writer {
        writers := writers + 1;
      } else {
        readers := readers + 1;
      }
      mutex := Signal(mutex).0;
    }

    /** pipe_close_by_id; `dead` tells that the slot is released. */
    method CloseEnd(me: Pid, writer: bool) returns (dead: bool)
      requires Valid()
      modifies this
      ensures dead == Dies(old(Model()), writer)
      ensures !dead ==> Valid() && Model() == Close(old(Model()), writer)
      ensures dead ==> readPos == writePos == count == readers == writers == 0 && items.queue == spaces.queue == []
    {
      hide Fifo, SignalMany, RingBytes;
      ghost var m := Model();
      assert Fifo(Close(m, writer)) by { CloseCorrect(m, writer); }
      mutex := Wait(mutex, me).0;
      var wasLastWriter := false;
      if writer {
        if writers > 0 {
          writers := writers - 1;
          wasLastWriter := writers == 0;
        }
      } else {
        if readers > 0 {
          readers := readers - 1;
        }
      }
      dead := readers == 0 && writers == 0;
      if dead {
        readPos, writePos, count := 0, 0, 0;
        mutex := Signal(mutex).0;
        Discard();
        return;
      }
      if wasLastWriter {
        WakeReaders();
      }
      mutex := Signal(mutex).0;
    }

    /** The semaphores of a dying pipe are closed, which forgets whoever sleeps on them. */
    method Discard()
      modifies this`items, this`spaces, this`mutex
      ensures items.queue == spaces.queue == mutex.queue == []
    {
      items, spaces, mutex := items.(queue := []), spaces.(queue := []), mutex.(queue := []);
    }

    /** The loop of pipe_close_by_id that signals once for every reader, 100 times at most. */
    method WakeReaders()
      modifies this`items
      ensures items == SignalMany(old(items), if readers < MAX_WAKE then readers else MAX_WAKE)
    {
      ghost var n := if readers < MAX_WAKE then readers else MAX_WAKE;
      var i := 0;
      while i < readers && i < MAX_WAKE
        invariant 0 <= i <= n
        invariant SignalMany(items, n - i) == SignalMany(old(items), n)
      {
        items := Signal(items).0;
        i := i + 1;
      }
    }
  }
}
