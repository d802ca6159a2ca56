/** The pipe of Kernel/ipc/pipe.c on values. Interrupts are off inside a system call, so a read
    or a write runs without interference until it returns or goes to sleep on a semaphore; such a
    stretch is one step. The semaphores are wake-up hints: their values drift from the number of
    bytes and of free places. */
module PipeSpec {
  import opened Semaphore

  const PIPE_SIZE := 4096
  const MAX_WAKE := 100

  /** `sent` and `received` are the bytes ever accepted and delivered, in order. */
  datatype Pipe = Pipe(
    data: seq<char>, readers: nat, writers: nat, items: Sem, spaces: Sem,
    sent: seq<char>, received: seq<char>)

  const NewPipe := Pipe([], 0, 0, Sem(0, []), Sem(PIPE_SIZE, []), [], [])

  /** The bytes are delivered in the order in which they were accepted, none lost or doubled. */
  ghost predicate Fifo(p: Pipe) {
    && |p.data| <= 4096
    && p.received + p.data == p.sent
    && Ok(p.items) && Ok(p.spaces)
  }

  /** What a stretch of a read or a write did: the pipe it leaves, how far the caller got, and
      whether the caller fell asleep. */
  datatype Reading = Reading(pipe: Pipe, got: seq<char>, asleep: bool)
  datatype Writing = Writing(pipe: Pipe, done: nat, asleep: bool)

  /** Takes one byte and signals sem_spaces. */
  function TakeByte(p: Pipe): Pipe
    requires p.data != []
  {
    p.(data := p.data[1..], received := p.received + [p.data[0]], spaces := Signal(p.spaces).0)
  }

  /** Puts one byte and signals sem_items. */
  function PutByte(p: Pipe, c: char): Pipe {
    p.(data := p.data + [c], sent := p.sent + [c], items := Signal(p.items).0)
  }

  /** The loop of pipe_read, from any iteration on. It ends because every round that does not return
      takes a byte or uses up a unit of the hint. */
  function Read(p: Pipe, me: Pid, want: nat, got: seq<char>): Reading
    requires |got| <= want
    decreases want - |got| + if p.items.value > 0 then p.items.value else 0
  {
    if |got| == want then Reading(p, got, false)
    else if p.data == [] && p.writers == 0 then Reading(p, got, false)
    else if p.data != [] then Read(TakeByte(p), me, want, got + [p.data[0]])
    else if got != [] then Reading(p, got, false)
    else
      var (items, granted) := Wait(p.items, me);
      if granted then Read(p.(items := items), me, want, got)
      else Reading(p.(items := items), got, true)
  }

  /** The loop of pipe_write, from any iteration on. */
  function Write(p: Pipe, me: Pid, bytes: seq<char>, done: nat): Writing
    requires done <= |bytes|
    decreases |bytes| - done + if p.spaces.value > 0 then p.spaces.value else 0
  {
    if done == |bytes| then Writing(p, done, false)
    else if p.readers == 0 then Writing(p, done, false)
    else if |p.data| < PIPE_SIZE then Write(PutByte(p, bytes[done]), me, bytes, done + 1)
    else
      var (spaces, granted) := Wait(p.spaces, me);
      if granted then Write(p.(spaces := spaces), me, bytes, done)
      else Writing(p.(spaces := spaces), done, true)
  }

  function SignalMany(s: Sem, n: nat): Sem
    decreases n
  {
    if n == 0 then s else SignalMany(Signal(s).0, n - 1)
  }

  /** pipe_open_by_id */
  function Open(p: Pipe, writer: bool): Pipe {
    if writer then p.(writers := p.writers + 1) else p.(readers := p.readers + 1)
  }

  function DropEnd(p: Pipe, writer: bool): Pipe {
    if writer then (if p.writers > 0 then p.(writers := p.writers - 1) else p)
    else if p.readers > 0 then p.(readers := p.readers - 1) else p
  }

  predicate LastWriter(p: Pipe, writer: bool) {
    writer && p.writers == 1
  }

  /** pipe_close_by_id on a pipe that survives it: the last writer wakes readers, 100 at most. */
  function Close(p: Pipe, writer: bool): Pipe {
    var d := DropEnd(p, writer);
    if LastWriter(p, writer) then
      d.(items := SignalMany(d.items, if d.readers < MAX_WAKE then d.readers else MAX_WAKE))
    else d
  }

  /** The pipe is destroyed with its last end. */
  predicate Dies(p: Pipe, writer: bool) {
    DropEnd(p, writer).readers == 0 && DropEnd(p, writer).writers == 0
  }

  // ---------------------------------------------------------------- first in, first out

  lemma {:induction false} SignalManyWakes(s: Sem, n: nat)
    requires Ok(s)
    ensures Ok(SignalMany(s, n))
    ensures SignalMany(s, n).queue == s.queue[Least(n, |s.queue|)..]
    ensures SignalMany(s, n).value == s.value + if n > |s.queue| then n - |s.queue| else 0
    decreases n
  {
    if n == 0 {
      assert s.queue[0..] == s.queue;
    } else if s.queue == [] {
      var t := s.(value := s.value + 1);
      SignalManyWakes(t, n - 1);
      assert SignalMany(s, n) == SignalMany(t, n - 1);
    } else {
      var t := s.(queue := s.queue[1..]);
      SignalManyWakes(t, n - 1);
      assert SignalMany(s, n) == SignalMany(t, n - 1);
      assert s.queue[1..][Least(n, |s.queue|) - 1..] == s.queue[Least(n, |s.queue|)..];
    }
  }

  function Least(a: nat, b: nat): nat {
    if a < b then a else b
  }

  /** A read delivers the oldest bytes; it takes as many as it can, and leaves the sleeping readers
      alone. It spends hints only before it sleeps, and then all of them. It returns short only when the
      pipe is empty, and empty-handed only at end of file. */
  ghost predicate ReadsWell(p: Pipe, me: Pid, want: nat, got: seq<char>, r: Reading)
    requires |got| <= want
  {
    var n := Least(want - |got|, |p.data|);
    && Fifo(r.pipe)
    && r.got == got + p.data[..n] && r.pipe.data == p.data[n..]
    && r.pipe.received == p.received + p.data[..n] && r.pipe.sent == p.sent
    && r.pipe.readers == p.readers && r.pipe.writers == p.writers
    && r.pipe.spaces == SignalMany(p.spaces, n)
    && r.pipe.items.queue == p.items.queue + (if r.asleep then [me] else [])
    && r.pipe.items.value == (if r.asleep then 0 else p.items.value)
    && (r.asleep ==> r.got == [] && want > 0 && r.pipe.data == [] && p.writers > 0)
    && (!r.asleep && r.got == [] && want > 0 ==> r.pipe.data == [] && p.writers == 0)
  }

  lemma ReadsWellTake(p: Pipe, me: Pid, want: nat, got: seq<char>, r: Reading)
    requires |got| < want && p.data != []
    requires ReadsWell(TakeByte(p), me, want, got + [p.data[0]], r)
    ensures ReadsWell(p, me, want, got, r)
  {
    var t, got' := TakeByte(p), got + [p.data[0]];
    var n := Least(want - |got|, |p.data|);
    assert n - 1 == Least(want - |got'|, |t.data|);
    assert p.data[..n] == [p.data[0]] + t.data[..n - 1];
    assert got + p.data[..n] == got' + t.data[..n - 1];
    assert p.received + p.data[..n] == t.received + t.data[..n - 1];
    assert p.data[n..] == t.data[n - 1..];
  }

  lemma {:induction false} ReadCorrect(p: Pipe, me: Pid, want: nat, got: seq<char>)
    requires Fifo(p) && |got| <= want
    ensures ReadsWell(p, me, want, got, Read(p, me, want, got))
    decreases want - |got| + if p.items.value > 0 then p.items.value else 0
  {
    if |got| == want || p.data == [] {
      if |got| < want && p.writers > 0 && got == [] && p.items.value > 0 {
        ReadCorrect(p.(items := Wait(p.items, me).0), me, want, got);
      }
    } else {
      assert TakeByte(p).received + TakeByte(p).data == p.received + p.data;
      ReadCorrect(TakeByte(p), me, want, got + [p.data[0]]);
      ReadsWellTake(p, me, want, got, Read(p, me, want, got));
    }
  }

  /** A write appends the next bytes of the caller in order; it sleeps only on a full pipe, and stops
      short only when nobody can read. */
  ghost predicate WritesWell(p: Pipe, me: Pid, bytes: seq<char>, done: nat, w: Writing) {
    && done <= w.done <= |bytes|
    && Fifo(w.pipe)
    && w.pipe.data == p.data + bytes[done..w.done]
    && w.pipe.sent == p.sent + bytes[done..w.done] && w.pipe.received == p.received
    && w.pipe.readers == p.readers && w.pipe.writers == p.writers
    && w.pipe.items == SignalMany(p.items, w.done - done)
    && w.pipe.spaces.queue == p.spaces.queue + (if w.asleep then [me] else [])
    && w.pipe.spaces.value == (if w.asleep then 0 else p.spaces.value)
    && (w.asleep ==> |w.pipe.data| == 4096 && p.readers > 0 && w.done < |bytes|)
    && (!w.asleep ==> w.done == |bytes| || (p.readers == 0 && w.done == done))
  }

  lemma WritesWellPut(p: Pipe, me: Pid, bytes: seq<char>, done: nat, w: Writing)
    requires done < |bytes| && p.readers > 0
    requires WritesWell(PutByte(p, bytes[done]), me, bytes, done + 1, w)
    ensures WritesWell(p, me, bytes, done, w)
  {
    assert bytes[done..w.done] == [bytes[done]] + bytes[done + 1..w.done];
    assert p.data + bytes[done..w.done] == p.data + [bytes[done]] + bytes[done + 1..w.done];
    assert p.sent + bytes[done..w.done] == p.sent + [bytes[done]] + bytes[done + 1..w.done];
  }

  lemma {:induction false} WriteCorrect(p: Pipe, me: Pid, bytes: seq<char>, done: nat)
    requires Fifo(p) && done <= |bytes|
    ensures WritesWell(p, me, bytes, done, Write(p, me, bytes, done))
    decreases |bytes| - done + if p.spaces.value > 0 then p.spaces.value else 0
  {
    if done == |bytes| || p.readers == 0 {
      assert bytes[done..done] == [];
    } else if |p.data| < PIPE_SIZE {
      var t := PutByte(p, bytes[done]);
      assert t.received + t.data == p.received + p.data + [bytes[done]];
      WriteCorrect(t, me, bytes, done + 1);
      WritesWellPut(p, me, bytes, done, Write(p, me, bytes, done));
    } else if p.spaces.value > 0 {
      WriteCorrect(p.(spaces := Wait(p.spaces, me).0), me, bytes, done);
    }
  }

  /** Closing an end keeps the bytes. When it closes the last writer it wakes every sleeping reader if
      and only if they number at most 100 and at most the read ends. */
  lemma CloseCorrect(p: Pipe, writer: bool)
    requires Fifo(p)
    ensures Fifo(Close(p, writer))
    ensures Close(p, writer) == DropEnd(p, writer).(items := Close(p, writer).items)
    ensures !LastWriter(p, writer) ==> Close(p, writer).items == p.items
    ensures LastWriter(p, writer) ==>
              && Close(p, writer).items.queue == p.items.queue[Woken(p)..]
              && Close(p, writer).items.value == p.items.value + Least(p.readers, MAX_WAKE) - Woken(p)
    ensures LastWriter(p, writer) ==>
              (Close(p, writer).items.queue == [] <==> |p.items.queue| <= p.readers && |p.items.queue| <= MAX_WAKE)
  {
    hide SignalMany;
    SignalManyWakes(p.items, if p.readers < MAX_WAKE then p.readers else MAX_WAKE);
  }

  /** How many sleeping readers the last writer wakes. */
  function Woken(p: Pipe): nat {
    Least(Least(p.readers, MAX_WAKE), |p.items.queue|)
  }
}
