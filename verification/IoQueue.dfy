/** ioqueue.c: the 64-slot ring buffer between one producer and one consumer.

    Both routines run with interrupts off, so a call is one atomic step until it blocks, and what follows a
    wake-up is one atomic step until it returns or blocks again. A thread that finds the queue full (or
    empty) takes the queue's lock, registers itself and sleeps while holding the lock; the other side wakes
    it by its registration. The lock is the binary semaphore of sync.c, so a thread may also be asleep in
    its list of waiters; when it gets the lock after that, it registers without looking at the queue again. */
module IoQueues {
  import opened Sequences

  const SIZE := 64

  datatype Who = Producer | Consumer

  /** Where a thread is: outside, asleep in (or woken from) `sema_down`, or past its registration.
      `contended` records whether the lock was taken when the call asked for it. */
  datatype Pc = Out | Queued | Parked(contended: bool)

  datatype Side = Side(pc: Pc, awake: bool, registered: bool, byte: nat)

  datatype State = State(
    buf: seq<nat>, head: nat, tail: nat,
    value: nat, waiters: seq<Who>,
    p: Side, c: Side,
    written: seq<nat>, read: seq<nat>)

  function NextPos(pos: nat): nat { (pos + 1) % SIZE }

  function Get(s: State, w: Who): Side { if w.Producer? then s.p else s.c }

  function Put(s: State, w: Who, x: Side): State { if w.Producer? then s.(p := x) else s.(c := x) }

  function Other(w: Who): Who { if w.Producer? then Consumer else Producer }

  predicate Full(s: State) { NextPos(s.head) == s.tail }

  predicate Empty(s: State) { s.head == s.tail }

  /** The loop condition of `ioqueue_putchar`, respectively `ioqueue_getchar`. */
  predicate Stuck(s: State, w: Who) { if w.Producer? then Full(s) else Empty(s) }

  /** `sema_down` on a taken lock. */
  function Enqueue(s: State, w: Who): State {
    Put(s, w, Get(s, w).(pc := Queued, awake := false)).(waiters := s.waiters + [w])
  }

  /** The lock is taken; `ioqueue_wait` registers and blocks. */
  function Park(s: State, w: Who, contended: bool): State {
    Put(s, w, Get(s, w).(pc := Parked(contended), awake := false, registered := true)).(value := 0)
  }

  /** `wakeup` of the other side if it is registered. */
  function Wake(s: State, w: Who): State {
    if Get(s, w).registered then Put(s, w, Get(s, w).(registered := false, awake := true)) else s
  }

  predicate InBounds(s: State) { s.head < |s.buf| && s.tail < |s.buf| }

  /** The part of the routine after the loop. */
  function Transfer(s: State, w: Who): State
    requires InBounds(s)
  {
    var x := Get(s, w).(pc := Out, awake := true);
    var t := if w.Producer? then
        s.(buf := s.buf[s.head := s.p.byte], head := NextPos(s.head), written := s.written + [s.p.byte])
      else
        s.(tail := NextPos(s.tail), read := s.read + [s.buf[s.tail]]);
    Wake(Put(t, w, x), Other(w))
  }

  function Loop(s: State, w: Who): State
    requires InBounds(s)
  {
    if !Stuck(s, w) then Transfer(s, w)
    else if s.value == 0 then Enqueue(s, w)
    else Park(s, w, false)
  }

  /** `lock_release`: the first waiter is made runnable. */
  function Release(s: State): State {
    if s.waiters == [] then s.(value := s.value + 1)
    else Put(s, s.waiters[0], Get(s, s.waiters[0]).(awake := true)).(value := s.value + 1, waiters := s.waiters[1..])
  }

  function ResumeFn(s: State, w: Who): State
    requires InBounds(s)
  {
    if Get(s, w).pc.Queued? then
      if s.value == 0 then Enqueue(s, w) else Park(s, w, true)
    else
      Loop(Release(s), w)
  }

  datatype Action = PutChar(byte: nat) | GetChar | Resume(w: Who)

  /** The thread that takes the step. */
  function Actor(a: Action): Who {
    match a
    case PutChar(_) => Producer
    case GetChar => Consumer
    case Resume(w) => w
  }

  predicate Possible(s: State, a: Action) {
    match a
    case PutChar(_) => s.p.pc.Out? && s.p.awake
    case GetChar => s.c.pc.Out? && s.c.awake
    case Resume(w) => !Get(s, w).pc.Out? && Get(s, w).awake
  }

  function Step(s: State, a: Action): State
    requires InBounds(s)
  {
    match a
    case PutChar(b) => Loop(s.(p := s.p.(byte := b)), Producer)
    case GetChar => Loop(s, Consumer)
    case Resume(w) => ResumeFn(s, w)
  }

  /** ASSERT(*waiter == NULL) of `ioqueue_wait`, the ASSERT and the status test of `wakeup` and
      `thread_unblock`, and the ASSERTs of sync.c on the lock, for the step about to be taken. */
  ghost predicate AssertsHold(s: State, a: Action) {
    var w := Actor(a);
    && !Get(s, w).registered && w !in s.waiters && s.value <= 1
    && (Get(s, Other(w)).registered ==> !Get(s, Other(w)).awake)
    && (a.Resume? && Get(s, w).pc.Parked? ==> s.value == 0)
    && (forall u :: u in s.waiters ==> !Get(s, u).awake)
  }

  // ---------------------------------------------------------------- what every step keeps

  /** The ring holds exactly the bytes written and not yet read, in order. */
  ghost predicate Contents(s: State) {
    && |s.buf| == SIZE && s.head < SIZE && s.tail < SIZE
    && |s.read| <= |s.written| && |s.written| - |s.read| < SIZE
    && s.read == s.written[..|s.read|]
    && s.head == |s.written| % SIZE && s.tail == |s.read| % SIZE
    && (forall i :: |s.read| <= i < |s.written| ==> s.buf[i % SIZE] == s.written[i])
  }

  ghost predicate SideInv(s: State, w: Who) {
    var x := Get(s, w);
    && (x.pc.Out? ==> x.awake)
    && (x.registered <==> x.pc.Parked? && !x.awake)
    && (w in s.waiters <==> x.pc.Queued? && !x.awake)
    // registered exactly for the reason the routine waits, unless the lock was contended
    && (x.registered ==> (Stuck(s, w) <==> !x.pc.contended))
  }

  /** A queued thread sleeps, or stays stuck, only while the other side holds the lock. */
  ghost predicate QueuedInv(s: State, w: Who) {
    Get(s, w).pc.Queued? && (!Get(s, w).awake || Stuck(s, w)) ==> !Get(s, w).awake && Get(s, Other(w)).pc.Parked?
  }

  ghost predicate LockInv(s: State) {
    && s.value <= 1
    && (s.value == 0 <==> s.p.pc.Parked? || s.c.pc.Parked?)
    && !(s.p.pc.Parked? && s.c.pc.Parked?)
    && NoDup(s.waiters)
  }

  ghost predicate QueueInv(s: State) {
    && Contents(s) && LockInv(s)
    && SideInv(s, Producer) && SideInv(s, Consumer)
    && QueuedInv(s, Producer) && QueuedInv(s, Consumer)
  }

  /** The state in which thread `w` is running at the head of its loop. */
  ghost predicate AtLoop(s: State, w: Who) {
    && Contents(s) && LockInv(s) && SideInv(s, Producer) && SideInv(s, Consumer) && Get(s, w).pc.Out?
    && (Get(s, Other(w)).pc.Queued? ==> Get(s, Other(w)).awake)
  }

  ghost predicate Init(s: State) {
    && |s.buf| == SIZE && s.head == 0 && s.tail == 0 && s.value == 1 && s.waiters == []
    && s.p.pc == Out && s.p.awake && !s.p.registered && s.c.pc == Out && s.c.awake && !s.c.registered
    && s.written == [] && s.read == []
  }

  lemma NotFullRoom(s: State)
    requires Contents(s)
    ensures Full(s) <==> |s.written| - |s.read| == SIZE - 1
    ensures Empty(s) <==> |s.written| == |s.read|
  {
  }

  lemma ModNext(n: nat)
    ensures NextPos(n % SIZE) == (n + 1) % SIZE
  {
  }

  lemma WriteKeepsContents(s: State, b: nat)
    requires Contents(s) && !Full(s)
    ensures Contents(s.(buf := s.buf[s.head := b], head := NextPos(s.head), written := s.written + [b]))
  {
    NotFullRoom(s);
    ModNext(|s.written|);
    forall i | |s.read| <= i < |s.written| ensures i % SIZE != s.head {}
  }

  lemma ReadKeepsContents(s: State)
    requires Contents(s) && !Empty(s)
    ensures s.buf[s.tail] == s.written[|s.read|]
    ensures Contents(s.(tail := NextPos(s.tail), read := s.read + [s.buf[s.tail]]))
  {
    NotFullRoom(s);
    ModNext(|s.read|);
    var n := |s.read|;
    assert s.buf[n % SIZE] == s.written[n];
    assert s.read + [s.written[n]] == s.written[..n + 1];
  }

  lemma TransferKeeps(s: State, w: Who)
    requires AtLoop(s, w) && !Stuck(s, w)
    ensures QueueInv(Transfer(s, w))
    ensures !Stuck(Transfer(s, w), Other(w))
  {
    NotFullRoom(s);
    if w.Producer? { WriteKeepsContents(s, s.p.byte); } else { ReadKeepsContents(s); }
    NotFullRoom(Transfer(s, w));
  }

  lemma LoopKeeps(s: State, w: Who)
    requires AtLoop(s, w)
    ensures QueueInv(Loop(s, w))
  {
    NotFullRoom(s);
    if !Stuck(s, w) {
      TransferKeeps(s, w);
    } else {
      assert Other(w) !in [w] && w !in s.waiters;
    }
  }

  lemma OnlyOther(ws: seq<Who>, w: Who)
    requires w !in ws && NoDup(ws)
    ensures ws == [] || ws == [Other(w)]
  {
    assert |ws| >= 2 ==> ws[0] != ws[1];
    forall i | 0 <= i < |ws| ensures ws[i] == Other(w) { assert ws[i] in ws; }
  }

  lemma ReleaseKeeps(s: State, w: Who)
    requires QueueInv(s) && Get(s, w).pc.Parked? && Get(s, w).awake
    ensures var r := Release(s); AtLoop(Put(r, w, Get(r, w).(pc := Out)), w)
  {
    OnlyOther(s.waiters, w);
  }

  lemma ResumeKeeps(s: State, w: Who)
    requires QueueInv(s) && Possible(s, Resume(w))
    ensures QueueInv(ResumeFn(s, w))
  {
    if Get(s, w).pc.Queued? {
      assert w !in s.waiters;
    } else {
      ReleaseKeeps(s, w);
      var r := Release(s);
      LoopKeeps(Put(r, w, Get(r, w).(pc := Out)), w);
      assert ResumeFn(s, w) == Loop(Put(r, w, Get(r, w).(pc := Out)), w);
    }
  }

  lemma StepKeeps(s: State, a: Action)
    requires QueueInv(s) && Possible(s, a)
    ensures QueueInv(Step(s, a))
  {
    match a
    case PutChar(b) => LoopKeeps(s.(p := s.p.(byte := b)), Producer);
    case GetChar => LoopKeeps(s, Consumer);
    case Resume(w) => ResumeKeeps(s, w);
  }

  lemma StepAsserts(s: State, a: Action)
    requires QueueInv(s) && Possible(s, a)
    ensures AssertsHold(s, a)
  {
  }

  // ---------------------------------------------------------------- runs

  /** Actions that come one after the other; the indices stay inside the buffer. */
  predicate Legal(s: State, acts: seq<Action>)
    decreases |acts|
  {
    acts == [] || (InBounds(s) && Possible(s, acts[0]) && Legal(Step(s, acts[0]), acts[1..]))
  }

  function After(s: State, acts: seq<Action>): State
    requires Legal(s, acts)
    decreases |acts|
  {
    if acts == [] then s else After(Step(s, acts[0]), acts[1..])
  }

  lemma {:induction false} RunKeeps(s: State, acts: seq<Action>)
    requires QueueInv(s) && Legal(s, acts)
    ensures QueueInv(After(s, acts))
    decreases |acts|
  {
    if acts != [] {
      StepKeeps(s, acts[0]);
      RunKeeps(Step(s, acts[0]), acts[1..]);
    }
  }

  lemma InitHolds(s: State)
    requires Init(s)
    ensures QueueInv(s)
  {
  }

  /** First in, first out, over every interleaving and whatever happens to the lock: the bytes read are a
      prefix of the bytes written, at most 63 are in transit, the indices stay in bounds, and no ASSERT fails. */
  lemma {:induction false} FirstInFirstOut(s: State, acts: seq<Action>)
    requires Init(s) && Legal(s, acts)
    ensures var r := After(s, acts);
      && InBounds(r) && r.read <= r.written && 0 <= |r.written| - |r.read| <= SIZE - 1
      && (Empty(r) <==> r.read == r.written)
      && (forall a :: Possible(r, a) ==> AssertsHold(r, a))
  {
    hide LockInv, SideInv, QueuedInv, AssertsHold, Possible, Init;
    InitHolds(s);
    RunKeeps(s, acts);
    var r := After(s, acts);
    NotFullRoom(r);
    forall a | Possible(r, a) ensures AssertsHold(r, a) { StepAsserts(r, a); }
  }

  /** The step `a` puts `w` into the registration field. */
  predicate Registers(s: State, a: Action, w: Who)
    requires InBounds(s)
  {
    !Get(s, w).registered && Get(Step(s, a), w).registered
  }

  /** A thread that registers finds the queue as it needs it exactly when it did not have to queue for the lock, and
      its registration remembers which. */
  lemma RegistersWhen(s: State, a: Action, w: Who)
    requires QueueInv(s) && Possible(s, a) && Registers(s, a, w)
    ensures Stuck(Step(s, a), w) <==> !Get(s, w).pc.Queued?
    ensures Get(Step(s, a), w).pc == Parked(Get(s, w).pc.Queued?)
  {
    StepKeeps(s, a);
  }

  /** When is a thread registered for the reason it waits? In every reachable state, exactly when it got the lock
      at once; a thread that had to queue for the lock is registered on a queue that is not full (or empty). */
  lemma RegisteredForItsReason(s: State, acts: seq<Action>, w: Who)
    requires Init(s) && Legal(s, acts)
    ensures var r := After(s, acts);
      Get(r, w).registered ==> Get(r, w).pc.Parked? && (Stuck(r, w) <==> !Get(r, w).pc.contended)
  {
    hide Contents, LockInv, QueuedInv, Init;
    InitHolds(s);
    RunKeeps(s, acts);
  }

  /** The condition, seen from the caller in any reachable state: a call that finds the queue full (or empty)
      registers at once, and for its reason, if and only if the lock is free. */
  lemma CallRegistersIffLockFree(s: State, acts: seq<Action>, b: nat)
    requires Init(s) && Legal(s, acts)
    ensures var r := After(s, acts); InBounds(r) && (Possible(r, PutChar(b)) && Full(r) ==>
      (Registers(r, PutChar(b), Producer) <==> r.value == 1) && Full(Step(r, PutChar(b))))
    ensures var r := After(s, acts); InBounds(r) && (Possible(r, GetChar) && Empty(r) ==>
      (Registers(r, GetChar, Consumer) <==> r.value == 1) && Empty(Step(r, GetChar)))
  {
    hide QueuedInv, Init;
    InitHolds(s);
    RunKeeps(s, acts);
  }

  predicate Deadlock(s: State) { !s.p.awake && !s.c.awake }

  /** What a deadlock looks like: one thread is queued for the lock and the other sleeps, registered, with the lock. */
  predicate Embrace(s: State, w: Who) {
    Get(s, w).pc.Queued? && w in s.waiters && Get(s, Other(w)).registered && Get(s, Other(w)).pc.Parked? && s.value == 0
  }

  /** The two threads are both asleep exactly when one of them is queued for the lock with which the other sleeps; so
      without contention on the lock they never are. */
  lemma DeadlockNeedsContention(s: State, acts: seq<Action>)
    requires Init(s) && Legal(s, acts)
    ensures var r := After(s, acts); Deadlock(r) <==> Embrace(r, Producer) || Embrace(r, Consumer)
  {
    hide Init, Contents, Stuck;
    InitHolds(s);
    RunKeeps(s, acts);
  }

  /** A thread at the head of its loop sleeps exactly when it is stuck; a transfer leaves the other side awake, or as it
      was if it was not registered. */
  lemma LoopSleeps(s: State, w: Who)
    requires AtLoop(s, w)
    ensures Deadlock(Loop(s, w)) <==> !Get(s, Other(w)).awake && Stuck(s, w)
  {
    hide Contents, LockInv, Stuck;
  }

  /** A thread that goes on with the lock releases it first, and so wakes the other if that one is queued for it. */
  lemma ResumeSleeps(s: State, w: Who)
    requires QueueInv(s) && Possible(s, Resume(w))
    ensures Deadlock(ResumeFn(s, w)) <==> !Get(s, Other(w)).awake && Get(s, w).pc.Queued?
  {
    if Get(s, w).pc.Parked? {
      OnlyOther(s.waiters, w);
    }
  }

  lemma StepSleeps(s: State, a: Action)
    requires QueueInv(s) && Possible(s, a)
    ensures Deadlock(Step(s, a)) <==>
      !Get(s, Other(Actor(a))).awake && if a.Resume? then Get(s, Actor(a)).pc.Queued? else Stuck(s, Actor(a))
  {
    match a
    case PutChar(b) => LoopSleeps(s.(p := s.p.(byte := b)), Producer);
    case GetChar => LoopSleeps(s, Consumer);
    case Resume(w) => ResumeSleeps(s, w);
  }

  /** Exactly when do both sleep? In every reachable state the next step puts its thread to sleep beside a sleeping one
      if and only if it is a call on a queue that is full (or empty), or the step with which a thread that had queued
      for the lock goes on: that thread does not look at the queue again. */
  lemma DeadlockExactly(s: State, acts: seq<Action>, a: Action)
    requires Init(s) && Legal(s, acts) && Possible(After(s, acts), a)
    ensures var r, w := After(s, acts), Actor(a);
      InBounds(r) && (Deadlock(Step(r, a)) <==>
        !Get(r, Other(w)).awake && if a.Resume? then Get(r, w).pc.Queued? else Stuck(r, w))
  {
    hide Init, LockInv, SideInv, QueuedInv, Step, Possible;
    InitHolds(s);
    RunKeeps(s, acts);
    StepSleeps(After(s, acts), a);
  }

  // ---------------------------------------------------------------- what the calls carry

  /** The bytes that the producer has handed over, and the number of bytes the consumer has asked for. */
  function PutBytes(acts: seq<Action>): seq<nat> {
    if acts == [] then []
    else PutBytes(acts[..|acts| - 1]) + if acts[|acts| - 1].PutChar? then [acts[|acts| - 1].byte] else []
  }

  function GetCalls(acts: seq<Action>): nat {
    if acts == [] then 0 else GetCalls(acts[..|acts| - 1]) + if acts[|acts| - 1].GetChar? then 1 else 0
  }

  /** The byte of a call that has not returned. */
  function Pending(x: Side): seq<nat> { if x.pc.Out? then [] else [x.byte] }

  /** Every byte handed over is in the log of the queue, or is that of the one call that has not returned; every call of
      the consumer that has returned has read a byte. */
  ghost predicate Accounted(s: State, puts: seq<nat>, gets: nat) {
    && s.written + Pending(s.p) == puts
    && |s.read| + (if s.c.pc.Out? then 0 else 1) == gets
  }

  lemma StepAccounts(s: State, a: Action, puts: seq<nat>, gets: nat)
    requires QueueInv(s) && Possible(s, a) && Accounted(s, puts, gets)
    ensures Accounted(Step(s, a), puts + (if a.PutChar? then [a.byte] else []), gets + if a.GetChar? then 1 else 0)
  {
    hide Contents, LockInv, SideInv, QueuedInv, Stuck, Loop, Release;
    ContentsBounds(s);
    match a
    case PutChar(b) => LoopAccounts(s.(p := s.p.(byte := b)), Producer, s.written, |s.read|, s.c.pc);
    case GetChar => LoopAccounts(s, Consumer, s.written + Pending(s.p), |s.read|, s.c.pc);
    case Resume(w) =>
      if Get(s, w).pc.Parked? {
        ReleaseSame(s);
        LoopAccounts(Release(s), w, if w.Producer? then s.written else s.written + Pending(s.p), |s.read|, s.c.pc);
      }
  }

  /** A thread at the head of its loop: the byte is written, or pending; a byte is read, or the call waits. */
  lemma LoopAccounts(s: State, w: Who, puts: seq<nat>, gets: nat, pc: Pc)
    requires InBounds(s) && |s.read| == gets && s.c.pc == pc
    requires puts == if w.Producer? then s.written else s.written + Pending(s.p)
    ensures var r := Loop(s, w);
      if w.Producer?
      then r.written + Pending(r.p) == puts + [s.p.byte] && |r.read| == gets && (r.c.pc.Out? <==> pc.Out?)
      else r.written + Pending(r.p) == puts && |r.read| + (if r.c.pc.Out? then 0 else 1) == gets + 1
  {
    hide Stuck;
    assert s.written + [s.p.byte] + [] == s.written + [s.p.byte];
  }

  lemma ReleaseSame(s: State)
    ensures var r := Release(s);
      && r.written == s.written && r.read == s.read && |r.buf| == |s.buf| && r.head == s.head && r.tail == s.tail
      && r.p.pc == s.p.pc && r.p.byte == s.p.byte && r.c.pc == s.c.pc
  {
  }

  lemma ContentsBounds(s: State)
    requires QueueInv(s)
    ensures InBounds(s)
  {
  }

  /** The run that ends with one more action. */
  lemma {:induction false} LastStep(s: State, acts: seq<Action>)
    requires Legal(s, acts) && acts != []
    ensures var n := |acts| - 1;
      && Legal(s, acts[..n]) && InBounds(After(s, acts[..n])) && Possible(After(s, acts[..n]), acts[n])
      && After(s, acts) == Step(After(s, acts[..n]), acts[n])
    decreases |acts|
  {
    hide Possible, Step;
    var n := |acts| - 1;
    if n == 0 {
      assert acts[..0] == [] && acts[1..] == [];
    } else {
      LastStep(Step(s, acts[0]), acts[1..]);
      assert acts[1..][..n - 1] == acts[..n][1..] && acts[1..][n - 1] == acts[n];
    }
  }

  /** What is written is what was handed over, byte by byte and in that order, and with the queue first in, first out
      (`FirstInFirstOut`) the consumer gets these bytes; only the byte of a waiting call is not there yet. */
  lemma {:induction false} BytesArrive(s: State, acts: seq<Action>)
    requires Init(s) && Legal(s, acts)
    ensures Accounted(After(s, acts), PutBytes(acts), GetCalls(acts))
    decreases |acts|
  {
    hide QueueInv, Possible, Step, Accounted;
    if acts == [] {
      InitAccounts(s);
    } else {
      var n := |acts| - 1;
      LastStep(s, acts);
      BytesArrive(s, acts[..n]);
      InitHolds(s);
      RunKeeps(s, acts[..n]);
      StepAccounts(After(s, acts[..n]), acts[n], PutBytes(acts[..n]), GetCalls(acts[..n]));
    }
  }

  lemma InitAccounts(s: State)
    requires Init(s)
    ensures Accounted(s, [], 0)
  {
  }

  // ---------------------------------------------------------------- the deadlock

  ghost function Puts(n: nat): seq<Action> { seq(n, _ => PutChar(0)) }
  ghost function Gets(n: nat): seq<Action> { seq(n, _ => GetChar) }

  lemma Prepend(s: State, acts: seq<Action>)
    requires acts != [] && InBounds(s) && Possible(s, acts[0]) && Legal(Step(s, acts[0]), acts[1..])
    ensures Legal(s, acts) && After(s, acts) == After(Step(s, acts[0]), acts[1..])
  {
  }

  lemma {:induction false} AppendRuns(s: State, a: seq<Action>, b: seq<Action>)
    requires Legal(s, a) && Legal(After(s, a), b)
    ensures Legal(s, a + b) && After(s, a + b) == After(After(s, a), b)
    decreases |a|
  {
    if a == [] {
      assert a + b == b;
    } else {
      AppendRuns(Step(s, a[0]), a[1..], b);
      ConsAppend(a, b);
      Prepend(s, a + b);
    }
  }

  lemma ConsAppend(a: seq<Action>, b: seq<Action>)
    requires a != []
    ensures a + b != [] && (a + b)[0] == a[0] && (a + b)[1..] == a[1..] + b
  {
  }

  /** `n` uncontended writes. */
  lemma {:induction false} PutsRun(s: State, n: nat)
    requires QueueInv(s) && s.p.pc.Out? && !s.c.registered && |s.written| - |s.read| + n < SIZE
    ensures Legal(s, Puts(n))
    ensures var r := After(s, Puts(n));
      && QueueInv(r) && r.c == s.c && r.p.pc.Out? && r.value == s.value && r.waiters == s.waiters
      && |r.written| == |s.written| + n && r.read == s.read
    decreases n
  {
    if n > 0 {
      NotFullRoom(s);
      StepKeeps(s, PutChar(0));
      PutsRun(Step(s, PutChar(0)), n - 1);
      assert Puts(n)[1..] == Puts(n - 1);
    }
  }

  /** `n` uncontended reads. */
  lemma {:induction false} GetsRun(s: State, n: nat)
    requires QueueInv(s) && s.c.pc.Out? && !s.p.registered && n <= |s.written| - |s.read|
    ensures Legal(s, Gets(n))
    ensures var r := After(s, Gets(n));
      && QueueInv(r) && r.p == s.p && r.c.pc.Out? && r.value == s.value && r.waiters == s.waiters
      && |r.read| == |s.read| + n && r.written == s.written
    decreases n
  {
    if n > 0 {
      NotFullRoom(s);
      StepKeeps(s, GetChar);
      GetsRun(Step(s, GetChar), n - 1);
      assert Gets(n)[1..] == Gets(n - 1);
    }
  }

  lemma One(s: State, a: Action)
    requires InBounds(s) && Possible(s, a)
    ensures Legal(s, [a]) && After(s, [a]) == Step(s, a)
  {
    assert [a][1..] == [];
  }

  /** First half: the consumer waits on the empty queue, the producer fills it and queues for the lock that
      the woken consumer still holds. */
  lemma FillAndQueue(s: State) returns (acts: seq<Action>)
    requires Init(s)
    ensures Legal(s, acts)
    ensures var r := After(s, acts);
      QueueInv(r) && r.p.pc.Queued? && !r.p.awake && r.c.pc.Parked? && r.c.awake && r.waiters == [Producer] && Full(r)
  {
    NotFullRoom(s);
    var s1 := Step(s, GetChar);
    One(s, GetChar);
    StepKeeps(s, GetChar);
    var s2 := Step(s1, PutChar(0));
    One(s1, PutChar(0));
    StepKeeps(s1, PutChar(0));
    PutsRun(s2, 62);
    var s3 := After(s2, Puts(62));
    NotFullRoom(s3);
    One(s3, PutChar(0));
    StepKeeps(s3, PutChar(0));
    AppendRuns(s, [GetChar], [PutChar(0)]);
    AppendRuns(s, [GetChar] + [PutChar(0)], Puts(62));
    AppendRuns(s, [GetChar] + [PutChar(0)] + Puts(62), [PutChar(0)]);
    acts := [GetChar] + [PutChar(0)] + Puts(62) + [PutChar(0)];
  }

  /** Second half: the consumer drains the queue before the producer is scheduled, takes the lock again and
      sleeps; the producer finds the lock taken and sleeps too. */
  lemma DrainAndPark(s: State) returns (acts: seq<Action>)
    requires QueueInv(s) && s.p.pc.Queued? && !s.p.awake && s.c.pc.Parked? && s.c.awake && s.waiters == [Producer]
    requires Full(s)
    ensures Legal(s, acts) && Deadlock(After(s, acts))
  {
    NotFullRoom(s);
    var s1 := Step(s, Resume(Consumer));
    One(s, Resume(Consumer));
    StepKeeps(s, Resume(Consumer));
    GetsRun(s1, 62);
    var s2 := After(s1, Gets(62));
    NotFullRoom(s2);
    One(s2, GetChar);
    var s3 := Step(s2, GetChar);
    StepKeeps(s2, GetChar);
    One(s3, Resume(Producer));
    AppendRuns(s, [Resume(Consumer)], Gets(62));
    AppendRuns(s, [Resume(Consumer)] + Gets(62), [GetChar]);
    AppendRuns(s, [Resume(Consumer)] + Gets(62) + [GetChar], [Resume(Producer)]);
    acts := [Resume(Consumer)] + Gets(62) + [GetChar] + [Resume(Producer)];
  }

  /** One producer and one consumer can put each other to sleep for ever. */
  lemma DeadlockReachable(s: State)
    requires Init(s)
    ensures exists acts :: Legal(s, acts) && Deadlock(After(s, acts)) && forall a :: !Possible(After(s, acts), a)
  {
    var a := FillAndQueue(s);
    var b := DrainAndPark(After(s, a));
    AppendRuns(s, a, b);
    RunKeeps(s, a + b);
  }

  // ---------------------------------------------------------------- registered for nothing

  /** A producer registered on a queue that is not full: the woken consumer releases the lock and reads a byte, and
      then the queued producer gets the lock and does not look again. */
  lemma ProducerRegisteredNotFull(s: State)
    requires Init(s)
    ensures exists acts :: Legal(s, acts) && After(s, acts).p.registered && !Full(After(s, acts))
  {
    var a := FillAndQueue(s);
    var s1 := After(s, a);
    NotFullRoom(s1);
    One(s1, Resume(Consumer));
    StepKeeps(s1, Resume(Consumer));
    var s2 := Step(s1, Resume(Consumer));
    NotFullRoom(s2);
    One(s2, Resume(Producer));
    AppendRuns(s, a, [Resume(Consumer)]);
    AppendRuns(s, a + [Resume(Consumer)], [Resume(Producer)]);
    var acts := a + [Resume(Consumer)] + [Resume(Producer)];
    assert After(s, acts) == Step(s2, Resume(Producer));
  }

  /** The mirror image of `FillAndQueue`: the producer waits on the full queue, the consumer drains it and queues
      for the lock that the woken producer still holds. */
  lemma DrainAndQueue(s: State) returns (acts: seq<Action>)
    requires Init(s)
    ensures Legal(s, acts)
    ensures var r := After(s, acts);
      QueueInv(r) && r.c.pc.Queued? && !r.c.awake && r.p.pc.Parked? && r.p.awake && r.waiters == [Consumer] && Empty(r)
  {
    InitHolds(s);
    PutsRun(s, 63);
    var s1 := After(s, Puts(63));
    NotFullRoom(s1);
    One(s1, PutChar(0));
    StepKeeps(s1, PutChar(0));
    var s2 := Step(s1, PutChar(0));
    NotFullRoom(s2);
    One(s2, GetChar);
    StepKeeps(s2, GetChar);
    var s3 := Step(s2, GetChar);
    GetsRun(s3, 62);
    var s4 := After(s3, Gets(62));
    NotFullRoom(s4);
    One(s4, GetChar);
    StepKeeps(s4, GetChar);
    AppendRuns(s, Puts(63), [PutChar(0)]);
    AppendRuns(s, Puts(63) + [PutChar(0)], [GetChar]);
    AppendRuns(s, Puts(63) + [PutChar(0)] + [GetChar], Gets(62));
    AppendRuns(s, Puts(63) + [PutChar(0)] + [GetChar] + Gets(62), [GetChar]);
    acts := Puts(63) + [PutChar(0)] + [GetChar] + Gets(62) + [GetChar];
  }

  lemma ConsumerRegisteredNotEmpty(s: State)
    requires Init(s)
    ensures exists acts :: Legal(s, acts) && After(s, acts).c.registered && !Empty(After(s, acts))
  {
    var a := DrainAndQueue(s);
    var s1 := After(s, a);
    NotFullRoom(s1);
    One(s1, Resume(Producer));
    StepKeeps(s1, Resume(Producer));
    var s2 := Step(s1, Resume(Producer));
    NotFullRoom(s2);
    One(s2, Resume(Consumer));
    AppendRuns(s, a, [Resume(Producer)]);
    AppendRuns(s, a + [Resume(Producer)], [Resume(Consumer)]);
    var acts := a + [Resume(Producer)] + [Resume(Consumer)];
    assert After(s, acts) == Step(s2, Resume(Consumer));
  }

  // ---------------------------------------------------------------- the keyboard

  /** The keyboard handler tests for a full queue before it writes. */
  ghost predicate NeverPutsWhenFull(s: State, acts: seq<Action>)
    requires Legal(s, acts)
    decreases |acts|
  {
    acts == [] || ((acts[0].PutChar? ==> !Full(s)) && NeverPutsWhenFull(Step(s, acts[0]), acts[1..]))
  }

  /** With that test the producer never waits, the consumer sleeps only on an empty queue with its name
      registered, and the next key wakes it. */
  lemma {:induction false} GuardedProducerNeverWaits(s: State, acts: seq<Action>)
    requires QueueInv(s) && s.p.pc.Out? && s.c.pc != Queued && s.c.pc != Parked(true)
    requires Legal(s, acts) && NeverPutsWhenFull(s, acts)
    ensures var r := After(s, acts);
      && QueueInv(r) && r.p.pc.Out? && r.p.awake && !Deadlock(r)
      && (!r.c.awake ==> r.c.registered && Empty(r) && forall b :: Step(r, PutChar(b)).c.awake)
    decreases |acts|
  {
    NotFullRoom(s);
    if acts != [] {
      StepKeeps(s, acts[0]);
      GuardedProducerNeverWaits(Step(s, acts[0]), acts[1..]);
    }
  }
}
