/** ide.c: the handshake on one channel. Any number of threads use the channel under its lock; the drive may raise
    its interrupt at any moment, asked for or not. Code with interrupts off is one step. */
module IdeHandshake {
  import opened Outcomes

  /** Where a thread is in `ide_read` or `ide_write`, with the commands still to issue. */
  datatype Pc =
    | Out
    | Held(left: nat)     // has the lock, before a command
    | Armed(left: nat)    // `expecting_intr` set, command not yet written to the register
    | Issued(left: nat)   // command written
    | Blocked(left: nat)  // in the waiters of `disk_done`
    | Woken(left: nat)    // about to test the semaphore again
    | Taken(left: nat)    // past `sema_down`

  datatype Event = Arms(t: nat) | Takes(t: nat)

  datatype Lock = Unlocked | LockedBy(t: nat)

  datatype Chan = Chan(lock: Lock, expecting: bool, done: nat, waiters: seq<nat>, pc: map<nat, Pc>, log: seq<Event>)

  datatype Act =
    | Acquire(t: nat, commands: nat)
    | Arm(t: nat)
    | Command(t: nat)
    | Down(t: nat)
    | Resume(t: nat)
    | Release(t: nat)
    | Interrupt

  function Goto(c: Chan, t: nat, p: Pc): Chan { c.(pc := c.pc[t := p]) }

  /** `sema_down(&disk_done)`, up to blocking or getting through. */
  function SemaDown(c: Chan, t: nat, left: nat): Outcome<Chan> {
    if c.done == 0 then
      if t in c.waiters then Halt
      else Ok(Goto(c, t, Blocked(left)).(waiters := c.waiters + [t]))
    else if c.done != 1 then Halt
    else Ok(Goto(c, t, Taken(left)).(done := 0, log := c.log + [Takes(t)]))
  }

  /** `intr_hd_handler` with the `sema_up` inside it. */
  function Handler(c: Chan): Outcome<Chan> {
    if !c.expecting then Ok(c)
    else if c.done != 0 then Halt
    else if c.waiters == [] then Ok(c.(expecting := false, done := 1))
    else
      var w := c.waiters[0];
      if w !in c.pc || !c.pc[w].Blocked? then Halt
      else Ok(Goto(c, w, Woken(c.pc[w].left)).(expecting := false, done := 1, waiters := c.waiters[1..]))
  }

  /** One step; `Null` when the thread is not at that point, `Halt` when an assertion fails. */
  function Next(c: Chan, a: Act): Outcome<Chan> {
    match a
    case Interrupt => Handler(c)
    case Acquire(t, n) =>
      if t in c.pc && c.pc[t].Out? && c.lock.Unlocked? then Ok(Goto(c, t, Held(n)).(lock := LockedBy(t))) else Null
    case Arm(t) =>
      if t in c.pc && c.pc[t].Held? && c.pc[t].left > 0
      then Ok(Goto(c, t, Armed(c.pc[t].left)).(expecting := true, log := c.log + [Arms(t)])) else Null
    case Command(t) => if t in c.pc && c.pc[t].Armed? then Ok(Goto(c, t, Issued(c.pc[t].left))) else Null
    case Down(t) => if t in c.pc && (c.pc[t].Issued? || c.pc[t].Woken?) then SemaDown(c, t, c.pc[t].left) else Null
    case Resume(t) =>
      if t in c.pc && c.pc[t].Taken? && c.pc[t].left > 0 then Ok(Goto(c, t, Held(c.pc[t].left - 1))) else Null
    case Release(t) =>
      if t in c.pc && c.pc[t].Held? && c.pc[t].left == 0
      then if c.lock == LockedBy(t) then Ok(Goto(c, t, Out).(lock := Unlocked)) else Halt
      else Null
  }

  // ---------------------------------------------------------------- invariant

  /** Commands and completions take turns, each completion taken by the thread that issued the command. */
  predicate Alternates(log: seq<Event>) {
    forall k: nat :: k < |log| ==> InTurn(log, k)
  }

  predicate InTurn(log: seq<Event>, k: nat)
    requires k < |log|
  {
    if k % 2 == 0 then log[k].Arms? else log[k] == Takes(log[k - 1].t)
  }

  predicate Paired(log: seq<Event>) { |log| % 2 == 0 && Alternates(log) }

  predicate Waiting(log: seq<Event>, t: nat) { |log| % 2 == 1 && Alternates(log) && log[|log| - 1] == Arms(t) }

  predicate Quiet(c: Chan) { !c.expecting && c.done == 0 && c.waiters == [] && Paired(c.log) }

  /** What the thread that has the lock may find. */
  predicate AtPc(c: Chan, t: nat, p: Pc) {
    match p
    case Out => false
    case Held(_) => Quiet(c)
    case Taken(left) => Quiet(c) && left > 0
    case Armed(left) => left > 0 && Waiting(c.log, t) && c.waiters == [] && c.done == if c.expecting then 0 else 1
    case Issued(left) => left > 0 && Waiting(c.log, t) && c.waiters == [] && c.done == if c.expecting then 0 else 1
    case Blocked(left) => left > 0 && Waiting(c.log, t) && c.waiters == [t] && c.expecting && c.done == 0
    case Woken(left) => left > 0 && Waiting(c.log, t) && c.waiters == [] && !c.expecting && c.done == 1
  }

  predicate Inv(c: Chan) {
    && (forall t :: t in c.pc ==> (c.pc[t].Out? <==> c.lock != LockedBy(t)))
    && (if c.lock.LockedBy? then c.lock.t in c.pc && AtPc(c, c.lock.t, c.pc[c.lock.t]) else Quiet(c))
  }

  lemma OneMore(log: seq<Event>, e: Event)
    requires Alternates(log) && (if |log| % 2 == 0 then e.Arms? else e == Takes(log[|log| - 1].t))
    ensures Alternates(log + [e])
  {
    assert |log| % 2 == 1 ==> InTurn(log, |log| - 1);
    var l := log + [e];
    forall k: nat | k < |l| ensures InTurn(l, k) {
      if k < |log| { assert InTurn(log, k); }
    }
  }

  lemma PairedMore(log: seq<Event>, t: nat)
    requires Waiting(log, t)
    ensures Paired(log + [Takes(t)])
  {
    OneMore(log, Takes(t));
  }

  lemma ArmWaits(log: seq<Event>, t: nat)
    requires Paired(log)
    ensures Waiting(log + [Arms(t)], t)
  {
    OneMore(log, Arms(t));
  }

  /** No assertion of the driver, the handler or the semaphore fails, and the invariant is kept. */
  lemma StepKeeps(c: Chan, a: Act)
    requires Inv(c)
    ensures !Next(c, a).Halt?
    ensures Next(c, a).Ok? ==> Inv(Next(c, a).value)
  {
    hide Waiting, Paired;
    match a
    case Arm(t) => if Quiet(c) { ArmWaits(c.log, t); }
    case Down(t) => if t in c.pc && c.pc[t] != Out && c.lock == LockedBy(t) && !Quiet(c) { PairedMore(c.log, t); }
    case _ =>
  }

  // ---------------------------------------------------------------- runs

  predicate IsRun(cs: seq<Chan>, acts: seq<Act>) {
    |cs| == |acts| + 1 && forall k :: 0 <= k < |acts| ==> Next(cs[k], acts[k]) == Ok(cs[k + 1])
  }

  /** The channel as `ide_init` leaves it. */
  predicate Initial(c: Chan) {
    c.lock.Unlocked? && !c.expecting && c.done == 0 && c.waiters == [] && c.log == [] && forall t :: t in c.pc ==>
      c.pc[t].Out?
  }

  lemma {:induction false} RunKeeps(cs: seq<Chan>, acts: seq<Act>)
    requires IsRun(cs, acts) && Initial(cs[0])
    ensures Inv(cs[|acts|])
  {
    hide Inv, Next;
    if acts == [] {
      InitialInv(cs[0]);
    } else {
      var n := |acts| - 1;
      RunKeeps(cs[..n + 1], acts[..n]);
      StepKeeps(cs[n], acts[n]);
    }
  }

  lemma InitialInv(c: Chan)
    requires Initial(c)
    ensures Inv(c)
  {
  }

  /** In every reachable state the flag and the semaphore are in one of three combinations. */
  lemma ThreeCombinations(cs: seq<Chan>, acts: seq<Act>)
    requires IsRun(cs, acts) && Initial(cs[0])
    ensures var c := cs[|acts|]; (c.expecting, c.done) in {(false, 0), (true, 0), (false, 1)}
  {
    hide Next;
    RunKeeps(cs, acts);
  }

  /** A state in which a thread sleeps always expects the interrupt that will wake it: the interrupt makes it
      runnable, and its next test of the semaphore succeeds. */
  lemma NoLostCompletion(cs: seq<Chan>, acts: seq<Act>, t: nat)
    requires IsRun(cs, acts) && Initial(cs[0])
    requires var c := cs[|acts|]; t in c.pc && c.pc[t].Blocked?
    ensures var c := cs[|acts|]; Next(c, Interrupt).Ok? && var w := Next(c, Interrupt).value;
      t in w.pc && w.pc[t] == Woken(c.pc[t].left) && Next(w, Down(t)).Ok? && Next(w, Down(t)).value.pc[t].Taken?
  {
    RunKeeps(cs, acts);
  }

  /** Commands and completions alternate over the whole run, each completion going to the thread whose command is
      outstanding; between commands none is outstanding, and none is left over for the next user of the channel. */
  lemma OneCompletionPerCommand(cs: seq<Chan>, acts: seq<Act>)
    requires IsRun(cs, acts) && Initial(cs[0])
    ensures Alternates(cs[|acts|].log)
    ensures var c := cs[|acts|]; |c.log| % 2 == (if c.expecting then 1 else 0) + c.done
  {
    hide Next;
    RunKeeps(cs, acts);
  }

  // ---------------------------------------------------------------- one transfer

  /** `n` commands of a thread, each with its completion. */
  function Turns(t: nat, n: nat): seq<Event> {
    if n == 0 then [] else Turns(t, n - 1) + [Arms(t), Takes(t)]
  }

  /** What the log says of a thread that has got so far with a transfer of `n` commands. */
  function Progress(t: nat, n: nat, p: Pc): seq<Event> {
    match p
    case Out => []
    case Held(left) => Turns(t, if left <= n then n - left else 0)
    case Taken(left) => Turns(t, if left <= n then n - left else 0) + [Arms(t), Takes(t)]
    case _ => Turns(t, if p.left <= n then n - p.left else 0) + [Arms(t)]
  }

  /** In the middle of a transfer that began with `log`. */
  predicate Transferring(c: Chan, t: nat, n: nat, log: seq<Event>) {
    && t in c.pc && c.lock == LockedBy(t) && !c.pc[t].Out? && c.pc[t].left <= n
    && c.log == log + Progress(t, n, c.pc[t])
  }

  lemma TransferStep(c: Chan, a: Act, t: nat, n: nat, log: seq<Event>)
    requires Inv(c) && Next(c, a).Ok? && Transferring(c, t, n, log) && a != Release(t)
    ensures Transferring(Next(c, a).value, t, n, log)
  {
    hide Turns, Alternates;
    if a.Interrupt? {
      InterruptedTransfer(c, t, n, log);
    } else {
      OnlyHolder(c, a, t);
      hide Inv;
      match a
      case Arm(u) => ArmedLog(log, t, n, c.pc[t].left);
      case Down(u) => TakenLog(log, t, n, c.pc[t].left);
      case Resume(u) => NextLog(t, n, c.pc[t].left);
      case _ =>
    }
  }

  /** Only the thread that has the lock is at any other point. */
  lemma OnlyHolder(c: Chan, a: Act, t: nat)
    requires Inv(c) && Next(c, a).Ok? && c.lock == LockedBy(t) && !a.Interrupt?
    ensures a.t == t && !a.Acquire?
  {
    hide Alternates;
  }

  lemma InterruptedTransfer(c: Chan, t: nat, n: nat, log: seq<Event>)
    requires Inv(c) && Next(c, Interrupt).Ok? && Transferring(c, t, n, log)
    ensures Transferring(Next(c, Interrupt).value, t, n, log)
  {
    hide Turns, Alternates;
  }

  lemma ArmedLog(log: seq<Event>, t: nat, n: nat, left: nat)
    ensures log + Progress(t, n, Held(left)) + [Arms(t)] == log + Progress(t, n, Armed(left))
  {
  }

  lemma TakenLog(log: seq<Event>, t: nat, n: nat, left: nat)
    ensures log + Progress(t, n, Issued(left)) + [Takes(t)] == log + Progress(t, n, Taken(left))
  {
    var k := if left <= n then n - left else 0;
    assert Turns(t, k) + [Arms(t)] + [Takes(t)] == Turns(t, k) + [Arms(t), Takes(t)];
  }

  lemma NextLog(t: nat, n: nat, left: nat)
    requires 0 < left <= n
    ensures Progress(t, n, Taken(left)) == Progress(t, n, Held(left - 1))
  {
  }

  lemma {:induction false} TransferGoesOn(cs: seq<Chan>, acts: seq<Act>, i: nat, k: nat, t: nat, n: nat)
    requires IsRun(cs, acts) && Initial(cs[0]) && i < k <= |acts| && acts[i] == Acquire(t, n)
    requires forall m :: i < m < k ==> acts[m] != Release(t)
    ensures Transferring(cs[k], t, n, cs[i].log)
    decreases k
  {
    hide Inv, Transferring, Turns;
    if k == i + 1 {
      TransferStarts(cs[i], cs[i + 1], t, n);
    } else {
      TransferGoesOn(cs, acts, i, k - 1, t, n);
      RunKeeps(cs[..k], acts[..k - 1]);
      assert Next(cs[k - 1], acts[k - 1]) == Ok(cs[k]);
      TransferStep(cs[k - 1], acts[k - 1], t, n, cs[i].log);
    }
  }

  lemma TransferStarts(c: Chan, c1: Chan, t: nat, n: nat)
    requires Next(c, Acquire(t, n)) == Ok(c1)
    ensures Transferring(c1, t, n, c.log)
  {
    assert c.log + [] == c.log;
  }

  /** Between taking the lock of the channel for `n` commands and giving it back, a thread issues `n` commands and takes
      the completion of each before it issues the next, and nobody else does anything on the channel. */
  lemma TransferCounts(cs: seq<Chan>, acts: seq<Act>, i: nat, j: nat, t: nat, n: nat)
    requires IsRun(cs, acts) && Initial(cs[0]) && i < j < |acts| && acts[i] == Acquire(t, n) && acts[j] == Release(t)
    requires forall m :: i < m < j ==> acts[m] != Release(t)
    ensures cs[j + 1].log == cs[i].log + Turns(t, n) && cs[j + 1].lock.Unlocked?
  {
    hide Inv, Initial;
    TransferGoesOn(cs, acts, i, j, t, n);
    assert Next(cs[j], acts[j]) == Ok(cs[j + 1]);
  }

  /** Whoever has the lock can go on, or sleeps until the interrupt that is expected. */
  lemma HolderMoves(cs: seq<Chan>, acts: seq<Act>, t: nat)
    requires IsRun(cs, acts) && Initial(cs[0]) && cs[|acts|].lock == LockedBy(t)
    ensures var c := cs[|acts|];
      || (exists a :: a in {Arm(t), Command(t), Down(t), Resume(t), Release(t)} && Next(c, a).Ok?)
      || (t in c.pc && c.pc[t].Blocked? && c.expecting)
  {
    RunKeeps(cs, acts);
    hide Initial, IsRun, Alternates;
    var c := cs[|acts|];
    assert t in c.pc && AtPc(c, t, c.pc[t]);
    var a := match c.pc[t]
      case Held(left) => if left > 0 then Arm(t) else Release(t)
      case Armed(_) => Command(t)
      case Taken(_) => Resume(t)
      case _ => Down(t);
    assert !c.pc[t].Blocked? ==> Next(c, a).Ok?;
  }

  /** While nobody has the lock, every thread can take it. */
  lemma FreeToTake(cs: seq<Chan>, acts: seq<Act>, t: nat, n: nat)
    requires IsRun(cs, acts) && Initial(cs[0]) && cs[|acts|].lock.Unlocked? && t in cs[|acts|].pc
    ensures Next(cs[|acts|], Acquire(t, n)).Ok?
  {
    RunKeeps(cs, acts);
  }
}
