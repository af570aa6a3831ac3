/** sync.c on top of the scheduler: locks under preemption.

    The system is a set of threads that call `lock_acquire` and `lock_release` on any number of locks.
    Interrupts are on except inside `sema_down` and `sema_up`, so the timer may switch threads between
    any two statements of the lock code; the body of a semaphore operation is one atomic step, and a
    thread that falls asleep in `sema_down` wakes up inside that atomic section. A thread's `general_tag`
    is the link used by the ready list and by every waiters list, so it may be in one of them only. */
module Locks {
  import opened Outcomes
  import opened Sequences
  import opened Scheduling

  type Lid = nat

  datatype Option<T> = None | Some(value: T)

  /** `value` and `waiters` are the semaphore of the lock. */
  datatype Lock = Lock(value: nat, waiters: seq<Tid>, holder: Option<Tid>, repeat: nat)

  /** Where a thread is in the lock code; the next statement is named. */
  datatype Pc =
    | Free                    // in its own code
    | Test(l: Lid)            // if (plock->holder != running_thread())
    | Down(l: Lid)            // sema_down(&plock->semaphore)
    | Retry(l: Lid)           // asleep in, or switched back into, the loop of sema_down
    | TakeHolder(l: Lid)      // plock->holder = running_thread()
    | SetRepeat(l: Lid)       // ASSERT(holder_repeat_nr == 0); holder_repeat_nr = 1
    | Bump(l: Lid)            // holder_repeat_nr++
    | Leave(l: Lid)           // ASSERT(holder == running_thread()); if (holder_repeat_nr > 1)
    | DropHolder(l: Lid)      // plock->holder = NULL
    | DropRepeat(l: Lid)      // plock->holder_repeat_nr = 0
    | Up(l: Lid)              // sema_up(&plock->semaphore)

  /** `depth` is what a client knows: how many of its acquires of a lock it has not yet released. */
  datatype State = State(sched: Sched, locks: map<Lid, Lock>, pc: map<Tid, Pc>, depth: map<(Tid, Lid), nat>)

  ghost function Depth(s: State, t: Tid, l: Lid): nat {
    if (t, l) in s.depth then s.depth[(t, l)] else 0
  }

  datatype Action =
    | CallAcquire(l: Lid)               // the running thread calls lock_acquire
    | CallRelease(l: Lid)               // the running thread calls lock_release on a lock it holds
    | Exec                              // the running thread executes its next statement in the lock code
    | Timer                             // timer interrupt
    | Other(e: Event)                   // any other scheduler event: sleeping on a device, waking, new threads

  /** The action is one that can come now. Nothing is said here of the state being sound. */
  ghost predicate Possible(s: State, a: Action) {
    && s.sched.cur in s.pc
    && var c := s.sched.cur;
       match a
       case CallAcquire(l) => s.pc[c].Free? && l in s.locks && c != s.sched.idle   // idle() takes no lock
       case CallRelease(l) => s.pc[c].Free? && l in s.locks && c != s.sched.idle && Depth(s, c, l) > 0
       case Exec => !s.pc[c].Free? && s.pc[c].l in s.locks
       case Timer => !s.pc[c].Retry?
       case Other(e) =>
         && Occurs(s.sched, e)
         && (e.Sleep? || e.YieldCpu? ==> s.pc[c].Free?)
         && (e.Wake? ==> e.t in s.pc && s.pc[e.t].Free?)
         && (e.TimerTick? ==> false)
  }

  /** The ASSERTs (and the PANIC) met by the statement about to be executed, those of the scheduler included. */
  ghost predicate AssertsHold(s: State)
    requires Possible(s, Exec)
  {
    var c := s.sched.cur;
    var k := s.locks[s.pc[c].l];
    match s.pc[c]
    case Down(_) => if k.value == 0 then c !in k.waiters && TryBlock(s.sched, Blocked).Ok? else k.value - 1 == 0
    case Retry(_) => if k.value == 0 then c !in k.waiters && TryBlock(s.sched, Blocked).Ok? else k.value - 1 == 0
    case SetRepeat(_) => k.repeat == 0
    case Leave(_) => k.holder == Some(c) && (k.repeat > 1 || k.repeat == 1)
    case Up(_) => k.value == 0 && (k.waiters != [] ==> TryUnblock(s.sched, k.waiters[0]).Ok?)
    case _ => true
  }

  ghost function SemaDown(s: State): State
    requires Possible(s, Exec) && AssertsHold(s) && (s.pc[s.sched.cur].Down? || s.pc[s.sched.cur].Retry?)
  {
    var c := s.sched.cur;
    var l := s.pc[c].l;
    var k := s.locks[l];
    if k.value == 0 then
      s.(locks := s.locks[l := k.(waiters := k.waiters + [c])], pc := s.pc[c := Retry(l)],
         sched := TryBlock(s.sched, Blocked).value)
    else
      s.(locks := s.locks[l := k.(value := k.value - 1)], pc := s.pc[c := TakeHolder(l)])
  }

  ghost function SemaUp(s: State): State
    requires Possible(s, Exec) && AssertsHold(s) && s.pc[s.sched.cur].Up?
  {
    var c := s.sched.cur;
    var l := s.pc[c].l;
    var k := s.locks[l];
    if k.waiters == [] then
      s.(locks := s.locks[l := k.(value := k.value + 1)], pc := s.pc[c := Free])
    else
      s.(locks := s.locks[l := k.(value := k.value + 1, waiters := k.waiters[1..])],
         pc := s.pc[c := Free], sched := TryUnblock(s.sched, k.waiters[0]).value)
  }

  ghost function ExecStep(s: State): State
    requires Possible(s, Exec) && AssertsHold(s)
  {
    var c := s.sched.cur;
    var l := s.pc[c].l;
    var k := s.locks[l];
    match s.pc[c]
    case Test(_) => s.(pc := s.pc[c := if k.holder != Some(c) then Down(l) else Bump(l)])
    case Down(_) => SemaDown(s)
    case Retry(_) => SemaDown(s)
    case TakeHolder(_) => s.(locks := s.locks[l := k.(holder := Some(c))], pc := s.pc[c := SetRepeat(l)])
    case SetRepeat(_) =>
      s.(locks := s.locks[l := k.(repeat := 1)], pc := s.pc[c := Free], depth := s.depth[(c, l) := Depth(s, c, l) + 1])
    case Bump(_) =>
      s.(locks := s.locks[l := k.(repeat := k.repeat + 1)], pc := s.pc[c := Free],
         depth := s.depth[(c, l) := Depth(s, c, l) + 1])
    case Leave(_) =>
      var d := if Depth(s, c, l) == 0 then 0 else Depth(s, c, l) - 1;
      if k.repeat > 1 then
        s.(locks := s.locks[l := k.(repeat := k.repeat - 1)], pc := s.pc[c := Free], depth := s.depth[(c, l) := d])
      else
        s.(pc := s.pc[c := DropHolder(l)], depth := s.depth[(c, l) := d])
    case DropHolder(_) => s.(locks := s.locks[l := k.(holder := None)], pc := s.pc[c := DropRepeat(l)])
    case DropRepeat(_) => s.(locks := s.locks[l := k.(repeat := 0)], pc := s.pc[c := Up(l)])
    case Up(_) => SemaUp(s)
  }

  /** One step. A step whose ASSERT fails has no successor: the kernel halts. */
  ghost predicate Step(s: State, a: Action, r: State) {
    && Possible(s, a)
    && var c := s.sched.cur;
       match a
       case CallAcquire(l) => r == s.(pc := s.pc[c := Test(l)])
       case CallRelease(l) => r == s.(pc := s.pc[c := Leave(l)])
       case Exec => AssertsHold(s) && r == ExecStep(s)
       case Timer => Attempt(s.sched, TimerTick).Ok? && r == s.(sched := Attempt(s.sched, TimerTick).value)
       case Other(e) =>
         Attempt(s.sched, e).Ok? &&
         r == s.(sched := Attempt(s.sched, e).value, pc := if e.Spawn? then s.pc[e.t := Free] else s.pc)
  }

  // ---------------------------------------------------------------- the invariant

  /** The thread owns the semaphore: it is past its `sema_down` and has not done its `sema_up`. */
  ghost predicate Inside(s: State, t: Tid, l: Lid) {
    Depth(s, t, l) > 0 || (t in s.pc && s.pc[t] in {TakeHolder(l), SetRepeat(l), DropHolder(l), DropRepeat(l), Up(l)})
  }

  /** `holder` points at the thread. */
  ghost predicate Holds(s: State, t: Tid, l: Lid) {
    Depth(s, t, l) > 0 || (t in s.pc && s.pc[t] in {SetRepeat(l), DropHolder(l)})
  }

  ghost predicate Runnable(s: State, t: Tid) {
    t in s.sched.tasks && !Asleep(s.sched.tasks[t].status)
  }

  /** A thread that `sema_up` has taken off the waiters list and that is about to look at `value` again. */
  ghost predicate Woken(s: State, t: Tid, l: Lid)
    requires l in s.locks
  {
    t in s.pc && s.pc[t] == Retry(l) && t !in s.locks[l].waiters && Runnable(s, t)
  }

  ghost predicate PcInv(s: State) {
    && Inv(s.sched)
    && s.pc.Keys == s.sched.tasks.Keys
    && s.pc[s.sched.idle] == Free
    && (forall t, l :: (t, l) in s.depth ==> t in s.pc && l in s.locks)
    && (forall t :: t in s.pc && !s.pc[t].Free? ==> s.pc[t].l in s.locks)
    && (forall t :: t in s.pc && !s.pc[t].Free? && !s.pc[t].Retry? ==> Runnable(s, t))
    && (forall t :: t in s.pc && s.pc[t].Retry? && t !in s.locks[s.pc[t].l].waiters ==> Runnable(s, t))
  }

  ghost predicate DepthInv(s: State, t: Tid, l: Lid)
    requires t in s.pc && l in s.locks
  {
    var k, p, d := s.locks[l], s.pc[t], Depth(s, t, l);
    && (p in {Bump(l), Leave(l)} ==> d > 0)
    && (p in {Down(l), Retry(l), TakeHolder(l), SetRepeat(l), DropHolder(l), DropRepeat(l), Up(l)} ==> d == 0)
    && (d > 0 ==> k.repeat == d)
    && (p in {TakeHolder(l), SetRepeat(l), Up(l)} ==> k.repeat == 0)
    && (p in {DropHolder(l), DropRepeat(l)} ==> k.repeat == 1)
    && (k.holder == Some(t) <==> Holds(s, t, l))
  }

  /** `value` plus the number of threads inside is one. */
  ghost predicate MutexInv(s: State, l: Lid)
    requires l in s.locks
  {
    && s.locks[l].value <= 1
    && (forall t :: Inside(s, t, l) ==> s.locks[l].value == 0)
    && (forall t, u :: Inside(s, t, l) && Inside(s, u, l) ==> t == u)
    && (s.locks[l].value == 0 ==> exists t :: t in s.pc && Inside(s, t, l))
  }

  ghost predicate HolderInv(s: State, l: Lid)
    requires l in s.locks
  {
    && (s.locks[l].value == 1 ==> s.locks[l].repeat == 0)
    && (s.locks[l].holder.Some? ==> s.locks[l].holder.value in s.pc)
    && (forall t :: t in s.pc ==> DepthInv(s, t, l))
  }

  ghost predicate QueueInv(s: State, l: Lid)
    requires l in s.locks
  {
    var k := s.locks[l];
    && NoDup(k.waiters)
    && (forall t :: t in k.waiters ==>
          t in s.pc && s.pc[t] == Retry(l) && t in s.sched.tasks && s.sched.tasks[t].status == Blocked)
    && (k.value == 1 && k.waiters != [] ==> exists t :: Woken(s, t, l))
  }

  ghost predicate LockInv(s: State, l: Lid)
    requires l in s.locks
  {
    MutexInv(s, l) && HolderInv(s, l) && QueueInv(s, l)
  }

  ghost predicate LocksInv(s: State) {
    PcInv(s) && forall l :: l in s.locks ==> LockInv(s, l)
  }

  /** After `lock_init` of every lock, with no thread in the lock code. */
  ghost predicate Init(s: State) {
    && Inv(s.sched) && s.pc.Keys == s.sched.tasks.Keys && s.depth == map[]
    && (forall t :: t in s.pc ==> s.pc[t] == Free)
    && (forall l :: l in s.locks ==> s.locks[l] == Lock(1, [], None, 0))
  }

  lemma InitEstablishes(s: State)
    requires Init(s)
    ensures LocksInv(s)
  {
  }

  // ---------------------------------------------------------------- preservation

  ghost predicate At(p: Pc, l: Lid) {
    !p.Free? && p.l == l
  }

  /** The step from `s` to `r` does not concern lock `l`. */
  ghost predicate Untouched(s: State, r: State, l: Lid) {
    && l in s.locks && l in r.locks && r.locks[l] == s.locks[l]
    && s.pc.Keys <= r.pc.Keys && s.pc.Keys == s.sched.tasks.Keys && r.pc.Keys == r.sched.tasks.Keys
    && (forall t :: t in r.pc && At(r.pc[t], l) ==> t in s.pc && s.pc[t] == r.pc[t])
    && (forall t :: t in s.pc && At(s.pc[t], l) ==> r.pc[t] == s.pc[t])
    && (forall t :: Depth(r, t, l) == Depth(s, t, l))
    && (forall t :: t in s.pc && s.pc[t] == Retry(l) && Runnable(s, t) ==> Runnable(r, t))
    && (forall t :: t in s.locks[l].waiters && t in s.pc && s.sched.tasks[t].status.Blocked? ==>
          r.sched.tasks[t].status.Blocked?)
  }

  lemma InsideFrame(s: State, r: State, l: Lid, t: Tid)
    requires Untouched(s, r, l)
    ensures Inside(r, t, l) == Inside(s, t, l)
    ensures Holds(r, t, l) == Holds(s, t, l)
  {
  }

  lemma MutexFrame(s: State, r: State, l: Lid)
    requires Untouched(s, r, l) && MutexInv(s, l)
    ensures MutexInv(r, l)
  {
    forall t ensures Inside(r, t, l) == Inside(s, t, l) { InsideFrame(s, r, l, t); }
  }

  lemma HolderFrame(s: State, r: State, l: Lid)
    requires Untouched(s, r, l) && HolderInv(s, l) && (forall t, m :: (t, m) in s.depth ==> t in s.pc)
    ensures HolderInv(r, l)
  {
    forall t | t in r.pc ensures DepthInv(r, t, l) {
      InsideFrame(s, r, l, t);
      if t in s.pc { assert DepthInv(s, t, l); }
    }
  }

  lemma QueueFrame(s: State, r: State, l: Lid)
    requires Untouched(s, r, l) && QueueInv(s, l)
    ensures QueueInv(r, l)
  {
    if s.locks[l].value == 1 && s.locks[l].waiters != [] {
      var t :| Woken(s, t, l);
      assert Woken(r, t, l);
    }
  }

  lemma LockFrame(s: State, r: State, l: Lid)
    requires PcInv(s) && Untouched(s, r, l) && LockInv(s, l)
    ensures LockInv(r, l)
  {
    MutexFrame(s, r, l);
    HolderFrame(s, r, l);
    QueueFrame(s, r, l);
  }

  /** A step of the scheduler alone. */
  ghost predicate SchedOnly(s: State, r: State) {
    && r.locks == s.locks && r.depth == s.depth && Inv(r.sched) && r.sched.idle == s.sched.idle
    && s.pc.Keys == s.sched.tasks.Keys && r.pc.Keys == r.sched.tasks.Keys && s.pc.Keys <= r.pc.Keys
    && (forall t :: t in s.pc ==> r.pc[t] == s.pc[t])
    && (forall t :: t in r.pc && t !in s.pc ==> r.pc[t] == Free)
    && (forall t :: t in s.pc && !s.pc[t].Free? ==> Runnable(r, t) == Runnable(s, t))
    && (forall t :: t in s.pc && s.pc[t].Retry? && s.sched.tasks[t].status.Blocked? ==>
      r.sched.tasks[t].status.Blocked?)
  }

  lemma SchedUntouched(s: State, r: State, l: Lid)
    requires SchedOnly(s, r) && l in s.locks && QueueInv(s, l)
    ensures Untouched(s, r, l)
  {
  }

  lemma SchedOnlyKeeps(s: State, r: State)
    requires LocksInv(s) && SchedOnly(s, r)
    ensures LocksInv(r)
  {
    hide MutexInv, HolderInv, QueueInv;
    forall l | l in r.locks ensures LockInv(r, l) {
      assert LockInv(s, l);
      SchedUntouched(s, r, l);
      LockFrame(s, r, l);
    }
  }

  /** The lock state with the scheduler moved on to `q` by an event that concerns only threads outside the
      lock code. */
  lemma MovedOnly(s: State, e: Event, q: Sched, r: State)
    requires PcInv(s) && Inv(q) && q.idle == s.sched.idle
    requires q.tasks.Keys == if e.Spawn? then s.sched.tasks.Keys + {e.t} else s.sched.tasks.Keys
    requires r == s.(sched := q, pc := if e.Spawn? then s.pc[e.t := Free] else s.pc)
    requires e.Spawn? ==> e.t !in s.pc
    requires forall t :: t in s.pc && Concerns(s.sched, e, t) ==> s.pc[t].Free?
    requires forall t :: t in s.sched.tasks && t != s.sched.idle && !Concerns(s.sched, e, t) ==>
      SleepKept(s.sched, q, t)
    ensures SchedOnly(s, r)
  {
    hide Inv;
    forall t | t in s.pc && !s.pc[t].Free?
      ensures Runnable(r, t) == Runnable(s, t)
      ensures s.sched.tasks[t].status.Blocked? ==> r.sched.tasks[t].status.Blocked?
    {
      assert SleepKept(s.sched, q, t);
    }
  }

  lemma SchedulerStepsKeep(s: State, a: Action, r: State)
    requires LocksInv(s) && Step(s, a, r) && (a.Timer? || a.Other?)
    ensures LocksInv(r)
  {
    hide Attempt, Apply, Inv;
    var e := if a.Timer? then TimerTick else a.e;
    AttemptSucceeds(s.sched, e);
    EventStatus(s.sched, e);
    StepKeepsInv(s.sched, e);
    MovedOnly(s, e, Apply(s.sched, e), r);
    SchedOnlyKeeps(s, r);
  }

  /** Thread `c` moves within the code of lock `l`; the scheduler is not involved. */
  ghost predicate LocalStep(s: State, r: State, c: Tid, l: Lid, p: Pc, k: Lock, d: nat) {
    && c in s.pc && l in s.locks
    && (s.pc[c].Free? || s.pc[c].l == l) && (p.Free? || p.l == l)
    && r.sched == s.sched && r.locks == s.locks[l := k] && r.pc == s.pc[c := p]
    && (forall t, m :: Depth(r, t, m) == if t == c && m == l then d else Depth(s, t, m))
    && (forall t, m :: (t, m) in r.depth ==> (t, m) in s.depth || (t == c && m == l))
  }

  lemma LocalUntouched(s: State, r: State, c: Tid, l: Lid, p: Pc, k: Lock, d: nat, m: Lid)
    requires s.pc.Keys == s.sched.tasks.Keys && LocalStep(s, r, c, l, p, k, d) && m in s.locks && m != l
    ensures Untouched(s, r, m)
  {
  }

  lemma LocalPc(s: State, r: State, c: Tid, l: Lid, p: Pc, k: Lock, d: nat)
    requires PcInv(s) && LocalStep(s, r, c, l, p, k, d) && c == s.sched.cur && c != s.sched.idle && !p.Retry?
    requires k.waiters == s.locks[l].waiters
    ensures PcInv(r)
  {
    hide Inv, Runnable;
    CurRuns(s);
    forall t ensures Runnable(r, t) == Runnable(s, t) { SameSched(s, r, t); }
  }

  lemma CurRuns(s: State)
    requires PcInv(s)
    ensures Runnable(s, s.sched.cur) && s.sched.cur in s.pc && s.sched.idle in s.pc
  {
  }

  lemma SameSched(s: State, r: State, t: Tid)
    requires r.sched == s.sched
    ensures Runnable(r, t) == Runnable(s, t)
  {
  }

  /** Who else is inside `l` does not change. */
  lemma LocalInside(s: State, r: State, c: Tid, l: Lid, p: Pc, k: Lock, d: nat)
    requires LocalStep(s, r, c, l, p, k, d)
    ensures forall t :: t != c ==> Inside(r, t, l) == Inside(s, t, l) && Holds(r, t, l) == Holds(s, t, l)
  {
  }

  lemma LocalMutex(s: State, r: State, c: Tid, l: Lid, p: Pc, k: Lock, d: nat)
    requires LocalStep(s, r, c, l, p, k, d) && MutexInv(s, l)
    requires
      || (k.value == s.locks[l].value && Inside(r, c, l) == Inside(s, c, l))
      || (s.locks[l].value == 1 && k.value == 0 && Inside(r, c, l))
      || (Inside(s, c, l) && k.value == 1 && !Inside(r, c, l))
    ensures MutexInv(r, l)
  {
    LocalInside(s, r, c, l, p, k, d);
    if k.value == 0 {
      if Inside(r, c, l) {
      } else {
        var t :| t in s.pc && Inside(s, t, l);
        assert t in r.pc && Inside(r, t, l);
      }
    }
  }

  lemma LocalQueue(s: State, r: State, c: Tid, l: Lid, p: Pc, k: Lock, d: nat)
    requires LocalStep(s, r, c, l, p, k, d) && QueueInv(s, l) && PcInv(s) && c == s.sched.cur && !p.Retry?
    requires k.waiters == s.locks[l].waiters && (k.value == 1 ==> s.locks[l].value == 1 || k.waiters == [])
    requires k.value == 1 ==> !s.pc[c].Retry?
    ensures QueueInv(r, l)
  {
    if k.value == 1 && k.waiters != [] {
      var t :| Woken(s, t, l);
      assert Woken(r, t, l);
    }
  }

  /** The bookkeeping of threads other than `c` survives when `c` is inside, or when nothing they could
      depend on changes. */
  lemma LocalHolder(s: State, r: State, c: Tid, l: Lid, p: Pc, k: Lock, d: nat)
    requires LocalStep(s, r, c, l, p, k, d) && MutexInv(s, l) && HolderInv(s, l)
    requires (k.repeat == s.locks[l].repeat && k.holder == s.locks[l].holder) ||
      (Inside(s, c, l) && (k.holder == s.locks[l].holder || k.holder == None || k.holder == Some(c)))
    requires k.value == 1 ==> k.repeat == 0
    requires DepthInv(r, c, l)
    ensures HolderInv(r, l)
  {
    LocalInside(s, r, c, l, p, k, d);
    forall t | t in r.pc ensures DepthInv(r, t, l) {
      if t != c {
        assert DepthInv(s, t, l);
        assert Depth(r, t, l) == Depth(s, t, l);
      }
    }
  }

  lemma LocalKeeps(s: State, r: State, c: Tid, l: Lid, p: Pc, k: Lock, d: nat)
    requires LocksInv(s) && LocalStep(s, r, c, l, p, k, d) && c == s.sched.cur && c != s.sched.idle && !p.Retry?
    requires LockInv(r, l) && k.waiters == s.locks[l].waiters
    ensures LocksInv(r)
  {
    hide PcInv, LockInv, Untouched;
    IdleFree(s);
    LocalPc(s, r, c, l, p, k, d);
    forall m | m in r.locks ensures LockInv(r, m) {
      if m != l {
        LocalUntouched(s, r, c, l, p, k, d, m);
        LockFrame(s, r, m);
      }
    }
  }

  /** Calls, and the statements that do not touch the semaphore. */
  ghost predicate Statement(s: State, a: Action) {
    && Possible(s, a) && (a.CallAcquire? || a.CallRelease? || a.Exec?)
    && (a.Exec? ==> var p := s.pc[s.sched.cur]; !p.Down? && !p.Retry? && !p.Up?)
  }

  ghost function LockOf(s: State, a: Action): Lid
    requires Statement(s, a)
  {
    if a.Exec? then s.pc[s.sched.cur].l else a.l
  }

  lemma CallLocal(s: State, a: Action, r: State, c: Tid, l: Lid)
    requires Statement(s, a) && !a.Exec? && Step(s, a, r) && c == s.sched.cur && l == a.l
    ensures l in r.locks && c in r.pc && r.locks == s.locks
    ensures LocalStep(s, r, c, l, r.pc[c], r.locks[l], Depth(r, c, l)) && !r.pc[c].Retry?
  {
  }

  lemma ExecLocal(s: State, r: State, c: Tid, l: Lid)
    requires Statement(s, Exec) && Step(s, Exec, r) && c == s.sched.cur && l == s.pc[c].l
    ensures l in r.locks && c in r.pc
    ensures LocalStep(s, r, c, l, r.pc[c], r.locks[l], Depth(r, c, l)) && !r.pc[c].Retry?
    ensures r.locks[l].waiters == s.locks[l].waiters && r.locks[l].value == s.locks[l].value
  {
  }

  lemma StatementDepth(s: State, a: Action, r: State, c: Tid, l: Lid)
    requires Statement(s, a) && Step(s, a, r)
    requires c == s.sched.cur && l == LockOf(s, a) && l in r.locks && c in r.pc
    requires DepthInv(s, c, l) && (Inside(s, c, l) ==> s.locks[l].value == 0)
    requires (s.locks[l].value == 1 ==> s.locks[l].repeat == 0)
    ensures DepthInv(r, c, l) && Inside(r, c, l) == Inside(s, c, l)
    ensures var k := r.locks[l];
      && (k.value == 1 ==> k.repeat == 0)
      && ((k.repeat == s.locks[l].repeat && k.holder == s.locks[l].holder) ||
          (Inside(s, c, l) && (k.holder == s.locks[l].holder || k.holder == None || k.holder == Some(c))))
  {
  }

  lemma StatementKeeps(s: State, a: Action, r: State)
    requires LocksInv(s) && Statement(s, a) && Step(s, a, r)
    ensures LocksInv(r)
  {
    hide PcInv, MutexInv, HolderInv, QueueInv, DepthInv, Step, ExecStep, LocalStep, Inside;
    var c, l := s.sched.cur, LockOf(s, a);
    StatementThread(s, a);
    assert LockInv(s, l);
    if a.Exec? { ExecLocal(s, r, c, l); } else { CallLocal(s, a, r, c, l); }
    DepthOf(s, c, l);
    StatementDepth(s, a, r, c, l);
    StatementLock(s, r, c, l, r.pc[c], r.locks[l], Depth(r, c, l));
    LocalKeeps(s, r, c, l, r.pc[c], r.locks[l], Depth(r, c, l));
  }

  lemma StatementThread(s: State, a: Action)
    requires PcInv(s) && Statement(s, a)
    ensures s.sched.cur in s.pc && s.sched.cur != s.sched.idle && !s.pc[s.sched.cur].Retry? && LockOf(s, a) in s.locks
  {
  }

  lemma DepthOf(s: State, c: Tid, l: Lid)
    requires c in s.pc && l in s.locks && MutexInv(s, l) && HolderInv(s, l)
    ensures DepthInv(s, c, l) && (Inside(s, c, l) ==> s.locks[l].value == 0)
    ensures s.locks[l].value == 1 ==> s.locks[l].repeat == 0
  {
  }

  lemma StatementLock(s: State, r: State, c: Tid, l: Lid, p: Pc, k: Lock, d: nat)
    requires PcInv(s) && LocalStep(s, r, c, l, p, k, d) && LockInv(s, l) && c == s.sched.cur && !p.Retry?
    requires k.waiters == s.locks[l].waiters && k.value == s.locks[l].value && !s.pc[c].Retry?
    requires Inside(r, c, l) == Inside(s, c, l) && DepthInv(r, c, l) && (k.value == 1 ==> k.repeat == 0)
    requires (k.repeat == s.locks[l].repeat && k.holder == s.locks[l].holder) ||
      (Inside(s, c, l) && (k.holder == s.locks[l].holder || k.holder == None || k.holder == Some(c)))
    ensures LockInv(r, l)
  {
    hide PcInv, MutexInv, HolderInv, QueueInv, DepthInv, Inside;
    assert l in r.locks && r.locks[l] == k;
    LocalMutex(s, r, c, l, p, k, d);
    LocalQueue(s, r, c, l, p, k, d);
    LocalHolder(s, r, c, l, p, k, d);
  }

  /** `sema_down` that finds the semaphore free. */
  lemma TakeKeeps(s: State, r: State)
    requires LocksInv(s) && Step(s, Exec, r)
    requires var p := s.pc[s.sched.cur]; (p.Down? || p.Retry?) && s.locks[p.l].value != 0
    ensures LocksInv(r)
  {
    hide PcInv, MutexInv, HolderInv, QueueInv, DepthInv, LocalStep;
    CurrentThread(s);
    var c := s.sched.cur;
    var l := s.pc[c].l;
    var p, k, d := TakeHolder(l), s.locks[l].(value := 0), Depth(s, c, l);
    TakeIs(s, r);
    assert LockInv(s, l);
    DepthOf(s, c, l);
    TakeLock(s, r, c, l, p, k, d);
    LocalKeeps(s, r, c, l, p, k, d);
  }

  lemma TakeIs(s: State, r: State)
    requires Step(s, Exec, r)
    requires var p := s.pc[s.sched.cur]; (p.Down? || p.Retry?) && s.locks[p.l].value != 0
    ensures s.locks[s.pc[s.sched.cur].l].value == 1
    ensures var c := s.sched.cur; var l := s.pc[c].l;
      LocalStep(s, r, c, l, TakeHolder(l), s.locks[l].(value := 0), Depth(s, c, l))
  {
  }

  lemma TakeLock(s: State, r: State, c: Tid, l: Lid, p: Pc, k: Lock, d: nat)
    requires PcInv(s) && LocalStep(s, r, c, l, p, k, d) && LockInv(s, l) && c == s.sched.cur && DepthInv(s, c, l)
    requires s.pc[c] in {Down(l), Retry(l)} && p == TakeHolder(l) && d == Depth(s, c, l)
    requires s.locks[l].value == 1 && k == s.locks[l].(value := 0)
    ensures LockInv(r, l)
  {
    hide PcInv, MutexInv, HolderInv, QueueInv;
    TakeOwners(s, r, c, l, p, k, d);
    LocalQueue(s, r, c, l, p, k, d);
  }

  lemma TakeOwners(s: State, r: State, c: Tid, l: Lid, p: Pc, k: Lock, d: nat)
    requires LocalStep(s, r, c, l, p, k, d) && MutexInv(s, l) && HolderInv(s, l) && DepthInv(s, c, l)
    requires s.pc[c] in {Down(l), Retry(l)} && p == TakeHolder(l) && d == Depth(s, c, l)
    requires s.locks[l].value == 1 && k == s.locks[l].(value := 0)
    ensures MutexInv(r, l) && HolderInv(r, l)
  {
    assert Depth(r, c, l) == 0 && !Inside(s, c, l);
    LocalMutex(s, r, c, l, p, k, d);
    assert DepthInv(r, c, l);
    LocalHolder(s, r, c, l, p, k, d);
  }

  /** A step of `c` in the code of lock `l` that puts to sleep or wakes only `x`, a thread at `l`. */
  ghost predicate StepAt(s: State, r: State, c: Tid, l: Lid, x: Tid) {
    && s.pc.Keys == s.sched.tasks.Keys && r.sched.tasks.Keys == s.sched.tasks.Keys
    && c in s.pc && At(s.pc[c], l) && x in s.pc && At(s.pc[x], l)
    && c in r.pc && (r.pc[c].Free? || r.pc[c].l == l) && r.pc == s.pc[c := r.pc[c]] && r.depth == s.depth
    && (forall t :: t in s.sched.tasks && t != s.sched.idle && t != x ==> SleepKept(s.sched, r.sched, t))
  }

  lemma StepUntouched(s: State, r: State, c: Tid, l: Lid, m: Lid, x: Tid)
    requires StepAt(s, r, c, l, x) && s.sched.idle in s.pc && s.pc[s.sched.idle] == Free
    requires m in s.locks && m != l && m in r.locks && r.locks[m] == s.locks[m] && QueueInv(s, m)
    ensures Untouched(s, r, m)
  {
    hide SleepKept;
    forall t | t in s.pc && At(s.pc[t], m)
      ensures Runnable(s, t) ==> Runnable(r, t)
      ensures s.sched.tasks[t].status.Blocked? ==> r.sched.tasks[t].status.Blocked?
    {
      assert t != x && t != s.sched.idle;
      StaysAwake(s.sched, r.sched, t);
    }
    StepPcs(s, r, c, l, m, x);
  }

  lemma StaysAwake(p: Sched, q: Sched, t: Tid)
    requires t in p.tasks && SleepKept(p, q, t)
    ensures t in q.tasks && (!Asleep(p.tasks[t].status) ==> !Asleep(q.tasks[t].status))
    ensures p.tasks[t].status.Blocked? ==> q.tasks[t].status.Blocked?
  {
  }

  lemma StepPcs(s: State, r: State, c: Tid, l: Lid, m: Lid, x: Tid)
    requires StepAt(s, r, c, l, x) && m != l
    ensures s.pc.Keys == r.pc.Keys == r.sched.tasks.Keys
    ensures forall t :: t in r.pc && At(r.pc[t], m) ==> t in s.pc && s.pc[t] == r.pc[t]
    ensures forall t :: t in s.pc && At(s.pc[t], m) ==> r.pc[t] == s.pc[t]
    ensures forall t :: Depth(r, t, m) == Depth(s, t, m)
  {
    hide SleepKept;
  }

  lemma OtherLock(s: State, r: State, c: Tid, l: Lid, m: Lid, x: Tid)
    requires PcInv(s) && m in s.locks && m != l && LockInv(s, m) && StepAt(s, r, c, l, x)
    requires m in r.locks && r.locks[m] == s.locks[m]
    ensures LockInv(r, m)
  {
    StepUntouched(s, r, c, l, m, x);
    LockFrame(s, r, m);
  }

  /** `sema_down` that finds it taken: the thread queues up and another one runs. */
  lemma WaitKeeps(s: State, r: State, q: Sched)
    requires LocksInv(s) && Possible(s, Exec)
    requires var c := s.sched.cur; var p := s.pc[c];
      && (p.Down? || p.Retry?) && s.locks[p.l].value == 0 && c !in s.locks[p.l].waiters && c != s.sched.idle
      && r == s.(locks := s.locks[p.l := s.locks[p.l].(waiters := s.locks[p.l].waiters + [c])],
                 pc := s.pc[c := Retry(p.l)], sched := q)
    requires Inv(q) && q.idle == s.sched.idle && q.tasks.Keys == s.sched.tasks.Keys
    requires forall t :: t in s.sched.tasks && t != s.sched.idle && t != s.sched.cur ==> SleepKept(s.sched, q, t)
    requires q.tasks[s.sched.cur].status == Blocked
    ensures LocksInv(r)
  {
    hide MutexInv, HolderInv, QueueInv, PcInv, Runnable, SleepKept, Inv;
    CurrentThread(s);
    var c := s.sched.cur;
    var l := s.pc[c].l;
    RunnableKept(s, r, c);
    WaitPc(s, r, c, l);
    forall m | m in r.locks ensures LockInv(r, m) {
      assert LockInv(s, m);
      if m != l {
        OtherLock(s, r, c, l, m, c);
      } else {
        WaitLock(s, r, c, l, q);
      }
    }
  }

  /** Who owns a lock does not depend on the scheduler. */
  lemma SchedFree(s: State, q: Sched, l: Lid)
    requires l in s.locks
    ensures MutexInv(s.(sched := q), l) == MutexInv(s, l)
    ensures HolderInv(s.(sched := q), l) == HolderInv(s, l)
  {
    var r := s.(sched := q);
    forall t ensures Inside(r, t, l) == Inside(s, t, l) && Holds(r, t, l) == Holds(s, t, l) {}
    forall t | t in s.pc ensures DepthInv(r, t, l) == DepthInv(s, t, l) {}
  }

  lemma RunnableKept(s: State, r: State, x: Tid)
    requires r.sched.tasks.Keys == s.sched.tasks.Keys == s.pc.Keys
    requires forall t :: t in s.sched.tasks && t != s.sched.idle && t != x ==> SleepKept(s.sched, r.sched, t)
    ensures forall t :: t in s.pc && t != x && t != s.sched.idle ==> Runnable(r, t) == Runnable(s, t)
  {
    forall t | t in s.pc && t != x && t != s.sched.idle ensures Runnable(r, t) == Runnable(s, t) {
      assert SleepKept(s.sched, r.sched, t);
    }
  }

  lemma WaitPc(s: State, r: State, c: Tid, l: Lid)
    requires PcInv(s) && c in s.pc && l in s.locks && c != s.sched.idle && At(s.pc[c], l)
    requires Inv(r.sched) && r.sched.idle == s.sched.idle && r.sched.tasks.Keys == s.sched.tasks.Keys
    requires r.locks == s.locks[l := s.locks[l].(waiters := s.locks[l].waiters + [c])]
    requires r.pc == s.pc[c := Retry(l)] && r.depth == s.depth
    requires forall t :: t in s.pc && t != c && t != s.sched.idle ==> Runnable(r, t) == Runnable(s, t)
    ensures PcInv(r)
  {
    hide Inv, Runnable;
  }

  lemma WaitLock(s: State, r: State, c: Tid, l: Lid, q: Sched)
    requires PcInv(s) && l in s.locks && LockInv(s, l) && c == s.sched.cur && c != s.sched.idle && c in s.pc
    requires s.pc[c] in {Down(l), Retry(l)} && s.locks[l].value == 0 && c !in s.locks[l].waiters
    requires r == s.(locks := s.locks[l := s.locks[l].(waiters := s.locks[l].waiters + [c])],
      pc := s.pc[c := Retry(l)], sched := q)
    requires q.tasks.Keys == s.sched.tasks.Keys && c in q.tasks && q.tasks[c].status == Blocked
    requires forall t :: t in s.sched.tasks && t != s.sched.idle && t != c ==> SleepKept(s.sched, q, t)
    ensures LockInv(r, l)
  {
    hide PcInv, MutexInv, HolderInv, QueueInv, SleepKept;
    var r0 := r.(sched := s.sched);
    WaitOwners(s, r0, c, l);
    SchedFree(r0, q, l);
    WaitQueue(s, r, c, l, q);
  }

  lemma WaitOwners(s: State, r: State, c: Tid, l: Lid)
    requires l in s.locks && c in s.pc && s.pc[c] in {Down(l), Retry(l)} && MutexInv(s, l) && HolderInv(s, l)
    requires r == s.(locks := s.locks[l := s.locks[l].(waiters := s.locks[l].waiters + [c])], pc := s.pc[c := Retry(l)])
    ensures MutexInv(r, l) && HolderInv(r, l)
  {
    hide MutexInv;
    var k := r.locks[l];
    assert DepthInv(s, c, l);
    LocalMutex(s, r, c, l, Retry(l), k, Depth(s, c, l));
    hide HolderInv;
    LocalHolder(s, r, c, l, Retry(l), k, Depth(s, c, l));
  }

  lemma WaitQueue(s: State, r: State, c: Tid, l: Lid, q: Sched)
    requires l in s.locks && QueueInv(s, l) && c in s.pc && c != s.sched.idle && PcInv(s)
    requires s.locks[l].value == 0 && c !in s.locks[l].waiters
    requires r == s.(locks := s.locks[l := s.locks[l].(waiters := s.locks[l].waiters + [c])],
                     pc := s.pc[c := Retry(l)], sched := q)
    requires q.tasks.Keys == s.sched.tasks.Keys && c in q.tasks && q.tasks[c].status == Blocked
    requires forall t :: t in s.sched.tasks && t != s.sched.idle && t != c ==> SleepKept(s.sched, q, t)
    ensures QueueInv(r, l)
  {
    IdleFree(s);
    hide PcInv;
    forall t | t in r.locks[l].waiters
      ensures t in r.pc && r.pc[t] == Retry(l) && t in q.tasks && q.tasks[t].status == Blocked
    {
      if t != c { assert SleepKept(s.sched, q, t); }
    }
  }

  lemma IdleFree(s: State)
    requires PcInv(s)
    ensures s.pc.Keys == s.sched.tasks.Keys && s.sched.idle in s.pc && s.pc[s.sched.idle] == Free
  {
  }

  /** `sema_up` with nobody waiting. */
  lemma UpAloneKeeps(s: State, r: State, c: Tid, l: Lid)
    requires LocksInv(s) && c == s.sched.cur && l in s.locks && c in s.pc && s.pc[c] == Up(l)
    requires s.locks[l].waiters == []
    requires r == s.(locks := s.locks[l := s.locks[l].(value := 1)], pc := s.pc[c := Free])
    ensures LocksInv(r)
  {
    hide PcInv, MutexInv, HolderInv, QueueInv, DepthInv;
    NotIdleAt(s, c);
    var k, d := s.locks[l].(value := 1), Depth(s, c, l);
    assert LockInv(s, l);
    DepthOf(s, c, l);
    assert LocalStep(s, r, c, l, Free, k, d);
    UpLock(s, r, c, l, Free, k, d);
    LocalKeeps(s, r, c, l, Free, k, d);
  }

  lemma NotIdleAt(s: State, c: Tid)
    requires PcInv(s) && c in s.pc && !s.pc[c].Free?
    ensures c != s.sched.idle
  {
  }

  /** `sema_up` that takes the first waiter off the list. */
  lemma UpWakeKeeps(s: State, r: State, c: Tid, l: Lid, w: Tid)
    requires LocksInv(s) && c == s.sched.cur && l in s.locks && s.pc[c] == Up(l) && s.locks[l].value == 0
    requires s.locks[l].waiters != [] && w == s.locks[l].waiters[0] && Enabled(s.sched, Wake(w))
    requires r == s.(locks := s.locks[l := s.locks[l].(value := 1, waiters := s.locks[l].waiters[1..])],
                     pc := s.pc[c := Free], sched := Unblock(s.sched, w))
    ensures LocksInv(r)
  {
    EventStatus(s.sched, Wake(w));
    StepKeepsInv(s.sched, Wake(w));
    WakeKeeps(s, r, c, l, w, Apply(s.sched, Wake(w)));
  }

  lemma UpLock(s: State, r: State, c: Tid, l: Lid, p: Pc, k: Lock, d: nat)
    requires PcInv(s) && LocalStep(s, r, c, l, p, k, d) && LockInv(s, l) && c == s.sched.cur && DepthInv(s, c, l)
    requires s.pc[c] == Up(l) && p == Free && d == Depth(s, c, l)
    requires s.locks[l].waiters == [] && k == s.locks[l].(value := 1)
    ensures LockInv(r, l)
  {
    hide PcInv, MutexInv, HolderInv, QueueInv;
    UpAloneOwners(s, r, c, l, p, k, d);
    LocalQueue(s, r, c, l, p, k, d);
  }

  lemma UpAloneOwners(s: State, r: State, c: Tid, l: Lid, p: Pc, k: Lock, d: nat)
    requires LocalStep(s, r, c, l, p, k, d) && MutexInv(s, l) && HolderInv(s, l) && DepthInv(s, c, l)
    requires s.pc[c] == Up(l) && p == Free && d == Depth(s, c, l) && k == s.locks[l].(value := 1)
    ensures MutexInv(r, l) && HolderInv(r, l)
  {
    hide MutexInv, HolderInv;
    assert Depth(r, c, l) == 0 && Inside(s, c, l) && !Inside(r, c, l);
    LocalMutex(s, r, c, l, p, k, d);
    assert DepthInv(r, c, l);
    LocalHolder(s, r, c, l, p, k, d);
  }

  lemma WakeKeeps(s: State, r: State, c: Tid, l: Lid, w: Tid, q: Sched)
    requires LocksInv(s) && c == s.sched.cur && l in s.locks && c in s.pc && s.pc[c] == Up(l)
    requires s.locks[l].waiters != [] && w == s.locks[l].waiters[0] && s.locks[l].value == 0
    requires r == s.(locks := s.locks[l := s.locks[l].(value := 1, waiters := s.locks[l].waiters[1..])],
      pc := s.pc[c := Free], sched := q)
    requires Inv(q) && q.idle == s.sched.idle && q.tasks.Keys == s.sched.tasks.Keys && q.tasks[w].status == Ready
    requires forall t :: t in s.sched.tasks && t != s.sched.idle && t != w ==> SleepKept(s.sched, q, t)
    ensures LocksInv(r)
  {
    hide MutexInv, HolderInv, Inv, PcInv, SleepKept;
    IdleFree(s);
    assert LockInv(s, l);
    assert w in s.locks[l].waiters;
    RunnableKept(s, r, w);
    WakePc(s, r, c, l, w);
    forall m | m in r.locks ensures LockInv(r, m) {
      assert LockInv(s, m);
      if m != l {
        OtherLock(s, r, c, l, m, w);
      } else {
        WakeLock(s, r, c, l, w, q);
      }
    }
  }

  lemma WakePc(s: State, r: State, c: Tid, l: Lid, w: Tid)
    requires PcInv(s) && l in s.locks && QueueInv(s, l) && c in s.pc && At(s.pc[c], l) && !s.pc[c].Retry?
    requires s.locks[l].waiters != [] && w == s.locks[l].waiters[0] && w in s.pc && Runnable(r, w)
    requires Inv(r.sched) && r.sched.idle == s.sched.idle && r.sched.tasks.Keys == s.sched.tasks.Keys
    requires r.locks == s.locks[l := s.locks[l].(value := 1, waiters := s.locks[l].waiters[1..])]
    requires r.pc == s.pc[c := Free] && r.depth == s.depth
    requires forall t :: t in s.pc && t != w && t != s.sched.idle ==> Runnable(r, t) == Runnable(s, t)
    ensures PcInv(r)
  {
    hide Inv, Runnable;
    forall t | t in s.locks[l].waiters && t != w ensures t in r.locks[l].waiters {
      var i :| 0 <= i < |s.locks[l].waiters| && s.locks[l].waiters[i] == t;
      assert r.locks[l].waiters[i - 1] == t;
    }
  }

  lemma WakeLock(s: State, r: State, c: Tid, l: Lid, w: Tid, q: Sched)
    requires PcInv(s) && l in s.locks && LockInv(s, l) && c == s.sched.cur && c in s.pc && s.pc[c] == Up(l)
    requires s.locks[l].waiters != [] && w == s.locks[l].waiters[0]
    requires r == s.(locks := s.locks[l := s.locks[l].(value := 1, waiters := s.locks[l].waiters[1..])],
      pc := s.pc[c := Free], sched := q)
    requires q.tasks.Keys == s.sched.tasks.Keys && w in q.tasks && q.tasks[w].status == Ready
    requires forall t :: t in s.sched.tasks && t != s.sched.idle && t != w ==> SleepKept(s.sched, q, t)
    ensures LockInv(r, l)
  {
    hide PcInv, MutexInv, HolderInv, QueueInv, SleepKept;
    var r0 := r.(sched := s.sched);
    UpOwners(s, r0, c, l);
    SchedFree(r0, q, l);
    WakeQueue(s, r, c, l, w, q);
  }

  lemma UpOwners(s: State, r: State, c: Tid, l: Lid)
    requires l in s.locks && c in s.pc && s.pc[c] == Up(l) && MutexInv(s, l) && HolderInv(s, l) && l in r.locks
    requires r == s.(locks := s.locks[l := s.locks[l].(value := 1, waiters := r.locks[l].waiters)],
      pc := s.pc[c := Free])
    ensures MutexInv(r, l) && HolderInv(r, l)
  {
    hide MutexInv;
    var k := r.locks[l];
    assert DepthInv(s, c, l);
    assert Inside(s, c, l) && !Inside(r, c, l);
    LocalMutex(s, r, c, l, Free, k, Depth(s, c, l));
    hide HolderInv;
    LocalHolder(s, r, c, l, Free, k, Depth(s, c, l));
  }

  lemma WakeQueue(s: State, r: State, c: Tid, l: Lid, w: Tid, q: Sched)
    requires l in s.locks && QueueInv(s, l) && c in s.pc && s.pc[c] == Up(l) && PcInv(s)
    requires s.locks[l].waiters != [] && w == s.locks[l].waiters[0]
    requires r == s.(locks := s.locks[l := s.locks[l].(value := 1, waiters := s.locks[l].waiters[1..])],
                     pc := s.pc[c := Free], sched := q)
    requires q.tasks.Keys == s.sched.tasks.Keys && w in q.tasks && q.tasks[w].status == Ready
    requires forall t :: t in s.sched.tasks && t != s.sched.idle && t != w ==> SleepKept(s.sched, q, t)
    ensures QueueInv(r, l)
  {
    IdleFree(s);
    hide PcInv;
    forall t | t in r.locks[l].waiters
      ensures t in r.pc && r.pc[t] == Retry(l) && t in q.tasks && q.tasks[t].status == Blocked
    {
      assert t in s.locks[l].waiters;
      assert t != w;
      assert SleepKept(s.sched, q, t);
    }
    assert w in s.locks[l].waiters && w !in r.locks[l].waiters;
    assert Woken(r, w, l);
  }

  // ---------------------------------------------------------------- theorems

  /** In a state satisfying the invariant no ASSERT or PANIC of sync.c or thread_unblock fires. */
  lemma NoAssertFails(s: State)
    requires LocksInv(s) && Possible(s, Exec)
    ensures AssertsHold(s)
  {
    hide TryBlock, TryUnblock, MutexInv, HolderInv, QueueInv, PcInv;
    CurrentThread(s);
    var c := s.sched.cur;
    var l := s.pc[c].l;
    assert LockInv(s, l);
    LocalAsserts(s, c, l);
    BlockWorks(s.sched);
    WaiterSleeps(s, l);
  }

  lemma CurrentThread(s: State)
    requires PcInv(s) && Possible(s, Exec)
    ensures Inv(s.sched) && s.sched.cur != s.sched.idle && s.pc.Keys == s.sched.tasks.Keys && Runnable(s, s.sched.cur)
  {
  }

  lemma BlockWorks(q: Sched)
    requires Inv(q) && q.cur != q.idle
    ensures TryBlock(q, Blocked) == Ok(Block(q, Blocked))
  {
    hide TryBlock, Block;
    AttemptSucceeds(q, Sleep(Blocked));
  }

  lemma UnblockWorks(q: Sched, t: Tid)
    requires Inv(q) && t in q.tasks && Asleep(q.tasks[t].status)
    ensures TryUnblock(q, t) == Ok(Unblock(q, t))
  {
  }

  /** What the lock itself is asked. */
  lemma LocalAsserts(s: State, c: Tid, l: Lid)
    requires c in s.pc && l in s.locks && MutexInv(s, l) && HolderInv(s, l) && QueueInv(s, l)
    requires s.sched.tasks.Keys == s.pc.Keys
    requires Runnable(s, c) || !s.pc[c].Retry?
    ensures s.pc[c] in {Down(l), Retry(l)} ==> s.locks[l].value <= 1
    ensures s.pc[c] == Down(l) ==> c !in s.locks[l].waiters
    ensures s.pc[c] == Retry(l) ==> c !in s.locks[l].waiters
    ensures s.pc[c] == SetRepeat(l) ==> s.locks[l].repeat == 0
    ensures s.pc[c] == Leave(l) ==> s.locks[l].holder == Some(c) && s.locks[l].repeat >= 1
    ensures s.pc[c] == Up(l) ==> s.locks[l].value == 0
  {
    assert DepthInv(s, c, l);
    assert s.pc[c] == Up(l) ==> Inside(s, c, l);
  }

  lemma WaiterSleeps(s: State, l: Lid)
    requires l in s.locks && QueueInv(s, l) && Inv(s.sched)
    ensures s.locks[l].waiters != [] ==> TryUnblock(s.sched, s.locks[l].waiters[0]).Ok?
  {
    hide Inv, TryUnblock, Unblock;
    if s.locks[l].waiters != [] {
      assert s.locks[l].waiters[0] in s.locks[l].waiters;
      UnblockWorks(s.sched, s.locks[l].waiters[0]);
    }
  }

  lemma StepKeeps(s: State, a: Action, r: State)
    requires LocksInv(s) && Step(s, a, r)
    ensures LocksInv(r)
  {
    hide PcInv, LockInv, ExecStep, AssertsHold;
    if a.Timer? || a.Other? {
      SchedulerStepsKeep(s, a, r);
    } else if Statement(s, a) {
      StatementKeeps(s, a, r);
    } else {
      var p := s.pc[s.sched.cur];
      if p.Up? {
        UpStep(s, r);
      } else if s.locks[p.l].value != 0 {
        TakeKeeps(s, r);
      } else {
        WaitStep(s, r);
      }
    }
  }

  lemma UpStep(s: State, r: State)
    requires LocksInv(s) && Step(s, Exec, r) && s.pc[s.sched.cur].Up?
    ensures LocksInv(r)
  {
    hide PcInv, MutexInv, HolderInv, Inv, TryUnblock;
    CurrentThread(s);
    var c := s.sched.cur;
    var l := s.pc[c].l;
    assert LockInv(s, l);
    if s.locks[l].waiters == [] {
      UpAloneKeeps(s, r, c, l);
    } else {
      var w := s.locks[l].waiters[0];
      assert w in s.locks[l].waiters;
      UnblockWorks(s.sched, w);
      UpWakeKeeps(s, r, c, l, w);
    }
  }

  lemma WaitStep(s: State, r: State)
    requires LocksInv(s) && Step(s, Exec, r)
    requires var p := s.pc[s.sched.cur]; (p.Down? || p.Retry?) && s.locks[p.l].value == 0
    ensures LocksInv(r)
  {
    hide Block, TryBlock, LockInv, Inv, PcInv;
    CurrentThread(s);
    BlockWorks(s.sched);
    BlockStatus(s.sched, Blocked);
    WaitKeeps(s, r, Block(s.sched, Blocked));
  }

  ghost predicate IsExecution(states: seq<State>, actions: seq<Action>) {
    && |states| == |actions| + 1 && Init(states[0])
    && forall i :: 0 <= i < |actions| ==> Step(states[i], actions[i], states[i + 1])
  }

  lemma {:induction false} ExecutionKeeps(states: seq<State>, actions: seq<Action>, n: nat)
    requires IsExecution(states, actions) && n < |states|
    ensures LocksInv(states[n])
  {
    if n == 0 {
      InitEstablishes(states[0]);
    } else {
      ExecutionKeeps(states, actions, n - 1);
      StepKeeps(states[n - 1], actions[n - 1], states[n]);
    }
  }

  /** Threads that own the semaphore of `l`. */
  ghost function Owners(s: State, l: Lid): set<Tid> {
    set t | t in s.pc && Inside(s, t, l)
  }

  /** Mutual exclusion over every interleaving: value plus owners is one, and so at most one thread is in a
      critical section of `l`. */
  lemma MutualExclusion(states: seq<State>, actions: seq<Action>, n: nat, l: Lid)
    requires IsExecution(states, actions) && n < |states| && l in states[n].locks
    ensures states[n].locks[l].value + |Owners(states[n], l)| == 1
    ensures forall t, u :: Depth(states[n], t, l) > 0 && Depth(states[n], u, l) > 0 ==> t == u
  {
    hide PcInv, MutexInv, HolderInv, QueueInv, IsExecution;
    ExecutionKeeps(states, actions, n);
    assert LockInv(states[n], l);
    OneOwner(states[n], l);
  }

  lemma OneOwner(s: State, l: Lid)
    requires l in s.locks && MutexInv(s, l)
    ensures s.locks[l].value + |Owners(s, l)| == 1
    ensures forall t, u :: Depth(s, t, l) > 0 && Depth(s, u, l) > 0 ==> t == u
  {
    assert forall t :: Depth(s, t, l) > 0 ==> Inside(s, t, l);
    hide Inside;
    if s.locks[l].value == 0 {
      var t :| t in s.pc && Inside(s, t, l);
      assert Owners(s, l) == {t};
    } else {
      assert Owners(s, l) == {};
    }
  }

  /** No execution can be halted by an ASSERT or a PANIC, in the lock code or in the scheduler: whatever can come
      next has a successor. */
  lemma NeverHalts(states: seq<State>, actions: seq<Action>, n: nat, a: Action)
    requires IsExecution(states, actions) && n < |states| && Possible(states[n], a)
    ensures exists r :: Step(states[n], a, r)
  {
    hide LockInv, Attempt, Inv;
    ExecutionKeeps(states, actions, n);
    var s := states[n];
    var c := s.sched.cur;
    match a
    case CallAcquire(l) => assert Step(s, a, s.(pc := s.pc[c := Test(l)]));
    case CallRelease(l) => assert Step(s, a, s.(pc := s.pc[c := Leave(l)]));
    case Exec => NoAssertFails(s); assert Step(s, a, ExecStep(s));
    case Timer =>
      AttemptSucceeds(s.sched, TimerTick);
      assert Step(s, a, s.(sched := Attempt(s.sched, TimerTick).value));
    case Other(e) =>
      AttemptSucceeds(s.sched, e);
      assert Step(s, a, s.(sched := Attempt(s.sched, e).value, pc := if e.Spawn? then s.pc[e.t := Free] else s.pc));
  }

  /** No lost wake-up: if the lock is free and threads are queued, a thread that was woken is runnable and
      will look at the semaphore again. */
  lemma NoLostWakeup(states: seq<State>, actions: seq<Action>, n: nat, l: Lid)
    requires IsExecution(states, actions) && n < |states| && l in states[n].locks
    requires states[n].locks[l].value == 1 && states[n].locks[l].waiters != []
    ensures exists t :: Woken(states[n], t, l)
  {
    ExecutionKeeps(states, actions, n);
    assert LockInv(states[n], l);
  }

  /** `holder` and `holder_repeat_nr` tell the truth, and the release that lets the next thread in is the
      one matching the outermost acquire. */
  lemma ReleaseMatchesDepth(states: seq<State>, actions: seq<Action>, n: nat)
    requires IsExecution(states, actions) && n + 1 < |states| && actions[n] == Exec
    requires states[n].sched.cur in states[n].pc && states[n].pc[states[n].sched.cur].Leave?
    ensures var s, r := states[n], states[n + 1]; var c := s.sched.cur; var l := s.pc[c].l;
      && s.locks[l].holder == Some(c) && s.locks[l].repeat == Depth(s, c, l)
      && Depth(r, c, l) == Depth(s, c, l) - 1
      && (r.pc[c] == DropHolder(l) <==> Depth(s, c, l) == 1)
      && (r.pc[c] == Free <==> Depth(s, c, l) > 1)
  {
    hide PcInv, MutexInv, QueueInv, HolderInv;
    ExecutionKeeps(states, actions, n);
    var s := states[n];
    var c := s.sched.cur;
    assert Step(s, Exec, states[n + 1]);
    assert LockInv(s, s.pc[c].l);
    DepthOf(s, c, s.pc[c].l);
  }

  /** The link in the control block is in one list at most. */
  lemma OneListPerThread(states: seq<State>, actions: seq<Action>, n: nat, t: Tid, l: Lid, m: Lid)
    requires IsExecution(states, actions) && n < |states| && l in states[n].locks && m in states[n].locks
    ensures t in states[n].locks[l].waiters ==> t !in states[n].sched.ready
    ensures t in states[n].locks[l].waiters && t in states[n].locks[m].waiters ==> l == m
    ensures NoDup(states[n].sched.ready) && NoDup(states[n].locks[l].waiters)
  {
    ExecutionKeeps(states, actions, n);
    assert LockInv(states[n], l) && LockInv(states[n], m);
  }

  // ---------------------------------------------------------------- what a call does

  predicate Acquiring(p: Pc, l: Lid) {
    p in {Test(l), Down(l), Retry(l), TakeHolder(l), SetRepeat(l), Bump(l)}
  }

  /** The statements that are left of the call, waiting apart. */
  function StatementsLeft(p: Pc): nat {
    match p
    case Free => 0
    case Test(_) | Leave(_) => 4
    case Down(_) | Retry(_) | DropHolder(_) => 3
    case TakeHolder(_) | DropRepeat(_) => 2
    case SetRepeat(_) | Bump(_) | Up(_) => 1
  }

  /** The running thread is about to find the semaphore taken. */
  ghost predicate MustWait(s: State) {
    && s.sched.cur in s.pc && (s.pc[s.sched.cur].Down? || s.pc[s.sched.cur].Retry?)
    && s.pc[s.sched.cur].l in s.locks && s.locks[s.pc[s.sched.cur].l].value == 0
  }

  /** How many acquires thread `c` has of each lock does not change, but for lock `l` by `n`. */
  ghost predicate DepthsChange(s: State, r: State, c: Tid, l: Lid, n: int) {
    forall m :: Depth(r, c, m) == Depth(s, c, m) + if m == l then n else 0
  }

  ghost predicate InCode(s: State, c: Tid) { c in s.pc && !s.pc[c].Free? }

  /** A step of another thread, or of the scheduler, leaves a thread where it is. */
  lemma OthersStep(s: State, a: Action, r: State, c: Tid, l: Lid)
    requires PcInv(s) && Step(s, a, r) && InCode(s, c) && !(a.Exec? && s.sched.cur == c)
    ensures c in r.pc && r.pc[c] == s.pc[c] && DepthsChange(s, r, c, l, 0)
  {
    hide Attempt, Inv, Runnable;
    if a.Exec? {
      OthersExec(s, r, c, l);
    } else if a.Other? && a.e.Spawn? {
      SpawnedNew(s, a.e);
    }
  }

  lemma OthersExec(s: State, r: State, c: Tid, l: Lid)
    requires Step(s, Exec, r) && InCode(s, c) && s.sched.cur != c
    ensures c in r.pc && r.pc[c] == s.pc[c] && DepthsChange(s, r, c, l, 0)
  {
    hide TryBlock, TryUnblock;
  }

  lemma SpawnedNew(s: State, e: Event)
    requires PcInv(s) && e.Spawn? && Occurs(s.sched, e)
    ensures e.t !in s.pc
  {
  }

  /** One statement of a thread in `lock_acquire`: the call goes on, or it returns with one acquire more. */
  lemma AcquireStep(s: State, r: State, c: Tid, l: Lid)
    requires LocksInv(s) && Step(s, Exec, r) && c == s.sched.cur && c in s.pc && Acquiring(s.pc[c], l)
    ensures c in r.pc
    ensures r.pc[c].Free? ==> DepthsChange(s, r, c, l, 1)
    ensures !r.pc[c].Free? ==> Acquiring(r.pc[c], l) && DepthsChange(s, r, c, l, 0)
    ensures StatementsLeft(r.pc[c]) + (if MustWait(s) then 0 else 1) <= StatementsLeft(s.pc[c])
  {
    hide LocksInv, TryBlock;
  }

  /** The call has not returned, and nothing is acquired yet. */
  lemma {:induction false} AcquireGoesOn(states: seq<State>, actions: seq<Action>, i: nat, n: nat, c: Tid, l: Lid)
    requires IsExecution(states, actions) && i < n < |states| && actions[i] == CallAcquire(l)
    requires c == states[i].sched.cur && InCode(states[n], c) && forall k :: i < k <= n ==> InCode(states[k], c)
    ensures Acquiring(states[n].pc[c], l) && DepthsChange(states[i], states[n], c, l, 0)
    decreases n
  {
    hide LocksInv, ExecStep, AssertsHold, Attempt, Init;
    assert Step(states[n - 1], actions[n - 1], states[n]);
    if n > i + 1 {
      AcquireGoesOn(states, actions, i, n - 1, c, l);
      CallStep(states, actions, n - 1, c, l);
    }
  }

  /** One step, whoever takes it, of an execution in which `c` is in `lock_acquire`. */
  lemma CallStep(states: seq<State>, actions: seq<Action>, k: nat, c: Tid, l: Lid)
    requires IsExecution(states, actions) && k < |actions| && InCode(states[k], c) && Acquiring(states[k].pc[c], l)
    ensures c in states[k + 1].pc
    ensures states[k + 1].pc[c].Free? ==> DepthsChange(states[k], states[k + 1], c, l, 1)
    ensures InCode(states[k + 1], c) ==>
      Acquiring(states[k + 1].pc[c], l) && DepthsChange(states[k], states[k + 1], c, l, 0)
  {
    hide Step, LockInv, PcInv, Init;
    ExecutionKeeps(states, actions, k);
    if actions[k].Exec? && states[k].sched.cur == c {
      AcquireStep(states[k], states[k + 1], c, l);
    } else {
      OthersStep(states[k], actions[k], states[k + 1], c, l);
    }
  }

  /** A call of `lock_acquire` that returns has the lock: over every interleaving, when the calling thread is in its own
      code again for the first time, it has one acquire of that lock more, it is the holder, and the semaphore is
      taken. */
  lemma AcquireReturns(states: seq<State>, actions: seq<Action>, i: nat, j: nat, c: Tid, l: Lid)
    requires IsExecution(states, actions) && i < j < |states| && actions[i] == CallAcquire(l)
    requires c == states[i].sched.cur && c in states[j].pc && states[j].pc[c].Free?
    requires forall k :: i < k < j ==> InCode(states[k], c)
    ensures DepthsChange(states[i], states[j], c, l, 1) && l in states[j].locks
    ensures states[j].locks[l].holder == Some(c) && states[j].locks[l].value == 0
    ensures states[j].locks[l].repeat == Depth(states[j], c, l)
  {
    hide PcInv, ExecStep, AssertsHold, Attempt, Init, MutexInv, HolderInv, QueueInv;
    assert Step(states[i], actions[i], states[i + 1]);
    assert j > i + 1;
    AcquireGoesOn(states, actions, i, j - 1, c, l);
    CallStep(states, actions, j - 1, c, l);
    ExecutionKeeps(states, actions, j);
    KnownLock(states[j], c, l);
    assert LockInv(states[j], l);
    DepthOf(states[j], c, l);
  }

  lemma KnownLock(s: State, c: Tid, l: Lid)
    requires PcInv(s) && Depth(s, c, l) > 0
    ensures l in s.locks
  {
    hide Inv, Runnable;
    assert (c, l) in s.depth;
  }

  // ---------------------------------------------------------------- releasing

  /** Where a thread is that called `lock_release` with `d` acquires of the lock. */
  ghost predicate Releasing(s: State, c: Tid, l: Lid, d: nat) {
    && c in s.pc
    && (|| (s.pc[c] == Leave(l) && Depth(s, c, l) == d)
        || (s.pc[c] in {DropHolder(l), DropRepeat(l), Up(l)} && Depth(s, c, l) == 0 && d == 1))
  }

  /** No other lock is acquired or released by the thread. */
  ghost predicate OtherDepths(s: State, r: State, c: Tid, l: Lid) {
    forall m :: m != l ==> Depth(r, c, m) == Depth(s, c, m)
  }

  lemma ReleaseStep(s: State, r: State, c: Tid, l: Lid, d: nat)
    requires LocksInv(s) && Step(s, Exec, r) && c == s.sched.cur && Releasing(s, c, l, d) && d > 0 && l in s.locks
    ensures c in r.pc && OtherDepths(s, r, c, l) && StatementsLeft(r.pc[c]) < StatementsLeft(s.pc[c])
    ensures !r.pc[c].Free? ==> Releasing(r, c, l, d)
    ensures r.pc[c].Free? ==> Depth(r, c, l) == d - 1
    ensures r.pc[c].Free? && d == 1 ==> s.pc[c] == Up(l) && l in r.locks && r.locks[l].value == 1
  {
    hide PcInv, QueueInv, MutexInv, HolderInv, ExecStep, AssertsHold, Inside, Holds;
    assert LockInv(s, l);
    OwnRepeat(s, c, l);
    if s.pc[c].Up? { UpReturns(s, r, c, l); } else { LeaveStep(s, r, c, l, d); }
  }

  lemma OwnRepeat(s: State, c: Tid, l: Lid)
    requires l in s.locks && c in s.pc && HolderInv(s, l)
    ensures DepthInv(s, c, l)
  {
    hide DepthInv;
  }

  lemma UpReturns(s: State, r: State, c: Tid, l: Lid)
    requires Step(s, Exec, r) && c == s.sched.cur && c in s.pc && s.pc[c] == Up(l)
    ensures c in r.pc && r.pc[c] == Free && r.depth == s.depth && l in r.locks && r.locks[l].value == 1
  {
    hide TryUnblock, TryBlock;
  }

  lemma LeaveStep(s: State, r: State, c: Tid, l: Lid, d: nat)
    requires Step(s, Exec, r) && c == s.sched.cur && Releasing(s, c, l, d) && d > 0 && !s.pc[c].Up? && l in s.locks
    requires Depth(s, c, l) > 0 ==> s.locks[l].repeat == Depth(s, c, l)
    ensures c in r.pc && OtherDepths(s, r, c, l) && StatementsLeft(r.pc[c]) < StatementsLeft(s.pc[c])
    ensures !r.pc[c].Free? ==> Releasing(r, c, l, d)
    ensures r.pc[c].Free? ==> Depth(r, c, l) == d - 1 && d > 1
  {
    hide TryUnblock, TryBlock;
  }

  /** One step, whoever takes it, of an execution in which `c` is in `lock_release`. */
  lemma ReleaseCallStep(states: seq<State>, actions: seq<Action>, k: nat, c: Tid, l: Lid, d: nat)
    requires IsExecution(states, actions) && k < |actions| && Releasing(states[k], c, l, d) && d > 0
    ensures c in states[k + 1].pc && OtherDepths(states[k], states[k + 1], c, l)
    ensures InCode(states[k + 1], c) ==> Releasing(states[k + 1], c, l, d)
    ensures states[k + 1].pc[c].Free? ==> Depth(states[k + 1], c, l) == d - 1
    ensures states[k + 1].pc[c].Free? && d == 1 ==>
      && states[k].pc[c] == Up(l) && actions[k].Exec? && states[k].sched.cur == c
      && l in states[k + 1].locks && states[k + 1].locks[l].value == 1
  {
    hide Step, LockInv, PcInv, Init, Releasing;
    ExecutionKeeps(states, actions, k);
    ReleasingLock(states[k], c, l, d);
    if actions[k].Exec? && states[k].sched.cur == c {
      ReleaseStep(states[k], states[k + 1], c, l, d);
    } else {
      OthersStep(states[k], actions[k], states[k + 1], c, l);
      StillReleasing(states[k], states[k + 1], c, l, d);
    }
  }

  lemma ReleasingLock(s: State, c: Tid, l: Lid, d: nat)
    requires PcInv(s) && Releasing(s, c, l, d)
    ensures InCode(s, c) && l in s.locks
  {
    hide Inv, Runnable;
  }

  lemma StillReleasing(s: State, r: State, c: Tid, l: Lid, d: nat)
    requires Releasing(s, c, l, d) && c in r.pc && r.pc[c] == s.pc[c] && DepthsChange(s, r, c, l, 0)
    ensures Releasing(r, c, l, d) && OtherDepths(s, r, c, l)
  {
  }

  lemma {:induction false} ReleaseGoesOn(states: seq<State>, actions: seq<Action>, i: nat, n: nat, c: Tid, l: Lid)
    requires IsExecution(states, actions) && i < n < |states| && actions[i] == CallRelease(l)
    requires c == states[i].sched.cur && InCode(states[n], c) && forall k :: i < k <= n ==> InCode(states[k], c)
    ensures Depth(states[i], c, l) > 0 && Releasing(states[n], c, l, Depth(states[i], c, l))
    ensures OtherDepths(states[i], states[n], c, l)
    decreases n
  {
    hide LocksInv, ExecStep, AssertsHold, Attempt, Init;
    assert Step(states[i], actions[i], states[i + 1]);
    if n > i + 1 {
      ReleaseGoesOn(states, actions, i, n - 1, c, l);
      ReleaseCallStep(states, actions, n - 1, c, l, Depth(states[i], c, l));
    }
  }

  /** The mirror: a call of `lock_release` that returns has undone one acquire. After the outermost one the lock has no
      holder and its semaphore is open at once; before, the thread still has the lock. */
  lemma ReleaseReturns(states: seq<State>, actions: seq<Action>, i: nat, j: nat, c: Tid, l: Lid)
    requires IsExecution(states, actions) && i < j < |states| && actions[i] == CallRelease(l)
    requires c == states[i].sched.cur && c in states[j].pc && states[j].pc[c].Free?
    requires forall k :: i < k < j ==> InCode(states[k], c)
    ensures DepthsChange(states[i], states[j], c, l, -1) && l in states[j].locks
    ensures Depth(states[i], c, l) == 1 ==> states[j].locks[l].value == 1 && states[j].locks[l].holder == None
    ensures Depth(states[i], c, l) > 1 ==>
      && states[j].locks[l].value == 0 && states[j].locks[l].holder == Some(c)
      && states[j].locks[l].repeat == Depth(states[j], c, l)
  {
    hide PcInv, ExecStep, AssertsHold, Attempt, Init, MutexInv, HolderInv, QueueInv;
    assert Step(states[i], actions[i], states[i + 1]);
    assert j > i + 1;
    ReleaseGoesOn(states, actions, i, j - 1, c, l);
    ReleaseCallStep(states, actions, j - 1, c, l, Depth(states[i], c, l));
    ExecutionKeeps(states, actions, j);
    if Depth(states[i], c, l) > 1 { KnownLock(states[j], c, l); }
    assert LockInv(states[j], l);
    DepthOf(states[j], c, l);
    if Depth(states[i], c, l) == 1 { NoHolder(states[j], l); }
  }

  /** An open lock has no holder. */
  lemma NoHolder(s: State, l: Lid)
    requires l in s.locks && MutexInv(s, l) && HolderInv(s, l) && s.locks[l].value == 1
    ensures s.locks[l].holder == None
  {
    if s.locks[l].holder.Some? {
      var t := s.locks[l].holder.value;
      assert DepthInv(s, t, l);
      assert Holds(s, t, l) ==> Inside(s, t, l);
    }
  }

  /** Outside the two calls nothing is acquired or released: until its next call a thread keeps what it has. */
  lemma {:induction false} OutsideKeeps(states: seq<State>, actions: seq<Action>, i: nat, j: nat, c: Tid, l: Lid)
    requires IsExecution(states, actions) && i <= j < |states| && c in states[i].pc
    requires forall k :: i <= k < j ==> c in states[k].pc && states[k].pc[c].Free?
    ensures DepthsChange(states[i], states[j], c, l, 0)
    decreases j
  {
    hide Step, Init;
    if i < j {
      OutsideKeeps(states, actions, i, j - 1, c, l);
      FirstStep(states, actions, j - 1);
      OutsideStep(states[j - 1], actions[j - 1], states[j], c, l);
    }
  }

  lemma OutsideStep(s: State, a: Action, r: State, c: Tid, l: Lid)
    requires Step(s, a, r) && c in s.pc && s.pc[c].Free?
    ensures DepthsChange(s, r, c, l, 0)
  {
    hide TryBlock, TryUnblock, Attempt;
  }

  // ---------------------------------------------------------------- how long a call takes

  /** Statements of the lock code that `c` executes from index `i` on. */
  ghost function Executed(states: seq<State>, actions: seq<Action>, i: nat, n: nat, c: Tid): nat
    requires i <= n <= |actions| <= |states|
    decreases n
  {
    if i == n then 0
    else
      var one := if actions[n - 1].Exec? && states[n - 1].sched.cur == c then 1 else 0;
      Executed(states, actions, i, n - 1, c) + one
  }

  /** Those of them that find the semaphore taken. */
  ghost function Waited(states: seq<State>, actions: seq<Action>, i: nat, n: nat, c: Tid): nat
    requires i <= n <= |actions| <= |states|
    decreases n
  {
    if i == n then 0
    else
      var one := if actions[n - 1].Exec? && states[n - 1].sched.cur == c && MustWait(states[n - 1]) then 1 else 0;
      Waited(states, actions, i, n - 1, c) + one
  }

  /** A call of `lock_acquire` returns after at most four statements of its thread, not counting those that find the
      semaphore taken. */
  lemma {:induction false} AcquireBound(states: seq<State>, actions: seq<Action>, i: nat, n: nat, c: Tid, l: Lid)
    requires IsExecution(states, actions) && i < n < |states| && actions[i] == CallAcquire(l)
    requires c == states[i].sched.cur && InCode(states[n], c) && forall k :: i < k <= n ==> InCode(states[k], c)
    ensures Executed(states, actions, i + 1, n, c) + StatementsLeft(states[n].pc[c]) <=
      4 + Waited(states, actions, i + 1, n, c)
    ensures Executed(states, actions, i + 1, n, c) < 4 + Waited(states, actions, i + 1, n, c)
    decreases n
  {
    hide LocksInv, Step, Init, MustWait;
    AcquireStarts(states, actions, i);
    if n > i + 1 {
      AcquireBound(states, actions, i, n - 1, c, l);
      AcquireGoesOn(states, actions, i, n - 1, c, l);
      AcquireCost(states, actions, n - 1, c, l);
    }
  }

  lemma FirstStep(states: seq<State>, actions: seq<Action>, i: nat)
    requires IsExecution(states, actions) && i < |actions|
    ensures Step(states[i], actions[i], states[i + 1])
  {
    hide Step;
  }

  lemma AcquireStarts(states: seq<State>, actions: seq<Action>, i: nat)
    requires IsExecution(states, actions) && i < |actions| && actions[i].CallAcquire?
    ensures states[i].sched.cur in states[i + 1].pc && states[i + 1].pc[states[i].sched.cur] == Test(actions[i].l)
  {
    hide Init;
    FirstStep(states, actions, i);
  }

  lemma ReleaseStarts(states: seq<State>, actions: seq<Action>, i: nat)
    requires IsExecution(states, actions) && i < |actions| && actions[i].CallRelease?
    ensures states[i].sched.cur in states[i + 1].pc && states[i + 1].pc[states[i].sched.cur] == Leave(actions[i].l)
    ensures Depth(states[i], states[i].sched.cur, actions[i].l) > 0
  {
    hide Init;
    FirstStep(states, actions, i);
  }

  lemma AcquireCost(states: seq<State>, actions: seq<Action>, k: nat, c: Tid, l: Lid)
    requires IsExecution(states, actions) && k < |actions| && InCode(states[k], c) && Acquiring(states[k].pc[c], l)
    ensures c in states[k + 1].pc
    ensures var own := actions[k].Exec? && states[k].sched.cur == c;
      StatementsLeft(states[k + 1].pc[c]) + (if own && !MustWait(states[k]) then 1 else 0) <=
        StatementsLeft(states[k].pc[c])
  {
    hide Step, LockInv, PcInv, Init, MustWait;
    ExecutionKeeps(states, actions, k);
    if actions[k].Exec? && states[k].sched.cur == c {
      AcquireStep(states[k], states[k + 1], c, l);
    } else {
      OthersStep(states[k], actions[k], states[k + 1], c, l);
    }
  }

  /** A call of `lock_release` never waits: it returns after at most four statements of its thread. */
  lemma {:induction false} ReleaseBound(states: seq<State>, actions: seq<Action>, i: nat, n: nat, c: Tid, l: Lid)
    requires IsExecution(states, actions) && i < n < |states| && actions[i] == CallRelease(l)
    requires c == states[i].sched.cur && InCode(states[n], c) && forall k :: i < k <= n ==> InCode(states[k], c)
    ensures Executed(states, actions, i + 1, n, c) + StatementsLeft(states[n].pc[c]) <= 4
    ensures Executed(states, actions, i + 1, n, c) < 4
    decreases n
  {
    hide LocksInv, Step, Init;
    ReleaseStarts(states, actions, i);
    if n > i + 1 {
      ReleaseBound(states, actions, i, n - 1, c, l);
      ReleaseGoesOn(states, actions, i, n - 1, c, l);
      ReleaseCost(states, actions, n - 1, c, l, Depth(states[i], c, l));
    }
  }

  lemma ReleaseCost(states: seq<State>, actions: seq<Action>, k: nat, c: Tid, l: Lid, d: nat)
    requires IsExecution(states, actions) && k < |actions| && Releasing(states[k], c, l, d) && d > 0
    ensures c in states[k + 1].pc
    ensures StatementsLeft(states[k + 1].pc[c]) + (if actions[k].Exec? && states[k].sched.cur == c then 1 else 0) <=
      StatementsLeft(states[k].pc[c])
  {
    hide Step, LockInv, PcInv, Init, Releasing;
    ExecutionKeeps(states, actions, k);
    ReleasingLock(states[k], c, l, d);
    if actions[k].Exec? && states[k].sched.cur == c {
      ReleaseStep(states[k], states[k + 1], c, l, d);
    } else {
      OthersStep(states[k], actions[k], states[k + 1], c, l);
    }
  }

  // ---------------------------------------------------------------- the order of the waiters

  /** A thread that finds the semaphore taken goes to the end of the queue and sleeps; one that finds it open takes
      it. */
  lemma DownQueues(states: seq<State>, actions: seq<Action>, n: nat)
    requires IsExecution(states, actions) && n < |actions| && actions[n].Exec?
    requires var s := states[n]; s.sched.cur in s.pc && (s.pc[s.sched.cur].Down? || s.pc[s.sched.cur].Retry?)
    ensures var s, r := states[n], states[n + 1]; var c := s.sched.cur; var l := s.pc[c].l;
      && l in s.locks && l in r.locks && c in r.pc && c in r.sched.tasks
      && r.locks[l].value == 0
      && (MustWait(s) ==>
            && r.locks[l].waiters == s.locks[l].waiters + [c]
            && r.pc[c] == Retry(l) && r.sched.tasks[c].status == Blocked)
      && (!MustWait(s) ==> r.locks[l].waiters == s.locks[l].waiters && r.pc[c] == TakeHolder(l))
  {
    hide Inv, LockInv, TryBlock, Block, Init;
    FirstStep(states, actions, n);
    ExecutionKeeps(states, actions, n);
    var s := states[n];
    CurrentThread(s);
    BlockWorks(s.sched);
    BlockStatus(s.sched, Blocked);
  }

  /** `sema_up` opens the semaphore and wakes the thread that has waited longest, which is first to run. */
  lemma UpWakesFirst(states: seq<State>, actions: seq<Action>, n: nat)
    requires IsExecution(states, actions) && n < |actions| && actions[n].Exec?
    requires var s := states[n]; s.sched.cur in s.pc && s.pc[s.sched.cur].Up?
    ensures var s, r := states[n], states[n + 1]; var l := s.pc[s.sched.cur].l;
      && l in s.locks && l in r.locks && r.locks[l].value == 1
      && (s.locks[l].waiters == [] ==> r.locks[l].waiters == [] && r.sched == s.sched)
      && (s.locks[l].waiters != [] ==>
            && r.locks[l].waiters == s.locks[l].waiters[1..] && Woken(r, s.locks[l].waiters[0], l)
            && r.sched.ready == [s.locks[l].waiters[0]] + s.sched.ready && r.sched.cur == s.sched.cur)
  {
    hide Inv, MutexInv, HolderInv, TryUnblock, Init;
    FirstStep(states, actions, n);
    ExecutionKeeps(states, actions, n);
    var s := states[n];
    var l := s.pc[s.sched.cur].l;
    CurrentThread(s);
    assert LockInv(s, l);
    if s.locks[l].waiters != [] {
      assert s.locks[l].waiters[0] in s.locks[l].waiters;
      UnblockWorks(s.sched, s.locks[l].waiters[0]);
    }
  }

  // ---------------------------------------------------------------- calls that nobody disturbs

  /** These actions, one after the other, can lead from `s` to `r`. */
  ghost predicate Leads(s: State, acts: seq<Action>, r: State)
    decreases |acts|
  {
    if acts == [] then s == r else exists m :: Step(s, acts[0], m) && Leads(m, acts[1..], r)
  }

  lemma LeadsOn(s: State, a: Action, m: State, acts: seq<Action>, r: State)
    requires Step(s, a, m) && Leads(m, acts, r)
    ensures Leads(s, [a] + acts, r)
  {
    hide Step;
    assert ([a] + acts)[0] == a && ([a] + acts)[1..] == acts;
  }

  /** The running thread is at `p`, and its next statement is possible. */
  ghost predicate RunsAt(s: State, c: Tid, p: Pc) {
    LocksInv(s) && s.sched.cur == c && c in s.pc && s.pc[c] == p
  }

  lemma ExecPossible(s: State, c: Tid, p: Pc)
    requires RunsAt(s, c, p) && !p.Free?
    ensures Possible(s, Exec) && AssertsHold(s) && Step(s, Exec, ExecStep(s)) && LocksInv(ExecStep(s))
  {
    hide LockInv, Inv, AssertsHold, ExecStep;
    NoAssertFails(s);
    StepKeeps(s, Exec, ExecStep(s));
  }

  /** A statement that switches no thread. */
  ghost predicate Moves(s: State, r: State, c: Tid, p: Pc, l: Lid, n: int) {
    Step(s, Exec, r) && RunsAt(r, c, p) && DepthsChange(s, r, c, l, n)
  }

  lemma TestMoves(s: State, c: Tid, l: Lid) returns (r: State)
    requires RunsAt(s, c, Test(l))
    ensures l in s.locks
    ensures Moves(s, r, c, if s.locks[l].holder == Some(c) then Bump(l) else Down(l), l, 0) && r.locks == s.locks
  {
    hide LocksInv, AssertsHold, TryBlock, TryUnblock;
    ExecPossible(s, c, Test(l));
    r := ExecStep(s);
  }

  lemma DownMoves(s: State, c: Tid, l: Lid) returns (r: State)
    requires RunsAt(s, c, Down(l)) && l in s.locks && s.locks[l].value == 1
    ensures Moves(s, r, c, TakeHolder(l), l, 0)
  {
    hide LocksInv, AssertsHold, TryBlock, TryUnblock;
    ExecPossible(s, c, Down(l));
    r := ExecStep(s);
  }

  lemma TakeMoves(s: State, c: Tid, l: Lid) returns (r: State)
    requires RunsAt(s, c, TakeHolder(l))
    ensures Moves(s, r, c, SetRepeat(l), l, 0)
  {
    hide LocksInv, AssertsHold, TryBlock, TryUnblock;
    ExecPossible(s, c, TakeHolder(l));
    r := ExecStep(s);
  }

  lemma CountMoves(s: State, c: Tid, l: Lid, p: Pc) returns (r: State)
    requires RunsAt(s, c, p) && p in {SetRepeat(l), Bump(l)}
    ensures Moves(s, r, c, Free, l, 1)
  {
    hide LocksInv, AssertsHold, TryBlock, TryUnblock;
    ExecPossible(s, c, p);
    r := ExecStep(s);
  }

  lemma LeaveMoves(s: State, c: Tid, l: Lid) returns (r: State)
    requires RunsAt(s, c, Leave(l)) && l in s.locks
    ensures Moves(s, r, c, if s.locks[l].repeat > 1 then Free else DropHolder(l), l, -1)
  {
    hide AssertsHold, TryBlock, TryUnblock, PcInv, MutexInv, QueueInv;
    ExecPossible(s, c, Leave(l));
    assert LockInv(s, l);
    OwnRepeat(s, c, l);
    r := ExecStep(s);
  }

  lemma DropMoves(s: State, c: Tid, l: Lid) returns (r: State)
    requires RunsAt(s, c, DropHolder(l))
    ensures Moves(s, r, c, DropRepeat(l), l, 0)
  {
    hide LocksInv, AssertsHold, TryBlock, TryUnblock;
    ExecPossible(s, c, DropHolder(l));
    r := ExecStep(s);
  }

  lemma RepeatMoves(s: State, c: Tid, l: Lid) returns (r: State)
    requires RunsAt(s, c, DropRepeat(l))
    ensures Moves(s, r, c, Up(l), l, 0)
  {
    hide LocksInv, AssertsHold, TryBlock, TryUnblock;
    ExecPossible(s, c, DropRepeat(l));
    r := ExecStep(s);
  }

  lemma UpMoves(s: State, c: Tid, l: Lid) returns (r: State)
    requires RunsAt(s, c, Up(l)) && l in s.locks
    ensures Moves(s, r, c, Free, l, 0)
  {
    hide AssertsHold, TryBlock, TryUnblock, PcInv, MutexInv, HolderInv, Inv;
    ExecPossible(s, c, Up(l));
    assert LockInv(s, l);
    CurrentThread(s);
    if s.locks[l].waiters != [] {
      assert s.locks[l].waiters[0] in s.locks[l].waiters;
      UnblockWorks(s.sched, s.locks[l].waiters[0]);
    }
    r := ExecStep(s);
  }

  /** The running thread can take a lock that is open, or that it has already, all by itself. */
  lemma {:induction false} AcquireAlone(s: State, c: Tid, l: Lid) returns (acts: seq<Action>, r: State)
    requires RunsAt(s, c, Free) && l in s.locks && c != s.sched.idle
    requires s.locks[l].value == 1 || Depth(s, c, l) > 0
    ensures Leads(s, [CallAcquire(l)] + acts, r) && |acts| <= 4 && forall a :: a in acts ==> a == Exec
    ensures RunsAt(r, c, Free) && DepthsChange(s, r, c, l, 1)
  {
    hide LocksInv, Step, RunsAt, Leads;
    var s1 := CallMoves(s, c, l);
    var s2 := TestMoves(s1, c, l);
    EndsHere(s2);
    OwnOrOpen(s, c, l);
    if s.locks[l].value == 1 {
      var s3 := DownMoves(s2, c, l);
      var s4 := TakeMoves(s3, c, l);
      r := CountMoves(s4, c, l, SetRepeat(l));
      EndsHere(r);
      LeadsOn(s4, Exec, r, [], r);
      LeadsOn(s3, Exec, s4, [Exec] + [], r);
      LeadsOn(s2, Exec, s3, [Exec] + ([Exec] + []), r);
      LeadsOn(s1, Exec, s2, [Exec] + ([Exec] + ([Exec] + [])), r);
      acts := [Exec] + ([Exec] + ([Exec] + ([Exec] + [])));
    } else {
      r := CountMoves(s2, c, l, Bump(l));
      EndsHere(r);
      LeadsOn(s2, Exec, r, [], r);
      LeadsOn(s1, Exec, s2, [Exec] + [], r);
      acts := [Exec] + ([Exec] + []);
    }
    LeadsOn(s, CallAcquire(l), s1, acts, r);
  }

  lemma EndsHere(s: State)
    ensures Leads(s, [], s)
  {
  }

  lemma CallMoves(s: State, c: Tid, l: Lid) returns (r: State)
    requires RunsAt(s, c, Free) && l in s.locks && c != s.sched.idle
    ensures Step(s, CallAcquire(l), r) && RunsAt(r, c, Test(l)) && DepthsChange(s, r, c, l, 0) && r.locks == s.locks
  {
    hide LocksInv;
    r := s.(pc := s.pc[c := Test(l)]);
    StepKeeps(s, CallAcquire(l), r);
  }

  /** An open lock is nobody's; a thread that has it is the holder. */
  lemma OwnOrOpen(s: State, c: Tid, l: Lid)
    requires RunsAt(s, c, Free) && l in s.locks
    ensures s.locks[l].value == 1 ==> s.locks[l].holder == None
    ensures Depth(s, c, l) > 0 ==> s.locks[l].holder == Some(c) && s.locks[l].value == 0
    ensures Depth(s, c, l) > 0 ==> s.locks[l].repeat == Depth(s, c, l)
  {
    hide PcInv, QueueInv, MutexInv, HolderInv;
    assert LockInv(s, l);
    DepthOf(s, c, l);
    if s.locks[l].value == 1 { NoHolder(s, l); }
  }

  /** And it can always give back what it has. */
  lemma {:induction false} ReleaseAlone(s: State, c: Tid, l: Lid) returns (acts: seq<Action>, r: State)
    requires RunsAt(s, c, Free) && l in s.locks && c != s.sched.idle && Depth(s, c, l) > 0
    ensures Leads(s, [CallRelease(l)] + acts, r) && |acts| <= 4 && forall a :: a in acts ==> a == Exec
    ensures RunsAt(r, c, Free) && DepthsChange(s, r, c, l, -1)
  {
    hide LocksInv, Step, RunsAt, Leads;
    var s1 := GiveMoves(s, c, l);
    var s2 := LeaveMoves(s1, c, l);
    if s.locks[l].repeat > 1 {
      r := s2;
      EndsHere(r);
      LeadsOn(s1, Exec, r, [], r);
      acts := [Exec] + [];
    } else {
      var s3 := DropMoves(s2, c, l);
      var s4 := RepeatMoves(s3, c, l);
      KnownAt(s4, c, Up(l));
      r := UpMoves(s4, c, l);
      EndsHere(r);
      LeadsOn(s4, Exec, r, [], r);
      LeadsOn(s3, Exec, s4, [Exec] + [], r);
      LeadsOn(s2, Exec, s3, [Exec] + ([Exec] + []), r);
      LeadsOn(s1, Exec, s2, [Exec] + ([Exec] + ([Exec] + [])), r);
      acts := [Exec] + ([Exec] + ([Exec] + ([Exec] + [])));
    }
    LeadsOn(s, CallRelease(l), s1, acts, r);
  }

  lemma KnownAt(s: State, c: Tid, p: Pc)
    requires RunsAt(s, c, p) && !p.Free?
    ensures p.l in s.locks
  {
    hide LockInv, Inv, Runnable;
  }

  lemma GiveMoves(s: State, c: Tid, l: Lid) returns (r: State)
    requires RunsAt(s, c, Free) && l in s.locks && c != s.sched.idle && Depth(s, c, l) > 0
    ensures Step(s, CallRelease(l), r) && RunsAt(r, c, Leave(l)) && DepthsChange(s, r, c, l, 0) && r.locks == s.locks
  {
    hide LocksInv;
    r := s.(pc := s.pc[c := Leave(l)]);
    StepKeeps(s, CallRelease(l), r);
  }
}
