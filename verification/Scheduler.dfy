/** thread.c and timer.c: the ready list, the thread states and the time slices.

    `Sched` is a value of the scheduler's variables and the functions on it say what each kernel
    routine does. The class `Scheduler` holds the same variables and changes them step by step, with
    every ASSERT of the source discharged. The theorems at the end are about whole runs, in which each step
    has the ASSERTs and PANICs of the source and stops at one that fails. */
module Scheduling {
  import opened Outcomes
  import opened Sequences

  /** A thread is named by the address of its control block. */
  type Tid = nat

  datatype Status = Running | Ready | Blocked | Waiting | Hanging

  datatype Task = Task(status: Status, ticks: nat, priority: nat, elapsed: nat)

  datatype Sched = Sched(cur: Tid, tasks: map<Tid, Task>, ready: seq<Tid>, idle: Tid)

  predicate Asleep(st: Status) {
    st.Blocked? || st.Waiting? || st.Hanging?
  }

  /** What holds whenever `schedule` is entered: the ready list is duplicate free and holds exactly the
      READY threads, nobody but the current thread is RUNNING, and idle is never asleep for any other
      reason than its own `thread_block(TASK_BLOCKED)`. */
  ghost predicate Consistent(s: Sched) {
    && s.cur in s.tasks && s.idle in s.tasks
    && NoDup(s.ready)
    && (forall t :: t in s.ready ==> t in s.tasks)
    && (forall t :: t in s.tasks ==> (s.tasks[t].status.Ready? <==> t in s.ready))
    && (forall t :: t in s.tasks && s.tasks[t].status.Running? ==> t == s.cur)
    && (forall t :: t in s.tasks ==> s.tasks[t].ticks <= s.tasks[t].priority)
    && s.tasks[s.idle].status in {Running, Ready, Blocked}
  }

  /** Between kernel routines the current thread is moreover the one RUNNING thread. */
  ghost predicate Inv(s: Sched) {
    Consistent(s) && s.tasks[s.cur].status.Running?
  }

  function WithStatus(s: Sched, t: Tid, st: Status): Sched
    requires t in s.tasks
  {
    s.(tasks := s.tasks[t := s.tasks[t].(status := st)])
  }

  /** `thread_unblock`: to the head of the ready list. */
  function Unblock(s: Sched, t: Tid): Sched
    requires t in s.tasks
  {
    WithStatus(s, t, Ready).(ready := [t] + s.ready)
  }

  /** `schedule`, first half: a thread preempted while RUNNING goes to the tail with a full slice. */
  function Requeue(s: Sched): Sched
    requires s.cur in s.tasks
  {
    var c := s.tasks[s.cur];
    if c.status.Running? then
      s.(ready := s.ready + [s.cur], tasks := s.tasks[s.cur := c.(status := Ready, ticks := c.priority)])
    else s
  }

  /** `schedule`: requeue, wake idle if nobody is ready, run the head of the list. */
  function Dispatch(s: Sched): (r: Sched)
    requires Consistent(s)
    ensures Inv(r) && r.tasks.Keys == s.tasks.Keys && r.idle == s.idle
  {
    RequeueConsistent(s);
    var a := Requeue(s);
    UnblockConsistent(a);
    Switch(if a.ready == [] then Unblock(a, a.idle) else a)
  }

  /** The head of the ready list runs. */
  function Switch(s: Sched): (r: Sched)
    requires Consistent(s) && s.ready != [] && !s.tasks[s.cur].status.Running?
    ensures Inv(r) && r.tasks.Keys == s.tasks.Keys && r.idle == s.idle
  {
    var next := s.ready[0];
    WithStatus(s, next, Running).(ready := s.ready[1..], cur := next)
  }

  lemma RequeueConsistent(s: Sched)
    requires Consistent(s)
    ensures Consistent(Requeue(s)) && !Requeue(s).tasks[s.cur].status.Running?
  {
  }

  /** When nobody is ready, idle is blocked and can be woken. */
  lemma UnblockConsistent(s: Sched)
    requires Consistent(s) && !s.tasks[s.cur].status.Running?
    ensures s.ready == [] ==> Consistent(Unblock(s, s.idle)) && !Unblock(s, s.idle).tasks[s.cur].status.Running?
  {
  }

  /** `thread_block(st)` on the current thread, up to the switch. */
  function Block(s: Sched, st: Status): Sched
    requires Inv(s) && Asleep(st) && (s.cur == s.idle ==> st.Blocked?)
  {
    Dispatch(WithStatus(s, s.cur, st))
  }

  /** `thread_yield`. */
  function Yield(s: Sched): Sched
    requires Inv(s)
  {
    Dispatch(WithStatus(s, s.cur, Ready).(ready := s.ready + [s.cur]))
  }

  /** `thread_start` and the end of `sys_fork`: a new thread at the tail. */
  function Start(s: Sched, t: Tid, priority: nat): Sched
    requires t !in s.tasks
  {
    s.(tasks := s.tasks[t := Task(Ready, priority, priority, 0)], ready := s.ready + [t])
  }

  /** The current thread is charged for one more tick of the clock. */
  function Charge(s: Sched): (r: Sched)
    requires Inv(s)
    ensures Inv(r) && r.tasks.Keys == s.tasks.Keys && r.cur == s.cur && r.idle == s.idle && r.ready == s.ready
    ensures forall t :: t in s.tasks ==> r.tasks[t].status == s.tasks[t].status
  {
    s.(tasks := s.tasks[s.cur := s.tasks[s.cur].(elapsed := s.tasks[s.cur].elapsed + 1)])
  }

  /** `intr_timer_handler`. */
  function Tick(s: Sched): Sched
    requires Inv(s)
  {
    var a := Charge(s);
    var c := a.tasks[a.cur];
    if c.ticks == 0 then Dispatch(a)
    else a.(tasks := a.tasks[a.cur := c.(ticks := c.ticks - 1)])
  }

  // ---------------------------------------------------------------- the code

  class Scheduler {
    var cur: Tid
    var tasks: map<Tid, Task>
    var ready: seq<Tid>
    const idle: Tid

    ghost function View(): Sched
      reads this
    {
      Sched(cur, tasks, ready, idle)
    }

    method SetStatus(t: Tid, st: Status)
      requires t in tasks
      modifies this`tasks
      ensures View() == WithStatus(old(View()), t, st)
    {
      tasks := tasks[t := tasks[t].(status := st)];
    }

    method ThreadUnblock(t: Tid)
      requires t in tasks
      requires Asleep(tasks[t].status)      // ASSERT on the status
      requires t !in ready                  // PANIC("blocked thread in ready_list")
      modifies this`tasks, this`ready
      ensures View() == Unblock(old(View()), t)
    {
      if !tasks[t].status.Ready? {
        ready := [t] + ready;
        SetStatus(t, Ready);
      }
    }

    method Schedule()
      requires Consistent(View())
      modifies this
      ensures View() == Dispatch(old(View()))
    {
      var c := cur;
      if tasks[c].status.Running? {
        assert c !in ready;                          // ASSERT(!elem_find(&thread_ready_list, ...))
        ready := ready + [c];
        tasks := tasks[c := tasks[c].(ticks := tasks[c].priority, status := Ready)];
      }
      if ready == [] {
        ThreadUnblock(idle);
      }
      assert ready != [];                            // ASSERT(!list_empty(&thread_ready_list))
      var next := ready[0];
      ready := ready[1..];
      SetStatus(next, Running);
      cur := next;
    }

    method ThreadBlock(st: Status)
      requires Inv(View()) && Asleep(st) && (cur == idle ==> st.Blocked?)
      modifies this
      ensures View() == Block(old(View()), st) && Inv(View())
    {
      SetStatus(cur, st);
      Schedule();
    }

    method ThreadYield()
      requires Inv(View())
      modifies this
      ensures View() == Yield(old(View())) && Inv(View())
    {
      assert cur !in ready;                          // ASSERT(!elem_find(&thread_ready_list, ...))
      ready := ready + [cur];
      SetStatus(cur, Ready);
      Schedule();
    }

    method ThreadStart(t: Tid, priority: nat)
      requires Inv(View()) && t !in tasks
      modifies this
      ensures View() == Start(old(View()), t, priority) && Inv(View())
    {
      tasks := tasks[t := Task(Ready, priority, priority, 0)];
      assert t !in ready;                            // ASSERT(!elem_find(&thread_ready_list, ...))
      ready := ready + [t];
    }

    method CountElapsed()
      requires Inv(View())
      modifies this`tasks
      ensures View() == Charge(old(View()))
    {
      tasks := tasks[cur := tasks[cur].(elapsed := tasks[cur].elapsed + 1)];
    }

    method TimerInterrupt()
      requires Inv(View())
      modifies this
      ensures View() == Tick(old(View())) && Inv(View())
    {
      CountElapsed();
      if tasks[cur].ticks == 0 {
        Schedule();
      } else {
        tasks := tasks[cur := tasks[cur].(ticks := tasks[cur].ticks - 1)];
      }
    }
  }

  // ---------------------------------------------------------------- runs

  /** Everything that can happen to the scheduler. `Wake` is a `thread_unblock` by whoever waited for
      the thread's event; `Sleep` is a `thread_block` by the running thread. */
  datatype Event = TimerTick | Sleep(st: Status) | Wake(t: Tid) | YieldCpu | Spawn(t: Tid, priority: nat)

  /** What the callers see to: `thread_block` gets a sleeping status, idle only blocks, a wake-up is for a sleeping
      thread, and a new control block is a fresh page. */
  predicate Occurs(s: Sched, e: Event) {
    match e
    case TimerTick => true
    case Sleep(st) => Asleep(st) && (s.cur == s.idle ==> st.Blocked?)
    case Wake(t) => t in s.tasks && Asleep(s.tasks[t].status)
    case YieldCpu => true
    case Spawn(t, _) => t !in s.tasks
  }

  ghost predicate Enabled(s: Sched, e: Event) { Inv(s) && Occurs(s, e) }

  ghost function Apply(s: Sched, e: Event): Sched
    requires Enabled(s, e)
  {
    match e
    case TimerTick => Tick(s)
    case Sleep(st) => Block(s, st)
    case Wake(t) => Unblock(s, t)
    case YieldCpu => Yield(s)
    case Spawn(t, p) => Start(s, t, p)
  }

  // The same routines in any state whatever, with the ASSERTs and the PANIC they meet.

  function TryUnblock(s: Sched, t: Tid): Outcome<Sched> {
    if t !in s.tasks || !Asleep(s.tasks[t].status) || t in s.ready then Halt else Ok(Unblock(s, t))
  }

  function TrySwitch(s: Sched): Outcome<Sched> {
    if s.ready == [] || s.ready[0] !in s.tasks then Halt
    else Ok(WithStatus(s, s.ready[0], Running).(ready := s.ready[1..], cur := s.ready[0]))
  }

  function TrySchedule(s: Sched): Outcome<Sched> {
    if s.cur !in s.tasks || (s.tasks[s.cur].status.Running? && s.cur in s.ready) then Halt
    else
      var a := Requeue(s);
      if a.ready != [] then TrySwitch(a)
      else match TryUnblock(a, a.idle)
        case Ok(b) => TrySwitch(b)
        case _ => Halt
  }

  function TryBlock(s: Sched, st: Status): Outcome<Sched> {
    if !Asleep(st) || s.cur !in s.tasks then Halt else TrySchedule(WithStatus(s, s.cur, st))
  }

  function TryYield(s: Sched): Outcome<Sched> {
    if s.cur !in s.tasks || s.cur in s.ready then Halt
    else TrySchedule(WithStatus(s, s.cur, Ready).(ready := s.ready + [s.cur]))
  }

  function TryTick(s: Sched): Outcome<Sched> {
    if s.cur !in s.tasks then Halt
    else
      var c := s.tasks[s.cur].(elapsed := s.tasks[s.cur].elapsed + 1);
      var a := s.(tasks := s.tasks[s.cur := c]);
      if c.ticks == 0 then TrySchedule(a) else Ok(a.(tasks := a.tasks[s.cur := c.(ticks := c.ticks - 1)]))
  }

  function TryStart(s: Sched, t: Tid, priority: nat): Outcome<Sched> {
    if t in s.tasks || t in s.ready then Halt else Ok(Start(s, t, priority))
  }

  /** One event: `Null` if it cannot come now, `Halt` if an ASSERT or the PANIC stops the kernel. */
  function Attempt(s: Sched, e: Event): Outcome<Sched> {
    if !Occurs(s, e) then Null
    else match e
      case TimerTick => TryTick(s)
      case Sleep(st) => TryBlock(s, st)
      case Wake(t) => TryUnblock(s, t)
      case YieldCpu => TryYield(s)
      case Spawn(t, p) => TryStart(s, t, p)
  }

  lemma ScheduleSucceeds(s: Sched)
    requires Consistent(s)
    ensures TrySchedule(s) == Ok(Dispatch(s))
  {
  }

  /** In a state with the invariant no ASSERT and no PANIC of the scheduler fires. */
  lemma AttemptSucceeds(s: Sched, e: Event)
    requires Enabled(s, e)
    ensures Attempt(s, e) == Ok(Apply(s, e))
  {
    hide TrySchedule, Dispatch;
    match e
    case TimerTick => ScheduleSucceeds(Charge(s));
    case Sleep(st) => BlockConsistent(s, st); ScheduleSucceeds(WithStatus(s, s.cur, st));
    case Wake(t) =>
    case YieldCpu => YieldConsistent(s); ScheduleSucceeds(WithStatus(s, s.cur, Ready).(ready := s.ready + [s.cur]));
    case Spawn(t, p) =>
  }

  lemma BlockConsistent(s: Sched, st: Status)
    requires Enabled(s, Sleep(st))
    ensures Consistent(WithStatus(s, s.cur, st))
  {
  }

  lemma YieldConsistent(s: Sched)
    requires Inv(s)
    ensures Consistent(WithStatus(s, s.cur, Ready).(ready := s.ready + [s.cur]))
  {
  }

  /** Every event keeps the invariant: one RUNNING thread, READY = ready list, idle wakeable. */
  lemma StepKeepsInv(s: Sched, e: Event)
    requires Enabled(s, e)
    ensures Inv(Apply(s, e)) && Apply(s, e).idle == s.idle
    ensures s.tasks.Keys <= Apply(s, e).tasks.Keys
  {
    hide Inv, Dispatch, Tick, Consistent;
    match e
    case TimerTick => TickInv(s);
    case Sleep(st) => BlockInv(s, st);
    case Wake(t) => WakeInv(s, t);
    case YieldCpu => YieldInv(s);
    case Spawn(t, p) => StartInv(s, t, p);
  }

  lemma TickInv(s: Sched)
    requires Inv(s)
    ensures Inv(Tick(s)) && Tick(s).idle == s.idle && Tick(s).tasks.Keys == s.tasks.Keys
  {
    hide Dispatch;
  }

  lemma BlockInv(s: Sched, st: Status)
    requires Enabled(s, Sleep(st))
    ensures Inv(Block(s, st)) && Block(s, st).idle == s.idle && Block(s, st).tasks.Keys == s.tasks.Keys
  {
    hide Dispatch;
    BlockConsistent(s, st);
  }

  lemma YieldInv(s: Sched)
    requires Inv(s)
    ensures Inv(Yield(s)) && Yield(s).idle == s.idle && Yield(s).tasks.Keys == s.tasks.Keys
  {
    hide Dispatch;
    YieldConsistent(s);
  }

  lemma WakeInv(s: Sched, t: Tid)
    requires Enabled(s, Wake(t))
    ensures Inv(Unblock(s, t)) && Unblock(s, t).tasks.Keys == s.tasks.Keys
  {
    assert t !in s.ready;
  }

  lemma StartInv(s: Sched, t: Tid, p: nat)
    requires Enabled(s, Spawn(t, p))
    ensures Inv(Start(s, t, p)) && s.tasks.Keys <= Start(s, t, p).tasks.Keys
  {
  }

  // ---------------------------------------------------------------- who sleeps

  /** In going from `s` to `r` thread `t` is neither put to sleep nor woken. */
  ghost predicate SleepKept(s: Sched, r: Sched, t: Tid)
    requires t in s.tasks
  {
    && t in r.tasks
    && (Asleep(s.tasks[t].status) ==> r.tasks[t].status == s.tasks[t].status)
    && (!Asleep(s.tasks[t].status) ==> !Asleep(r.tasks[t].status))
  }

  /** `schedule` puts nobody to sleep and, idle apart, wakes nobody. */
  lemma DispatchStatus(s: Sched)
    requires Consistent(s)
    ensures forall t :: t in s.tasks && t != s.idle ==> SleepKept(s, Dispatch(s), t)
  {
  }

  lemma TickStatus(s: Sched)
    requires Inv(s)
    ensures Inv(Tick(s)) && Tick(s).idle == s.idle && Tick(s).tasks.Keys == s.tasks.Keys
    ensures forall t :: t in s.tasks && t != s.idle ==> SleepKept(s, Tick(s), t)
  {
    var a := Charge(s);
    if a.tasks[a.cur].ticks == 0 {
      DispatchStatus(a);
      forall t | t in s.tasks && t != s.idle ensures SleepKept(s, Tick(s), t) {
        assert SleepKept(a, Dispatch(a), t);
      }
    }
  }

  lemma BlockStatus(s: Sched, st: Status)
    requires Enabled(s, Sleep(st))
    ensures Inv(Block(s, st)) && Block(s, st).idle == s.idle && Block(s, st).tasks.Keys == s.tasks.Keys
    ensures forall t :: t in s.tasks && t != s.idle && t != s.cur ==> SleepKept(s, Block(s, st), t)
    ensures s.cur != s.idle ==> Block(s, st).tasks[s.cur].status == st
  {
    var a := WithStatus(s, s.cur, st);
    assert Consistent(a);
    DispatchStatus(a);
    forall t | t in s.tasks && t != s.idle && t != s.cur ensures SleepKept(s, Block(s, st), t) {
      assert SleepKept(a, Dispatch(a), t);
    }
    assert s.cur != s.idle ==> SleepKept(a, Dispatch(a), s.cur);
  }

  lemma YieldStatus(s: Sched)
    requires Inv(s)
    ensures forall t :: t in s.tasks && t != s.idle ==> SleepKept(s, Yield(s), t)
  {
    var a := WithStatus(s, s.cur, Ready).(ready := s.ready + [s.cur]);
    assert Consistent(a);
    DispatchStatus(a);
    forall t | t in s.tasks && t != s.idle ensures SleepKept(s, Yield(s), t) {
      assert SleepKept(a, Dispatch(a), t);
    }
  }

  /** The thread an event puts to sleep or wakes. */
  ghost predicate Concerns(s: Sched, e: Event, t: Tid) {
    (e.Sleep? && t == s.cur) || (e.Wake? && t == e.t)
  }

  lemma EventStatus(s: Sched, e: Event)
    requires Enabled(s, e)
    ensures forall t :: t in s.tasks && t != s.idle && !Concerns(s, e, t) ==> SleepKept(s, Apply(s, e), t)
    ensures Apply(s, e).tasks.Keys == if e.Spawn? then s.tasks.Keys + {e.t} else s.tasks.Keys
  {
    match e {
      case TimerTick => TickStatus(s);
      case Sleep(st) => BlockStatus(s, st);
      case YieldCpu => YieldStatus(s);
      case Wake(t) =>
      case Spawn(t, p) =>
    }
  }

  /** The states a run goes through, as long as nothing has stopped it. */
  predicate IsRun(states: seq<Sched>, events: seq<Event>) {
    && |states| == |events| + 1
    && forall i :: 0 <= i < |events| ==> Attempt(states[i], events[i]) == Ok(states[i + 1])
  }

  /** From a state with the invariant, the first step of a run is `Apply` and leads to one with the invariant. */
  lemma RunHead(states: seq<Sched>, events: seq<Event>)
    requires IsRun(states, events) && events != [] && Inv(states[0])
    ensures Enabled(states[0], events[0]) && states[1] == Apply(states[0], events[0]) && Inv(states[1])
    ensures IsRun(states[1..], events[1..])
  {
    hide Inv, Attempt, Apply;
    assert Attempt(states[0], events[0]) == Ok(states[1]);
    AttemptOccurs(states[0], events[0]);
    AttemptSucceeds(states[0], events[0]);
    StepKeepsInv(states[0], events[0]);
  }

  lemma AttemptOccurs(s: Sched, e: Event)
    requires Attempt(s, e).Ok?
    ensures Occurs(s, e)
  {
  }

  /** Does this event call `schedule` in state `s`? */
  ghost predicate CallsSchedule(s: Sched, e: Event) {
    e.Sleep? || e.YieldCpu? || (e.TimerTick? && s.cur in s.tasks && s.tasks[s.cur].ticks == 0)
  }

  ghost function ScheduleCalls(states: seq<Sched>, events: seq<Event>): nat
    requires |states| > |events|
  {
    if events == [] then 0
    else (if CallsSchedule(states[0], events[0]) then 1 else 0) + ScheduleCalls(states[1..], events[1..])
  }

  ghost function Wakes(events: seq<Event>): nat {
    if events == [] then 0 else (if events[0].Wake? then 1 else 0) + Wakes(events[1..])
  }

  ghost function Interrupts(events: seq<Event>): nat {
    if events == [] then 0 else (if events[0].TimerTick? then 1 else 0) + Interrupts(events[1..])
  }

  /** Safety over whole runs: from the first state on the invariant holds in every state, and no event that comes
      in any of them can trip an ASSERT or the PANIC. */
  lemma {:induction false} RunKeepsInv(states: seq<Sched>, events: seq<Event>, i: nat)
    requires IsRun(states, events) && Inv(states[0]) && i < |states|
    ensures Inv(states[i]) && forall e :: Occurs(states[i], e) ==> Attempt(states[i], e).Ok?
  {
    hide Inv, Attempt, Apply;
    if i == 0 {
      forall e | Occurs(states[0], e) ensures Attempt(states[0], e).Ok? { AttemptSucceeds(states[0], e); }
    } else {
      RunHead(states, events);
      RunKeepsInv(states[1..], events[1..], i - 1);
    }
  }

  /** One event moves a waiting thread one place closer per `schedule`, one further per wake-up. */
  lemma PositionAfter(s: Sched, e: Event, k: nat)
    requires Enabled(s, e) && k < |s.ready|
    ensures var r := Apply(s, e); var t := s.ready[k];
      if CallsSchedule(s, e) then
        if k == 0 then r.cur == t else k - 1 < |r.ready| && r.ready[k - 1] == t
      else if e.Wake? then k + 1 < |r.ready| && r.ready[k + 1] == t
      else k < |r.ready| && r.ready[k] == t
  {
  }

  /** Bounded waiting: a READY thread at position `k` has run once `schedule` has been called
      `k + 1 + m` times, `m` being the number of wake-ups meanwhile. */
  lemma {:induction false} BoundedWaiting(states: seq<Sched>, events: seq<Event>, k: nat)
    requires IsRun(states, events) && Inv(states[0]) && k < |states[0].ready|
    requires ScheduleCalls(states, events) >= k + 1 + Wakes(events)
    ensures exists i :: 0 <= i < |states| && states[i].cur == states[0].ready[k]
  {
    hide Inv, Attempt, Apply;
    var s, e, t := states[0], events[0], states[0].ready[k];
    RunHead(states, events);
    PositionAfter(s, e, k);
    if CallsSchedule(s, e) && k == 0 {
      assert states[1].cur == t;
    } else {
      var k' := if CallsSchedule(s, e) then k - 1 else if e.Wake? then k + 1 else k;
      BoundedWaiting(states[1..], events[1..], k');
      var i :| 0 <= i < |states[1..]| && states[1..][i].cur == t;
      assert states[i + 1].cur == t;
    }
  }

  /** No priority in the system exceeds `p`. */
  ghost predicate PriorityAtMost(s: Sched, p: nat) {
    forall t :: t in s.tasks ==> s.tasks[t].priority <= p
  }

  lemma PriorityKept(s: Sched, e: Event, p: nat)
    requires Enabled(s, e) && PriorityAtMost(s, p) && (e.Spawn? ==> e.priority <= p)
    ensures PriorityAtMost(Apply(s, e), p)
  {
    hide Dispatch;
    match e
    case TimerTick => DispatchPriority(Charge(s), p);
    case Sleep(st) => BlockConsistent(s, st); DispatchPriority(WithStatus(s, s.cur, st), p);
    case YieldCpu => YieldConsistent(s); DispatchPriority(WithStatus(s, s.cur, Ready).(ready := s.ready + [s.cur]), p);
    case _ =>
  }

  lemma DispatchPriority(s: Sched, p: nat)
    requires Consistent(s) && PriorityAtMost(s, p)
    ensures PriorityAtMost(Dispatch(s), p)
  {
  }

  /** One event: a timer interrupt costs a tick of the slice, and `schedule` grants a new slice. */
  lemma SliceStep(s: Sched, e: Event, p: nat)
    requires Enabled(s, e) && PriorityAtMost(s, p) && (e.Spawn? ==> e.priority <= p)
    ensures Inv(Apply(s, e)) && PriorityAtMost(Apply(s, e), p)
    ensures var r := Apply(s, e);
      (if e.TimerTick? then 1 else 0) + r.tasks[r.cur].ticks <=
      s.tasks[s.cur].ticks + (if CallsSchedule(s, e) then p + 1 else 0)
  {
    StepKeepsInv(s, e);
    PriorityKept(s, e, p);
    var r := Apply(s, e);
    assert r.tasks[r.cur].ticks <= p;
  }

  lemma SliceHead(states: seq<Sched>, events: seq<Event>, p: nat)
    requires IsRun(states, events) && events != [] && Inv(states[0]) && PriorityAtMost(states[0], p)
    requires events[0].Spawn? ==> events[0].priority <= p
    ensures IsRun(states[1..], events[1..]) && Inv(states[1]) && PriorityAtMost(states[1], p)
    ensures (if events[0].TimerTick? then 1 else 0) + states[1].tasks[states[1].cur].ticks <=
      states[0].tasks[states[0].cur].ticks + (if CallsSchedule(states[0], events[0]) then p + 1 else 0)
  {
    hide Attempt, Apply, PriorityAtMost;
    RunHead(states, events);
    SliceStep(states[0], events[0], p);
  }

  /** Between two calls of `schedule` the timer fires at most `priority + 1` times. */
  lemma {:induction false} SliceBound(states: seq<Sched>, events: seq<Event>, p: nat)
    requires IsRun(states, events) && Inv(states[0]) && PriorityAtMost(states[0], p)
    requires forall i :: 0 <= i < |events| && events[i].Spawn? ==> events[i].priority <= p
    ensures Interrupts(events) <= states[0].tasks[states[0].cur].ticks + ScheduleCalls(states, events) * (p + 1)
  {
    if events != [] {
      SliceHead(states, events, p);
      SliceBound(states[1..], events[1..], p);
      SliceSum(if events[0].TimerTick? then 1 else 0, Interrupts(events[1..]),
               states[0].tasks[states[0].cur].ticks, states[1].tasks[states[1].cur].ticks,
               if CallsSchedule(states[0], events[0]) then 1 else 0, ScheduleCalls(states[1..], events[1..]), p + 1);
    }
  }

  lemma SliceSum(x: nat, y: nat, left: nat, left': nat, c: nat, n: nat, q: nat)
    requires x + left' <= left + (if c == 1 then q else 0) && c <= 1 && y <= left' + n * q
    ensures x + y <= left + (c + n) * q
  {
    Distribute(c, n, q);
  }

  lemma Distribute(c: nat, n: nat, q: nat)
    ensures (c + n) * q == c * q + n * q
  {}

  lemma Multiply(a: nat, b: nat, q: nat)
    requires a <= b
    ensures a * q <= b * q
  {}

  lemma SliceBudget(n: nat, m: nat, p: nat)
    requires m * (p + 1) <= p + n * (p + 1)
    ensures m <= n
  {
    if m > n {
      Distribute(1, n, p + 1);
      Multiply(1 + n, m, p + 1);
    }
  }

  /** The two bounds together: a READY thread at position `k` runs within `(k + 1 + m) * (p + 1)`
      timer interrupts, whatever the other threads do. */
  lemma {:induction false} RunsWithinInterrupts(states: seq<Sched>, events: seq<Event>, k: nat, p: nat)
    requires IsRun(states, events) && Inv(states[0]) && k < |states[0].ready| && PriorityAtMost(states[0], p)
    requires forall i :: 0 <= i < |events| && events[i].Spawn? ==> events[i].priority <= p
    requires Interrupts(events) >= (k + 1 + Wakes(events)) * (p + 1)
    ensures exists i :: 0 <= i < |states| && states[i].cur == states[0].ready[k]
  {
    SliceBound(states, events, p);
    assert states[0].tasks[states[0].cur].ticks <= p;
    SliceBudget(ScheduleCalls(states, events), k + 1 + Wakes(events), p);
    BoundedWaiting(states, events, k);
  }

  // ---------------------------------------------------------------- how long a thread may run

  /** The time slice and the priority of a thread. */
  predicate SameSlice(s: Sched, r: Sched, t: Tid) {
    && t in s.tasks && t in r.tasks && r.tasks[t].priority == s.tasks[t].priority
    && r.tasks[t].ticks == s.tasks[t].ticks && r.tasks[t].elapsed == s.tasks[t].elapsed
  }

  /** What an event does to a slice: only the running thread's changes, by one tick and one elapsed tick a timer
      interrupt, and when its ticks have run out it gets as many as its priority. */
  lemma SliceAfter(s: Sched, e: Event, t: Tid)
    requires Enabled(s, e) && t in s.tasks
    ensures var r := Apply(s, e);
      && t in r.tasks && r.tasks[t].priority == s.tasks[t].priority
      && (t != s.cur || !e.TimerTick? ==> SameSlice(s, r, t))
      && (t == s.cur && e.TimerTick? ==>
            && r.tasks[t].elapsed == s.tasks[t].elapsed + 1
            && r.tasks[t].ticks == if s.tasks[t].ticks == 0 then s.tasks[t].priority else s.tasks[t].ticks - 1)
      && (t == s.cur && !CallsSchedule(s, e) ==> r.cur == t)
    ensures e.Spawn? ==> e.t in Apply(s, e).tasks && Apply(s, e).tasks[e.t].ticks == e.priority
    ensures e.Spawn? ==> Apply(s, e).tasks[e.t].priority == e.priority
  {
    hide Dispatch;
    match e {
      case TimerTick => DispatchSlice(Charge(s), t);
      case Sleep(st) => BlockConsistent(s, st); DispatchSlice(WithStatus(s, s.cur, st), t);
      case YieldCpu => YieldConsistent(s); DispatchSlice(WithStatus(s, s.cur, Ready).(ready := s.ready + [s.cur]), t);
      case Wake(x) =>
      case Spawn(x, p) =>
    }
  }

  /** `schedule` gives a full slice to the thread it preempts while RUNNING, and touches no other slice. */
  lemma DispatchSlice(s: Sched, t: Tid)
    requires Consistent(s) && t in s.tasks
    ensures var r := Dispatch(s);
      && t in r.tasks && r.tasks[t].priority == s.tasks[t].priority && r.tasks[t].elapsed == s.tasks[t].elapsed
      && r.tasks[t].ticks ==
        if t == s.cur && s.tasks[t].status.Running? then s.tasks[t].priority else s.tasks[t].ticks
  {
  }

  /** One step of a run, by index. */
  lemma RunStep(states: seq<Sched>, events: seq<Event>, i: nat)
    requires IsRun(states, events) && Inv(states[0]) && i < |events|
    ensures Enabled(states[i], events[i]) && states[i + 1] == Apply(states[i], events[i])
  {
    hide Inv, Attempt, Apply;
    RunKeepsInv(states, events, i);
    assert Attempt(states[i], events[i]) == Ok(states[i + 1]);
    AttemptOccurs(states[i], events[i]);
    AttemptSucceeds(states[i], events[i]);
  }

  /** While a thread does not run, its slice stays what it is. */
  lemma {:induction false} SliceKept(states: seq<Sched>, events: seq<Event>, i: nat, j: nat, t: Tid)
    requires IsRun(states, events) && Inv(states[0]) && i <= j < |states| && t in states[i].tasks
    requires forall k :: i <= k < j ==> states[k].cur != t
    ensures SameSlice(states[i], states[j], t)
    decreases j
  {
    hide Inv, Attempt, Apply, Occurs;
    if i < j {
      SliceKept(states, events, i, j - 1, t);
      RunStep(states, events, j - 1);
      SliceAfter(states[j - 1], events[j - 1], t);
    }
  }

  /** A thread that the timer preempts has a full slice when it runs again, and until then; so has a new thread. */
  lemma FullSlice(states: seq<Sched>, events: seq<Event>, i: nat, j: nat, t: Tid)
    requires IsRun(states, events) && Inv(states[0]) && i < j < |states|
    requires
      || (events[i].TimerTick? && CallsSchedule(states[i], events[i]) && t == states[i].cur)
      || (events[i].Spawn? && t == events[i].t)
    requires forall k :: i < k < j ==> states[k].cur != t
    ensures t in states[j].tasks && states[j].tasks[t].ticks == states[j].tasks[t].priority
    ensures events[i].Spawn? ==> states[j].tasks[t].priority == events[i].priority
    ensures events[i].TimerTick? ==>
      t in states[i].tasks && states[j].tasks[t].priority == states[i].tasks[t].priority
  {
    hide Inv, Attempt, Apply, Occurs;
    RunStep(states, events, i);
    RunningIn(states[i]);
    SliceAfter(states[i], events[i], states[i].cur);
    SliceKept(states, events, i + 1, j, t);
  }

  lemma RunningIn(s: Sched)
    requires Inv(s)
    ensures s.cur in s.tasks
  {
  }

  /** A thread that runs with `n` ticks left and neither sleeps nor yields stays on for `n` interrupts, each of which
      takes exactly one tick and counts as one tick of its time. */
  lemma {:induction false} SliceUsed(states: seq<Sched>, events: seq<Event>, i: nat, j: nat, t: Tid)
    requires IsRun(states, events) && Inv(states[0]) && i <= j < |states| && t == states[i].cur && t in states[i].tasks
    requires forall k :: i <= k < j ==> !events[k].Sleep? && !events[k].YieldCpu?
    requires Interrupts(events[i..j]) <= states[i].tasks[t].ticks
    ensures states[j].cur == t && t in states[j].tasks
    ensures states[j].tasks[t].ticks == states[i].tasks[t].ticks - Interrupts(events[i..j])
    ensures states[j].tasks[t].elapsed == states[i].tasks[t].elapsed + Interrupts(events[i..j])
    ensures states[j].tasks[t].priority == states[i].tasks[t].priority
    decreases j
  {
    hide Inv, Attempt, Apply, Occurs, Interrupts;
    if i < j {
      InterruptsLast(events, i, j);
      SliceUsed(states, events, i, j - 1, t);
      RunStep(states, events, j - 1);
      SliceAfter(states[j - 1], events[j - 1], t);
    } else {
      NoInterrupts(events, i);
    }
  }

  lemma {:induction false} InterruptsLast(events: seq<Event>, i: nat, j: nat)
    requires i < j <= |events|
    ensures Interrupts(events[i..j]) == Interrupts(events[i..j - 1]) + if events[j - 1].TimerTick? then 1 else 0
    decreases j - i
  {
    if i + 1 < j {
      InterruptsLast(events, i + 1, j);
      assert events[i..j][1..] == events[i + 1..j] && events[i..j - 1][1..] == events[i + 1..j - 1];
    } else {
      assert events[i..j][1..] == [] && events[i..j - 1] == [];
    }
  }

  lemma NoInterrupts(events: seq<Event>, i: nat)
    requires i <= |events|
    ensures Interrupts(events[i..i]) == 0
  {
    assert events[i..i] == [];
  }

  /** The interrupt after the last tick ends the slice: the thread is at the end of the ready list with a full slice,
      and the first of the others runs; alone, it goes on. */
  lemma SliceEnds(s: Sched)
    requires Inv(s) && s.tasks[s.cur].ticks == 0
    ensures var r := Apply(s, TimerTick); var t := s.cur;
      && t in r.tasks && r.tasks[t].ticks == s.tasks[t].priority
      && if s.ready == [] then r.cur == t && r.ready == [] && r.tasks[t].status.Running?
         else r.cur == s.ready[0] && r.ready == s.ready[1..] + [t] && r.tasks[t].status.Ready?
  {
  }

  /** After `thread_init`: main runs, the first process and idle are ready. */
  lemma InitHolds(main: Tid, init: Tid, idle: Tid)
    requires main != init && init != idle && idle != main
    ensures var tasks :=
        map[main := Task(Running, 31, 31, 0), init := Task(Ready, 31, 31, 0), idle := Task(Ready, 10, 10, 0)];
      Inv(Sched(main, tasks, [init, idle], idle))
  {
  }
}
