/** Timed waits for a mutex: the counterpart of an exact sleep. A thread that waits n ticks for a mutex
    waits until exactly the n-th alarm, unless the mutex comes to it before; then its acquire fails. An
    endless wait is not ended by any alarm. */
module KernelTimeout {
  import opened Kernel
  import opened KernelSafety
  import opened KernelQueues
  import opened KernelTimely
  import opened KernelRuns
  import opened KernelTiming

  /** t waits for m and has n ticks to go. */
  ghost predicate Awaits(s: Sys, t: Tid, m: Mid, n: nat) {
    var c := Th(s, t);
    c.state == Waiting && c.waitingFor == WAITING_MUTEX && c.mWants == m && !c.infinite && c.ticks == n
  }

  /** t waits for m without end. */
  ghost predicate AwaitsEndlessly(s: Sys, t: Tid, m: Mid) {
    var c := Th(s, t);
    c.state == Waiting && c.waitingFor == WAITING_MUTEX && c.mWants == m && c.infinite
  }

  // ----- one sweep over the waiters for mutexes -----

  /** Clocks are 32-bit numbers. */
  const TICKS: nat := 0x1_0000_0000

  /** One turn of the sweep, in any state, also one that no timely run reaches: the wait ends if the thread
      has the mutex by now, or at the last tick. A clock at 0 goes on from 2^32 - 1. */
  lemma TurnEndsWaitIff(s: Sys, kept: seq<Tid>, t: Tid, leave: bool)
    ensures var c, s' := Th(s, t), SweepMutex(s, kept, [t], leave);
            var ends := c.mWants in c.mHeld || c.ticks == if c.infinite then 0 else 1;
            && s'.waiting[1] == (if ends then kept else kept + [t])
            && (ends ==> Th(s', t).state == Ready)
            && (!ends ==> Th(s', t) == c.(ticks := if c.infinite then c.ticks else (c.ticks + 0xFFFF_FFFF) % TICKS))
  {
    var s1 := DecrementTicks(s, t);
    assert [t][1..] == [];
    var ends := HasMutex(Th(s1, t)) || Th(s1, t).ticks == 0;
    assert SweepMutex(s, kept, [t], leave) ==
           SweepMutex(if ends then ExpireWaiter(s1, t, leave) else s1, if ends then kept else kept + [t], [], leave);
  }

  lemma MutexQueueOk(w: World, leave: bool)
    requires QueueInv(w, leave)
    ensures Distinct(w.sys.waiting[WAITING_MUTEX])
  {
    var q := w.sys.waiting[WAITING_MUTEX];
    forall x ensures Cnt(q, x) <= 1 {
      CntMember(q, x);
      if x in w.sys.threads && x != IDLE { assert Placed(w.sys, StacksOf(w, leave), true, x); }
    }
    CntDistinct(q);
  }

  lemma ExpireSkips(s: Sys, u: Tid, leave: bool, t: Tid)
    requires u != t
    ensures var s' := ExpireWaiter(s, u, leave);
            Th(s', t) == Th(s, t) && (InQueues(s'.ready, t) <==> InQueues(s.ready, t))
  {}

  /** The control block of a waiter one tick later. */
  function Ticked(c: Tcb): Tcb
    requires c.infinite || c.ticks >= 1
  {
    if c.infinite then c
    else if c.ticks == 1 then
      c.(state := Ready, waitingFor := WAITING_NOTHING, ticks := 0, infinite := false, mWants := NO_MUTEX)
    else c.(ticks := c.ticks - 1)
  }

  lemma {:induction false} SweepMutexTicks(s: Sys, kept: seq<Tid>, left: seq<Tid>, leave: bool, t: Tid)
    requires Distinct(left) && t in left && !InQueues(s.ready, t)
    requires !HasMutex(Th(s, t)) && Th(s, t).ticks >= 1
    ensures var s' := SweepMutex(s, kept, left, leave);
            && Th(s', t) == Ticked(Th(s, t)) && s'.current == s.current
            && (Th(s', t).state != Ready ==> !InQueues(s'.ready, t))
    decreases |left|
  {
    var u, s1 := left[0], DecrementTicks(s, left[0]);
    var due := HasMutex(Th(s1, u)) || Th(s1, u).ticks == 0;
    var s2, kept' := if due then ExpireWaiter(s1, u, leave) else s1, if due then kept else kept + [u];
    assert SweepMutex(s, kept, left, leave) == SweepMutex(s2, kept', left[1..], leave);
    DistinctTail(left);
    if u == t {
      SweepMutexSkips(s2, kept', left[1..], leave, t);
    } else {
      if due { ExpireSkips(s1, u, leave, t); }
      SweepMutexTicks(s2, kept', left[1..], leave, t);
    }
  }

  lemma DistinctTail(q: seq<nat>)
    requires Distinct(q) && q != []
    ensures Distinct(q[1..]) && q[0] !in q[1..]
  {
    forall i | 0 <= i < |q[1..]| ensures q[1..][i] != q[0] { assert q[1..][i] == q[i + 1]; }
  }

  /** A thread that waits for a mutex owns none it waits for. */
  lemma WaiterHasNot(w: World, leave: bool, t: Tid)
    requires QueueInv(w, leave) && t in w.sys.threads && t != IDLE && WaitsForMutex(Th(w.sys, t))
    ensures !HasMutex(Th(w.sys, t)) && Th(w.sys, t).ticks >= 1
  {
    var s, c := w.sys, Th(w.sys, t);
    assert Placed(s, StacksOf(w, leave), true, t);
    assert Seated(s, StacksOf(w, leave), t, c.mWants, c.priority);
    assert HeldOf(s, t, s.current, Th(s, s.current).mHeld) == c.mHeld;
    CntMember(c.mHeld, c.mWants);
  }

  /** What the alarm's sweeps do to a thread that waits for a mutex. */
  lemma SweepsTick(w: World, leave: bool, t: Tid)
    requires QueueInv(w, leave) && t in w.sys.threads && t != IDLE && WaitsForMutex(Th(w.sys, t))
    ensures Th(w.sys, t).ticks >= 1
    ensures var s' := ProcessAllWaiting(w.sys, leave);
            && Th(s', t) == Ticked(Th(w.sys, t)) && s'.current == w.sys.current && t != w.sys.current
            && (Th(s', t).state == Waiting ==> !InQueues(s'.ready, t))
  {
    var s := w.sys;
    var q := s.waiting[WAITING_SLEEP];
    WaiterIsBystander(w, leave, t);
    WaiterHasNot(w, leave, t);
    SleepQueueOk(w, leave);
    MutexQueueOk(w, leave);
    SweepSleepSkips(s, [], q, t);
    SweepSleepFrame(s, [], q);
    var s1 := SweepSleep(s, [], q);
    SweepMutexTicks(s1, [], s1.waiting[WAITING_MUTEX], leave, t);
  }

  lemma {:induction false} SweepSleepSkips(s: Sys, kept: seq<Tid>, left: seq<Tid>, t: Tid)
    requires t !in left && !InQueues(s.ready, t)
    ensures Th(SweepSleep(s, kept, left), t) == Th(s, t) && !InQueues(SweepSleep(s, kept, left).ready, t)
    decreases |left|
  {
    if left != [] {
      assert left[0] in left;
      var s1 := DecrementTicks(s, left[0]);
      if Th(s1, left[0]).ticks == 0 { SweepSleepSkips(WakeSleeper(s1, left[0]), kept, left[1..], t); }
      else { SweepSleepSkips(s1, kept + [left[0]], left[1..], t); }
    }
  }

  /** A dispatch sets the state of a ready thread, and nothing else of it. */
  lemma YieldReady(s: Sys, t: Tid)
    requires t != s.current
    ensures Th(Yield(s), t) == Th(s, t) || Th(Yield(s), t) == Th(s, t).(state := Running)
  {}

  /** An alarm takes one tick off a waiter; the last tick ends the wait. */
  lemma AlarmTicksWaiter(w: World, leave: bool, t: Tid, m: Mid, n: nat)
    requires QueueInv(w, leave) && Enabled(w, DoAlarm) && t in w.sys.threads && t != IDLE && Awaits(w.sys, t, m, n)
    ensures var s' := Step(w, DoAlarm, leave).sys;
            && n >= 1
            && (n > 1 ==> Awaits(s', t, m, n - 1))
            && (n == 1 ==> TimedOut(s', t))
  {
    SweepsTick(w, leave, t);
    var s2 := ProcessAllWaiting(w.sys, leave);
    if n > 1 { YieldSkips(s2, t); } else { YieldReady(s2, t); }
  }

  /** t is ready again, or running, and waits for nothing. */
  ghost predicate TimedOut(s: Sys, t: Tid) {
    var c := Th(s, t);
    (c.state == Ready || c.state == Running) && c.waitingFor == WAITING_NOTHING && c.mWants == NO_MUTEX && c.ticks == 0
  }

  lemma AlarmSparesEndless(w: World, leave: bool, t: Tid, m: Mid)
    requires QueueInv(w, leave) && Enabled(w, DoAlarm) && t in w.sys.threads && t != IDLE
    requires AwaitsEndlessly(w.sys, t, m)
    ensures Th(Step(w, DoAlarm, leave).sys, t) == Th(w.sys, t)
  {
    SweepsTick(w, leave, t);
    YieldSkips(ProcessAllWaiting(w.sys, leave), t);
  }

  // ----- over runs -----

  /** m does not come to t. */
  ghost predicate NeverGranted(w: World, ops: seq<Op>, leave: bool, m: Mid, t: Tid)
    requires ValidRun(w, ops, leave)
    decreases |ops|
  {
    !Owns(w.sys, m, t) && (ops != [] ==> NeverGranted(Step(w, ops[0], leave), ops[1..], leave, m, t))
  }

  /** A thread that waits n ticks for a mutex that does not come to it waits until exactly the n-th alarm,
      which makes it ready. */
  lemma {:induction false} WaitsUntilTheAlarm(w: World, ops: seq<Op>, leave: bool, t: Tid, m: Mid, n: nat)
    requires QueueInv(w, leave) && ValidRun(w, ops, leave) && t in w.sys.threads && t != IDLE
    requires Awaits(w.sys, t, m, n) && Alarms(ops) < n && NeverGranted(w, ops, leave, m, t)
    requires TimelyRun(w, ops, leave) && forall i :: 0 <= i < |ops| ==> ops[i] != DoTerminate(t)
    ensures var w' := Run(w, ops, leave);
            && Awaits(w'.sys, t, m, n - Alarms(ops))
            && (Enabled(w', DoAlarm) && Alarms(ops) == n - 1 ==> TimedOut(Step(w', DoAlarm, leave).sys, t))
    decreases |ops|
  {
    hide Step, QueueInv, Timely, Enabled, TimedOut;
    if ops == [] {
      if Enabled(w, DoAlarm) { AlarmTicksWaiter(w, leave, t, m, n); }
    } else {
      var w1 := Step(w, ops[0], leave);
      StepQueues(w, ops[0], leave);
      if ops[0] == DoAlarm { AlarmTicksWaiter(w, leave, t, m, n); } else { WaiterUndisturbed(w, ops[0], leave, t); }
      NotGrantedNext(w1, ops[1..], leave, m, t);
      StillThere(w1, t);
      WaitsUntilTheAlarm(w1, ops[1..], leave, t, m, if ops[0] == DoAlarm then n - 1 else n);
    }
  }

  lemma NotGrantedNext(w: World, ops: seq<Op>, leave: bool, m: Mid, t: Tid)
    requires ValidRun(w, ops, leave) && NeverGranted(w, ops, leave, m, t)
    ensures !Owns(w.sys, m, t)
  {}

  /** An endless waiter to which the mutex does not come stays as it is, however many alarms there are. */
  lemma {:induction false} WaitsForEver(w: World, ops: seq<Op>, leave: bool, t: Tid, m: Mid)
    requires QueueInv(w, leave) && ValidRun(w, ops, leave) && t in w.sys.threads && t != IDLE
    requires AwaitsEndlessly(w.sys, t, m) && NeverGranted(w, ops, leave, m, t)
    requires TimelyRun(w, ops, leave) && forall i :: 0 <= i < |ops| ==> ops[i] != DoTerminate(t)
    ensures Th(Run(w, ops, leave).sys, t) == Th(w.sys, t)
    decreases |ops|
  {
    hide Step, QueueInv, Timely, Enabled;
    if ops != [] {
      var w1 := Step(w, ops[0], leave);
      StepQueues(w, ops[0], leave);
      if ops[0] == DoAlarm { AlarmSparesEndless(w, leave, t, m); } else { WaiterUndisturbed(w, ops[0], leave, t); }
      NotGrantedNext(w1, ops[1..], leave, m, t);
      StillThere(w1, t);
      WaitsForEver(w1, ops[1..], leave, t, m);
    }
  }

  /** VMMutexAcquire(m, n) of a locked mutex makes the caller wait for n ticks, or without end. */
  lemma AcquireWaits(w: World, m: Mid, n: Tick, leave: bool)
    requires QueueInv(w, leave) && Enabled(w, DoAcquire(m, n)) && m in w.sys.mutexes && Mx(w.sys, m).locked
    requires n != 0xFFFF_FFFF
    ensures var s', t := Step(w, DoAcquire(m, n), leave).sys, w.sys.current;
            if n == 0 then AwaitsEndlessly(s', t, m) else Awaits(s', t, m, n)
    ensures var w', t := Step(w, DoAcquire(m, n), leave), w.sys.current;
            t in w'.cont && w'.cont[t] == Cont(m, n == 0) && !Owns(w'.sys, m, t)
  {
    var s := w.sys;
    assert Placed(s, StacksOf(w, leave), true, s.current);
    AbsentErase(s.ready, s.current);
    ScheduleSkips(BlockedOn(s, m, n), s.current);
  }

  // ----- after the time is up -----

  /** t is ready, inside an acquire of m with a finite timeout that m did not come to. */
  ghost predicate Late(w: World, t: Tid, m: Mid) {
    t in w.cont && w.cont[t] == Cont(m, false) && Th(w.sys, t).state == Ready && !Owns(w.sys, m, t)
  }

  /** m does not come to t, and t stays as it is or is dispatched. */
  ghost predicate Passed(s: Sys, s': Sys, t: Tid, m: Mid) {
    !Owns(s', m, t) && (Th(s', t) == Th(s, t) || (Th(s', t) == Th(s, t).(state := Running) && s'.current == t))
  }

  lemma SchedulePasses(s: Sys, t: Tid, m: Mid)
    requires !Owns(s, m, t)
    ensures Passed(s, ScheduleNext(s), t, m)
  {}

  lemma YieldPasses(s: Sys, t: Tid, m: Mid)
    requires !Owns(s, m, t) && t != s.current
    ensures Passed(s, Yield(s), t, m)
  {
    SchedulePasses(AddToReady(s, s.current), t, m);
  }

  /** A timely hand-over goes to a thread that is not ready. */
  lemma RegrantPasses(s: Sys, n: Mid, t: Tid, m: Mid)
    requires Th(s, t).state == Ready && !Owns(s, m, t) && TimelyGrant(s, n)
    ensures Th(Regrant(s, n), t) == Th(s, t) && !Owns(Regrant(s, n), m, t) && Regrant(s, n).current == s.current
  {}

  lemma {:induction false} ReleaseAllPasses(s: Sys, u: Tid, held: seq<Mid>, prio: Prio, t: Tid, m: Mid)
    requires Th(s, t).state == Ready && !Owns(s, m, t) && TimelyGrants(s, u, held)
    ensures var s' := ReleaseAll(s, u, held, prio).0;
            Th(s', t) == Th(s, t) && !Owns(s', m, t) && s'.current == s.current
    decreases HandOvers(s, u, held)
  {
    hide Regrant, TimelyGrant;
    if held != [] {
      HandOverProgress(s, u, held);
      RegrantPasses(s, held[0], t, m);
      ReleaseAllPasses(Regrant(s, held[0]), u, StillHeld(s, u, held), prio, t, m);
    }
  }

  lemma TerminatePasses(s: Sys, u: Tid, t: Tid, m: Mid)
    requires Th(s, t).state == Ready && !Owns(s, m, t) && u != t && t != s.current
    requires u in s.threads && Th(s, u).state != Dead ==> TimelyGrants(Killed(s, u), u, Th(s, u).mHeld)
    ensures Passed(s, Terminate(s, u).0, t, m)
  {
    hide ReleaseAll, StopWaiting, RemoveFromWaiting;
    if u in s.threads && Th(s, u).state != Dead {
      var was, held, prio := Th(s, u).state, Th(s, u).mHeld, PrioOf(s, s.current);
      ReleaseAllPasses(Killed(s, u), u, held, prio, t, m);
      var r := ReleaseAll(Killed(s, u), u, held, prio);
      var s2 := SetTh(r.0, u, Th(r.0, u).(mHeld := []));
      UnqueuePasses(s2, u, was, t, m);
      var s3 := Unqueue(s2, u, was);
      if was == Running { SchedulePasses(s3, t, m); } else if r.1 { YieldPasses(s3, t, m); }
    }
  }

  lemma UnqueuePasses(s: Sys, u: Tid, was: ThreadState, t: Tid, m: Mid)
    requires u != t && !Owns(s, m, t)
    ensures var s' := Unqueue(s, u, was); Th(s', t) == Th(s, t) && !Owns(s', m, t) && s'.current == s.current
  {}

  lemma ReleasePasses(s: Sys, n: Mid, t: Tid, m: Mid)
    requires Th(s, t).state == Ready && !Owns(s, m, t) && t != s.current
    requires Owns(s, n, s.current) ==> TimelyGrant(Dropped(s, n), n)
    ensures Passed(s, Release(s, n).0, t, m)
  {
    hide Regrant, TimelyGrant;
    if n in s.mutexes && Owns(s, n, s.current) {
      var s1 := Dropped(s, n);
      RegrantPasses(s1, n, t, m);
      if Preempts(s1, n, PrioOf(s, s.current)) { YieldPasses(Regrant(s1, n), t, m); }
    }
  }

  lemma {:induction false} SweepMutexOwnsNothing(s: Sys, kept: seq<Tid>, left: seq<Tid>, leave: bool, m: Mid, t: Tid)
    requires !Owns(s, m, t)
    ensures !Owns(SweepMutex(s, kept, left, leave), m, t)
    decreases |left|
  {
    if left != [] {
      var s1 := DecrementTicks(s, left[0]);
      if HasMutex(Th(s1, left[0])) || Th(s1, left[0]).ticks == 0 {
        SweepMutexOwnsNothing(ExpireWaiter(s1, left[0], leave), kept, left[1..], leave, m, t);
      } else {
        SweepMutexOwnsNothing(s1, kept + [left[0]], left[1..], leave, m, t);
      }
    }
  }

  lemma {:induction false} SweepSleepOther(s: Sys, kept: seq<Tid>, left: seq<Tid>, t: Tid)
    requires t !in left
    ensures Th(SweepSleep(s, kept, left), t) == Th(s, t)
    decreases |left|
  {
    if left != [] {
      assert left[0] in left;
      var s1 := DecrementTicks(s, left[0]);
      if Th(s1, left[0]).ticks == 0 { SweepSleepOther(WakeSleeper(s1, left[0]), kept, left[1..], t); }
      else { SweepSleepOther(s1, kept + [left[0]], left[1..], t); }
    }
  }

  lemma AlarmPasses(s: Sys, leave: bool, t: Tid, m: Mid)
    requires !Owns(s, m, t) && t != s.current && t !in s.waiting[WAITING_SLEEP] && t !in s.waiting[WAITING_MUTEX]
    ensures Passed(s, Alarm(s, leave), t, m)
  {
    var q := s.waiting[WAITING_SLEEP];
    SweepSleepMutexes(s, [], q);
    SweepSleepOther(s, [], q, t);
    SweepSleepFrame(s, [], q);
    var s1 := SweepSleep(s, [], q);
    SweepMutexOwnsNothing(s1, [], s1.waiting[WAITING_MUTEX], leave, m, t);
    SweepMutexSkips(s1, [], s1.waiting[WAITING_MUTEX], leave, t);
    YieldPasses(ProcessAllWaiting(s, leave), t, m);
  }

  /** A ready thread is in no waiting queue, and has no file request outstanding when it is inside an
      acquire. */
  lemma LateIsReady(w: World, leave: bool, t: Tid, m: Mid)
    requires QueueInv(w, leave) && Late(w, t, m) && t in w.sys.threads && t != IDLE
    ensures t != w.sys.current && t !in w.pending && t < w.sys.nextTid
    ensures t !in w.sys.waiting[WAITING_SLEEP] && t !in w.sys.waiting[WAITING_MUTEX]
  {
    assert Placed(w.sys, StacksOf(w, leave), true, t);
    CntMember(w.sys.waiting[WAITING_SLEEP], t);
    CntMember(w.sys.waiting[WAITING_MUTEX], t);
  }

  lemma ActivatePasses(s: Sys, u: Tid, t: Tid, m: Mid)
    requires Th(s, t).state == Ready && !Owns(s, m, t) && t != s.current
    ensures Passed(s, Activate(s, u).0, t, m) && (Activate(s, u).1 == Success ==> u != t)
  {
    if u in s.threads && Th(s, u).state == Dead { YieldPasses(AddToReady(s, u), t, m); }
  }

  lemma SleepPasses(s: Sys, n: Tick, t: Tid, m: Mid)
    requires !Owns(s, m, t) && t != s.current
    ensures Passed(s, Sleep(s, n).0, t, m)
  {
    YieldPasses(s, t, m);
    SchedulePasses(Block(SetTh(s, s.current, Th(s, s.current).(ticks := n)), s.current, WAITING_SLEEP), t, m);
  }

  lemma AcquirePasses(s: Sys, n: Mid, timeout: Tick, t: Tid, m: Mid)
    requires !Owns(s, m, t) && t != s.current
    ensures Passed(s, Acquire(s, n, timeout).0, t, m)
  {
    if n in s.mutexes && Mx(s, n).locked && timeout != TIMEOUT_IMMEDIATE {
      SchedulePasses(BlockedOn(s, n, timeout), t, m);
    }
  }

  lemma ReplyPasses(s: Sys, u: Tid, t: Tid, m: Mid)
    requires !Owns(s, m, t) && t != s.current && u != t
    ensures Passed(s, Reply(s, u), t, m)
  {
    if Th(s, u).state != Dead { YieldPasses(AddToReady(RemoveFromWaiting(s, u), u), t, m); }
  }

  lemma OthersPass(w: World, op: Op, leave: bool, t: Tid, m: Mid)
    requires QueueInv(w, leave) && Enabled(w, op) && Timely(w, op) && op != DoTerminate(t)
    requires Late(w, t, m) && t in w.sys.threads && t != IDLE
    ensures var w' := Step(w, op, leave);
            Passed(w.sys, w'.sys, t, m) && t in w'.cont && w'.cont[t] == Cont(m, false)
  {
    hide Terminate, Release, Alarm, Acquire, Activate, Sleep, Reply, ScheduleNext, QueueInv, TimelyGrant, TimelyGrants;
    var s := w.sys;
    LateIsReady(w, leave, t, m);
    match op
    case DoActivate(u) => ActivatePasses(s, u, t, m);
    case DoSleep(n) => SleepPasses(s, n, t, m);
    case DoAcquire(n, timeout) => AcquirePasses(s, n, timeout, t, m);
    case DoSubmitIO => SchedulePasses(Block(s, s.current, WAITING_IO), t, m);
    case DoReply(u) => ReplyPasses(s, u, t, m);
    case DoTerminate(u) => TerminatePasses(s, u, t, m);
    case DoRelease(n) => ReleasePasses(s, n, t, m);
    case DoAlarm => AlarmPasses(s, leave, t, m);
    case _ =>
  }

  /** t is not dispatched before the run is over. */
  ghost predicate Rests(w: World, ops: seq<Op>, leave: bool, t: Tid)
    requires ValidRun(w, ops, leave)
    decreases |ops|
  {
    ops != [] ==> w.sys.current != t && Rests(Step(w, ops[0], leave), ops[1..], leave, t)
  }

  /** Once the time is up, a timely run does not bring the mutex any more: when the thread runs again, its
      acquire returns failure. */
  lemma {:induction false} LateFails(w: World, ops: seq<Op>, leave: bool, t: Tid, m: Mid)
    requires QueueInv(w, leave) && ValidRun(w, ops, leave) && t in w.sys.threads && t != IDLE
    requires t in w.cont && w.cont[t] == Cont(m, false) && !Owns(w.sys, m, t)
    requires Th(w.sys, t).state == Ready || Th(w.sys, t).state == Running
    requires TimelyRun(w, ops, leave) && Rests(w, ops, leave, t)
    requires forall i :: 0 <= i < |ops| ==> ops[i] != DoTerminate(t)
    ensures var w' := Run(w, ops, leave);
            w'.sys.current == t ==> t in w'.cont && w'.cont[t].mid == m && Resume(w'.sys, m).1 == Failure
    decreases |ops|
  {
    hide Step, Timely, Resume, Enabled, Inv;
    assert Placed(w.sys, StacksOf(w, leave), true, t);
    if ops == [] {
      if w.sys.current == t { ResumeSaysWho(w, m); }
    } else {
      var w1 := Step(w, ops[0], leave);
      OthersPass(w, ops[0], leave, t, m);
      StepQueues(w, ops[0], leave);
      assert t in w1.sys.threads;
      LateFails(w1, ops[1..], leave, t, m);
    }
  }

  /** The status after the context switch says whether the caller owns the mutex. */
  lemma ResumeSaysWho(w: World, m: Mid)
    requires Inv(w)
    ensures Resume(w.sys, m).1 == (if Owns(w.sys, m, w.sys.current) then Success else Failure)
  {}

  // ----- from the call to its failure -----

  lemma AlarmGivesNothing(s: Sys, leave: bool, m: Mid, t: Tid)
    requires !Owns(s, m, t)
    ensures !Owns(Alarm(s, leave), m, t)
  {
    var q := s.waiting[WAITING_SLEEP];
    SweepSleepMutexes(s, [], q);
    var s1 := SweepSleep(s, [], q);
    SweepMutexOwnsNothing(s1, [], s1.waiting[WAITING_MUTEX], leave, m, t);
    YieldSameOwners(ProcessAllWaiting(s, leave));
  }

  lemma {:induction false} NotGrantedAtEnd(w: World, ops: seq<Op>, leave: bool, m: Mid, t: Tid)
    requires ValidRun(w, ops, leave) && NeverGranted(w, ops, leave, m, t)
    ensures !Owns(Run(w, ops, leave).sys, m, t)
    decreases |ops|
  {
    if ops != [] { NotGrantedAtEnd(Step(w, ops[0], leave), ops[1..], leave, m, t); }
  }

  ghost predicate Undisturbed(w: World, ops: seq<Op>, leave: bool, t: Tid) {
    ValidRun(w, ops, leave) && TimelyRun(w, ops, leave) && forall i :: 0 <= i < |ops| ==> ops[i] != DoTerminate(t)
  }

  /** VMMutexAcquire(m, n) of a mutex that is locked and does not come free for the caller: after n alarms
      the caller is ready, and the call returns failure when it runs. */
  lemma AcquireTimesOut(w: World, m: Mid, n: Tick, waiting: seq<Op>, resting: seq<Op>, leave: bool)
    requires QueueInv(w, leave) && Enabled(w, DoAcquire(m, n)) && m in w.sys.mutexes && Mx(w.sys, m).locked
    requires 0 < n < 0xFFFF_FFFF && Alarms(waiting) == n - 1
    requires var t, w1 := w.sys.current, Step(w, DoAcquire(m, n), leave);
             && Undisturbed(w1, waiting, leave, t) && NeverGranted(w1, waiting, leave, m, t)
             && var w2 := Run(w1, waiting, leave);
                && Enabled(w2, DoAlarm)
                && var w3 := Step(w2, DoAlarm, leave);
                   Undisturbed(w3, resting, leave, t) && Rests(w3, resting, leave, t)
    ensures var t, w2 := w.sys.current, Run(Step(w, DoAcquire(m, n), leave), waiting, leave);
            var w' := Run(Step(w2, DoAlarm, leave), resting, leave);
            && TimedOut(Step(w2, DoAlarm, leave).sys, t)
            && (w'.sys.current == t ==> t in w'.cont && w'.cont[t].mid == m && Resume(w'.sys, m).1 == Failure)
  {
    hide QueueInv, Enabled, Resume, Acquire, Timely, Inv;
    var t, w1 := w.sys.current, Step(w, DoAcquire(m, n), leave);
    AcquireWaits(w, m, n, leave);
    StepQueues(w, DoAcquire(m, n), leave);
    CallerIsReal(w, DoAcquire(m, n), leave);
    StillThere(w1, t);
    WaitsUntilTheAlarm(w1, waiting, leave, t, m, n);
    RunQueues(w1, waiting, leave);
    NotGrantedAtEnd(w1, waiting, leave, m, t);
    var w2 := Run(w1, waiting, leave);
    StillThere(w2, t);
    WaiterIsInside(w2, leave, t, m, n - Alarms(waiting));
    AlarmGivesNothing(w2.sys, leave, m, t);
    var w3 := Step(w2, DoAlarm, leave);
    StepQueues(w2, DoAlarm, leave);
    assert t in w3.sys.threads;
    LateFails(w3, resting, leave, t, m);
  }

  lemma CallerIsReal(w: World, op: Op, leave: bool)
    requires QueueInv(w, leave) && Enabled(w, op) && !IsInterrupt(op)
    ensures w.sys.current != IDLE
  {}

  lemma WaiterIsInside(w: World, leave: bool, t: Tid, m: Mid, n: nat)
    requires QueueInv(w, leave) && t in w.sys.threads && t != IDLE && Awaits(w.sys, t, m, n)
    ensures t in w.cont && w.cont[t] == Cont(m, false)
  {
    assert Placed(w.sys, StacksOf(w, leave), true, t);
  }
}
