/** Time: a sweep over the sleepers is a stable partition, and a sleeper wakes at exactly its
    alarm. */
module KernelTiming {
  import opened Kernel
  import opened KernelSafety
  import opened KernelQueues
  import opened KernelTimely
  import opened KernelRuns

  // ----- one sweep over the sleepers -----

  /** The sleepers whose time is not up, in order. */
  function StillAsleep(s: Sys, q: seq<Tid>): seq<Tid> {
    if q == [] then [] else (if Th(s, q[0]).ticks == 1 then [] else [q[0]]) + StillAsleep(s, q[1..])
  }

  /** The sleepers of priority p whose time is up, in order. */
  function DueNow(s: Sys, q: seq<Tid>, p: Prio): seq<Tid> {
    if q == [] then []
    else (if Th(s, q[0]).ticks == 1 && PrioOf(s, q[0]) == p then [q[0]] else []) + DueNow(s, q[1..], p)
  }

  ghost predicate Distinct(q: seq<nat>) { forall i, j :: 0 <= i < j < |q| ==> q[i] != q[j] }

  ghost predicate SameOn(s: Sys, s': Sys, q: seq<Tid>) { forall i :: 0 <= i < |q| ==> Th(s', q[i]) == Th(s, q[i]) }

  lemma {:induction false} PartsAgree(s: Sys, s': Sys, q: seq<Tid>, p: Prio)
    requires SameOn(s, s', q)
    ensures StillAsleep(s', q) == StillAsleep(s, q) && DueNow(s', q, p) == DueNow(s, q, p)
  {
    if q != [] {
      assert Th(s', q[0]) == Th(s, q[0]);
      assert SameOn(s, s', q[1..]) by {
        forall i | 0 <= i < |q[1..]| ensures Th(s', q[1..][i]) == Th(s, q[1..][i]) { assert q[1..][i] == q[i + 1]; }
      }
      PartsAgree(s, s', q[1..], p);
    }
  }

  ghost predicate AllDue(s: Sys, q: seq<Tid>) {
    forall i :: 0 <= i < |q| ==> !Th(s, q[i]).infinite && Th(s, q[i]).ticks >= 1
  }

  /** One step of the sweep: the state and the kept part after the first sleeper. */
  function SweepOne(s: Sys, kept: seq<Tid>, u: Tid): (Sys, seq<Tid>) {
    var s1 := DecrementTicks(s, u);
    if Th(s1, u).ticks == 0 then (WakeSleeper(s1, u), kept) else (s1, kept + [u])
  }

  lemma SweepOneFrame(s: Sys, kept: seq<Tid>, left: seq<Tid>)
    requires left != [] && Distinct(left) && AllDue(s, left)
    ensures var s2 := SweepOne(s, kept, left[0]).0;
            && SameOn(s, s2, left[1..]) && AllDue(s2, left[1..]) && Distinct(left[1..])
            && left[0] !in left[1..]
  {
    var s2 := SweepOne(s, kept, left[0]).0;
    forall i | 0 <= i < |left[1..]|
      ensures left[1..][i] != left[0] && Th(s2, left[1..][i]) == Th(s, left[1..][i])
      ensures !Th(s2, left[1..][i]).infinite && Th(s2, left[1..][i]).ticks >= 1
    {
      assert left[1..][i] == left[i + 1];
    }
  }

  /** Where the first sleeper goes. */
  lemma SweepOneMoves(s: Sys, kept: seq<Tid>, left: seq<Tid>, p: Prio)
    requires left != [] && !Th(s, left[0]).infinite && Th(s, left[0]).ticks >= 1
    ensures var (s2, kept'), due := SweepOne(s, kept, left[0]), Th(s, left[0]).ticks == 1;
            && SweepSleep(s, kept, left) == SweepSleep(s2, kept', left[1..]) && s2.waiting == s.waiting
            && kept' == kept + (if due then [] else [left[0]])
            && s2.ready[p] == s.ready[p] + if due && PrioOf(s, left[0]) == p then [left[0]] else []
  {}

  /** Erasing while iterating is a stable partition: who is due joins its ready queue in order
      and the others stay in order. */
  lemma {:induction false} SweepIsPartition(s: Sys, kept: seq<Tid>, left: seq<Tid>, p: Prio)
    requires Distinct(left) && AllDue(s, left)
    ensures var s' := SweepSleep(s, kept, left);
            && s'.waiting == s.waiting[WAITING_SLEEP := kept + StillAsleep(s, left)]
            && s'.ready[p] == s.ready[p] + DueNow(s, left, p)
    decreases |left|
  {
    if left == [] {
      assert kept + [] == kept && s.ready[p] + [] == s.ready[p];
    } else {
      var stays := if Th(s, left[0]).ticks == 1 then [] else [left[0]];
      var due := if Th(s, left[0]).ticks == 1 && PrioOf(s, left[0]) == p then [left[0]] else [];
      assert StillAsleep(s, left) == stays + StillAsleep(s, left[1..]);
      assert DueNow(s, left, p) == due + DueNow(s, left[1..], p);
      hide *;
      var (s2, kept') := SweepOne(s, kept, left[0]);
      FirstIsDue(s, left);
      SweepOneMoves(s, kept, left, p);
      SweepOneFrame(s, kept, left);
      SweepIsPartition(s2, kept', left[1..], p);
      PartsAgree(s, s2, left[1..], p);
      Regrouped(kept, stays, StillAsleep(s, left[1..]));
      Regrouped(s.ready[p], due, DueNow(s, left[1..], p));
    }
  }

  lemma FirstIsDue(s: Sys, left: seq<Tid>)
    requires AllDue(s, left) && left != []
    ensures !Th(s, left[0]).infinite && Th(s, left[0]).ticks >= 1
  {}

  lemma Regrouped<T>(a: seq<T>, b: seq<T>, c: seq<T>)
    ensures a + b + c == a + (b + c)
  {}

  /** Every sleeper is decremented once, and woken if that was its last tick. */
  lemma {:induction false} SweepTicksOnce(s: Sys, kept: seq<Tid>, left: seq<Tid>, t: Tid)
    requires Distinct(left) && AllDue(s, left)
    ensures var s', c := SweepSleep(s, kept, left), Th(s, t);
            Th(s', t) == if t !in left then c
                         else if c.ticks == 1 then c.(ticks := 0, state := Ready, waitingFor := WAITING_NOTHING)
                         else c.(ticks := c.ticks - 1)
    decreases |left|
  {
    if left != [] {
      assert !Th(s, left[0]).infinite;
      var (s2, kept') := SweepOne(s, kept, left[0]);
      SweepOneFrame(s, kept, left);
      SweepTicksOnce(s2, kept', left[1..], t);
      assert t in left <==> t == left[0] || t in left[1..];
    }
  }

  lemma CntDistinct(q: seq<nat>)
    requires forall x :: Cnt(q, x) <= 1
    ensures Distinct(q)
  {
    forall i, j | 0 <= i < j < |q| ensures q[i] != q[j] {
      var a, b := q[..j], q[j..];
      assert q == a + b;
      CntConcat(a, b, q[i]);
      CntMember(a, q[i]);
      assert a[i] == q[i];
      CntMember(b, q[i]);
      assert b[0] == q[j];
    }
  }

  lemma SleepQueueOk(w: World, leave: bool)
    requires QueueInv(w, leave)
    ensures var q := w.sys.waiting[WAITING_SLEEP];
            && Distinct(q)
            && AllDue(w.sys, q)
            && (forall t :: t in q <==>
                 t in w.sys.threads && Th(w.sys, t).state == Waiting && Th(w.sys, t).waitingFor == WAITING_SLEEP)
  {
    var q := w.sys.waiting[WAITING_SLEEP];
    forall x
      ensures Cnt(q, x) <= 1
      ensures x in q <==>
                x in w.sys.threads && Th(w.sys, x).state == Waiting && Th(w.sys, x).waitingFor == WAITING_SLEEP
      ensures x in q ==> !Th(w.sys, x).infinite && Th(w.sys, x).ticks >= 1
    {
      CntMember(q, x);
      if x in w.sys.threads && x != IDLE {
        assert Placed(w.sys, StacksOf(w, leave), true, x);
      }
    }
    CntDistinct(q);
  }

  /** In any timely run, one alarm does to the sleepers what the partition says. */
  lemma AlarmPartitionsSleepers(ops: seq<Op>, leave: bool, p: Prio, t: Tid)
    requires ValidRun(START, ops, leave) && TimelyRun(START, ops, leave)
    ensures var s := Run(START, ops, leave).sys;
            var q := s.waiting[WAITING_SLEEP];
            var s' := SweepSleep(s, [], q);
            && s'.waiting[WAITING_SLEEP] == StillAsleep(s, q)
            && s'.ready[p] == s.ready[p] + DueNow(s, q, p)
            && (t in q ==> Th(s, t).ticks >= 1 && !Th(s, t).infinite)
            && (t in q && Th(s, t).ticks > 1 ==> Th(s', t) == Th(s, t).(ticks := Th(s, t).ticks - 1))
            && (t in q && Th(s, t).ticks == 1 ==> Th(s', t).state == Ready && Th(s', t).ticks == 0)
  {
    hide SweepSleep, StillAsleep, DueNow;
    StartQueues(leave);
    RunQueues(START, ops, leave);
    var w := Run(START, ops, leave);
    SleepQueueOk(w, leave);
    SweepIsPartition(w.sys, [], w.sys.waiting[WAITING_SLEEP], p);
    SweepTicksOnce(w.sys, [], w.sys.waiting[WAITING_SLEEP], t);
    assert [] + StillAsleep(w.sys, w.sys.waiting[WAITING_SLEEP]) == StillAsleep(w.sys, w.sys.waiting[WAITING_SLEEP]);
  }

  // ----- a waiting thread is left alone -----

  ghost predicate Asleep(s: Sys, t: Tid, n: nat) {
    Th(s, t).state == Waiting && Th(s, t).waitingFor == WAITING_SLEEP && Th(s, t).ticks == n
  }

  /** t neither runs nor stands in a ready queue, and in no mutex's queue but m's. */
  ghost predicate Bystander(s: Sys, t: Tid, m: Mid) {
    && t != s.current && !InQueues(s.ready, t)
    && forall n, p: Prio :: n in s.mutexes && n != m ==> t !in s.mutexes[n].waiting[p]
  }

  /** m came to t, or nothing about t changed. */
  ghost predicate Spared(s: Sys, s': Sys, t: Tid, m: Mid) { Owns(s', m, t) || Th(s', t) == Th(s, t) }

  /** A thread that sleeps wants no mutex, and one that waits for a mutex is in that one's queue only. */
  lemma WaiterIsBystander(w: World, leave: bool, t: Tid)
    requires QueueInv(w, leave) && t in w.sys.threads && t != IDLE
    requires Th(w.sys, t).state == Waiting && Th(w.sys, t).waitingFor != WAITING_IO
    ensures Bystander(w.sys, t, Th(w.sys, t).mWants) && t !in w.pending
    ensures t in w.sys.waiting[WAITING_MUTEX] <==> Th(w.sys, t).waitingFor == WAITING_MUTEX
    ensures t in w.sys.waiting[WAITING_SLEEP] <==> Th(w.sys, t).waitingFor == WAITING_SLEEP
  {
    var s := w.sys;
    assert Placed(s, StacksOf(w, leave), true, t);
    AbsentErase(s.ready, t);
    forall n, p: Prio | n in s.mutexes && n != Th(s, t).mWants ensures t !in s.mutexes[n].waiting[p] {
      assert !Seated(s, StacksOf(w, leave), t, n, p);
      CntMember(s.mutexes[n].waiting[p], t);
    }
    CntMember(s.waiting[WAITING_MUTEX], t);
    CntMember(s.waiting[WAITING_SLEEP], t);
  }

  lemma ScheduleSkips(s: Sys, t: Tid)
    requires !InQueues(s.ready, t)
    ensures Th(ScheduleNext(s), t) == Th(s, t) && ScheduleNext(s).mutexes == s.mutexes
  {
    if !AllEmpty(s.ready) { assert s.ready[Top(s.ready)][0] in s.ready[Top(s.ready)]; }
  }

  lemma YieldSkips(s: Sys, t: Tid)
    requires t != s.current && !InQueues(s.ready, t)
    ensures Th(Yield(s), t) == Th(s, t)
  {
    ScheduleSkips(AddToReady(s, s.current), t);
  }

  lemma YieldSameOwners(s: Sys)
    ensures Yield(s).mutexes == s.mutexes
  {}

  /** A mutex that is handed over comes to the thread in its queue, or passes it by. */
  lemma RegrantSkips(s: Sys, n: Mid, t: Tid, m: Mid)
    requires Bystander(s, t, m) && n in s.mutexes
    ensures Owns(Regrant(s, n), m, t) || (Th(Regrant(s, n), t) == Th(s, t) && Bystander(Regrant(s, n), t, m))
  {
    var s1 := Unlock(s, n);
    if HasNextOwner(s1, n) {
      var qs := s.mutexes[n].waiting;
      assert qs[Top(qs)][0] in qs[Top(qs)];
      if qs[Top(qs)][0] != t {
        var s' := Regrant(s, n);
        forall k, p: Prio | k in s'.mutexes && k != m ensures t !in s'.mutexes[k].waiting[p] {
          assert t !in s.mutexes[k].waiting[p];
        }
      }
    }
  }

  lemma {:induction false} ReleaseAllSkips(s: Sys, u: Tid, held: seq<Mid>, prio: Prio, t: Tid, m: Mid)
    requires Bystander(s, t, m) && Core(s, u, held) && u != t
    ensures var s' := ReleaseAll(s, u, held, prio).0; Spared(s, s', t, m) && (Owns(s', m, t) || Bystander(s', t, m))
    decreases HandOvers(s, u, held)
  {
    hide Core, OwnersOk, WaitersOk, Regrant;
    if held != [] {
      HandOverProgress(s, u, held);
      HeadOwned(s, u, held);
      RegrantSkips(s, held[0], t, m);
      var s1, rest := Regrant(s, held[0]), StillHeld(s, u, held);
      if Owns(s1, m, t) {
        NotHeldBy(s1, u, rest, m, t);
        ReleaseAllOwners(s1, u, rest, prio, m, t);
      } else {
        ReleaseAllSkips(s1, u, rest, prio, t, m);
      }
    }
  }

  /** What t owns, no other thread holds. */
  lemma NotHeldBy(s: Sys, u: Tid, rest: seq<Mid>, m: Mid, t: Tid)
    requires Core(s, u, rest) && Owns(s, m, t) && u != t
    ensures m !in rest
  {
    assert Cnt(HeldOf(s, u, u, rest), m) == 0;
    CntMember(rest, m);
  }

  lemma UnqueueSkips(s: Sys, u: Tid, was: ThreadState, t: Tid, m: Mid)
    requires Bystander(s, t, m) && u != t
    ensures Th(Unqueue(s, u, was), t) == Th(s, t)
    ensures t != Unqueue(s, u, was).current && !InQueues(Unqueue(s, u, was).ready, t)
  {
    EraseSubset(s.ready, u);
  }

  lemma UnqueueOwners(s: Sys, u: Tid, was: ThreadState, m: Mid, t: Tid)
    requires Owns(s, m, t)
    ensures Owns(Unqueue(s, u, was), m, t)
  {}

  lemma TerminateSkips(s: Sys, u: Tid, t: Tid, m: Mid)
    requires Bystander(s, t, m) && u != t && Core(s, s.current, Th(s, s.current).mHeld)
    ensures Spared(s, Terminate(s, u).0, t, m)
  {
    hide Core, ReleaseAll, StopWaiting, RemoveFromWaiting, Cnt;
    if u in s.threads && Th(s, u).state != Dead {
      var was, held, prio := Th(s, u).state, Th(s, u).mHeld, PrioOf(s, s.current);
      KilledKeeps(s, u);
      ReleaseAllSkips(Killed(s, u), u, held, prio, t, m);
      var r := ReleaseAll(Killed(s, u), u, held, prio);
      var s2 := SetTh(r.0, u, Th(r.0, u).(mHeld := []));
      var s3 := Unqueue(s2, u, was);
      if Owns(r.0, m, t) {
        UnqueueOwners(s2, u, was, m, t);
      } else {
        UnqueueSkips(s2, u, was, t, m);
        if was == Running { ScheduleSkips(s3, t); } else if r.1 { YieldSkips(s3, t); }
      }
    }
  }

  lemma ReleaseSkips(s: Sys, n: Mid, t: Tid, m: Mid)
    requires Bystander(s, t, m)
    ensures Spared(s, Release(s, n).0, t, m)
  {
    if n in s.mutexes && Owns(s, n, s.current) {
      var s1 := Dropped(s, n);
      RegrantSkips(s1, n, t, m);
      if Preempts(s1, n, PrioOf(s, s.current)) && !Owns(Regrant(s1, n), m, t) { YieldSkips(Regrant(s1, n), t); }
    }
  }

  lemma AcquireSkips(s: Sys, n: Mid, timeout: Tick, t: Tid, m: Mid)
    requires Bystander(s, t, m)
    ensures Th(Acquire(s, n, timeout).0, t) == Th(s, t)
  {
    if n in s.mutexes && s.mutexes[n].locked && timeout != TIMEOUT_IMMEDIATE {
      ScheduleSkips(BlockedOn(s, n, timeout), t);
    }
  }

  lemma ReplySkips(s: Sys, u: Tid, t: Tid, m: Mid)
    requires Bystander(s, t, m) && u != t
    ensures Th(Reply(s, u), t) == Th(s, t)
  {
    if Th(s, u).state != Dead && PrioOf(s, u) > PrioOf(s, s.current) {
      YieldSkips(AddToReady(RemoveFromWaiting(s, u), u), t);
    }
  }

  lemma ActivateSkips(s: Sys, u: Tid, t: Tid, m: Mid)
    requires Bystander(s, t, m) && Th(s, t).state != Dead
    ensures Th(Activate(s, u).0, t) == Th(s, t)
  {
    if u in s.threads && Th(s, u).state == Dead && PrioOf(s, u) > PrioOf(s, s.current) {
      YieldSkips(AddToReady(s, u), t);
    }
  }

  lemma SleepSkips(s: Sys, n: Tick, t: Tid, m: Mid)
    requires Bystander(s, t, m)
    ensures Th(Sleep(s, n).0, t) == Th(s, t)
  {
    if n == TIMEOUT_IMMEDIATE { YieldSkips(s, t); }
    else if n != TIMEOUT_INFINITE {
      ScheduleSkips(Block(SetTh(s, s.current, Th(s, s.current).(ticks := n)), s.current, WAITING_SLEEP), t);
    }
  }

  /** Any step but an alarm, t's own termination, or a hand-over of the mutex that t waits for leaves a
      thread that sleeps or waits for a mutex as it is. */
  lemma WaiterUndisturbed(w: World, op: Op, leave: bool, t: Tid)
    requires QueueInv(w, leave) && Enabled(w, op) && op != DoAlarm && op != DoTerminate(t)
    requires t in w.sys.threads && t != IDLE && Th(w.sys, t).state == Waiting && Th(w.sys, t).waitingFor != WAITING_IO
    ensures Spared(w.sys, Step(w, op, leave).sys, t, Th(w.sys, t).mWants)
  {
    hide Terminate, Release, Acquire, Reply, Activate, Sleep, OwnersOk, WaitersOk, Placed;
    var s, m := w.sys, Th(w.sys, t).mWants;
    WaiterIsBystander(w, leave, t);
    match op
    case DoActivate(u) => ActivateSkips(s, u, t, m);
    case DoTerminate(u) => TerminateSkips(s, u, t, m);
    case DoSleep(n) => SleepSkips(s, n, t, m);
    case DoAcquire(n, timeout) => AcquireSkips(s, n, timeout, t, m);
    case DoRelease(n) => ReleaseSkips(s, n, t, m);
    case DoSubmitIO => ScheduleSkips(Block(s, s.current, WAITING_IO), t);
    case DoReply(u) => ReplySkips(s, u, t, m);
    case DoCreate(_) => assert t < s.nextTid;
    case DoResume => assert t != s.current;
    case _ =>
  }

  /** Any step but an alarm or t's own termination leaves a sleeping t as it is. */
  lemma SleeperUndisturbed(w: World, op: Op, leave: bool, t: Tid)
    requires QueueInv(w, leave) && Enabled(w, op) && op != DoAlarm && op != DoTerminate(t)
    requires t in w.sys.threads && t != IDLE && Th(w.sys, t).state == Waiting
             && Th(w.sys, t).waitingFor == WAITING_SLEEP
    ensures Th(Step(w, op, leave).sys, t) == Th(w.sys, t)
  {
    hide Step, Enabled;
    assert Placed(w.sys, StacksOf(w, leave), true, t);
    WaiterUndisturbed(w, op, leave, t);
    StepKeeps(w, op, leave);
    assert NO_MUTEX !in Step(w, op, leave).sys.mutexes;
  }

  // ----- exact sleep -----

  lemma {:induction false} SweepMutexSkips(s: Sys, kept: seq<Tid>, left: seq<Tid>, leave: bool, t: Tid)
    requires t !in left
    ensures var s' := SweepMutex(s, kept, left, leave);
            && Th(s', t) == Th(s, t) && s'.current == s.current
            && (!InQueues(s.ready, t) ==> !InQueues(s'.ready, t))
    decreases |left|
  {
    if left != [] {
      var u := left[0];
      assert u in left;
      var s1 := DecrementTicks(s, u);
      if HasMutex(Th(s1, u)) || Th(s1, u).ticks == 0 {
        SweepMutexSkips(ExpireWaiter(s1, u, leave), kept, left[1..], leave, t);
      } else {
        SweepMutexSkips(s1, kept + [u], left[1..], leave, t);
      }
    }
  }

  lemma {:induction false} SweepSleepFrame(s: Sys, kept: seq<Tid>, left: seq<Tid>)
    ensures var s' := SweepSleep(s, kept, left);
            s'.current == s.current && forall p: Prio :: p != WAITING_SLEEP ==> s'.waiting[p] == s.waiting[p]
    decreases |left|
  {
    if left != [] {
      var s1 := DecrementTicks(s, left[0]);
      if Th(s1, left[0]).ticks == 0 { SweepSleepFrame(WakeSleeper(s1, left[0]), kept, left[1..]); }
      else { SweepSleepFrame(s1, kept + [left[0]], left[1..]); }
    }
  }

  /** The sleepers' half of the alarm, seen from one sleeper. */
  lemma SweepSleeper(s: Sys, t: Tid, n: nat)
    requires var q := s.waiting[WAITING_SLEEP]; Distinct(q) && AllDue(s, q) && t in q
    requires Asleep(s, t, n) && !InQueues(s.ready, t)
    ensures var s1 := SweepSleep(s, [], s.waiting[WAITING_SLEEP]);
            && n >= 1
            && (n > 1 ==> Asleep(s1, t, n - 1) && !InQueues(s1.ready, t))
            && (n == 1 ==> Th(s1, t).state == Ready)
  {
    var q := s.waiting[WAITING_SLEEP];
    SweepTicksOnce(s, [], q, t);
    SweepIsPartition(s, [], q, 0); SweepIsPartition(s, [], q, 1);
    SweepIsPartition(s, [], q, 2); SweepIsPartition(s, [], q, 3);
    DueNowIsDue(s, q, 0, t); DueNowIsDue(s, q, 1, t); DueNowIsDue(s, q, 2, t); DueNowIsDue(s, q, 3, t);
  }

  /** An alarm takes one tick off a sleeper; the last tick makes it ready (or running, if it is
      dispatched at once). */
  lemma AlarmTicksSleeper(w: World, leave: bool, t: Tid, n: nat)
    requires QueueInv(w, leave) && Enabled(w, DoAlarm) && t in w.sys.threads && t != IDLE && Asleep(w.sys, t, n)
    ensures var s' := Step(w, DoAlarm, leave).sys;
            && n >= 1
            && (n > 1 ==> Asleep(s', t, n - 1))
            && (n == 1 ==> Th(s', t).state == Ready || Th(s', t).state == Running)
  {
    var s := w.sys;
    var q := s.waiting[WAITING_SLEEP];
    WaiterIsBystander(w, leave, t);
    SleepQueueOk(w, leave);
    SweepSleeper(s, t, n);
    SweepSleepFrame(s, [], q);
    var s1 := SweepSleep(s, [], q);
    SweepMutexSkips(s1, [], s1.waiting[WAITING_MUTEX], leave, t);
    var s2 := ProcessAllWaiting(s, leave);
    if n > 1 { YieldSkips(s2, t); }
  }

  lemma {:induction false} DueNowIsDue(s: Sys, q: seq<Tid>, p: Prio, t: Tid)
    ensures t in DueNow(s, q, p) ==> Th(s, t).ticks == 1
  {
    if q != [] { DueNowIsDue(s, q[1..], p, t); }
  }

  function Alarms(ops: seq<Op>): nat {
    if ops == [] then 0 else (if ops[0] == DoAlarm then 1 else 0) + Alarms(ops[1..])
  }

  /** A thread that sleeps n ticks is asleep until exactly the n-th alarm, which wakes it. */
  lemma {:induction false} SleepsUntilTheAlarm(w: World, ops: seq<Op>, leave: bool, t: Tid, n: nat)
    requires QueueInv(w, leave) && ValidRun(w, ops, leave) && t in w.sys.threads && t != IDLE
    requires Asleep(w.sys, t, n) && Alarms(ops) < n
    requires TimelyRun(w, ops, leave) && forall i :: 0 <= i < |ops| ==> ops[i] != DoTerminate(t)
    ensures var w' := Run(w, ops, leave);
            && Asleep(w'.sys, t, n - Alarms(ops))
            && (Enabled(w', DoAlarm) && Alarms(ops) == n - 1 ==>
                  var s' := Step(w', DoAlarm, leave).sys; Th(s', t).state == Ready || Th(s', t).state == Running)
    decreases |ops|
  {
    if ops == [] {
      if Enabled(w, DoAlarm) { AlarmTicksSleeper(w, leave, t, n); }
    } else {
      var w1 := Step(w, ops[0], leave);
      StepQueues(w, ops[0], leave);
      if ops[0] == DoAlarm { AlarmTicksSleeper(w, leave, t, n); } else { SleeperUndisturbed(w, ops[0], leave, t); }
      StillThere(w1, t);
      SleepsUntilTheAlarm(w1, ops[1..], leave, t, if ops[0] == DoAlarm then n - 1 else n);
    }
  }

  lemma StillThere(w: World, t: Tid)
    requires Th(w.sys, t).state == Waiting
    ensures t in w.sys.threads
  {}

  /** VMThreadSleep(n) puts the caller to sleep for n ticks. */
  lemma SleepSleeps(w: World, n: Tick, leave: bool)
    requires QueueInv(w, leave) && Enabled(w, DoSleep(n)) && n != TIMEOUT_INFINITE && n != TIMEOUT_IMMEDIATE
    ensures Asleep(Step(w, DoSleep(n), leave).sys, w.sys.current, n)
  {
    var s := w.sys;
    assert Placed(s, StacksOf(w, leave), true, s.current);
    AbsentErase(s.ready, s.current);
    ScheduleSkips(Block(SetTh(s, s.current, Th(s, s.current).(ticks := n)), s.current, WAITING_SLEEP), s.current);
  }
}
