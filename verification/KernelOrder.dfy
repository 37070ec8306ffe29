/** Order: a mutex is granted first come first served within the highest waiting priority, and a
    ready thread waits for no more picks from its queue than there are threads ahead of it. */
module KernelOrder {
  import opened Kernel
  import opened KernelSafety
  import opened KernelQueues
  import opened KernelRuns
  import opened KernelTiming

  // ----- positions -----

  /** Where t first occurs in q; the length of q when it does not occur. */
  function Pos(q: seq<Tid>, t: Tid): (i: nat)
    ensures i <= |q| && (t in q <==> i < |q|) && (i < |q| ==> q[i] == t)
  {
    if q == [] then 0 else if q[0] == t then 0 else 1 + Pos(q[1..], t)
  }

  ghost predicate Before(q: seq<Tid>, t: Tid, u: Tid) { t in q && Pos(q, t) < Pos(q, u) }

  lemma {:induction false} PosPush(q: seq<Tid>, x: Tid, t: Tid)
    ensures t in q ==> Pos(q + [x], t) == Pos(q, t)
    ensures t !in q ==> Pos(q + [x], t) == if x == t then |q| else |q| + 1
  {
    if q != [] {
      assert (q + [x])[1..] == q[1..] + [x];
      PosPush(q[1..], x, t);
    } else {
      assert [] + [x] == [x];
    }
  }

  lemma {:induction false} PosRemove(q: seq<Tid>, x: Tid, t: Tid)
    requires t != x
    ensures Pos(RemoveFirst(q, x), t) == Pos(q, t) - (if Pos(q, x) < Pos(q, t) then 1 else 0)
    ensures t in q ==> t in RemoveFirst(q, x)
  {
    if q != [] && q[0] != x {
      assert ([q[0]] + RemoveFirst(q[1..], x))[1..] == RemoveFirst(q[1..], x);
      PosRemove(q[1..], x, t);
    }
  }

  lemma {:induction false} PosAfterOwnRemoval(q: seq<Tid>, x: Tid)
    requires x in q
    ensures Pos(RemoveFirst(q, x), x) >= Pos(q, x)
  {
    if q[0] != x {
      assert ([q[0]] + RemoveFirst(q[1..], x))[1..] == RemoveFirst(q[1..], x);
      PosAfterOwnRemoval(q[1..], x);
    }
  }

  // ----- first come, first served -----

  /** From q to q', t did not join, and if it is still there it is still before u. */
  ghost predicate KeepsOrder(q: seq<Tid>, q': seq<Tid>, t: Tid, u: Tid) {
    && Cnt(q', t) <= Cnt(q, t)
    && (t in q' && Cnt(q, t) <= 1 && Before(q, t, u) ==> Before(q', t, u))
  }

  lemma KeepsOrderTransitive(q: seq<Tid>, q': seq<Tid>, q'': seq<Tid>, t: Tid, u: Tid)
    requires KeepsOrder(q, q', t, u) && KeepsOrder(q', q'', t, u)
    ensures KeepsOrder(q, q'', t, u)
  {
    CntMember(q', t);
    CntMember(q'', t);
  }

  lemma PushKeepsOrder(q: seq<Tid>, x: Tid, t: Tid, u: Tid)
    requires x != t
    ensures KeepsOrder(q, q + [x], t, u)
  {
    CntPush(q, x, t);
    PosPush(q, x, t);
    PosPush(q, x, u);
  }

  lemma RemoveKeepsOrder(q: seq<Tid>, x: Tid, t: Tid, u: Tid)
    ensures KeepsOrder(q, RemoveFirst(q, x), t, u)
  {
    CntRemoveFirst(q, x, t);
    CntMember(q, t);
    CntMember(RemoveFirst(q, x), t);
    if x != t {
      PosRemove(q, x, t);
      if x != u { PosRemove(q, x, u); }
      else if u in q { PosAfterOwnRemoval(q, u); }
      else { AbsentRemove(q, u); }
    }
  }

  lemma {:induction false} AbsentRemove(q: seq<Tid>, x: Tid)
    requires x !in q
    ensures RemoveFirst(q, x) == q
  {
    if q != [] { AbsentRemove(q[1..], x); }
  }

  lemma PopKeepsOrder(q: seq<Tid>, t: Tid, u: Tid)
    requires q != []
    ensures KeepsOrder(q, q[1..], t, u)
  {
    CntPop(q, t);
    CntMember(q, t);
    CntMember(q[1..], t);
  }

  /** m's queue of priority p, empty when there is no such mutex. */
  function MutexQueue(s: Sys, m: Mid, p: Prio): seq<Tid> { Mx(s, m).waiting[p] }

  ghost predicate InOrder(s: Sys, s': Sys, m: Mid, p: Prio, t: Tid, u: Tid) {
    KeepsOrder(MutexQueue(s, m, p), MutexQueue(s', m, p), t, u)
  }

  lemma StopWaitingInOrder(s: Sys, n: Mid, x: Tid, m: Mid, p: Prio, t: Tid, u: Tid)
    ensures InOrder(s, StopWaiting(s, n, x), m, p, t, u)
  {
    RemoveKeepsOrder(MutexQueue(s, m, p), x, t, u);
  }

  lemma RegrantInOrder(s: Sys, n: Mid, m: Mid, p: Prio, t: Tid, u: Tid)
    requires n in s.mutexes
    ensures InOrder(s, Regrant(s, n), m, p, t, u)
  {
    var q := MutexQueue(s, m, p);
    if q != [] { PopKeepsOrder(q, t, u); }
    assert MutexQueue(Regrant(s, n), m, p) == q || (q != [] && MutexQueue(Regrant(s, n), m, p) == q[1..]);
  }

  lemma {:induction false} ReleaseAllInOrder(s: Sys, x: Tid, held: seq<Mid>, prio: Prio, m: Mid, p: Prio, t: Tid,
        u: Tid)
    requires Core(s, x, held)
    ensures InOrder(s, ReleaseAll(s, x, held, prio).0, m, p, t, u)
    decreases HandOvers(s, x, held)
  {
    if held != [] {
      var s1, held1 := Regrant(s, held[0]), StillHeld(s, x, held);
      HandOverProgress(s, x, held);
      HeadOwned(s, x, held);
      RegrantInOrder(s, held[0], m, p, t, u);
      ReleaseAllInOrder(s1, x, held1, prio, m, p, t, u);
      KeepsOrderTransitive(MutexQueue(s, m, p), MutexQueue(s1, m, p),
                           MutexQueue(ReleaseAll(s1, x, held1, prio).0, m, p), t, u);
    }
  }

  lemma {:induction false} SweepMutexInOrder(s: Sys, kept: seq<Tid>, left: seq<Tid>, leave: bool, m: Mid, p: Prio,
        t: Tid, u: Tid)
    ensures InOrder(s, SweepMutex(s, kept, left, leave), m, p, t, u)
    decreases |left|
  {
    if left != [] {
      var s1 := DecrementTicks(s, left[0]);
      if HasMutex(Th(s1, left[0])) || Th(s1, left[0]).ticks == 0 {
        var s2 := ExpireWaiter(s1, left[0], leave);
        StopWaitingInOrder(s1, Th(s1, left[0]).mWants, left[0], m, p, t, u);
        SweepMutexInOrder(s2, kept, left[1..], leave, m, p, t, u);
        KeepsOrderTransitive(MutexQueue(s, m, p), MutexQueue(s2, m, p),
                             MutexQueue(SweepMutex(s2, kept, left[1..], leave), m, p), t, u);
      } else {
        SweepMutexInOrder(s1, kept + [left[0]], left[1..], leave, m, p, t, u);
      }
    }
  }

  lemma AlarmInOrder(s: Sys, leave: bool, m: Mid, p: Prio, t: Tid, u: Tid)
    ensures InOrder(s, Alarm(s, leave), m, p, t, u)
  {
    var q := s.waiting[WAITING_SLEEP];
    SweepSleepMutexes(s, [], q);
    var s1 := SweepSleep(s, [], q);
    SweepMutexInOrder(s1, [], s1.waiting[WAITING_MUTEX], leave, m, p, t, u);
    assert MutexQueue(Alarm(s, leave), m, p) == MutexQueue(ProcessAllWaiting(s, leave), m, p);
  }

  lemma UnqueueInOrder(s: Sys, x: Tid, was: ThreadState, m: Mid, p: Prio, t: Tid, u: Tid)
    ensures InOrder(s, Unqueue(s, x, was), m, p, t, u)
  {
    StopWaitingInOrder(s, Th(s, x).mWants, x, m, p, t, u);
  }

  lemma TerminateInOrder(s: Sys, x: Tid, m: Mid, p: Prio, t: Tid, u: Tid)
    requires Core(s, s.current, Th(s, s.current).mHeld)
    ensures InOrder(s, Terminate(s, x).0, m, p, t, u)
  {
    hide ReleaseAll, Unqueue, OwnersOk, WaitersOk, MembersOk;
    if x in s.threads && Th(s, x).state != Dead {
      var held, prio := Th(s, x).mHeld, PrioOf(s, s.current);
      KilledKeeps(s, x);
      var r := ReleaseAll(Killed(s, x), x, held, prio);
      ReleaseAllInOrder(Killed(s, x), x, held, prio, m, p, t, u);
      var s2 := SetTh(r.0, x, Th(r.0, x).(mHeld := []));
      UnqueueInOrder(s2, x, Th(s, x).state, m, p, t, u);
      var s3 := Unqueue(s2, x, Th(s, x).state);
      KeepsOrderTransitive(MutexQueue(s, m, p), MutexQueue(s2, m, p), MutexQueue(s3, m, p), t, u);
    }
  }

  lemma AcquireInOrder(s: Sys, n: Mid, timeout: Tick, m: Mid, p: Prio, t: Tid, u: Tid)
    requires Cnt(MutexQueue(Acquire(s, n, timeout).0, m, p), t) <= Cnt(MutexQueue(s, m, p), t)
    ensures InOrder(s, Acquire(s, n, timeout).0, m, p, t, u)
  {
    var q := MutexQueue(s, m, p);
    CntPush(q, s.current, t);
    if t != s.current { PushKeepsOrder(q, s.current, t, u); }
    var s' := Acquire(s, n, timeout).0;
    assert MutexQueue(s', m, p) == q || MutexQueue(s', m, p) == q + [s.current];
  }

  lemma ReleaseInOrder(s: Sys, n: Mid, m: Mid, p: Prio, t: Tid, u: Tid)
    ensures InOrder(s, Release(s, n).0, m, p, t, u)
  {
    if n in s.mutexes && Owns(s, n, s.current) {
      var s1 := Dropped(s, n);
      RegrantInOrder(s1, n, m, p, t, u);
      assert MutexQueue(Release(s, n).0, m, p) == MutexQueue(Regrant(s1, n), m, p);
    }
  }

  lemma DeleteInOrder(w: World, n: Mid, m: Mid, p: Prio, t: Tid, u: Tid)
    requires Inv(w)
    ensures InOrder(w.sys, MutexDelete(w.sys, n).0, m, p, t, u)
  {
    var s := w.sys;
    if n in s.mutexes && !Mx(s, n).locked { assert AllEmpty(s.mutexes[n].waiting); }
  }

  /** One step keeps the order in which threads queued for a mutex, unless t queues once more. */
  lemma StepInOrder(w: World, op: Op, leave: bool, m: Mid, p: Prio, t: Tid, u: Tid)
    requires Inv(w) && Enabled(w, op)
    requires Cnt(MutexQueue(Step(w, op, leave).sys, m, p), t) <= Cnt(MutexQueue(w.sys, m, p), t)
    ensures InOrder(w.sys, Step(w, op, leave).sys, m, p, t, u)
  {
    var s := w.sys;
    match op
    case DoTerminate(x) => TerminateInOrder(s, x, m, p, t, u);
    case DoAlarm => AlarmInOrder(s, leave, m, p, t, u);
    case DoAcquire(n, timeout) => AcquireInOrder(s, n, timeout, m, p, t, u);
    case DoRelease(n) => ReleaseInOrder(s, n, m, p, t, u);
    case DoResume => StopWaitingInOrder(s, w.cont[s.current].mid, s.current, m, p, t, u);
    case DoMutexDelete(n) => DeleteInOrder(w, n, m, p, t, u);
    case _ =>
  }

  /** t stands in m's queue of priority p once, all along. */
  ghost predicate StaysQueued(w: World, ops: seq<Op>, leave: bool, m: Mid, p: Prio, t: Tid)
    requires ValidRun(w, ops, leave)
    decreases |ops|
  {
    Cnt(MutexQueue(w.sys, m, p), t) == 1
    && (ops != [] ==> StaysQueued(Step(w, ops[0], leave), ops[1..], leave, m, p, t))
  }

  /** While t keeps waiting, a thread u that queued after it stays behind it: the next grant goes
      to a thread of t's priority or more, and to u only if u's priority is higher. */
  lemma {:induction false} FirstComeFirstServed(w: World, ops: seq<Op>, leave: bool, m: Mid, p: Prio, t: Tid, u: Tid)
    requires Inv(w) && ValidRun(w, ops, leave) && StaysQueued(w, ops, leave, m, p, t)
    requires Before(MutexQueue(w.sys, m, p), t, u)
    ensures var s := Run(w, ops, leave).sys;
            && Before(MutexQueue(s, m, p), t, u)
            && HasNextOwner(Unlock(s, m), m)
            && (NextOwner(Unlock(s, m), m) == u ==> PrioOf(s, u) > p)
            && PrioOf(s, NextOwner(Unlock(s, m), m)) >= p
    decreases |ops|
  {
    var s := w.sys;
    if ops == [] {
      var qs := s.mutexes[m].waiting;
      assert qs[Top(qs)][0] in qs[Top(qs)];
      assert WaiterOk(s, Top(qs), qs[Top(qs)][0]);
    } else {
      var w1 := Step(w, ops[0], leave);
      StepKeeps(w, ops[0], leave);
      StepInOrder(w, ops[0], leave, m, p, t, u);
      CntMember(MutexQueue(w1.sys, m, p), t);
      FirstComeFirstServed(w1, ops[1..], leave, m, p, t, u);
    }
  }

  // ----- fairness within a ready queue -----

  /** What a step does before a dispatch, and whether it dispatches at all. */
  datatype Plan = Stay(sys: Sys) | Dispatch(sys: Sys)

  function Finish(plan: Plan): Sys { if plan.Stay? then plan.sys else ScheduleNext(plan.sys) }

  function YieldIf(c: bool, s: Sys): Plan { if c then Dispatch(AddToReady(s, s.current)) else Stay(s) }

  ghost function PlanOf(w: World, op: Op, leave: bool): Plan
    requires Enabled(w, op)
  {
    var s := w.sys;
    match op
    case DoActivate(t) =>
      if t in s.threads && Th(s, t).state == Dead
      then YieldIf(PrioOf(s, t) > PrioOf(s, s.current), AddToReady(s, t))
      else Stay(s)
    case DoTerminate(t) =>
      if t in s.threads && Th(s, t).state != Dead then
        var r := ReleaseAll(Killed(s, t), t, Th(s, t).mHeld, PrioOf(s, s.current));
        var s3 := Unqueue(SetTh(r.0, t, Th(r.0, t).(mHeld := [])), t, Th(s, t).state);
        if Th(s, t).state == Running then Dispatch(s3) else YieldIf(r.1, s3)
      else Stay(s)
    case DoSleep(n) =>
      if n == TIMEOUT_INFINITE then Stay(s)
      else if n == TIMEOUT_IMMEDIATE then YieldIf(true, s)
      else Dispatch(Block(SetTh(s, s.current, Th(s, s.current).(ticks := n)), s.current, WAITING_SLEEP))
    case DoAcquire(m, timeout) =>
      if m in s.mutexes && s.mutexes[m].locked && timeout != TIMEOUT_IMMEDIATE then Dispatch(BlockedOn(s, m, timeout))
      else Stay(Acquire(s, m, timeout).0)
    case DoRelease(m) =>
      if m in s.mutexes && Owns(s, m, s.current) then
        YieldIf(Preempts(Dropped(s, m), m, PrioOf(s, s.current)), Regrant(Dropped(s, m), m))
      else Stay(s)
    case DoSubmitIO => Dispatch(Block(s, s.current, WAITING_IO))
    case DoReply(t) =>
      if Th(s, t).state == Dead then Stay(s)
      else YieldIf(PrioOf(s, t) > PrioOf(s, s.current), AddToReady(RemoveFromWaiting(s, t), t))
    case DoAlarm => YieldIf(true, ProcessAllWaiting(s, leave))
    case _ => Stay(Step(w, op, leave).sys)
  }

  lemma PlanIsStep(w: World, op: Op, leave: bool)
    requires Enabled(w, op)
    ensures Step(w, op, leave).sys == Finish(PlanOf(w, op, leave))
  {
  }

  /** t stays in the queue and nobody gets ahead of it. */
  ghost predicate NoLater(q: seq<Tid>, q': seq<Tid>, t: Tid) { t in q ==> t in q' && Pos(q', t) <= Pos(q, t) }

  lemma PushNoLater(qs: Queues, p: Prio, x: Tid, t: Tid, r: Prio)
    ensures NoLater(qs[r], Push(qs, p, x)[r], t)
  {
    PosPush(qs[p], x, t);
  }

  lemma EraseNoLater(qs: Queues, x: Tid, t: Tid, r: Prio)
    requires x != t
    ensures NoLater(qs[r], Erase(qs, x)[r], t)
  {
    PosRemove(qs[r], x, t);
  }

  lemma {:induction false} SweepSleepNoLater(s: Sys, kept: seq<Tid>, left: seq<Tid>, t: Tid, r: Prio)
    ensures NoLater(s.ready[r], SweepSleep(s, kept, left).ready[r], t)
    decreases |left|
  {
    if left != [] {
      var (s2, kept') := SweepOne(s, kept, left[0]);
      PushNoLater(s.ready, PrioOf(s, left[0]), left[0], t, r);
      SweepSleepNoLater(s2, kept', left[1..], t, r);
    }
  }

  lemma {:induction false} SweepMutexNoLater(s: Sys, kept: seq<Tid>, left: seq<Tid>, leave: bool, t: Tid, r: Prio)
    ensures NoLater(s.ready[r], SweepMutex(s, kept, left, leave).ready[r], t)
    decreases |left|
  {
    if left != [] {
      var s1 := DecrementTicks(s, left[0]);
      if HasMutex(Th(s1, left[0])) || Th(s1, left[0]).ticks == 0 {
        PushNoLater(s.ready, PrioOf(s, left[0]), left[0], t, r);
        SweepMutexNoLater(ExpireWaiter(s1, left[0], leave), kept, left[1..], leave, t, r);
      } else {
        SweepMutexNoLater(s1, kept + [left[0]], left[1..], leave, t, r);
      }
    }
  }

  lemma ProcessAllWaitingNoLater(s: Sys, leave: bool, t: Tid, r: Prio)
    ensures NoLater(s.ready[r], ProcessAllWaiting(s, leave).ready[r], t)
  {
    SweepSleepNoLater(s, [], s.waiting[WAITING_SLEEP], t, r);
    var s1 := SweepSleep(s, [], s.waiting[WAITING_SLEEP]);
    SweepMutexNoLater(s1, [], s1.waiting[WAITING_MUTEX], leave, t, r);
  }

  lemma RegrantNoLater(s: Sys, m: Mid, t: Tid, r: Prio)
    ensures NoLater(s.ready[r], Regrant(s, m).ready[r], t)
  {
    var s1 := Unlock(s, m);
    if HasNextOwner(s1, m) {
      var x := NextOwner(s1, m);
      PushNoLater(s.ready, PrioOf(RemoveFromWaiting(GetNextOwner(s1, m), x), x), x, t, r);
    }
  }

  lemma {:induction false} ReleaseAllNoLater(s: Sys, x: Tid, held: seq<Mid>, prio: Prio, t: Tid, r: Prio)
    ensures NoLater(s.ready[r], ReleaseAll(s, x, held, prio).0.ready[r], t)
    decreases HandOvers(s, x, held)
  {
    if held != [] {
      HandOverProgress(s, x, held);
      RegrantNoLater(s, held[0], t, r);
      ReleaseAllNoLater(Regrant(s, held[0]), x, StillHeld(s, x, held), prio, t, r);
    }
  }

  lemma UnqueueNoLater(s: Sys, x: Tid, was: ThreadState, t: Tid, r: Prio)
    requires x != t
    ensures NoLater(s.ready[r], Unqueue(s, x, was).ready[r], t)
  {
    EraseNoLater(s.ready, x, t, r);
  }

  lemma YieldIfNoLater(c: bool, s: Sys, t: Tid, r: Prio)
    ensures NoLater(s.ready[r], YieldIf(c, s).sys.ready[r], t)
  {
    PushNoLater(s.ready, PrioOf(s, s.current), s.current, t, r);
  }

  lemma TerminatePlanNoLater(w: World, x: Tid, leave: bool, t: Tid, r: Prio)
    requires Enabled(w, DoTerminate(x)) && x != t
    ensures NoLater(w.sys.ready[r], PlanOf(w, DoTerminate(x), leave).sys.ready[r], t)
  {
    var s := w.sys;
    if x in s.threads && Th(s, x).state != Dead {
      var a := ReleaseAll(Killed(s, x), x, Th(s, x).mHeld, PrioOf(s, s.current));
      ReleaseAllNoLater(Killed(s, x), x, Th(s, x).mHeld, PrioOf(s, s.current), t, r);
      var s2 := SetTh(a.0, x, Th(a.0, x).(mHeld := []));
      UnqueueNoLater(s2, x, Th(s, x).state, t, r);
      YieldIfNoLater(a.1, Unqueue(s2, x, Th(s, x).state), t, r);
    }
  }

  lemma ReleasePlanNoLater(w: World, m: Mid, leave: bool, t: Tid, r: Prio)
    requires Enabled(w, DoRelease(m))
    ensures NoLater(w.sys.ready[r], PlanOf(w, DoRelease(m), leave).sys.ready[r], t)
  {
    var s := w.sys;
    if m in s.mutexes && Owns(s, m, s.current) {
      RegrantNoLater(Dropped(s, m), m, t, r);
      YieldIfNoLater(Preempts(Dropped(s, m), m, PrioOf(s, s.current)), Regrant(Dropped(s, m), m), t, r);
    }
  }

  /** Up to the dispatch, no step but t's own termination moves t back. */
  lemma PlanNoLater(w: World, op: Op, leave: bool, t: Tid, r: Prio)
    requires Enabled(w, op) && op != DoTerminate(t)
    ensures NoLater(w.sys.ready[r], PlanOf(w, op, leave).sys.ready[r], t)
  {
    var s := w.sys;
    match op
    case DoActivate(x) =>
      PushNoLater(s.ready, PrioOf(s, x), x, t, r);
      YieldIfNoLater(PrioOf(s, x) > PrioOf(s, s.current), AddToReady(s, x), t, r);
    case DoTerminate(x) => TerminatePlanNoLater(w, x, leave, t, r);
    case DoSleep(n) => YieldIfNoLater(true, s, t, r);
    case DoRelease(m) => ReleasePlanNoLater(w, m, leave, t, r);
    case DoReply(x) =>
      var s1 := RemoveFromWaiting(s, x);
      PushNoLater(s1.ready, PrioOf(s1, x), x, t, r);
      YieldIfNoLater(PrioOf(s, x) > PrioOf(s, s.current), AddToReady(s1, x), t, r);
    case DoAlarm =>
      ProcessAllWaitingNoLater(s, leave, t, r);
      YieldIfNoLater(true, ProcessAllWaiting(s, leave), t, r);
    case _ =>
  }

  /** The step dispatches from the ready queue of priority p. */
  ghost predicate PicksFrom(plan: Plan, p: Prio) {
    plan.Dispatch? && !AllEmpty(plan.sys.ready) && Top(plan.sys.ready) == p
  }

  ghost function Picks(w: World, ops: seq<Op>, leave: bool, p: Prio): nat
    requires ValidRun(w, ops, leave)
    decreases |ops|
  {
    if ops == [] then 0
    else (if PicksFrom(PlanOf(w, ops[0], leave), p) then 1 else 0) + Picks(Step(w, ops[0], leave), ops[1..], leave, p)
  }

  ghost predicate NeverPicked(w: World, ops: seq<Op>, leave: bool, p: Prio, t: Tid)
    requires ValidRun(w, ops, leave)
    decreases |ops|
  {
    ops != [] ==>
      && ops[0] != DoTerminate(t)
      && (var plan := PlanOf(w, ops[0], leave); PicksFrom(plan, p) ==> plan.sys.ready[p][0] != t)
      && NeverPicked(Step(w, ops[0], leave), ops[1..], leave, p, t)
  }

  lemma StepPos(w: World, op: Op, leave: bool, p: Prio, t: Tid)
    requires Enabled(w, op) && t in w.sys.ready[p] && op != DoTerminate(t)
    requires var plan := PlanOf(w, op, leave); PicksFrom(plan, p) ==> plan.sys.ready[p][0] != t
    ensures var q := Step(w, op, leave).sys.ready[p];
            t in q && Pos(q, t) + (if PicksFrom(PlanOf(w, op, leave), p) then 1 else 0) <= Pos(w.sys.ready[p], t)
  {
    PlanIsStep(w, op, leave);
    PlanNoLater(w, op, leave, t, p);
    var s1 := PlanOf(w, op, leave).sys;
    if PicksFrom(PlanOf(w, op, leave), p) { assert s1.ready[p] == [s1.ready[p][0]] + s1.ready[p][1..]; }
  }

  /** A thread with k threads ahead of it in its ready queue sees at most k picks from that
      queue before its own: the next one is its turn. */
  lemma {:induction false} PickedInTurn(w: World, ops: seq<Op>, leave: bool, p: Prio, t: Tid)
    requires ValidRun(w, ops, leave) && t in w.sys.ready[p] && NeverPicked(w, ops, leave, p, t)
    ensures var q := Run(w, ops, leave).sys.ready[p];
            t in q && Pos(q, t) + Picks(w, ops, leave, p) <= Pos(w.sys.ready[p], t)
    decreases |ops|
  {
    if ops != [] {
      StepPos(w, ops[0], leave, p, t);
      PickedInTurn(Step(w, ops[0], leave), ops[1..], leave, p, t);
    }
  }
}
