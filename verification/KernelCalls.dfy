/** The entry points of VirtualMachine.cpp that drive the scheduler, on the scheduler's objects:
    each makes exactly the transition of the same name in `Kernel`. `Perform` shows that from any
    state some run can reach they can all be called, so no ScheduleNext finds every ready queue
    empty, and that the objects follow the run step by step. */
module KernelCalls {
  import opened Kernel
  import opened KernelSafety
  import opened KernelQueues
  import opened KernelTiming
  import opened Scheduling

  /** Every id in a queue resolves, and somebody can run when a caller gives up the processor. */
  ghost predicate Sound(s: Scheduler)
    reads s, s.mutexes.Values
  {
    && s.Valid() && s.current in s.threads
    && (forall p: Prio, t :: t in s.readyQueues[p] ==> t in s.threads)
    && (forall p: Prio, t :: t in s.waitingQueues[p] ==> t in s.threads)
    && (forall m :: m in s.mutexes ==> s.WaitersKnown(m))
    && (s.current != IDLE ==> !AllEmpty(s.readyQueues))
  }

  /** addToReady(current) followed by scheduleNext. */
  method Reschedule(s: Scheduler)
    requires s.Valid() && s.current in s.threads
    requires forall p: Prio, t :: t in s.readyQueues[p] ==> t in s.threads
    modifies s`readyQueues, s`current, s.threads.Values
    ensures s.Valid() && s.View() == Yield(old(s.View()))
  {
    s.AddToReady(s.current);
    ghost var s1 := s.View();
    assert s1.ready[PrioOf(s1, s.current)] != [];
    s.ScheduleNext();
  }

  method VMThreadCreate(s: Scheduler, prio: Prio) returns (tid: Tid)
    requires s.Valid()
    modifies s
    ensures s.Valid() && s.View() == ThreadCreate(old(s.View()), prio) && tid == old(s.nextTid)
  {
    tid := s.nextTid;
    var x := new ThreadControlBlock(tid, prio);
    s.threads := s.threads[tid := x];
    s.nextTid := tid + 1;
    assert ThreadsView(s.threads) == old(ThreadsView(s.threads))[tid := NEW_TCB.(priority := prio)];
  }

  method VMThreadDelete(s: Scheduler, tid: Tid) returns (r: Status)
    requires s.Valid()
    modifies s
    ensures s.Valid() && (s.View(), r) == ThreadDelete(old(s.View()), tid)
  {
    if tid !in s.threads { return InvalidId; }
    if s.threads[tid].state != Dead { return InvalidState; }
    s.threads := s.threads - {tid};
    assert ThreadsView(s.threads) == old(ThreadsView(s.threads)) - {tid};
    return Success;
  }

  method VMThreadActivate(s: Scheduler, tid: Tid) returns (r: Status)
    requires Sound(s)
    modifies s, s.threads.Values
    ensures s.Valid() && (s.View(), r) == Activate(old(s.View()), tid)
  {
    if tid !in s.threads { return InvalidId; }
    if s.threads[tid].state != Dead { return InvalidState; }
    s.AddToReady(tid);
    ghost var s1 := s.View();
    if s.threads[tid].priority > s.threads[s.current].priority {
      Reschedule(s);
    }
    return Success;
  }

  /** Setting the reason early makes no difference to addToWaiting. */
  lemma BlockOverrides(s: Sys, t: Tid, reason: Prio, n: Tick)
    ensures var c := Th(s, t);
            Block(SetTh(s, t, c.(waitingFor := reason, ticks := n)), t, reason) ==
              Block(SetTh(s, t, c.(ticks := n)), t, reason)
  {
    var c := Th(s, t);
    assert Block(SetTh(s, t, c.(waitingFor := reason, ticks := n)), t, reason).threads
        == Block(SetTh(s, t, c.(ticks := n)), t, reason).threads;
  }

  method VMThreadSleep(s: Scheduler, tick: Tick) returns (r: Status)
    requires Sound(s) && s.current != IDLE
    modifies s, s.threads.Values
    ensures s.Valid() && (s.View(), r) == Sleep(old(s.View()), tick)
  {
    if tick == TIMEOUT_INFINITE { return InvalidParameter; }
    if tick == TIMEOUT_IMMEDIATE {
      Reschedule(s);
    } else {
      s.PrepareWait(s.current, WAITING_SLEEP, tick, false);
      BlockOverrides(old(s.View()), s.current, WAITING_SLEEP, tick);
      GiveUp(s);
    }
    return Success;
  }

  /** addToWaiting(current) followed by scheduleNext. */
  method GiveUp(s: Scheduler)
    requires s.Valid() && s.current in s.threads && s.threads[s.current].waitingFor < 4
    requires !AllEmpty(s.readyQueues) && forall p: Prio, t :: t in s.readyQueues[p] ==> t in s.threads
    modifies s`readyQueues, s`waitingQueues, s`current, s.threads.Values
    ensures s.Valid()
    ensures s.View() == ScheduleNext(Block(old(s.View()), old(s.current), old(s.threads[s.current].waitingFor)))
  {
    s.AddToWaiting(s.current);
    s.ScheduleNext();
  }

  /** A file request is issued and the caller waits for it. */
  method WaitForIO(s: Scheduler)
    requires Sound(s) && s.current != IDLE
    modifies s, s.threads.Values
    ensures s.Valid() && s.View() == SubmitIO(old(s.View()))
  {
    s.PrepareWait(s.current, WAITING_IO, s.threads[s.current].ticksLeft, false);
    BlockOverrides(old(s.View()), s.current, WAITING_IO, Th(old(s.View()), s.current).ticks);
    assert SetTh(old(s.View()), s.current, Th(old(s.View()), s.current)).threads == old(s.View()).threads;
    GiveUp(s);
  }

  method FileHandler(s: Scheduler, tid: Tid)
    requires Sound(s) && tid in s.threads
    modifies s, s.threads.Values
    ensures s.Valid() && s.View() == Reply(old(s.View()), tid)
  {
    hide AddToReady;
    if s.threads[tid].state != Dead {
      s.RemoveFromWaiting(tid);
      s.AddToReady(tid);
      if s.threads[tid].priority > s.threads[s.current].priority {
        Reschedule(s);
      }
    }
  }

  method AlarmHandler(s: Scheduler)
    requires Sound(s)
    modifies s, s.threads.Values
    ensures s.Valid() && s.View() == Alarm(old(s.View()), false)
  {
    ProcessAllWaitingMembers(s.View());
    s.ProcessAllWaiting();
    Reschedule(s);
  }

  lemma {:induction false} SweepSleepMembers(s: Sys, kept: seq<Tid>, left: seq<Tid>)
    ensures forall p: Prio, t :: t in SweepSleep(s, kept, left).ready[p] ==> t in s.ready[p] || t in left
    ensures SweepSleep(s, kept, left).current == s.current
    decreases |left|
  {
    if left != [] {
      var (s2, kept') := SweepOne(s, kept, left[0]);
      SweepSleepMembers(s2, kept', left[1..]);
      assert forall p: Prio, t :: t in s2.ready[p] ==> t in s.ready[p] || t == left[0];
      assert left == [left[0]] + left[1..];
    }
  }

  lemma {:induction false} SweepMutexMembers(s: Sys, kept: seq<Tid>, left: seq<Tid>)
    ensures forall p: Prio, t :: t in SweepMutex(s, kept, left, false).ready[p] ==> t in s.ready[p] || t in left
    ensures SweepMutex(s, kept, left, false).current == s.current
    decreases |left|
  {
    if left != [] {
      var s1 := DecrementTicks(s, left[0]);
      var wake := HasMutex(Th(s1, left[0])) || Th(s1, left[0]).ticks == 0;
      var s2 := if wake then ExpireWaiter(s1, left[0], false) else s1;
      SweepMutexMembers(s2, if wake then kept else kept + [left[0]], left[1..]);
      assert forall p: Prio, t :: t in s2.ready[p] ==> t in s.ready[p] || t == left[0];
      assert left == [left[0]] + left[1..];
    }
  }

  lemma ProcessAllWaitingMembers(s: Sys)
    ensures forall p: Prio, t :: t in ProcessAllWaiting(s, false).ready[p] ==>
              t in s.ready[p] || t in s.waiting[WAITING_SLEEP] || t in s.waiting[WAITING_MUTEX]
    ensures ProcessAllWaiting(s, false).current == s.current
  {
    var q := s.waiting[WAITING_SLEEP];
    SweepSleepMembers(s, [], q);
    SweepSleepFrame(s, [], q);
    var s1 := SweepSleep(s, [], q);
    SweepMutexMembers(s1, [], s1.waiting[WAITING_MUTEX]);
  }

  method VMMutexCreate(s: Scheduler) returns (mid: Mid)
    requires s.Valid()
    modifies s
    ensures s.Valid() && s.View() == MutexCreate(old(s.View())) && mid == old(s.nextMid)
  {
    mid := s.nextMid;
    var x := new Mutex(mid);
    s.mutexes := s.mutexes[mid := x];
    s.nextMid := mid + 1;
    assert MutexesView(s.mutexes) == old(MutexesView(s.mutexes))[mid := NEW_MUTEX];
  }

  method VMMutexDelete(s: Scheduler, mid: Mid) returns (r: Status)
    requires s.Valid()
    modifies s
    ensures s.Valid() && (s.View(), r) == MutexDelete(old(s.View()), mid)
  {
    if mid !in s.mutexes { return InvalidId; }
    if s.mutexes[mid].isLocked { return InvalidState; }
    s.mutexes := s.mutexes - {mid};
    assert MutexesView(s.mutexes) == old(MutexesView(s.mutexes)) - {mid};
    return Success;
  }

  /** VMMutexAcquire up to its context switch. */
  method VMMutexAcquire(s: Scheduler, mid: Mid, timeout: Tick) returns (r: Outcome)
    requires Sound(s) && s.current != IDLE
    modifies s, s.threads.Values, s.mutexes.Values
    ensures s.Valid() && (s.View(), r) == Acquire(old(s.View()), mid, timeout)
  {
    if mid !in s.mutexes { return Returned(InvalidId); }
    if !s.mutexes[mid].isLocked {
      s.Lock(mid, s.current);
      return Returned(Success);
    }
    if timeout == TIMEOUT_IMMEDIATE { return Returned(Failure); }
    var endless := timeout == TIMEOUT_INFINITE;
    s.PrepareWait(s.current, WAITING_MUTEX, if endless then 0xFFFF_FFFF else timeout, endless);
    ghost var s1 := s.View();
    s.WantsMutex(mid, s.current);
    AcquireOverrides(old(s.View()), s1, mid, timeout);
    GiveUp(s);
    return Suspended;
  }

  lemma AcquireOverrides(s: Sys, s1: Sys, m: Mid, timeout: Tick)
    requires var c, endless := Th(s, s.current), timeout == TIMEOUT_INFINITE;
             s1 == SetTh(s, s.current, c.(waitingFor := WAITING_MUTEX, infinite := c.infinite || endless,
                                          ticks := if endless then 0xFFFF_FFFF else timeout))
    ensures Block(WantsMutex(s1, m, s.current), s.current, WAITING_MUTEX) == BlockedOn(s, m, timeout)
  {
    var a := Block(WantsMutex(s1, m, s.current), s.current, WAITING_MUTEX);
    assert a.threads == BlockedOn(s, m, timeout).threads;
  }

  /** VMMutexAcquire after its context switch. */
  method AcquireResume(s: Scheduler, mid: Mid) returns (r: Status)
    requires Sound(s)
    modifies s.threads.Values, s.mutexes.Values
    ensures s.Valid() && (s.View(), r) == Resume(old(s.View()), mid)
  {
    if mid !in s.mutexes { return Failure; }
    s.StopWaiting(mid, s.current);
    return if s.mutexes[mid].owner == s.current then Success else Failure;
  }

  /** The part of a release before the caller may have to yield. */
  method DropAndGrant(s: Scheduler, mid: Mid) returns (wake: bool)
    requires Sound(s) && mid in s.mutexes && Cnt(s.threads[s.current].mHeld, mid) == 1
    modifies s`readyQueues, s`waitingQueues, s.threads.Values, s.mutexes.Values
    ensures s.Valid() && s.View() == Regrant(Dropped(old(s.View()), mid), mid)
    ensures ReadyKnown(s.View())
    ensures wake == Preempts(Dropped(old(s.View()), mid), mid, PrioOf(old(s.View()), s.current))
  {
    ghost var s1 := Dropped(s.View(), mid);
    s.Drop(s.current, mid);
    assert s.View() == s1;
    var prio := s.threads[s.current].priority;
    wake := s.HandOver(mid, prio);
    RegrantMembers(s1, mid);
  }

  method VMMutexRelease(s: Scheduler, mid: Mid) returns (r: Status)
    requires Sound(s) && (mid in s.mutexes && s.mutexes[mid].isLocked && s.mutexes[mid].owner == s.current ==>
                            Cnt(s.threads[s.current].mHeld, mid) == 1)
    modifies s, s.threads.Values, s.mutexes.Values
    ensures s.Valid() && (s.View(), r) == Release(old(s.View()), mid)
  {
    if mid !in s.mutexes { return InvalidId; }
    if !s.mutexes[mid].isLocked || s.mutexes[mid].owner != s.current { return InvalidState; }
    var wake := DropAndGrant(s, mid);
    if wake {
      assert forall p: Prio, t :: t in s.View().ready[p] ==> t in s.threads;
      Reschedule(s);
    }
    return Success;
  }

  ghost predicate ReadyKnown(s: Sys) { forall p: Prio, t :: t in s.ready[p] ==> t in s.threads }

  lemma RegrantMembers(s: Sys, m: Mid)
    requires ReadyKnown(s) && forall p: Prio, t :: t in Mx(s, m).waiting[p] ==> t in s.threads
    ensures ReadyKnown(Regrant(s, m))
  {
    var s1 := Unlock(s, m);
    if HasNextOwner(s1, m) {
      var qs := Mx(s, m).waiting;
      assert qs[Top(qs)][0] in qs[Top(qs)];
    }
  }

  /** The objects of s are in the state that w records. */
  ghost predicate Serves(s: Scheduler, w: World)
    reads s, s.threads.Values, s.mutexes.Values
  {
    s.Valid() && s.View() == w.sys && Inv(w)
  }

  lemma CoreIsKnown(s: Scheduler, v: Sys, x: Tid, rest: seq<Mid>)
    requires s.Valid() && v == s.View() && Core(v, x, rest)
    ensures forall m :: m in s.mutexes ==> s.WaitersKnown(m)
    ensures s.threads.Keys == v.threads.Keys && s.mutexes.Keys == v.mutexes.Keys
    ensures forall t :: t in s.threads ==> s.threads[t].Rec() == Th(v, t)
    ensures forall p: Prio, t :: t in s.readyQueues[p] || t in s.waitingQueues[p] ==> t in s.threads
  {
    forall m, p: Prio, t | m in s.mutexes && t in s.mutexes[m].waiting[p] ensures t in s.threads {
      assert t in v.mutexes[m].waiting[p];
      assert WaiterOk(v, p, t);
    }
  }

  lemma ServesIsSound(s: Scheduler, w: World)
    requires Serves(s, w)
    ensures Sound(s)
  {
    CoreIsKnown(s, w.sys, w.sys.current, Th(w.sys, w.sys.current).mHeld);
    CntMember(s.readyQueues[0], IDLE);
  }

  /** The release loop of VMThreadTerminate. The list it goes through grows when a mutex comes back
      to the thread. */
  method ReleaseHeld(s: Scheduler, tid: Tid, prio: Prio) returns (need: bool)
    requires s.Valid() && tid in s.threads && Core(s.View(), tid, s.threads[tid].mHeld)
    requires prio == PrioOf(s.View(), s.current)
    modifies s`readyQueues, s`waitingQueues, s.mutexes.Values, s.threads.Values
    ensures s.Valid() && (s.View(), need) == ReleaseAll(old(s.View()), tid, old(s.threads[tid].mHeld), prio)
  {
    ghost var v, held := s.View(), s.threads[tid].mHeld;
    need := false;
    var i := 0;
    while i < |s.threads[tid].mHeld|
      invariant 0 <= i <= |s.threads[tid].mHeld| && s.Valid()
      invariant Core(s.View(), tid, s.threads[tid].mHeld[i..]) && prio == PrioOf(s.View(), s.current)
      invariant var r := ReleaseAll(s.View(), tid, s.threads[tid].mHeld[i..], prio);
                ReleaseAll(v, tid, held, prio) == (r.0, need || r.1)
      decreases HandOvers(s.View(), tid, s.threads[tid].mHeld[i..])
    {
      ghost var v1, all := s.View(), s.threads[tid].mHeld;
      CoreIsKnown(s, v1, tid, all[i..]);
      NextHandOver(v1, all, i, tid);
      HandOverProgress(v1, tid, all[i..]);
      var wake := s.HandOver(s.threads[tid].mHeld[i], prio);
      assert s.threads[tid].Rec() == Th(s.View(), tid);
      need := need || wake;
      i := i + 1;
    }
  }

  /** What the loop has still to hand over after its turn at index i. */
  lemma NextHandOver(s: Sys, all: seq<Mid>, i: nat, t: Tid)
    requires i < |all| && Core(s, t, all[i..]) && Th(s, t).mHeld == all
    ensures var s' := Regrant(s, all[i]);
            && all[i] in s.mutexes && Core(s', t, Th(s', t).mHeld[i + 1..])
            && |Th(s', t).mHeld| > i && Th(s', t).mHeld[i + 1..] == StillHeld(s, t, all[i..])
            && s'.current == s.current && PrioOf(s', s.current) == PrioOf(s, s.current)
  {
    hide Core;
    HeadOwned(s, t, all[i..]);
    CntPopAll(all[i..]);
    RegrantKeeps(s, all[i], t, all[i..], all[i..][1..]);
    assert all[i..][1..] == all[i + 1..];
    assert (all + [all[i]])[i + 1..] == all[i + 1..] + [all[i]];
    assert all + [] == all && all[i + 1..] + [] == all[i + 1..];
  }

  /** The second half: out of the queue its state says it is in. */
  method TakeOut(s: Scheduler, tid: Tid, was: ThreadState)
    requires s.Valid() && tid in s.threads && Core(s.View(), tid, [])
    modifies s`readyQueues, s`waitingQueues, s.mutexes.Values, s.threads.Values
    ensures s.Valid() && s.View() == Unqueue(old(s.View()), tid, was)
  {
    CoreIsKnown(s, s.View(), tid, []);
    if was == Ready {
      s.RemoveFromReady(tid);
    } else if was == Waiting {
      var m := s.threads[tid].mWants;
      if s.threads[tid].waitingFor == WAITING_MUTEX && m in s.mutexes {
        s.StopWaiting(m, tid);
      }
      s.RemoveFromWaiting(tid);
    }
  }

  /** Who runs once the thread is gone. */
  method RunNext(s: Scheduler, was: ThreadState, need: bool)
    requires s.Valid() && s.current in s.threads && !AllEmpty(s.readyQueues)
    requires forall p: Prio, t :: t in s.readyQueues[p] ==> t in s.threads
    modifies s`readyQueues, s`current, s.threads.Values
    ensures s.Valid()
    ensures s.View() == if was == Running then ScheduleNext(old(s.View()))
                        else if need then Yield(old(s.View())) else old(s.View())
  {
    if was == Running {
      s.ScheduleNext();
    } else if need {
      Reschedule(s);
    }
  }

  /** The thread is marked dead and gives up its mutexes. */
  method KillAndRelease(s: Scheduler, tid: Tid, prio: Prio) returns (need: bool)
    requires s.Valid() && tid in s.threads && tid != IDLE && prio == PrioOf(s.View(), s.current)
    requires Core(s.View(), s.current, Th(s.View(), s.current).mHeld) && IdleOk(s.View()) && Dominant(s.View())
    modifies s`readyQueues, s`waitingQueues, s.mutexes.Values, s.threads.Values
    ensures s.Valid()
    ensures var v := old(s.View());
            var r := ReleaseAll(Killed(v, tid), tid, Th(v, tid).mHeld, prio);
            && need == r.1 && s.View() == SetTh(r.0, tid, Th(r.0, tid).(mHeld := []))
  {
    ghost var v := s.View();
    CoreIsKnown(s, v, s.current, Th(v, s.current).mHeld);
    KilledKeeps(v, tid);
    s.SetState(tid, Dead);
    ghost var v1 := s.View();
    assert Th(v1, tid) == s.threads[tid].Rec();
    need := ReleaseHeld(s, tid, prio);
    s.ClearHeld(tid);
  }

  lemma StillRunnable(s: Scheduler, s2: Sys, t: Tid, was: ThreadState)
    requires s.Valid() && s.View() == Unqueue(s2, t, was)
    requires Core(s2, t, []) && IdleOk(s2) && s2.current != IDLE && t != IDLE && t in s2.threads
    ensures s.current in s.threads && !AllEmpty(s.readyQueues)
    ensures forall p: Prio, u :: u in s.readyQueues[p] ==> u in s.threads
  {
    hide Unqueue, OwnersOk, WaitersOk;
    UnqueueKeeps(s2, t, was, t, []);
    CoreIsKnown(s, Unqueue(s2, t, was), t, []);
    CntMember(s.readyQueues[0], IDLE);
  }

  method VMThreadTerminate(s: Scheduler, tid: Tid, ghost w: World) returns (r: Status)
    requires Serves(s, w) && Enabled(w, DoTerminate(tid))
    modifies s, s.threads.Values, s.mutexes.Values
    ensures s.Valid() && (s.View(), r) == Terminate(w.sys, tid)
  {
    CoreIsKnown(s, w.sys, w.sys.current, Th(w.sys, w.sys.current).mHeld);
    if tid !in s.threads { return InvalidId; }
    if s.threads[tid].state == Dead { return InvalidState; }
    TerminateLive(s, tid);
    return Success;
  }

  method TerminateLive(s: Scheduler, tid: Tid)
    requires s.Valid() && tid in s.threads && tid != IDLE && s.threads[tid].state != Dead && s.current != IDLE
    requires Core(s.View(), s.current, Th(s.View(), s.current).mHeld) && IdleOk(s.View()) && Dominant(s.View())
    modifies s, s.threads.Values, s.mutexes.Values
    ensures s.Valid() && s.View() == Terminate(old(s.View()), tid).0
  {
    ghost var v := s.View();
    CoreIsKnown(s, v, s.current, Th(v, s.current).mHeld);
    var was := s.threads[tid].state;
    ghost var a := HandOver(v, tid);
    var need := KillAndRelease(s, tid, s.threads[s.current].priority);
    ghost var s2 := s.View();
    assert need == a.1 && s2 == SetTh(a.0, tid, Th(a.0, tid).(mHeld := []));
    TakeOut(s, tid, was);
    StillRunnable(s, s2, tid, was);
    RunNext(s, was, need);
  }

  method PerformThreadCall(s: Scheduler, op: Op, ghost w: World)
    requires Serves(s, w) && Enabled(w, op) && Sound(s)
    requires op.DoCreate? || op.DoDelete? || op.DoActivate? || op.DoTerminate? || op.DoSleep?
    modifies s, s.threads.Values, s.mutexes.Values
    ensures s.Valid() && s.View() == Step(w, op, false).sys
  {
    match op
    case DoCreate(prio) => var _ := VMThreadCreate(s, prio);
    case DoDelete(t) => var _ := VMThreadDelete(s, t);
    case DoActivate(t) => var _ := VMThreadActivate(s, t);
    case DoTerminate(t) => var _ := VMThreadTerminate(s, t, w);
    case DoSleep(n) => var _ := VMThreadSleep(s, n);
  }

  method PerformMutexCall(s: Scheduler, op: Op, w: World)
    requires Serves(s, w) && Enabled(w, op) && Sound(s)
    requires op.DoMutexCreate? || op.DoMutexDelete? || op.DoAcquire? || op.DoResume? || op.DoRelease?
    modifies s, s.threads.Values, s.mutexes.Values
    ensures s.Valid() && s.View() == Step(w, op, false).sys
  {
    hide Acquire, Resume, Release, MutexDelete, MutexCreate, Core, Activate, Terminate, Alarm, Reply, Sleep,
         ThreadCreate, ThreadDelete, SubmitIO, Cnt;
    CoreIsKnown(s, w.sys, w.sys.current, Th(w.sys, w.sys.current).mHeld);
    match op
    case DoMutexCreate => var _ := VMMutexCreate(s);
    case DoMutexDelete(m) => var _ := VMMutexDelete(s, m);
    case DoAcquire(m, timeout) => var _ := VMMutexAcquire(s, m, timeout);
    case DoResume => var _ := AcquireResume(s, w.cont[s.current].mid);
    case DoRelease(m) =>
      HeldOnce(w, m);
      var _ := VMMutexRelease(s, m);
  }

  lemma HeldOnce(w: World, m: Mid)
    requires Inv(w)
    ensures var t := w.sys.current; Owns(w.sys, m, t) ==> Cnt(Th(w.sys, t).mHeld, m) == 1
  {
    var t := w.sys.current;
    assert HeldOf(w.sys, t, t, Th(w.sys, t).mHeld) == Th(w.sys, t).mHeld;
  }

  /** The objects follow any enabled step, and are ready for the next one. */
  method Perform(s: Scheduler, op: Op, w: World)
    requires Serves(s, w) && Enabled(w, op)
    modifies s, s.threads.Values, s.mutexes.Values
    ensures Serves(s, Step(w, op, false))
  {
    ServesIsSound(s, w);
    StepKeeps(w, op, false);
    if op.DoAlarm? {
      AlarmHandler(s);
    } else if op.DoReply? {
      FileHandler(s, op.t);
    } else if op.DoSubmitIO? {
      WaitForIO(s);
    } else if op.DoCreate? || op.DoDelete? || op.DoActivate? || op.DoTerminate? || op.DoSleep? {
      PerformThreadCall(s, op, w);
    } else {
      PerformMutexCall(s, op, w);
    }
  }
}
