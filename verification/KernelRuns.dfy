/** What follows for every run: mutual exclusion, priority dominance and lasting ownership; and for
    every timely one: safe deletion, and endless acquires that never fail. */
module KernelRuns {
  import opened Kernel
  import opened KernelSafety
  import opened KernelQueues
  import opened KernelTimely

  // ----- mutual exclusion, for all timeouts -----

  /** A locked mutex is held, once, by its owner and by nobody else; a free one is held by
      nobody and nobody queues for it. */
  lemma MutualExclusion(ops: seq<Op>, leave: bool, m: Mid, t: Tid)
    requires ValidRun(START, ops, leave)
    ensures var s := Run(START, ops, leave).sys;
            && Cnt(Th(s, t).mHeld, m) == (if m in s.mutexes && Mx(s, m).locked && Mx(s, m).owner == t then 1 else 0)
            && (m in s.mutexes && Mx(s, m).locked ==> Mx(s, m).owner in s.threads)
            && (!Mx(s, m).locked ==> AllEmpty(Mx(s, m).waiting))
  {
    StartInv();
    RunKeeps(START, ops, leave);
    OwnersAreReal(Run(START, ops, leave), m, t);
  }

  lemma OwnersAreReal(w: World, m: Mid, t: Tid)
    requires Inv(w)
    ensures var s := w.sys;
            && Cnt(Th(s, t).mHeld, m) == (if Owns(s, m, t) then 1 else 0)
            && (m in s.mutexes && s.mutexes[m].locked ==> s.mutexes[m].owner in s.threads)
            && (!Mx(s, m).locked ==> AllEmpty(Mx(s, m).waiting))
  {
    var s := w.sys;
    var x, rest := s.current, Th(s, s.current).mHeld;
    assert HeldOf(s, t, x, rest) == Th(s, t).mHeld;
    if m in s.mutexes && s.mutexes[m].locked {
      var o := s.mutexes[m].owner;
      assert HeldOf(s, o, x, rest) == Th(s, o).mHeld;
      assert Cnt(Th(s, o).mHeld, m) == 1;
    }
  }

  /** As written, a thread that will still run inside an acquire of m keeps m locked. */
  lemma AcquirersLock(w: World, leave: bool, t: Tid)
    requires QueueInv(w, leave) && t in w.cont && Th(w.sys, t).state != Dead && (w.cont[t].infinite || !leave)
    ensures w.cont[t].mid in w.sys.mutexes && w.sys.mutexes[w.cont[t].mid].locked
  {
    var s, k, m := w.sys, StacksOf(w, leave), w.cont[t].mid;
    assert Placed(s, k, true, t);
    if !Owns(s, m, t) { assert Cnt(s.mutexes[m].waiting[PrioOf(s, t)], t) == 1; }
  }

  /** In a timely run, deleting a mutex succeeds only when no thread holds it, queues for it, or will
      run again inside an acquire of it. */
  lemma DeleteIsSafe(ops: seq<Op>, leave: bool, m: Mid, t: Tid)
    requires ValidRun(START, ops, leave) && TimelyRun(START, ops, leave)
    ensures var w := Run(START, ops, leave);
            MutexDelete(w.sys, m).1 == Success ==>
              && m !in Th(w.sys, t).mHeld && !InQueues(w.sys.mutexes[m].waiting, t)
              && (t in w.cont && w.cont[t].mid == m && (w.cont[t].infinite || !leave) ==> Th(w.sys, t).state == Dead)
  {
    var w := Run(START, ops, leave);
    StartQueues(leave);
    RunQueues(START, ops, leave);
    OwnersAreReal(w, m, t);
    CntMember(Th(w.sys, t).mHeld, m);
    if t in w.cont && Th(w.sys, t).state != Dead && (w.cont[t].infinite || !leave) { AcquirersLock(w, leave, t); }
  }

  /** In a timely run, a dead thread may be deleted exactly if it has no file request outstanding and
      stands in no mutex's queue: nothing else refers to it. In the variant no mutex queues it. */
  lemma DeletableIff(ops: seq<Op>, leave: bool, t: Tid)
    requires ValidRun(START, ops, leave) && TimelyRun(START, ops, leave)
    requires var w := Run(START, ops, leave);
             && t in w.sys.threads && Th(w.sys, t).state == Dead
             && w.sys.current != IDLE && w.sys.current !in w.cont
    ensures var w := Run(START, ops, leave);
            && (Enabled(w, DoDelete(t)) <==>
                t !in w.pending && forall m :: m in w.sys.mutexes ==> !InQueues(w.sys.mutexes[m].waiting, t))
            && (leave ==> forall m :: m in w.sys.mutexes ==> !InQueues(w.sys.mutexes[m].waiting, t))
  {
    hide InQueues, Enabled;
    var w := Run(START, ops, leave);
    StartQueues(leave);
    RunQueues(START, ops, leave);
    DeletableNow(w, leave, t);
  }

  lemma DeletableNow(w: World, leave: bool, t: Tid)
    requires QueueInv(w, leave) && t in w.sys.threads && Th(w.sys, t).state == Dead
    requires w.sys.current != IDLE && w.sys.current !in w.cont
    ensures Enabled(w, DoDelete(t)) <==>
            t !in w.pending && forall m :: m in w.sys.mutexes ==> !InQueues(w.sys.mutexes[m].waiting, t)
    ensures leave ==> forall m :: m in w.sys.mutexes ==> !InQueues(w.sys.mutexes[m].waiting, t)
  {
    hide Dominant, StacksOk, InQueues;
    assert Placed(w.sys, StacksOf(w, leave), true, t);
    DeadNowhereElse(w.sys, StacksOf(w, leave), t);
    assert t != w.sys.current && t != IDLE;
    hide Placed, Core;
    forall m | m in w.sys.mutexes && w.sys.mutexes[m].locked ensures w.sys.mutexes[m].owner != t {
      assert !Owns(w.sys, m, t);
    }
  }

  lemma DeadNowhereElse(s: Sys, k: Stacks, t: Tid)
    requires Placed(s, k, true, t) && Core(s, s.current, Th(s, s.current).mHeld) && Th(s, t).state == Dead
    ensures !InQueues(s.ready, t) && !InQueues(s.waiting, t) && forall m :: !Owns(s, m, t)
    ensures !k.late ==> forall m :: m in s.mutexes ==> !InQueues(s.mutexes[m].waiting, t)
  {
    forall p: Prio ensures t !in s.ready[p] && t !in s.waiting[p] {
      CntMember(s.ready[p], t); CntMember(s.waiting[p], t);
    }
    forall m ensures !Owns(s, m, t) {
      assert HeldOf(s, t, s.current, Th(s, s.current).mHeld) == [];
    }
    forall m, p: Prio | m in s.mutexes && !k.late ensures t !in s.mutexes[m].waiting[p] {
      assert !Seated(s, k, t, m, p);
      CntMember(s.mutexes[m].waiting[p], t);
    }
  }

  /** In a timely run of the code as written, an acquire that runs again finds its mutex. */
  lemma AcquirersFindMutex(ops: seq<Op>)
    requires ValidRun(START, ops, false) && TimelyRun(START, ops, false)
    ensures var w := Run(START, ops, false); w.sys.current in w.cont ==> w.cont[w.sys.current].mid in w.sys.mutexes
  {
    var w := Run(START, ops, false);
    StartQueues(false);
    RunQueues(START, ops, false);
    if w.sys.current in w.cont {
      assert Placed(w.sys, StacksOf(w, false), true, w.sys.current);
      AcquirersLock(w, false, w.sys.current);
    }
  }

  // ----- an infinite acquire never fails -----

  lemma InfiniteAcquireSucceeds(ops: seq<Op>, leave: bool)
    requires ValidRun(START, ops, leave) && TimelyRun(START, ops, leave)
    ensures var w := Run(START, ops, leave);
            w.sys.current in w.cont && w.cont[w.sys.current].infinite ==>
              && w.cont[w.sys.current].mid in w.sys.mutexes
              && Resume(w.sys, w.cont[w.sys.current].mid).1 == Success
              && w.cont[w.sys.current].mid in Th(w.sys, w.sys.current).mHeld
  {
    var w := Run(START, ops, leave);
    StartQueues(leave);
    RunQueues(START, ops, leave);
    if w.sys.current in w.cont && w.cont[w.sys.current].infinite {
      assert Placed(w.sys, StacksOf(w, leave), true, w.sys.current);
      OwnersAreReal(w, w.cont[w.sys.current].mid, w.sys.current);
      CntMember(Th(w.sys, w.sys.current).mHeld, w.cont[w.sys.current].mid);
    }
  }

  // ----- priority dominance -----

  /** After every step the running thread is at least as urgent as every ready one, and a
      dispatch always finds a thread. */
  lemma PriorityDominance(ops: seq<Op>, leave: bool, p: Prio, t: Tid)
    requires ValidRun(START, ops, leave)
    ensures var s := Run(START, ops, leave).sys;
            && (t in s.ready[p] ==> PrioOf(s, t) == p && p <= PrioOf(s, s.current))
            && !AllEmpty(AddToReady(s, s.current).ready)
            && (s.current != IDLE ==> !AllEmpty(s.ready))
            && Cnt(s.ready[0], IDLE) + (if s.current == IDLE then 1 else 0) == 2
  {
    StartInv();
    RunKeeps(START, ops, leave);
    var s := Run(START, ops, leave).sys;
    CntMember(s.ready[0], IDLE);
    ReadyKeepsMembers(s, s.current);
  }

  // ----- a mutex stays with its owner -----

  /** The steps by which t gives m away. */
  predicate GivesUp(w: World, op: Op, m: Mid, t: Tid) {
    (op == DoRelease(m) && w.sys.current == t) || op == DoTerminate(t)
  }

  lemma {:induction false} SweepSleepMutexes(s: Sys, kept: seq<Tid>, left: seq<Tid>)
    ensures SweepSleep(s, kept, left).mutexes == s.mutexes
    decreases |left|
  {
    if left != [] {
      var s1 := DecrementTicks(s, left[0]);
      if Th(s1, left[0]).ticks == 0 { SweepSleepMutexes(WakeSleeper(s1, left[0]), kept, left[1..]); }
      else { SweepSleepMutexes(s1, kept + [left[0]], left[1..]); }
    }
  }

  lemma {:induction false} SweepMutexOwners(s: Sys, kept: seq<Tid>, left: seq<Tid>, leave: bool, m: Mid, t: Tid)
    requires Owns(s, m, t)
    ensures Owns(SweepMutex(s, kept, left, leave), m, t)
    decreases |left|
  {
    if left != [] {
      var s1 := DecrementTicks(s, left[0]);
      if HasMutex(Th(s1, left[0])) || Th(s1, left[0]).ticks == 0 {
        SweepMutexOwners(ExpireWaiter(s1, left[0], leave), kept, left[1..], leave, m, t);
      } else {
        SweepMutexOwners(s1, kept + [left[0]], left[1..], leave, m, t);
      }
    }
  }

  lemma {:induction false} ReleaseAllOwners(s: Sys, u: Tid, held: seq<Mid>, prio: Prio, m: Mid, t: Tid)
    requires Owns(s, m, t) && m !in held
    ensures Owns(ReleaseAll(s, u, held, prio).0, m, t)
    decreases HandOvers(s, u, held)
  {
    if held != [] {
      assert held[0] in held;
      HandOverProgress(s, u, held);
      ReleaseAllOwners(Regrant(s, held[0]), u, StillHeld(s, u, held), prio, m, t);
    }
  }

  lemma TerminateOwner(s: Sys, u: Tid, m: Mid, t: Tid)
    requires Owns(s, m, t) && m !in Th(s, u).mHeld
    ensures Owns(Terminate(s, u).0, m, t)
  {
    if u in s.threads && Th(s, u).state != Dead {
      var r := ReleaseAll(Killed(s, u), u, Th(s, u).mHeld, PrioOf(s, s.current));
      ReleaseAllOwners(Killed(s, u), u, Th(s, u).mHeld, PrioOf(s, s.current), m, t);
      assert Owns(Unqueue(SetTh(r.0, u, Th(r.0, u).(mHeld := [])), u, Th(s, u).state), m, t);
    }
  }

  lemma AlarmOwner(s: Sys, leave: bool, m: Mid, t: Tid)
    requires Owns(s, m, t)
    ensures Owns(Alarm(s, leave), m, t)
  {
    var q := s.waiting[WAITING_SLEEP];
    SweepSleepMutexes(s, [], q);
    var s1 := SweepSleep(s, [], q);
    SweepMutexOwners(s1, [], s1.waiting[WAITING_MUTEX], leave, m, t);
  }

  lemma AcquireOwner(s: Sys, n: Mid, timeout: Tick, m: Mid, t: Tid)
    requires Owns(s, m, t)
    ensures Owns(Acquire(s, n, timeout).0, m, t)
  {}

  lemma ReleaseOwner(s: Sys, n: Mid, m: Mid, t: Tid)
    requires Owns(s, m, t) && (n != m || s.current != t)
    ensures Owns(Release(s, n).0, m, t)
  {}

  lemma ReplyOwner(s: Sys, u: Tid, m: Mid, t: Tid)
    requires Owns(s, m, t)
    ensures Owns(Reply(s, u), m, t)
  {}

  lemma OwnerStays(w: World, op: Op, leave: bool, m: Mid, t: Tid)
    requires Inv(w) && Enabled(w, op) && Owns(w.sys, m, t) && !GivesUp(w, op, m, t)
    ensures Owns(Step(w, op, leave).sys, m, t)
  {
    match op
    case DoTerminate(u) =>
      OwnersAreReal(w, m, u);
      CntMember(Th(w.sys, u).mHeld, m);
      TerminateOwner(w.sys, u, m, t);
    case DoAlarm => AlarmOwner(w.sys, leave, m, t);
    case DoAcquire(n, timeout) => AcquireOwner(w.sys, n, timeout, m, t);
    case DoRelease(n) => ReleaseOwner(w.sys, n, m, t);
    case DoReply(u) => ReplyOwner(w.sys, u, m, t);
    case _ =>
  }

  ghost predicate NeverGivesUp(w: World, ops: seq<Op>, leave: bool, m: Mid, t: Tid)
    requires ValidRun(w, ops, leave)
    decreases |ops|
  {
    ops != [] ==> !GivesUp(w, ops[0], m, t) && NeverGivesUp(Step(w, ops[0], leave), ops[1..], leave, m, t)
  }

  /** Once t owns m it owns it until it releases it or is terminated. */
  lemma {:induction false} OwnerStaysThroughout(w: World, ops: seq<Op>, leave: bool, m: Mid, t: Tid)
    requires Inv(w) && ValidRun(w, ops, leave) && Owns(w.sys, m, t) && NeverGivesUp(w, ops, leave, m, t)
    ensures Owns(Run(w, ops, leave).sys, m, t)
    decreases |ops|
  {
    if ops != [] {
      OwnerStays(w, ops[0], leave, m, t);
      StepKeeps(w, ops[0], leave);
      OwnerStaysThroughout(Step(w, ops[0], leave), ops[1..], leave, m, t);
    }
  }
}
