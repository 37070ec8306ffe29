/** Which runs keep every thread in one place. As written, a waiter whose time is up is made ready
    but keeps standing in the mutex's queue, so a mutex can be handed to a thread that is ready
    already, which then is in its ready queue twice. A run has every thread queued at most once, all
    along, if and only if no step of it does that. */
module KernelTimely {
  import opened Kernel
  import opened KernelSafety
  import opened KernelQueues

  ghost predicate TimelyRun(w: World, ops: seq<Op>, leave: bool)
    requires ValidRun(w, ops, leave)
    decreases |ops|
  {
    ops != [] ==> Timely(w, ops[0]) && TimelyRun(Step(w, ops[0], leave), ops[1..], leave)
  }

  lemma {:induction false} RunQueues(w: World, ops: seq<Op>, leave: bool)
    requires QueueInv(w, leave) && ValidRun(w, ops, leave) && TimelyRun(w, ops, leave)
    ensures QueueInv(Run(w, ops, leave), leave)
    decreases |ops|
  {
    if ops != [] {
      StepQueues(w, ops[0], leave);
      RunQueues(Step(w, ops[0], leave), ops[1..], leave);
    }
  }

  // ----- being in one place -----

  /** In how many places t is: in the ready queues, in the waiting queues, running. */
  ghost function Places(s: Sys, t: Tid): nat {
    Times(s.ready, t) + Times(s.waiting, t) + if s.current == t then 1 else 0
  }

  /** Every thread but idle is in one place at most, and queues for a mutex only from inside an
      acquire of it. */
  ghost predicate InPlace(w: World) {
    && (forall t :: t != IDLE ==> Places(w.sys, t) <= 1)
    && (forall m, t :: m in w.sys.mutexes && InQueues(w.sys.mutexes[m].waiting, t) ==>
         t in w.cont && w.cont[t].mid == m)
  }

  ghost predicate StaysInPlace(w: World, ops: seq<Op>, leave: bool)
    requires ValidRun(w, ops, leave)
    decreases |ops|
  {
    InPlace(w) && (ops != [] ==> StaysInPlace(Step(w, ops[0], leave), ops[1..], leave))
  }

  lemma PlacedOnce(s: Sys, k: Stacks, t: Tid)
    requires Placed(s, k, true, t)
    ensures Places(s, t) == if Th(s, t).state == Dead then 0 else 1
    ensures Th(s, t).state != Waiting ==> Times(s.waiting, t) == 0
  {
    var p := PrioOf(s, t);
    assert Queued(s, t) && TimersOk(Th(s, t));
  }

  lemma StrangersNowhere(s: Sys, t: Tid)
    requires MembersOk(s) && t !in s.threads
    ensures Places(s, t) == 0
  {
    CntMember(s.ready[0], t); CntMember(s.ready[1], t); CntMember(s.ready[2], t); CntMember(s.ready[3], t);
    CntMember(s.waiting[0], t); CntMember(s.waiting[1], t); CntMember(s.waiting[2], t); CntMember(s.waiting[3], t);
  }

  lemma QueuersAreInside(s: Sys, k: Stacks, m: Mid, t: Tid)
    requires WaitersOk(s) && m in s.mutexes && NO_MUTEX !in s.mutexes && InQueues(s.mutexes[m].waiting, t)
    requires t in s.threads && t != IDLE ==> Placed(s, k, true, t)
    ensures t in s.threads && t != IDLE && t in k.cont && k.cont[t].mid == m
  {
    var qs := s.mutexes[m].waiting;
    var p: Prio := if t in qs[0] then 0 else if t in qs[1] then 1 else if t in qs[2] then 2 else 3;
    assert t in s.mutexes[m].waiting[p];
    assert WaiterOk(s, p, t);
    CntMember(qs[p], t);
    assert Seated(s, k, t, m, p);
  }

  lemma PlacedIsInPlace(w: World, leave: bool)
    requires QueueInv(w, leave)
    ensures InPlace(w)
  {
    var s, k := w.sys, StacksOf(w, leave);
    forall t | t != IDLE ensures Places(s, t) <= 1 {
      if t in s.threads { PlacedOnce(s, k, t); } else { StrangersNowhere(s, t); }
    }
    forall m, t | m in s.mutexes && InQueues(s.mutexes[m].waiting, t) ensures t in w.cont && w.cont[t].mid == m {
      QueuersAreInside(s, k, m, t);
    }
  }

  // ----- a late hand-over puts a thread in two places -----

  lemma TimesPush(qs: Queues, p: Prio, t: Tid, u: Tid)
    ensures Times(Push(qs, p, t), u) == Times(qs, u) + if u == t then 1 else 0
  {
    CntPush(qs[p], t, u);
  }

  lemma TimesErase(qs: Queues, t: Tid, u: Tid)
    ensures Times(Erase(qs, t), u) + (if u == t && InQueues(qs, t) then 1 else 0) == Times(qs, u)
  {
    CntRemoveFirst(qs[0], t, u); CntRemoveFirst(qs[1], t, u);
    CntRemoveFirst(qs[2], t, u); CntRemoveFirst(qs[3], t, u);
    CntMember(qs[0], t); CntMember(qs[1], t); CntMember(qs[2], t); CntMember(qs[3], t);
  }

  lemma TimesPop(qs: Queues, u: Tid)
    requires !AllEmpty(qs)
    ensures Times(Pop(qs), u) + (if u == qs[Top(qs)][0] then 1 else 0) == Times(qs, u)
  {
    CntPop(qs[Top(qs)], u);
  }

  lemma NotQueued(qs: Queues, t: Tid)
    ensures InQueues(qs, t) <==> Times(qs, t) > 0
  {
    CntMember(qs[0], t); CntMember(qs[1], t); CntMember(qs[2], t); CntMember(qs[3], t);
  }

  /** A dispatch moves the front of a ready queue to the processor, and nobody else. */
  lemma DispatchMoves(s: Sys, u: Tid)
    requires !AllEmpty(s.ready)
    ensures Places(ScheduleNext(s), u) + (if s.current == u then 1 else 0) == Places(s, u)
  {
    TimesPop(s.ready, u);
  }

  lemma YieldMoves(s: Sys, u: Tid)
    ensures Places(Yield(s), u) == Places(s, u)
  {
    TimesPush(s.ready, PrioOf(s, s.current), s.current, u);
    assert AddToReady(s, s.current).ready[PrioOf(s, s.current)] != [];
    DispatchMoves(AddToReady(s, s.current), u);
  }

  /** A hand-over takes nobody out of every place, and puts its new owner in one more place unless
      it takes it out of a waiting queue. */
  lemma RegrantAdds(s: Sys, m: Mid, u: Tid)
    ensures Places(Regrant(s, m), u) >= Places(s, u)
    ensures ComesBack(s, m, u) && Times(s.waiting, u) == 0 ==> Places(Regrant(s, m), u) == Places(s, u) + 1
  {
    if HasNextOwner(Unlock(s, m), m) {
      var t := NextOwner(Unlock(s, m), m);
      TimesErase(s.waiting, t, u);
      TimesPush(s.ready, PrioOf(s, t), t, u);
      NotQueued(s.waiting, t);
    }
  }

  lemma {:induction false} ReleaseAllAdds(s: Sys, t: Tid, held: seq<Mid>, prio: Prio, u: Tid)
    ensures Places(ReleaseAll(s, t, held, prio).0, u) >= Places(s, u)
    ensures ReleaseAll(s, t, held, prio).0.current == s.current
    decreases HandOvers(s, t, held)
  {
    if held != [] {
      HandOverProgress(s, t, held);
      RegrantAdds(s, held[0], u);
      ReleaseAllAdds(Regrant(s, held[0]), t, StillHeld(s, t, held), prio, u);
    }
  }

  /** The new owner of m, when it is ready already, is then in two places. */
  lemma LateGrantDoubles(s: Sys, m: Mid, k: Stacks, x: Tid, rest: seq<Mid>) returns (u: Tid)
    requires Core(s, x, rest) && Owns(s, m, x) && !TimelyGrant(s, m)
    requires forall t :: t in s.threads && t != IDLE && (t != x || Th(s, x).state != Dead) ==> Placed(s, k, true, t)
    ensures u != IDLE && u in s.threads && Th(s, u).state != Dead && Places(Regrant(s, m), u) >= 2
  {
    var qs := s.mutexes[m].waiting;
    u := NextOwner(Unlock(s, m), m);
    assert u in qs[Top(qs)];
    assert WaiterOk(s, Top(qs), u);
    PlacedOnce(s, k, u);
    RegrantAdds(s, m, u);
  }

  lemma {:induction false} LateLoopDoubles(s: Sys, t: Tid, held: seq<Mid>, prio: Prio, k: Stacks) returns (u: Tid)
    requires Core(s, t, held) && MutexQueued(s, k, t) && !TimelyGrants(s, t, held) && Th(s, t).state == Dead
    requires forall v :: v in s.threads && v != IDLE && v != t ==> Placed(s, k, true, v)
    ensures u != IDLE && u != t && Places(ReleaseAll(s, t, held, prio).0, u) >= 2
    decreases HandOvers(s, t, held)
  {
    HandOverProgress(s, t, held);
    HeadOwned(s, t, held);
    var s1 := Regrant(s, held[0]);
    if !TimelyGrant(s, held[0]) {
      u := LateGrantDoubles(s, held[0], k, t, held);
      ReleaseAllAdds(s1, t, StillHeld(s, t, held), prio, u);
    } else {
      HandOverOne(s, t, held, k);
      u := LateLoopDoubles(s1, t, held[1..], prio, k);
    }
  }

  lemma LateRelease(w: World, m: Mid, leave: bool)
    requires QueueInv(w, leave) && Enabled(w, DoRelease(m)) && !Timely(w, DoRelease(m))
    ensures !InPlace(Step(w, DoRelease(m), leave))
  {
    hide Placed, OwnersOk, WaitersOk, Regrant, Places;
    var s, k, rest := w.sys, StacksOf(w, leave), Th(w.sys, w.sys.current).mHeld;
    var s1 := Dropped(s, m);
    DropHeld(s, m);
    DroppedPlaces(s, m, k);
    var u := LateGrantDoubles(s1, m, k, s.current, rest);
    YieldMoves(Regrant(s1, m), u);
    assert Places(Step(w, DoRelease(m), leave).sys, u) >= 2;
  }

  lemma UnqueueSpares(s: Sys, t: Tid, was: ThreadState, u: Tid)
    requires u != t
    ensures Places(Unqueue(s, t, was), u) == Places(s, u) && Unqueue(s, t, was).current == s.current
  {
    TimesErase(s.ready, t, u);
    TimesErase(s.waiting, t, u);
  }

  lemma LateTerminate(w: World, t: Tid, leave: bool)
    requires QueueInv(w, leave) && Enabled(w, DoTerminate(t)) && !Timely(w, DoTerminate(t))
    ensures !InPlace(Step(w, DoTerminate(t), leave))
  {
    hide Times, MutexQueued, StackOk, OwnersOk, WaitersOk, Queued;
    var s, k := w.sys, StacksOf(w, leave);
    var was, held, prio := Th(s, t).state, Th(s, t).mHeld, PrioOf(s, s.current);
    MarkDead(s, t, k);
    var u := LateLoopDoubles(Killed(s, t), t, held, prio, k);
    var r := HandOver(s, t);
    var s2 := SetTh(r.0, t, Th(r.0, t).(mHeld := []));
    UnqueueSpares(s2, t, was, u);
    UnqueueKeeps(s2, t, was, t, []);
    assert Placed(s, k, true, t);
    AfterTerminate(Unqueue(s2, t, was), t, was, r.1, u);
    assert Places(Step(w, DoTerminate(t), leave).sys, u) >= 2;
  }

  lemma AfterTerminate(s: Sys, t: Tid, was: ThreadState, wake: bool, u: Tid)
    requires Core(s, t, []) && IdleOk(s) && u != t && (was == Running ==> s.current == t && t != IDLE)
    ensures var s' := if was == Running then ScheduleNext(s) else if wake then Yield(s) else s;
            Places(s', u) == Places(s, u)
  {
    if was == Running {
      CntMember(s.ready[0], IDLE);
      DispatchMoves(s, u);
    } else if wake {
      YieldMoves(s, u);
    }
  }

  lemma LateActivate(w: World, t: Tid, leave: bool)
    requires Enabled(w, DoActivate(t)) && !Timely(w, DoActivate(t))
    ensures !InPlace(Step(w, DoActivate(t), leave))
  {
    hide Places, Activate;
    ActivateMutexes(w.sys, t);
    var w' := Step(w, DoActivate(t), leave);
    var m :| m in w.sys.mutexes && InQueues(w.sys.mutexes[m].waiting, t);
    assert InQueues(w'.sys.mutexes[m].waiting, t) && t !in w'.cont;
  }

  lemma ActivateMutexes(s: Sys, t: Tid)
    ensures Activate(s, t).0.mutexes == s.mutexes
    ensures t in s.threads && Th(s, t).state == Dead ==> Activate(s, t).1 == Success
  {}

  lemma UntimelyShows(w: World, op: Op, leave: bool)
    requires QueueInv(w, leave) && Enabled(w, op) && !Timely(w, op)
    ensures !InPlace(Step(w, op, leave))
  {
    match op
    case DoActivate(t) => LateActivate(w, t, leave);
    case DoRelease(m) => LateRelease(w, m, leave);
    case DoTerminate(t) => LateTerminate(w, t, leave);
    case _ =>
  }

  // ----- the exact condition -----

  lemma {:induction false} InPlaceIffTimelyFrom(w: World, ops: seq<Op>, leave: bool)
    requires QueueInv(w, leave) && ValidRun(w, ops, leave)
    ensures StaysInPlace(w, ops, leave) <==> TimelyRun(w, ops, leave)
    decreases |ops|
  {
    PlacedIsInPlace(w, leave);
    if ops != [] {
      if Timely(w, ops[0]) {
        StepQueues(w, ops[0], leave);
        InPlaceIffTimelyFrom(Step(w, ops[0], leave), ops[1..], leave);
      } else {
        UntimelyShows(w, ops[0], leave);
      }
    }
  }

  /** Over any run, with any timeouts: all threads stay in one place if and only if every step is
      timely. */
  lemma InPlaceIffTimely(ops: seq<Op>, leave: bool)
    requires ValidRun(START, ops, leave)
    ensures StaysInPlace(START, ops, leave) <==> TimelyRun(START, ops, leave)
  {
    StartQueues(leave);
    InPlaceIffTimelyFrom(START, ops, leave);
  }

  // ----- runs without late grants -----

  /** Every thread inside VMMutexAcquire asked to wait for ever. */
  ghost predicate Patient(cont: map<Tid, Cont>) { forall t :: t in cont ==> cont[t].infinite }

  /** An endless or immediate timeout, or the variant in which an expired waiter leaves the queue. */
  predicate TimeoutOk(op: Op, leave: bool) {
    leave || (op.DoAcquire? ==> op.timeout == TIMEOUT_INFINITE || op.timeout == TIMEOUT_IMMEDIATE)
  }

  ghost predicate Prompt(k: Stacks) { k.late ==> Patient(k.cont) }

  /** Then a thread stands in a mutex's queue exactly if it wants that mutex. */
  lemma PromptSeats(s: Sys, k: Stacks, t: Tid, m: Mid, p: Prio)
    requires Placed(s, k, true, t) && Prompt(k) && m in s.mutexes && NO_MUTEX !in s.mutexes
    ensures Cnt(s.mutexes[m].waiting[p], t) == if Th(s, t).mWants == m && PrioOf(s, t) == p then 1 else 0
    ensures Th(s, t).mWants == m ==> WaitsForMutex(Th(s, t))
  {
    assert Seated(s, k, t, m, p) ==> Th(s, t).mWants == m && PrioOf(s, t) == p;
  }

  lemma PromptGrant(s: Sys, m: Mid, k: Stacks, x: Tid)
    requires WaitersOk(s) && m in s.mutexes && NO_MUTEX !in s.mutexes && Prompt(k) && !ComesBack(s, m, x)
    requires forall t :: t in s.threads && t != IDLE && t != x ==> Placed(s, k, true, t)
    ensures TimelyGrant(s, m)
  {
    if HasNextOwner(Unlock(s, m), m) {
      var qs, t := s.mutexes[m].waiting, NextOwner(Unlock(s, m), m);
      assert t in qs[Top(qs)];
      assert WaiterOk(s, Top(qs), t);
      CntMember(qs[Top(qs)], t);
      PromptSeats(s, k, t, m, Top(qs));
    }
  }

  lemma {:induction false} PromptGrants(s: Sys, t: Tid, held: seq<Mid>, k: Stacks)
    requires Core(s, t, held) && MutexQueued(s, k, t) && Prompt(k)
    requires forall v :: v in s.threads && v != IDLE && v != t ==> Placed(s, k, true, v)
    ensures TimelyGrants(s, t, held)
    decreases HandOvers(s, t, held)
  {
    if held != [] {
      HandOverProgress(s, t, held);
      HeadOwned(s, t, held);
      OwnerNotNext(s, held[0], k, t);
      PromptGrant(s, held[0], k, t);
      HandOverOne(s, t, held, k);
      PromptGrants(Regrant(s, held[0]), t, held[1..], k);
    }
  }

  lemma PromptIsTimely(w: World, op: Op, leave: bool)
    requires QueueInv(w, leave) && Prompt(StacksOf(w, leave)) && Enabled(w, op)
    ensures Timely(w, op)
  {
    var s, k := w.sys, StacksOf(w, leave);
    match op
    case DoActivate(t) =>
      if t in s.threads && Th(s, t).state == Dead {
        forall m | m in s.mutexes ensures !InQueues(s.mutexes[m].waiting, t) { DeadNotQueued(s, k, m, t); }
      }
    case DoRelease(m) =>
      if Owns(s, m, s.current) {
        DropHeld(s, m);
        DroppedPlaces(s, m, k);
        OwnerNotNext(Dropped(s, m), m, k, s.current);
        PromptGrant(Dropped(s, m), m, k, s.current);
      }
    case DoTerminate(t) =>
      if t in s.threads && Th(s, t).state != Dead {
        MarkDead(s, t, k);
        PromptGrants(Killed(s, t), t, Th(s, t).mHeld, k);
      }
    case _ =>
  }

  lemma DeadNotQueued(s: Sys, k: Stacks, m: Mid, t: Tid)
    requires WaitersOk(s) && m in s.mutexes && NO_MUTEX !in s.mutexes && Prompt(k) && Th(s, t).state == Dead
    requires t in s.threads && t != IDLE ==> Placed(s, k, true, t)
    ensures !InQueues(s.mutexes[m].waiting, t)
  {
    if t in s.threads && t != IDLE {
      PromptSeats(s, k, t, m, 0); PromptSeats(s, k, t, m, 1); PromptSeats(s, k, t, m, 2); PromptSeats(s, k, t, m, 3);
      AbsentErase(s.mutexes[m].waiting, t);
    } else {
      assert forall p: Prio :: t in s.mutexes[m].waiting[p] ==> WaiterOk(s, p, t);
    }
  }

  lemma PromptStays(w: World, op: Op, leave: bool)
    requires Prompt(StacksOf(w, leave)) && Enabled(w, op) && TimeoutOk(op, leave)
    ensures Prompt(StacksOf(Step(w, op, leave), leave))
  {
    hide ThreadCreate, ThreadDelete, Activate, Terminate, Sleep, MutexDelete, Resume, Release, SubmitIO, Reply, Alarm;
  }

  /** Runs with endless and immediate timeouts, and all runs of the variant, are timely. */
  lemma {:induction false} PromptRunsAreTimely(w: World, ops: seq<Op>, leave: bool)
    requires QueueInv(w, leave) && Prompt(StacksOf(w, leave)) && ValidRun(w, ops, leave)
    requires forall i :: 0 <= i < |ops| ==> TimeoutOk(ops[i], leave)
    ensures TimelyRun(w, ops, leave) && Prompt(StacksOf(Run(w, ops, leave), leave))
    decreases |ops|
  {
    hide QueueInv, Prompt, Timely, Step, TimeoutOk, StacksOf;
    if ops != [] {
      PromptIsTimely(w, ops[0], leave);
      StepQueues(w, ops[0], leave);
      assert TimeoutOk(ops[0], leave);
      PromptStays(w, ops[0], leave);
      PromptRunsAreTimely(Step(w, ops[0], leave), ops[1..], leave);
    }
  }

  /** So in them a thread also stands in a mutex's queue exactly if it wants that mutex. */
  lemma PromptRunQueues(ops: seq<Op>, leave: bool, t: Tid, m: Mid, p: Prio)
    requires ValidRun(START, ops, leave) && forall i :: 0 <= i < |ops| ==> TimeoutOk(ops[i], leave)
    ensures var w := Run(START, ops, leave);
            && QueueInv(w, leave)
            && (t in w.sys.threads && t != IDLE && m in w.sys.mutexes ==>
                  Cnt(w.sys.mutexes[m].waiting[p], t) ==
                    if Th(w.sys, t).mWants == m && PrioOf(w.sys, t) == p then 1 else 0)
  {
    StartQueues(leave);
    PromptRunsAreTimely(START, ops, leave);
    RunQueues(START, ops, leave);
    var w := Run(START, ops, leave);
    if t in w.sys.threads && t != IDLE && m in w.sys.mutexes { PromptSeats(w.sys, StacksOf(w, leave), t, m, p); }
  }
}
