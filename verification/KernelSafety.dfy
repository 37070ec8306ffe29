/** What every run keeps, for every timeout: who owns a mutex, who waits for it, which
    priority runs, and that a thread can always be dispatched. */
module KernelSafety {
  import opened Kernel

  // ----- counting occurrences in queues -----

  lemma CntPush(q: seq<nat>, y: nat, x: nat)
    ensures Cnt(q + [y], x) == Cnt(q, x) + (if x == y then 1 else 0)
  {}

  lemma {:induction false} CntRemoveFirst(q: seq<nat>, t: nat, x: nat)
    ensures Cnt(RemoveFirst(q, t), x) == Cnt(q, x) - (if x == t && t in q then 1 else 0)
  {
    if q != [] {
      assert q == [q[0]] + q[1..];
      if q[0] != t {
        CntRemoveFirst(q[1..], t, x);
      }
    }
  }

  lemma CntMember(q: seq<nat>, x: nat)
    ensures x in q <==> Cnt(q, x) >= 1
  {}

  // ----- the invariant -----

  /** The owner field of a free mutex; no thread has this id. */
  const NOBODY: Tid := 0

  ghost predicate MembersOk(s: Sys) {
    && s.current in s.threads && IDLE in s.threads && PrioOf(s, IDLE) == 0
    && (forall p: Prio, t :: t in s.ready[p] ==> t in s.threads && PrioOf(s, t) == p)
    && (forall r: Prio, t :: t in s.waiting[r] ==> t in s.threads && t != IDLE)
    && (forall t :: t in s.threads ==> t < s.nextTid)
    && (forall m :: m in s.mutexes ==> m < s.nextMid)
    && NO_MUTEX !in s.mutexes && s.nextMid > 0 && NOBODY !in s.threads && s.nextTid > 0
  }

  /** Idle was enqueued twice at boot: one copy runs or both are queued. */
  ghost predicate IdleOk(s: Sys) {
    && Cnt(s.ready[0], IDLE) + (if s.current == IDLE then 1 else 0) == 2
    && Th(s, IDLE).state != Dead
  }

  /** What t holds, where the holdings of x are taken to be `rest`: while VMThreadTerminate
      hands over x's mutexes one by one, `rest` are those still to come. */
  ghost function HeldOf(s: Sys, t: Tid, x: Tid, rest: seq<Mid>): seq<Mid> {
    if t == x then rest else Th(s, t).mHeld
  }

  ghost predicate Owns(s: Sys, m: Mid, t: Tid) { m in s.mutexes && s.mutexes[m].locked && s.mutexes[m].owner == t }

  ghost predicate OwnersOk(s: Sys, x: Tid, rest: seq<Mid>) {
    forall t, m :: Cnt(HeldOf(s, t, x, rest), m) == if Owns(s, m, t) then 1 else 0
  }

  ghost predicate WaiterOk(s: Sys, p: Prio, t: Tid) { t in s.threads && t != IDLE && PrioOf(s, t) == p }

  ghost predicate WaitersOk(s: Sys) {
    && (forall m :: m in s.mutexes && !s.mutexes[m].locked ==>
          AllEmpty(s.mutexes[m].waiting) && s.mutexes[m].owner == NOBODY)
    && (forall m, p: Prio, t :: m in s.mutexes && t in s.mutexes[m].waiting[p] ==> WaiterOk(s, p, t))
  }

  ghost predicate Core(s: Sys, x: Tid, rest: seq<Mid>) {
    MembersOk(s) && OwnersOk(s, x, rest) && WaitersOk(s)
  }

  ghost predicate Dominant(s: Sys) { forall p: Prio :: s.ready[p] != [] ==> p <= PrioOf(s, s.current) }

  ghost predicate StacksOk(w: World) {
    && w.cont.Keys <= w.sys.threads.Keys && IDLE !in w.cont
    && w.pending <= w.sys.threads.Keys && IDLE !in w.pending
  }

  ghost predicate Inv(w: World) {
    && Core(w.sys, w.sys.current, Th(w.sys, w.sys.current).mHeld)
    && IdleOk(w.sys) && Dominant(w.sys) && StacksOk(w)
  }

  // ----- steps that do not touch ownership -----

  ghost predicate SameThreads(s: Sys, s': Sys) {
    && s'.threads.Keys == s.threads.Keys
    && s'.nextTid == s.nextTid && s'.nextMid == s.nextMid
    && forall t :: Th(s', t).mHeld == Th(s, t).mHeld && PrioOf(s', t) == PrioOf(s, t)
  }

  ghost predicate SameOwners(s: Sys, s': Sys) { s'.mutexes == s.mutexes && SameThreads(s, s') }

  lemma CoreFrame(s: Sys, s': Sys, x: Tid, rest: seq<Mid>)
    requires Core(s, x, rest) && SameOwners(s, s') && MembersOk(s')
    ensures Core(s', x, rest)
  {
    forall t, m ensures Cnt(HeldOf(s', t, x, rest), m) == if Owns(s', m, t) then 1 else 0 {
      assert HeldOf(s', t, x, rest) == HeldOf(s, t, x, rest);
      assert Owns(s', m, t) == Owns(s, m, t);
    }
    forall m, p: Prio, t | m in s'.mutexes && t in s'.mutexes[m].waiting[p]
      ensures WaiterOk(s', p, t)
    {
      assert WaiterOk(s, p, t);
    }
  }

  lemma AddToReadyKeeps(s: Sys, t: Tid, x: Tid, rest: seq<Mid>)
    requires Core(s, x, rest) && t in s.threads
    ensures Core(AddToReady(s, t), x, rest)
  {
    CoreFrame(s, AddToReady(s, t), x, rest);
  }

  lemma {:induction false} RemoveFirstSubset(q: seq<nat>, t: nat)
    ensures forall u :: u in RemoveFirst(q, t) ==> u in q
  {
    if q != [] && q[0] != t { RemoveFirstSubset(q[1..], t); }
  }

  lemma EraseSubset(qs: Queues, t: Tid)
    ensures forall p: Prio, u :: u in Erase(qs, t)[p] ==> u in qs[p]
  {
    RemoveFirstSubset(qs[0], t); RemoveFirstSubset(qs[1], t);
    RemoveFirstSubset(qs[2], t); RemoveFirstSubset(qs[3], t);
  }

  lemma RemoveFromWaitingKeeps(s: Sys, t: Tid, x: Tid, rest: seq<Mid>)
    requires Core(s, x, rest)
    ensures Core(RemoveFromWaiting(s, t), x, rest)
  {
    EraseSubset(s.waiting, t);
    CoreFrame(s, RemoveFromWaiting(s, t), x, rest);
  }

  lemma ScheduleNextKeeps(s: Sys, x: Tid, rest: seq<Mid>)
    requires Core(s, x, rest) && Cnt(s.ready[0], IDLE) == 2 && Th(s, IDLE).state != Dead
    ensures !AllEmpty(s.ready)
    ensures Core(ScheduleNext(s), x, rest)
    ensures IdleOk(ScheduleNext(s)) && Dominant(ScheduleNext(s))
    ensures SameOwners(s, ScheduleNext(s))
  {
    CntMember(s.ready[0], IDLE);
    var s' := ScheduleNext(s);
    var p := Top(s.ready);
    var t := s.ready[p][0];
    assert t in s.ready[p];
    assert s'.ready[p] == s.ready[p][1..];
    CntPop(s.ready[p], IDLE);
    assert t == IDLE ==> p == 0;
    CoreFrame(s, s', x, rest);
  }

  /** The current thread and the copies of idle stay. */
  ghost predicate Calm(s: Sys, s': Sys) {
    && s'.current == s.current
    && Cnt(s'.ready[0], IDLE) == Cnt(s.ready[0], IDLE)
    && (Th(s', IDLE).state == Dead ==> Th(s, IDLE).state == Dead)
  }

  lemma AddToReadyCalm(s: Sys, t: Tid)
    requires t != IDLE
    ensures Calm(s, AddToReady(s, t))
  {
    CntPush(s.ready[PrioOf(s, t)], t, IDLE);
  }

  lemma YieldKeeps(s: Sys, x: Tid, rest: seq<Mid>)
    requires Core(s, x, rest) && IdleOk(s)
    ensures Core(Yield(s), x, rest)
    ensures IdleOk(Yield(s)) && Dominant(Yield(s))
    ensures SameOwners(s, Yield(s))
    ensures !AllEmpty(AddToReady(s, s.current).ready)
  {
    var s1 := AddToReady(s, s.current);
    AddToReadyKeeps(s, s.current, x, rest);
    CntPush(s.ready[PrioOf(s, s.current)], s.current, IDLE);
    ScheduleNextKeeps(s1, x, rest);
  }

  // ----- leaving a mutex queue -----

  lemma CntErase(qs: Queues, t: Tid, p: Prio, u: Tid)
    ensures u != t ==> Cnt(Erase(qs, t)[p], u) == Cnt(qs[p], u)
    ensures Cnt(Erase(qs, t)[p], u) <= Cnt(qs[p], u)
  {
    CntRemoveFirst(qs[0], t, u); CntRemoveFirst(qs[1], t, u);
    CntRemoveFirst(qs[2], t, u); CntRemoveFirst(qs[3], t, u);
  }

  lemma StopWaitingKeeps(s: Sys, m: Mid, t: Tid, x: Tid, rest: seq<Mid>)
    requires Core(s, x, rest)
    ensures Core(StopWaiting(s, m, t), x, rest)
    ensures Calm(s, StopWaiting(s, m, t)) && SameThreads(s, StopWaiting(s, m, t))
  {
    var s' := StopWaiting(s, m, t);
    if m in s.mutexes && InQueues(s.mutexes[m].waiting, t) {
      var qs := s.mutexes[m].waiting;
      EraseSubset(qs, t);
      assert WaiterOk(s, if t in qs[0] then 0 else if t in qs[1] then 1 else if t in qs[2] then 2 else 3, t);
      forall k, n ensures Cnt(HeldOf(s', k, x, rest), n) == if Owns(s', n, k) then 1 else 0 {
        assert HeldOf(s', k, x, rest) == HeldOf(s, k, x, rest);
        assert Owns(s', n, k) == Owns(s, n, k);
      }
      forall n, p: Prio, u | n in s'.mutexes && u in s'.mutexes[n].waiting[p]
        ensures WaiterOk(s', p, u)
      {
        assert WaiterOk(s, p, u);
      }
    }
  }

  // ----- handing a mutex over -----

  /** Unlocked but not yet handed over: m's waiters are all still there. */
  ghost predicate Offered(s: Sys, m: Mid, x: Tid, rest: seq<Mid>) {
    && MembersOk(s) && OwnersOk(s, x, rest)
    && m in s.mutexes && !s.mutexes[m].locked
    && s.mutexes[m].owner == NOBODY
    && (forall n :: n in s.mutexes && n != m && !s.mutexes[n].locked ==>
          AllEmpty(s.mutexes[n].waiting) && s.mutexes[n].owner == NOBODY)
    && (forall n, p: Prio, t :: n in s.mutexes && t in s.mutexes[n].waiting[p] ==> WaiterOk(s, p, t))
  }

  /** What x holds when t is given m. */
  ghost function WithGrant(rest: seq<Mid>, m: Mid, back: bool): seq<Mid> { rest + if back then [m] else [] }

  lemma GrantOwners(s: Sys, m: Mid, x: Tid, rest: seq<Mid>, k: Tid, n: Mid)
    requires Offered(s, m, x, rest) && HasNextOwner(s, m)
    ensures Cnt(HeldOf(GetNextOwner(s, m), k, x, WithGrant(rest, m, NextOwner(s, m) == x)), n)
         == if Owns(GetNextOwner(s, m), n, k) then 1 else 0
  {
    var t := NextOwner(s, m);
    assert Cnt(HeldOf(s, k, x, rest), n) == if Owns(s, n, k) then 1 else 0;
    assert !Owns(s, m, k);
    CntPush(Th(s, t).mHeld, m, n);
    CntPush(rest, m, n);
    assert rest + [] == rest;
  }

  lemma GetNextOwnerKeeps(s: Sys, m: Mid, x: Tid, rest: seq<Mid>)
    requires Offered(s, m, x, rest) && HasNextOwner(s, m)
    ensures Core(GetNextOwner(s, m), x, WithGrant(rest, m, NextOwner(s, m) == x))
    ensures NextOwner(s, m) in s.threads && NextOwner(s, m) != IDLE
    ensures PrioOf(s, NextOwner(s, m)) == Top(Mx(s, m).waiting)
    ensures forall t :: PrioOf(GetNextOwner(s, m), t) == PrioOf(s, t)
  {
    var s' := GetNextOwner(s, m);
    var qs := Mx(s, m).waiting;
    assert NextOwner(s, m) in s.mutexes[m].waiting[Top(qs)];
    assert WaiterOk(s, Top(qs), NextOwner(s, m));
    forall k, n
      ensures Cnt(HeldOf(s', k, x, WithGrant(rest, m, NextOwner(s, m) == x)), n) == if Owns(s', n, k) then 1 else 0 {
      GrantOwners(s, m, x, rest, k, n);
    }
    forall n, p: Prio, u | n in s'.mutexes && u in s'.mutexes[n].waiting[p]
      ensures WaiterOk(s', p, u)
    {
      assert u in s.mutexes[n].waiting[p];
      assert WaiterOk(s, p, u);
    }
  }

  lemma UnlockOffers(s: Sys, m: Mid, x: Tid, rest: seq<Mid>, rest': seq<Mid>)
    requires Core(s, x, rest) && Owns(s, m, x)
    requires forall n :: Cnt(rest', n) == Cnt(rest, n) - (if n == m then 1 else 0)
    ensures Offered(Unlock(s, m), m, x, rest')
  {
    var s1 := Unlock(s, m);
    forall k, n ensures Cnt(HeldOf(s1, k, x, rest'), n) == if Owns(s1, n, k) then 1 else 0 {
      assert Cnt(HeldOf(s, k, x, rest), n) == if Owns(s, n, k) then 1 else 0;
    }
    forall n, p: Prio, u | n in s1.mutexes && u in s1.mutexes[n].waiting[p]
      ensures WaiterOk(s1, p, u)
    {
      assert WaiterOk(s, p, u);
    }
  }

  /** The new owner stops waiting and becomes ready. */
  lemma WakeOwnerKeeps(s: Sys, t: Tid, x: Tid, rest: seq<Mid>)
    requires Core(s, x, rest) && t in s.threads && t != IDLE
    ensures var s' := AddToReady(RemoveFromWaiting(s, t), t);
            && Core(s', x, rest) && Calm(s, s') && SameOwners(s, s')
            && forall u :: u != t ==> Th(s', u) == Th(s, u)
  {
    RemoveFromWaitingKeeps(s, t, x, rest);
    AddToReadyKeeps(RemoveFromWaiting(s, t), t, x, rest);
    AddToReadyCalm(RemoveFromWaiting(s, t), t);
  }

  /** x gives m away. When x is itself the next in m's queue, m comes back to it. */
  lemma RegrantKeeps(s: Sys, m: Mid, x: Tid, rest: seq<Mid>, rest': seq<Mid>)
    requires Core(s, x, rest) && Owns(s, m, x)
    requires forall n :: Cnt(rest', n) == Cnt(rest, n) - (if n == m then 1 else 0)
    ensures Core(Regrant(s, m), x, WithGrant(rest', m, ComesBack(s, m, x)))
    ensures Calm(s, Regrant(s, m)) && Regrant(s, m).threads.Keys == s.threads.Keys
    ensures Th(Regrant(s, m), x).mHeld == WithGrant(Th(s, x).mHeld, m, ComesBack(s, m, x))
    ensures !ComesBack(s, m, x) ==> Th(Regrant(s, m), x) == Th(s, x)
    ensures forall t :: PrioOf(Regrant(s, m), t) == PrioOf(s, t)
  {
    var s1 := Unlock(s, m);
    UnlockOffers(s, m, x, rest, rest');
    if HasNextOwner(s1, m) {
      GetNextOwnerKeeps(s1, m, x, rest');
      WakeOwnerKeeps(GetNextOwner(s1, m), NextOwner(s1, m), x, WithGrant(rest', m, ComesBack(s, m, x)));
    } else {
      assert rest' + [] == rest' && Th(s, x).mHeld + [] == Th(s, x).mHeld;
    }
  }

  // ----- the alarm -----

  ghost predicate Sleepers(s: Sys, q: seq<Tid>) { forall t :: t in q ==> t in s.threads && t != IDLE }

  lemma DecrementTicksKeeps(s: Sys, t: Tid, x: Tid, rest: seq<Mid>)
    requires Core(s, x, rest) && t in s.threads
    ensures Core(DecrementTicks(s, t), x, rest)
    ensures Calm(s, DecrementTicks(s, t)) && SameOwners(s, DecrementTicks(s, t))
  {
    CoreFrame(s, DecrementTicks(s, t), x, rest);
  }

  lemma WakeSleeperKeeps(s: Sys, t: Tid, x: Tid, rest: seq<Mid>)
    requires Core(s, x, rest) && t in s.threads && t != IDLE
    ensures Core(WakeSleeper(s, t), x, rest)
    ensures Calm(s, WakeSleeper(s, t)) && SameOwners(s, WakeSleeper(s, t))
  {
    var s1 := SetTh(s, t, Th(s, t).(waitingFor := WAITING_NOTHING, infinite := false));
    CoreFrame(s, s1, x, rest);
    AddToReadyKeeps(s1, t, x, rest);
    AddToReadyCalm(s1, t);
  }

  lemma {:induction false} SweepSleepKeeps(s: Sys, kept: seq<Tid>, left: seq<Tid>, x: Tid, rest: seq<Mid>)
    requires Core(s, x, rest) && Sleepers(s, kept) && Sleepers(s, left)
    ensures Core(SweepSleep(s, kept, left), x, rest)
    ensures Calm(s, SweepSleep(s, kept, left)) && SameOwners(s, SweepSleep(s, kept, left))
    decreases |left|
  {
    if left == [] {
      CoreFrame(s, SweepSleep(s, kept, left), x, rest);
    } else {
      var t := left[0];
      var s1 := DecrementTicks(s, t);
      assert t in left;
      DecrementTicksKeeps(s, t, x, rest);
      if Th(s1, t).ticks == 0 {
        WakeSleeperKeeps(s1, t, x, rest);
        SweepSleepKeeps(WakeSleeper(s1, t), kept, left[1..], x, rest);
      } else {
        SweepSleepKeeps(s1, kept + [t], left[1..], x, rest);
      }
    }
  }

  lemma ExpireWaiterKeeps(s: Sys, t: Tid, leave: bool, x: Tid, rest: seq<Mid>)
    requires Core(s, x, rest) && t in s.threads && t != IDLE
    ensures Core(ExpireWaiter(s, t, leave), x, rest)
    ensures Calm(s, ExpireWaiter(s, t, leave)) && SameThreads(s, ExpireWaiter(s, t, leave))
  {
    var s0 := if leave then StopWaiting(s, Th(s, t).mWants, t) else s;
    if leave { StopWaitingKeeps(s, Th(s, t).mWants, t, x, rest); }
    assert Core(s0, x, rest) && Calm(s, s0) && SameThreads(s, s0);
    ClearWaitKeeps(s0, t, x, rest);
  }

  lemma ClearWaitKeeps(s: Sys, t: Tid, x: Tid, rest: seq<Mid>)
    requires Core(s, x, rest) && t in s.threads && t != IDLE
    ensures Core(ExpireWaiter(s, t, false), x, rest)
    ensures Calm(s, ExpireWaiter(s, t, false)) && SameThreads(s, ExpireWaiter(s, t, false))
  {
    var c := Th(s, t).(waitingFor := WAITING_NOTHING, ticks := 0, infinite := false, mWants := NO_MUTEX);
    var s1 := SetTh(s, t, c);
    CoreFrame(s, s1, x, rest);
    AddToReadyKeeps(s1, t, x, rest);
    AddToReadyCalm(s1, t);
  }

  lemma {:induction false} SweepMutexKeeps(s: Sys, kept: seq<Tid>, left: seq<Tid>, leave: bool, x: Tid, rest: seq<Mid>)
    requires Core(s, x, rest) && Sleepers(s, kept) && Sleepers(s, left)
    ensures Core(SweepMutex(s, kept, left, leave), x, rest)
    ensures Calm(s, SweepMutex(s, kept, left, leave)) && SameThreads(s, SweepMutex(s, kept, left, leave))
    decreases |left|
  {
    if left == [] {
      CoreFrame(s, SweepMutex(s, kept, left, leave), x, rest);
    } else {
      var t := left[0];
      var s1 := DecrementTicks(s, t);
      assert t in left;
      DecrementTicksKeeps(s, t, x, rest);
      if HasMutex(Th(s1, t)) || Th(s1, t).ticks == 0 {
        ExpireWaiterKeeps(s1, t, leave, x, rest);
        SweepMutexKeeps(ExpireWaiter(s1, t, leave), kept, left[1..], leave, x, rest);
      } else {
        SweepMutexKeeps(s1, kept + [t], left[1..], leave, x, rest);
      }
    }
  }

  lemma ProcessAllWaitingKeeps(s: Sys, leave: bool, x: Tid, rest: seq<Mid>)
    requires Core(s, x, rest)
    ensures Core(ProcessAllWaiting(s, leave), x, rest)
    ensures Calm(s, ProcessAllWaiting(s, leave)) && SameThreads(s, ProcessAllWaiting(s, leave))
  {
    SweepSleepKeeps(s, [], s.waiting[WAITING_SLEEP], x, rest);
    var s1 := SweepSleep(s, [], s.waiting[WAITING_SLEEP]);
    SweepMutexKeeps(s1, [], s1.waiting[WAITING_MUTEX], leave, x, rest);
  }

  lemma AlarmKeeps(w: World, leave: bool)
    requires Inv(w) && Enabled(w, DoAlarm)
    ensures Inv(Step(w, DoAlarm, leave))
  {
    var s := w.sys;
    var rest := Th(s, s.current).mHeld;
    ProcessAllWaitingKeeps(s, leave, s.current, rest);
    var s2 := ProcessAllWaiting(s, leave);
    YieldKeeps(s2, s.current, rest);
    Refocus(Yield(s2), s.current, rest);
  }

  /** Whose holdings are named does not matter while every thread's are real. */
  lemma Refocus(s: Sys, x: Tid, rest: seq<Mid>)
    requires Core(s, x, rest) && Th(s, x).mHeld == rest
    ensures forall y :: Core(s, y, Th(s, y).mHeld)
  {
    forall y ensures OwnersOk(s, y, Th(s, y).mHeld) {
      forall t, m ensures Cnt(HeldOf(s, t, y, Th(s, y).mHeld), m) == if Owns(s, m, t) then 1 else 0 {
        assert HeldOf(s, t, y, Th(s, y).mHeld) == HeldOf(s, t, x, rest);
      }
    }
  }

  lemma KilledKeeps(s: Sys, t: Tid)
    requires Core(s, s.current, Th(s, s.current).mHeld) && t in s.threads
    ensures Core(Killed(s, t), t, Th(s, t).mHeld)
  {
    Refocus(s, s.current, Th(s, s.current).mHeld);
    CoreFrame(s, Killed(s, t), t, Th(s, t).mHeld);
  }

  // ----- the other entry points -----

  lemma BlockKeeps(s: Sys, reason: Prio, x: Tid, rest: seq<Mid>)
    requires Core(s, x, rest) && IdleOk(s) && s.current != IDLE
    ensures Core(Block(s, s.current, reason), x, rest)
    ensures Calm(s, Block(s, s.current, reason)) && SameOwners(s, Block(s, s.current, reason))
  {
    CoreFrame(s, Block(s, s.current, reason), x, rest);
  }

  lemma BlockAndScheduleKeeps(s: Sys, reason: Prio)
    requires Core(s, s.current, Th(s, s.current).mHeld)
    requires IdleOk(s) && s.current != IDLE
    ensures var s' := ScheduleNext(Block(s, s.current, reason));
            Core(s', s'.current, Th(s', s'.current).mHeld) && IdleOk(s') && Dominant(s')
            && SameOwners(s, s')
    ensures !AllEmpty(Block(s, s.current, reason).ready)
  {
    var rest := Th(s, s.current).mHeld;
    BlockKeeps(s, reason, s.current, rest);
    ScheduleNextKeeps(Block(s, s.current, reason), s.current, rest);
    Refocus(ScheduleNext(Block(s, s.current, reason)), s.current, rest);
  }

  lemma SleepKeeps(w: World, n: Tick, leave: bool)
    requires Inv(w) && Enabled(w, DoSleep(n))
    ensures Inv(Step(w, DoSleep(n), leave))
  {
    var s := w.sys;
    var rest := Th(s, s.current).mHeld;
    if n == TIMEOUT_IMMEDIATE {
      YieldKeeps(s, s.current, rest);
      Refocus(Yield(s), s.current, rest);
    } else if n != TIMEOUT_INFINITE {
      var s1 := SetTh(s, s.current, Th(s, s.current).(ticks := n));
      CoreFrame(s, s1, s.current, rest);
      BlockAndScheduleKeeps(s1, WAITING_SLEEP);
    }
  }

  lemma SubmitIOKeeps(w: World, leave: bool)
    requires Inv(w) && Enabled(w, DoSubmitIO)
    ensures Inv(Step(w, DoSubmitIO, leave))
  {
    BlockAndScheduleKeeps(w.sys, WAITING_IO);
  }

  lemma ReplyKeeps(w: World, t: Tid, leave: bool)
    requires Inv(w) && Enabled(w, DoReply(t))
    ensures Inv(Step(w, DoReply(t), leave))
  {
    var s := w.sys;
    if Th(s, t).state != Dead {
      var rest := Th(s, s.current).mHeld;
      var s1 := RemoveFromWaiting(s, t);
      RemoveFromWaitingKeeps(s, t, s.current, rest);
      AddToReadyKeeps(s1, t, s.current, rest);
      AddToReadyCalm(s1, t);
      ReadyThenMaybeYield(AddToReady(s1, t), PrioOf(s, t));
    }
  }

  /** Everything but the newly ready threads is dominated, and those have priority up to p. */
  ghost predicate DominantBut(s: Sys, p: Prio) {
    forall q: Prio :: s.ready[q] != [] ==> q <= PrioOf(s, s.current) || q <= p
  }

  lemma ReadyThenMaybeYield(s: Sys, p: Prio)
    requires Core(s, s.current, Th(s, s.current).mHeld) && IdleOk(s) && DominantBut(s, p)
    ensures var s' := if p > PrioOf(s, s.current) then Yield(s) else s;
            Core(s', s'.current, Th(s', s'.current).mHeld) && IdleOk(s') && Dominant(s')
            && s'.threads.Keys == s.threads.Keys
  {
    if p > PrioOf(s, s.current) {
      YieldKeeps(s, s.current, Th(s, s.current).mHeld);
      Refocus(Yield(s), s.current, Th(s, s.current).mHeld);
    }
  }

  lemma ActivateKeeps(w: World, t: Tid, leave: bool)
    requires Inv(w) && Enabled(w, DoActivate(t))
    ensures Inv(Step(w, DoActivate(t), leave))
  {
    var s := w.sys;
    if t in s.threads && Th(s, t).state == Dead {
      var rest := Th(s, s.current).mHeld;
      assert t != IDLE;
      AddToReadyKeeps(s, t, s.current, rest);
      AddToReadyCalm(s, t);
      var s1 := AddToReady(s, t);
      ReadyThenMaybeYield(s1, PrioOf(s, t));
    }
  }

  lemma ResumeKeeps(w: World, leave: bool)
    requires Inv(w) && Enabled(w, DoResume)
    ensures Inv(Step(w, DoResume, leave))
  {
    var s := w.sys;
    StopWaitingKeeps(s, w.cont[s.current].mid, s.current, s.current, Th(s, s.current).mHeld);
  }

  lemma CreateKeeps(w: World, prio: Prio, leave: bool)
    requires Inv(w) && Enabled(w, DoCreate(prio))
    ensures Inv(Step(w, DoCreate(prio), leave))
  {
    var s := w.sys;
    var s1 := ThreadCreate(s, prio);
    var rest := Th(s, s.current).mHeld;
    assert forall t :: Th(s1, t).mHeld == Th(s, t).mHeld && (t != s.nextTid ==> Th(s1, t) == Th(s, t));
    forall t, m ensures Cnt(HeldOf(s1, t, s.current, rest), m) == if Owns(s1, m, t) then 1 else 0 {
      assert HeldOf(s1, t, s.current, rest) == HeldOf(s, t, s.current, rest);
      assert Owns(s1, m, t) == Owns(s, m, t);
    }
    forall m, p: Prio, t | m in s1.mutexes && t in s1.mutexes[m].waiting[p]
      ensures WaiterOk(s1, p, t)
    {
      assert WaiterOk(s, p, t);
    }
  }

  lemma DeleteKeeps(w: World, t: Tid, leave: bool)
    requires Inv(w) && Enabled(w, DoDelete(t))
    ensures Inv(Step(w, DoDelete(t), leave))
  {
    var s := w.sys;
    if t in s.threads && Th(s, t).state == Dead {
      DropThread(s, t, s.current, Th(s, s.current).mHeld);
    }
  }

  lemma DropThread(s: Sys, t: Tid, x: Tid, rest: seq<Mid>)
    requires Core(s, x, rest) && t in s.threads && t != x && t != s.current && t != IDLE
    requires !InQueues(s.ready, t) && !InQueues(s.waiting, t) && !InMutexQueue(s, t)
    requires forall m :: !Owns(s, m, t)
    ensures Core(s.(threads := s.threads - {t}), x, rest)
  {
    var s1 := s.(threads := s.threads - {t});
    assert forall u :: u != t ==> Th(s1, u) == Th(s, u);
    forall u, m ensures Cnt(HeldOf(s1, u, x, rest), m) == if Owns(s1, m, u) then 1 else 0 {
      assert Owns(s1, m, u) == Owns(s, m, u);
      if u != t { assert HeldOf(s1, u, x, rest) == HeldOf(s, u, x, rest); }
    }
    forall m, p: Prio, u | m in s1.mutexes && u in s1.mutexes[m].waiting[p]
      ensures WaiterOk(s1, p, u)
    {
      assert WaiterOk(s, p, u);
      assert InQueues(s.mutexes[m].waiting, u);
    }
    assert forall p: Prio, u :: u in s.ready[p] ==> InQueues(s.ready, u);
    assert forall p: Prio, u :: u in s.waiting[p] ==> InQueues(s.waiting, u);
  }

  lemma MutexCreateKeeps(w: World, leave: bool)
    requires Inv(w) && Enabled(w, DoMutexCreate)
    ensures Inv(Step(w, DoMutexCreate, leave))
  {
    var s := w.sys;
    var s1 := MutexCreate(s);
    var rest := Th(s, s.current).mHeld;
    assert forall t :: Th(s1, t) == Th(s, t);
    forall t, m ensures Cnt(HeldOf(s1, t, s.current, rest), m) == if Owns(s1, m, t) then 1 else 0 {
      assert HeldOf(s1, t, s.current, rest) == HeldOf(s, t, s.current, rest);
      assert Owns(s1, m, t) == Owns(s, m, t);
    }
    forall m, p: Prio, t | m in s1.mutexes && t in s1.mutexes[m].waiting[p]
      ensures WaiterOk(s1, p, t)
    {
      assert m != s.nextMid;
      assert WaiterOk(s, p, t);
    }
  }

  lemma MutexDeleteKeeps(w: World, m: Mid, leave: bool)
    requires Inv(w) && Enabled(w, DoMutexDelete(m))
    ensures Inv(Step(w, DoMutexDelete(m), leave))
  {
    var s := w.sys;
    if m in s.mutexes && !Mx(s, m).locked {
      var s1 := MutexDelete(s, m).0;
      var rest := Th(s, s.current).mHeld;
      assert forall t :: Th(s1, t) == Th(s, t);
      forall t, n ensures Cnt(HeldOf(s1, t, s.current, rest), n) == if Owns(s1, n, t) then 1 else 0 {
        assert HeldOf(s1, t, s.current, rest) == HeldOf(s, t, s.current, rest);
        assert Owns(s1, n, t) == Owns(s, n, t);
      }
      forall n, p: Prio, t | n in s1.mutexes && t in s1.mutexes[n].waiting[p]
        ensures WaiterOk(s1, p, t)
      {
        assert WaiterOk(s, p, t);
      }
    }
  }

  // ----- acquire, release, terminate -----

  /** The current thread takes a free mutex. */
  lemma TakeKeeps(w: World, m: Mid, timeout: Tick)
    requires Inv(w) && m in w.sys.mutexes && !w.sys.mutexes[m].locked
    ensures Inv(w.(sys := Acquire(w.sys, m, timeout).0))
  {
    var s := w.sys;
    var c := s.current;
    var s1 := Acquire(s, m, timeout).0;
    var held := Th(s, c).mHeld;
    forall t, n ensures Cnt(HeldOf(s1, t, c, held + [m]), n) == if Owns(s1, n, t) then 1 else 0 {
      assert Cnt(HeldOf(s, t, c, held), n) == if Owns(s, n, t) then 1 else 0;
      CntPush(held, m, n);
    }
    forall n, p: Prio, t | n in s1.mutexes && t in s1.mutexes[n].waiting[p]
      ensures WaiterOk(s1, p, t)
    {
      assert WaiterOk(s, p, t);
    }
  }

  /** The current thread joins the queue of a mutex. */
  lemma WantsMutexKeeps(s: Sys, m: Mid, x: Tid, rest: seq<Mid>)
    requires Core(s, x, rest) && s.current != IDLE && m in s.mutexes && s.mutexes[m].locked
    ensures Core(WantsMutex(s, m, s.current), x, rest)
    ensures Calm(s, WantsMutex(s, m, s.current)) && SameThreads(s, WantsMutex(s, m, s.current))
  {
    var t := s.current;
    var s1 := WantsMutex(s, m, t);
    forall k, n ensures Cnt(HeldOf(s1, k, x, rest), n) == if Owns(s1, n, k) then 1 else 0 {
      assert HeldOf(s1, k, x, rest) == HeldOf(s, k, x, rest);
      assert Owns(s1, n, k) == Owns(s, n, k);
    }
    forall n, p: Prio, u | n in s1.mutexes && u in s1.mutexes[n].waiting[p]
      ensures WaiterOk(s1, p, u)
    {
      assert u in s.mutexes[n].waiting[p] ==> WaiterOk(s, p, u);
    }
  }

  /** The current thread sets its clock, joins m's queue and gives up the processor. */
  lemma SuspendKeeps(s: Sys, m: Mid, timeout: Tick)
    requires Core(s, s.current, Th(s, s.current).mHeld) && IdleOk(s) && s.current != IDLE
    requires m in s.mutexes && s.mutexes[m].locked && timeout != TIMEOUT_IMMEDIATE
    ensures var s' := Acquire(s, m, timeout).0;
            && Core(s', s'.current, Th(s', s'.current).mHeld) && IdleOk(s') && Dominant(s')
            && s'.threads.Keys == s.threads.Keys && Acquire(s, m, timeout).1.Suspended?
  {
    var c := Th(s, s.current);
    var s1 := if timeout == TIMEOUT_INFINITE
              then SetTh(s, s.current, c.(infinite := true, ticks := 0xFFFF_FFFF))
              else SetTh(s, s.current, c.(ticks := timeout));
    CoreFrame(s, s1, s.current, c.mHeld);
    WantsMutexKeeps(s1, m, s.current, c.mHeld);
    BlockAndScheduleKeeps(WantsMutex(s1, m, s.current), WAITING_MUTEX);
  }

  lemma AcquireKeeps(w: World, m: Mid, timeout: Tick, leave: bool)
    requires Inv(w) && Enabled(w, DoAcquire(m, timeout))
    ensures Inv(Step(w, DoAcquire(m, timeout), leave))
  {
    if m in w.sys.mutexes && !w.sys.mutexes[m].locked {
      TakeKeeps(w, m, timeout);
    } else if m in w.sys.mutexes && timeout != TIMEOUT_IMMEDIATE {
      SuspendKeeps(w.sys, m, timeout);
    }
  }

  /** The threads Regrant makes ready are as high as Preempts says. */
  lemma RegrantDominance(s: Sys, m: Mid, prio: Prio, top: Prio)
    requires DominantBut(s, top) && MembersOk(s) && prio == PrioOf(s, s.current) && WaitersOk(s) && m in s.mutexes
    ensures var p := if HasNextOwner(Unlock(s, m), m) then PrioOf(s, NextOwner(Unlock(s, m), m)) else 0;
            DominantBut(Regrant(s, m), if p > top then p else top) && Preempts(s, m, prio) == (p > prio)
  {
  }

  lemma ReleaseKeeps(w: World, m: Mid, leave: bool)
    requires Inv(w) && Enabled(w, DoRelease(m))
    ensures Inv(Step(w, DoRelease(m), leave))
  {
    hide Regrant, Cnt, RemoveFirst;
    var s := w.sys;
    if m in s.mutexes && Owns(s, m, s.current) {
      var x := s.current;
      var c := Th(s, x);
      var held := RemoveFirst(c.mHeld, m);
      var s1 := Dropped(s, m);
      DropHeld(s, m);
      RegrantKeeps(s1, m, x, c.mHeld, held);
      var s2 := Regrant(s1, m);
      Refocus(s2, x, Th(s2, x).mHeld);
      RegrantDominance(s1, m, PrioOf(s, x), 0);
      var p := if HasNextOwner(Unlock(s1, m), m) then PrioOf(s1, NextOwner(Unlock(s1, m), m)) else 0;
      ReadyThenMaybeYield(s2, p);
    }
  }

  lemma DropHeld(s: Sys, m: Mid)
    requires Core(s, s.current, Th(s, s.current).mHeld) && Owns(s, m, s.current)
    ensures var c := Th(s, s.current);
            && Core(Dropped(s, m), s.current, c.mHeld)
            && forall n :: Cnt(RemoveFirst(c.mHeld, m), n) == Cnt(c.mHeld, n) - (if n == m then 1 else 0)
  {
    var x := s.current;
    var c := Th(s, x);
    var s1 := Dropped(s, m);
    forall t, n ensures Cnt(HeldOf(s1, t, x, c.mHeld), n) == if Owns(s1, n, t) then 1 else 0 {
      assert HeldOf(s1, t, x, c.mHeld) == HeldOf(s, t, x, c.mHeld);
      assert Owns(s1, n, t) == Owns(s, n, t);
    }
    forall n, p: Prio, t | n in s1.mutexes && t in s1.mutexes[n].waiting[p]
      ensures WaiterOk(s1, p, t)
    {
      assert WaiterOk(s, p, t);
    }
    assert Cnt(HeldOf(s, x, x, c.mHeld), m) == 1;
    CntMember(c.mHeld, m);
    forall n ensures Cnt(RemoveFirst(c.mHeld, m), n) == Cnt(c.mHeld, n) - (if n == m then 1 else 0) {
      CntRemoveFirst(c.mHeld, m, n);
    }
  }

  /** The first of the mutexes t holds is one it owns, and can be handed over. */
  lemma HeadOwned(s: Sys, t: Tid, held: seq<Mid>)
    requires Core(s, t, held) && held != []
    ensures Owns(s, held[0], t)
    ensures Core(Regrant(s, held[0]), t, StillHeld(s, t, held))
  {
    var m := held[0];
    assert Cnt(HeldOf(s, t, t, held), m) == if Owns(s, m, t) then 1 else 0;
    CntMember(held, m);
    CntPopAll(held);
    RegrantKeeps(s, m, t, held, held[1..]);
  }

  lemma {:induction false} ReleaseAllKeeps(s: Sys, t: Tid, held: seq<Mid>, prio: Prio)
    requires Core(s, t, held) && prio == PrioOf(s, s.current)
    ensures var r := ReleaseAll(s, t, held, prio);
            && Core(r.0, t, []) && Calm(s, r.0)
            && (forall u :: PrioOf(r.0, u) == PrioOf(s, u)) && r.0.threads.Keys == s.threads.Keys
            && (Dominant(s) && !r.1 ==> Dominant(r.0))
    decreases HandOvers(s, t, held)
  {
    if held != [] {
      HeadOwned(s, t, held);
      CntPopAll(held);
      RegrantKeeps(s, held[0], t, held, held[1..]);
      if Dominant(s) { RegrantDominance(s, held[0], prio, 0); }
      HandOverProgress(s, t, held);
      ReleaseAllKeeps(Regrant(s, held[0]), t, StillHeld(s, t, held), prio);
    }
  }

  lemma CntPopAll(q: seq<nat>)
    requires q != []
    ensures forall x :: Cnt(q[1..], x) == Cnt(q, x) - (if x == q[0] then 1 else 0)
  {
    forall x ensures Cnt(q[1..], x) == Cnt(q, x) - (if x == q[0] then 1 else 0) { CntPop(q, x); }
  }

  lemma UnreadyKeeps(s: Sys, t: Tid, x: Tid, rest: seq<Mid>)
    requires Core(s, x, rest) && t != IDLE
    ensures Core(RemoveFromReady(s, t), x, rest)
    ensures Calm(s, RemoveFromReady(s, t)) && SameThreads(s, RemoveFromReady(s, t))
    ensures Dominant(s) ==> Dominant(RemoveFromReady(s, t))
  {
    EraseSubset(s.ready, t);
    CntErase(s.ready, t, 0, IDLE);
    var s1 := RemoveFromReady(s, t);
    assert MembersOk(s1);
    CoreFrame(s, s1, x, rest);
    if Dominant(s) {
      forall p: Prio | s1.ready[p] != [] ensures p <= PrioOf(s1, s1.current) {
        assert s1.ready[p][0] in s.ready[p];
      }
    }
  }

  lemma UnqueueKeeps(s: Sys, t: Tid, was: ThreadState, x: Tid, rest: seq<Mid>)
    requires Core(s, x, rest) && t != IDLE && t in s.threads
    ensures Core(Unqueue(s, t, was), x, rest)
    ensures Calm(s, Unqueue(s, t, was)) && SameThreads(s, Unqueue(s, t, was))
    ensures Dominant(s) ==> Dominant(Unqueue(s, t, was))
  {
    hide OwnersOk, WaitersOk, Cnt, Erase, RemoveFromReady;
    match was
    case Ready => UnreadyKeeps(s, t, x, rest);
    case Waiting =>
      StopWaitingKeeps(s, Th(s, t).mWants, t, x, rest);
      var s1 := if Th(s, t).waitingFor == WAITING_MUTEX then StopWaiting(s, Th(s, t).mWants, t) else s;
      RemoveFromWaitingKeeps(s1, t, x, rest);
    case _ =>
  }

  lemma TerminateKeeps(w: World, t: Tid, leave: bool)
    requires Inv(w) && Enabled(w, DoTerminate(t))
    ensures Inv(Step(w, DoTerminate(t), leave))
  {
    var s := w.sys;
    if t in s.threads && Th(s, t).state != Dead {
      var was, prio := Th(s, t).state, PrioOf(s, s.current);
      var r := HandOver(s, t);
      var s2 := SetTh(r.0, t, Th(r.0, t).(mHeld := []));
      UnqueueKeeps(s2, t, was, t, []);
      FinishTerminate(Unqueue(s2, t, was), t, was, r.1);
    }
  }

  /** The first half of VMThreadTerminate: t is dead and its mutexes are handed over. */
  lemma HandOver(s: Sys, t: Tid) returns (r: (Sys, bool))
    requires Core(s, s.current, Th(s, s.current).mHeld) && IdleOk(s) && Dominant(s) && t in s.threads && t != IDLE
    ensures r == ReleaseAll(Killed(s, t), t, Th(s, t).mHeld, PrioOf(s, s.current))
    ensures var s2 := SetTh(r.0, t, Th(r.0, t).(mHeld := []));
            && Core(s2, t, []) && IdleOk(s2) && s2.current == s.current
            && t in s2.threads && s.threads.Keys <= s2.threads.Keys
            && (!r.1 ==> Dominant(s2))
  {
    var s1, held := Killed(s, t), Th(s, t).mHeld;
    KilledKeeps(s, t);
    assert IdleOk(s1) && Dominant(s1);
    ReleaseAllKeeps(s1, t, held, PrioOf(s, s.current));
    r := ReleaseAll(s1, t, held, PrioOf(s, s.current));
    EmptyHeld(r.0, t);
  }

  lemma EmptyHeld(s: Sys, t: Tid)
    requires Core(s, t, []) && t in s.threads
    ensures Core(SetTh(s, t, Th(s, t).(mHeld := [])), t, [])
  {
    var s1 := SetTh(s, t, Th(s, t).(mHeld := []));
    forall k, n ensures Cnt(HeldOf(s1, k, t, []), n) == if Owns(s1, n, k) then 1 else 0 {
      assert HeldOf(s1, k, t, []) == HeldOf(s, k, t, []);
      assert Owns(s1, n, k) == Owns(s, n, k);
    }
    forall n, p: Prio, u | n in s1.mutexes && u in s1.mutexes[n].waiting[p]
      ensures WaiterOk(s1, p, u)
    {
      assert WaiterOk(s, p, u);
    }
  }

  lemma FinishTerminate(s: Sys, t: Tid, was: ThreadState, wake: bool)
    requires Core(s, t, []) && Th(s, t).mHeld == [] && IdleOk(s)
    requires !wake ==> Dominant(s)
    requires was == Running ==> s.current != IDLE
    ensures var s' := if was == Running then ScheduleNext(s) else if wake then Yield(s) else s;
            Core(s', s'.current, Th(s', s'.current).mHeld) && IdleOk(s') && Dominant(s')
            && s'.threads.Keys == s.threads.Keys
  {
    if was == Running {
      ScheduleNextKeeps(s, t, []);
      Refocus(ScheduleNext(s), t, []);
    } else if wake {
      YieldKeeps(s, t, []);
      Refocus(Yield(s), t, []);
    } else {
      Refocus(s, t, []);
    }
  }

  // ----- every run -----

  lemma StepKeeps(w: World, op: Op, leave: bool)
    requires Inv(w) && Enabled(w, op)
    ensures Inv(Step(w, op, leave))
  {
    match op
    case DoCreate(prio) => CreateKeeps(w, prio, leave);
    case DoDelete(t) => DeleteKeeps(w, t, leave);
    case DoActivate(t) => ActivateKeeps(w, t, leave);
    case DoTerminate(t) => TerminateKeeps(w, t, leave);
    case DoSleep(n) => SleepKeeps(w, n, leave);
    case DoMutexCreate => MutexCreateKeeps(w, leave);
    case DoMutexDelete(m) => MutexDeleteKeeps(w, m, leave);
    case DoAcquire(m, timeout) => AcquireKeeps(w, m, timeout, leave);
    case DoResume => ResumeKeeps(w, leave);
    case DoRelease(m) => ReleaseKeeps(w, m, leave);
    case DoSubmitIO => SubmitIOKeeps(w, leave);
    case DoReply(t) => ReplyKeeps(w, t, leave);
    case DoAlarm => AlarmKeeps(w, leave);
  }

  lemma {:induction false} RunKeeps(w: World, ops: seq<Op>, leave: bool)
    requires Inv(w) && ValidRun(w, ops, leave)
    ensures Inv(Run(w, ops, leave))
    decreases |ops|
  {
    if ops != [] {
      StepKeeps(w, ops[0], leave);
      RunKeeps(Step(w, ops[0], leave), ops[1..], leave);
    }
  }

  lemma StartInv()
    ensures Inv(START)
  {
    assert BOOT.ready[0] == [IDLE, IDLE];
    assert Cnt([IDLE, IDLE], IDLE) == 2;
  }
}
