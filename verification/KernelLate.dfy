/** Runs in which a late hand-over goes wrong. A waiter whose time is up is made ready and stays in
    the mutex's queue until it runs; a release in between makes it ready a second time. */
module KernelLate {
  import opened Kernel
  import opened KernelQueues
  import opened KernelTimely

  /** Main waits for mutex 1 for one tick while its owner, thread 3, sleeps for one tick. The
      alarm makes both ready, and thread 3 runs first. Main is still in the mutex's queue. */
  const EXPIRY: seq<Op> :=
    [DoMutexCreate, DoCreate(3), DoActivate(3), DoAcquire(1, TIMEOUT_INFINITE), DoSleep(1), DoAcquire(1, 1), DoAlarm]

  /** Then thread 3 hands the mutex to main. */
  const LATE_GRANT: seq<Op> := EXPIRY + [DoRelease(1)]

  lemma PushEmpty(qs: Queues, p: Prio, t: Tid)
    requires qs[p] == []
    ensures Push(qs, p, t) == qs[p := [t]]
  {
    assert qs[p] + [t] == [t];
  }

  const MAIN_TCB := NEW_TCB.(priority := PRIORITY_NORMAL, state := Running)
  const OWNER_TCB := NEW_TCB.(priority := 3, mHeld := [1])

  /** After five steps: thread 3 owns mutex 1 and sleeps, main runs. */
  const OWNER_ASLEEP := Sys(
    map[MAIN := MAIN_TCB, IDLE := NEW_TCB.(state := Ready),
        3 := OWNER_TCB.(state := Waiting, waitingFor := WAITING_SLEEP, ticks := 1)],
    [[IDLE, IDLE], [], [], []], [[], [], [3], []], map[1 := MutexRec(true, 3, NO_QUEUES)], MAIN, 4, 2)

  /** After seven: the alarm has made main and thread 3 ready, and thread 3 runs. */
  const OWNER_AWAKE := Sys(
    map[MAIN := MAIN_TCB.(state := Ready), IDLE := NEW_TCB.(state := Ready), 3 := OWNER_TCB.(state := Running)],
    [[IDLE, IDLE], [], [MAIN], []], NO_QUEUES, map[1 := MutexRec(true, 3, [[], [], [MAIN], []])], 3, 4, 2)

  lemma OwnerFallsAsleep()
    ensures var s3 := Activate(ThreadCreate(MutexCreate(BOOT), 3), 3).0;
            && s3.current == 3
            && Acquire(s3, 1, TIMEOUT_INFINITE).1 == Returned(Success)
            && Sleep(Acquire(s3, 1, TIMEOUT_INFINITE).0, 1).0 == OWNER_ASLEEP
  {
    var q: Queues := [[IDLE, IDLE], [], [], []];
    var s2 := ThreadCreate(MutexCreate(BOOT), 3);
    PushEmpty(q, 3, 3);
    PushEmpty(q[3 := [3]], 2, MAIN);
    var full: Queues := [[IDLE, IDLE], [], [MAIN], [3]];
    assert AddToReady(AddToReady(s2, 3), MAIN).ready == full;
    assert Pop(full) == [[IDLE, IDLE], [], [MAIN], []] by { assert full[3][1..] == []; }
    var s3 := Activate(s2, 3).0;
    assert s3.ready == [[IDLE, IDLE], [], [MAIN], []] && s3.current == 3;
    var s4 := Acquire(s3, 1, TIMEOUT_INFINITE).0;
    assert Th(s4, 3).mHeld == [1];
    PushEmpty(NO_QUEUES, WAITING_SLEEP, 3);
    assert Pop(s3.ready) == q by { assert s3.ready[2][1..] == []; }
    var s5 := Sleep(s4, 1).0;
    assert s5.ready == OWNER_ASLEEP.ready && s5.waiting == OWNER_ASLEEP.waiting && s5.mutexes == OWNER_ASLEEP.mutexes;
    assert s5.threads == OWNER_ASLEEP.threads;
  }

  /** After six: main queues for mutex 1 and idle runs. */
  const MAIN_QUEUED := Sys(
    map[MAIN := MAIN_TCB.(state := Waiting, waitingFor := WAITING_MUTEX, ticks := 1, mWants := 1),
        IDLE := NEW_TCB.(state := Running), 3 := OWNER_ASLEEP.threads[3]],
    [[IDLE], [], [], []], [[], [MAIN], [3], []], map[1 := MutexRec(true, 3, [[], [], [MAIN], []])], IDLE, 4, 2)

  lemma MainQueues()
    ensures Acquire(OWNER_ASLEEP, 1, 1) == (MAIN_QUEUED, Suspended)
  {
    var s := OWNER_ASLEEP;
    PushEmpty(NO_QUEUES, PRIORITY_NORMAL, MAIN);
    assert NO_QUEUES[2 := [MAIN]] == [[], [], [MAIN], []];
    PushEmpty(s.waiting, WAITING_MUTEX, MAIN);
    assert Acquire(s, 1, 1).0.ready == MAIN_QUEUED.ready && Acquire(s, 1, 1).0.waiting == MAIN_QUEUED.waiting;
    assert Acquire(s, 1, 1).0.mutexes == MAIN_QUEUED.mutexes;
    assert Acquire(s, 1, 1).0.threads == MAIN_QUEUED.threads;
  }

  /** The alarm has made both ready; idle still runs. */
  const BOTH_READY := MAIN_QUEUED.(
    threads := MAIN_QUEUED.threads[3 := OWNER_TCB.(state := Ready)][MAIN := MAIN_TCB.(state := Ready)],
    ready := [[IDLE], [], [MAIN], [3]], waiting := NO_QUEUES)

  lemma BothExpire()
    ensures ProcessAllWaiting(MAIN_QUEUED, false) == BOTH_READY
  {
    hide StopWaiting, InQueues;
    var s := MAIN_QUEUED;
    PushEmpty(s.ready, 3, 3);
    PushEmpty(s.ready[3 := [3]], PRIORITY_NORMAL, MAIN);
    var s1 := s.(threads := s.threads[3 := OWNER_TCB.(state := Ready)], ready := [[IDLE], [], [], [3]],
                 waiting := [[], [MAIN], [], []]);
    assert SweepSleep(s, [], [3]) == s1;
    assert SweepMutex(s1, [], [MAIN], false) == BOTH_READY;
  }

  lemma BothWakeAtOnce()
    ensures Alarm(MAIN_QUEUED, false) == OWNER_AWAKE
  {
    hide ProcessAllWaiting;
    BothExpire();
    var s2 := BOTH_READY;
    var full: Queues := [[IDLE, IDLE], [], [MAIN], [3]];
    assert s2.ready[0] + [IDLE] == full[0] && PrioOf(s2, IDLE) == 0;
    assert AddToReady(s2, IDLE).ready == full;
    assert Pop(full) == OWNER_AWAKE.ready by { assert full[3][1..] == []; }
    assert Yield(s2).threads == OWNER_AWAKE.threads && Yield(s2).ready == OWNER_AWAKE.ready;
  }

  /** After eight: thread 3 has released the mutex to main, which was ready already. */
  const GRANTED_TWICE := Sys(
    map[MAIN := MAIN_TCB.(state := Ready, mHeld := [1]), IDLE := NEW_TCB.(state := Ready),
        3 := OWNER_TCB.(state := Running, mHeld := [])],
    [[IDLE, IDLE], [], [MAIN, MAIN], []], NO_QUEUES, map[1 := MutexRec(true, MAIN, NO_QUEUES)], 3, 4, 2)

  lemma GrantsTwice()
    ensures Release(OWNER_AWAKE, 1).0 == GRANTED_TWICE
  {
    var s := OWNER_AWAKE;
    var s1 := SetTh(s, 3, OWNER_TCB.(state := Running, mHeld := []));
    var qs: Queues := [[], [], [MAIN], []];
    assert Mx(s1, 1).waiting == qs && Pop(qs) == NO_QUEUES by { assert qs[2][1..] == []; }
    var none: seq<Mid> := [];
    assert none + [1] == [1];
    var s2 := Regrant(s1, 1);
    assert s2.ready[2] == [MAIN] + [MAIN] == [MAIN, MAIN];
    assert s2.ready == GRANTED_TWICE.ready;
    assert Th(s2, MAIN).mHeld == none + [1];
    assert s2.threads == GRANTED_TWICE.threads;
    assert s2.mutexes == GRANTED_TWICE.mutexes;
    assert !Preempts(s1, 1, 3);
  }

  const INSIDE: map<Tid, Cont> := map[MAIN := Cont(1, false)]
  const EXPIRED := World(OWNER_AWAKE, INSIDE, {})
  const TWICE := World(GRANTED_TWICE, INSIDE, {})

  /** The first seven steps: main's time is up and thread 3 runs, main still being in the mutex's queue. */
  lemma ExpiredRuns()
    ensures ValidRun(START, EXPIRY, false) && Run(START, EXPIRY, false) == EXPIRED
  {
    ExpiredEnds();
    OwnerFallsAsleep();
    var asleep := World(OWNER_ASLEEP, map[], {});
    var s1 := MutexCreate(BOOT);
    var s2 := ThreadCreate(s1, 3);
    var s3 := Activate(s2, 3).0;
    var s4 := Acquire(s3, 1, TIMEOUT_INFINITE).0;
    Prepend(World(s4, map[], {}), DoSleep(1), EXPIRY[5..], asleep);
    Prepend(World(s3, map[], {}), DoAcquire(1, TIMEOUT_INFINITE), EXPIRY[4..], World(s4, map[], {}));
    Prepend(World(s2, map[], {}), DoActivate(3), EXPIRY[3..], World(s3, map[], {}));
    Prepend(World(s1, map[], {}), DoCreate(3), EXPIRY[2..], World(s2, map[], {}));
    Prepend(START, DoMutexCreate, EXPIRY[1..], World(s1, map[], {}));
  }

  lemma ExpiredEnds()
    ensures var w := World(OWNER_ASLEEP, map[], {});
            ValidRun(w, EXPIRY[5..], false) && Run(w, EXPIRY[5..], false) == EXPIRED
  {
    hide Acquire, Alarm;
    MainQueues();
    BothWakeAtOnce();
    var w5, w6 := World(OWNER_ASLEEP, map[], {}), World(MAIN_QUEUED, INSIDE, {});
    Prepend(w6, DoAlarm, [], EXPIRED);
    Prepend(w5, DoAcquire(1, 1), [DoAlarm], w6);
    assert EXPIRY[5..] == [DoAcquire(1, 1), DoAlarm];
  }

  /** The run reaches the state with main twice in its ready queue. */
  lemma LateGrantRuns()
    ensures ValidRun(START, LATE_GRANT, false) && Run(START, LATE_GRANT, false) == TWICE
  {
    hide Release;
    ExpiredRuns();
    GrantsTwice();
    Prepend(EXPIRED, DoRelease(1), [], TWICE);
    RunThen(START, EXPIRY, [DoRelease(1)]);
  }

  /** Main is then in its ready queue twice, so the run is not timely. */
  lemma LateGrantQueuesTwice()
    ensures ValidRun(START, LATE_GRANT, false)
    ensures Run(START, LATE_GRANT, false).sys.ready[PRIORITY_NORMAL] == [MAIN, MAIN]
    ensures !TimelyRun(START, LATE_GRANT, false)
  {
    hide InPlace, QueueInv, TimelyRun;
    LateGrantRuns();
    StartQueues(false);
    NotInPlace();
    if TimelyRun(START, LATE_GRANT, false) {
      RunQueues(START, LATE_GRANT, false);
      PlacedIsInPlace(TWICE, false);
      assert false;
    }
  }

  lemma NotInPlace()
    ensures !InPlace(TWICE)
  {
    assert Cnt([MAIN, MAIN], MAIN) == 2;
    assert Places(GRANTED_TWICE, MAIN) >= 2;
  }

  // ----- a mutex deleted under an acquire -----

  /** Thread 3 terminates main, deletes the mutex and sleeps. Main's second copy is dispatched. */
  const THEN_DELETE: seq<Op> := [DoTerminate(MAIN), DoMutexDelete(1), DoSleep(1)]

  const DEAD_MAIN := MAIN_TCB.(state := Dead)

  /** Main is dead, but one copy of it is ready still. */
  const DEAD_READY := GRANTED_TWICE.(
    threads := GRANTED_TWICE.threads[MAIN := DEAD_MAIN],
    ready := [[IDLE, IDLE], [], [MAIN], []], mutexes := map[1 := NEW_MUTEX])

  lemma KillsOneCopy()
    ensures Terminate(GRANTED_TWICE, MAIN).0 == DEAD_READY
  {
    var s := GRANTED_TWICE;
    var s1 := SetTh(s, MAIN, Th(s, MAIN).(state := Dead));
    var s2 := Unlock(s1, 1);
    assert s2.mutexes == map[1 := NEW_MUTEX];
    assert Regrant(s1, 1) == s2;
    assert StillHeld(s1, MAIN, [1]) == [] by { assert [1][1..] == []; }
    HandOverProgress(s1, MAIN, [1]);
    assert ReleaseAll(s2, MAIN, [], 3) == (s2, false);
    assert ReleaseAll(s1, MAIN, [1], 3) == (s2, false);
    var s3 := SetTh(s2, MAIN, DEAD_MAIN);
    assert Erase(s3.ready, MAIN) == DEAD_READY.ready by {
      assert RemoveFirst([MAIN, MAIN], MAIN) == [MAIN] by { assert [MAIN, MAIN][1..] == [MAIN]; }
    }
    assert Unqueue(s3, MAIN, Ready) == DEAD_READY;
  }

  /** Main runs again, dead and inside an acquire of a mutex that is gone. */
  const DANGLING := Sys(
    map[MAIN := MAIN_TCB, IDLE := NEW_TCB.(state := Ready),
        3 := OWNER_TCB.(state := Waiting, waitingFor := WAITING_SLEEP, ticks := 1, mHeld := [])],
    [[IDLE, IDLE], [], [], []], [[], [], [3], []], map[], MAIN, 4, 2)

  lemma DeadMainRuns()
    ensures MutexDelete(DEAD_READY, 1) == (DEAD_READY.(mutexes := map[]), Success)
    ensures Sleep(DEAD_READY.(mutexes := map[]), 1).0 == DANGLING
  {
    assert DEAD_READY.mutexes - {1} == map[];
    var s := DEAD_READY.(mutexes := map[]);
    PushEmpty(NO_QUEUES, WAITING_SLEEP, 3);
    assert Pop(s.ready) == [[IDLE, IDLE], [], [], []] by { assert s.ready[2][1..] == []; }
    assert Sleep(s, 1).0.waiting == DANGLING.waiting;
    assert Sleep(s, 1).0.threads == DANGLING.threads;
  }

  lemma LateGrantDangles()
    ensures ValidRun(START, LATE_GRANT + THEN_DELETE, false)
    ensures var w := Run(START, LATE_GRANT + THEN_DELETE, false);
            w.sys.current == MAIN && MAIN in w.cont && w.cont[MAIN].mid !in w.sys.mutexes
  {
    hide Terminate, MutexDelete, Sleep;
    LateGrantRuns();
    KillsOneCopy();
    DeadMainRuns();
    var w9, w10 := World(DEAD_READY, INSIDE, {}), World(DEAD_READY.(mutexes := map[]), INSIDE, {});
    Prepend(w10, DoSleep(1), [], World(DANGLING, INSIDE, {}));
    Prepend(w9, DoMutexDelete(1), [DoSleep(1)], w10);
    Prepend(TWICE, DoTerminate(MAIN), [DoMutexDelete(1), DoSleep(1)], w9);
    RunThen(START, LATE_GRANT, THEN_DELETE);
  }

  // ----- a delete that leaves an acquirer behind -----

  /** Thread 3 terminates main, activates it again and sleeps. Main waits for the mutex once more, and
      is in its queue twice. Thread 3 wakes, hands it the mutex and terminates it; the mutex comes back
      to main and makes it ready. */
  const THEN_REVIVE: seq<Op> :=
    [DoTerminate(MAIN), DoActivate(MAIN), DoSleep(1), DoAcquire(1, TIMEOUT_INFINITE), DoAlarm, DoRelease(1),
     DoTerminate(MAIN)]

  /** Main is dead and in the mutex's queue. */
  const DEAD_QUEUED := OWNER_AWAKE.(
    threads := OWNER_AWAKE.threads[MAIN := DEAD_MAIN], ready := [[IDLE, IDLE], [], [], []])

  lemma DiesAndRevives()
    ensures Terminate(OWNER_AWAKE, MAIN).0 == DEAD_QUEUED
    ensures Activate(DEAD_QUEUED, MAIN) == (OWNER_AWAKE, Success)
  {
    var s := OWNER_AWAKE;
    assert ReleaseAll(Killed(s, MAIN), MAIN, [], 3) == (Killed(s, MAIN), false);
    assert Erase(s.ready, MAIN) == DEAD_QUEUED.ready by { assert RemoveFirst([MAIN], MAIN) == []; }
    PushEmpty(DEAD_QUEUED.ready, PRIORITY_NORMAL, MAIN);
    assert AddToReady(DEAD_QUEUED, MAIN).ready == s.ready;
    assert AddToReady(DEAD_QUEUED, MAIN).threads == s.threads;
  }

  const QUEUED_ONCE: map<Mid, MutexRec> := map[1 := MutexRec(true, 3, [[], [], [MAIN], []])]
  const QUEUED_TWICE: map<Mid, MutexRec> := map[1 := MutexRec(true, 3, [[], [], [MAIN, MAIN], []])]

  const MAIN_WAITS := MAIN_TCB.(state := Waiting, waitingFor := WAITING_MUTEX, ticks := 0xFFFF_FFFF, mWants := 1,
                                infinite := true)

  /** Idle runs; thread 3 sleeps, and main is in the mutex's queue twice. */
  const TWICE_QUEUED := Sys(
    map[MAIN := MAIN_WAITS, IDLE := NEW_TCB.(state := Running), 3 := OWNER_ASLEEP.threads[3]],
    [[IDLE], [], [], []], [[], [MAIN], [3], []], QUEUED_TWICE, IDLE, 4, 2)

  lemma OwnerSleepsAgain()
    ensures Sleep(OWNER_AWAKE, 1).0 == OWNER_ASLEEP.(mutexes := QUEUED_ONCE)
  {
    var s, s1 := OWNER_AWAKE, OWNER_ASLEEP.(mutexes := QUEUED_ONCE);
    PushEmpty(NO_QUEUES, WAITING_SLEEP, 3);
    assert Pop(s.ready) == s1.ready by { assert s.ready[2][1..] == []; }
    assert Sleep(s, 1).0.waiting == s1.waiting && Sleep(s, 1).0.threads == s1.threads;
  }

  lemma QueuesAgain()
    ensures Acquire(OWNER_ASLEEP.(mutexes := QUEUED_ONCE), 1, TIMEOUT_INFINITE) == (TWICE_QUEUED, Suspended)
  {
    var s, qs: Queues := OWNER_ASLEEP.(mutexes := QUEUED_ONCE), [[], [], [MAIN], []];
    assert [MAIN] + [MAIN] == [MAIN, MAIN];
    assert Mx(s, 1).waiting == qs && Push(qs, PRIORITY_NORMAL, MAIN) == [[], [], [MAIN, MAIN], []];
    PushEmpty(s.waiting, WAITING_MUTEX, MAIN);
    var s' := Acquire(s, 1, TIMEOUT_INFINITE).0;
    assert s'.ready == TWICE_QUEUED.ready by { assert s.ready[0][1..] == [IDLE]; }
    assert s'.waiting == TWICE_QUEUED.waiting;
    assert s'.mutexes == QUEUED_TWICE;
    assert s'.threads == TWICE_QUEUED.threads;
  }

  const OWNER_BACK := Sys(
    map[MAIN := MAIN_WAITS, IDLE := NEW_TCB.(state := Ready), 3 := OWNER_TCB.(state := Running)],
    [[IDLE, IDLE], [], [], []], [[], [MAIN], [], []], QUEUED_TWICE, 3, 4, 2)

  lemma OwnerReturns()
    ensures Alarm(TWICE_QUEUED, false) == OWNER_BACK
  {
    hide StopWaiting, InQueues;
    var s := TWICE_QUEUED;
    PushEmpty(s.ready, 3, 3);
    var s1 := s.(threads := s.threads[3 := OWNER_TCB.(state := Ready)], ready := [[IDLE], [], [], [3]],
                 waiting := OWNER_BACK.waiting);
    assert SweepSleep(s, [], [3]) == s1;
    var none: seq<Tid> := [];
    assert none + [MAIN] == [MAIN];
    assert SweepMutex(s1, [], [MAIN], false) == s1;
    assert [IDLE] + [IDLE] == [IDLE, IDLE];
    var full: Queues := [[IDLE, IDLE], [], [], [3]];
    assert AddToReady(s1, IDLE).ready == full;
    assert Pop(full) == OWNER_BACK.ready by { assert full[3][1..] == []; }
    assert Yield(s1).threads == OWNER_BACK.threads;
  }

  /** Main owns the mutex and is in its queue. */
  const OWNS_AND_QUEUES := Sys(
    map[MAIN := MAIN_TCB.(state := Ready, mHeld := [1]), IDLE := NEW_TCB.(state := Ready),
        3 := OWNER_TCB.(state := Running, mHeld := [])],
    [[IDLE, IDLE], [], [MAIN], []], NO_QUEUES, map[1 := MutexRec(true, MAIN, [[], [], [MAIN], []])], 3, 4, 2)

  lemma GrantsOnce()
    ensures Release(OWNER_BACK, 1).0 == OWNS_AND_QUEUES
  {
    var s := OWNER_BACK;
    var s1 := SetTh(s, 3, OWNER_TCB.(state := Running, mHeld := []));
    var qs: Queues := [[], [], [MAIN, MAIN], []];
    assert Mx(s1, 1).waiting == qs && Pop(qs) == [[], [], [MAIN], []] by { assert qs[2][1..] == [MAIN]; }
    var none: seq<Mid> := [];
    assert none + [1] == [1];
    var s2 := Regrant(s1, 1);
    PushEmpty(s.ready, PRIORITY_NORMAL, MAIN);
    assert RemoveFirst([MAIN], MAIN) == [];
    assert s2.waiting == NO_QUEUES;
    assert s2.ready == OWNS_AND_QUEUES.ready && s2.threads == OWNS_AND_QUEUES.threads;
    assert s2.mutexes == OWNS_AND_QUEUES.mutexes;
    assert !Preempts(s1, 1, 3);
  }

  /** The mutex is free and has no waiters, and main, inside its acquire, is ready. */
  const LEFT_BEHIND := Sys(
    map[MAIN := MAIN_TCB.(state := Ready), IDLE := NEW_TCB.(state := Ready),
        3 := OWNER_TCB.(state := Running, mHeld := [])],
    [[IDLE, IDLE], [], [MAIN], []], NO_QUEUES, map[1 := NEW_MUTEX], 3, 4, 2)

  lemma ComesBackToTheDead()
    ensures var s1 := Killed(OWNS_AND_QUEUES, MAIN);
            && StillHeld(s1, MAIN, [1]) == [1]
            && Regrant(s1, 1) == OWNS_AND_QUEUES.(
                 threads := OWNS_AND_QUEUES.threads[MAIN := MAIN_TCB.(state := Ready, mHeld := [1, 1])],
                 ready := GRANTED_TWICE.ready, mutexes := map[1 := MutexRec(true, MAIN, NO_QUEUES)])
  {
    var s1 := Killed(OWNS_AND_QUEUES, MAIN);
    var qs: Queues := [[], [], [MAIN], []];
    assert Mx(Unlock(s1, 1), 1).waiting == qs && Pop(qs) == NO_QUEUES by { assert qs[2][1..] == []; }
    assert [1] + [1] == [1, 1] && [1][1..] == [] && ([1][1..]) + [1] == [1];
    assert Regrant(s1, 1).ready == GRANTED_TWICE.ready by { assert [MAIN] + [MAIN] == [MAIN, MAIN]; }
    assert Regrant(s1, 1).mutexes == map[1 := MutexRec(true, MAIN, NO_QUEUES)];
  }

  lemma ReleasesTwice()
    ensures var s1 := Killed(OWNS_AND_QUEUES, MAIN);
            ReleaseAll(s1, MAIN, [1], 3) == (Unlock(Regrant(s1, 1), 1), false)
    ensures Unlock(Regrant(Killed(OWNS_AND_QUEUES, MAIN), 1), 1).mutexes == map[1 := NEW_MUTEX]
  {
    hide Regrant;
    var s1 := Killed(OWNS_AND_QUEUES, MAIN);
    ComesBackToTheDead();
    var s2 := Regrant(s1, 1);
    var s3 := Unlock(s2, 1);
    assert s3.mutexes == map[1 := NEW_MUTEX];
    NothingToHandOver(s2, 1);
    assert StillHeld(s2, MAIN, [1]) == [] by { assert [1][1..] == []; }
    HandOverProgress(s1, MAIN, [1]);
    HandOverProgress(s2, MAIN, [1]);
    assert ReleaseAll(s3, MAIN, [], 3) == (s3, false);
    assert ReleaseAll(s2, MAIN, [1], 3) == (s3, false);
    assert !Preempts(s1, 1, 3);
  }

  lemma NothingToHandOver(s: Sys, m: Mid)
    requires AllEmpty(Mx(s, m).waiting)
    ensures Regrant(s, m) == Unlock(s, m)
  {}

  lemma TerminatedIsReady()
    ensures Terminate(OWNS_AND_QUEUES, MAIN).0 == LEFT_BEHIND
  {
    hide ReleaseAll, Regrant, Preempts, HasNextOwner;
    ReleasesTwice();
    ComesBackToTheDead();
    var s3 := Unlock(Regrant(Killed(OWNS_AND_QUEUES, MAIN), 1), 1);
    var s4 := SetTh(s3, MAIN, MAIN_TCB.(state := Ready));
    assert Erase(s4.ready, MAIN) == LEFT_BEHIND.ready by {
      assert RemoveFirst([MAIN, MAIN], MAIN) == [MAIN] by { assert [MAIN, MAIN][1..] == [MAIN]; }
    }
    assert Unqueue(s4, MAIN, Ready) == LEFT_BEHIND;
  }

  /** Nobody holds the mutex or queues for it, so a delete succeeds; but main goes on inside its endless
      acquire of it. */
  lemma RevivalLeavesAcquirer()
    ensures ValidRun(START, EXPIRY + THEN_REVIVE, false)
    ensures var w := Run(START, EXPIRY + THEN_REVIVE, false);
            && MutexDelete(w.sys, 1).1 == Success
            && MAIN in w.cont && w.cont[MAIN] == Cont(1, true) && Th(w.sys, MAIN).state == Ready
  {
    hide Terminate, Sleep, Alarm, Activate, Acquire, Release;
    ExpiredRuns();
    DiesAndRevives();
    OwnerSleepsAgain();
    QueuesAgain();
    OwnerReturns();
    GrantsOnce();
    TerminatedIsReady();
    var endless := map[MAIN := Cont(1, true)];
    assert INSIDE - {MAIN} == map[];
    var w13, w12 := World(OWNS_AND_QUEUES, endless, {}), World(OWNER_BACK, endless, {});
    var w11, w10 := World(TWICE_QUEUED, endless, {}), World(OWNER_ASLEEP.(mutexes := QUEUED_ONCE), map[], {});
    var w9, w8 := World(OWNER_AWAKE, map[], {}), World(DEAD_QUEUED, INSIDE, {});
    Prepend(w13, DoTerminate(MAIN), [], World(LEFT_BEHIND, endless, {}));
    Prepend(w12, DoRelease(1), [DoTerminate(MAIN)], w13);
    Prepend(w11, DoAlarm, THEN_REVIVE[5..], w12);
    Prepend(w10, DoAcquire(1, TIMEOUT_INFINITE), THEN_REVIVE[4..], w11);
    Prepend(w9, DoSleep(1), THEN_REVIVE[3..], w10);
    Prepend(w8, DoActivate(MAIN), THEN_REVIVE[2..], w9);
    Prepend(EXPIRED, DoTerminate(MAIN), THEN_REVIVE[1..], w8);
    RunThen(START, EXPIRY, THEN_REVIVE);
  }

  // ----- an endless acquire that fails -----

  /** Thread 3 takes a second mutex and sleeps; main returns from its acquire and waits for that
      mutex without end. Its second copy is dispatched at once. */
  const THEN_WAIT: seq<Op> :=
    [DoMutexCreate, DoAcquire(2, TIMEOUT_INFINITE), DoSleep(5), DoResume, DoAcquire(2, TIMEOUT_INFINITE)]

  const TWO_MUTEXES: map<Mid, MutexRec> := map[1 := MutexRec(true, MAIN, NO_QUEUES), 2 := MutexRec(true, 3, NO_QUEUES)]

  const SECOND_TAKEN := GRANTED_TWICE.(
    threads := GRANTED_TWICE.threads[3 := OWNER_TCB.(state := Running, mHeld := [2])], mutexes := TWO_MUTEXES,
      nextMid := 3)

  lemma TakesSecond()
    ensures var s1 := MutexCreate(GRANTED_TWICE);
            Acquire(s1, 2, TIMEOUT_INFINITE) == (SECOND_TAKEN, Returned(Success))
  {
    var s1 := MutexCreate(GRANTED_TWICE);
    assert s1.mutexes == map[1 := MutexRec(true, MAIN, NO_QUEUES), 2 := NEW_MUTEX];
    var none: seq<Mid> := [];
    assert none + [2] == [2];
    assert Acquire(s1, 2, TIMEOUT_INFINITE).0.mutexes == TWO_MUTEXES;
  }

  const MAIN_AGAIN := Sys(
    map[MAIN := MAIN_TCB.(mHeld := [1]), IDLE := NEW_TCB.(state := Ready),
        3 := OWNER_TCB.(state := Waiting, waitingFor := WAITING_SLEEP, ticks := 5, mHeld := [2])],
    [[IDLE, IDLE], [], [MAIN], []], [[], [], [3], []], TWO_MUTEXES, MAIN, 4, 3)

  lemma OwnerSleeps()
    ensures Sleep(SECOND_TAKEN, 5).0 == MAIN_AGAIN
    ensures Resume(MAIN_AGAIN, 1) == (MAIN_AGAIN, Success)
  {
    var s := SECOND_TAKEN;
    PushEmpty(NO_QUEUES, WAITING_SLEEP, 3);
    assert Pop(s.ready) == MAIN_AGAIN.ready by { assert s.ready[2][1..] == [MAIN]; }
    assert Sleep(s, 5).0.waiting == MAIN_AGAIN.waiting;
    assert Sleep(s, 5).0.threads == MAIN_AGAIN.threads;
  }

  /** Main, running although it waits for mutex 2. */
  const MAIN_TOO_SOON := MAIN_AGAIN.(
    threads := MAIN_AGAIN.threads[MAIN := MAIN_TCB.(mHeld := [1], waitingFor := WAITING_MUTEX, infinite := true,
                                                    ticks := 0xFFFF_FFFF, mWants := 2)],
    ready := [[IDLE, IDLE], [], [], []], waiting := [[], [MAIN], [3], []],
    mutexes := TWO_MUTEXES[2 := MutexRec(true, 3, [[], [], [MAIN], []])])

  lemma StaleCopyRuns()
    ensures Acquire(MAIN_AGAIN, 2, TIMEOUT_INFINITE) == (MAIN_TOO_SOON, Suspended)
  {
    var s := MAIN_AGAIN;
    PushEmpty(NO_QUEUES, PRIORITY_NORMAL, MAIN);
    assert NO_QUEUES[2 := [MAIN]] == [[], [], [MAIN], []];
    PushEmpty(s.waiting, WAITING_MUTEX, MAIN);
    assert Pop(s.ready) == MAIN_TOO_SOON.ready by { assert s.ready[2][1..] == []; }
    var s' := Acquire(s, 2, TIMEOUT_INFINITE).0;
    assert s'.ready == MAIN_TOO_SOON.ready && s'.waiting == MAIN_TOO_SOON.waiting;
    assert s'.mutexes == MAIN_TOO_SOON.mutexes;
    assert s'.threads == MAIN_TOO_SOON.threads;
  }

  lemma NotTheOwner()
    ensures Resume(MAIN_TOO_SOON, 2).1 == Failure
  {}

  lemma LateGrantFailsEndless()
    ensures ValidRun(START, LATE_GRANT + THEN_WAIT, false)
    ensures var w := Run(START, LATE_GRANT + THEN_WAIT, false);
            && w.sys.current == MAIN && MAIN in w.cont && w.cont[MAIN].infinite
            && Resume(w.sys, w.cont[MAIN].mid).1 == Failure
  {
    hide Acquire, Sleep, Resume;
    LateGrantRuns();
    TakesSecond();
    OwnerSleeps();
    StaleCopyRuns();
    NotTheOwner();
    var endless := map[MAIN := Cont(2, true)];
    var w9, w10 := World(MutexCreate(GRANTED_TWICE), INSIDE, {}), World(SECOND_TAKEN, INSIDE, {});
    var w11, w12 := World(MAIN_AGAIN, INSIDE, {}), World(MAIN_AGAIN, map[], {});
    assert INSIDE - {MAIN} == map[];
    Prepend(w12, DoAcquire(2, TIMEOUT_INFINITE), [], World(MAIN_TOO_SOON, endless, {}));
    Prepend(w11, DoResume, [DoAcquire(2, TIMEOUT_INFINITE)], w12);
    Prepend(w10, DoSleep(5), THEN_WAIT[3..], w11);
    Prepend(w9, DoAcquire(2, TIMEOUT_INFINITE), THEN_WAIT[2..], w10);
    Prepend(TWICE, DoMutexCreate, THEN_WAIT[1..], w9);
    RunThen(START, LATE_GRANT, THEN_WAIT);
  }

  // ----- a sleep that ends at once -----

  /** Thread 3 sleeps; main returns from its acquire and sleeps for nine ticks. Its second copy is
      dispatched at once. */
  const THEN_SLEEP: seq<Op> := [DoSleep(5), DoResume, DoSleep(9)]

  const MAIN_ALONE := Sys(
    map[MAIN := MAIN_TCB.(mHeld := [1]), IDLE := NEW_TCB.(state := Ready),
        3 := OWNER_TCB.(state := Waiting, waitingFor := WAITING_SLEEP, ticks := 5, mHeld := [])],
    [[IDLE, IDLE], [], [MAIN], []], [[], [], [3], []], map[1 := MutexRec(true, MAIN, NO_QUEUES)], MAIN, 4, 2)

  /** Main, running although it stands in the queue of sleepers with nine ticks to go. */
  const MAIN_AWAKE := MAIN_ALONE.(
    threads := MAIN_ALONE.threads[MAIN := MAIN_TCB.(mHeld := [1], waitingFor := WAITING_SLEEP, ticks := 9)],
    ready := [[IDLE, IDLE], [], [], []], waiting := [[], [], [3, MAIN], []])

  lemma OwnerSleepsFirst()
    ensures Sleep(GRANTED_TWICE, 5).0 == MAIN_ALONE
    ensures Resume(MAIN_ALONE, 1) == (MAIN_ALONE, Success)
  {
    var s := GRANTED_TWICE;
    PushEmpty(NO_QUEUES, WAITING_SLEEP, 3);
    assert Pop(s.ready) == MAIN_ALONE.ready by { assert s.ready[2][1..] == [MAIN]; }
    assert Sleep(s, 5).0.waiting == MAIN_ALONE.waiting;
    assert Sleep(s, 5).0.threads == MAIN_ALONE.threads;
  }

  lemma SleeperRuns()
    ensures Sleep(MAIN_ALONE, 9) == (MAIN_AWAKE, Success)
  {
    var s := MAIN_ALONE;
    assert [3] + [MAIN] == [3, MAIN];
    assert Push(s.waiting, WAITING_SLEEP, MAIN) == MAIN_AWAKE.waiting;
    assert Pop(s.ready) == MAIN_AWAKE.ready by { assert s.ready[2][1..] == []; }
    assert Sleep(s, 9).0.waiting == MAIN_AWAKE.waiting;
    assert Sleep(s, 9).0.threads == MAIN_AWAKE.threads;
  }

  /** No alarm has come since main went to sleep, and it runs. */
  lemma LateGrantCutsSleep()
    ensures ValidRun(START, LATE_GRANT + THEN_SLEEP, false)
    ensures var s := Run(START, LATE_GRANT + THEN_SLEEP, false).sys;
            s.current == MAIN && s.waiting[WAITING_SLEEP] == [3, MAIN] && Th(s, MAIN).ticks == 9
  {
    hide Sleep, Resume;
    LateGrantRuns();
    OwnerSleepsFirst();
    SleeperRuns();
    var w9, w10 := World(MAIN_ALONE, INSIDE, {}), World(MAIN_ALONE, map[], {});
    assert INSIDE - {MAIN} == map[];
    Prepend(w10, DoSleep(9), [], World(MAIN_AWAKE, map[], {}));
    Prepend(w9, DoResume, [DoSleep(9)], w10);
    Prepend(TWICE, DoSleep(5), [DoResume, DoSleep(9)], w9);
    RunThen(START, LATE_GRANT, THEN_SLEEP);
  }

  lemma {:induction false} RunThen(w: World, a: seq<Op>, b: seq<Op>)
    requires ValidRun(w, a, false) && ValidRun(Run(w, a, false), b, false)
    ensures ValidRun(w, a + b, false) && Run(w, a + b, false) == Run(Run(w, a, false), b, false)
    decreases |a|
  {
    if a == [] {
      assert a + b == b;
    } else {
      assert (a + b)[1..] == a[1..] + b;
      RunThen(Step(w, a[0], false), a[1..], b);
    }
  }

  lemma Prepend(w: World, op: Op, ops: seq<Op>, w': World)
    requires Enabled(w, op) && Step(w, op, false) == w' && ValidRun(w', ops, false)
    ensures ValidRun(w, [op] + ops, false) && Run(w, [op] + ops, false) == Run(w', ops, false)
  {
    assert ([op] + ops)[1..] == ops;
  }
}
