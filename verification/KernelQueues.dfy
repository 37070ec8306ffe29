/** Queue exclusivity: every thread is in exactly the place its control block says, over every
    run in which no step hands a mutex to a thread that is ready already. */
module KernelQueues {
  import opened Kernel
  import opened KernelSafety

  // ----- the invariant -----

  ghost predicate WaitsForMutex(c: Tcb) { c.state == Waiting && c.waitingFor == WAITING_MUTEX }

  /** What the stacks hold: who is inside VMMutexAcquire, and who has a file request outstanding.
      `late` says that a waiter whose time is up stays in the mutex's queue until it runs. */
  datatype Stacks = Stacks(cont: map<Tid, Cont>, pending: set<Tid>, late: bool)

  ghost function StacksOf(w: World, leave: bool): Stacks { Stacks(w.cont, w.pending, !leave) }

  /** How often t occurs in each queue is determined by its control block. */
  ghost predicate Queued(s: Sys, t: Tid) {
    var c := Th(s, t);
    && (forall p: Prio :: Cnt(s.ready[p], t) == if c.state == Ready && p == c.priority then 1 else 0)
    && (forall p: Prio :: Cnt(s.waiting[p], t) == if c.state == Waiting && p == c.waitingFor then 1 else 0)
  }

  /** t's acquire of m has run out of time, and t has not run since. */
  ghost predicate Lapsed(c: Tcb, k: Stacks, t: Tid, m: Mid) {
    k.late && c.state != Waiting && t in k.cont && k.cont[t] == Cont(m, false)
  }

  /** t may stand in m's queue of priority p. */
  ghost predicate Seated(s: Sys, k: Stacks, t: Tid, m: Mid, p: Prio) {
    var c := Th(s, t);
    p == c.priority && !Owns(s, m, t) && (c.mWants == m || Lapsed(c, k, t, m))
  }

  ghost predicate MutexQueued(s: Sys, k: Stacks, t: Tid) {
    var c := Th(s, t);
    && (forall m, p: Prio :: m in s.mutexes ==>
          Cnt(s.mutexes[m].waiting[p], t) <= if Seated(s, k, t, m, p) then 1 else 0)
    && (c.mWants != NO_MUTEX ==> c.mWants in s.mutexes && Cnt(s.mutexes[c.mWants].waiting[c.priority], t) == 1)
  }

  /** The timer fields: a clock that is decremented is at least 1, so it never underflows. */
  ghost predicate TimersOk(c: Tcb) {
    && (c.mWants != NO_MUTEX <==> WaitsForMutex(c))
    && (c.infinite ==> WaitsForMutex(c) && c.ticks == 0xFFFF_FFFF)
    && (c.state == Waiting ==> c.waitingFor <= 2)
    && (c.state == Waiting && c.waitingFor != WAITING_IO ==> c.ticks >= 1)
    && (c.state == Dead ==> c.mHeld == [])
  }

  /** An acquire that will run again has its mutex, or its time was up and it still queues. */
  ghost predicate Served(s: Sys, k: Stacks, t: Tid)
    requires t in k.cont
  {
    var m := k.cont[t].mid;
    Owns(s, m, t)
    || (!k.cont[t].infinite && (k.late ==> m in s.mutexes && Cnt(s.mutexes[m].waiting[PrioOf(s, t)], t) == 1))
  }

  ghost predicate StackOk(s: Sys, k: Stacks, t: Tid) {
    var c := Th(s, t);
    && (WaitsForMutex(c) ==> t in k.cont && k.cont[t] == Cont(c.mWants, c.infinite))
    && (c.state == Waiting && t in k.cont ==> WaitsForMutex(c))
    && ((c.state == Ready || c.state == Running) && t in k.cont ==> Served(s, k, t))
    && (c.state == Waiting && c.waitingFor == WAITING_IO ==> t in k.pending)
    && (t in k.pending ==> t !in k.cont && (c.state == Dead || (c.state == Waiting && c.waitingFor == WAITING_IO)))
  }

  /** `on` is false between the moment the current thread is put away and the dispatch of the
      next one; otherwise exactly the current thread is running. */
  ghost predicate Placed(s: Sys, k: Stacks, on: bool, t: Tid) {
    && Queued(s, t) && MutexQueued(s, k, t) && TimersOk(Th(s, t)) && StackOk(s, k, t)
    && (Th(s, t).state == Running <==> (on && t == s.current))
  }

  ghost predicate AllPlaced(s: Sys, k: Stacks, on: bool) {
    && (forall t :: t in s.threads && t != IDLE ==> Placed(s, k, on, t))
    && Th(s, IDLE).state == (if on && s.current == IDLE then Running else Ready)
    && Th(s, IDLE).mWants == NO_MUTEX
  }

  ghost predicate Exclusive(w: World, leave: bool) { AllPlaced(w.sys, StacksOf(w, leave), true) }

  ghost predicate QueueInv(w: World, leave: bool) { Inv(w) && Exclusive(w, leave) }

  // ----- timely steps -----

  /** m, about to be handed over, goes to nobody or to a thread that is in no ready queue. */
  ghost predicate TimelyGrant(s: Sys, m: Mid) {
    HasNextOwner(Unlock(s, m), m) ==>
      var c := Th(s, NextOwner(Unlock(s, m), m)); c.state != Ready && c.state != Running
  }

  ghost predicate TimelyGrants(s: Sys, t: Tid, held: seq<Mid>)
    decreases HandOvers(s, t, held)
  {
    held == [] ||
    (HandOverProgress(s, t, held);
     TimelyGrant(s, held[0]) && TimelyGrants(Regrant(s, held[0]), t, StillHeld(s, t, held)))
  }

  /** Every mutex the step hands over goes to a thread that is not ready already, and no dead
      thread that a mutex still queues is activated. */
  ghost predicate Timely(w: World, op: Op) {
    var s := w.sys;
    match op
    case DoActivate(t) => t in s.threads && Th(s, t).state == Dead ==> !InMutexQueue(s, t)
    case DoRelease(m) => Owns(s, m, s.current) ==> TimelyGrant(Dropped(s, m), m)
    case DoTerminate(t) => t in s.threads && Th(s, t).state != Dead ==> TimelyGrants(Killed(s, t), t, Th(s, t).mHeld)
    case _ => true
  }

  // ----- what one helper does to the queues of one thread -----

  ghost predicate SameQueues(s: Sys, s': Sys, u: Tid) {
    forall p: Prio :: Cnt(s'.ready[p], u) == Cnt(s.ready[p], u) && Cnt(s'.waiting[p], u) == Cnt(s.waiting[p], u)
  }

  ghost predicate SameMutexQueues(s: Sys, s': Sys, u: Tid) {
    && s'.mutexes.Keys == s.mutexes.Keys
    && forall m, p: Prio :: m in s.mutexes ==> Cnt(s'.mutexes[m].waiting[p], u) == Cnt(s.mutexes[m].waiting[p], u)
  }

  /** Nothing about u changed. */
  ghost predicate Untouched(s: Sys, s': Sys, u: Tid) {
    && Th(s', u) == Th(s, u) && SameQueues(s, s', u) && SameMutexQueues(s, s', u)
    && (forall m :: Owns(s, m, u) <==> Owns(s', m, u))
  }

  ghost predicate SameStack(k: Stacks, k': Stacks, u: Tid) {
    && k'.late == k.late && (u in k'.pending <==> u in k.pending)
    && (u in k'.cont <==> u in k.cont) && (u in k.cont ==> k'.cont[u] == k.cont[u])
  }

  lemma StackFrame(s: Sys, k: Stacks, k': Stacks, on: bool, u: Tid)
    requires Placed(s, k, on, u) && SameStack(k, k', u)
    ensures Placed(s, k', on, u)
  {
    assert MutexQueued(s, k', u) by {
      assert forall m, p: Prio :: Seated(s, k', u, m, p) == Seated(s, k, u, m, p);
    }
  }

  lemma PlacedFrame(s: Sys, s': Sys, k: Stacks, on: bool, on': bool, u: Tid)
    requires Placed(s, k, on, u) && Untouched(s, s', u)
    requires (on && u == s.current) == (on' && u == s'.current)
    ensures Placed(s', k, on', u)
  {
    assert Queued(s', u);
    SeatsFrame(s, s', k, u);
  }

  lemma SeatsFrame(s: Sys, s': Sys, k: Stacks, u: Tid)
    requires MutexQueued(s, k, u) && SameMutexQueues(s, s', u) && (forall m :: Owns(s', m, u) ==> Owns(s, m, u))
    requires Th(s', u).priority == Th(s, u).priority && Th(s', u).mWants == Th(s, u).mWants
    requires Th(s', u).state == Waiting ==> Th(s, u).state == Waiting
    ensures MutexQueued(s', k, u)
  {
    assert forall m, p: Prio :: Seated(s, k, u, m, p) ==> Seated(s', k, u, m, p);
  }

  lemma PushCounts(qs: Queues, p: Prio, t: Tid, u: Tid)
    ensures forall q: Prio :: Cnt(Push(qs, p, t)[q], u) == Cnt(qs[q], u) + (if u == t && q == p then 1 else 0)
  {
    CntPush(qs[p], t, u);
  }

  lemma PopCounts(qs: Queues, u: Tid)
    requires !AllEmpty(qs)
    ensures forall q: Prio :: Cnt(Pop(qs)[q], u) == Cnt(qs[q], u) - (if q == Top(qs) && u == qs[q][0] then 1 else 0)
  {
    CntPop(qs[Top(qs)], u);
  }

  /** Erasing a thread that occurs once, in queue p. */
  lemma EraseCounts(qs: Queues, t: Tid, p: Prio, u: Tid)
    requires forall q: Prio :: Cnt(qs[q], t) == if q == p then 1 else 0
    ensures forall q: Prio :: Cnt(Erase(qs, t)[q], u) == Cnt(qs[q], u) - (if u == t && q == p then 1 else 0)
    ensures InQueues(qs, t)
  {
    CntMember(qs[0], t); CntMember(qs[1], t); CntMember(qs[2], t); CntMember(qs[3], t);
    CntRemoveFirst(qs[p], t, u);
  }

  lemma AbsentErase(qs: Queues, t: Tid)
    requires forall q: Prio :: Cnt(qs[q], t) == 0
    ensures !InQueues(qs, t)
  {
    CntMember(qs[0], t); CntMember(qs[1], t); CntMember(qs[2], t); CntMember(qs[3], t);
  }

  // ----- putting the current thread away and dispatching the next -----

  lemma ReadyCurrent(s: Sys, k: Stacks)
    requires AllPlaced(s, k, true) && s.current in s.threads
    ensures AllPlaced(AddToReady(s, s.current), k, false)
  {
    var t := s.current;
    var s' := AddToReady(s, t);
    forall u | u in s'.threads && u != IDLE ensures Placed(s', k, false, u) {
      PushCounts(s.ready, PrioOf(s, t), t, u);
      assert Placed(s, k, true, u);
      if u != t {
        PlacedFrame(s, s', k, true, false, u);
      } else {
        assert Queued(s', t);
        SeatsFrame(s, s', k, t);
      }
    }
  }

  lemma FrontIsReady(s: Sys, k: Stacks)
    requires AllPlaced(s, k, false) && MembersOk(s) && !AllEmpty(s.ready)
    ensures var t := s.ready[Top(s.ready)][0];
            t in s.threads && Th(s, t).state == Ready && PrioOf(s, t) == Top(s.ready)
  {
    hide MutexQueued, StackOk, TimersOk;
    var p := Top(s.ready);
    var t := s.ready[p][0];
    assert t in s.ready[p];
    CntMember(s.ready[p], t);
    if t != IDLE {
      assert Placed(s, k, false, t);
      assert Queued(s, t);
    }
  }

  lemma DispatchOne(s: Sys, k: Stacks, u: Tid)
    requires Placed(s, k, false, u) && !AllEmpty(s.ready)
    requires u == s.ready[Top(s.ready)][0] ==> Th(s, u).state == Ready && PrioOf(s, u) == Top(s.ready)
    ensures Placed(ScheduleNext(s), k, true, u)
  {
    var s' := ScheduleNext(s);
    PopCounts(s.ready, u);
    if u != s.ready[Top(s.ready)][0] {
      PlacedFrame(s, s', k, false, true, u);
    } else {
      assert Queued(s', u);
      SeatsFrame(s, s', k, u);
    }
  }

  lemma Dispatch(s: Sys, k: Stacks)
    requires AllPlaced(s, k, false) && MembersOk(s) && !AllEmpty(s.ready)
    ensures AllPlaced(ScheduleNext(s), k, true)
  {
    FrontIsReady(s, k);
    forall u | u in ScheduleNext(s).threads && u != IDLE ensures Placed(ScheduleNext(s), k, true, u) {
      DispatchOne(s, k, u);
    }
  }

  lemma ReadyKeepsMembers(s: Sys, t: Tid)
    requires MembersOk(s) && t in s.threads
    ensures MembersOk(AddToReady(s, t)) && !AllEmpty(AddToReady(s, t).ready)
  {
    var p := PrioOf(s, t);
    assert AddToReady(s, t).ready[p] == s.ready[p] + [t];
  }

  lemma YieldPlaces(s: Sys, k: Stacks)
    requires AllPlaced(s, k, true) && MembersOk(s)
    ensures AllPlaced(Yield(s), k, true)
  {
    ReadyCurrent(s, k);
    ReadyKeepsMembers(s, s.current);
    Dispatch(AddToReady(s, s.current), k);
  }

  /** k, when t has a file request outstanding if the reason it waits is a file. */
  ghost function Asking(k: Stacks, reason: Prio, t: Tid): Stacks {
    if reason == WAITING_IO then k.(pending := k.pending + {t}) else k
  }

  /** The current thread starts to wait for a file or for time to pass. */
  lemma BlockCurrent(s: Sys, k: Stacks, reason: Prio)
    requires AllPlaced(s, k, true) && s.current in s.threads && s.current != IDLE && s.current !in k.cont
    requires NO_MUTEX !in s.mutexes && (reason == WAITING_IO || reason == WAITING_SLEEP)
    requires reason == WAITING_SLEEP ==> s.threads[s.current].ticks >= 1
    ensures AllPlaced(Block(s, s.current, reason), Asking(k, reason, s.current), false)
  {
    var t := s.current;
    var s' := Block(s, t, reason);
    forall u | u in s'.threads && u != IDLE ensures Placed(s', Asking(k, reason, t), false, u) {
      PushCounts(s.waiting, reason, t, u);
      assert Placed(s, k, true, u);
      if u != t {
        PlacedFrame(s, s', k, true, false, u);
        StackFrame(s', k, Asking(k, reason, t), false, u);
      } else {
        assert Queued(s', t);
        NoSeats(s, s', k, Asking(k, reason, t), t);
      }
    }
  }

  /** A thread outside every acquire that wants no mutex stands in no mutex's queue. */
  lemma NoSeats(s: Sys, s': Sys, k: Stacks, k': Stacks, t: Tid)
    requires MutexQueued(s, k, t) && Th(s, t).mWants == NO_MUTEX && t !in k.cont && NO_MUTEX !in s.mutexes
    requires s'.mutexes == s.mutexes && Th(s', t).mWants == NO_MUTEX
    ensures MutexQueued(s', k', t) && forall m, p: Prio :: m in s.mutexes ==> Cnt(s.mutexes[m].waiting[p], t) == 0
  {
    assert forall m, p: Prio :: m in s.mutexes ==> !Seated(s, k, t, m, p);
  }

  // ----- waking one thread -----

  lemma WakeCounts(s: Sys, t: Tid, u: Tid)
    requires Queued(s, t) && Th(s, t).state == Waiting && Th(s, t).waitingFor <= 2
    ensures var s' := AddToReady(RemoveFromWaiting(s, t), t);
            && (u != t ==> SameQueues(s, s', u) && Th(s', u) == Th(s, u))
            && Queued(s', t)
            && Th(s', t) == Th(s, t).(state := Ready, waitingFor := WAITING_NOTHING, ticks := 0, infinite := false)
            && s'.mutexes == s.mutexes && s'.current == s.current
            && s'.threads.Keys == s.threads.Keys + {t}
  {
    var r: Prio := Th(s, t).waitingFor;
    EraseCounts(s.waiting, t, r, u);
    EraseCounts(s.waiting, t, r, t);
    var s1 := RemoveFromWaiting(s, t);
    PushCounts(s1.ready, PrioOf(s1, t), t, u);
    PushCounts(s1.ready, PrioOf(s1, t), t, t);
  }

  lemma ReplyPlaces(s: Sys, k: Stacks, t: Tid)
    requires AllPlaced(s, k, true) && t in k.pending && t in s.threads && t != IDLE && Th(s, t).state != Dead
    requires NO_MUTEX !in s.mutexes
    ensures AllPlaced(AddToReady(RemoveFromWaiting(s, t), t), k.(pending := k.pending - {t}), true)
  {
    var s', k' := AddToReady(RemoveFromWaiting(s, t), t), k.(pending := k.pending - {t});
    assert Placed(s, k, true, t);
    WakeCounts(s, t, t);
    forall u | u in s'.threads && u != IDLE ensures Placed(s', k', true, u) {
      WakeCounts(s, t, u);
      assert Placed(s, k, true, u);
      if u != t {
        PlacedFrame(s, s', k, true, true, u);
        StackFrame(s', k, k', true, u);
      } else {
        NoSeats(s, s', k, k', t);
      }
    }
    WakeCounts(s, t, IDLE);
  }

  // ----- handing a mutex over -----

  /** The next owner of m: it waits for m, or it died in m's queue after its time was up. */
  lemma NextOwnerWaits(s: Sys, m: Mid, k: Stacks, t: Tid)
    requires Placed(s, k, true, t) && m in s.mutexes && m != NO_MUTEX && !AllEmpty(s.mutexes[m].waiting)
    requires t == s.mutexes[m].waiting[Top(s.mutexes[m].waiting)][0] && Th(s, t).state != Ready
             && Th(s, t).state != Running
    ensures Seated(s, k, t, m, Top(s.mutexes[m].waiting)) && Cnt(s.mutexes[m].waiting[PrioOf(s, t)], t) == 1
    ensures if Th(s, t).state == Waiting then WaitsForMutex(Th(s, t)) && Th(s, t).mWants == m
            else Th(s, t).state == Dead && Lapsed(Th(s, t), k, t, m)
  {
    var q := s.mutexes[m].waiting[Top(s.mutexes[m].waiting)];
    assert t in q;
    CntMember(q, t);
  }

  /** Where a new owner stands and what it holds after the hand-over. */
  lemma RegrantShape(s: Sys, m: Mid, t: Tid)
    requires m in s.mutexes && !AllEmpty(s.mutexes[m].waiting)
    requires t == s.mutexes[m].waiting[Top(s.mutexes[m].waiting)][0]
    ensures var s', asleep := Regrant(s, m), InQueues(s.waiting, t);
            && s'.mutexes == s.mutexes[m := MutexRec(true, t, Pop(s.mutexes[m].waiting))]
            && s'.ready == Push(s.ready, PrioOf(s, t), t)
            && s'.waiting == (if asleep then Erase(s.waiting, t) else s.waiting)
            && s'.current == s.current && s'.threads.Keys == s.threads.Keys + {t}
            && Th(s', t) ==
                 (if asleep then Th(s, t).(waitingFor := WAITING_NOTHING, ticks := 0, infinite := false) else Th(s, t))
                            .(state := Ready, mHeld := Th(s, t).mHeld + [m], mWants := NO_MUTEX)
            && forall u :: u != t ==> Th(s', u) == Th(s, u)
  {
  }

  /** What the hand-over does to the queues of one thread. */
  lemma RegrantCounts(s: Sys, m: Mid, k: Stacks, t: Tid, u: Tid)
    requires m in s.mutexes && NO_MUTEX !in s.mutexes && !AllEmpty(s.mutexes[m].waiting)
    requires t == s.mutexes[m].waiting[Top(s.mutexes[m].waiting)][0]
    requires Placed(s, k, true, t) && Th(s, t).state != Ready && Th(s, t).state != Running
    ensures var s', asleep := Regrant(s, m), Th(s, t).state == Waiting;
            && (asleep <==> InQueues(s.waiting, t)) && PrioOf(s, t) == Top(s.mutexes[m].waiting)
            && (forall p: Prio ::
                  Cnt(s'.ready[p], u) == Cnt(s.ready[p], u) + if u == t && p == PrioOf(s, t) then 1 else 0)
            && (forall p: Prio ::
                  Cnt(s'.waiting[p], u) ==
                    Cnt(s.waiting[p], u) - if u == t && asleep && p == WAITING_MUTEX then 1 else 0)
            && s'.mutexes.Keys == s.mutexes.Keys
            && (forall n, p: Prio :: n in s.mutexes ==>
                  Cnt(s'.mutexes[n].waiting[p], u) ==
                  Cnt(s.mutexes[n].waiting[p], u) - if u == t && n == m && p == PrioOf(s, t) then 1 else 0)
  {
    NextOwnerWaits(s, m, k, t);
    RegrantShape(s, m, t);
    if Th(s, t).state == Waiting { EraseCounts(s.waiting, t, WAITING_MUTEX, u); } else { AbsentErase(s.waiting, t); }
    PushCounts(s.ready, PrioOf(s, t), t, u);
    PopCounts(s.mutexes[m].waiting, u);
  }

  /** Every thread but the one that gives m away stays placed. */
  lemma GrantOne(s: Sys, m: Mid, t: Tid, k: Stacks, u: Tid)
    requires m in s.mutexes && NO_MUTEX !in s.mutexes && !AllEmpty(s.mutexes[m].waiting)
    requires t == s.mutexes[m].waiting[Top(s.mutexes[m].waiting)][0]
    requires Placed(s, k, true, t) && Th(s, t).state != Ready && Th(s, t).state != Running
    requires Placed(s, k, true, u) && !Owns(s, m, u) && t in s.threads
    ensures Placed(Regrant(s, m), k, true, u)
  {
    hide StackOk, Queued, Regrant;
    var s' := Regrant(s, m);
    RegrantCounts(s, m, k, t, u);
    RegrantShape(s, m, t);
    if u != t {
      PlacedFrame(s, s', k, true, true, u);
    } else {
      NextOwnerWaits(s, m, k, t);
      GrantedIsPlaced(s, s', m, k, t);
    }
  }

  lemma GrantedIsPlaced(s: Sys, s': Sys, m: Mid, k: Stacks, t: Tid)
    requires m in s.mutexes && NO_MUTEX !in s.mutexes && Owns(s', m, t)
    requires Placed(s, k, true, t) && Seated(s, k, t, m, PrioOf(s, t))
             && Cnt(s.mutexes[m].waiting[PrioOf(s, t)], t) == 1
    requires if Th(s, t).state == Waiting then WaitsForMutex(Th(s, t)) && Th(s, t).mWants == m
             else Th(s, t).state == Dead && Lapsed(Th(s, t), k, t, m)
    requires var c := Th(s', t);
             && c.state == Ready && c.priority == PrioOf(s, t) && c.mWants == NO_MUTEX && !c.infinite
             && s'.current == s.current
    requires forall p: Prio :: Cnt(s'.ready[p], t) == Cnt(s.ready[p], t) + if p == PrioOf(s, t) then 1 else 0
    requires forall p: Prio ::
               Cnt(s'.waiting[p], t) ==
                 Cnt(s.waiting[p], t) - if Th(s, t).state == Waiting && p == WAITING_MUTEX then 1 else 0
    requires s'.mutexes.Keys == s.mutexes.Keys
    requires forall n, p: Prio :: n in s.mutexes ==>
               Cnt(s'.mutexes[n].waiting[p], t) ==
                 Cnt(s.mutexes[n].waiting[p], t) - if n == m && p == PrioOf(s, t) then 1 else 0
    ensures Placed(s', k, true, t)
  {
    assert Queued(s', t);
    forall n, p: Prio | n in s'.mutexes ensures Cnt(s'.mutexes[n].waiting[p], t) == 0 {
      assert Cnt(s.mutexes[n].waiting[p], t) <= if Seated(s, k, t, n, p) then 1 else 0;
    }
  }

  /** m leaves x and goes to its next owner; every thread but x stays placed. */
  lemma RegrantPlaces(s: Sys, m: Mid, k: Stacks, x: Tid, rest: seq<Mid>, u: Tid)
    requires Core(s, x, rest) && Owns(s, m, x) && TimelyGrant(s, m) && !ComesBack(s, m, x)
    requires forall t :: t in s.threads && t != IDLE && t != x ==> Placed(s, k, true, t)
    requires u in s.threads && u != IDLE && u != x
    ensures Placed(Regrant(s, m), k, true, u)
  {
    if HasNextOwner(Unlock(s, m), m) {
      var t := NextOwner(Unlock(s, m), m);
      assert t in s.mutexes[m].waiting[Top(s.mutexes[m].waiting)];
      assert WaiterOk(s, Top(s.mutexes[m].waiting), t);
      GrantOne(s, m, t, k, u);
    } else {
      PlacedFrame(s, Unlock(s, m), k, true, true, u);
    }
  }

  /** The same for idle, whose block a hand-over never touches. */
  lemma RegrantIdle(s: Sys, m: Mid)
    requires WaitersOk(s) && m in s.mutexes
    ensures Th(Regrant(s, m), IDLE) == Th(s, IDLE)
  {
    if HasNextOwner(Unlock(s, m), m) {
      var qs := s.mutexes[m].waiting;
      assert qs[Top(qs)][0] in qs[Top(qs)];
      assert WaiterOk(s, Top(qs), qs[Top(qs)][0]);
    }
  }

  // ----- release -----

  /** An owner does not queue for what it owns. */
  lemma OwnerNotNext(s: Sys, m: Mid, k: Stacks, x: Tid)
    requires MutexQueued(s, k, x) && Owns(s, m, x)
    ensures !ComesBack(s, m, x)
  {
    if HasNextOwner(Unlock(s, m), m) {
      var p := Top(s.mutexes[m].waiting);
      assert !Seated(s, k, x, m, p);
      CntMember(s.mutexes[m].waiting[p], x);
      assert s.mutexes[m].waiting[p][0] in s.mutexes[m].waiting[p];
    }
  }

  /** The thread that gives m away stays in the queues it was in. */
  lemma RegrantReleaser(s: Sys, m: Mid, k: Stacks, x: Tid, rest: seq<Mid>)
    requires Core(s, x, rest) && Owns(s, m, x) && TimelyGrant(s, m) && MutexQueued(s, k, x)
    requires forall t :: t in s.threads && t != IDLE && t != x ==> Placed(s, k, true, t)
    ensures SameQueues(s, Regrant(s, m), x) && MutexQueued(Regrant(s, m), k, x)
    ensures Th(Regrant(s, m), x) == Th(s, x) && Regrant(s, m).current == s.current
  {
    OwnerNotNext(s, m, k, x);
    if HasNextOwner(Unlock(s, m), m) {
      var t := NextOwner(Unlock(s, m), m);
      assert t in s.mutexes[m].waiting[Top(s.mutexes[m].waiting)];
      assert WaiterOk(s, Top(s.mutexes[m].waiting), t);
      RegrantCounts(s, m, k, t, x);
      RegrantShape(s, m, t);
    }
    SeatsFrame(s, Regrant(s, m), k, x);
  }

  lemma DroppedPlaces(s: Sys, m: Mid, k: Stacks)
    requires AllPlaced(s, k, true) && s.current in s.threads && s.current != IDLE
    ensures AllPlaced(Dropped(s, m), k, true)
  {
    var s1 := Dropped(s, m);
    forall u | u in s1.threads && u != IDLE ensures Placed(s1, k, true, u) {
      assert Placed(s, k, true, u);
      if u != s.current {
        PlacedFrame(s, s1, k, true, true, u);
      } else {
        assert Queued(s1, u);
        SeatsFrame(s, s1, k, u);
      }
    }
  }

  /** The current thread, outside every acquire, gives m away. */
  lemma GivePlaces(s: Sys, m: Mid, k: Stacks, rest: seq<Mid>)
    requires Core(s, s.current, rest) && Owns(s, m, s.current) && TimelyGrant(s, m)
    requires AllPlaced(s, k, true) && s.current != IDLE && s.current !in k.cont
    ensures AllPlaced(Regrant(s, m), k, true)
  {
    var x, s' := s.current, Regrant(s, m);
    assert Placed(s, k, true, x);
    RegrantReleaser(s, m, k, x, rest);
    OwnerNotNext(s, m, k, x);
    RegrantIdle(s, m);
    forall u | u in s'.threads && u != IDLE ensures Placed(s', k, true, u) {
      if u != x {
        NewOwnerIsThread(s, m, x, rest);
        RegrantPlaces(s, m, k, x, rest, u);
      } else {
        assert Queued(s', x);
      }
    }
  }

  lemma NewOwnerIsThread(s: Sys, m: Mid, x: Tid, rest: seq<Mid>)
    requires Core(s, x, rest) && m in s.mutexes
    ensures Regrant(s, m).threads.Keys == s.threads.Keys
  {
    if HasNextOwner(Unlock(s, m), m) {
      var qs := s.mutexes[m].waiting;
      assert qs[Top(qs)][0] in qs[Top(qs)];
      assert WaiterOk(s, Top(qs), qs[Top(qs)][0]);
    }
  }

  lemma ReleasePlaces(w: World, m: Mid, leave: bool)
    requires QueueInv(w, leave) && Enabled(w, DoRelease(m)) && Timely(w, DoRelease(m))
    ensures Exclusive(Step(w, DoRelease(m), leave), leave)
  {
    hide Placed, OwnersOk, WaitersOk, Regrant, Yield, Cnt, RemoveFirst;
    var s, k := w.sys, StacksOf(w, leave);
    if Owns(s, m, s.current) {
      var rest, held := Th(s, s.current).mHeld, RemoveFirst(Th(s, s.current).mHeld, m);
      var s1 := Dropped(s, m);
      DropHeld(s, m);
      DroppedPlaces(s, m, k);
      GivePlaces(s1, m, k, rest);
      RegrantKeeps(s1, m, s.current, rest, held);
      if Preempts(s1, m, PrioOf(s, s.current)) { YieldPlaces(Regrant(s1, m), k); }
    }
  }

  // ----- terminate -----

  /** The first of t's mutexes is handed over. */
  lemma HandOverOne(s: Sys, t: Tid, held: seq<Mid>, k: Stacks)
    requires Core(s, t, held) && held != [] && MutexQueued(s, k, t) && TimelyGrant(s, held[0])
    requires forall u :: u in s.threads && u != IDLE && u != t ==> Placed(s, k, true, u)
    ensures var s' := Regrant(s, held[0]);
            && StillHeld(s, t, held) == held[1..] && Core(s', t, held[1..]) && MutexQueued(s', k, t)
            && (forall u :: u in s'.threads && u != IDLE && u != t ==> Placed(s', k, true, u))
            && SameQueues(s, s', t) && Th(s', t) == Th(s, t) && Th(s', IDLE) == Th(s, IDLE)
            && s'.threads.Keys == s.threads.Keys && s'.current == s.current
  {
    var m := held[0];
    HeadOwned(s, t, held);
    OwnerNotNext(s, m, k, t);
    RegrantReleaser(s, m, k, t, held);
    RegrantIdle(s, m);
    NewOwnerIsThread(s, m, t, held);
    forall u | u in s.threads && u != IDLE && u != t ensures Placed(Regrant(s, m), k, true, u) {
      RegrantPlaces(s, m, k, t, held, u);
    }
    assert held[1..] + [] == held[1..];
  }

  lemma {:induction false} ReleaseAllPlaces(s: Sys, t: Tid, held: seq<Mid>, prio: Prio, k: Stacks)
    requires Core(s, t, held) && MutexQueued(s, k, t) && TimelyGrants(s, t, held)
    requires forall u :: u in s.threads && u != IDLE && u != t ==> Placed(s, k, true, u)
    ensures var s' := ReleaseAll(s, t, held, prio).0;
            && (forall u :: u in s'.threads && u != IDLE && u != t ==> Placed(s', k, true, u))
            && SameQueues(s, s', t) && MutexQueued(s', k, t) && Th(s', t) == Th(s, t)
            && Th(s', IDLE) == Th(s, IDLE) && s'.threads.Keys == s.threads.Keys && s'.current == s.current
    decreases HandOvers(s, t, held)
  {
    if held != [] {
      HandOverProgress(s, t, held);
      HandOverOne(s, t, held, k);
      ReleaseAllPlaces(Regrant(s, held[0]), t, held[1..], prio, k);
    }
  }

  /** What the queues say about t before it is taken out of them, `was` being its state. */
  ghost predicate QueuedAs(s: Sys, k: Stacks, t: Tid, was: ThreadState) {
    var c := Th(s, t);
    && (forall p: Prio :: Cnt(s.ready[p], t) == if was == Ready && p == c.priority then 1 else 0)
    && (forall p: Prio :: Cnt(s.waiting[p], t) == if was == Waiting && p == c.waitingFor then 1 else 0)
    && MutexQueued(s, k, t) && NO_MUTEX !in s.mutexes
    && (c.mWants != NO_MUTEX <==> was == Waiting && c.waitingFor == WAITING_MUTEX)
    && (c.mWants != NO_MUTEX && t in k.cont ==> k.cont[t].mid == c.mWants)
    && (was == Waiting ==> c.waitingFor <= 2)
    && (c.infinite ==> was == Waiting)
  }

  ghost predicate Unqueued(s: Sys, s': Sys, k: Stacks, t: Tid, u: Tid) {
    && s'.current == s.current
    && (u != t ==> Untouched(s, s', u))
    && (forall p: Prio :: Cnt(s'.ready[p], t) == 0 && Cnt(s'.waiting[p], t) == 0)
    && MutexQueued(s', k, t)
    && Th(s', t).mWants == NO_MUTEX && !Th(s', t).infinite
    && Th(s', t).state == Th(s, t).state && Th(s', t).mHeld == Th(s, t).mHeld
  }

  lemma UnqueueReady(s: Sys, k: Stacks, t: Tid, u: Tid)
    requires QueuedAs(s, k, t, Ready)
    ensures Unqueued(s, RemoveFromReady(s, t), k, t, u)
  {
    EraseCounts(s.ready, t, Th(s, t).priority, u);
    EraseCounts(s.ready, t, Th(s, t).priority, t);
    SeatsFrame(s, RemoveFromReady(s, t), k, t);
  }

  /** The queue of the mutex it wants holds a waiter once, at its priority. */
  lemma WantedCounts(s: Sys, k: Stacks, t: Tid)
    requires MutexQueued(s, k, t) && Th(s, t).mWants != NO_MUTEX
    ensures var c := Th(s, t);
            c.mWants in s.mutexes && forall q: Prio ::
              Cnt(s.mutexes[c.mWants].waiting[q], t) == if q == c.priority then 1 else 0
  {
    var c := Th(s, t);
    forall q: Prio | q != c.priority ensures Cnt(s.mutexes[c.mWants].waiting[q], t) == 0 {
      assert !Seated(s, k, t, c.mWants, q);
    }
  }

  /** A waiter leaves the queue of the mutex it wants. */
  lemma StopWaitingPlaces(s: Sys, k: Stacks, t: Tid, u: Tid)
    requires MutexQueued(s, k, t) && Th(s, t).mWants != NO_MUTEX && NO_MUTEX !in s.mutexes
    requires t in k.cont ==> k.cont[t].mid == Th(s, t).mWants
    ensures var s' := StopWaiting(s, Th(s, t).mWants, t);
            && (u != t ==> Untouched(s, s', u)) && MutexQueued(s', k, t)
            && (forall n, p: Prio :: n in s'.mutexes ==> Cnt(s'.mutexes[n].waiting[p], t) == 0)
            && s'.threads == s.threads[t := Th(s, t).(mWants := NO_MUTEX)]
            && (var m := Th(s, t).mWants;
                s'.mutexes == s.mutexes[m := s.mutexes[m].(waiting := Erase(s.mutexes[m].waiting, t))])
            && s'.ready == s.ready && s'.waiting == s.waiting && s'.current == s.current
  {
    var c, m := Th(s, t), Th(s, t).mWants;
    WantedCounts(s, k, t);
    EraseCounts(s.mutexes[m].waiting, t, c.priority, u);
    EraseCounts(s.mutexes[m].waiting, t, c.priority, t);
    var s' := StopWaiting(s, m, t);
    forall n, p: Prio | n in s'.mutexes ensures Cnt(s'.mutexes[n].waiting[p], t) == 0 {
      if n != m { assert !Seated(s, k, t, n, p); }
    }
  }

  lemma UnqueueWaiting(s: Sys, k: Stacks, t: Tid, u: Tid)
    requires QueuedAs(s, k, t, Waiting)
    ensures Unqueued(s, Unqueue(s, t, Waiting), k, t, u)
  {
    var c := Th(s, t);
    var s1 := if c.waitingFor == WAITING_MUTEX then StopWaiting(s, c.mWants, t) else s;
    if c.waitingFor == WAITING_MUTEX { StopWaitingPlaces(s, k, t, u); }
    var s2 := Unqueue(s, t, Waiting);
    EraseCounts(s1.waiting, t, c.waitingFor, u);
    EraseCounts(s1.waiting, t, c.waitingFor, t);
    SeatsFrame(s1, s2, k, t);
  }

  lemma UnqueuePlaces(s: Sys, k: Stacks, t: Tid, was: ThreadState, u: Tid)
    requires QueuedAs(s, k, t, was)
    ensures Unqueued(s, Unqueue(s, t, was), k, t, u)
  {
    match was
    case Ready => UnqueueReady(s, k, t, u);
    case Waiting => UnqueueWaiting(s, k, t, u);
    case _ =>
  }

  lemma MarkDead(s: Sys, t: Tid, k: Stacks)
    requires Core(s, s.current, Th(s, s.current).mHeld) && t in s.threads && t != IDLE
    requires AllPlaced(s, k, true)
    ensures var s1 := Killed(s, t);
            && Core(s1, t, Th(s, t).mHeld)
            && (forall u :: u in s1.threads && u != IDLE && u != t ==> Placed(s1, k, true, u))
            && QueuedAs(s1, k, t, Th(s, t).state)
  {
    var s1 := Killed(s, t);
    KilledKeeps(s, t);
    forall u | u in s1.threads && u != IDLE && u != t ensures Placed(s1, k, true, u) {
      PlacedFrame(s, s1, k, true, true, u);
    }
    assert Placed(s, k, true, t);
    SeatsFrame(s, s1, k, t);
  }

  /** The first half: t is dead, its mutexes are handed over, and it is still queued as before. */
  lemma HandOverPlaces(s: Sys, t: Tid, k: Stacks, r: (Sys, bool))
    requires Core(s, s.current, Th(s, s.current).mHeld) && t in s.threads && t != IDLE
    requires AllPlaced(s, k, true) && TimelyGrants(Killed(s, t), t, Th(s, t).mHeld)
    requires r == ReleaseAll(Killed(s, t), t, Th(s, t).mHeld, PrioOf(s, s.current))
    ensures forall u :: u in r.0.threads && u != IDLE && u != t ==> Placed(r.0, k, true, u)
    ensures QueuedAs(SetTh(r.0, t, Th(r.0, t).(mHeld := [])), k, t, Th(s, t).state)
    ensures Th(r.0, t).state == Dead && Th(r.0, IDLE) == Th(s, IDLE)
    ensures r.0.current == s.current && r.0.threads.Keys == s.threads.Keys
  {
    hide ReleaseAll, TimelyGrants, Placed;
    var held, prio := Th(s, t).mHeld, PrioOf(s, s.current);
    MarkDead(s, t, k);
    ReleaseAllPlaces(Killed(s, t), t, held, prio, k);
    ReleaseAllKeeps(Killed(s, t), t, held, prio);
    StillQueuedAs(Killed(s, t), r.0, k, t, Th(s, t).state);
  }

  lemma StillQueuedAs(s: Sys, s': Sys, k: Stacks, t: Tid, was: ThreadState)
    requires QueuedAs(s, k, t, was) && SameQueues(s, s', t) && MutexQueued(s', k, t) && Th(s', t) == Th(s, t)
    requires NO_MUTEX !in s'.mutexes
    ensures QueuedAs(SetTh(s', t, Th(s', t).(mHeld := [])), k, t, was)
  {
    SeatsFrame(s', SetTh(s', t, Th(s', t).(mHeld := [])), k, t);
  }

  lemma TerminatePlaces(w: World, t: Tid, leave: bool)
    requires QueueInv(w, leave) && Enabled(w, DoTerminate(t)) && Timely(w, DoTerminate(t))
    ensures Exclusive(Step(w, DoTerminate(t), leave), leave)
  {
    hide Queued, MutexQueued, OwnersOk, WaitersOk;
    var s, k := w.sys, StacksOf(w, leave);
    if t in s.threads && Th(s, t).state != Dead {
      var was := Th(s, t).state;
      var r := HandOver(s, t);
      HandOverPlaces(s, t, k, r);
      var s2 := SetTh(r.0, t, Th(r.0, t).(mHeld := []));
      UnqueueKeeps(s2, t, was, t, []);
      assert Placed(s, k, true, t);
      BuryPlaces(r.0, s2, t, was, k);
      var s3 := Unqueue(s2, t, was);
      if was == Running {
        ScheduleNextKeeps(s3, t, []);
        Dispatch(s3, k);
      } else if r.1 {
        YieldPlaces(s3, k);
      }
    }
  }

  lemma BuryPlaces(s: Sys, s2: Sys, t: Tid, was: ThreadState, k: Stacks)
    requires forall u :: u in s.threads && u != IDLE && u != t ==> Placed(s, k, true, u)
    requires s2 == SetTh(s, t, Th(s, t).(mHeld := [])) && QueuedAs(s2, k, t, was) && t in s.threads && t != IDLE
    requires Th(s, t).state == Dead && (was == Running <==> t == s.current)
    requires Th(s, IDLE).state == (if s.current == IDLE then Running else Ready) && Th(s, IDLE).mWants == NO_MUTEX
    requires Unqueue(s2, t, was).threads.Keys == s.threads.Keys && (t in k.pending ==> t !in k.cont)
    ensures AllPlaced(Unqueue(s2, t, was), k, was != Running)
  {
    hide Queued, MutexQueued, TimersOk, StackOk, Unqueue;
    var s3 := Unqueue(s2, t, was);
    forall u | u in s3.threads && u != IDLE ensures Placed(s3, k, was != Running, u) {
      UnqueuePlaces(s2, k, t, was, u);
      if u != t {
        assert Untouched(s, s3, u) by { assert Untouched(s, s2, u); }
        PlacedFrame(s, s3, k, true, was != Running, u);
      } else {
        BuriedIsPlaced(s3, t, k, was != Running);
      }
    }
    UnqueuePlaces(s2, k, t, was, IDLE);
  }

  lemma BuriedIsPlaced(s: Sys, t: Tid, k: Stacks, on: bool)
    requires forall p: Prio :: Cnt(s.ready[p], t) == 0 && Cnt(s.waiting[p], t) == 0
    requires MutexQueued(s, k, t) && (t in k.pending ==> t !in k.cont)
    requires Th(s, t).state == Dead && Th(s, t).mWants == NO_MUTEX && !Th(s, t).infinite && Th(s, t).mHeld == []
    requires !(on && t == s.current)
    ensures Placed(s, k, on, t)
  {
    assert Queued(s, t);
  }

  // ----- the alarm -----

  lemma CntConcat(a: seq<nat>, b: seq<nat>, x: nat)
    ensures Cnt(a + b, x) == Cnt(a, x) + Cnt(b, x)
  {
    assert multiset(a + b) == multiset(a) + multiset(b);
  }

  /** The state half way through a sweep: queue r still holds `kept` and `left`. */
  ghost function Midway(s: Sys, r: Prio, kept: seq<Tid>, left: seq<Tid>): Sys {
    s.(waiting := s.waiting[r := kept + left])
  }

  lemma SweptIsWaiting(s: Sys, r: Prio, kept: seq<Tid>, left: seq<Tid>, k: Stacks)
    requires left != [] && AllPlaced(Midway(s, r, kept, left), k, true)
    requires left[0] in s.threads && left[0] != IDLE
    ensures Th(s, left[0]).state == Waiting && Th(s, left[0]).waitingFor == r && r <= 2
  {
    var v := Midway(s, r, kept, left);
    assert Placed(v, k, true, left[0]);
    CntMember(kept + left, left[0]);
    assert (kept + left)[|kept|] == left[0];
    assert Cnt(v.waiting[r], left[0]) >= 1;
  }

  lemma TickPlaces(s: Sys, r: Prio, kept: seq<Tid>, left: seq<Tid>, k: Stacks)
    requires left != [] && AllPlaced(Midway(s, r, kept, left), k, true)
    requires left[0] in s.threads && left[0] != IDLE && r != WAITING_IO
    ensures var c, c' := Th(s, left[0]), Th(DecrementTicks(s, left[0]), left[0]);
            && c.ticks >= 1 && c' == c.(ticks := if c.infinite then c.ticks else c.ticks - 1)
    ensures Th(DecrementTicks(s, left[0]), left[0]).ticks >= 1 ==>
              AllPlaced(Midway(DecrementTicks(s, left[0]), r, kept + [left[0]], left[1..]), k, true)
  {
    var t := left[0];
    var v := Midway(s, r, kept, left);
    SweptIsWaiting(s, r, kept, left, k);
    assert Placed(v, k, true, t);
    var s1 := DecrementTicks(s, t);
    var v1 := Midway(s1, r, kept + [t], left[1..]);
    assert kept + [t] + left[1..] == kept + left;
    if Th(s1, t).ticks >= 1 {
      forall u | u in v1.threads && u != IDLE ensures Placed(v1, k, true, u) {
        assert Placed(v, k, true, u);
        if u != t {
          PlacedFrame(v, v1, k, true, true, u);
        } else {
          assert Queued(v1, t);
          SeatsFrame(v, v1, k, t);
        }
      }
    }
  }

  lemma LeaveCounts(kept: seq<Tid>, left: seq<Tid>, u: Tid)
    requires left != []
    ensures Cnt(kept + left[1..], u) == Cnt(kept + left, u) - (if u == left[0] then 1 else 0)
  {
    CntConcat(kept, left, u);
    CntConcat(kept, left[1..], u);
    CntPop(left, u);
  }

  lemma WakeSleeperPlaces(s: Sys, kept: seq<Tid>, left: seq<Tid>, k: Stacks)
    requires left != [] && AllPlaced(Midway(s, WAITING_SLEEP, kept, left), k, true)
    requires left[0] in s.threads && left[0] != IDLE
    ensures AllPlaced(Midway(WakeSleeper(DecrementTicks(s, left[0]), left[0]), WAITING_SLEEP, kept, left[1..]), k, true)
  {
    var t := left[0];
    var v := Midway(s, WAITING_SLEEP, kept, left);
    SweptIsWaiting(s, WAITING_SLEEP, kept, left, k);
    assert Placed(v, k, true, t);
    var v1 := Midway(WakeSleeper(DecrementTicks(s, t), t), WAITING_SLEEP, kept, left[1..]);
    var c1 := Th(DecrementTicks(s, t), t).(state := Ready, waitingFor := WAITING_NOTHING, infinite := false);
    forall u | u in v1.threads && u != IDLE ensures Placed(v1, k, true, u) {
      assert Placed(v, k, true, u);
      LeaveCounts(kept, left, u);
      SeatsFrame(v, v1, k, t);
      LeaveQueue(v, v1, WAITING_SLEEP, t, c1, k, u);
    }
  }

  /** A thread leaves waiting queue r, ready and waiting for nothing, while no mutex changes hands. */
  lemma LeaveQueue(v: Sys, v1: Sys, r: Prio, t: Tid, c1: Tcb, k: Stacks, u: Tid)
    requires Placed(v, k, true, u) && Th(v, t).state == Waiting && Th(v, t).waitingFor == r && r != WAITING_IO
    requires v1.threads == v.threads[t := c1] && v1.ready == Push(v.ready, Th(v, t).priority, t)
    requires v1.waiting == v.waiting[r := v1.waiting[r]]
    requires Cnt(v1.waiting[r], u) == Cnt(v.waiting[r], u) - (if u == t then 1 else 0)
    requires v1.current == v.current && (forall m :: Owns(v, m, u) <==> Owns(v1, m, u))
    requires u != t ==> SameMutexQueues(v, v1, u)
    requires u == t ==> MutexQueued(v1, k, t) && (t in k.cont ==> Served(v1, k, t))
    requires c1.state == Ready && c1.priority == Th(v, t).priority && c1.mHeld == Th(v, t).mHeld
    requires c1.mWants == NO_MUTEX && !c1.infinite
    ensures Placed(v1, k, true, u)
  {
    PushCounts(v.ready, Th(v, t).priority, t, u);
    if u != t {
      PlacedFrame(v, v1, k, true, true, u);
    } else {
      assert Queued(v1, t);
    }
  }

  lemma {:induction false} SweepSleepPlaces(s: Sys, kept: seq<Tid>, left: seq<Tid>, k: Stacks)
    requires AllPlaced(Midway(s, WAITING_SLEEP, kept, left), k, true)
    requires Sleepers(s, left)
    ensures AllPlaced(SweepSleep(s, kept, left), k, true)
    decreases |left|
  {
    if left == [] {
      assert kept + left == kept;
    } else {
      var t := left[0];
      assert t in left;
      var s1 := DecrementTicks(s, t);
      TickPlaces(s, WAITING_SLEEP, kept, left, k);
      if Th(s1, t).ticks == 0 {
        WakeSleeperPlaces(s, kept, left, k);
        SweepSleepPlaces(WakeSleeper(s1, t), kept, left[1..], k);
      } else {
        SweepSleepPlaces(s1, kept + [t], left[1..], k);
      }
    }
  }

  /** A waiter whose finite timeout ends. As written it stays in the mutex's queue. */
  lemma ExpirePlaces(s: Sys, kept: seq<Tid>, left: seq<Tid>, k: Stacks)
    requires left != [] && AllPlaced(Midway(s, WAITING_MUTEX, kept, left), k, true)
    requires left[0] in s.threads && left[0] != IDLE && NO_MUTEX !in s.mutexes
    requires !Th(s, left[0]).infinite
    ensures AllPlaced(Midway(ExpireWaiter(DecrementTicks(s, left[0]), left[0], !k.late), WAITING_MUTEX, kept,
                             left[1..]), k, true)
  {
    hide Queued, Served, Seated, DecrementTicks, ExpireWaiter;
    var t := left[0];
    var v := Midway(s, WAITING_MUTEX, kept, left);
    SweptIsWaiting(s, WAITING_MUTEX, kept, left, k);
    assert Placed(v, k, true, t);
    var s2 := ExpireWaiter(DecrementTicks(s, t), t, !k.late);
    var v1 := Midway(s2, WAITING_MUTEX, kept, left[1..]);
    SeatsFrame(v, s, k, t);
    ExpireShape(s, t, k);
    forall u | u in v1.threads && u != IDLE ensures Placed(v1, k, true, u) {
      assert Placed(v, k, true, u);
      LeaveCounts(kept, left, u);
      if k.late { LapseInQueue(v, v1, k, t); } else { LeaveMutexQueue(v, v1, k, t, u); }
      LeaveQueue(v, v1, WAITING_MUTEX, t, Th(s2, t), k, u);
    }
  }

  /** The waiter becomes ready and keeps its place in the mutex's queue. */
  lemma LapseInQueue(v: Sys, v1: Sys, k: Stacks, t: Tid)
    requires Placed(v, k, true, t) && WaitsForMutex(Th(v, t)) && !Th(v, t).infinite && k.late && NO_MUTEX !in v.mutexes
    requires v1.mutexes == v.mutexes && Th(v1, t).state == Ready && PrioOf(v1, t) == PrioOf(v, t)
             && Th(v1, t).mWants == NO_MUTEX
    ensures MutexQueued(v1, k, t) && Served(v1, k, t)
  {
    assert forall m, p: Prio :: m in v.mutexes && Seated(v, k, t, m, p) ==> Seated(v1, k, t, m, p);
  }

  /** The waiter leaves the mutex's queue. */
  lemma LeaveMutexQueue(v: Sys, v1: Sys, k: Stacks, t: Tid, u: Tid)
    requires Placed(v, k, true, t) && WaitsForMutex(Th(v, t)) && !Th(v, t).infinite && !k.late && NO_MUTEX !in v.mutexes
    requires v1.mutexes == StopWaiting(v, Th(v, t).mWants, t).mutexes && Th(v1, t).mWants == NO_MUTEX
    ensures u != t ==> SameMutexQueues(v, v1, u)
    ensures MutexQueued(v1, k, t) && Served(v1, k, t)
    ensures forall n, k :: Owns(v, n, k) <==> Owns(v1, n, k)
  {
    StopWaitingPlaces(v, k, t, u);
  }

  lemma ExpireShape(s: Sys, t: Tid, k: Stacks)
    requires MutexQueued(s, k, t) && Th(s, t).mWants != NO_MUTEX && NO_MUTEX !in s.mutexes && t in s.threads
    requires t in k.cont ==> k.cont[t].mid == Th(s, t).mWants
    ensures var s2 := ExpireWaiter(DecrementTicks(s, t), t, !k.late);
            && s2.mutexes == (if k.late then s.mutexes else StopWaiting(s, Th(s, t).mWants, t).mutexes)
            && s2.threads == s.threads[t := Th(s, t).(state := Ready, waitingFor := WAITING_NOTHING, ticks := 0,
                                                      infinite := false, mWants := NO_MUTEX)]
            && s2.ready == Push(s.ready, PrioOf(s, t), t) && s2.waiting == s.waiting && s2.current == s.current
  {
    StopWaitingPlaces(s, k, t, t);
  }

  /** A waiter never already holds the mutex it waits for. */
  lemma WaiterLacksMutex(s: Sys, k: Stacks, t: Tid, x: Tid, rest: seq<Mid>)
    requires Core(s, x, rest) && Th(s, x).mHeld == rest && MutexQueued(s, k, t) && Th(s, t).mWants != NO_MUTEX
    ensures !HasMutex(Th(s, t))
  {
    var c := Th(s, t);
    assert Seated(s, k, t, c.mWants, c.priority);
    assert Cnt(HeldOf(s, t, x, rest), c.mWants) == 0;
    CntMember(c.mHeld, c.mWants);
  }

  lemma {:induction false} SweepMutexPlaces(s: Sys, kept: seq<Tid>, left: seq<Tid>, k: Stacks, x: Tid, rest: seq<Mid>)
    requires AllPlaced(Midway(s, WAITING_MUTEX, kept, left), k, true)
    requires Sleepers(s, left)
    requires Core(s, x, rest) && Th(s, x).mHeld == rest
    ensures AllPlaced(SweepMutex(s, kept, left, !k.late), k, true)
    decreases |left|
  {
    if left == [] {
      assert kept + left == kept;
    } else {
      var t := left[0];
      assert t in left;
      var s1 := DecrementTicks(s, t);
      DecrementTicksKeeps(s, t, x, rest);
      TickPlaces(s, WAITING_MUTEX, kept, left, k);
      SweptIsWaiting(s, WAITING_MUTEX, kept, left, k);
      assert Placed(Midway(s, WAITING_MUTEX, kept, left), k, true, t);
      SeatsFrame(Midway(s, WAITING_MUTEX, kept, left), s1, k, t);
      WaiterLacksMutex(s1, k, t, x, rest);
      if Th(s1, t).ticks == 0 {
        ExpirePlaces(s, kept, left, k);
        ExpireWaiterKeeps(s1, t, !k.late, x, rest);
        SweepMutexPlaces(ExpireWaiter(s1, t, !k.late), kept, left[1..], k, x, rest);
      } else {
        SweepMutexPlaces(s1, kept + [t], left[1..], k, x, rest);
      }
    }
  }

  lemma AlarmPlaces(w: World, leave: bool)
    requires QueueInv(w, leave) && Enabled(w, DoAlarm)
    ensures Exclusive(Step(w, DoAlarm, leave), leave)
  {
    hide Placed, OwnersOk, WaitersOk, SweepSleep, SweepMutex;
    var s, k := w.sys, StacksOf(w, leave);
    var x, rest := s.current, Th(s, s.current).mHeld;
    var q := s.waiting[WAITING_SLEEP];
    assert Midway(s, WAITING_SLEEP, [], q) == s by { assert [] + q == q; }
    SweepSleepPlaces(s, [], q, k);
    SweepSleepKeeps(s, [], q, x, rest);
    var s1 := SweepSleep(s, [], q);
    var q1 := s1.waiting[WAITING_MUTEX];
    assert Midway(s1, WAITING_MUTEX, [], q1) == s1 by { assert [] + q1 == q1; }
    SweepMutexPlaces(s1, [], q1, k, x, rest);
    SweepMutexKeeps(s1, [], q1, leave, x, rest);
    YieldPlaces(ProcessAllWaiting(s, leave), k);
  }

  // ----- the remaining entry points -----

  lemma ForgetPlaces(s: Sys, k: Stacks, t: Tid, on: bool, u: Tid)
    requires Placed(s, k, on, u) && u != t
    ensures Placed(s, k.(cont := k.cont - {t}), on, u)
  {
    StackFrame(s, k, k.(cont := k.cont - {t}), on, u);
  }

  lemma ActivatePlaces(w: World, t: Tid, leave: bool)
    requires QueueInv(w, leave) && Enabled(w, DoActivate(t)) && Timely(w, DoActivate(t))
    ensures Exclusive(Step(w, DoActivate(t), leave), leave)
  {
    var s, k := w.sys, StacksOf(w, leave);
    if t in s.threads && Th(s, t).state == Dead {
      ReviveOne(s, k, t);
      ReadyKeepsMembers(s, t);
      if PrioOf(s, t) > PrioOf(s, s.current) { YieldPlaces(AddToReady(s, t), k.(cont := k.cont - {t})); }
    }
  }

  lemma ReviveOne(s: Sys, k: Stacks, t: Tid)
    requires AllPlaced(s, k, true) && t in s.threads && Th(s, t).state == Dead && t !in k.pending && !InMutexQueue(s, t)
    ensures AllPlaced(AddToReady(s, t), k.(cont := k.cont - {t}), true)
  {
    var s1, k1 := AddToReady(s, t), k.(cont := k.cont - {t});
    forall u | u in s1.threads && u != IDLE ensures Placed(s1, k1, true, u) {
      assert Placed(s, k, true, u);
      PushCounts(s.ready, PrioOf(s, t), t, u);
      if u != t {
        PlacedFrame(s, s1, k, true, true, u);
        ForgetPlaces(s1, k, t, true, u);
      } else {
        assert Queued(s1, t);
        NotInMutexQueue(s, t);
      }
    }
  }

  lemma NotInMutexQueue(s: Sys, t: Tid)
    requires !InMutexQueue(s, t)
    ensures forall m, p: Prio :: m in s.mutexes ==> Cnt(s.mutexes[m].waiting[p], t) == 0
  {
    forall m, p: Prio | m in s.mutexes ensures Cnt(s.mutexes[m].waiting[p], t) == 0 {
      CntMember(s.mutexes[m].waiting[p], t);
      assert !InQueues(s.mutexes[m].waiting, t);
    }
  }

  lemma SleepPlaces(w: World, n: Tick, leave: bool)
    requires QueueInv(w, leave) && Enabled(w, DoSleep(n))
    ensures Exclusive(Step(w, DoSleep(n), leave), leave)
  {
    if n == TIMEOUT_IMMEDIATE {
      YieldPlaces(w.sys, StacksOf(w, leave));
    } else if n != TIMEOUT_INFINITE {
      AsleepPlaces(w.sys, n, StacksOf(w, leave));
    }
  }

  lemma AsleepPlaces(s: Sys, n: Tick, k: Stacks)
    requires AllPlaced(s, k, true) && s.current != IDLE && s.current !in k.cont
    requires Core(s, s.current, Th(s, s.current).mHeld) && IdleOk(s) && n >= 1
    ensures var s1 := SetTh(s, s.current, Th(s, s.current).(ticks := n));
            AllPlaced(ScheduleNext(Block(s1, s.current, WAITING_SLEEP)), k, true)
  {
    var s1 := SetTh(s, s.current, Th(s, s.current).(ticks := n));
    SetTicksPlaces(s, n, k);
    CoreFrame(s, s1, s.current, Th(s, s.current).mHeld);
    AwayForAWhile(s1, WAITING_SLEEP, k);
  }

  lemma AwayForAWhile(s: Sys, reason: Prio, k: Stacks)
    requires AllPlaced(s, k, true) && s.current != IDLE && s.current !in k.cont
    requires Core(s, s.current, Th(s, s.current).mHeld) && IdleOk(s)
    requires reason == WAITING_IO || (reason == WAITING_SLEEP && Th(s, s.current).ticks >= 1)
    ensures AllPlaced(ScheduleNext(Block(s, s.current, reason)), Asking(k, reason, s.current), true)
  {
    var rest := Th(s, s.current).mHeld;
    BlockCurrent(s, k, reason);
    BlockKeeps(s, reason, s.current, rest);
    ScheduleNextKeeps(Block(s, s.current, reason), s.current, rest);
    Dispatch(Block(s, s.current, reason), Asking(k, reason, s.current));
  }

  lemma SetTicksPlaces(s: Sys, n: Tick, k: Stacks)
    requires AllPlaced(s, k, true) && s.current in s.threads && s.current != IDLE
    ensures AllPlaced(SetTh(s, s.current, Th(s, s.current).(ticks := n)), k, true)
  {
    var t := s.current;
    var s1 := SetTh(s, t, Th(s, t).(ticks := n));
    forall u | u in s1.threads && u != IDLE ensures Placed(s1, k, true, u) {
      assert Placed(s, k, true, u);
      if u != t {
        PlacedFrame(s, s1, k, true, true, u);
      } else {
        assert Queued(s1, t);
        SeatsFrame(s, s1, k, t);
      }
    }
  }

  lemma SubmitIOPlaces(w: World, leave: bool)
    requires QueueInv(w, leave) && Enabled(w, DoSubmitIO)
    ensures Exclusive(Step(w, DoSubmitIO, leave), leave)
  {
    AwayForAWhile(w.sys, WAITING_IO, StacksOf(w, leave));
  }

  lemma ReplyStepPlaces(w: World, t: Tid, leave: bool)
    requires QueueInv(w, leave) && Enabled(w, DoReply(t))
    ensures Exclusive(Step(w, DoReply(t), leave), leave)
  {
    var s, k := w.sys, StacksOf(w, leave);
    var k1 := k.(pending := k.pending - {t});
    assert t in s.threads && t != IDLE;
    if Th(s, t).state != Dead {
      var rest := Th(s, s.current).mHeld;
      ReplyPlaces(s, k, t);
      RemoveFromWaitingKeeps(s, t, s.current, rest);
      var s1 := AddToReady(RemoveFromWaiting(s, t), t);
      AddToReadyKeeps(RemoveFromWaiting(s, t), t, s.current, rest);
      if PrioOf(s, t) > PrioOf(s, s.current) { YieldPlaces(s1, k1); }
    } else {
      forall u | u in s.threads && u != IDLE ensures Placed(s, k1, true, u) {
        assert Placed(s, k, true, u);
        if u != t { StackFrame(s, k, k1, true, u); } else { DeadPlaces(s, k, k1, t); }
      }
    }
  }

  /** A dead thread stays placed whatever becomes of its file request. */
  lemma DeadPlaces(s: Sys, k: Stacks, k1: Stacks, t: Tid)
    requires Placed(s, k, true, t) && Th(s, t).state == Dead && k1 == k.(pending := k.pending - {t})
    ensures Placed(s, k1, true, t)
  {
    assert forall m, p: Prio :: Seated(s, k1, t, m, p) == Seated(s, k, t, m, p);
  }

  /** In a mutex's queue a resuming acquirer stands once, or not at all. */
  lemma ResumerCounts(s: Sys, k: Stacks, m: Mid, u: Tid)
    requires Placed(s, k, true, s.current) && s.current in k.cont && m == k.cont[s.current].mid
             && NO_MUTEX !in s.mutexes
    ensures var s', t := StopWaiting(s, m, s.current), s.current;
            && (u != t ==> Untouched(s, s', u))
            && (forall n, p: Prio :: n in s'.mutexes ==> Cnt(s'.mutexes[n].waiting[p], t) == 0)
            && s'.threads == s.threads && s'.ready == s.ready && s'.waiting == s.waiting && s'.current == s.current
            && s'.mutexes.Keys == s.mutexes.Keys
  {
    var t := s.current;
    var p, s' := PrioOf(s, t), StopWaiting(s, m, t);
    forall n, q: Prio | n in s.mutexes && (n != m || q != p) ensures Cnt(s.mutexes[n].waiting[q], t) == 0 {
      assert !Seated(s, k, t, n, q);
    }
    if m in s.mutexes {
      if Cnt(s.mutexes[m].waiting[p], t) == 1 {
        EraseCounts(s.mutexes[m].waiting, t, p, u);
        EraseCounts(s.mutexes[m].waiting, t, p, t);
        InQueueIsThread(s, t);
      } else {
        AbsentErase(s.mutexes[m].waiting, t);
      }
    }
  }

  lemma InQueueIsThread(s: Sys, t: Tid)
    requires Th(s, t).mWants == NO_MUTEX && Th(s, t).state == Running
    ensures t in s.threads && SetTh(s, t, Th(s, t).(mWants := NO_MUTEX)).threads == s.threads
  {}

  lemma ResumePlaces(w: World, leave: bool)
    requires QueueInv(w, leave) && Enabled(w, DoResume)
    ensures Exclusive(Step(w, DoResume, leave), leave)
  {
    hide Served;
    var s, k := w.sys, StacksOf(w, leave);
    var t, m := s.current, w.cont[w.sys.current].mid;
    var s1, k1 := StopWaiting(s, m, t), k.(cont := k.cont - {t});
    assert Placed(s, k, true, t);
    ResumerCounts(s, k, m, t);
    forall u | u in s1.threads && u != IDLE ensures Placed(s1, k1, true, u) {
      assert Placed(s, k, true, u);
      ResumerCounts(s, k, m, u);
      if u != t {
        PlacedFrame(s, s1, k, true, true, u);
        ForgetPlaces(s1, k, t, true, u);
      } else {
        assert Queued(s1, t);
      }
    }
  }

  lemma CreatePlaces(w: World, prio: Prio, leave: bool)
    requires QueueInv(w, leave) && Enabled(w, DoCreate(prio))
    ensures Exclusive(Step(w, DoCreate(prio), leave), leave)
  {
    var s, k := w.sys, StacksOf(w, leave);
    var s1 := ThreadCreate(s, prio);
    forall u | u in s1.threads && u != IDLE ensures Placed(s1, k, true, u) {
      if u != s.nextTid {
        assert Placed(s, k, true, u);
        PlacedFrame(s, s1, k, true, true, u);
      } else {
        FreshIsPlaced(s, prio, k);
      }
    }
  }

  lemma FreshIsPlaced(s: Sys, prio: Prio, k: Stacks)
    requires MembersOk(s) && WaitersOk(s) && k.cont.Keys <= s.threads.Keys
    ensures Placed(ThreadCreate(s, prio), k, true, s.nextTid)
  {
    var t := s.nextTid;
    assert t !in s.threads;
    forall m, p: Prio | m in s.mutexes ensures Cnt(s.mutexes[m].waiting[p], t) == 0 {
      assert forall u :: u in s.mutexes[m].waiting[p] ==> WaiterOk(s, p, u);
      CntMember(s.mutexes[m].waiting[p], t);
    }
    forall p: Prio ensures Cnt(s.ready[p], t) == 0 && Cnt(s.waiting[p], t) == 0 {
      assert forall u :: u in s.ready[p] ==> u in s.threads;
      assert forall u :: u in s.waiting[p] ==> u in s.threads;
      CntMember(s.ready[p], t);
      CntMember(s.waiting[p], t);
    }
    BuriedIsPlaced(ThreadCreate(s, prio), t, k, true);
  }

  lemma DeletePlaces(w: World, t: Tid, leave: bool)
    requires QueueInv(w, leave) && Enabled(w, DoDelete(t))
    ensures Exclusive(Step(w, DoDelete(t), leave), leave)
  {
    var s, k := w.sys, StacksOf(w, leave);
    if t in s.threads && Th(s, t).state == Dead {
      var s1 := s.(threads := s.threads - {t});
      forall u | u in s1.threads && u != IDLE ensures Placed(s1, k.(cont := k.cont - {t}), true, u) {
        assert Placed(s, k, true, u);
        PlacedFrame(s, s1, k, true, true, u);
        ForgetPlaces(s1, k, t, true, u);
      }
    }
  }

  lemma MutexCreatePlaces(w: World, leave: bool)
    requires QueueInv(w, leave) && Enabled(w, DoMutexCreate)
    ensures Exclusive(Step(w, DoMutexCreate, leave), leave)
  {
    var s, k := w.sys, StacksOf(w, leave);
    var s1 := MutexCreate(s);
    forall u | u in s1.threads && u != IDLE ensures Placed(s1, k, true, u) {
      assert Placed(s, k, true, u);
      NewMutexPlaces(s, k, u);
    }
  }

  lemma NewMutexPlaces(s: Sys, k: Stacks, u: Tid)
    requires Placed(s, k, true, u) && MembersOk(s)
    ensures Placed(MutexCreate(s), k, true, u)
  {
    var s1 := MutexCreate(s);
    assert Th(s1, u) == Th(s, u) && Queued(s1, u);
    assert forall p: Prio :: NO_QUEUES[p] == [];
    assert forall m :: m in s.mutexes ==> m != s.nextMid && s1.mutexes[m] == s.mutexes[m];
    assert forall m, p: Prio :: m in s.mutexes && Seated(s, k, u, m, p) ==> Seated(s1, k, u, m, p);
  }

  lemma MutexDeletePlaces(w: World, m: Mid, leave: bool)
    requires QueueInv(w, leave) && Enabled(w, DoMutexDelete(m))
    ensures Exclusive(Step(w, DoMutexDelete(m), leave), leave)
  {
    var s, k := w.sys, StacksOf(w, leave);
    if m in s.mutexes && !Mx(s, m).locked {
      var s1 := MutexDelete(s, m).0;
      forall u | u in s1.threads && u != IDLE ensures Placed(s1, k, true, u) {
        assert Placed(s, k, true, u);
        GoneMutexPlaces(s, m, k, u);
      }
    }
  }

  lemma GoneMutexPlaces(s: Sys, m: Mid, k: Stacks, u: Tid)
    requires Placed(s, k, true, u) && m in s.mutexes && !s.mutexes[m].locked && AllEmpty(s.mutexes[m].waiting)
    ensures Placed(MutexDelete(s, m).0, k, true, u)
  {
    var s1 := MutexDelete(s, m).0;
    assert Th(s1, u) == Th(s, u) && Queued(s1, u);
    assert forall p: Prio :: Cnt(s.mutexes[m].waiting[p], u) == 0 by { assert AllEmpty(s.mutexes[m].waiting); }
    assert forall n, p: Prio :: n in s1.mutexes && Seated(s, k, u, n, p) ==> Seated(s1, k, u, n, p);
    if u in k.cont && Owns(s, k.cont[u].mid, u) { assert Owns(s1, k.cont[u].mid, u); }
  }

  // ----- acquire -----

  lemma TakePlaces(w: World, m: Mid, timeout: Tick, leave: bool)
    requires QueueInv(w, leave) && Enabled(w, DoAcquire(m, timeout)) && m in w.sys.mutexes && !w.sys.mutexes[m].locked
    ensures AllPlaced(Acquire(w.sys, m, timeout).0, StacksOf(w, leave), true)
  {
    var s, k := w.sys, StacksOf(w, leave);
    var s1 := Acquire(s, m, timeout).0;
    forall u | u in s1.threads && u != IDLE ensures Placed(s1, k, true, u) {
      assert Placed(s, k, true, u);
      if u != s.current {
        PlacedFrame(s, s1, k, true, true, u);
      } else {
        assert Queued(s1, u);
        NoSeatsTaken(s, s1, k, u);
      }
    }
  }

  /** The same when t may have gained a mutex. */
  lemma NoSeatsTaken(s: Sys, s': Sys, k: Stacks, t: Tid)
    requires MutexQueued(s, k, t) && Th(s, t).mWants == NO_MUTEX && t !in k.cont && NO_MUTEX !in s.mutexes
    requires SameMutexQueues(s, s', t) && Th(s', t).mWants == NO_MUTEX
    ensures MutexQueued(s', k, t)
  {
    assert forall m, p: Prio :: m in s.mutexes ==> !Seated(s, k, t, m, p);
  }

  ghost function Inside(k: Stacks, t: Tid, m: Mid, timeout: Tick): Stacks {
    k.(cont := k.cont[t := Cont(m, timeout == TIMEOUT_INFINITE)])
  }

  /** The current thread joins m's queue and the mutex waiting queue. */
  lemma BlockOnMutex(s: Sys, m: Mid, timeout: Tick, k: Stacks)
    requires AllPlaced(s, k, true) && s.current in s.threads && s.current != IDLE && s.current !in k.cont
    requires m in s.mutexes && NO_MUTEX !in s.mutexes && timeout != TIMEOUT_IMMEDIATE && !Owns(s, m, s.current)
    ensures AllPlaced(BlockedOn(s, m, timeout), Inside(k, s.current, m, timeout), false)
  {
    var t := s.current;
    var s', k' := BlockedOn(s, m, timeout), Inside(k, t, m, timeout);
    forall u | u in s'.threads && u != IDLE ensures Placed(s', k', false, u) {
      assert Placed(s, k, true, u);
      BlockedCounts(s, m, timeout, u);
      if u != t {
        PlacedFrame(s, s', k, true, false, u);
        StackFrame(s', k, k', false, u);
      } else {
        BlockedIsPlaced(s, m, timeout, k);
      }
    }
  }

  lemma BlockedCounts(s: Sys, m: Mid, timeout: Tick, u: Tid)
    requires m in s.mutexes
    ensures var t, s' := s.current, BlockedOn(s, m, timeout);
            && s'.ready == s.ready && s'.waiting == Push(s.waiting, WAITING_MUTEX, t)
            && s'.mutexes == s.mutexes[m := s.mutexes[m].(waiting := Push(s.mutexes[m].waiting, PrioOf(s, t), t))]
            && (u != t ==> Untouched(s, s', u))
  {
    PushCounts(s.waiting, WAITING_MUTEX, s.current, u);
    PushCounts(s.mutexes[m].waiting, PrioOf(s, s.current), s.current, u);
  }

  lemma BlockedIsPlaced(s: Sys, m: Mid, timeout: Tick, k: Stacks)
    requires Placed(s, k, true, s.current) && !Owns(s, m, s.current)
    requires m in s.mutexes && NO_MUTEX !in s.mutexes && timeout != TIMEOUT_IMMEDIATE && s.current !in k.cont
    ensures Placed(BlockedOn(s, m, timeout), Inside(k, s.current, m, timeout), false, s.current)
  {
    var t, s' := s.current, BlockedOn(s, m, timeout);
    BlockedCounts(s, m, timeout, t);
    PushCounts(s.waiting, WAITING_MUTEX, t, t);
    PushCounts(s.mutexes[m].waiting, PrioOf(s, t), t, t);
    assert Queued(s', t);
    NoSeats(s, s, k, k, t);
  }

  /** VMMutexAcquire up to the point where it gives up the processor. */
  function BlockedOn(s: Sys, m: Mid, timeout: Tick): Sys {
    var c := Th(s, s.current);
    var s1 := if timeout == TIMEOUT_INFINITE
              then SetTh(s, s.current, c.(infinite := true, ticks := 0xFFFF_FFFF))
              else SetTh(s, s.current, c.(ticks := timeout));
    Block(WantsMutex(s1, m, s.current), s.current, WAITING_MUTEX)
  }

  lemma AcquirePlaces(w: World, m: Mid, timeout: Tick, leave: bool)
    requires QueueInv(w, leave) && Enabled(w, DoAcquire(m, timeout))
    ensures Exclusive(Step(w, DoAcquire(m, timeout), leave), leave)
  {
    var s, k := w.sys, StacksOf(w, leave);
    if m in s.mutexes && !s.mutexes[m].locked {
      TakePlaces(w, m, timeout, leave);
    } else if m in s.mutexes && timeout != TIMEOUT_IMMEDIATE {
      BlockOnMutex(s, m, timeout, k);
      BlockedOnKeeps(w, m, timeout);
      Dispatch(BlockedOn(s, m, timeout), Inside(k, s.current, m, timeout));
    }
  }

  lemma BlockedOnKeeps(w: World, m: Mid, timeout: Tick)
    requires Inv(w) && Enabled(w, DoAcquire(m, timeout)) && timeout != TIMEOUT_IMMEDIATE
    requires m in w.sys.mutexes && w.sys.mutexes[m].locked
    ensures MembersOk(BlockedOn(w.sys, m, timeout)) && !AllEmpty(BlockedOn(w.sys, m, timeout).ready)
  {
    hide OwnersOk, WaitersOk;
    var s := w.sys;
    CntMember(s.ready[0], IDLE);
  }

  // ----- every run -----

  lemma StepExclusive(w: World, op: Op, leave: bool)
    requires QueueInv(w, leave) && Enabled(w, op) && Timely(w, op)
    ensures Exclusive(Step(w, op, leave), leave)
  {
    match op
    case DoCreate(prio) => CreatePlaces(w, prio, leave);
    case DoDelete(t) => DeletePlaces(w, t, leave);
    case DoActivate(t) => ActivatePlaces(w, t, leave);
    case DoTerminate(t) => TerminatePlaces(w, t, leave);
    case DoSleep(n) => SleepPlaces(w, n, leave);
    case DoMutexCreate => MutexCreatePlaces(w, leave);
    case DoMutexDelete(m) => MutexDeletePlaces(w, m, leave);
    case DoAcquire(m, timeout) => AcquirePlaces(w, m, timeout, leave);
    case DoResume => ResumePlaces(w, leave);
    case DoRelease(m) => ReleasePlaces(w, m, leave);
    case DoSubmitIO => SubmitIOPlaces(w, leave);
    case DoReply(t) => ReplyStepPlaces(w, t, leave);
    case DoAlarm => AlarmPlaces(w, leave);
  }

  lemma StepQueues(w: World, op: Op, leave: bool)
    requires QueueInv(w, leave) && Enabled(w, op) && Timely(w, op)
    ensures QueueInv(Step(w, op, leave), leave)
  {
    StepKeeps(w, op, leave);
    StepExclusive(w, op, leave);
  }

  lemma StartQueues(leave: bool)
    ensures QueueInv(START, leave)
  {
    StartInv();
    var s := BOOT;
    assert forall p: Prio :: Cnt(s.ready[p], MAIN) == 0 && Cnt(s.waiting[p], MAIN) == 0;
    assert Queued(s, MAIN) && MutexQueued(s, StacksOf(START, leave), MAIN);
    assert Placed(s, StacksOf(START, leave), true, MAIN);
  }
}
