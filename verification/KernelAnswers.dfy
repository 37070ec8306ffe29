/** What each entry point answers and leaves behind, in terms of the records alone: which threads are
    ready in which order, who runs, who owns what. Each is stated for every state that a run can reach. */
module KernelAnswers {
  import opened Kernel
  import opened KernelSafety
  import opened KernelQueues

  // ----- dispatching -----

  /** The front of the most urgent queue of `ready` was taken out and runs. */
  ghost predicate TakenFrom(ready: Queues, s': Sys) {
    exists p: Prio ::
      && ready[p] != [] && (forall q: Prio :: p < q ==> ready[q] == [])
      && s'.current == ready[p][0] && s'.ready == ready[p := ready[p][1..]] && Th(s', s'.current).state == Running
  }

  /** t stands behind the others of its priority. */
  function Behind(ready: Queues, p: Prio, t: Tid): Queues { ready[p := ready[p] + [t]] }

  lemma DispatchTakes(s: Sys)
    requires !AllEmpty(s.ready)
    ensures TakenFrom(s.ready, ScheduleNext(s))
    ensures forall u :: u != ScheduleNext(s).current ==> Th(ScheduleNext(s), u) == Th(s, u)
    ensures Th(ScheduleNext(s), ScheduleNext(s).current) == Th(s, ScheduleNext(s).current).(state := Running)
    ensures ScheduleNext(s).waiting == s.waiting && ScheduleNext(s).mutexes == s.mutexes
  {
    var p := Top(s.ready);
    assert s.ready[p] != [] && forall q: Prio :: p < q ==> s.ready[q] == [];
  }

  /** The caller goes behind the others of its priority, and the best ready thread runs. */
  lemma YieldTakes(s: Sys)
    ensures TakenFrom(Behind(s.ready, PrioOf(s, s.current), s.current), Yield(s))
    ensures Yield(s).waiting == s.waiting && Yield(s).mutexes == s.mutexes
    ensures forall u :: u != s.current && u != Yield(s).current ==> Th(Yield(s), u) == Th(s, u)
    ensures Yield(s).current != s.current ==> Th(Yield(s), s.current) == Th(s, s.current).(state := Ready)
    ensures Th(Yield(s), Yield(s).current) == Th(s, Yield(s).current).(state := Running)
  {
    var s1 := AddToReady(s, s.current);
    assert s1.ready[PrioOf(s, s.current)] != [];
    DispatchTakes(s1);
  }

  /** A thread more urgent than all ready ones is taken at once. */
  lemma MostUrgentRuns(ready: Queues, p: Prio, t: Tid, s': Sys)
    requires ready[p] == [t] && (forall q: Prio :: p < q ==> ready[q] == []) && TakenFrom(ready, s')
    ensures s'.current == t && s'.ready == ready[p := []]
  {
    var k: Prio :| && ready[k] != [] && (forall q: Prio :: k < q ==> ready[q] == [])
                   && s'.current == ready[k][0] && s'.ready == ready[k := ready[k][1..]];
    assert k == p;
    assert [t][1..] == [];
  }

  // ----- threads -----

  /** A new thread has the next id and the priority asked for, and is dead: it runs only when activated. */
  lemma CreateAnswers(w: World, prio: Prio)
    requires Inv(w)
    ensures var s, s', t := w.sys, ThreadCreate(w.sys, prio), w.sys.nextTid;
            && t !in s.threads && s'.threads.Keys == s.threads.Keys + {t} && s'.nextTid == t + 1
            && Th(s', t).priority == prio && Th(s', t).state == Dead && Th(s', t).mHeld == []
            && (forall u :: u != t ==> Th(s', u) == Th(s, u))
            && s'.ready == s.ready && s'.waiting == s.waiting && s'.mutexes == s.mutexes && s'.current == s.current
  {
    assert w.sys.nextTid !in w.sys.threads;
  }

  lemma DeleteAnswers(s: Sys, t: Tid)
    ensures var (s', r) := ThreadDelete(s, t);
            && (r == InvalidId <==> t !in s.threads)
            && (r == InvalidState <==> t in s.threads && s.threads[t].state != Dead)
            && (r == Success <==> t in s.threads && s.threads[t].state == Dead)
            && s' == s.(threads := if r == Success then s.threads - {t} else s.threads)
  {}

  /** An activated thread is ready, behind those of its priority; if it is more urgent than the caller it
      runs, and the caller is ready. */
  lemma ActivateAnswers(w: World, t: Tid)
    requires Inv(w)
    ensures var s, (s', r) := w.sys, Activate(w.sys, t);
            && (r == InvalidId <==> t !in s.threads)
            && (r == InvalidState <==> t in s.threads && s.threads[t].state != Dead)
            && (r == Success <==> t in s.threads && s.threads[t].state == Dead)
            && (r != Success ==> s' == s)
            && (r == Success ==> s'.waiting == s.waiting && s'.mutexes == s.mutexes)
            && (r == Success && PrioOf(s, t) <= PrioOf(s, s.current) ==>
                  && s'.current == s.current && s'.ready == Behind(s.ready, PrioOf(s, t), t)
                  && s'.threads == s.threads[t := s.threads[t].(state := Ready)])
            && (r == Success && PrioOf(s, t) > PrioOf(s, s.current) ==> TakesOver(s, s', t))
  {
    var s := w.sys;
    if t in s.threads && Th(s, t).state == Dead && PrioOf(s, t) > PrioOf(s, s.current) { UrgentTakesOver(s, t); }
  }

  /** t runs now, and the thread that ran is ready, behind the others of its priority. */
  ghost predicate TakesOver(s: Sys, s': Sys, t: Tid) {
    && s'.current == t && Th(s', t).state == Running && Th(s', s.current) == Th(s, s.current).(state := Ready)
    && s'.ready == Behind(s.ready, PrioOf(s, s.current), s.current)
    && (forall u :: u != t && u != s.current ==> Th(s', u) == Th(s, u))
  }

  /** A thread that becomes ready and is more urgent than the running one, and so than all ready ones. */
  lemma UrgentTakesOver(s: Sys, t: Tid)
    requires Dominant(s) && PrioOf(s, t) > PrioOf(s, s.current)
    ensures TakesOver(s, Yield(AddToReady(s, t)), t)
    ensures Yield(AddToReady(s, t)).waiting == s.waiting && Yield(AddToReady(s, t)).mutexes == s.mutexes
  {
    var p, s1 := PrioOf(s, t), AddToReady(s, t);
    assert s.ready[p] == [] && s1.ready[p] == [t];
    YieldTakes(s1);
    MostUrgentRuns(Behind(s1.ready, PrioOf(s, s.current), s.current), p, t, Yield(s1));
    var q := PrioOf(s, s.current);
    assert Behind(s1.ready, q, s.current)[p := []] == Behind(s.ready, q, s.current);
  }

  lemma SleepAnswers(w: World, n: Tick)
    requires Inv(w) && w.sys.current != IDLE
    ensures var s, (s', r), t := w.sys, Sleep(w.sys, n), w.sys.current;
            && (r == InvalidParameter <==> n == 0) && (r == Success <==> n != 0)
            && s'.mutexes == s.mutexes
            && (n == 0 ==> s' == s)
            && (n == 0xFFFF_FFFF ==> s'.waiting == s.waiting && TakenFrom(Behind(s.ready, PrioOf(s, t), t), s'))
            && (0 < n < 0xFFFF_FFFF ==>
                  && (s'.current != t ==> Th(s', t).state == Waiting)
                  && Th(s', t).ticks == n && Th(s', t).waitingFor == WAITING_SLEEP
                  && s'.waiting == s.waiting[2 := s.waiting[2] + [t]] && TakenFrom(s.ready, s')
                  && (forall u :: u != t && u != s'.current ==> Th(s', u) == Th(s, u)))
  {
    var s := w.sys;
    CntMember(s.ready[0], IDLE);
    if n == 0xFFFF_FFFF { YieldTakes(s); }
    else if n != 0 {
      DispatchTakes(Block(SetTh(s, s.current, Th(s, s.current).(ticks := n)), s.current, WAITING_SLEEP));
    }
  }

  /** The caller waits behind those that wait for their files, too. */
  lemma SubmitAnswers(w: World)
    requires Inv(w) && w.sys.current != IDLE
    ensures var s, s', t := w.sys, SubmitIO(w.sys), w.sys.current;
            && (s'.current != t ==> Th(s', t).state == Waiting) && Th(s', t).waitingFor == WAITING_IO
            && s'.waiting == s.waiting[0 := s.waiting[0] + [t]] && TakenFrom(s.ready, s') && s'.mutexes == s.mutexes
            && (forall u :: u != t && u != s'.current ==> Th(s', u) == Th(s, u))
  {
    CntMember(w.sys.ready[0], IDLE);
    DispatchTakes(Block(w.sys, w.sys.current, WAITING_IO));
  }

  /** The thread whose file is there is ready, and runs if it is more urgent; nothing happens to a dead
      one. */
  lemma ReplyAnswers(w: World, t: Tid)
    requires Inv(w)
    ensures var s, s' := w.sys, Reply(w.sys, t);
            && s'.mutexes == s.mutexes
            && (Th(s, t).state == Dead ==> s' == s)
            && (Th(s, t).state != Dead ==> s'.waiting == Erase(s.waiting, t))
            && (Th(s, t).state != Dead && PrioOf(s, t) <= PrioOf(s, s.current) ==>
                  && s'.current == s.current && Th(s', t).state == Ready && s'.ready == Behind(s.ready, PrioOf(s, t), t)
                  && (forall u :: u != t ==> Th(s', u) == Th(s, u)))
            && (Th(s, t).state != Dead && PrioOf(s, t) > PrioOf(s, s.current) ==> TakesOver(s, s', t))
  {
    var s := w.sys;
    var s1 := RemoveFromWaiting(s, t);
    if Th(s, t).state != Dead && PrioOf(s, t) > PrioOf(s, s.current) { UrgentTakesOver(s1, t); }
  }

  // ----- mutexes -----

  lemma MutexCreateAnswers(w: World)
    requires Inv(w)
    ensures var s, s', m := w.sys, MutexCreate(w.sys), w.sys.nextMid;
            && m != 0 && m !in s.mutexes && s'.mutexes == s.mutexes[m := MutexRec(false, 0, [[], [], [], []])]
            && s' == s.(mutexes := s'.mutexes, nextMid := m + 1)
  {
    assert w.sys.nextMid !in w.sys.mutexes;
  }

  lemma MutexDeleteAnswers(s: Sys, m: Mid)
    ensures var (s', r) := MutexDelete(s, m);
            && (r == InvalidId <==> m !in s.mutexes)
            && (r == InvalidState <==> m in s.mutexes && s.mutexes[m].locked)
            && (r == Success <==> m in s.mutexes && !s.mutexes[m].locked)
            && s' == s.(mutexes := if r == Success then s.mutexes - {m} else s.mutexes)
  {}

  /** Every outcome of an acquire, and what it says of ownership. */
  lemma AcquireAnswers(w: World, m: Mid, n: Tick)
    requires Inv(w) && Enabled(w, DoAcquire(m, n))
    ensures var s, (s', r), t := w.sys, Acquire(w.sys, m, n), w.sys.current;
            && (r == Returned(InvalidId) <==> m !in s.mutexes)
            && (r == Returned(Success) <==> m in s.mutexes && !s.mutexes[m].locked)
            && (r == Returned(Failure) <==> m in s.mutexes && s.mutexes[m].locked && n == 0xFFFF_FFFF)
            && (r == Suspended <==> m in s.mutexes && s.mutexes[m].locked && n != 0xFFFF_FFFF)
            && (r == Returned(Success) <==> !Owns(s, m, t) && Owns(s', m, t))
            && (r == Returned(Success) ==> Takes(s, s', m, t))
            && (r != Returned(Success) && r != Suspended ==> s' == s)
            && (r == Suspended ==> QueuesFor(s, s', m, n, t))
  {
    hide OwnersOk, WaitersOk, Dominant, TakenFrom;
    var s := w.sys;
    if m in s.mutexes && s.mutexes[m].locked && n != 0xFFFF_FFFF {
      CntMember(s.ready[0], IDLE);
      DispatchTakes(BlockedOn(s, m, n));
    }
  }

  /** t, which held other mutexes perhaps, holds m now, and nothing else changed. */
  ghost predicate Takes(s: Sys, s': Sys, m: Mid, t: Tid) {
    && t in s.threads && m in s.mutexes
    && s' == s.(threads := s.threads[t := s.threads[t].(mHeld := s.threads[t].mHeld + [m])],
                mutexes := s.mutexes[m := s.mutexes[m].(locked := true, owner := t)])
  }

  /** t waits for m, last of its priority, and another thread may run; m's owner is the same. */
  ghost predicate QueuesFor(s: Sys, s': Sys, m: Mid, n: Tick, t: Tid) {
    && (s'.current != t ==> Th(s', t).state == Waiting)
    && Th(s', t).waitingFor == WAITING_MUTEX && Th(s', t).mWants == m
    && (n == 0 ==> Th(s', t).infinite) && (n != 0 ==> Th(s', t).ticks == n && Th(s', t).infinite == Th(s, t).infinite)
    && s'.waiting == s.waiting[1 := s.waiting[1] + [t]] && TakenFrom(s.ready, s')
    && m in s.mutexes
    && s'.mutexes == s.mutexes[m := s.mutexes[m].(waiting := Behind(s.mutexes[m].waiting, PrioOf(s, t), t))]
    && (forall u :: u != t && u != s'.current ==> Th(s', u) == Th(s, u))
  }

  /** The status after the context switch says whether the caller owns the mutex, and the caller is in its
      queue once less. */
  lemma ResumeAnswers(w: World, m: Mid)
    requires Inv(w)
    ensures var s, (s', r), t := w.sys, Resume(w.sys, m), w.sys.current;
            && (r == Success <==> Owns(s, m, t)) && (r == Failure <==> !Owns(s, m, t))
            && s'.ready == s.ready && s'.waiting == s.waiting && s'.current == t
            && s'.mutexes.Keys == s.mutexes.Keys
            && (forall k :: k in s.mutexes && k != m ==> s'.mutexes[k] == s.mutexes[k])
            && (m in s.mutexes ==> s'.mutexes[m] == s.mutexes[m].(waiting := Erase(s.mutexes[m].waiting, t)))
            && (forall u :: u != t ==> Th(s', u) == Th(s, u))
  {}

  /** The thread that has waited longest of those with the highest priority that wait. */
  ghost predicate FirstInLine(qs: Queues, t: Tid) {
    exists p: Prio :: qs[p] != [] && (forall q: Prio :: p < q ==> qs[q] == []) && qs[p][0] == t
  }

  /** m came to the first thread in its line, which left that line, or to nobody. */
  ghost predicate PassedOn(s: Sys, s': Sys, m: Mid)
    requires m in s.mutexes
  {
    var qs := s.mutexes[m].waiting;
    m in s'.mutexes &&
    if qs[0] == [] && qs[1] == [] && qs[2] == [] && qs[3] == [] then s'.mutexes[m] == MutexRec(false, 0, qs)
    else
      var t := s'.mutexes[m].owner;
      && s'.mutexes[m].locked && FirstInLine(qs, t)
      && exists p: Prio :: t in qs[p] && s'.mutexes[m].waiting == qs[p := qs[p][1..]] && qs[p][0] == t
  }

  lemma RegrantPassesOn(s: Sys, m: Mid)
    requires m in s.mutexes
    ensures PassedOn(s, Regrant(s, m), m) && Regrant(s, m).mutexes.Keys == s.mutexes.Keys
    ensures forall k :: k in s.mutexes && k != m ==> Regrant(s, m).mutexes[k] == s.mutexes[k]
  {
    var qs := s.mutexes[m].waiting;
    if !AllEmpty(qs) {
      var p := Top(qs);
      assert qs[p] != [] && (forall q: Prio :: p < q ==> qs[q] == []) && qs[p][0] == NextOwner(Unlock(s, m), m);
      assert qs[p][0] in qs[p] && Pop(qs) == qs[p := qs[p][1..]];
    }
  }

  /** A release succeeds for the owner alone, and passes the mutex on. The new owner is ready, and runs if
      it is more urgent than the caller. */
  lemma ReleaseAnswers(w: World, m: Mid)
    requires Inv(w)
    ensures var s, (s', r) := w.sys, Release(w.sys, m);
            && (r == InvalidId <==> m !in s.mutexes)
            && (r == InvalidState <==> m in s.mutexes && !Owns(s, m, s.current))
            && (r == Success <==> Owns(s, m, s.current))
            && (r != Success ==> s' == s)
            && (r == Success ==>
                  && PassedOn(s, s', m) && s'.mutexes.Keys == s.mutexes.Keys
                  && (forall k :: k in s.mutexes && k != m ==> s'.mutexes[k] == s.mutexes[k])
                  && (!s'.mutexes[m].locked ==> s'.current == s.current && s'.ready == s.ready)
                  && (s'.mutexes[m].locked ==> NewOwnerReady(s, s', s'.mutexes[m].owner)))
  {
    hide Inv, Regrant, Yield, NewOwnerReady, FirstInLine, TakenFrom, Behind;
    var s := w.sys;
    if m in s.mutexes && Owns(s, m, s.current) {
      var s1 := Dropped(s, m);
      RegrantPassesOn(s1, m);
      YieldTakes(Regrant(s1, m));
      NoneInLine(s1, m);
      if !AllEmpty(s.mutexes[m].waiting) { GrantReadies(w, s1, m); }
    }
  }

  lemma NoneInLine(s: Sys, m: Mid)
    requires m in s.mutexes
    ensures Regrant(s, m).mutexes[m].locked <==> !AllEmpty(s.mutexes[m].waiting)
    ensures AllEmpty(s.mutexes[m].waiting) ==> Regrant(s, m).ready == s.ready && Regrant(s, m).current == s.current
  {}

  /** t is ready behind those of its priority, or runs in place of a less urgent caller. */
  ghost predicate NewOwnerReady(s: Sys, s': Sys, t: Tid) {
    && s'.waiting == Erase(s.waiting, t)
    && if PrioOf(s, t) <= PrioOf(s, s.current)
       then s'.current == s.current && Th(s', t).state == Ready && s'.ready == Behind(s.ready, PrioOf(s, t), t)
       else s'.current == t && Th(s', t).state == Running && Th(s', s.current).state == Ready
            && s'.ready == Behind(s.ready, PrioOf(s, s.current), s.current)
  }

  lemma GrantReadies(w: World, s1: Sys, m: Mid)
    requires Inv(w) && m in w.sys.mutexes && Owns(w.sys, m, w.sys.current) && s1 == Dropped(w.sys, m)
    requires !AllEmpty(w.sys.mutexes[m].waiting)
    ensures var s' := if Preempts(s1, m, PrioOf(w.sys, w.sys.current)) then Yield(Regrant(s1, m)) else Regrant(s1, m);
            NewOwnerReady(w.sys, s', s'.mutexes[m].owner)
  {
    var s, t := w.sys, NextOwner(Unlock(s1, m), m);
    var s2 := RemoveFromWaiting(GetNextOwner(Unlock(s1, m), m), t);
    assert PrioOf(s2, t) == PrioOf(s, t) && PrioOf(s2, s.current) == PrioOf(s, s.current);
    if PrioOf(s, t) > PrioOf(s, s.current) { UrgentTakesOver(s2, t); }
  }

  // ----- the alarm -----

  /** With no timer running, an alarm puts the caller behind the others of its priority: threads of one
      priority take turns. */
  lemma AlarmRotates(w: World, leave: bool)
    requires Inv(w) && w.sys.waiting[1] == [] && w.sys.waiting[2] == []
    ensures var s, s', p := w.sys, Alarm(w.sys, leave), PrioOf(w.sys, w.sys.current);
            && s'.current == (s.ready[p] + [s.current])[0]
            && s'.ready == s.ready[p := (s.ready[p] + [s.current])[1..]]
            && s'.waiting == s.waiting && s'.mutexes == s.mutexes
            && (forall u :: u != s.current && u != s'.current ==> Th(s', u) == Th(s, u))
  {
    var s, p := w.sys, PrioOf(w.sys, w.sys.current);
    var s1 := ProcessAllWaiting(s, leave);
    assert s.waiting[WAITING_SLEEP := []] == s.waiting && s.waiting[WAITING_MUTEX := []] == s.waiting;
    assert s1 == s;
    YieldTakes(s);
    OfOnePriority(Behind(s.ready, p, s.current), p, Yield(s));
  }

  lemma OfOnePriority(ready: Queues, p: Prio, s': Sys)
    requires ready[p] != [] && (forall q: Prio :: p < q ==> ready[q] == []) && TakenFrom(ready, s')
    ensures s'.current == ready[p][0] && s'.ready == ready[p := ready[p][1..]]
  {
    var k: Prio :| && ready[k] != [] && (forall q: Prio :: k < q ==> ready[q] == [])
                   && s'.current == ready[k][0] && s'.ready == ready[k := ready[k][1..]];
    assert k == p;
  }

  // ----- termination -----

  lemma TerminateStatus(s: Sys, t: Tid)
    ensures var (s', r) := Terminate(s, t);
            && (r == InvalidId <==> t !in s.threads)
            && (r == InvalidState <==> t in s.threads && s.threads[t].state == Dead)
            && (r == Success <==> t in s.threads && s.threads[t].state != Dead)
            && (r != Success ==> s' == s)
  {}

  ghost predicate InOwnQueue(s: Sys, t: Tid, held: seq<Mid>) {
    exists m :: m in held && m in s.mutexes && InQueues(s.mutexes[m].waiting, t)
  }

  /** Some mutex in `held` comes to a thread of priority above prio. */
  ghost predicate WakesMoreUrgent(s: Sys, held: seq<Mid>, prio: Prio) {
    exists m, t :: m in held && m in s.mutexes && FirstInLine(s.mutexes[m].waiting, t) && PrioOf(s, t) > prio
  }

  lemma PreemptsMeans(s: Sys, m: Mid, prio: Prio)
    requires m in s.mutexes
    ensures Preempts(s, m, prio) <==> exists t :: FirstInLine(s.mutexes[m].waiting, t) && PrioOf(s, t) > prio
  {
    var qs := s.mutexes[m].waiting;
    if !AllEmpty(qs) {
      var p, t := Top(qs), qs[Top(qs)][0];
      assert qs[p] != [] && (forall q: Prio :: p < q ==> qs[q] == []) && qs[p][0] == t;
      forall u | FirstInLine(qs, u) ensures u == t {
        var k: Prio :| qs[k] != [] && (forall q: Prio :: k < q ==> qs[q] == []) && qs[k][0] == u;
        assert k == p;
      }
    }
  }

  /** What handing over all of `held` does. */
  ghost predicate AllPassedOn(s: Sys, s': Sys, t: Tid, held: seq<Mid>) {
    && s'.mutexes.Keys == s.mutexes.Keys && s'.current == s.current && Th(s', t) == Th(s, t)
    && (forall m :: m in held && m in s.mutexes ==> PassedOn(s, s', m))
    && (forall m :: m in s.mutexes && m !in held ==> s'.mutexes[m] == s.mutexes[m])
    && (forall u :: PrioOf(s', u) == PrioOf(s, u))
    && (forall p: Prio :: Cnt(s'.ready[p], t) == Cnt(s.ready[p], t))
  }

  lemma {:induction false} HandsAllOver(s: Sys, t: Tid, held: seq<Mid>, prio: Prio)
    requires Core(s, t, held) && !InOwnQueue(s, t, held)
    ensures AllPassedOn(s, ReleaseAll(s, t, held, prio).0, t, held)
    ensures ReleaseAll(s, t, held, prio).1 <==> WakesMoreUrgent(s, held, prio)
    decreases HandOvers(s, t, held)
  {
    if held != [] {
      var m := held[0];
      HandOverProgress(s, t, held);
      HeadOwned(s, t, held);
      var s1 := Regrant(s, m);
      HeadHandedOver(s, t, held);
      HandsAllOver(s1, t, held[1..], prio);
      PreemptsMeans(s, m, prio);
      LaterUntouched(s, s1, t, held, prio);
      AllPassedOnBoth(s, s1, ReleaseAll(s1, t, held[1..], prio).0, t, held);
    }
  }

  lemma HeadHandedOver(s: Sys, t: Tid, held: seq<Mid>)
    requires Core(s, t, held) && held != [] && !InOwnQueue(s, t, held) && held[0] in s.mutexes
    ensures var s1 := Regrant(s, held[0]);
            && StillHeld(s, t, held) == held[1..] && held[0] !in held[1..]
            && PassedOn(s, s1, held[0]) && s1.mutexes.Keys == s.mutexes.Keys && s1.current == s.current
            && (forall k :: k in s.mutexes && k != held[0] ==> s1.mutexes[k] == s.mutexes[k])
            && Th(s1, t) == Th(s, t) && (forall u :: PrioOf(s1, u) == PrioOf(s, u))
            && (forall p: Prio :: Cnt(s1.ready[p], t) == Cnt(s.ready[p], t))
            && !InOwnQueue(s1, t, held[1..])
  {
    hide PassedOn, Regrant, ComesBack, OwnersOk, WaitersOk, MembersOk, InQueues;
    var m := held[0];
    assert m in held && forall k :: k in held[1..] ==> k in held;
    HeldOnce(s, t, held);
    RegrantPassesOn(s, m);
    OthersGetIt(s, m, t);
    assert held[1..] + [] == held[1..];
  }

  lemma HeldOnce(s: Sys, t: Tid, held: seq<Mid>)
    requires Core(s, t, held) && held != []
    ensures held[0] !in held[1..]
  {
    assert Cnt(HeldOf(s, t, t, held), held[0]) <= 1;
    CntPop(held, held[0]);
    CntMember(held[1..], held[0]);
  }

  /** A hand-over of a mutex that t does not wait for does not concern t. */
  lemma OthersGetIt(s: Sys, m: Mid, t: Tid)
    requires m in s.mutexes && !InQueues(s.mutexes[m].waiting, t)
    ensures !ComesBack(s, m, t) && Regrant(s, m).current == s.current && Th(Regrant(s, m), t) == Th(s, t)
    ensures forall u :: PrioOf(Regrant(s, m), u) == PrioOf(s, u)
    ensures forall p: Prio :: Cnt(Regrant(s, m).ready[p], t) == Cnt(s.ready[p], t)
  {
    var qs := s.mutexes[m].waiting;
    if !AllEmpty(qs) {
      var u := qs[Top(qs)][0];
      assert u in qs[Top(qs)];
      CntPush(s.ready[PrioOf(s, u)], u, t);
    }
  }

  lemma LaterUntouched(s: Sys, s1: Sys, t: Tid, held: seq<Mid>, prio: Prio)
    requires held != [] && held[0] in s.mutexes && held[0] !in held[1..] && s1.mutexes.Keys == s.mutexes.Keys
    requires forall k :: k in s.mutexes && k != held[0] ==> s1.mutexes[k] == s.mutexes[k]
    requires forall u :: PrioOf(s1, u) == PrioOf(s, u)
    ensures WakesMoreUrgent(s, held, prio) <==>
              || (exists u :: FirstInLine(s.mutexes[held[0]].waiting, u) && PrioOf(s, u) > prio)
              || WakesMoreUrgent(s1, held[1..], prio)
  {
    hide FirstInLine, PrioOf;
    assert held == [held[0]] + held[1..];
    if WakesMoreUrgent(s1, held[1..], prio) {
      var m, u :| m in held[1..] && m in s1.mutexes && FirstInLine(s1.mutexes[m].waiting, u) && PrioOf(s1, u) > prio;
      assert m in held && m in s.mutexes && FirstInLine(s.mutexes[m].waiting, u) && PrioOf(s, u) > prio;
    }
    if u :| FirstInLine(s.mutexes[held[0]].waiting, u) && PrioOf(s, u) > prio { assert held[0] in held; }
    if WakesMoreUrgent(s, held, prio) {
      var m, u :| m in held && m in s.mutexes && FirstInLine(s.mutexes[m].waiting, u) && PrioOf(s, u) > prio;
      if m != held[0] {
        assert m in held[1..] && m in s1.mutexes && FirstInLine(s1.mutexes[m].waiting, u) && PrioOf(s1, u) > prio;
      }
    }
  }

  lemma AllPassedOnBoth(s: Sys, s1: Sys, s2: Sys, t: Tid, held: seq<Mid>)
    requires held != [] && held[0] in s.mutexes && held[0] !in held[1..] && AllPassedOn(s1, s2, t, held[1..])
    requires PassedOn(s, s1, held[0]) && s1.mutexes.Keys == s.mutexes.Keys && s1.current == s.current
    requires forall k :: k in s.mutexes && k != held[0] ==> s1.mutexes[k] == s.mutexes[k]
    requires Th(s1, t) == Th(s, t) && (forall u :: PrioOf(s1, u) == PrioOf(s, u))
    requires forall p: Prio :: Cnt(s1.ready[p], t) == Cnt(s.ready[p], t)
    ensures AllPassedOn(s, s2, t, held)
  {
    hide FirstInLine, PrioOf;
    assert held == [held[0]] + held[1..];
    forall m | m in held && m in s.mutexes ensures PassedOn(s, s2, m) {
      if m != held[0] { assert m in held[1..] && PassedOn(s1, s2, m); }
    }
  }

  lemma NotInOwnQueue(w: World, leave: bool, t: Tid)
    requires QueueInv(w, leave) && t in w.sys.threads && t != IDLE
    ensures !InOwnQueue(Killed(w.sys, t), t, Th(w.sys, t).mHeld)
  {
    var s := w.sys;
    assert Placed(s, StacksOf(w, leave), true, t);
    forall m | m in Th(s, t).mHeld && m in s.mutexes ensures !InQueues(s.mutexes[m].waiting, t) {
      HeldIsOwned(w, t);
      assert forall p: Prio :: !Seated(s, StacksOf(w, leave), t, m, p);
      AbsentErase(s.mutexes[m].waiting, t);
    }
  }

  lemma HeldIsOwned(w: World, t: Tid)
    requires Inv(w)
    ensures forall m :: m in Th(w.sys, t).mHeld <==> Owns(w.sys, m, t)
  {
    var s, held := w.sys, Th(w.sys, t).mHeld;
    forall m ensures m in held <==> Owns(s, m, t) {
      assert HeldOf(s, t, s.current, Th(s, s.current).mHeld) == held;
      CntMember(held, m);
    }
  }

  /** Marking t dead changes no mutex and no priority. */
  lemma KilledSame(s: Sys, t: Tid, held: seq<Mid>, prio: Prio)
    ensures WakesMoreUrgent(Killed(s, t), held, prio) <==> WakesMoreUrgent(s, held, prio)
  {
    var s1 := Killed(s, t);
    assert forall u :: PrioOf(s1, u) == PrioOf(s, u);
    if m, u :| m in held && m in s1.mutexes && FirstInLine(s1.mutexes[m].waiting, u) && PrioOf(s1, u) > prio {
      assert m in held && m in s.mutexes && FirstInLine(s.mutexes[m].waiting, u) && PrioOf(s, u) > prio;
    }
    if m, u :| m in held && m in s.mutexes && FirstInLine(s.mutexes[m].waiting, u) && PrioOf(s, u) > prio {
      assert m in held && m in s1.mutexes && FirstInLine(s1.mutexes[m].waiting, u) && PrioOf(s1, u) > prio;
    }
  }

  /** Leaving its own queue takes t out of the ready queues, and no mutex from its owner. */
  lemma UnqueueEnds(s: Sys, t: Tid, was: ThreadState)
    requires forall p: Prio :: Cnt(s.ready[p], t) == if was == Ready && p == PrioOf(s, t) then 1 else 0
    ensures var s' := Unqueue(s, t, was);
            && !InQueues(s'.ready, t) && s'.current == s.current && s'.mutexes.Keys == s.mutexes.Keys
            && Th(s', t).state == Th(s, t).state && Th(s', t).mHeld == Th(s, t).mHeld
            && (forall m :: m in s.mutexes ==>
                  s'.mutexes[m].locked == s.mutexes[m].locked && s'.mutexes[m].owner == s.mutexes[m].owner)
            && (forall m :: m in s.mutexes && !InQueues(s.mutexes[m].waiting, t) ==> s'.mutexes[m] == s.mutexes[m])
  {
    if was == Ready {
      EraseCounts(s.ready, t, PrioOf(s, t), t);
      AbsentErase(Erase(s.ready, t), t);
    } else {
      AbsentErase(s.ready, t);
    }
  }

  lemma DispatchEnds(s: Sys, t: Tid, was: ThreadState, wake: bool)
    requires !InQueues(s.ready, t) && (was == Running <==> t == s.current)
    ensures var s' := if was == Running then ScheduleNext(s) else if wake then Yield(s) else s;
            && Th(s', t).state == Th(s, t).state && Th(s', t).mHeld == Th(s, t).mHeld && s'.mutexes == s.mutexes
            && (was != Running && !wake ==> s'.current == s.current)
  {
    if was == Running {
      if !AllEmpty(s.ready) { assert s.ready[Top(s.ready)][0] in s.ready[Top(s.ready)]; }
    } else if wake {
      var s1 := AddToReady(s, s.current);
      assert forall p: Prio :: t !in s1.ready[p];
      assert s1.ready[Top(s1.ready)][0] in s1.ready[Top(s1.ready)];
    }
  }

  /** What is passed on leaves the first of its line, so t still is in no queue of it. */
  lemma PassedOnWithout(s: Sys, s': Sys, m: Mid, t: Tid)
    requires m in s.mutexes && PassedOn(s, s', m) && !InQueues(s.mutexes[m].waiting, t)
    ensures m in s'.mutexes && !InQueues(s'.mutexes[m].waiting, t) && !Owns(s', m, t)
  {
    var qs := s.mutexes[m].waiting;
    if !AllEmpty(qs) {
      var u := s'.mutexes[m].owner;
      var p: Prio :| u in qs[p] && s'.mutexes[m].waiting == qs[p := qs[p][1..]] && qs[p][0] == u;
      assert forall q: Prio :: t !in qs[q];
    }
  }

  /** In a state of a timely run: a termination passes every mutex of the thread on, leaves all others to
      their owners, and ends with the thread dead and holding nothing. The caller goes on running unless
      it is the one terminated, or a mutex came to a more urgent thread. */
  lemma TerminateAnswers(w: World, t: Tid, leave: bool)
    requires QueueInv(w, leave) && Enabled(w, DoTerminate(t)) && Terminate(w.sys, t).1 == Success
    ensures var s, s' := w.sys, Terminate(w.sys, t).0;
            && Th(s', t).state == Dead && Th(s', t).mHeld == [] && s'.mutexes.Keys == s.mutexes.Keys
            && (forall m :: Owns(s, m, t) ==> PassedOn(s, s', m))
            && (forall m :: m in s.mutexes && !Owns(s, m, t) ==>
                  s'.mutexes[m].locked == s.mutexes[m].locked && s'.mutexes[m].owner == s.mutexes[m].owner)
            && (t != s.current && !WakesMoreUrgent(s, Th(s, t).mHeld, PrioOf(s, s.current)) ==> s'.current == s.current)
  {
    hide ReleaseAll, PassedOn, WakesMoreUrgent, Regrant, Unqueue, Cnt, PrioOf;
    var s, held, prio := w.sys, Th(w.sys, t).mHeld, PrioOf(w.sys, w.sys.current);
    var s1, was := Killed(s, t), Th(s, t).state;
    KilledKeeps(s, t);
    NotInOwnQueue(w, leave, t);
    HeldIsOwned(w, t);
    HandsAllOver(s1, t, held, prio);
    KilledSame(s, t, held, prio);
    var r := ReleaseAll(s1, t, held, prio);
    var s2 := SetTh(r.0, t, Th(r.0, t).(mHeld := []));
    assert Placed(s, StacksOf(w, leave), true, t);
    ReadyOnce(s, s2, t, was);
    UnqueueEnds(s2, t, was);
    var s3 := Unqueue(s2, t, was);
    DispatchEnds(s3, t, was, r.1);
    forall m | Owns(s, m, t) ensures PassedOn(s, Terminate(s, t).0, m) {
      PassedOnKilled(s, r.0, t, m);
      assert !InQueues(s.mutexes[m].waiting, t);
      PassedOnWithout(s, r.0, m, t);
      PassedOnSame(s, r.0, Terminate(s, t).0, m);
    }
  }

  lemma ReadyOnce(s: Sys, s2: Sys, t: Tid, was: ThreadState)
    requires Queued(s, t) && was == Th(s, t).state && Th(s2, t).priority == Th(s, t).priority
    requires forall p: Prio :: Cnt(s2.ready[p], t) == Cnt(s.ready[p], t)
    ensures forall p: Prio :: Cnt(s2.ready[p], t) == if was == Ready && p == PrioOf(s2, t) then 1 else 0
  {}

  lemma PassedOnKilled(s: Sys, s': Sys, t: Tid, m: Mid)
    requires m in s.mutexes && PassedOn(Killed(s, t), s', m)
    ensures PassedOn(s, s', m)
  {}

  lemma PassedOnSame(s: Sys, s': Sys, s'': Sys, m: Mid)
    requires m in s.mutexes && PassedOn(s, s', m)
    requires m in s'.mutexes && m in s''.mutexes && s''.mutexes[m] == s'.mutexes[m]
    ensures PassedOn(s, s'', m)
  {}
}
