/** The state the scheduler, the mutexes and the thread control blocks share, and every
    entry point that changes it, as functions from state to state.

    Threads and mutexes are named by their ids: an id plays the part of the pointer the
    queues of the code hold. `Sys` is the code's own state; `World` adds what the code
    keeps on stacks and in the machine: which threads are suspended inside VMMutexAcquire,
    and which threads have an outstanding file request. */
module Kernel {

  type Tid = nat
  type Mid = nat
  type Prio = p: nat | p < 4
  type Tick = n: nat | n < 0x1_0000_0000
  type Queues = q: seq<seq<Tid>> | |q| == 4 witness [[], [], [], []]

  const PRIORITY_NORMAL: Prio := 2

  // Waiting queues, by reason for waiting. WAITING_NOTHING indexes no queue.
  const WAITING_IO: Prio := 0
  const WAITING_MUTEX: Prio := 1
  const WAITING_SLEEP: Prio := 2
  const WAITING_NOTHING: nat := 4

  const TIMEOUT_INFINITE: Tick := 0
  const TIMEOUT_IMMEDIATE: Tick := 0xFFFF_FFFF

  const MAIN: Tid := 1
  const IDLE: Tid := 2
  const NO_MUTEX: Mid := 0
  const NO_QUEUES: Queues := [[], [], [], []]

  datatype ThreadState = Dead | Running | Ready | Waiting

  datatype Status = Success | Failure | InvalidParameter | InvalidId | InvalidState

  datatype Tcb = Tcb(
    priority: Prio, state: ThreadState, waitingFor: nat, ticks: Tick,
    mWants: Mid, infinite: bool, mHeld: seq<Mid>)

  datatype MutexRec = MutexRec(locked: bool, owner: Tid, waiting: Queues)

  datatype Sys = Sys(
    threads: map<Tid, Tcb>, ready: Queues, waiting: Queues,
    mutexes: map<Mid, MutexRec>, current: Tid, nextTid: Tid, nextMid: Mid)

  // ----- access -----

  const NEW_TCB := Tcb(0, Dead, WAITING_NOTHING, 0, NO_MUTEX, false, [])
  const NEW_MUTEX := MutexRec(false, 0, NO_QUEUES)

  function Th(s: Sys, t: Tid): Tcb {
    if t in s.threads then s.threads[t] else NEW_TCB
  }

  function Mx(s: Sys, m: Mid): MutexRec {
    if m in s.mutexes then s.mutexes[m] else NEW_MUTEX
  }

  function SetTh(s: Sys, t: Tid, c: Tcb): Sys { s.(threads := s.threads[t := c]) }

  function SetMx(s: Sys, m: Mid, x: MutexRec): Sys { s.(mutexes := s.mutexes[m := x]) }

  function PrioOf(s: Sys, t: Tid): Prio { Th(s, t).priority }

  // ----- queues -----

  function Cnt(q: seq<nat>, x: nat): nat { multiset(q)[x] }

  lemma CntPop(q: seq<nat>, x: nat)
    requires q != []
    ensures Cnt(q[1..], x) == Cnt(q, x) - (if x == q[0] then 1 else 0)
  {
    assert q == [q[0]] + q[1..];
  }

  function RemoveFirst(q: seq<nat>, t: nat): seq<nat> {
    if q == [] then [] else if q[0] == t then q[1..] else [q[0]] + RemoveFirst(q[1..], t)
  }

  function Push(qs: Queues, p: Prio, t: Tid): Queues { qs[p := qs[p] + [t]] }

  predicate InQueues(qs: Queues, t: Tid) {
    t in qs[0] || t in qs[1] || t in qs[2] || t in qs[3]
  }

  /** How often t stands in the queues. */
  function Times(qs: Queues, t: Tid): nat { Cnt(qs[0], t) + Cnt(qs[1], t) + Cnt(qs[2], t) + Cnt(qs[3], t) }

  /** Erases the first occurrence of t, scanning the queues in index order. */
  function Erase(qs: Queues, t: Tid): Queues {
    if t in qs[0] then qs[0 := RemoveFirst(qs[0], t)]
    else if t in qs[1] then qs[1 := RemoveFirst(qs[1], t)]
    else if t in qs[2] then qs[2 := RemoveFirst(qs[2], t)]
    else if t in qs[3] then qs[3 := RemoveFirst(qs[3], t)]
    else qs
  }

  predicate AllEmpty(qs: Queues) {
    qs[0] == [] && qs[1] == [] && qs[2] == [] && qs[3] == []
  }

  /** The highest priority with a non-empty queue. */
  function Top(qs: Queues): (p: Prio)
    requires !AllEmpty(qs)
    ensures qs[p] != []
    ensures forall i: Prio :: p < i ==> qs[i] == []
  {
    if qs[3] != [] then 3 else if qs[2] != [] then 2 else if qs[1] != [] then 1 else 0
  }

  function Pop(qs: Queues): (r: Queues)
    requires !AllEmpty(qs)
  {
    qs[Top(qs) := qs[Top(qs)][1..]]
  }

  // ----- scheduler -----

  function AddToReady(s: Sys, t: Tid): Sys {
    SetTh(s, t, Th(s, t).(state := Ready)).(ready := Push(s.ready, PrioOf(s, t), t))
  }

  function RemoveFromReady(s: Sys, t: Tid): Sys { s.(ready := Erase(s.ready, t)) }

  /** setWaitingFor followed by addToWaiting. */
  function Block(s: Sys, t: Tid, reason: Prio): Sys {
    SetTh(s, t, Th(s, t).(state := Waiting, waitingFor := reason)).(waiting := Push(s.waiting, reason, t))
  }

  function RemoveFromWaiting(s: Sys, t: Tid): Sys {
    if InQueues(s.waiting, t) then
      SetTh(s, t, Th(s, t).(waitingFor := WAITING_NOTHING, ticks := 0, infinite := false))
      .(waiting := Erase(s.waiting, t))
    else s
  }

  /** Dispatches the front of the highest non-empty ready queue. The code dereferences a
      null pointer when every queue is empty; `KernelSafety.ScheduleNextKeeps` says that this cannot happen. */
  function ScheduleNext(s: Sys): Sys {
    if AllEmpty(s.ready) then s
    else
      var t := s.ready[Top(s.ready)][0];
      SetTh(s, t, Th(s, t).(state := Running)).(ready := Pop(s.ready), current := t)
  }

  function DecrementTicks(s: Sys, t: Tid): Sys {
    var c := Th(s, t);
    if c.infinite then s
    else SetTh(s, t, c.(ticks := if c.ticks == 0 then 0xFFFF_FFFF else c.ticks - 1))
  }

  function WakeSleeper(s: Sys, t: Tid): Sys {
    AddToReady(SetTh(s, t, Th(s, t).(waitingFor := WAITING_NOTHING, infinite := false)), t)
  }

  /** The sleepers' half of processAllWaiting: `kept` is the part of the queue already passed
      over, `rest` the part still to be visited. */
  function SweepSleep(s: Sys, kept: seq<Tid>, rest: seq<Tid>): Sys
    decreases |rest|
  {
    if rest == [] then s.(waiting := s.waiting[WAITING_SLEEP := kept])
    else
      var s1 := DecrementTicks(s, rest[0]);
      if Th(s1, rest[0]).ticks == 0
      then SweepSleep(WakeSleeper(s1, rest[0]), kept, rest[1..])
      else SweepSleep(s1, kept + [rest[0]], rest[1..])
  }

  predicate HasMutex(c: Tcb) { c.mWants in c.mHeld }

  /** A mutex waiter whose time is up becomes ready. As written it stays in the mutex's own
      queue; with `leave` it also leaves that queue. */
  function ExpireWaiter(s: Sys, t: Tid, leave: bool): Sys {
    var s0 := if leave then StopWaiting(s, Th(s, t).mWants, t) else s;
    var c := Th(s0, t).(waitingFor := WAITING_NOTHING, ticks := 0, infinite := false, mWants := NO_MUTEX);
    AddToReady(SetTh(s0, t, c), t)
  }

  function SweepMutex(s: Sys, kept: seq<Tid>, rest: seq<Tid>, leave: bool): Sys
    decreases |rest|
  {
    if rest == [] then s.(waiting := s.waiting[WAITING_MUTEX := kept])
    else
      var s1 := DecrementTicks(s, rest[0]);
      if HasMutex(Th(s1, rest[0])) || Th(s1, rest[0]).ticks == 0
      then SweepMutex(ExpireWaiter(s1, rest[0], leave), kept, rest[1..], leave)
      else SweepMutex(s1, kept + [rest[0]], rest[1..], leave)
  }

  function ProcessAllWaiting(s: Sys, leave: bool): Sys {
    var s1 := SweepSleep(s, [], s.waiting[WAITING_SLEEP]);
    SweepMutex(s1, [], s1.waiting[WAITING_MUTEX], leave)
  }

  // ----- mutexes -----

  /** Removes t from m's own queues. */
  function StopWaiting(s: Sys, m: Mid, t: Tid): Sys {
    if m in s.mutexes && InQueues(s.mutexes[m].waiting, t) then
      var s1 := SetTh(s, t, Th(s, t).(mWants := NO_MUTEX));
      SetMx(s1, m, s.mutexes[m].(waiting := Erase(s.mutexes[m].waiting, t)))
    else s
  }

  function WantsMutex(s: Sys, m: Mid, t: Tid): Sys {
    SetMx(SetTh(s, t, Th(s, t).(mWants := m)), m, Mx(s, m).(waiting := Push(Mx(s, m).waiting, PrioOf(s, t), t)))
  }

  predicate HasNextOwner(s: Sys, m: Mid) { !Mx(s, m).locked && !AllEmpty(Mx(s, m).waiting) }

  function NextOwner(s: Sys, m: Mid): Tid
    requires HasNextOwner(s, m)
  {
    Mx(s, m).waiting[Top(Mx(s, m).waiting)][0]
  }

  function GetNextOwner(s: Sys, m: Mid): Sys {
    if HasNextOwner(s, m) then
      var t := NextOwner(s, m);
      SetMx(SetTh(s, t, Th(s, t).(mHeld := Th(s, t).mHeld + [m], mWants := NO_MUTEX)),
            m, MutexRec(true, t, Pop(Mx(s, m).waiting)))
    else s
  }

  function Unlock(s: Sys, m: Mid): Sys { SetMx(s, m, Mx(s, m).(locked := false, owner := 0)) }

  /** Unlocks m and hands it to the next owner, who becomes ready. */
  function Regrant(s: Sys, m: Mid): Sys {
    var s1 := Unlock(s, m);
    if HasNextOwner(s1, m) then
      var t := NextOwner(s1, m);
      AddToReady(RemoveFromWaiting(GetNextOwner(s1, m), t), t)
    else s1
  }

  /** Whether handing m over wakes a thread of priority above `prio`. */
  predicate Preempts(s: Sys, m: Mid, prio: Prio) {
    !AllEmpty(Mx(s, m).waiting) && prio < PrioOf(s, Mx(s, m).waiting[Top(Mx(s, m).waiting)][0])
  }

  /** Current goes back to its ready queue and the best ready thread runs. */
  function Yield(s: Sys): Sys { ScheduleNext(AddToReady(s, s.current)) }

  // ----- entry points -----

  function ThreadCreate(s: Sys, prio: Prio): Sys {
    s.(threads := s.threads[s.nextTid := NEW_TCB.(priority := prio)], nextTid := s.nextTid + 1)
  }

  function ThreadDelete(s: Sys, t: Tid): (Sys, Status) {
    if t !in s.threads then (s, InvalidId)
    else if Th(s, t).state != Dead then (s, InvalidState)
    else (s.(threads := s.threads - {t}), Success)
  }

  function Activate(s: Sys, t: Tid): (Sys, Status) {
    if t !in s.threads then (s, InvalidId)
    else if Th(s, t).state != Dead then (s, InvalidState)
    else
      var s1 := AddToReady(s, t);
      (if PrioOf(s, t) > PrioOf(s, s.current) then Yield(s1) else s1, Success)
  }

  /** How often t stands in m's queues. */
  function Entries(s: Sys, m: Mid, t: Tid): nat { Times(Mx(s, m).waiting, t) }

  /** The thread that m is handed to next is t. */
  predicate ComesBack(s: Sys, m: Mid, t: Tid) { HasNextOwner(Unlock(s, m), m) && NextOwner(Unlock(s, m), m) == t }

  /** What t still holds once the first of `held` is handed over: a mutex that t itself queues for
      comes back to it, behind the others. */
  function StillHeld(s: Sys, t: Tid, held: seq<Mid>): seq<Mid>
    requires held != []
  {
    held[1..] + if ComesBack(s, held[0], t) then [held[0]] else []
  }

  /** At most so many hand-overs empty `held`. */
  function HandOvers(s: Sys, t: Tid, held: seq<Mid>): nat {
    if held == [] then 0 else 1 + Entries(s, held[0], t) + HandOvers(s, t, held[1..])
  }

  lemma RegrantEntries(s: Sys, m: Mid, n: Mid, t: Tid)
    ensures Entries(Regrant(s, m), n, t) <= Entries(s, n, t)
    ensures ComesBack(s, m, t) ==> Entries(Regrant(s, m), m, t) < Entries(s, m, t)
  {
    hide Cnt;
    var qs := Mx(s, m).waiting;
    if !AllEmpty(qs) { CntPop(qs[Top(qs)], t); }
  }

  lemma {:induction false} FewerHandOvers(s: Sys, m: Mid, t: Tid, held: seq<Mid>)
    ensures HandOvers(Regrant(s, m), t, held) <= HandOvers(s, t, held)
  {
    if held != [] {
      RegrantEntries(s, m, held[0], t);
      FewerHandOvers(s, m, t, held[1..]);
    }
  }

  lemma {:induction false} HandOversAppend(s: Sys, t: Tid, held: seq<Mid>, m: Mid)
    ensures HandOvers(s, t, held + [m]) == HandOvers(s, t, held) + 1 + Entries(s, m, t)
  {
    if held == [] {
      assert [] + [m] == [m];
    } else {
      assert (held + [m])[1..] == held[1..] + [m];
      HandOversAppend(s, t, held[1..], m);
    }
  }

  lemma HandOverProgress(s: Sys, t: Tid, held: seq<Mid>)
    requires held != []
    ensures HandOvers(Regrant(s, held[0]), t, StillHeld(s, t, held)) < HandOvers(s, t, held)
  {
    var m := held[0];
    FewerHandOvers(s, m, t, held[1..]);
    RegrantEntries(s, m, m, t);
    if ComesBack(s, m, t) { HandOversAppend(Regrant(s, m), t, held[1..], m); }
    else { assert held[1..] + [] == held[1..]; }
  }

  /** Hands over every mutex t holds, in order; the flag says whether a thread of priority above
      `prio` woke up. */
  function ReleaseAll(s: Sys, t: Tid, held: seq<Mid>, prio: Prio): (Sys, bool)
    decreases HandOvers(s, t, held)
  {
    if held == [] then (s, false)
    else
      HandOverProgress(s, t, held);
      var r := ReleaseAll(Regrant(s, held[0]), t, StillHeld(s, t, held), prio);
      (r.0, r.1 || Preempts(s, held[0], prio))
  }

  function Killed(s: Sys, t: Tid): Sys { SetTh(s, t, Th(s, t).(state := Dead)) }

  /** Takes the thread out of the queue its old state says it is in. */
  function Unqueue(s: Sys, t: Tid, old_: ThreadState): Sys {
    match old_
    case Ready => RemoveFromReady(s, t)
    case Waiting =>
      RemoveFromWaiting(if Th(s, t).waitingFor == WAITING_MUTEX then StopWaiting(s, Th(s, t).mWants, t) else s, t)
    case _ => s
  }

  function Terminate(s: Sys, t: Tid): (Sys, Status) {
    if t !in s.threads then (s, InvalidId)
    else if Th(s, t).state == Dead then (s, InvalidState)
    else
      var was := Th(s, t).state;
      var r := ReleaseAll(Killed(s, t), t, Th(s, t).mHeld, PrioOf(s, s.current));
      var s2 := SetTh(r.0, t, Th(r.0, t).(mHeld := []));
      var s3 := Unqueue(s2, t, was);
      (if was == Running then ScheduleNext(s3) else if r.1 then Yield(s3) else s3, Success)
  }

  function Sleep(s: Sys, n: Tick): (Sys, Status) {
    if n == TIMEOUT_INFINITE then (s, InvalidParameter)
    else if n == TIMEOUT_IMMEDIATE then (Yield(s), Success)
    else
      var s1 := SetTh(s, s.current, Th(s, s.current).(ticks := n));
      (ScheduleNext(Block(s1, s.current, WAITING_SLEEP)), Success)
  }

  function MutexCreate(s: Sys): Sys {
    s.(mutexes := s.mutexes[s.nextMid := NEW_MUTEX], nextMid := s.nextMid + 1)
  }

  function MutexDelete(s: Sys, m: Mid): (Sys, Status) {
    if m !in s.mutexes then (s, InvalidId)
    else if Mx(s, m).locked then (s, InvalidState)
    else (s.(mutexes := s.mutexes - {m}), Success)
  }

  /** VMMutexAcquire up to its context switch. A caller that has to wait gets no status yet. */
  datatype Outcome = Returned(status: Status) | Suspended

  function Acquire(s: Sys, m: Mid, timeout: Tick): (Sys, Outcome) {
    var c := Th(s, s.current);
    if m !in s.mutexes then (s, Returned(InvalidId))
    else if !Mx(s, m).locked then
      (SetMx(SetTh(s, s.current, c.(mHeld := c.mHeld + [m])), m, Mx(s, m).(locked := true, owner := s.current)),
       Returned(Success))
    else if timeout == TIMEOUT_IMMEDIATE then (s, Returned(Failure))
    else
      var s1 := if timeout == TIMEOUT_INFINITE
                then SetTh(s, s.current, c.(infinite := true, ticks := 0xFFFF_FFFF))
                else SetTh(s, s.current, c.(ticks := timeout));
      (ScheduleNext(Block(WantsMutex(s1, m, s.current), s.current, WAITING_MUTEX)), Suspended)
  }

  /** VMMutexAcquire after its context switch. The code goes on with its pointer to the mutex; when
      that mutex was deleted in between, the call is taken to find nothing and to fail. */
  function Resume(s: Sys, m: Mid): (Sys, Status) {
    (StopWaiting(s, m, s.current), if m in s.mutexes && Mx(s, m).owner == s.current then Success else Failure)
  }

  /** The current thread no longer holds m. */
  function Dropped(s: Sys, m: Mid): Sys {
    var c := Th(s, s.current);
    SetTh(s, s.current, c.(mHeld := RemoveFirst(c.mHeld, m)))
  }

  function Release(s: Sys, m: Mid): (Sys, Status) {
    if m !in s.mutexes then (s, InvalidId)
    else if !Mx(s, m).locked || Mx(s, m).owner != s.current then (s, InvalidState)
    else
      var s1 := Dropped(s, m);
      var s2 := Regrant(s1, m);
      (if Preempts(s1, m, PrioOf(s, s.current)) then Yield(s2) else s2, Success)
  }

  /** A file request followed by waitForIO. */
  function SubmitIO(s: Sys): Sys { ScheduleNext(Block(s, s.current, WAITING_IO)) }

  /** fileHandler: the machine's reply to t's request. */
  function Reply(s: Sys, t: Tid): Sys {
    if Th(s, t).state == Dead then s
    else
      var s1 := AddToReady(RemoveFromWaiting(s, t), t);
      if PrioOf(s, t) > PrioOf(s, s.current) then Yield(s1) else s1
  }

  function Alarm(s: Sys, leave: bool): Sys { Yield(ProcessAllWaiting(s, leave)) }

  /** The system once VMStart has created the main and the idle thread: idle was activated
      and then made ready a second time. */
  const BOOT := Sys(
    map[MAIN := NEW_TCB.(priority := PRIORITY_NORMAL, state := Running), IDLE := NEW_TCB.(state := Ready)],
    [[IDLE, IDLE], [], [], []], NO_QUEUES, map[], MAIN, 3, 1)

  // ----- runs -----

  /** A thread suspended inside VMMutexAcquire(mid, timeout). */
  datatype Cont = Cont(mid: Mid, infinite: bool)

  datatype World = World(sys: Sys, cont: map<Tid, Cont>, pending: set<Tid>)

  datatype Op =
    | DoCreate(prio: Prio) | DoDelete(t: Tid) | DoActivate(t: Tid) | DoTerminate(t: Tid)
    | DoSleep(n: Tick) | DoMutexCreate | DoMutexDelete(m: Mid)
    | DoAcquire(m: Mid, timeout: Tick) | DoResume | DoRelease(m: Mid)
    | DoSubmitIO | DoReply(t: Tid) | DoAlarm

  predicate InMutexQueue(s: Sys, t: Tid) {
    exists m :: m in s.mutexes && InQueues(s.mutexes[m].waiting, t)
  }

  predicate Unreferenced(w: World, t: Tid) {
    && !InQueues(w.sys.ready, t) && !InQueues(w.sys.waiting, t) && !InMutexQueue(w.sys, t)
    && (forall m :: m in w.sys.mutexes && w.sys.mutexes[m].locked ==> w.sys.mutexes[m].owner != t)
    && t !in w.pending && t != w.sys.current && t != IDLE
  }

  predicate IsInterrupt(op: Op) { op.DoAlarm? || op.DoReply? }

  /** Which steps can happen. Signals are suspended from a context switch inside
      VMMutexAcquire to its return, so a suspended acquirer that runs again does nothing else
      first. The idle thread makes no calls. The rest is what callers must respect. */
  predicate Enabled(w: World, op: Op) {
    var s := w.sys;
    && (op.DoResume? <==> s.current in w.cont)
    && (s.current == IDLE ==> IsInterrupt(op))
    && match op
       case DoActivate(t) => t !in w.pending
       case DoDelete(t) => t in s.threads && Th(s, t).state == Dead ==> Unreferenced(w, t)
       case DoTerminate(t) => t != IDLE
       case DoAcquire(m, timeout) => Mx(s, m).locked && Mx(s, m).owner == s.current ==> timeout == TIMEOUT_IMMEDIATE
       case DoReply(t) => t in w.pending
       case _ => true
  }

  function Step(w: World, op: Op, leave: bool): World
    requires Enabled(w, op)
  {
    var s := w.sys;
    match op
    case DoCreate(prio) => w.(sys := ThreadCreate(s, prio))
    case DoDelete(t) =>
      var r := ThreadDelete(s, t);
      World(r.0, if r.1 == Success then w.cont - {t} else w.cont, w.pending)
    case DoActivate(t) =>
      var r := Activate(s, t);
      World(r.0, if r.1 == Success then w.cont - {t} else w.cont, w.pending)
    case DoTerminate(t) => w.(sys := Terminate(s, t).0)
    case DoSleep(n) => w.(sys := Sleep(s, n).0)
    case DoMutexCreate => w.(sys := MutexCreate(s))
    case DoMutexDelete(m) => w.(sys := MutexDelete(s, m).0)
    case DoAcquire(m, timeout) =>
      var r := Acquire(s, m, timeout);
      var inside := w.cont[s.current := Cont(m, timeout == TIMEOUT_INFINITE)];
      World(r.0, if r.1.Suspended? then inside else w.cont, w.pending)
    case DoResume => World(Resume(s, w.cont[s.current].mid).0, w.cont - {s.current}, w.pending)
    case DoRelease(m) => w.(sys := Release(s, m).0)
    case DoSubmitIO => World(SubmitIO(s), w.cont, w.pending + {s.current})
    case DoReply(t) => World(Reply(s, t), w.cont, w.pending - {t})
    case DoAlarm => w.(sys := Alarm(s, leave))
  }

  const START := World(BOOT, map[], {})

  ghost predicate ValidRun(w: World, ops: seq<Op>, leave: bool)
    decreases |ops|
  {
    ops == [] || (Enabled(w, ops[0]) && ValidRun(Step(w, ops[0], leave), ops[1..], leave))
  }

  ghost function Run(w: World, ops: seq<Op>, leave: bool): World
    requires ValidRun(w, ops, leave)
    decreases |ops|
  {
    if ops == [] then w else Run(Step(w, ops[0], leave), ops[1..], leave)
  }
}
