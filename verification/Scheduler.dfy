/** Thread control blocks, mutexes and the scheduler as the objects the code keeps, each
    method proved against the transition of the same name in `Kernel`. The queues hold thread
    ids where the code holds pointers; `threads` is the table that resolves them. */
module Scheduling {
  import opened Kernel
  import opened KernelSafety

  type ThreadTable = map<Tid, ThreadControlBlock>

  class ThreadControlBlock {
    const tid: Tid
    const priority: Prio
    var state: ThreadState
    var waitingFor: nat
    var ticksLeft: Tick
    var mWants: Mid
    var infiniteFlag: bool
    var mHeld: seq<Mid>

    ghost function Rec(): Tcb
      reads this
    {
      Tcb(priority, state, waitingFor, ticksLeft, mWants, infiniteFlag, mHeld)
    }

    constructor (tid: Tid, priority: Prio)
      ensures this.tid == tid && Rec() == NEW_TCB.(priority := priority)
    {
      this.tid := tid;
      this.priority := priority;
      state := Dead;
      waitingFor := WAITING_NOTHING;
      ticksLeft := 0;
      mWants := NO_MUTEX;
      infiniteFlag := false;
      mHeld := [];
    }

    /** setWaitingFor(NOTHING), setTicks(0), setInfiniteFlag(false). */
    method ClearWait()
      modifies this
      ensures Rec() == old(Rec()).(waitingFor := WAITING_NOTHING, ticks := 0, infinite := false)
    {
      waitingFor := WAITING_NOTHING;
      ticksLeft := 0;
      infiniteFlag := false;
    }

    /** setWaitingFor(NOTHING), setInfiniteFlag(false). */
    method Awaken()
      modifies this
      ensures Rec() == old(Rec()).(waitingFor := WAITING_NOTHING, infinite := false)
    {
      waitingFor := WAITING_NOTHING;
      infiniteFlag := false;
    }

    method Expire()
      modifies this
      ensures Rec() == old(Rec()).(waitingFor := WAITING_NOTHING, ticks := 0, infinite := false, mWants := NO_MUTEX)
    {
      waitingFor := WAITING_NOTHING;
      ticksLeft := 0;
      infiniteFlag := false;
      mWants := NO_MUTEX;
    }

    method PrepareWait(reason: Prio, n: Tick, endless: bool)
      modifies this
      ensures Rec() == old(Rec()).(waitingFor := reason, ticks := n, infinite := old(infiniteFlag) || endless)
    {
      waitingFor := reason;
      if endless { infiniteFlag := true; }
      ticksLeft := n;
    }

    method Hold(m: Mid)
      modifies this
      ensures Rec() == old(Rec()).(mHeld := old(mHeld) + [m])
    {
      mHeld := mHeld + [m];
    }

    /** VMMutexRelease's loop, which steps over the entry behind an erased one. */
    method Drop(m: Mid)
      requires Cnt(mHeld, m) == 1
      modifies this
      ensures Rec() == old(Rec()).(mHeld := RemoveFirst(old(mHeld), m))
    {
      ghost var held := mHeld;
      ghost var dropped := false;
      CntMember(held, m);
      var i := 0;
      while i < |mHeld|
        invariant 0 <= i
        invariant Rec() == old(Rec()).(mHeld := mHeld)
        invariant !dropped ==> i <= |held| && mHeld == held && forall k :: 0 <= k < i ==> held[k] != m
        invariant dropped ==> mHeld == RemoveFirst(held, m) && m !in mHeld
      {
        if mHeld[i] == m {
          RemoveFirstAt(held, i, m);
          CntRemoveFirst(held, m, m);
          CntMember(RemoveFirst(held, m), m);
          mHeld := mHeld[..i] + mHeld[i + 1..];
          dropped := true;
        }
        i := i + 1;
      }
    }

    method SetState(newState: ThreadState)
      modifies this
      ensures Rec() == old(Rec()).(state := newState)
    {
      state := newState;
    }

    method DecrementTicks()
      modifies this`ticksLeft
      ensures ticksLeft == if infiniteFlag then old(ticksLeft)
                           else if old(ticksLeft) == 0 then 0xFFFF_FFFF else old(ticksLeft) - 1
    {
      if !infiniteFlag {
        ticksLeft := if ticksLeft == 0 then 0xFFFF_FFFF else ticksLeft - 1;
      }
    }

    method HasMutex() returns (found: bool)
      ensures found == (mWants in mHeld)
    {
      for i := 0 to |mHeld|
        invariant mWants !in mHeld[..i]
      {
        if mWants == mHeld[i] { return true; }
      }
      return false;
    }
  }

  /** Erasing index j, the first place where t occurs. */
  lemma {:induction false} RemoveFirstAt(q: seq<nat>, j: nat, t: nat)
    requires j < |q| && q[j] == t && forall i :: 0 <= i < j ==> q[i] != t
    ensures RemoveFirst(q, t) == q[..j] + q[j + 1..] && t in q
  {
    if j > 0 {
      forall i | 0 <= i < j - 1 ensures q[1..][i] != t { assert q[1..][i] == q[i + 1]; }
      RemoveFirstAt(q[1..], j - 1, t);
      assert [q[0]] + (q[1..][..j - 1] + q[1..][j..]) == q[..j] + q[j + 1..];
    }
  }

  lemma EraseAt(qs: Queues, p: Prio, j: nat, t: Tid)
    requires forall r: Prio :: r < p ==> t !in qs[r]
    requires j < |qs[p]| && qs[p][j] == t && t !in qs[p][..j]
    ensures Erase(qs, t) == qs[p := qs[p][..j] + qs[p][j + 1..]] && InQueues(qs, t)
  {
    forall i | 0 <= i < j ensures qs[p][i] != t { assert qs[p][i] == qs[p][..j][i]; }
    RemoveFirstAt(qs[p], j, t);
  }

  /** The scan every removal makes: queue by queue, entry by entry, up to the first t. */
  method Locate(qs: Queues, t: Tid) returns (found: bool, p: Prio, j: nat)
    ensures found == InQueues(qs, t)
    ensures found ==> j < |qs[p]| && qs[p][j] == t && Erase(qs, t) == qs[p := qs[p][..j] + qs[p][j + 1..]]
    ensures !found ==> Erase(qs, t) == qs
  {
    found, p, j := false, 0, 0;
    for i := 0 to 4
      invariant !found && forall r: Prio :: r < i ==> t !in qs[r]
    {
      for k := 0 to |qs[i]|
        invariant t !in qs[i][..k]
      {
        if qs[i][k] == t {
          EraseAt(qs, i, k, t);
          return true, i, k;
        }
      }
    }
  }

  /** The scan from the highest priority down to the first queue that is not empty. */
  method HighestNonEmpty(qs: Queues) returns (i: Prio)
    requires !AllEmpty(qs)
    ensures i == Top(qs)
  {
    i := 3;
    while qs[i] == []
      invariant forall p: Prio :: i < p ==> qs[p] == []
      decreases i
    {
      i := i - 1;
    }
  }

  class Mutex {
    const mid: Mid
    var isLocked: bool
    var owner: Tid
    var waiting: Queues

    ghost function Rec(): MutexRec
      reads this
    {
      MutexRec(isLocked, owner, waiting)
    }

    constructor (mid: Mid)
      ensures this.mid == mid && Rec() == NEW_MUTEX
    {
      this.mid := mid;
      isLocked := false;
      owner := 0;
      waiting := [[], [], [], []];
    }

    /** Hands a free mutex to the front of the highest non-empty queue. */
    method GetNextOwner(threads: ThreadTable) returns (newOwner: ThreadControlBlock?)
      requires forall p: Prio, t :: t in waiting[p] ==> t in threads && threads[t].tid == t
      modifies this, (set t | t in threads && InQueues(waiting, t) :: threads[t])
      ensures (newOwner == null) == (old(isLocked) || AllEmpty(old(waiting)))
      ensures newOwner == null ==> Rec() == old(Rec())
      ensures newOwner != null ==>
                var t := old(waiting)[Top(old(waiting))][0];
                && newOwner == threads[t] && Rec() == MutexRec(true, t, Pop(old(waiting)))
                && newOwner.Rec() == old(newOwner.Rec()).(mHeld := old(newOwner.mHeld) + [mid], mWants := NO_MUTEX)
      ensures forall t :: t in threads && threads[t] != newOwner ==> threads[t].Rec() == old(threads[t].Rec())
    {
      newOwner := null;
      if !isLocked && !AllEmpty(waiting) {
        var i := HighestNonEmpty(waiting);
        var t := waiting[i][0];
        assert t in waiting[i];
        newOwner := threads[t];
        waiting := waiting[i := waiting[i][1..]];
        newOwner.mHeld := newOwner.mHeld + [mid];
        newOwner.mWants := NO_MUTEX;
        owner := t;
        isLocked := true;
      }
    }

    method SetOwner(locked: bool, t: Tid)
      modifies this
      ensures Rec() == old(Rec()).(locked := locked, owner := t)
    {
      isLocked := locked;
      owner := t;
    }

    method WantsMutex(x: ThreadControlBlock)
      modifies this`waiting, x`mWants
      ensures x.mWants == mid && waiting == Push(old(waiting), x.priority, x.tid)
    {
      x.mWants := mid;
      waiting := waiting[x.priority := waiting[x.priority] + [x.tid]];
    }

    /** Takes the first entry of tid out of the queues. */
    method StopWaiting(threads: ThreadTable, tid: Tid)
      requires InQueues(waiting, tid) ==> tid in threads
      modifies this`waiting, (set t | t in threads && t == tid :: threads[t])`mWants
      ensures waiting == Erase(old(waiting), tid)
      ensures InQueues(old(waiting), tid) ==> threads[tid].mWants == NO_MUTEX
      ensures !InQueues(old(waiting), tid) ==> forall t :: t in threads ==> threads[t].mWants == old(threads[t].mWants)
    {
      var found, p, j := Locate(waiting, tid);
      if found {
        threads[tid].mWants := NO_MUTEX;
        waiting := waiting[p := waiting[p][..j] + waiting[p][j + 1..]];
      }
    }
  }

  ghost function ThreadsView(threads: ThreadTable): (v: map<Tid, Tcb>)
    reads threads.Values
    ensures v.Keys == threads.Keys
  {
    map t | t in threads :: threads[t].Rec()
  }

  ghost function MutexesView(mutexes: map<Mid, Mutex>): (v: map<Mid, MutexRec>)
    reads mutexes.Values
    ensures v.Keys == mutexes.Keys
  {
    map m | m in mutexes :: mutexes[m].Rec()
  }

  ghost predicate Named(threads: ThreadTable, mutexes: map<Mid, Mutex>) {
    (forall t :: t in threads ==> threads[t].tid == t) && (forall m :: m in mutexes ==> mutexes[m].mid == m)
  }

  lemma ThreadChanged(was: map<Tid, Tcb>, threads: ThreadTable, t: Tid)
    requires t in threads && was.Keys == threads.Keys
    requires forall u :: u in threads && u != t ==> threads[u].Rec() == was[u]
    ensures ThreadsView(threads) == was[t := threads[t].Rec()]
  {}

  lemma MutexChanged(was: map<Mid, MutexRec>, mutexes: map<Mid, Mutex>, m: Mid)
    requires m in mutexes && was.Keys == mutexes.Keys
    requires forall n :: n in mutexes && n != m ==> mutexes[n].Rec() == was[n]
    ensures MutexesView(mutexes) == was[m := mutexes[m].Rec()]
  {}

  lemma BootQueues()
    ensures Push(Push(NO_QUEUES, 0, IDLE), 0, IDLE) == BOOT.ready
  {
    assert Push(NO_QUEUES, 0, IDLE)[0] == [IDLE];
    assert Push(Push(NO_QUEUES, 0, IDLE), 0, IDLE)[0] == [IDLE, IDLE];
  }

  class Scheduler {
    var threads: ThreadTable
    var readyQueues: Queues
    var waitingQueues: Queues
    var mutexes: map<Mid, Mutex>
    var current: Tid
    var nextTid: Tid
    var nextMid: Mid

    ghost predicate Valid()
      reads this
    {
      Named(threads, mutexes)
    }

    ghost function View(): Sys
      reads this, threads.Values, mutexes.Values
    {
      Sys(ThreadsView(threads), readyQueues, waitingQueues, MutexesView(mutexes), current, nextTid, nextMid)
    }

    /** The main and the idle thread exist; nothing is queued yet. */
    constructor ()
      ensures Valid() && threads.Keys == {MAIN, IDLE} && mutexes == map[]
      ensures fresh(threads[MAIN]) && fresh(threads[IDLE])
      ensures threads[MAIN].Rec() == BOOT.threads[MAIN] && threads[IDLE].Rec() == NEW_TCB
      ensures readyQueues == NO_QUEUES && waitingQueues == NO_QUEUES
      ensures current == MAIN && nextTid == 3 && nextMid == 1
    {
      var main := new ThreadControlBlock(MAIN, PRIORITY_NORMAL);
      var idle := new ThreadControlBlock(IDLE, 0);
      main.state := Running;
      threads := map[MAIN := main, IDLE := idle];
      readyQueues, waitingQueues := NO_QUEUES, NO_QUEUES;
      mutexes := map[];
      current := MAIN;
      nextTid, nextMid := 3, 1;
    }

    /** VMStart activates the idle thread and then makes it ready once more. */
    static method Boot() returns (s: Scheduler)
      ensures fresh(s) && s.Valid() && s.View() == BOOT
    {
      hide ThreadControlBlock.Rec, MutexesView, Mutex.Rec;
      s := new Scheduler();
      s.AddToReady(IDLE);
      s.AddToReady(IDLE);
      BootQueues();
      assert s.View().threads == BOOT.threads;
    }

    method AddToReady(t: Tid)
      requires Valid() && t in threads
      modifies this`readyQueues, threads[t]
      ensures Valid() && View() == Kernel.AddToReady(old(View()), t)
      ensures readyQueues == Push(old(readyQueues), threads[t].priority, t)
    {
      var x := threads[t];
      x.SetState(Ready);
      readyQueues := readyQueues[x.priority := readyQueues[x.priority] + [t]];
      ThreadChanged(old(ThreadsView(threads)), threads, t);
    }

    method AddToWaiting(t: Tid)
      requires Valid() && t in threads && threads[t].waitingFor < 4
      modifies this`waitingQueues, threads[t]
      ensures Valid() && View() == Kernel.Block(old(View()), t, old(threads[t].waitingFor))
    {
      var x := threads[t];
      x.SetState(Waiting);
      waitingQueues := waitingQueues[x.waitingFor := waitingQueues[x.waitingFor] + [t]];
      ThreadChanged(old(ThreadsView(threads)), threads, t);
    }

    /** setWaitingFor, setTicks and, for an endless wait, setInfiniteFlag(true). */
    method PrepareWait(t: Tid, reason: Prio, ticks: Tick, endless: bool)
      requires Valid() && t in threads
      modifies threads.Values
      ensures Valid() && threads[t].waitingFor == reason
      ensures var c := Th(old(View()), t);
              View() == SetTh(old(View()), t,
                c.(waitingFor := reason, ticks := ticks, infinite := c.infinite || endless))
    {
      threads[t].PrepareWait(reason, ticks, endless);
      ThreadChanged(old(ThreadsView(threads)), threads, t);
    }

    method SetState(t: Tid, state: ThreadState)
      requires Valid() && t in threads
      modifies threads.Values
      ensures Valid() && View() == SetTh(old(View()), t, Th(old(View()), t).(state := state))
    {
      threads[t].SetState(state);
      ThreadChanged(old(ThreadsView(threads)), threads, t);
    }

    method ClearHeld(t: Tid)
      requires Valid() && t in threads
      modifies threads.Values
      ensures Valid() && View() == SetTh(old(View()), t, Th(old(View()), t).(mHeld := []))
    {
      threads[t].mHeld := [];
      ThreadChanged(old(ThreadsView(threads)), threads, t);
    }

    method RemoveFromReady(t: Tid)
      requires Valid()
      modifies this`readyQueues
      ensures Valid() && View() == Kernel.RemoveFromReady(old(View()), t)
    {
      var found, p, j := Locate(readyQueues, t);
      if found {
        readyQueues := readyQueues[p := readyQueues[p][..j] + readyQueues[p][j + 1..]];
      }
    }

    method RemoveFromWaiting(t: Tid)
      requires Valid() && (InQueues(waitingQueues, t) ==> t in threads)
      modifies this`waitingQueues, threads.Values
      ensures Valid() && View() == Kernel.RemoveFromWaiting(old(View()), t)
    {
      hide InQueues, ThreadControlBlock.Rec, MutexesView;
      var found, p, j := Locate(waitingQueues, t);
      if found {
        threads[t].ClearWait();
        ThreadChanged(old(ThreadsView(threads)), threads, t);
        waitingQueues := waitingQueues[p := waitingQueues[p][..j] + waitingQueues[p][j + 1..]];
      }
    }

    /** The caller shows that some ready queue is not empty. */
    method ScheduleNext()
      requires Valid() && !AllEmpty(readyQueues)
      requires forall p: Prio, t :: t in readyQueues[p] ==> t in threads
      modifies this`readyQueues, this`current, threads.Values
      ensures Valid() && View() == Kernel.ScheduleNext(old(View()))
    {
      hide ThreadControlBlock.Rec, MutexesView;
      var i := HighestNonEmpty(readyQueues);
      var t := readyQueues[i][0];
      assert t in readyQueues[i];
      readyQueues := readyQueues[i := readyQueues[i][1..]];
      threads[t].SetState(Running);
      ThreadChanged(old(ThreadsView(threads)), threads, t);
      if t != current {
        current := t;
      }
    }

    method Decrement(t: Tid)
      requires Valid() && t in threads
      modifies threads.Values
      ensures Valid() && View() == Kernel.DecrementTicks(old(View()), t)
    {
      threads[t].DecrementTicks();
      ThreadChanged(old(ThreadsView(threads)), threads, t);
      assert threads[t].infiniteFlag ==> ThreadsView(threads) == old(ThreadsView(threads));
    }

    method Awaken(t: Tid)
      requires Valid() && t in threads
      modifies threads.Values
      ensures Valid()
      ensures View() == SetTh(old(View()), t, Th(old(View()), t).(waitingFor := WAITING_NOTHING, infinite := false))
    {
      threads[t].Awaken();
      ThreadChanged(old(ThreadsView(threads)), threads, t);
    }

    /** One turn of the sleepers' loop, at index i: the sleeper is decremented and, when its time
        is up, made ready and erased from the queue. */
    method TickSleeper(i: nat) returns (woke: bool)
      requires Valid() && i < |waitingQueues[WAITING_SLEEP]| && waitingQueues[WAITING_SLEEP][i] in threads
      modifies this`readyQueues, this`waitingQueues, threads.Values
      ensures Valid()
      ensures var q := old(waitingQueues[WAITING_SLEEP]);
              var s1 := Kernel.DecrementTicks(old(View()), q[i]);
              && woke == (Th(s1, q[i]).ticks == 0)
              && View() == if woke
                   then WakeSleeper(s1, q[i]).(waiting := old(waitingQueues)[WAITING_SLEEP := q[..i] + q[i + 1..]])
                           else s1
    {
      var q := waitingQueues[WAITING_SLEEP];
      Decrement(q[i]);
      ghost var s1 := View();
      woke := threads[q[i]].ticksLeft == 0;
      if woke {
        Awaken(q[i]);
        AddToReady(q[i]);
        ghost var s2 := View();
        assert s2 == WakeSleeper(s1, q[i]);
        Dequeue(WAITING_SLEEP, i);
      }
    }

    method Dequeue(r: Prio, i: nat)
      requires Valid() && i < |waitingQueues[r]|
      modifies this`waitingQueues
      ensures Valid()
      ensures var q := old(waitingQueues[r]);
              View() == old(View()).(waiting := old(waitingQueues)[r := q[..i] + q[i + 1..]])
    {
      waitingQueues := waitingQueues[r := waitingQueues[r][..i] + waitingQueues[r][i + 1..]];
    }

    /** setMutexWants(0) with the rest of what an expired waiter loses. */
    method ExpireWaiter(t: Tid)
      requires Valid() && t in threads
      modifies this`readyQueues, threads.Values
      ensures Valid() && View() == Kernel.ExpireWaiter(old(View()), t, false)
    {
      threads[t].Expire();
      ThreadChanged(old(ThreadsView(threads)), threads, t);
      AddToReady(t);
    }

    method TickWaiter(i: nat) returns (woke: bool)
      requires Valid() && i < |waitingQueues[WAITING_MUTEX]| && waitingQueues[WAITING_MUTEX][i] in threads
      modifies this`readyQueues, this`waitingQueues, threads.Values
      ensures Valid()
      ensures var q := old(waitingQueues[WAITING_MUTEX]);
              var s1 := Kernel.DecrementTicks(old(View()), q[i]);
              && woke == (Kernel.HasMutex(Th(s1, q[i])) || Th(s1, q[i]).ticks == 0)
              && View() == if woke then Kernel.ExpireWaiter(s1, q[i], false)
                                        .(waiting := old(waitingQueues)[WAITING_MUTEX := q[..i] + q[i + 1..]])
                           else s1
    {
      var q := waitingQueues[WAITING_MUTEX];
      Decrement(q[i]);
      ghost var s1 := View();
      var has := threads[q[i]].HasMutex();
      woke := has || threads[q[i]].ticksLeft == 0;
      if woke {
        ExpireWaiter(q[i]);
        ghost var s2 := View();
        assert s2 == Kernel.ExpireWaiter(s1, q[i], false);
        Dequeue(WAITING_MUTEX, i);
      }
    }

    method ProcessAllWaiting()
      requires Valid() && forall p: Prio, t :: t in waitingQueues[p] ==> t in threads
      modifies this`readyQueues, this`waitingQueues, threads.Values
      ensures Valid() && View() == Kernel.ProcessAllWaiting(old(View()), false)
    {
      SweepSleepers();
      SweepMutexWaiters();
    }

    method SweepSleepers()
      requires Valid() && forall p: Prio, t :: t in waitingQueues[p] ==> t in threads
      modifies this`readyQueues, this`waitingQueues, threads.Values
      ensures Valid() && View() == SweepSleep(old(View()), [], old(waitingQueues)[WAITING_SLEEP])
      ensures forall p: Prio, t :: t in waitingQueues[p] ==> t in threads
    {
      hide ThreadControlBlock.Rec, MutexesView, ThreadsView, Push, Th;
      var i, counter := 0, |waitingQueues[WAITING_SLEEP]|;
      ghost var all := waitingQueues[WAITING_SLEEP];
      assert all[..0] == [] && all[0..] == all;
      while counter != 0
        invariant Valid() && 0 <= i && 0 <= counter && i + counter == |waitingQueues[WAITING_SLEEP]|
        invariant forall p: Prio, t :: t in waitingQueues[p] ==> t in threads
        invariant SweepSleep(View(), waitingQueues[WAITING_SLEEP][..i], waitingQueues[WAITING_SLEEP][i..])
               == SweepSleep(old(View()), [], all)
        decreases counter
      {
        counter := counter - 1;
        assert waitingQueues[WAITING_SLEEP][i] in waitingQueues[WAITING_SLEEP];
        SweepSleepTurn(View(), waitingQueues[WAITING_SLEEP], i);
        var woke := TickSleeper(i);
        if !woke { i := i + 1; }
      }
      assert waitingQueues[WAITING_SLEEP][..i] == waitingQueues[WAITING_SLEEP];
      assert View().waiting[WAITING_SLEEP := waitingQueues[WAITING_SLEEP]] == View().waiting;
    }

    method SweepMutexWaiters()
      requires Valid() && forall p: Prio, t :: t in waitingQueues[p] ==> t in threads
      modifies this`readyQueues, this`waitingQueues, threads.Values
      ensures Valid() && View() == SweepMutex(old(View()), [], old(waitingQueues)[WAITING_MUTEX], false)
    {
      hide ThreadsView;
      var i, counter := 0, |waitingQueues[WAITING_MUTEX]|;
      ghost var all := waitingQueues[WAITING_MUTEX];
      assert all[..0] == [] && all[0..] == all;
      while counter != 0
        invariant Valid() && 0 <= i && 0 <= counter && i + counter == |waitingQueues[WAITING_MUTEX]|
        invariant forall p: Prio, t :: t in waitingQueues[p] ==> t in threads
        invariant SweepMutex(View(), waitingQueues[WAITING_MUTEX][..i], waitingQueues[WAITING_MUTEX][i..], false)
               == SweepMutex(old(View()), [], all, false)
        decreases counter
      {
        counter := counter - 1;
        assert waitingQueues[WAITING_MUTEX][i] in waitingQueues[WAITING_MUTEX];
        SweepMutexTurn(View(), waitingQueues[WAITING_MUTEX], i);
        var woke := TickWaiter(i);
        if !woke { i := i + 1; }
      }
      assert waitingQueues[WAITING_MUTEX][..i] == waitingQueues[WAITING_MUTEX];
      assert View().waiting[WAITING_MUTEX := waitingQueues[WAITING_MUTEX]] == View().waiting;
    }

    // ----- mutexes -----

    ghost predicate WaitersKnown(m: Mid)
      reads this, mutexes.Values
    {
      m in mutexes && forall p: Prio, t :: t in mutexes[m].waiting[p] ==> t in threads
    }

    method StopWaiting(m: Mid, t: Tid)
      requires Valid() && WaitersKnown(m)
      modifies mutexes.Values, threads.Values
      ensures Valid() && View() == Kernel.StopWaiting(old(View()), m, t)
    {
      ghost var s, there := View(), InQueues(mutexes[m].waiting, t);
      mutexes[m].StopWaiting(threads, t);
      MutexChanged(old(MutexesView(mutexes)), mutexes, m);
      if there {
        ThreadChanged(old(ThreadsView(threads)), threads, t);
      } else {
        assert ThreadsView(threads) == s.threads;
        assert MutexesView(mutexes) == s.mutexes;
      }
    }

    method WantsMutex(m: Mid, t: Tid)
      requires Valid() && m in mutexes && t in threads
      modifies mutexes.Values, threads.Values
      ensures Valid() && View() == Kernel.WantsMutex(old(View()), m, t)
    {
      mutexes[m].WantsMutex(threads[t]);
      MutexChanged(old(MutexesView(mutexes)), mutexes, m);
      ThreadChanged(old(ThreadsView(threads)), threads, t);
    }

    method Unlock(m: Mid)
      requires Valid() && m in mutexes
      modifies mutexes.Values
      ensures Valid() && View() == Kernel.Unlock(old(View()), m)
    {
      mutexes[m].SetOwner(false, 0);
      MutexChanged(old(MutexesView(mutexes)), mutexes, m);
    }

    method Lock(m: Mid, t: Tid)
      requires Valid() && m in mutexes && t in threads
      modifies mutexes.Values, threads.Values
      ensures Valid()
      ensures var s := old(View());
              View() == SetMx(SetTh(s, t, Th(s, t).(mHeld := Th(s, t).mHeld + [m])), m,
                Mx(s, m).(locked := true, owner := t))
    {
      threads[t].Hold(m);
      mutexes[m].SetOwner(true, t);
      MutexChanged(old(MutexesView(mutexes)), mutexes, m);
      ThreadChanged(old(ThreadsView(threads)), threads, t);
    }

    method Drop(t: Tid, m: Mid)
      requires Valid() && t in threads && Cnt(threads[t].mHeld, m) == 1
      modifies threads.Values
      ensures Valid()
      ensures View() == SetTh(old(View()), t, Th(old(View()), t).(mHeld := RemoveFirst(Th(old(View()), t).mHeld, m)))
    {
      threads[t].Drop(m);
      ThreadChanged(old(ThreadsView(threads)), threads, t);
    }

    method GetNextOwner(m: Mid) returns (newOwner: ThreadControlBlock?)
      requires Valid() && WaitersKnown(m)
      modifies mutexes.Values, threads.Values
      ensures Valid() && View() == Kernel.GetNextOwner(old(View()), m)
      ensures (newOwner != null) == HasNextOwner(old(View()), m)
      ensures newOwner != null ==>
                && newOwner.tid == NextOwner(old(View()), m)
                && newOwner.tid in threads && threads[newOwner.tid] == newOwner
    {
      newOwner := mutexes[m].GetNextOwner(threads);
      if newOwner != null {
        MutexChanged(old(MutexesView(mutexes)), mutexes, m);
        ThreadChanged(old(ThreadsView(threads)), threads, newOwner.tid);
      } else {
        MutexChanged(old(MutexesView(mutexes)), mutexes, m);
        assert ThreadsView(threads) == old(ThreadsView(threads));
      }
    }

    /** Frees m and hands it on; tells whether that woke a thread of priority above prio. */
    method HandOver(m: Mid, prio: Prio) returns (wake: bool)
      requires Valid() && WaitersKnown(m)
      modifies this`readyQueues, this`waitingQueues, mutexes.Values, threads.Values
      ensures Valid() && View() == Regrant(old(View()), m) && wake == Preempts(old(View()), m, prio)
    {
      Unlock(m);
      ghost var s1 := View();
      var newOwner := GetNextOwner(m);
      wake := false;
      if newOwner != null {
        ghost var s2 := View();
        RemoveFromWaiting(newOwner.tid);
        ghost var s3 := View();
        AddToReady(newOwner.tid);
        assert View() == Kernel.AddToReady(s3, newOwner.tid) && s3 == Kernel.RemoveFromWaiting(s2, newOwner.tid);
        wake := newOwner.priority > prio;
      }
    }
  }

  /** A sweep overwrites its own queue, so what that queue holds meanwhile does not matter. */
  lemma {:induction false} SweepSleepForgets(s: Sys, q: seq<Tid>, kept: seq<Tid>, left: seq<Tid>)
    ensures SweepSleep(s.(waiting := s.waiting[WAITING_SLEEP := q]), kept, left) == SweepSleep(s, kept, left)
    decreases |left|
  {
    if left != [] {
      var s1 := Kernel.DecrementTicks(s, left[0]);
      if Th(s1, left[0]).ticks == 0 { SweepSleepForgets(WakeSleeper(s1, left[0]), q, kept, left[1..]); }
      else { SweepSleepForgets(s1, q, kept + [left[0]], left[1..]); }
    }
  }

  lemma {:induction false} SweepMutexForgets(s: Sys, q: seq<Tid>, kept: seq<Tid>, left: seq<Tid>)
    ensures SweepMutex(s.(waiting := s.waiting[WAITING_MUTEX := q]), kept, left, false) ==
              SweepMutex(s, kept, left, false)
    decreases |left|
  {
    if left != [] {
      var s1 := Kernel.DecrementTicks(s, left[0]);
      if Kernel.HasMutex(Th(s1, left[0])) || Th(s1, left[0]).ticks == 0 {
        SweepMutexForgets(Kernel.ExpireWaiter(s1, left[0], false), q, kept, left[1..]);
      } else {
        SweepMutexForgets(s1, q, kept + [left[0]], left[1..]);
      }
    }
  }

  /** One turn of the loop is one step of the sweep. */
  lemma SweepSleepTurn(s: Sys, q: seq<Tid>, i: nat)
    requires i < |q|
    ensures var s1 := Kernel.DecrementTicks(s, q[i]);
            var q' := q[..i] + q[i + 1..];
            SweepSleep(s, q[..i], q[i..]) ==
            if Th(s1, q[i]).ticks == 0
            then SweepSleep(WakeSleeper(s1, q[i]).(waiting := s.waiting[WAITING_SLEEP := q']), q'[..i], q'[i..])
            else SweepSleep(s1, q[..i + 1], q[i + 1..])
  {
    var q' := q[..i] + q[i + 1..];
    assert q'[..i] == q[..i] && q'[i..] == q[i + 1..];
    assert q[i..][0] == q[i] && q[i..][1..] == q[i + 1..] && q[..i] + [q[i]] == q[..i + 1];
    SweepSleepForgets(WakeSleeper(Kernel.DecrementTicks(s, q[i]), q[i]), q', q[..i], q[i + 1..]);
  }

  lemma SweepMutexTurn(s: Sys, q: seq<Tid>, i: nat)
    requires i < |q|
    ensures var s1 := Kernel.DecrementTicks(s, q[i]);
            var q' := q[..i] + q[i + 1..];
            SweepMutex(s, q[..i], q[i..], false) ==
            if Kernel.HasMutex(Th(s1, q[i])) || Th(s1, q[i]).ticks == 0
            then SweepMutex(Kernel.ExpireWaiter(s1, q[i], false).(waiting := s.waiting[WAITING_MUTEX := q']), q'[..i],
                             q'[i..], false)
            else SweepMutex(s1, q[..i + 1], q[i + 1..], false)
  {
    var q' := q[..i] + q[i + 1..];
    assert q'[..i] == q[..i] && q'[i..] == q[i + 1..];
    assert q[i..][0] == q[i] && q[i..][1..] == q[i + 1..] && q[..i] + [q[i]] == q[..i + 1];
    SweepMutexForgets(Kernel.ExpireWaiter(Kernel.DecrementTicks(s, q[i]), q[i], false), q', q[..i], q[i + 1..]);
  }
}
