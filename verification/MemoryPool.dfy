/** The memory pool in the form the program has it: an object with two lists of segments that its
    methods search and change, proved against the functions of Pool. */
module MemoryPools {
  import opened Pool
  import opened PoolRuns

  class MemoryPool {
    const memBase: nat
    const memSize: nat
    var memFree: seq<Segment>
    var memAlloc: seq<Segment>

    constructor (base: nat, size: nat)
      ensures View() == New(base, size) && (size > 0 ==> PoolOk(View()))
    {
      if size > 0 { NewOk(base, size); }
      memBase, memSize := base, size;
      memFree, memAlloc := [SegmentAt(base, size)], [];
    }

    ghost function View(): MemPool
      reads this
    {
      MemPool(memBase, memSize, memFree, memAlloc)
    }

    /** query_remaining */
    method QueryRemaining() returns (size: nat)
      ensures size == Remaining(View())
    {
      size := 0;
      for i := 0 to |memFree|
        invariant size + Sum(memFree[i..]) == Sum(memFree)
      {
        assert memFree[i..][1..] == memFree[i + 1..];
        size := size + memFree[i].size;
      }
    }

    /** allocate_memory */
    method AllocateMemory(request: nat) returns (pointer: Option<nat>)
      modifies this
      ensures (pointer, View()) == Allocate(old(View()), request)
    {
      var size := Rounded(request);
      for i := 0 to |memFree|
        invariant View() == old(View()) && FirstFit(memFree, size, 0) == FirstFit(memFree, size, i)
      {
        if memFree[i].size >= size {
          pointer := Some(memFree[i].base);
          memAlloc := memAlloc + [SegmentAt(memFree[i].base, size)];
          if memFree[i].size == size {
            memFree := memFree[..i] + memFree[i + 1..];
          } else {
            memFree := memFree[i := memFree[i].(base := memFree[i].base + size, size := memFree[i].size - size)];
          }
          return;
        }
      }
      pointer := None;
    }

    /** The search in deallocate_memory: the segment at that address leaves the allocated list. */
    method TakeAllocated(base: nat) returns (segment: Option<Segment>)
      modifies this`memAlloc
      ensures var k := FindBase(old(memAlloc), base, 0);
              if k == |old(memAlloc)| then segment == None && memAlloc == old(memAlloc)
              else segment == Some(old(memAlloc)[k]) && memAlloc == old(memAlloc)[..k] + old(memAlloc)[k + 1..]
    {
      segment := None;
      for i := 0 to |memAlloc|
        invariant memAlloc == old(memAlloc) && segment == None
                  && FindBase(memAlloc, base, 0) == FindBase(memAlloc, base, i)
      {
        if memAlloc[i].base == base {
          segment := Some(memAlloc[i]);
          memAlloc := memAlloc[..i] + memAlloc[i + 1..];
          return;
        }
      }
    }

    /** The search for the place to insert at. */
    method FindPlace(base: nat) returns (pos: nat)
      ensures pos == FirstAbove(memFree, base, 0)
    {
      pos := 0;
      while pos < |memFree|
        invariant pos <= |memFree| && FirstAbove(memFree, base, 0) == FirstAbove(memFree, base, pos)
      {
        if memFree[pos].base > base { break; }
        pos := pos + 1;
      }
    }

    /** A segment goes between two free ones, or is joined with them. */
    method PutBetween(segment: Segment)
      requires EndsInside(memFree, segment)
      requires |memFree| > 0 && memFree[0].base <= segment.base < memFree[|memFree| - 1].next
      modifies this`memFree
      ensures memFree == Insert(old(memFree), segment)
    {
      var pos := FindPlace(segment.base);
      var before, after := memFree[pos - 1], memFree[pos];
      if before.next == segment.base && after.base == segment.next {
        memFree := memFree[pos - 1 := before.(next := after.next, size := before.size + after.size + segment.size)];
        memFree := memFree[..pos] + memFree[pos + 1..];
      } else if before.next == segment.base {
        memFree := memFree[pos - 1 := before.(next := segment.next, size := before.size + segment.size)];
      } else if after.base == segment.next {
        memFree := memFree[pos := after.(base := segment.base, size := after.size + segment.size)];
      } else {
        memFree := memFree[..pos] + [segment] + memFree[pos..];
      }
    }

    /** The second half of deallocate_memory: free and merge. */
    method PutBack(segment: Segment)
      requires EndsInside(memFree, segment)
      modifies this`memFree
      ensures memFree == Insert(old(memFree), segment)
    {
      var last := |memFree| - 1;
      if |memFree| == 0 {
        memFree := memFree + [segment];
      } else if memFree[0].base > segment.base {
        if segment.next == memFree[0].base {
          memFree := memFree[0 := memFree[0].(base := segment.base, size := memFree[0].size + segment.size)];
        } else {
          memFree := [segment] + memFree;
        }
      } else if memFree[last].next <= segment.base {
        if memFree[last].next == segment.base {
          memFree := memFree[last := memFree[last].(next := segment.next, size := memFree[last].size + segment.size)];
        } else {
          memFree := memFree + [segment];
        }
      } else {
        PutBetween(segment);
      }
    }

    /** deallocate_memory, where it stays inside its lists. In a good pool it does for every address
        (AnyFreeable). */
    method DeallocateMemory(base: nat) returns (ok: bool)
      requires Freeable(View(), base)
      modifies this
      ensures (ok, View()) == Deallocate(old(View()), base)
      ensures PoolOk(old(View())) ==> PoolOk(View())
    {
      ghost var p := View();
      if PoolOk(p) { DeallocateKeeps(p, base); }
      if base < memBase || base >= memBase + memSize { return false; }
      var segment := TakeAllocated(base);
      if segment == None { return false; }
      PutBack(segment.value);
      ok := true;
    }
  }

  datatype Status = Success | InvalidParameter | InvalidState | InsufficientResources

  /** VMMemoryPoolDelete's decision: a pool may go exactly when no byte of it is allocated. */
  method MayDelete(pool: MemoryPool?) returns (status: Status)
    requires pool != null ==> Accounted(pool.View())
    ensures status == Success <==> pool != null && Hollow(pool.memAlloc)
    ensures pool != null && PoolOk(pool.View()) ==> (status == Success <==> pool.memAlloc == [])
    ensures status == InvalidParameter <==> pool == null
    ensures status != InsufficientResources
  {
    if pool == null { return InvalidParameter; }
    var left := pool.QueryRemaining();
    DeleteCheckIsExact(pool.View());
    status := if left != pool.memSize then InvalidState else Success;
  }

  /** VMMemoryPoolAllocate. A request that wraps takes nothing, and spoils a good pool. */
  method PoolAllocate(pool: MemoryPool?, size: nat) returns (status: Status, pointer: Option<nat>)
    requires size < 0x1_0000_0000
    modifies pool
    ensures status == InvalidParameter <==> size == 0 || pool == null
    ensures status == Success || status == InvalidParameter || status == InsufficientResources
    ensures status != Success ==> pool != null ==> old(pool.View()) == pool.View()
    ensures status == InsufficientResources <==>
              && pool != null && size > 0
              && forall i :: 0 <= i < |old(pool.memFree)| ==> old(pool.memFree)[i].size < Rounded(size)
    ensures pool != null && size > 0 && FreeOk(old(pool.memFree)) ==>
              (status == InsufficientResources <==>
                 if size <= 0xFFFF_FFC0 then forall x :: !FreeRun(old(pool.View()), x, Rounded(size))
                 else old(pool.memFree) == [])
    ensures status == Success ==> (pointer, pool.View()) == Allocate(old(pool.View()), size)
    ensures status == Success ==> (Rounded(size) >= size <==> size <= 0xFFFF_FFC0)
    ensures pool != null && PoolOk(old(pool.View())) ==>
              (PoolOk(pool.View()) <==> size <= 0xFFFF_FFC0 || old(pool.memFree) == [])
  {
    pointer := None;
    if size == 0 || pool == null { return InvalidParameter, None; }
    RoundingHoldsIff(size);
    if FreeOk(pool.memFree) { FailsOnlyWhenFull(pool.View(), size); }
    if PoolOk(pool.View()) { AllocateKeepsIff(pool.View(), size); }
    pointer := pool.AllocateMemory(size);
    status := if pointer == None then InsufficientResources else Success;
  }

  /** VMMemoryPoolDeallocate */
  method PoolDeallocate(pool: MemoryPool?, address: nat) returns (status: Status)
    requires pool != null ==> Freeable(pool.View(), address)
    modifies pool
    ensures pool != null && PoolOk(old(pool.View())) ==> PoolOk(pool.View())
    ensures status == Success || status == InvalidParameter
    ensures status == Success <==>
              && pool != null && pool.memBase <= address < pool.memBase + pool.memSize
              && exists i :: 0 <= i < |old(pool.memAlloc)| && old(pool.memAlloc)[i].base == address
    ensures pool != null ==> pool.View() == Deallocate(old(pool.View()), address).1
  {
    if pool == null { return InvalidParameter; }
    DeallocateExact(pool.View(), address);
    var ok := pool.DeallocateMemory(address);
    status := if ok then Success else InvalidParameter;
  }
}
