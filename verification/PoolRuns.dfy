/** What every sequence of allocations and deallocations keeps, and what it cannot depend on. */
module PoolRuns {
  import opened Pool

  // ----- the free list is the only one its bytes allow -----

  ghost predicate SameBytes(a: seq<Segment>, b: seq<Segment>) { forall x :: In(a, x) <==> In(b, x) }

  lemma FirstByte(a: seq<Segment>, b: seq<Segment>)
    requires FreeOk(a) && FreeOk(b) && SameBytes(a, b) && a != []
    ensures b != [] && b[0].base <= a[0].base
  {
    assert Covers(a[0], a[0].base);
    assert In(a, a[0].base);
    var i :| 0 <= i < |b| && Covers(b[i], a[0].base);
    assert i > 0 ==> b[0].next < b[i].base;
  }

  lemma EndNotIn(b: seq<Segment>)
    requires FreeOk(b) && b != []
    ensures !In(b, b[0].next)
  {
    forall i | 0 <= i < |b| ensures !Covers(b[i], b[0].next) { assert i > 0 ==> b[0].next < b[i].base; }
  }

  lemma FirstEnd(a: seq<Segment>, b: seq<Segment>)
    requires FreeOk(a) && FreeOk(b) && SameBytes(a, b) && a != [] && b != [] && a[0].base == b[0].base
    ensures a[0].next <= b[0].next
  {
    if a[0].next > b[0].next {
      CoveredIsIn(a, 0, b[0].next);
      EndNotIn(b);
    }
  }

  lemma CoveredIsIn(l: seq<Segment>, i: nat, x: int)
    requires i < |l| && Covers(l[i], x)
    ensures In(l, x)
  {}

  lemma TailOk(a: seq<Segment>)
    requires FreeOk(a) && a != []
    ensures FreeOk(a[1..])
  {
    var t := a[1..];
    forall i, j | 0 <= i < j < |t| ensures t[i].next < t[j].base { assert a[i + 1].next < a[j + 1].base; }
  }

  lemma TailBytes(a: seq<Segment>, x: int)
    requires FreeOk(a) && a != []
    ensures In(a[1..], x) <==> In(a, x) && !Covers(a[0], x)
  {
    if In(a[1..], x) {
      var i :| 0 <= i < |a[1..]| && Covers(a[1..][i], x);
      assert Covers(a[i + 1], x) && a[0].next < a[i + 1].base;
    }
    if In(a, x) && !Covers(a[0], x) {
      var i :| 0 <= i < |a| && Covers(a[i], x);
      assert Covers(a[1..][i - 1], x);
    }
  }

  /** Two well-formed free lists with the same bytes are the same list. */
  lemma {:induction false} FreeListIsDetermined(a: seq<Segment>, b: seq<Segment>)
    requires FreeOk(a) && FreeOk(b) && SameBytes(a, b)
    ensures a == b
  {
    if a == [] {
      if b != [] { FirstByte(b, a); }
    } else {
      FirstByte(a, b);
      FirstByte(b, a);
      FirstEnd(a, b);
      FirstEnd(b, a);
      TailOk(a);
      TailOk(b);
      forall x ensures In(a[1..], x) <==> In(b[1..], x) { TailBytes(a, x); TailBytes(b, x); }
      FreeListIsDetermined(a[1..], b[1..]);
      assert a == [a[0]] + a[1..] && b == [b[0]] + b[1..];
    }
  }

  // ----- every operation keeps the pool -----

  lemma NewOk(base: nat, size: nat)
    requires size > 0
    ensures PoolOk(New(base, size))
  {
    var p := New(base, size);
    forall b | base <= b < base + size ensures In(p.free, b) && !In(p.alloc, b) { assert Covers(p.free[0], b); }
    assert p.free[1..] == [];
  }

  lemma InAppended(l: seq<Segment>, s: Segment, b: int)
    ensures In(l + [s], b) <==> In(l, b) || Covers(s, b)
  {
    if In(l + [s], b) {
      var i :| 0 <= i < |l + [s]| && Covers((l + [s])[i], b);
      assert i < |l| ==> Covers(l[i], b);
    }
    if In(l, b) {
      var i :| 0 <= i < |l| && Covers(l[i], b);
      assert Covers((l + [s])[i], b);
    }
    if Covers(s, b) { assert Covers((l + [s])[|l|], b); }
  }

  /** A segment none of whose bytes is in the list is apart from all of the list. */
  lemma NoByteApart(l: seq<Segment>, s: Segment)
    requires SegmentOk(s) && (forall i :: 0 <= i < |l| ==> SegmentOk(l[i]))
    requires forall b :: Covers(s, b) ==> !In(l, b)
    ensures ApartFromAll(l, s)
  {
    forall i | 0 <= i < |l| ensures Apart(l[i], s) {
      if !Apart(l[i], s) {
        var b := if l[i].base >= s.base then l[i].base else s.base;
        assert Covers(s, b) && Covers(l[i], b);
        assert In(l, b);
        assert false;
      }
    }
  }

  lemma AllocateKeeps(p: MemPool, n: nat)
    requires PoolOk(p) && Rounded(n) > 0
    ensures PoolOk(Allocate(p, n).1)
  {
    var r := Rounded(n);
    var k := FirstFit(p.free, r, 0);
    if k < |p.free| {
      var p', s := Allocate(p, n).1, SegmentAt(p.free[k].base, r);
      TakenRemoves(p.free, k, r);
      forall b ensures In(p'.alloc, b) <==> In(p.alloc, b) || Covers(s, b) { InAppended(p.alloc, s, b); }
      forall b | Covers(s, b) ensures In(p.free, b) && !In(p.alloc, b) { assert Covers(p.free[k], b); }
      NoByteApart(p.alloc, s);
      TakenInside(p, k, r);
      SumConcat(p.alloc, [s]);
      assert [s][1..] == [];
    }
  }

  /** A request that wraps takes nothing from the first free segment, and leaves an allocated segment
      without a byte. */
  lemma WrappedTakesNothing(p: MemPool, n: nat)
    requires PoolOk(p) && Rounded(n) == 0 && p.free != []
    ensures Allocate(p, n) == (Some(p.free[0].base), p.(alloc := p.alloc + [SegmentAt(p.free[0].base, 0)]))
    ensures !PoolOk(Allocate(p, n).1)
  {
    assert Taken(p.free, 0, 0) == p.free;
    var p' := Allocate(p, n).1;
    assert !SegmentOk(p'.alloc[|p.alloc|]);
  }

  /** An allocation keeps the pool exactly if rounding its request does not wrap, or nothing is free. */
  lemma AllocateKeepsIff(p: MemPool, n: nat)
    requires PoolOk(p) && 0 < n < 0x1_0000_0000
    ensures PoolOk(Allocate(p, n).1) <==> n <= 0xFFFF_FFC0 || p.free == []
  {
    RoundingHoldsIff(n);
    if n <= 0xFFFF_FFC0 { AllocateKeeps(p, n); } else if p.free != [] { WrappedTakesNothing(p, n); }
  }

  lemma TakenInside(p: MemPool, k: nat, r: nat)
    requires PoolOk(p) && k < |p.free| && 0 < r <= p.free[k].size
    ensures forall i :: 0 <= i < |Taken(p.free, k, r)| ==> Inside(p, Taken(p.free, k, r)[i])
  {
    var l := Taken(p.free, k, r);
    forall i | 0 <= i < |l| ensures Inside(p, l[i]) {
      var j := if p.free[k].size == r && i >= k then i + 1 else i;
      assert Inside(p, p.free[j]);
    }
  }

  lemma InRemoved(l: seq<Segment>, k: nat, b: int)
    requires AllocOk(l) && k < |l|
    ensures In(l[..k] + l[k + 1..], b) <==> In(l, b) && !Covers(l[k], b)
  {
    hide SegmentOk;
    var l' := l[..k] + l[k + 1..];
    if In(l', b) {
      var i :| 0 <= i < |l'| && Covers(l'[i], b);
      var j := if i < k then i else i + 1;
      assert Covers(l[j], b);
      assert if j < k then Apart(l[j], l[k]) else Apart(l[k], l[j]);
    }
    if In(l, b) && !Covers(l[k], b) {
      var i :| 0 <= i < |l| && Covers(l[i], b);
      assert Covers(l'[if i < k then i else i - 1], b);
    }
  }

  lemma RemovedOk(l: seq<Segment>, k: nat)
    requires AllocOk(l) && k < |l|
    ensures AllocOk(l[..k] + l[k + 1..]) && Sum(l[..k] + l[k + 1..]) == Sum(l) - l[k].size
  {
    var l' := l[..k] + l[k + 1..];
    forall i | 0 <= i < |l'| ensures l'[i] == l[if i < k then i else i + 1] {}
    SumSplit(l, k);
    SumConcat(l[..k], l[k + 1..]);
  }

  /** An allocated segment's bytes are not free, so it goes back between free segments. */
  lemma AllocatedApart(p: MemPool, k: nat)
    requires PoolOk(p) && k < |p.alloc|
    ensures ApartFromAll(p.free, p.alloc[k])
  {
    forall b | Covers(p.alloc[k], b) ensures !In(p.free, b) {
      assert Inside(p, p.alloc[k]);
      assert In(p.alloc, b);
    }
    NoByteApart(p.free, p.alloc[k]);
  }

  /** List bytes inside the pool mean segments inside the pool. */
  lemma BytesInside(p: MemPool, l: seq<Segment>)
    requires (forall i :: 0 <= i < |l| ==> SegmentOk(l[i])) && forall b :: In(l, b) ==> p.base <= b < p.base + p.size
    ensures forall i :: 0 <= i < |l| ==> Inside(p, l[i])
  {
    forall i | 0 <= i < |l| ensures Inside(p, l[i]) {
      assert Covers(l[i], l[i].base) && Covers(l[i], l[i].next - 1);
      assert In(l, l[i].base) && In(l, l[i].next - 1);
    }
  }

  lemma FreeInside(p: MemPool, b: int)
    requires PoolOk(p) && (In(p.free, b) || In(p.alloc, b))
    ensures p.base <= b < p.base + p.size
  {
    if In(p.free, b) {
      var i :| 0 <= i < |p.free| && Covers(p.free[i], b);
      assert Inside(p, p.free[i]);
    } else {
      var i :| 0 <= i < |p.alloc| && Covers(p.alloc[i], b);
      assert Inside(p, p.alloc[i]);
    }
  }

  /** The bytes after a deallocation. */
  lemma FreedBytes(p: MemPool, k: nat)
    requires PoolOk(p) && k < |p.alloc|
    ensures var s := p.alloc[k];
            && EndsInside(p.free, s)
            && FreeOk(Insert(p.free, s)) && Sum(Insert(p.free, s)) == Sum(p.free) + s.size
            && (forall b :: In(Insert(p.free, s), b) <==> In(p.free, b) || Covers(s, b))
            && (forall b :: In(p.alloc[..k] + p.alloc[k + 1..], b) <==> In(p.alloc, b) && !Covers(s, b))
  {
    AllocatedApart(p, k);
    InsertAdds(p.free, p.alloc[k]);
    forall b ensures In(p.alloc[..k] + p.alloc[k + 1..], b) <==> In(p.alloc, b) && !Covers(p.alloc[k], b) {
      InRemoved(p.alloc, k, b);
    }
  }

  /** In a good pool freeing is well defined for every address. */
  lemma AnyFreeable(p: MemPool, a: nat)
    requires PoolOk(p)
    ensures Freeable(p, a)
  {
    var k := FindBase(p.alloc, a, 0);
    if k < |p.alloc| {
      AllocatedApart(p, k);
      var _, _, _ := InsertSplices(p.free, p.alloc[k]);
      forall i | k < i < |p.alloc| ensures p.alloc[i].base != a { assert Apart(p.alloc[k], p.alloc[i]); }
    }
  }

  lemma DeallocateKeeps(p: MemPool, a: nat)
    requires PoolOk(p)
    ensures Freeable(p, a) && PoolOk(Deallocate(p, a).1)
  {
    hide Insert, EndsInside, Sum;
    AnyFreeable(p, a);
    var k := FindBase(p.alloc, a, 0);
    if p.base <= a < p.base + p.size && k < |p.alloc| {
      var p', s := Deallocate(p, a).1, p.alloc[k];
      FreedBytes(p, k);
      RemovedOk(p.alloc, k);
      forall b | Covers(s, b) ensures In(p.alloc, b) {}
      forall b | In(p'.free, b) || In(p'.alloc, b) ensures p.base <= b < p.base + p.size { FreeInside(p, b); }
      BytesInside(p, p'.free);
      BytesInside(p, p'.alloc);
    }
  }

  // ----- runs -----

  datatype Op = Alloc(n: nat) | Free(address: nat)

  /** The operation stays inside the free list. */
  predicate Contained(p: MemPool, op: Op) { op.Free? ==> Freeable(p, op.address) }

  function Apply(p: MemPool, op: Op): MemPool
    requires Contained(p, op)
  {
    match op
    case Alloc(n) => Allocate(p, n).1
    case Free(a) => Deallocate(p, a).1
  }

  predicate ContainedRun(p: MemPool, ops: seq<Op>)
    decreases |ops|
  {
    ops != [] ==> Contained(p, ops[0]) && ContainedRun(Apply(p, ops[0]), ops[1..])
  }

  function ApplyAll(p: MemPool, ops: seq<Op>): MemPool
    requires ContainedRun(p, ops)
    decreases |ops|
  {
    if ops == [] then p else ApplyAll(Apply(p, ops[0]), ops[1..])
  }

  /** The requests a 32-bit size can make, without the empty one, which is refused before. */
  predicate Request(op: Op) { op.Alloc? ==> 0 < op.n < 0x1_0000_0000 }

  /** Rounding does not wrap, or there is nothing free to take it from. */
  predicate Fair(p: MemPool, op: Op) { op.Alloc? ==> op.n <= 0xFFFF_FFC0 || p.free == [] }

  /** Every request is fair, as far as the run stays inside the free list. */
  predicate FairRun(p: MemPool, ops: seq<Op>)
    decreases |ops|
  {
    ops != [] ==> Fair(p, ops[0]) && (Contained(p, ops[0]) ==> FairRun(Apply(p, ops[0]), ops[1..]))
  }

  /** The run stays inside the free list and keeps the pool good all along. */
  ghost predicate StaysOk(p: MemPool, ops: seq<Op>)
    decreases |ops|
  {
    PoolOk(p) && (ops != [] ==> Contained(p, ops[0]) && StaysOk(Apply(p, ops[0]), ops[1..]))
  }

  lemma ApplyKeepsIff(p: MemPool, op: Op)
    requires PoolOk(p) && Request(op)
    ensures Contained(p, op)
    ensures PoolOk(Apply(p, op)) <==> Fair(p, op)
  {
    match op
    case Alloc(n) => AllocateKeepsIff(p, n);
    case Free(a) => DeallocateKeeps(p, a);
  }

  /** Over a run the free list is always in order and apart, every segment's next is its end, and
      free and allocated segments tile the pool, and no search runs off the free list, exactly if no
      request wraps while something is free. */
  lemma {:induction false} RunKeepsIff(p: MemPool, ops: seq<Op>)
    requires PoolOk(p) && forall i :: 0 <= i < |ops| ==> Request(ops[i])
    ensures StaysOk(p, ops) <==> FairRun(p, ops)
    decreases |ops|
  {
    if ops != [] {
      ApplyKeepsIff(p, ops[0]);
      if Fair(p, ops[0]) { RunKeepsIff(Apply(p, ops[0]), ops[1..]); }
    }
  }

  /** So does the state a fair run ends in, in the same place. */
  lemma {:induction false} RunKeeps(p: MemPool, ops: seq<Op>)
    requires PoolOk(p) && FairRun(p, ops) && forall i :: 0 <= i < |ops| ==> Request(ops[i])
    ensures ContainedRun(p, ops) && PoolOk(ApplyAll(p, ops))
    ensures ApplyAll(p, ops).base == p.base && ApplyAll(p, ops).size == p.size
    decreases |ops|
  {
    if ops != [] {
      ApplyKeepsIff(p, ops[0]);
      RunKeeps(Apply(p, ops[0]), ops[1..]);
    }
  }

  // ----- when allocation fails -----

  /** n free bytes in a row, from x on. */
  ghost predicate FreeRun(p: MemPool, x: int, n: nat) { forall b :: x <= b < x + n ==> In(p.free, b) }

  /** A run of free bytes lies in one segment, because segments do not touch. */
  lemma {:induction false} RunInSegment(free: seq<Segment>, x: int, n: nat) returns (i: nat)
    requires FreeOk(free) && n > 0 && forall b :: x <= b < x + n ==> In(free, b)
    ensures i < |free| && free[i].base <= x && x + n <= free[i].next
    decreases n
  {
    if n == 1 {
      assert In(free, x);
      i :| 0 <= i < |free| && Covers(free[i], x);
    } else {
      i := RunInSegment(free, x, n - 1);
      var last := x + n - 1;
      assert In(free, last);
      var j :| 0 <= j < |free| && Covers(free[j], last);
    }
  }

  /** Allocation fails exactly when the pool has nowhere that many free bytes in a row; or, for a
      request that wraps, when nothing at all is free. */
  lemma FailsOnlyWhenFull(p: MemPool, n: nat)
    requires FreeOk(p.free)
    ensures Allocate(p, n).0 == None <==>
              if Rounded(n) > 0 then forall x :: !FreeRun(p, x, Rounded(n)) else p.free == []
  {
    var r := Rounded(n);
    var k := FirstFit(p.free, r, 0);
    if r == 0 {
      assert p.free != [] ==> k == 0;
    } else if k < |p.free| {
      forall b | p.free[k].base <= b < p.free[k].base + r ensures In(p.free, b) { assert Covers(p.free[k], b); }
      assert FreeRun(p, p.free[k].base, r);
    } else {
      forall x ensures !FreeRun(p, x, r) {
        if FreeRun(p, x, r) {
          var i := RunInSegment(p.free, x, r);
          assert false;
        }
      }
    }
  }

  // ----- undoing -----

  lemma NewestIsFound(p: MemPool, s: Segment)
    requires AllocOk(p.alloc + [s])
    ensures FindBase(p.alloc + [s], s.base, 0) == |p.alloc|
  {
    var l := p.alloc + [s];
    forall k | 0 <= k < |p.alloc| ensures l[k].base != s.base { assert Apart(l[k], l[|p.alloc|]); }
    assert l[|p.alloc|] == s;
  }

  lemma FreeUndoesFair(p: MemPool, n: nat)
    requires PoolOk(p) && Rounded(n) > 0 && Allocate(p, n).0.Some?
    ensures Freeable(Allocate(p, n).1, Allocate(p, n).0.value)
    ensures Deallocate(Allocate(p, n).1, Allocate(p, n).0.value) == (true, p)
  {
    var r := Rounded(n);
    var k := FirstFit(p.free, r, 0);
    var p1, s := Allocate(p, n).1, SegmentAt(p.free[k].base, r);
    AllocateKeeps(p, n);
    AnyFreeable(p1, s.base);
    NewestIsFound(p, s);
    assert Inside(p1, p1.alloc[|p.alloc|]);
    FreedBytes(p1, |p.alloc|);
    TakenRemoves(p.free, k, r);
    forall b ensures In(Insert(p1.free, s), b) <==> In(p.free, b) {
      if Covers(s, b) { assert Covers(p.free[k], b); }
    }
    FreeListIsDetermined(Insert(p1.free, s), p.free);
    assert p1.alloc[..|p.alloc|] + p1.alloc[|p.alloc| + 1..] == p.alloc;
  }

  /** The address of a free segment is not that of an allocated one. */
  lemma FreeIsNotAllocated(p: MemPool, k: nat, i: nat)
    requires PoolOk(p) && k < |p.free| && i < |p.alloc|
    ensures p.alloc[i].base != p.free[k].base
  {
    assert Covers(p.free[k], p.free[k].base) && Inside(p, p.free[k]);
    assert In(p.free, p.free[k].base) && !In(p.alloc, p.free[k].base);
    assert Covers(p.alloc[i], p.alloc[i].base);
  }

  /** The empty segment that a wrapped request leaves has the address of the first free segment and no
      other allocated one. */
  lemma EmptyIsFound(p: MemPool, n: nat)
    requires PoolOk(p) && Rounded(n) == 0 && p.free != []
    ensures var p1, a := Allocate(p, n).1, p.free[0].base;
            && Allocate(p, n).0 == Some(a) && FindBase(p1.alloc, a, 0) == |p.alloc| && |p1.alloc| == |p.alloc| + 1
            && p1.alloc[|p.alloc|] == SegmentAt(a, 0) && p.base <= a < p.base + p.size
  {
    WrappedTakesNothing(p, n);
    var p1, a := Allocate(p, n).1, p.free[0].base;
    forall i | 0 <= i < |p.alloc| ensures p1.alloc[i].base != a { FreeIsNotAllocated(p, 0, i); }
    assert p1.alloc[|p.alloc|] == SegmentAt(a, 0);
    assert Inside(p, p.free[0]);
  }

  /** Freeing it stays inside the list exactly if a second segment is free; then it goes in between the
      first two. */
  lemma EmptyGoesBack(p: MemPool, n: nat)
    requires PoolOk(p) && Rounded(n) == 0 && p.free != []
    ensures var p1, a := Allocate(p, n).1, p.free[0].base;
            && (Freeable(p1, a) <==> |p.free| > 1)
            && (|p.free| > 1 ==> Deallocate(p1, a) == (true, p.(free := [p.free[0], SegmentAt(a, 0)] + p.free[1..])))
  {
    EmptyIsFound(p, n);
    WrappedTakesNothing(p, n);
    var p1, s := Allocate(p, n).1, SegmentAt(p.free[0].base, 0);
    assert FirstAbove(p.free, s.base, 0) == 1 by { assert |p.free| > 1 ==> p.free[0].next < p.free[1].base; }
    assert p.free[0].base <= s.base < p.free[0].next <= p.free[|p.free| - 1].next;
    assert p1.alloc[..|p.alloc|] + p1.alloc[|p.alloc| + 1..] == p.alloc;
    if |p.free| > 1 { assert p.free[..1] + [s] + p.free[1..] == [p.free[0], s] + p.free[1..]; }
  }

  /** So in a fresh pool, freeing what the largest request returned reads past the free list. */
  lemma FreshPoolRunsOff(base: nat, size: nat)
    requires size > 0
    ensures var (pointer, p) := Allocate(New(base, size), 0xFFFF_FFFF);
            pointer == Some(base) && p.alloc == [SegmentAt(base, 0)] && !Freeable(p, base)
  {
    NewOk(base, size);
    WrappedTakesNothing(New(base, size), 0xFFFF_FFFF);
    EmptyGoesBack(New(base, size), 0xFFFF_FFFF);
  }

  /** Freeing what was just allocated stays inside the free list and gives back the identical pool,
      exactly if rounding the request did not wrap. */
  lemma FreeUndoesAllocate(p: MemPool, n: nat)
    requires PoolOk(p) && Allocate(p, n).0.Some?
    ensures var p1, a := Allocate(p, n).1, Allocate(p, n).0.value;
            Freeable(p1, a) && Deallocate(p1, a) == (true, p) <==> Rounded(n) > 0
    ensures 0 < n < 0x1_0000_0000 ==> (Rounded(n) > 0 <==> n <= 0xFFFF_FFC0)
  {
    hide Allocate, Deallocate, Freeable, Tiled, Rounded;
    FailsOnlyWhenFull(p, n);
    if 0 < n < 0x1_0000_0000 { RoundingHoldsIff(n); }
    if Rounded(n) > 0 {
      FreeUndoesFair(p, n);
    } else {
      EmptyIsFound(p, n);
      EmptyGoesBack(p, n);
      assert |[p.free[0], SegmentAt(p.free[0].base, 0)] + p.free[1..]| == |p.free| + 1;
    }
  }

  /** The pool is all free exactly when its free list is one segment, the whole pool. */
  lemma NothingAllocatedIsWhole(p: MemPool)
    requires PoolOk(p)
    ensures p.alloc == [] <==> p.free == [SegmentAt(p.base, p.size)]
  {
    var whole := [SegmentAt(p.base, p.size)];
    assert whole[1..] == [] && Sum(whole) == p.size;
    if p.alloc == [] {
      forall b ensures In(p.free, b) <==> In(whole, b) {
        if In(p.free, b) { FreeInside(p, b); assert Covers(whole[0], b); }
        if In(whole, b) { assert !In(p.alloc, b); }
      }
      FreeListIsDetermined(p.free, whole);
    } else {
      SumPositive(p.alloc);
    }
  }

  lemma SumPositive(l: seq<Segment>)
    requires AllocOk(l) && l != []
    ensures Sum(l) > 0
  {}

  // ----- the delete check, over all runs -----

  /** The sizes add up. Unlike the rest of a good pool, requests that wrap keep this, too. */
  predicate Accounted(p: MemPool) { Sum(p.free) + Sum(p.alloc) == p.size }

  lemma SumOne(s: Segment)
    ensures Sum([s]) == s.size
  {
    assert [s][1..] == [];
  }

  lemma AllocateAccounts(p: MemPool, n: nat)
    requires Accounted(p)
    ensures Accounted(Allocate(p, n).1) && Allocate(p, n).1.size == p.size
  {
    hide Sum;
    var r := Rounded(n);
    var k := FirstFit(p.free, r, 0);
    if k < |p.free| {
      var s := SegmentAt(p.free[k].base, r);
      SumConcat(p.alloc, [s]);
      SumOne(s);
      if p.free[k].size == r {
        SumSplit(p.free, k);
        SumConcat(p.free[..k], p.free[k + 1..]);
      } else {
        SumUpdate(p.free, k, Taken(p.free, k, r)[k]);
      }
    }
  }

  lemma DeallocateAccounts(p: MemPool, a: nat)
    requires Accounted(p) && Freeable(p, a)
    ensures Accounted(Deallocate(p, a).1) && Deallocate(p, a).1.size == p.size
  {
    hide Sum, Insert;
    var k := FindBase(p.alloc, a, 0);
    if p.base <= a < p.base + p.size && k < |p.alloc| {
      InsertSum(p.free, p.alloc[k]);
      SumSplit(p.alloc, k);
      SumConcat(p.alloc[..k], p.alloc[k + 1..]);
    }
  }

  /** Over any run that stays inside the free list, requests that wrap included, the sizes add up. */
  lemma {:induction false} RunAccounts(p: MemPool, ops: seq<Op>)
    requires Accounted(p) && ContainedRun(p, ops)
    ensures Accounted(ApplyAll(p, ops)) && ApplyAll(p, ops).size == p.size
    decreases |ops|
  {
    if ops != [] {
      match ops[0] {
        case Alloc(n) => AllocateAccounts(p, n);
        case Free(a) => DeallocateAccounts(p, a);
      }
      RunAccounts(Apply(p, ops[0]), ops[1..]);
    }
  }

  predicate Hollow(l: seq<Segment>) { forall i :: 0 <= i < |l| ==> l[i].size == 0 }

  lemma {:induction false} SumZeroIff(l: seq<Segment>)
    ensures Sum(l) == 0 <==> Hollow(l)
  {
    if l != [] {
      SumZeroIff(l[1..]);
      assert l == [l[0]] + l[1..];
    }
  }

  /** The delete check: what remains is the size of the pool exactly when no allocated segment holds a
      byte. So it says whether something is allocated, unless all that is allocated is empty. */
  lemma DeleteCheckIsExact(p: MemPool)
    requires Accounted(p)
    ensures Remaining(p) == p.size <==> Hollow(p.alloc)
    ensures (Remaining(p) == p.size <==> p.alloc == []) <==> (p.alloc == [] || !Hollow(p.alloc))
    ensures PoolOk(p) ==> (Remaining(p) == p.size <==> p.alloc == [])
  {
    SumZeroIff(p.alloc);
    if PoolOk(p) && p.alloc != [] { SumPositive(p.alloc); }
  }

  /** A fresh pool that served the largest request may be deleted, with a segment still allocated. */
  lemma DeleteCheckMisses(base: nat, size: nat)
    requires size > 0
    ensures var p := Allocate(New(base, size), 0xFFFF_FFFF).1; Remaining(p) == p.size && p.alloc != []
  {
    NewOk(base, size);
    WrappedTakesNothing(New(base, size), 0xFFFF_FFFF);
    AllocateAccounts(New(base, size), 0xFFFF_FFFF);
    DeleteCheckIsExact(Allocate(New(base, size), 0xFFFF_FFFF).1);
  }

  /** A deallocation succeeds exactly for the address of an allocated segment, and takes exactly
      that one away. */
  lemma DeallocateExact(p: MemPool, a: nat)
    requires Freeable(p, a)
    ensures Deallocate(p, a).0 <==>
              p.base <= a < p.base + p.size && exists i :: 0 <= i < |p.alloc| && p.alloc[i].base == a
    ensures !Deallocate(p, a).0 ==> Deallocate(p, a).1 == p
    ensures Deallocate(p, a).0 ==> multiset(Bases(p.alloc)) == multiset(Bases(Deallocate(p, a).1.alloc)) + multiset{a}
  {
    var k := FindBase(p.alloc, a, 0);
    if k < |p.alloc| { BasesWithout(p.alloc, k); }
  }

  /** In a good pool every allocated address is inside the pool. */
  lemma BaseInside(p: MemPool, i: nat)
    requires PoolOk(p) && i < |p.alloc|
    ensures p.base <= p.alloc[i].base < p.base + p.size
  {
    assert Inside(p, p.alloc[i]);
  }

  function Bases(l: seq<Segment>): seq<nat> { seq(|l|, i requires 0 <= i < |l| => l[i].base) }

  lemma SomeBase(l: seq<Segment>)
    requires l != []
    ensures multiset(Bases(l)) != multiset{}
  {
    assert Bases(l)[0] in multiset(Bases(l));
  }

  lemma BasesWithout(l: seq<Segment>, k: nat)
    requires k < |l|
    ensures multiset(Bases(l)) == multiset(Bases(l[..k] + l[k + 1..])) + multiset{l[k].base}
  {
    var b := Bases(l);
    assert b == b[..k] + [b[k]] + b[k + 1..];
    assert Bases(l[..k] + l[k + 1..]) == b[..k] + b[k + 1..];
  }

  ghost function FreeEach(p: MemPool, order: seq<nat>): MemPool
    requires PoolOk(p)
    decreases |order|
  {
    if order == [] then p
    else
      DeallocateKeeps(p, order[0]);
      FreeEach(Deallocate(p, order[0]).1, order[1..])
  }

  /** Freeing all blocks, in whatever order, gives back one segment, the whole pool. */
  lemma {:induction false} FreeingAllGivesWhole(p: MemPool, order: seq<nat>)
    requires PoolOk(p) && multiset(order) == multiset(Bases(p.alloc))
    ensures FreeEach(p, order) == New(p.base, p.size)
    decreases |order|
  {
    hide PoolOk, Freeable, Insert, Sum;
    if order == [] {
      if p.alloc != [] { SomeBase(p.alloc); }
      NothingAllocatedIsWhole(p);
    } else {
      DeallocateKeeps(p, order[0]);
      var a, p1 := order[0], Deallocate(p, order[0]).1;
      assert order == [a] + order[1..];
      assert a in multiset(Bases(p.alloc));
      var i :| 0 <= i < |Bases(p.alloc)| && Bases(p.alloc)[i] == a;
      assert p.alloc[i].base == a;
      BaseInside(p, i);
      DeallocateExact(p, a);
      assert multiset(order[1..]) == multiset(order) - multiset{a};
      FreeingAllGivesWhole(p1, order[1..]);
    }
  }
}
