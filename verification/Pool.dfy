/** The memory pool as a value: an ordered list of free segments and a list of allocated ones.
    First fit, and four ways of joining a freed segment with its neighbours. The lemmas say that
    the two lists tile the pool, that the free list is the only one its free bytes allow, and that
    allocation fails only when it has to. */
module Pool {

  const WRAP: nat := 0x1_0000_0000

  datatype Segment = Segment(base: nat, size: nat, next: nat)

  datatype MemPool = MemPool(base: nat, size: nat, free: seq<Segment>, alloc: seq<Segment>)

  function SegmentAt(base: nat, size: nat): Segment { Segment(base, size, base + size) }

  // ----- what a good pool is -----

  predicate SegmentOk(s: Segment) { s.size > 0 && s.next == s.base + s.size }

  predicate Covers(s: Segment, b: int) { s.base <= b < s.base + s.size }

  ghost predicate In(l: seq<Segment>, b: int) { exists i :: 0 <= i < |l| && Covers(l[i], b) }

  /** In order, with a real gap between neighbours. */
  ghost predicate FreeOk(free: seq<Segment>) {
    && (forall i :: 0 <= i < |free| ==> SegmentOk(free[i]))
    && (forall i, j :: 0 <= i < j < |free| ==> free[i].next < free[j].base)
  }

  predicate Apart(a: Segment, b: Segment) { a.base + a.size <= b.base || b.base + b.size <= a.base }

  ghost predicate AllocOk(alloc: seq<Segment>) {
    && (forall i :: 0 <= i < |alloc| ==> SegmentOk(alloc[i]))
    && (forall i, j :: 0 <= i < j < |alloc| ==> Apart(alloc[i], alloc[j]))
  }

  predicate Inside(p: MemPool, s: Segment) { p.base <= s.base && s.base + s.size <= p.base + p.size }

  function Sum(l: seq<Segment>): nat { if l == [] then 0 else l[0].size + Sum(l[1..]) }

  /** Every byte of the pool is in exactly one segment, free or allocated. */
  ghost predicate Tiled(p: MemPool) {
    && (forall i :: 0 <= i < |p.free| ==> Inside(p, p.free[i]))
    && (forall i :: 0 <= i < |p.alloc| ==> Inside(p, p.alloc[i]))
    && (forall b :: p.base <= b < p.base + p.size ==> (In(p.free, b) <==> !In(p.alloc, b)))
  }

  ghost predicate PoolOk(p: MemPool) {
    p.size > 0 && FreeOk(p.free) && AllocOk(p.alloc) && Tiled(p) && Sum(p.free) + Sum(p.alloc) == p.size
  }

  // ----- operations -----

  function New(base: nat, size: nat): MemPool { MemPool(base, size, [SegmentAt(base, size)], []) }

  /** Rounding up to 64 in 32-bit arithmetic. */
  function Rounded(n: nat): nat { (n + 0x3F) % WRAP / 0x40 * 0x40 }

  /** The first free segment from i on that is large enough. */
  function FirstFit(free: seq<Segment>, n: nat, i: nat): (k: nat)
    requires i <= |free|
    ensures i <= k <= |free| && (k < |free| ==> free[k].size >= n)
    ensures forall j :: i <= j < k ==> free[j].size < n
    decreases |free| - i
  {
    if i == |free| || free[i].size >= n then i else FirstFit(free, n, i + 1)
  }

  /** The free list with n bytes taken from the front of segment k. */
  function Taken(free: seq<Segment>, k: nat, n: nat): seq<Segment>
    requires k < |free| && n <= free[k].size
  {
    if free[k].size == n then free[..k] + free[k + 1..]
    else free[k := free[k].(base := free[k].base + n, size := free[k].size - n)]
  }

  datatype Option<T> = None | Some(value: T)

  function Allocate(p: MemPool, n: nat): (Option<nat>, MemPool) {
    var r := Rounded(n);
    var k := FirstFit(p.free, r, 0);
    if k == |p.free| then (None, p)
    else (Some(p.free[k].base), p.(free := Taken(p.free, k, r), alloc := p.alloc + [SegmentAt(p.free[k].base, r)]))
  }

  /** The place of the allocated segment at address a; the list's length when there is none. */
  function FindBase(alloc: seq<Segment>, a: nat, i: nat): (k: nat)
    requires i <= |alloc|
    ensures i <= k <= |alloc| && (k < |alloc| ==> alloc[k].base == a)
    ensures forall j :: i <= j < k ==> alloc[j].base != a
    decreases |alloc| - i
  {
    if i == |alloc| || alloc[i].base == a then i else FindBase(alloc, a, i + 1)
  }

  /** The first free segment behind address a. */
  function FirstAbove(free: seq<Segment>, a: nat, i: nat): (k: nat)
    requires i <= |free|
    ensures i <= k <= |free| && (k < |free| ==> free[k].base > a)
    ensures forall j :: i <= j < k ==> free[j].base <= a
    decreases |free| - i
  {
    if i == |free| || free[i].base > a then i else FirstAbove(free, a, i + 1)
  }

  /** The search for the place of s ends inside the list. Where it does not, the program reads the
      element behind the last one. */
  predicate EndsInside(free: seq<Segment>, s: Segment) {
    || |free| == 0 || free[0].base > s.base || free[|free| - 1].next <= s.base
    || FirstAbove(free, s.base, 0) < |free|
  }

  /** The free list with a segment put back, joined with the neighbours it touches. */
  function Insert(free: seq<Segment>, s: Segment): seq<Segment>
    requires EndsInside(free, s)
  {
    if |free| == 0 then [s]
    else if free[0].base > s.base then
      if s.next == free[0].base then free[0 := free[0].(base := s.base, size := free[0].size + s.size)]
      else [s] + free
    else if free[|free| - 1].next <= s.base then
      var last := |free| - 1;
      if free[last].next == s.base then free[last := free[last].(next := s.next, size := free[last].size + s.size)]
      else free + [s]
    else
      var pos := FirstAbove(free, s.base, 0);
      var before, after := free[pos - 1], free[pos];
      if before.next == s.base && after.base == s.next then
        var joined := before.(next := after.next, size := before.size + after.size + s.size);
        free[pos - 1 := joined][..pos] + free[pos + 1..]
      else if before.next == s.base then free[pos - 1 := before.(next := s.next, size := before.size + s.size)]
      else if after.base == s.next then free[pos := after.(base := s.base, size := after.size + s.size)]
      else free[..pos] + [s] + free[pos..]
  }

  /** Freeing address a is well defined: a is refused, or one allocated segment has it, and the place of
      that segment is found inside the free list. */
  predicate Freeable(p: MemPool, a: nat) {
    var k := FindBase(p.alloc, a, 0);
    p.base <= a < p.base + p.size && k < |p.alloc| ==>
      EndsInside(p.free, p.alloc[k]) && forall i :: k < i < |p.alloc| ==> p.alloc[i].base != a
  }

  function Deallocate(p: MemPool, a: nat): (bool, MemPool)
    requires Freeable(p, a)
  {
    if a < p.base || a >= p.base + p.size then (false, p)
    else
      var k := FindBase(p.alloc, a, 0);
      if k == |p.alloc| then (false, p)
      else (true, p.(alloc := p.alloc[..k] + p.alloc[k + 1..], free := Insert(p.free, p.alloc[k])))
  }

  function Remaining(p: MemPool): nat { Sum(p.free) }

  // ----- rounding -----

  /** Rounding gives a multiple of 64 that holds the request exactly when it does not wrap. */
  lemma RoundingHoldsIff(n: nat)
    requires 0 < n < 0x1_0000_0000
    ensures Rounded(n) % 64 == 0
    ensures n <= Rounded(n) < n + 64 <==> n <= 0xFFFF_FFC0
    ensures n <= 0xFFFF_FFC0 ==> Rounded(n) > 0
    ensures n > 0xFFFF_FFC0 ==> Rounded(n) == 0
  {}

  // ----- taking -----

  lemma {:induction false} SumConcat(a: seq<Segment>, b: seq<Segment>)
    ensures Sum(a + b) == Sum(a) + Sum(b)
  {
    if a == [] {
      assert a + b == b;
    } else {
      assert (a + b)[1..] == a[1..] + b;
      SumConcat(a[1..], b);
    }
  }

  lemma SumSplit(l: seq<Segment>, k: nat)
    requires k < |l|
    ensures Sum(l) == Sum(l[..k]) + l[k].size + Sum(l[k + 1..])
  {
    assert l == l[..k] + ([l[k]] + l[k + 1..]);
    assert ([l[k]] + l[k + 1..])[1..] == l[k + 1..];
    SumConcat(l[..k], [l[k]] + l[k + 1..]);
  }

  lemma SumUpdate(l: seq<Segment>, k: nat, s: Segment)
    requires k < |l|
    ensures Sum(l[k := s]) == Sum(l) - l[k].size + s.size
  {
    SumSplit(l, k);
    SumSplit(l[k := s], k);
    assert l[k := s][..k] == l[..k] && l[k := s][k + 1..] == l[k + 1..];
  }

  /** Taking from a free segment removes exactly those bytes. */
  lemma TakenRemoves(free: seq<Segment>, k: nat, n: nat)
    requires FreeOk(free) && k < |free| && 0 < n <= free[k].size
    ensures FreeOk(Taken(free, k, n)) && Sum(Taken(free, k, n)) == Sum(free) - n
    ensures forall b :: In(Taken(free, k, n), b) <==> In(free, b) && !Covers(SegmentAt(free[k].base, n), b)
  {
    var l, s := Taken(free, k, n), SegmentAt(free[k].base, n);
    TakenOk(free, k, n);
    forall b ensures In(l, b) <==> In(free, b) && !Covers(s, b) {
      if In(l, b) { TakenWasFree(free, k, n, b); }
      if In(free, b) && !Covers(s, b) { FreeStaysFree(free, k, n, b); }
    }
  }

  lemma TakenOk(free: seq<Segment>, k: nat, n: nat)
    requires FreeOk(free) && k < |free| && 0 < n <= free[k].size
    ensures FreeOk(Taken(free, k, n)) && Sum(Taken(free, k, n)) == Sum(free) - n
  {
    hide Sum;
    var l := Taken(free, k, n);
    if free[k].size == n {
      SumSplit(free, k);
      SumConcat(free[..k], free[k + 1..]);
      forall i | 0 <= i < |l| ensures l[i] == free[if i < k then i else i + 1] {}
    } else {
      SumUpdate(free, k, l[k]);
    }
  }

  lemma TakenWasFree(free: seq<Segment>, k: nat, n: nat, b: int)
    requires FreeOk(free) && k < |free| && 0 < n <= free[k].size && In(Taken(free, k, n), b)
    ensures In(free, b) && !Covers(SegmentAt(free[k].base, n), b)
  {
    var l, whole := Taken(free, k, n), free[k].size == n;
    var i :| 0 <= i < |l| && Covers(l[i], b);
    var j := if whole && i >= k then i + 1 else i;
    assert Covers(free[j], b);
    assert j < k ==> free[j].next < free[k].base;
    assert k < j ==> free[k].next < free[j].base;
  }

  lemma FreeStaysFree(free: seq<Segment>, k: nat, n: nat, b: int)
    requires FreeOk(free) && k < |free| && 0 < n <= free[k].size && In(free, b)
             && !Covers(SegmentAt(free[k].base, n), b)
    ensures In(Taken(free, k, n), b)
  {
    var l, whole := Taken(free, k, n), free[k].size == n;
    var i :| 0 <= i < |free| && Covers(free[i], b);
    var j := if whole && i > k then i - 1 else i;
    assert Covers(l[j], b);
  }

  // ----- putting back -----

  /** Segments lo to hi replaced by one. */
  function Spliced(free: seq<Segment>, lo: nat, hi: nat, m: Segment): seq<Segment>
    requires lo <= hi <= |free|
  {
    free[..lo] + [m] + free[hi..]
  }

  /** m is s joined with the segments lo to hi, all of which it touches: none, the one before, the
      one behind, or both. */
  predicate Joins(free: seq<Segment>, lo: nat, hi: nat, s: Segment, m: Segment)
    requires lo <= hi <= |free|
  {
    || (hi == lo && m == s)
    || (hi == lo + 1 && free[lo].next == s.base && m == Segment(free[lo].base, free[lo].size + s.size, s.next))
    || (hi == lo + 1 && s.next == free[lo].base && m == Segment(s.base, s.size + free[lo].size, free[lo].next))
    || (hi == lo + 2 && free[lo].next == s.base && s.next == free[lo + 1].base
        && m == Segment(free[lo].base, free[lo].size + s.size + free[lo + 1].size, free[lo + 1].next))
  }

  /** What is left of lo is well before m, and what is right of hi well behind. */
  predicate Between(free: seq<Segment>, lo: nat, hi: nat, m: Segment)
    requires lo <= hi <= |free|
  {
    && (forall i :: 0 <= i < lo ==> free[i].next < m.base)
    && (forall i :: hi <= i < |free| ==> m.next < free[i].base)
  }

  ghost predicate ApartFromAll(free: seq<Segment>, s: Segment) { forall i :: 0 <= i < |free| ==> Apart(free[i], s) }

  /** The place between the segments before s and the ones behind it. */
  lemma Place(free: seq<Segment>, s: Segment)
    requires FreeOk(free) && SegmentOk(s) && ApartFromAll(free, s)
    ensures var pos := FirstAbove(free, s.base, 0);
            && (forall i :: 0 <= i < pos ==> free[i].next <= s.base)
            && (forall i :: pos <= i < |free| ==> s.next <= free[i].base)
  {
    var pos := FirstAbove(free, s.base, 0);
    forall i | 0 <= i < pos ensures free[i].next <= s.base { assert Apart(free[i], s); }
    forall i | pos <= i < |free| ensures s.next <= free[i].base {
      assert Apart(free[i], s);
      assert pos < i ==> free[pos].next < free[i].base;
    }
  }

  lemma UpdateAsConcat<T>(l: seq<T>, k: nat, x: T)
    requires k < |l|
    ensures l[k := x] == l[..k] + [x] + l[k + 1..]
    ensures l[k := x][..k + 1] == l[..k] + [x]
  {}

  /** The place of s, and what it touches there. */
  lemma Gap(free: seq<Segment>, s: Segment, pos: nat, lo: nat, hi: nat, m: Segment)
    requires FreeOk(free) && SegmentOk(s) && ApartFromAll(free, s) && pos == FirstAbove(free, s.base, 0)
    requires lo == (if pos > 0 && free[pos - 1].next == s.base then pos - 1 else pos)
    requires hi == (if pos < |free| && free[pos].base == s.next then pos + 1 else pos)
    requires Joins(free, lo, hi, s, m)
    ensures SegmentOk(m) && Between(free, lo, hi, m)
  {
    Place(free, s);
    forall i | 0 <= i < lo ensures free[i].next < m.base { assert i < pos - 1 ==> free[i].next < free[pos - 1].base; }
    forall i | hi <= i < |free| ensures m.next < free[i].base { assert i > pos ==> free[pos].next < free[i].base; }
  }

  /** The program's cases are one: s is joined with whatever it touches. */
  lemma InsertFirst(free: seq<Segment>, s: Segment) returns (lo: nat, hi: nat, m: Segment)
    requires FreeOk(free) && SegmentOk(s) && ApartFromAll(free, s)
    requires |free| == 0 || free[0].base > s.base
    ensures EndsInside(free, s)
    ensures lo <= hi <= |free| && Insert(free, s) == Spliced(free, lo, hi, m) && Joins(free, lo, hi, s, m)
    ensures SegmentOk(m) && Between(free, lo, hi, m)
  {
    hide FreeOk, ApartFromAll, Between;
    lo, hi, m := 0, 0, s;
    assert FirstAbove(free, s.base, 0) == 0;
    if |free| > 0 && s.next == free[0].base {
      hi, m := 1, Segment(s.base, s.size + free[0].size, free[0].next);
      UpdateAsConcat(free, 0, m);
    }
    Gap(free, s, 0, lo, hi, m);
  }

  lemma InsertLast(free: seq<Segment>, s: Segment) returns (lo: nat, hi: nat, m: Segment)
    requires FreeOk(free) && SegmentOk(s) && ApartFromAll(free, s)
    requires |free| > 0 && free[0].base <= s.base && free[|free| - 1].next <= s.base
    ensures EndsInside(free, s)
    ensures lo <= hi <= |free| && Insert(free, s) == Spliced(free, lo, hi, m) && Joins(free, lo, hi, s, m)
    ensures SegmentOk(m) && Between(free, lo, hi, m)
  {
    var n := |free|;
    lo, hi, m := n, n, s;
    Place(free, s);
    assert FirstAbove(free, s.base, 0) == n;
    if free[n - 1].next == s.base {
      lo, m := n - 1, Segment(free[n - 1].base, free[n - 1].size + s.size, s.next);
      UpdateAsConcat(free, n - 1, m);
    }
    Gap(free, s, n, lo, hi, m);
  }

  lemma MiddleCases(free: seq<Segment>, s: Segment, pos: nat) returns (lo: nat, hi: nat, m: Segment)
    requires |free| > 0 && free[0].base <= s.base < free[|free| - 1].next
    requires pos == FirstAbove(free, s.base, 0) && 0 < pos < |free|
    ensures lo == (if pos > 0 && free[pos - 1].next == s.base then pos - 1 else pos)
    ensures hi == (if pos < |free| && free[pos].base == s.next then pos + 1 else pos)
    ensures EndsInside(free, s)
    ensures Insert(free, s) == Spliced(free, lo, hi, m) && Joins(free, lo, hi, s, m)
  {
    var before, after := free[pos - 1], free[pos];
    lo, hi, m := pos, pos, s;
    if before.next == s.base && after.base == s.next {
      lo, hi, m := pos - 1, pos + 1, Segment(before.base, before.size + s.size + after.size, after.next);
      UpdateAsConcat(free, pos - 1, m);
    } else if before.next == s.base {
      lo, m := pos - 1, Segment(before.base, before.size + s.size, s.next);
      UpdateAsConcat(free, pos - 1, m);
    } else if after.base == s.next {
      hi, m := pos + 1, Segment(s.base, s.size + after.size, after.next);
      UpdateAsConcat(free, pos, m);
    }
  }

  lemma InsertMiddle(free: seq<Segment>, s: Segment) returns (lo: nat, hi: nat, m: Segment)
    requires FreeOk(free) && SegmentOk(s) && ApartFromAll(free, s)
    requires |free| > 0 && free[0].base <= s.base < free[|free| - 1].next
    ensures EndsInside(free, s)
    ensures lo <= hi <= |free| && Insert(free, s) == Spliced(free, lo, hi, m) && Joins(free, lo, hi, s, m)
    ensures SegmentOk(m) && Between(free, lo, hi, m)
  {
    var pos := FirstAbove(free, s.base, 0);
    Place(free, s);
    lo, hi, m := MiddleCases(free, s, pos);
    Gap(free, s, pos, lo, hi, m);
  }

  lemma InsertSplices(free: seq<Segment>, s: Segment) returns (lo: nat, hi: nat, m: Segment)
    requires FreeOk(free) && SegmentOk(s) && ApartFromAll(free, s)
    ensures EndsInside(free, s)
    ensures lo <= hi <= |free| && Insert(free, s) == Spliced(free, lo, hi, m) && Joins(free, lo, hi, s, m)
    ensures SegmentOk(m) && Between(free, lo, hi, m)
  {
    if |free| == 0 || free[0].base > s.base {
      lo, hi, m := InsertFirst(free, s);
    } else if free[|free| - 1].next <= s.base {
      lo, hi, m := InsertLast(free, s);
    } else {
      lo, hi, m := InsertMiddle(free, s);
    }
  }

  lemma SplicedOk(free: seq<Segment>, lo: nat, hi: nat, m: Segment)
    requires FreeOk(free) && lo <= hi <= |free| && SegmentOk(m) && Between(free, lo, hi, m)
    ensures FreeOk(Spliced(free, lo, hi, m))
  {
    var l := Spliced(free, lo, hi, m);
    forall i | 0 <= i < |l| ensures l[i] == if i < lo then free[i] else if i == lo then m else free[hi + i - lo - 1] {}
  }

  lemma SplicedSum(free: seq<Segment>, lo: nat, hi: nat, s: Segment, m: Segment)
    requires lo <= hi <= |free| && Joins(free, lo, hi, s, m)
    ensures Sum(Spliced(free, lo, hi, m)) == Sum(free) + s.size
  {
    var d := free[lo..hi];
    assert free == free[..lo] + d + free[hi..];
    SumConcat(free[..lo] + d, free[hi..]);
    SumConcat(free[..lo], d);
    SumConcat(free[..lo] + [m], free[hi..]);
    SumConcat(free[..lo], [m]);
    assert [m][1..] == [] && Sum([m]) == m.size;
    if hi == lo + 1 { assert d == [free[lo]] && d[1..] == []; }
    if hi == lo + 2 { assert d[1..] == [free[lo + 1]] && d[1..][1..] == []; }
  }

  lemma SplicedHasBoth(free: seq<Segment>, lo: nat, hi: nat, s: Segment, m: Segment, b: int)
    requires FreeOk(free) && SegmentOk(s) && lo <= hi <= |free| && Joins(free, lo, hi, s, m)
    requires In(free, b) || Covers(s, b)
    ensures In(Spliced(free, lo, hi, m), b)
  {
    var l := Spliced(free, lo, hi, m);
    assert l[lo] == m;
    if Covers(s, b) {
      assert Covers(l[lo], b);
    } else {
      var i :| 0 <= i < |free| && Covers(free[i], b);
      if i < lo {
        assert l[i] == free[i];
      } else if i >= hi {
        assert l[lo + 1 + i - hi] == free[i];
      } else {
        assert Covers(l[lo], b);
      }
    }
  }

  lemma SplicedHasOnly(free: seq<Segment>, lo: nat, hi: nat, s: Segment, m: Segment, b: int)
    requires FreeOk(free) && SegmentOk(s) && lo <= hi <= |free| && Joins(free, lo, hi, s, m)
    requires In(Spliced(free, lo, hi, m), b)
    ensures In(free, b) || Covers(s, b)
  {
    var l := Spliced(free, lo, hi, m);
    var i :| 0 <= i < |l| && Covers(l[i], b);
    if i < lo {
      assert Covers(free[i], b);
    } else if i > lo {
      assert l[i] == free[hi + i - lo - 1] && Covers(free[hi + i - lo - 1], b);
    } else if !Covers(s, b) {
      assert Covers(free[lo], b) || (hi == lo + 2 && Covers(free[lo + 1], b));
    }
  }

  /** Putting a segment back keeps the list in order and apart, and adds exactly its bytes. */
  lemma InsertAdds(free: seq<Segment>, s: Segment)
    requires FreeOk(free) && SegmentOk(s) && ApartFromAll(free, s)
    ensures EndsInside(free, s)
    ensures FreeOk(Insert(free, s)) && Sum(Insert(free, s)) == Sum(free) + s.size
    ensures forall b :: In(Insert(free, s), b) <==> In(free, b) || Covers(s, b)
  {
    var lo, hi, m := InsertSplices(free, s);
    SplicedOk(free, lo, hi, m);
    SplicedSum(free, lo, hi, s, m);
    forall b ensures In(Insert(free, s), b) <==> In(free, b) || Covers(s, b) {
      if In(Insert(free, s), b) { SplicedHasOnly(free, lo, hi, s, m, b); }
      if In(free, b) || Covers(s, b) { SplicedHasBoth(free, lo, hi, s, m, b); }
    }
  }

  lemma SegmentAdded(free: seq<Segment>, k: nat, s: Segment)
    requires k <= |free|
    ensures Sum(free[..k] + [s] + free[k..]) == Sum(free) + s.size
  {
    assert free == free[..k] + free[k..];
    SumConcat(free[..k], free[k..]);
    SumConcat(free[..k] + [s], free[k..]);
    SumConcat(free[..k], [s]);
    assert [s][1..] == [];
  }

  /** In whatever state the list is, putting a segment back adds its size. */
  lemma InsertSum(free: seq<Segment>, s: Segment)
    requires EndsInside(free, s)
    ensures Sum(Insert(free, s)) == Sum(free) + s.size
  {
    hide Sum;
    var n := |free|;
    SegmentAdded(free, 0, s);
    SegmentAdded(free, n, s);
    assert free[..0] + [s] + free[0..] == [s] + free && free[..n] + [s] + free[n..] == free + [s];
    assert n == 0 ==> [s] + free == [s];
    if n > 0 && free[0].base > s.base && s.next == free[0].base {
      SumUpdate(free, 0, Insert(free, s)[0]);
    } else if n > 0 && free[0].base <= s.base && free[n - 1].next == s.base {
      SumUpdate(free, n - 1, Insert(free, s)[n - 1]);
    } else if n > 0 && free[0].base <= s.base < free[n - 1].next {
      var lo, hi, m := MiddleCases(free, s, FirstAbove(free, s.base, 0));
      SplicedSum(free, lo, hi, s, m);
    }
  }
}
