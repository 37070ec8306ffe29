/** The FAT16 volume as a value: the allocation table and the bytes of every cluster, cached or
    not. Chain walking, the read loop, the write loop and cluster allocation are functions; the
    lemmas relate them to files that are plain byte sequences. */
module Fat {

  type Byte = b: nat | b < 0x100
  type Word = w: nat | w < 0x1_0000

  const FREE: Word := 0
  const END_MARK: Word := 0xFFF7
  const LAST: Word := 0xFFFF
  /** The bound VMFileWrite compares a freshly linked cluster with. */
  const WRITE_GUARD: nat := 0xFFF

  datatype Volume = Volume(fat: seq<Word>, data: seq<seq<Byte>>, clusterSize: nat)

  ghost predicate Shape(v: Volume) {
    && v.clusterSize > 0 && 2 <= |v.fat| <= END_MARK && |v.data| == |v.fat|
    && v.fat[0] != FREE && v.fat[1] != FREE
    && forall c :: 0 <= c < |v.data| ==> |v.data[c]| == v.clusterSize
  }

  // ----- clusters and bytes -----

  /** n clusters' worth of bytes. */
  function Room(n: nat, clusterSize: nat): nat { if n == 0 then 0 else clusterSize + Room(n - 1, clusterSize) }

  lemma {:induction false} RoomIsProduct(n: nat, clusterSize: nat)
    ensures Room(n, clusterSize) == n * clusterSize
  {
    if n > 0 {
      RoomIsProduct(n - 1, clusterSize);
      assert n * clusterSize == (n - 1) * clusterSize + clusterSize;
    }
  }

  /** The number of whole clusters in front of byte p, by counting them off. */
  function Before(p: nat, clusterSize: nat): nat
    requires clusterSize > 0
  {
    if p < clusterSize then 0 else 1 + Before(p - clusterSize, clusterSize)
  }

  /** The place of byte p in its cluster. */
  function Offset(p: nat, clusterSize: nat): (r: nat)
    requires clusterSize > 0
    ensures r < clusterSize
  {
    if p < clusterSize then p else Offset(p - clusterSize, clusterSize)
  }

  /** These two are the program's quotient and remainder. */
  lemma BeforeIsQuotient(p: nat, clusterSize: nat)
    requires clusterSize > 0
    ensures Before(p, clusterSize) == p / clusterSize && Offset(p, clusterSize) == p % clusterSize
  {
    BeforeAndOffset(p, clusterSize);
    RoomIsProduct(Before(p, clusterSize), clusterSize);
    QuotientUnique(p, clusterSize, Before(p, clusterSize), Offset(p, clusterSize));
  }

  lemma MulMono(a: int, b: int, c: nat)
    requires a < b
    ensures a * c + c <= b * c
  {
    var d := b - a - 1;
    assert b * c == (a + 1 + d) * c == a * c + c + d * c;
  }

  lemma QuotientUnique(x: nat, m: nat, q: nat, r: nat)
    requires m > 0 && x == q * m + r && r < m
    ensures x / m == q && x % m == r
  {
    var q', r' := x / m, x % m;
    assert q' * m + r' == x;
    if q < q' {
      MulMono(q, q', m);
    } else if q' < q {
      MulMono(q', q, m);
    }
  }

  lemma {:induction false} BeforeAndOffset(p: nat, clusterSize: nat)
    requires clusterSize > 0
    ensures Room(Before(p, clusterSize), clusterSize) + Offset(p, clusterSize) == p
    decreases p
  {
    if p >= clusterSize { BeforeAndOffset(p - clusterSize, clusterSize); }
  }

  lemma {:induction false} BeforeBound(p: nat, clusterSize: nat, n: nat)
    requires clusterSize > 0
    ensures Before(p, clusterSize) < n <==> p < Room(n, clusterSize)
    decreases n
  {
    if n > 0 && p >= clusterSize { BeforeBound(p - clusterSize, clusterSize, n - 1); }
  }

  // ----- chains -----

  /** cs are the clusters of one file, in order: linked, inside the table, without repetition,
      and closed by an end marker. */
  ghost predicate Linked(fat: seq<Word>, cs: seq<Word>, i: nat)
    requires i + 1 < |cs| && cs[i] < |fat|
  {
    fat[cs[i]] == cs[i + 1]
  }

  ghost predicate IsChain(fat: seq<Word>, cs: seq<Word>) {
    && cs != []
    && (forall i :: 0 <= i < |cs| ==> 2 <= cs[i] < |fat| <= END_MARK)
    && (forall i :: 0 <= i < |cs| - 1 ==> Linked(fat, cs, i))
    && fat[cs[|cs| - 1]] >= END_MARK
    && (forall i, j :: 0 <= i < j < |cs| ==> cs[i] != cs[j])
  }

  function Link(fat: seq<Word>, c: nat): Word { if c < |fat| then fat[c] else LAST }

  function Hop(fat: seq<Word>, c: Word, hops: nat): Word
    decreases hops
  {
    if hops == 0 then c
    else if c == FREE || c >= END_MARK then LAST
    else Hop(fat, Link(fat, c), hops - 1)
  }

  /** FatSearch finds the n-th cluster of a chain; one past the end it finds the end marker. */
  lemma {:induction false} HopWalksChain(fat: seq<Word>, cs: seq<Word>, n: nat)
    requires IsChain(fat, cs) && n <= |cs|
    ensures Hop(fat, cs[0], n) == if n < |cs| then cs[n] else fat[cs[|cs| - 1]]
    decreases n
  {
    if n > 0 {
      if |cs| == 1 {
        assert n == 1;
      } else {
        TailIsChain(fat, cs);
        HopWalksChain(fat, cs[1..], n - 1);
      }
    }
  }

  lemma TailIsChain(fat: seq<Word>, cs: seq<Word>)
    requires IsChain(fat, cs) && |cs| > 1
    ensures IsChain(fat, cs[1..]) && fat[cs[0]] == cs[1] < END_MARK
  {
    var ds := cs[1..];
    forall i | 0 <= i < |ds| ensures 2 <= ds[i] < |fat| { assert ds[i] == cs[i + 1]; }
    forall i | 0 <= i < |ds| - 1 ensures Linked(fat, ds, i) { assert ds[i] == cs[i + 1] && Linked(fat, cs, i + 1); }
    assert Linked(fat, cs, 0);
  }

  // ----- free clusters -----

  /** The number of free entries among the first b. */
  function FreeBelow(fat: seq<Word>, b: nat): nat {
    if b == 0 then 0 else FreeBelow(fat, b - 1) + (if b <= |fat| && fat[b - 1] == FREE then 1 else 0)
  }

  function FreeCount(fat: seq<Word>): nat { FreeBelow(fat, |fat|) }

  /** The first free entry from i on; the length of the table when there is none. */
  function FirstFree(fat: seq<Word>, i: nat): (r: nat)
    requires i <= |fat|
    ensures i <= r <= |fat|
    ensures r < |fat| ==> fat[r] == FREE
    ensures forall j :: i <= j < r ==> fat[j] != FREE
    decreases |fat| - i
  {
    if i == |fat| || fat[i] == FREE then i else FirstFree(fat, i + 1)
  }

  lemma {:induction false} FreeBelowZero(fat: seq<Word>, b: nat)
    requires forall j :: 0 <= j < b && j < |fat| ==> fat[j] != FREE
    ensures FreeBelow(fat, b) == 0
    decreases b
  {
    if b > 0 { FreeBelowZero(fat, b - 1); }
  }

  /** Linking free cluster i behind c uses up exactly i. */
  lemma {:induction false} FreeBelowAfterLink(fat: seq<Word>, c: nat, i: Word, b: nat)
    requires c < |fat| && fat[c] != FREE && i < |fat| && fat[i] == FREE && i != FREE
    ensures FreeBelow(fat[c := i][i := LAST], b) == FreeBelow(fat, b) - (if i < b then 1 else 0)
    decreases b
  {
    if b > 0 { FreeBelowAfterLink(fat, c, i, b - 1); }
  }

  lemma {:induction false} FreeBelowPositive(fat: seq<Word>, i: nat, b: nat)
    requires i < |fat| && fat[i] == FREE && i < b
    ensures FreeBelow(fat, b) >= 1
    decreases b
  {
    if i < b - 1 { FreeBelowPositive(fat, i, b - 1); }
  }

  // ----- allocation -----

  /** The write loop's extension of a chain whose last cluster is c: the first free entry, if
      there is one, is linked behind c. */
  function Extend(fat: seq<Word>, c: nat): (r: seq<Word>)
    requires c < |fat| <= END_MARK
    ensures |r| == |fat|
  {
    var i := FirstFree(fat, 0);
    if i < |fat| then fat[c := i][i := LAST] else fat
  }

  /** Extending uses up one free cluster, if any is left. */
  lemma ExtendCounts(fat: seq<Word>, c: Word)
    requires c < |fat| <= END_MARK && fat[c] >= END_MARK && |fat| >= 2 && fat[0] != FREE
    ensures var i, fat' := FirstFree(fat, 0), Extend(fat, c);
            if i == |fat| then fat' == fat && FreeCount(fat) == 0
            else forall b :: FreeBelow(fat', b) == FreeBelow(fat, b) - (if i < b then 1 else 0)
  {
    var i := FirstFree(fat, 0);
    if i == |fat| {
      FreeBelowZero(fat, |fat|);
    } else {
      forall b ensures FreeBelow(Extend(fat, c), b) == FreeBelow(fat, b) - (if i < b then 1 else 0) {
        FreeBelowAfterLink(fat, c, i, b);
      }
    }
  }

  /** A free cluster is in no chain. */
  lemma FreeNotChained(fat: seq<Word>, cs: seq<Word>, i: Word)
    requires IsChain(fat, cs) && i < |fat| && fat[i] == FREE
    ensures i !in cs
  {
    forall j | 0 <= j < |cs| ensures cs[j] != i {
      if j < |cs| - 1 { assert Linked(fat, cs, j); }
    }
  }

  lemma AppendChain(fat: seq<Word>, fat': seq<Word>, cs: seq<Word>, i: Word)
    requires IsChain(fat, cs) && i !in cs && 2 <= i < |fat| == |fat'| && fat'[i] >= END_MARK && fat'[cs[|cs| - 1]] == i
    requires forall k :: 0 <= k < |fat| && k != i && k != cs[|cs| - 1] ==> fat'[k] == fat[k]
    ensures IsChain(fat', cs + [i])
  {
    var ds := cs + [i];
    forall j | 0 <= j < |ds| - 1 ensures Linked(fat', ds, j) {
      if j < |cs| - 1 { assert cs[j] != cs[|cs| - 1] && Linked(fat, cs, j); }
    }
  }

  /** Extending keeps every other chain and grows this one by the first free cluster. */
  lemma ExtendGrows(fat: seq<Word>, cs: seq<Word>)
    requires IsChain(fat, cs) && |fat| >= 2 && fat[0] != FREE && fat[1] != FREE && FirstFree(fat, 0) < |fat|
    ensures var i, fat' := FirstFree(fat, 0), Extend(fat, cs[|cs| - 1]);
            && IsChain(fat', cs + [i]) && i !in cs && 2 <= i
            && fat[i] == 0 && (forall c :: 0 <= c < i ==> fat[c] != 0)
            && fat'[cs[|cs| - 1]] == i && fat'[i] == 0xFFFF
            && (forall c :: 0 <= c < |fat| && c != i && c != cs[|cs| - 1] ==> fat'[c] == fat[c])
  {
    var i, c := FirstFree(fat, 0), cs[|cs| - 1];
    FreeNotChained(fat, cs, i);
    assert c in cs;
    AppendChain(fat, Extend(fat, c), cs, i);
  }

  // ----- bytes of a chain -----

  function DataOf(v: Volume, c: nat): seq<Byte> { if c < |v.data| then v.data[c] else [] }

  function Flat(v: Volume, cs: seq<Word>): seq<Byte> {
    if cs == [] then [] else DataOf(v, cs[0]) + Flat(v, cs[1..])
  }

  lemma {:induction false} FlatLength(v: Volume, cs: seq<Word>)
    requires Shape(v) && forall i :: 0 <= i < |cs| ==> cs[i] < |v.data|
    ensures |Flat(v, cs)| == Room(|cs|, v.clusterSize)
  {
    if cs != [] {
      forall i | 0 <= i < |cs[1..]| ensures cs[1..][i] < |v.data| { assert cs[1..][i] == cs[i + 1]; }
      FlatLength(v, cs[1..]);
    }
  }

  lemma {:induction false} FlatSame(v: Volume, v': Volume, cs: seq<Word>)
    requires forall i :: 0 <= i < |cs| ==> DataOf(v', cs[i]) == DataOf(v, cs[i])
    ensures Flat(v', cs) == Flat(v, cs)
  {
    if cs != [] {
      forall i | 0 <= i < |cs[1..]| ensures DataOf(v', cs[1..][i]) == DataOf(v, cs[1..][i]) {
        assert cs[1..][i] == cs[i + 1];
      }
      FlatSame(v, v', cs[1..]);
    }
  }

  lemma {:induction false} FlatConcat(v: Volume, a: seq<Word>, b: seq<Word>)
    ensures Flat(v, a + b) == Flat(v, a) + Flat(v, b)
  {
    if a == [] {
      assert a + b == b;
    } else {
      assert (a + b)[1..] == a[1..] + b;
      FlatConcat(v, a[1..], b);
    }
  }

  function Min(a: int, b: int): int { if a < b then a else b }

  // ----- the read loop -----

  /** VMFileRead's loop: at offset off of cluster c, with `want` bytes still asked for and `left`
      bytes left in the file. */
  function ReadLoop(v: Volume, c: nat, off: nat, want: nat, left: nat): seq<Byte>
    requires off < v.clusterSize
    decreases want
  {
    if want == 0 || left == 0 || |DataOf(v, c)| != v.clusterSize then []
    else
      var amount := Min(v.clusterSize - off, left);
      if want < amount then v.data[c][off..off + want]
      else
        var got := v.data[c][off..off + amount];
        if want == amount || Link(v.fat, c) >= END_MARK then got
        else got + ReadLoop(v, Link(v.fat, c), 0, want - amount, left - amount)
  }

  lemma SliceAcross<T>(a: seq<T>, b: seq<T>, off: nat, n: nat)
    requires off <= |a| && off + n <= |a| + |b|
    ensures (a + b)[off..off + n] == if off + n <= |a| then a[off..off + n] else a[off..] + b[..off + n - |a|]
  {}

  /** The read loop returns exactly the asked-for slice of the chain's bytes. */
  lemma {:induction false} ReadTail(v: Volume, ds: seq<Word>, off: nat, want: nat, left: nat)
    requires Shape(v) && IsChain(v.fat, ds) && off < v.clusterSize && off + left <= |Flat(v, ds)|
    ensures ReadLoop(v, ds[0], off, want, left) == Flat(v, ds)[off..off + Min(want, left)]
    decreases |ds|, 1
  {
    var room := v.clusterSize - off;
    if want > room && left > room {
      ReadOn(v, ds, off, want, left);
      SliceAcross(DataOf(v, ds[0]), Flat(v, ds[1..]), off, Min(want, left));
    } else {
      ReadHere(v, ds, off, want, left);
    }
  }

  lemma ReadHere(v: Volume, ds: seq<Word>, off: nat, want: nat, left: nat)
    requires Shape(v) && IsChain(v.fat, ds) && off < v.clusterSize
    requires want <= v.clusterSize - off || left <= v.clusterSize - off
    ensures off + Min(want, left) <= v.clusterSize <= |Flat(v, ds)|
    ensures ReadLoop(v, ds[0], off, want, left) == Flat(v, ds)[off..off + Min(want, left)]
  {
    SliceAcross(DataOf(v, ds[0]), Flat(v, ds[1..]), off, Min(want, left));
    if want > left && Link(v.fat, ds[0]) < END_MARK {
      assert ReadLoop(v, Link(v.fat, ds[0]), 0, want - left, 0) == [];
    }
  }

  lemma FlatOne(v: Volume, ds: seq<Word>)
    requires ds != []
    ensures |ds| == 1 ==> Flat(v, ds) == DataOf(v, ds[0])
  {
    if |ds| == 1 { assert ds[1..] == []; }
  }

  /** One turn of the loop when the chain goes on and more is wanted than this cluster has. */
  lemma ReadOne(v: Volume, c: Word, off: nat, want: nat, left: nat)
    requires c < |v.fat| && v.fat[c] < END_MARK && |DataOf(v, c)| == v.clusterSize
    requires off < v.clusterSize && want > v.clusterSize - off && left > v.clusterSize - off
    ensures var room := v.clusterSize - off;
            ReadLoop(v, c, off, want, left) == DataOf(v, c)[off..] + ReadLoop(v, v.fat[c], 0, want - room, left - room)
  {}

  lemma {:induction false} ReadOn(v: Volume, ds: seq<Word>, off: nat, want: nat, left: nat)
    requires Shape(v) && IsChain(v.fat, ds) && off < v.clusterSize && off + left <= |Flat(v, ds)|
    requires want > v.clusterSize - off && left > v.clusterSize - off
    ensures var room := v.clusterSize - off;
            && |Flat(v, ds)| == v.clusterSize + |Flat(v, ds[1..])|
            && ReadLoop(v, ds[0], off, want, left) ==
                 DataOf(v, ds[0])[off..] + Flat(v, ds[1..])[..Min(want, left) - room]
    decreases |ds|, 0
  {
    var room := v.clusterSize - off;
    FlatOne(v, ds);
    TailIsChain(v.fat, ds);
    ReadOne(v, ds[0], off, want, left);
    ReadTail(v, ds[1..], 0, want - room, left - room);
  }

  // ----- the write loop -----

  function Splice(a: seq<Byte>, off: nat, b: seq<Byte>): seq<Byte>
    requires off + |b| <= |a|
  {
    a[..off] + b + a[off + |b|..]
  }

  function Put(v: Volume, c: nat, off: nat, b: seq<Byte>): Volume
    requires c < |v.data| && off + |b| <= |v.data[c]|
  {
    v.(data := v.data[c := Splice(v.data[c], off, b)])
  }

  /** The first cluster of a long write, filled from offset off to its end. */
  function Fill(v: Volume, c: nat, off: nat, msg: seq<Byte>): Volume
    requires c < |v.data| && |v.data[c]| == v.clusterSize && off < v.clusterSize && v.clusterSize - off <= |msg|
  {
    Put(v, c, off, msg[..v.clusterSize - off])
  }

  /** What is left of the message then. */
  function Rest(v: Volume, off: nat, msg: seq<Byte>): seq<Byte>
    requires off < v.clusterSize && v.clusterSize - off <= |msg|
  {
    msg[v.clusterSize - off..]
  }

  /** VMFileWrite's loop: msg goes to offset off of cluster c and on through the chain, which is
      extended when it ends. A freshly linked cluster at or above WRITE_GUARD stops the loop. */
  function WriteLoop(v: Volume, c: nat, off: nat, msg: seq<Byte>): (Volume, nat)
    requires off < v.clusterSize
    decreases |msg|
  {
    var room := v.clusterSize - off;
    if msg == [] || c >= |v.fat| || |v.fat| > END_MARK || |DataOf(v, c)| != v.clusterSize then (v, 0)
    else if |msg| < room then (Put(v, c, off, msg), |msg|)
    else
      var v1 := Fill(v, c, off, msg);
      if |msg| == room then (v1, room)
      else if v1.fat[c] >= END_MARK then
        var v2 := v1.(fat := Extend(v1.fat, c));
        if v2.fat[c] >= WRITE_GUARD then (v2, room)
        else var r := WriteLoop(v2, v2.fat[c], 0, Rest(v, off, msg)); (r.0, room + r.1)
      else var r := WriteLoop(v1, v1.fat[c], 0, Rest(v, off, msg)); (r.0, room + r.1)
  }

  /** The chain the loop leaves behind. */
  ghost function ChainAfter(v: Volume, ds: seq<Word>, off: nat, msg: seq<Byte>): seq<Word>
    requires Shape(v) && IsChain(v.fat, ds) && off < v.clusterSize
    decreases |msg|
  {
    if |msg| <= v.clusterSize - off then ds
    else if |ds| > 1 then
      TailIsChain(v.fat, ds);
      [ds[0]] + ChainAfter(Fill(v, ds[0], off, msg), ds[1..], 0, Rest(v, off, msg))
    else
      var i := FirstFree(v.fat, 0);
      if i == |v.fat| then ds
      else if i >= WRITE_GUARD then [ds[0], i]
      else
        FillExtendShape(v, ds[0], off, msg);
        [ds[0]] + ChainAfter(FillExtend(v, ds[0], off, msg), [i], 0, Rest(v, off, msg))
  }

  ghost function FillExtend(v: Volume, c: Word, off: nat, msg: seq<Byte>): Volume
    requires Shape(v) && IsChain(v.fat, [c]) && off < v.clusterSize && v.clusterSize - off <= |msg|
  {
    Fill(v, c, off, msg).(fat := Extend(v.fat, c))
  }

  lemma FillExtendShape(v: Volume, c: Word, off: nat, msg: seq<Byte>)
    requires Shape(v) && IsChain(v.fat, [c]) && off < v.clusterSize && v.clusterSize - off <= |msg|
    requires FirstFree(v.fat, 0) < |v.fat|
    ensures Shape(FillExtend(v, c, off, msg)) && IsChain(FillExtend(v, c, off, msg).fat, [FirstFree(v.fat, 0)])
    ensures FillExtend(v, c, off, msg).fat[c] == FirstFree(v.fat, 0)
  {
    var i := FirstFree(v.fat, 0);
    ExtendGrows(v.fat, [c]);
    assert ([c] + [i])[1..] == [i];
    TailIsChain(Extend(v.fat, c), [c] + [i]);
  }

  /** The table after a write: the chain of ds has grown to ds' by free clusters, and clusters
      outside ds' are as they were. */
  ghost predicate Grown(v: Volume, ds: seq<Word>, v': Volume, ds': seq<Word>) {
    && Shape(v') && v'.clusterSize == v.clusterSize && |v'.fat| == |v.fat|
    && IsChain(v'.fat, ds') && |ds| <= |ds'| && ds'[..|ds|] == ds
    && (forall j :: |ds| <= j < |ds'| ==> v.fat[ds'[j]] == FREE)
    && (forall c :: 0 <= c < |v.fat| && c !in ds' ==> v'.fat[c] == v.fat[c] && DataOf(v', c) == DataOf(v, c))
    && FreeCount(v'.fat) + |ds'| == FreeCount(v.fat) + |ds|
  }

  /** A chain grown from its tail. */
  lemma ConsChain(fat: seq<Word>, c: Word, t: seq<Word>)
    requires IsChain(fat, t) && 2 <= c < |fat| && fat[c] == t[0] && c !in t
    ensures IsChain(fat, [c] + t)
  {
    var ds := [c] + t;
    forall i | 0 <= i < |ds| - 1 ensures Linked(fat, ds, i) {
      if i > 0 { assert Linked(fat, t, i - 1); }
    }
  }

  /** The cluster in front of a grown chain is none of its clusters. */
  lemma FrontApart(v: Volume, ds: seq<Word>, v1: Volume, v': Volume, t': seq<Word>)
    requires Shape(v) && IsChain(v.fat, ds) && |ds| > 1 && v1.fat == v.fat && Grown(v1, ds[1..], v', t')
    ensures ds[0] !in t' && t'[0] == ds[1] == v.fat[ds[0]]
  {
    assert Linked(v.fat, ds, 0);
    assert t'[..|ds[1..]|][0] == ds[1];
    forall j | 0 <= j < |t'| ensures t'[j] != ds[0] {
      if j < |ds[1..]| { assert t'[..|ds[1..]|][j] == ds[j + 1]; }
    }
  }

  lemma GrowOnThroughChain(v: Volume, v1: Volume, ds: seq<Word>, v': Volume, t': seq<Word>)
    requires Shape(v) && IsChain(v.fat, ds) && |ds| > 1 && v1.fat == v.fat && v1.clusterSize == v.clusterSize
    requires forall c :: 0 <= c < |v.fat| && c != ds[0] ==> DataOf(v1, c) == DataOf(v, c)
    requires Grown(v1, ds[1..], v', t')
    ensures Grown(v, ds, v', [ds[0]] + t') && ds[0] !in t'
  {
    var ds' := [ds[0]] + t';
    FrontApart(v, ds, v1, v', t');
    ConsChain(v'.fat, ds[0], t');
    StartKept(ds, t');
    forall j | |ds| <= j < |ds'| ensures v.fat[ds'[j]] == FREE { assert ds'[j] == t'[j - 1]; }
  }

  lemma StartKept(ds: seq<Word>, t': seq<Word>)
    requires ds != [] && |ds| - 1 <= |t'| && t'[..|ds| - 1] == ds[1..]
    ensures ([ds[0]] + t')[..|ds|] == ds
  {
    assert ([ds[0]] + t')[..|ds|] == [ds[0]] + t'[..|ds| - 1];
  }

  lemma GrowIntoFresh(v: Volume, v2: Volume, c: Word, i: Word, v': Volume, t': seq<Word>)
    requires Shape(v) && IsChain(v.fat, [c]) && i == FirstFree(v.fat, 0) < |v.fat|
    requires v2.fat == Extend(v.fat, c) && v2.clusterSize == v.clusterSize
    requires forall k :: 0 <= k < |v.fat| && k != c ==> DataOf(v2, k) == DataOf(v, k)
    requires Grown(v2, [i], v', t')
    ensures Grown(v, [c], v', [c] + t') && c !in t'
  {
    var ds' := [c] + t';
    ExtendCounts(v.fat, c);
    ExtendGrows(v.fat, [c]);
    assert t'[..1][0] == i;
    forall j | 0 <= j < |t'| ensures t'[j] != c && v.fat[t'[j]] == FREE {
      if j > 0 { assert v2.fat[t'[j]] == FREE; }
    }
    ConsChain(v'.fat, c, t');
    assert ds'[..1] == [c];
  }

  /** The write loop leaves the table well formed: the chain grows by free clusters only, nothing
      outside it changes, and free plus chained clusters are conserved. */
  lemma {:induction false} WriteGrows(v: Volume, ds: seq<Word>, off: nat, msg: seq<Byte>)
    requires Shape(v) && IsChain(v.fat, ds) && off < v.clusterSize
    ensures Grown(v, ds, WriteLoop(v, ds[0], off, msg).0, ChainAfter(v, ds, off, msg))
    decreases |msg|, 1
  {
    if |msg| <= v.clusterSize - off {
      assert ds[..|ds|] == ds;
    } else if |ds| > 1 {
      WriteGrowsOn(v, ds, off, msg);
    } else {
      assert ds == [ds[0]];
      WriteGrowsFresh(v, ds[0], off, msg);
    }
  }

  lemma {:induction false} WriteGrowsOn(v: Volume, ds: seq<Word>, off: nat, msg: seq<Byte>)
    requires Shape(v) && IsChain(v.fat, ds) && off < v.clusterSize && |msg| > v.clusterSize - off && |ds| > 1
    ensures Grown(v, ds, WriteLoop(v, ds[0], off, msg).0, ChainAfter(v, ds, off, msg))
    decreases |msg|, 0
  {
    var v1, rest := Fill(v, ds[0], off, msg), Rest(v, off, msg);
    TurnOn(v, ds, off, msg);
    ChainOn(v, ds, off, msg);
    WriteGrows(v1, ds[1..], 0, rest);
    GrowOnThroughChain(v, v1, ds, WriteLoop(v1, ds[1], 0, rest).0, ChainAfter(v1, ds[1..], 0, rest));
  }

  /** One turn of the loop when the message does not fit and the chain goes on. */
  lemma LoopOn(v: Volume, c: Word, off: nat, msg: seq<Byte>)
    requires c < |v.fat| <= END_MARK && |DataOf(v, c)| == v.clusterSize
    requires off < v.clusterSize && |msg| > v.clusterSize - off && v.fat[c] < END_MARK
    ensures var r := WriteLoop(Fill(v, c, off, msg), v.fat[c], 0, Rest(v, off, msg));
            WriteLoop(v, c, off, msg) == (r.0, v.clusterSize - off + r.1)
  {}

  lemma TurnOn(v: Volume, ds: seq<Word>, off: nat, msg: seq<Byte>)
    requires Shape(v) && IsChain(v.fat, ds) && off < v.clusterSize && |msg| > v.clusterSize - off && |ds| > 1
    ensures var v1, rest := Fill(v, ds[0], off, msg), Rest(v, off, msg);
            && Shape(v1) && IsChain(v1.fat, ds[1..]) && v1.clusterSize == v.clusterSize
            && WriteLoop(v, ds[0], off, msg) ==
                 (WriteLoop(v1, ds[1], 0, rest).0, v.clusterSize - off + WriteLoop(v1, ds[1], 0, rest).1)
  {
    hide WriteLoop;
    TailIsChain(v.fat, ds);
    LoopOn(v, ds[0], off, msg);
    FillKeepsShape(v, ds[0], off, msg);
  }

  lemma FillKeepsShape(v: Volume, c: Word, off: nat, msg: seq<Byte>)
    requires Shape(v) && c < |v.fat| && off < v.clusterSize && |msg| >= v.clusterSize - off
    ensures var v1 := Fill(v, c, off, msg); Shape(v1) && v1.fat == v.fat && v1.clusterSize == v.clusterSize
  {}

  lemma ChainOn(v: Volume, ds: seq<Word>, off: nat, msg: seq<Byte>)
    requires Shape(v) && IsChain(v.fat, ds) && off < v.clusterSize && |msg| > v.clusterSize - off && |ds| > 1
    requires Shape(Fill(v, ds[0], off, msg)) && IsChain(Fill(v, ds[0], off, msg).fat, ds[1..])
    ensures ChainAfter(v, ds, off, msg) == [ds[0]] + ChainAfter(Fill(v, ds[0], off, msg), ds[1..], 0, Rest(v, off, msg))
  {
  }

  /** One turn of the loop when the message does not fit and the chain ends: no cluster is left,
      the next free one is at or above the guard, or it is used. */
  lemma LoopFresh(v: Volume, c: Word, off: nat, msg: seq<Byte>)
    requires c < |v.fat| <= END_MARK && |DataOf(v, c)| == v.clusterSize
    requires off < v.clusterSize && |msg| > v.clusterSize - off && v.fat[c] >= END_MARK
    ensures var v2 := Fill(v, c, off, msg).(fat := Extend(v.fat, c));
            var r := WriteLoop(v2, v2.fat[c], 0, Rest(v, off, msg));
            WriteLoop(v, c, off, msg) ==
              if v2.fat[c] >= WRITE_GUARD then (v2, v.clusterSize - off) else (r.0, v.clusterSize - off + r.1)
  {}

  lemma ChainFresh(v: Volume, c: Word, off: nat, msg: seq<Byte>)
    requires Shape(v) && IsChain(v.fat, [c]) && off < v.clusterSize && |msg| > v.clusterSize - off
    requires FirstFree(v.fat, 0) < |v.fat| && FirstFree(v.fat, 0) < WRITE_GUARD
    requires Shape(FillExtend(v, c, off, msg)) && IsChain(FillExtend(v, c, off, msg).fat, [FirstFree(v.fat, 0)])
    ensures ChainAfter(v, [c], off, msg) ==
            [c] + ChainAfter(FillExtend(v, c, off, msg), [FirstFree(v.fat, 0)], 0, Rest(v, off, msg))
  {}

  lemma TurnStops(v: Volume, c: Word, off: nat, msg: seq<Byte>)
    requires Shape(v) && IsChain(v.fat, [c]) && off < v.clusterSize && |msg| > v.clusterSize - off
    requires FirstFree(v.fat, 0) == |v.fat| || FirstFree(v.fat, 0) >= WRITE_GUARD
    ensures WriteLoop(v, c, off, msg) == (FillExtend(v, c, off, msg), v.clusterSize - off)
    ensures ChainAfter(v, [c], off, msg) == if FirstFree(v.fat, 0) == |v.fat| then [c] else [c] + [FirstFree(v.fat, 0)]
  {
    LoopFresh(v, c, off, msg);
  }

  lemma TurnGoes(v: Volume, c: Word, off: nat, msg: seq<Byte>)
    requires Shape(v) && IsChain(v.fat, [c]) && off < v.clusterSize && |msg| > v.clusterSize - off
    requires FirstFree(v.fat, 0) < |v.fat| && FirstFree(v.fat, 0) < WRITE_GUARD
    ensures var i, v2, rest := FirstFree(v.fat, 0), FillExtend(v, c, off, msg), Rest(v, off, msg);
            && Shape(v2) && IsChain(v2.fat, [i]) && v2.clusterSize == v.clusterSize
            && WriteLoop(v, c, off, msg) ==
                 (WriteLoop(v2, i, 0, rest).0, v.clusterSize - off + WriteLoop(v2, i, 0, rest).1)
            && ChainAfter(v, [c], off, msg) == [c] + ChainAfter(v2, [i], 0, rest)
  {
    LoopFresh(v, c, off, msg);
    FillExtendShape(v, c, off, msg);
    ChainFresh(v, c, off, msg);
  }

  lemma {:induction false} WriteGrowsFresh(v: Volume, c: Word, off: nat, msg: seq<Byte>)
    requires Shape(v) && IsChain(v.fat, [c]) && off < v.clusterSize && |msg| > v.clusterSize - off
    ensures Grown(v, [c], WriteLoop(v, c, off, msg).0, ChainAfter(v, [c], off, msg))
    decreases |msg|, 0
  {
    var i, rest := FirstFree(v.fat, 0), Rest(v, off, msg);
    var v2 := FillExtend(v, c, off, msg);
    if i == |v.fat| {
      TurnStops(v, c, off, msg);
      NothingFree(v, c, off, msg);
    } else if i < WRITE_GUARD {
      TurnGoes(v, c, off, msg);
      WriteGrows(v2, [i], 0, rest);
      GrowIntoFresh(v, v2, c, i, WriteLoop(v2, i, 0, rest).0, ChainAfter(v2, [i], 0, rest));
    } else {
      TurnStops(v, c, off, msg);
      FreeUnused(v, c, off, msg);
    }
  }

  /** The loop stops on a cluster at or above the guard, which stays linked and empty. */
  lemma FreeUnused(v: Volume, c: Word, off: nat, msg: seq<Byte>)
    requires Shape(v) && IsChain(v.fat, [c]) && off < v.clusterSize && |msg| > v.clusterSize - off
    requires WRITE_GUARD <= FirstFree(v.fat, 0) < |v.fat|
    ensures Grown(v, [c], FillExtend(v, c, off, msg), [c] + [FirstFree(v.fat, 0)])
  {
    var i, v2 := FirstFree(v.fat, 0), FillExtend(v, c, off, msg);
    FillExtendShape(v, c, off, msg);
    assert Grown(v2, [i], v2, [i]) by { assert [i][..1] == [i]; }
    GrowIntoFresh(v, v2, c, i, v2, [i]);
  }

  lemma NothingFree(v: Volume, c: Word, off: nat, msg: seq<Byte>)
    requires Shape(v) && IsChain(v.fat, [c]) && off < v.clusterSize && |msg| > v.clusterSize - off
    requires FirstFree(v.fat, 0) == |v.fat|
    ensures Grown(v, [c], FillExtend(v, c, off, msg), [c])
  {
    ExtendCounts(v.fat, c);
    assert [c][..1] == [c];
  }

  /** Bytes after n bytes of msg were written at offset off: those, and otherwise the old ones. */
  ghost predicate BytesWritten(old_: seq<Byte>, off: nat, msg: seq<Byte>, n: nat, new_: seq<Byte>) {
    && n <= |msg| && off <= |old_| <= |new_| && off + n <= |new_|
    && (forall p :: 0 <= p < off + n ==> new_[p] == if p < off then old_[p] else msg[p - off])
    && (forall p :: off + n <= p < |old_| ==> new_[p] == old_[p])
  }

  /** What was written to the first cluster and what was written to the rest, together. */
  lemma BytesJoin(h: seq<Byte>, t: seq<Byte>, off: nat, msg: seq<Byte>, n: nat, h': seq<Byte>, t': seq<Byte>)
    requires off <= |h| == |h'| && |h| - off <= |msg|
    requires h' == h[..off] + msg[..|h| - off]
    requires BytesWritten(t, 0, msg[|h| - off..], n, t')
    ensures BytesWritten(h + t, off, msg, |h| - off + n, h' + t')
  {
  }

  lemma {:induction false} WriteBytes(v: Volume, ds: seq<Word>, off: nat, msg: seq<Byte>)
    requires Shape(v) && IsChain(v.fat, ds) && off < v.clusterSize
    ensures var r := WriteLoop(v, ds[0], off, msg);
            BytesWritten(Flat(v, ds), off, msg, r.1, Flat(r.0, ChainAfter(v, ds, off, msg)))
    decreases |msg|, 1
  {
    if |msg| <= v.clusterSize - off {
      WriteBytesHere(v, ds, off, msg);
    } else if |ds| > 1 {
      TurnOn(v, ds, off, msg);
      ChainOn(v, ds, off, msg);
      var v1, rest := Fill(v, ds[0], off, msg), Rest(v, off, msg);
      WriteBytes(v1, ds[1..], 0, rest);
      FirstStaysFilled(v, ds, off, msg);
      BytesOn(v, v1, ds, off, msg, WriteLoop(v1, ds[1], 0, rest), ChainAfter(v1, ds[1..], 0, rest));
    } else {
      assert ds == [ds[0]];
      WriteBytesFresh(v, ds[0], off, msg);
    }
  }

  lemma FirstStaysFilled(v: Volume, ds: seq<Word>, off: nat, msg: seq<Byte>)
    requires Shape(v) && IsChain(v.fat, ds) && off < v.clusterSize && |msg| > v.clusterSize - off && |ds| > 1
    ensures DataOf(WriteLoop(v, ds[0], off, msg).0, ds[0]) == DataOf(Fill(v, ds[0], off, msg), ds[0])
  {
    var v1, rest := Fill(v, ds[0], off, msg), Rest(v, off, msg);
    TurnOn(v, ds, off, msg);
    ChainOn(v, ds, off, msg);
    WriteGrows(v1, ds[1..], 0, rest);
    GrowOnThroughChain(v, v1, ds, WriteLoop(v1, ds[1], 0, rest).0, ChainAfter(v1, ds[1..], 0, rest));
  }

  lemma WriteBytesHere(v: Volume, ds: seq<Word>, off: nat, msg: seq<Byte>)
    requires Shape(v) && IsChain(v.fat, ds) && off < v.clusterSize && |msg| <= v.clusterSize - off
    ensures var r := WriteLoop(v, ds[0], off, msg); BytesWritten(Flat(v, ds), off, msg, r.1, Flat(r.0, ds))
  {
    var v' := WriteLoop(v, ds[0], off, msg).0;
    forall i | 0 <= i < |ds[1..]| ensures DataOf(v', ds[1..][i]) == DataOf(v, ds[1..][i]) {
      assert ds[1..][i] == ds[i + 1];
    }
    FlatSame(v, v', ds[1..]);
    if msg != [] {
      assert msg[..|msg|] == msg;
      assert DataOf(v', ds[0]) == Splice(DataOf(v, ds[0]), off, msg);
    }
  }

  /** The bytes of a chain whose first cluster was filled and whose rest was written on. */
  lemma BytesOn(v: Volume, v1: Volume, ds: seq<Word>, off: nat, msg: seq<Byte>, r: (Volume, nat), t': seq<Word>)
    requires ds != [] && off < v.clusterSize == |DataOf(v, ds[0])| && v.clusterSize - off <= |msg| && ds[0] < |v.data|
    requires DataOf(r.0, ds[0]) == DataOf(Fill(v, ds[0], off, msg), ds[0])
    requires forall i :: 1 <= i < |ds| ==> DataOf(v1, ds[i]) == DataOf(v, ds[i])
    requires BytesWritten(Flat(v1, ds[1..]), 0, Rest(v, off, msg), r.1, Flat(r.0, t'))
    ensures BytesWritten(Flat(v, ds), off, msg, v.clusterSize - off + r.1, Flat(r.0, [ds[0]] + t'))
  {
    var ds' := [ds[0]] + t';
    forall i | 0 <= i < |ds[1..]| ensures DataOf(v1, ds[1..][i]) == DataOf(v, ds[1..][i]) {
      assert ds[1..][i] == ds[i + 1];
    }
    FlatSame(v, v1, ds[1..]);
    assert ds'[1..] == t';
    BytesJoin(DataOf(v, ds[0]), Flat(v, ds[1..]), off, msg, r.1, DataOf(r.0, ds[0]), Flat(r.0, t'));
  }

  lemma {:induction false} WriteBytesFresh(v: Volume, c: Word, off: nat, msg: seq<Byte>)
    requires Shape(v) && IsChain(v.fat, [c]) && off < v.clusterSize && |msg| > v.clusterSize - off
    ensures var r := WriteLoop(v, c, off, msg);
            BytesWritten(Flat(v, [c]), off, msg, r.1, Flat(r.0, ChainAfter(v, [c], off, msg)))
    decreases |msg|, 0
  {
    var i, rest := FirstFree(v.fat, 0), Rest(v, off, msg);
    var v2 := FillExtend(v, c, off, msg);
    assert [c][1..] == [] && Flat(v2, []) == [];
    if i == |v.fat| {
      TurnStops(v, c, off, msg);
      BytesOn(v, v2, [c], off, msg, (v2, 0), []);
      assert [c] + [] == [c];
    } else if i < WRITE_GUARD {
      TurnGoes(v, c, off, msg);
      var r, t' := WriteLoop(v2, i, 0, rest), ChainAfter(v2, [i], 0, rest);
      WriteBytes(v2, [i], 0, rest);
      FreshStaysFilled(v, c, off, msg);
      assert BytesWritten([], 0, rest, r.1, Flat(r.0, t'));
      BytesOn(v, v2, [c], off, msg, r, t');
    } else {
      TurnStops(v, c, off, msg);
      assert BytesWritten([], 0, rest, 0, Flat(v2, [i]));
      BytesOn(v, v2, [c], off, msg, (v2, 0), [i]);
    }
  }

  lemma FreshStaysFilled(v: Volume, c: Word, off: nat, msg: seq<Byte>)
    requires Shape(v) && IsChain(v.fat, [c]) && off < v.clusterSize && |msg| > v.clusterSize - off
    requires FirstFree(v.fat, 0) < WRITE_GUARD && FirstFree(v.fat, 0) < |v.fat|
    ensures DataOf(WriteLoop(v, c, off, msg).0, c) == DataOf(FillExtend(v, c, off, msg), c)
  {
    var i, rest := FirstFree(v.fat, 0), Rest(v, off, msg);
    var v2 := FillExtend(v, c, off, msg);
    TurnGoes(v, c, off, msg);
    WriteGrows(v2, [i], 0, rest);
    GrowIntoFresh(v, v2, c, i, WriteLoop(v2, i, 0, rest).0, ChainAfter(v2, [i], 0, rest));
  }

  /** The number of bytes a write puts down: the message, or all that the chain from here on and
      the free clusters below the guard can take. */
  lemma {:induction false} WriteCount(v: Volume, ds: seq<Word>, off: nat, msg: seq<Byte>)
    requires Shape(v) && IsChain(v.fat, ds) && off < v.clusterSize
    ensures WriteLoop(v, ds[0], off, msg).1 ==
            Min(|msg|, |Flat(v, ds)| - off + Room(FreeBelow(v.fat, WRITE_GUARD), v.clusterSize))
    decreases |msg|, 1
  {
    CountHere(v, ds, off, msg);
    if |msg| <= v.clusterSize - off {
    } else if |ds| > 1 {
      WriteCountOn(v, ds, off, msg);
    } else {
      assert ds == [ds[0]];
      WriteCountFresh(v, ds[0], off, msg);
    }
  }

  lemma {:induction false} WriteCountOn(v: Volume, ds: seq<Word>, off: nat, msg: seq<Byte>)
    requires Shape(v) && IsChain(v.fat, ds) && off < v.clusterSize && |msg| > v.clusterSize - off && |ds| > 1
    ensures WriteLoop(v, ds[0], off, msg).1 ==
            Min(|msg|, v.clusterSize - off + |Flat(v, ds[1..])| + Room(FreeBelow(v.fat, WRITE_GUARD), v.clusterSize))
    decreases |msg|, 0
  {
    TurnOn(v, ds, off, msg);
    RestUntouched(v, ds, off, msg);
    WriteCount(Fill(v, ds[0], off, msg), ds[1..], 0, Rest(v, off, msg));
  }

  lemma CountHere(v: Volume, ds: seq<Word>, off: nat, msg: seq<Byte>)
    requires Shape(v) && IsChain(v.fat, ds) && off < v.clusterSize
    ensures |msg| <= v.clusterSize - off ==> WriteLoop(v, ds[0], off, msg).1 == |msg|
    ensures |Flat(v, ds)| == v.clusterSize + |Flat(v, ds[1..])| && (|ds| == 1 ==> |Flat(v, ds[1..])| == 0)
  {}

  lemma RestUntouched(v: Volume, ds: seq<Word>, off: nat, msg: seq<Byte>)
    requires Shape(v) && IsChain(v.fat, ds) && off < v.clusterSize && |msg| > v.clusterSize - off
    ensures Flat(Fill(v, ds[0], off, msg), ds[1..]) == Flat(v, ds[1..])
  {
    var v1 := Fill(v, ds[0], off, msg);
    forall i | 0 <= i < |ds[1..]| ensures DataOf(v1, ds[1..][i]) == DataOf(v, ds[1..][i]) {
      assert ds[1..][i] == ds[i + 1];
    }
    FlatSame(v, v1, ds[1..]);
  }

  lemma {:induction false} WriteCountFresh(v: Volume, c: Word, off: nat, msg: seq<Byte>)
    requires Shape(v) && IsChain(v.fat, [c]) && off < v.clusterSize && |msg| > v.clusterSize - off
    ensures WriteLoop(v, c, off, msg).1 ==
              Min(|msg|, v.clusterSize - off + Room(FreeBelow(v.fat, WRITE_GUARD), v.clusterSize))
    decreases |msg|, 0
  {
    RoomBelowGuard(v.fat, c, v.clusterSize);
    if FirstFree(v.fat, 0) < |v.fat| && FirstFree(v.fat, 0) < WRITE_GUARD {
      var i, v2 := FirstFree(v.fat, 0), FillExtend(v, c, off, msg);
      TurnGoes(v, c, off, msg);
      WriteCount(v2, [i], 0, Rest(v, off, msg));
      assert |Flat(v2, [i])| == v.clusterSize by { FlatOne(v2, [i]); }
    } else {
      TurnStops(v, c, off, msg);
    }
  }

  /** Linking the first free cluster takes one cluster's worth of the room below the guard. */
  lemma RoomBelowGuard(fat: seq<Word>, c: Word, clusterSize: nat)
    requires c < |fat| <= END_MARK && fat[c] >= END_MARK && |fat| >= 2 && fat[0] != FREE
    ensures Room(FreeBelow(fat, WRITE_GUARD), clusterSize) ==
            if FirstFree(fat, 0) < |fat| && FirstFree(fat, 0) < WRITE_GUARD
            then clusterSize + Room(FreeBelow(Extend(fat, c), WRITE_GUARD), clusterSize) else 0
  {
    ExtendCounts(fat, c);
    if FirstFree(fat, 0) == |fat| || FirstFree(fat, 0) >= WRITE_GUARD { FreeBelowZero(fat, WRITE_GUARD); }
  }

  lemma {:induction false} GuardCountsAll(fat: seq<Word>, b: nat)
    requires b >= |fat|
    ensures FreeBelow(fat, b) == FreeCount(fat)
    decreases b
  {
    if b > |fat| { GuardCountsAll(fat, b - 1); }
  }

  // ----- how many clusters a write links -----

  /** How many clusters hold n bytes. */
  function Need(n: nat, clusterSize: nat): nat
    requires clusterSize > 0
  {
    if n == 0 then 0 else Before(n - 1, clusterSize) + 1
  }

  /** How many clusters a write of `length` bytes links to a chain that has room for `own` of them:
      what the others need; or, when the free clusters below the guard do not suffice, all of
      those and, if one is free above it, that one, which stays empty. */
  function Links(own: int, below: nat, all: nat, length: nat, clusterSize: nat): nat
    requires clusterSize > 0
  {
    if length <= own then 0
    else if length <= own + Room(below, clusterSize) && length - own >= 0 then Need(length - own, clusterSize)
    else if below < all then below + 1
    else below
  }

  lemma LinksStep(own: int, below: nat, all: nat, length: nat, clusterSize: nat)
    requires clusterSize > 0 && 0 <= own < length
    ensures below > 0 && all > 0 ==>
              Links(own, below, all, length, clusterSize) ==
                1 + Links(clusterSize, below - 1, all - 1, length - own, clusterSize)
    ensures below == 0 ==> Links(own, below, all, length, clusterSize) == if all > 0 then 1 else 0
  {}

  /** No more clusters are linked than are free, and only one of them above the guard. */
  lemma LinksBound(own: int, below: nat, all: nat, length: nat, clusterSize: nat)
    requires clusterSize > 0 && below <= all && own >= 0
    ensures Links(own, below, all, length, clusterSize) <= below + if below < all then 1 else 0
    ensures Links(own, below, all, length, clusterSize) <= all
  {
    if own < length <= own + Room(below, clusterSize) { BeforeBound(length - own - 1, clusterSize, below); }
  }

  ghost function LinksOf(v: Volume, ds: seq<Word>, off: nat, msg: seq<Byte>): nat
    requires v.clusterSize > 0
  {
    Links(|Flat(v, ds)| - off, FreeBelow(v.fat, WRITE_GUARD), FreeCount(v.fat), |msg|, v.clusterSize)
  }

  ghost predicate Within(cs: seq<Word>, b: nat) { forall i :: 0 <= i < |cs| ==> cs[i] < b }

  /** The chain has grown by n clusters, the first n that were free. */
  ghost predicate Taken(fat: seq<Word>, ds: seq<Word>, fat': seq<Word>, ds': seq<Word>, n: nat, b: nat) {
    && |ds'| == |ds| + n
    && FreeBelow(fat', b) == FreeBelow(fat, b) - Min(n, FreeBelow(fat, b))
    && (Within(ds', b) <==> Within(ds, b) && n <= FreeBelow(fat, b))
  }

  lemma WithinCons(c: Word, t: seq<Word>, b: nat)
    ensures Within([c] + t, b) <==> c < b && Within(t, b)
  {
    if Within([c] + t, b) {
      assert ([c] + t)[0] == c;
      forall i | 0 <= i < |t| ensures t[i] < b { assert ([c] + t)[i + 1] == t[i]; }
    }
  }

  /** The write loop links exactly as many clusters as it needs, always the first that is free; so
      they are all below b exactly if so many are free there. */
  lemma {:induction false} WriteLinks(v: Volume, ds: seq<Word>, off: nat, msg: seq<Byte>, b: nat)
    requires Shape(v) && IsChain(v.fat, ds) && off < v.clusterSize
    ensures Taken(v.fat, ds, WriteLoop(v, ds[0], off, msg).0.fat, ChainAfter(v, ds, off, msg),
                  LinksOf(v, ds, off, msg), b)
    decreases |msg|, 1
  {
    CountHere(v, ds, off, msg);
    if |msg| <= v.clusterSize - off {
      LinksNothing(v, ds, off, msg);
    } else if |ds| > 1 {
      WriteLinksOn(v, ds, off, msg, b);
    } else {
      assert ds == [ds[0]];
      WriteLinksFresh(v, ds[0], off, msg, b);
    }
  }

  lemma LinksNothing(v: Volume, ds: seq<Word>, off: nat, msg: seq<Byte>)
    requires Shape(v) && IsChain(v.fat, ds) && off < v.clusterSize && |msg| <= v.clusterSize - off
    ensures WriteLoop(v, ds[0], off, msg).0.fat == v.fat && ChainAfter(v, ds, off, msg) == ds
            && LinksOf(v, ds, off, msg) == 0
  {
    CountHere(v, ds, off, msg);
  }

  lemma {:induction false} WriteLinksOn(v: Volume, ds: seq<Word>, off: nat, msg: seq<Byte>, b: nat)
    requires Shape(v) && IsChain(v.fat, ds) && off < v.clusterSize && |msg| > v.clusterSize - off && |ds| > 1
    ensures Taken(v.fat, ds, WriteLoop(v, ds[0], off, msg).0.fat, ChainAfter(v, ds, off, msg),
                  LinksOf(v, ds, off, msg), b)
    decreases |msg|, 0
  {
    var v1, rest := Fill(v, ds[0], off, msg), Rest(v, off, msg);
    TurnOn(v, ds, off, msg);
    ChainOn(v, ds, off, msg);
    LinksOn(v, ds, off, msg);
    WriteLinks(v1, ds[1..], 0, rest, b);
    TakenOn(v.fat, ds, WriteLoop(v1, ds[1], 0, rest).0.fat, ChainAfter(v1, ds[1..], 0, rest),
            LinksOf(v, ds, off, msg), b);
  }

  lemma LinksOn(v: Volume, ds: seq<Word>, off: nat, msg: seq<Byte>)
    requires Shape(v) && IsChain(v.fat, ds) && off < v.clusterSize && |msg| > v.clusterSize - off && |ds| > 1
    ensures LinksOf(v, ds, off, msg) == LinksOf(Fill(v, ds[0], off, msg), ds[1..], 0, Rest(v, off, msg))
  {
    hide Flat, Room, FreeBelow, Need;
    RestUntouched(v, ds, off, msg);
    CountHere(v, ds, off, msg);
  }

  lemma TakenOn(fat: seq<Word>, ds: seq<Word>, fat': seq<Word>, t': seq<Word>, n: nat, b: nat)
    requires |ds| > 1 && Taken(fat, ds[1..], fat', t', n, b)
    ensures Taken(fat, ds, fat', [ds[0]] + t', n, b)
  {
    assert ds == [ds[0]] + ds[1..];
    WithinCons(ds[0], ds[1..], b);
    WithinCons(ds[0], t', b);
  }

  lemma TakenFresh(fat: seq<Word>, c: Word, i: Word, fat2: seq<Word>, fat': seq<Word>, t': seq<Word>, n: nat, b: nat)
    requires Taken(fat2, [i], fat', t', n, b) && c < |fat| && fat[c] != FREE && i == FirstFree(fat, 0) < |fat|
    requires FreeBelow(fat2, b) == FreeBelow(fat, b) - if i < b then 1 else 0
    ensures Taken(fat, [c], fat', [c] + t', n + 1, b)
  {
    FreeAtFirst(fat, b);
    WithinCons(c, t', b);
    WithinCons(c, [], b);
    WithinCons(i, [], b);
    assert [c] + [] == [c] && [i] + [] == [i];
  }

  lemma LinksFresh(v: Volume, c: Word, off: nat, msg: seq<Byte>)
    requires Shape(v) && IsChain(v.fat, [c]) && off < v.clusterSize && |msg| > v.clusterSize - off
    requires FirstFree(v.fat, 0) < |v.fat| && FirstFree(v.fat, 0) < WRITE_GUARD
    requires var v2 := FillExtend(v, c, off, msg); Shape(v2) && IsChain(v2.fat, [FirstFree(v.fat, 0)])
    ensures LinksOf(v, [c], off, msg) ==
              1 + LinksOf(FillExtend(v, c, off, msg), [FirstFree(v.fat, 0)], 0, Rest(v, off, msg))
  {
    var i, v2 := FirstFree(v.fat, 0), FillExtend(v, c, off, msg);
    CountHere(v, [c], off, msg);
    CountHere(v2, [i], 0, Rest(v, off, msg));
    FreeAtFirst(v.fat, WRITE_GUARD);
    FreeAtFirst(v.fat, |v.fat|);
    ExtendCounts(v.fat, c);
    hide FreeBelow, Flat, Links;
    LinksStep(v.clusterSize - off, FreeBelow(v.fat, WRITE_GUARD), FreeCount(v.fat), |msg|, v.clusterSize);
  }

  lemma LinksStops(v: Volume, c: Word, off: nat, msg: seq<Byte>)
    requires Shape(v) && IsChain(v.fat, [c]) && off < v.clusterSize && |msg| > v.clusterSize - off
    requires FirstFree(v.fat, 0) == |v.fat| || FirstFree(v.fat, 0) >= WRITE_GUARD
    ensures LinksOf(v, [c], off, msg) == if FirstFree(v.fat, 0) < |v.fat| then 1 else 0
  {
    CountHere(v, [c], off, msg);
    FreeAtFirst(v.fat, WRITE_GUARD);
    FreeAtFirst(v.fat, |v.fat|);
    hide FreeBelow, Flat, Links;
    LinksStep(v.clusterSize - off, FreeBelow(v.fat, WRITE_GUARD), FreeCount(v.fat), |msg|, v.clusterSize);
  }

  lemma {:induction false} WriteLinksFresh(v: Volume, c: Word, off: nat, msg: seq<Byte>, b: nat)
    requires Shape(v) && IsChain(v.fat, [c]) && off < v.clusterSize && |msg| > v.clusterSize - off
    ensures Taken(v.fat, [c], WriteLoop(v, c, off, msg).0.fat, ChainAfter(v, [c], off, msg),
                  LinksOf(v, [c], off, msg), b)
    decreases |msg|, 0
  {
    var i, v2 := FirstFree(v.fat, 0), FillExtend(v, c, off, msg);
    hide WriteLoop, ChainAfter, LinksOf, FirstFree, FreeBelow, Taken;
    ExtendCounts(v.fat, c);
    if i < |v.fat| && i < WRITE_GUARD {
      var rest := Rest(v, off, msg);
      TurnGoes(v, c, off, msg);
      LinksFresh(v, c, off, msg);
      WriteLinks(v2, [i], 0, rest, b);
      TakenFresh(v.fat, c, i, v2.fat, WriteLoop(v2, i, 0, rest).0.fat, ChainAfter(v2, [i], 0, rest),
                 LinksOf(v2, [i], 0, rest), b);
    } else {
      TurnStops(v, c, off, msg);
      LinksStops(v, c, off, msg);
      if i < |v.fat| {
        TakenLast(v2.fat, i, b);
        TakenFresh(v.fat, c, i, v2.fat, v2.fat, [i], 0, b);
      } else {
        TakenLast(v.fat, c, b);
      }
    }
  }

  lemma TakenLast(fat: seq<Word>, c: Word, b: nat)
    ensures Taken(fat, [c], fat, [c], 0, b)
  {}

  /** There is a free cluster below b exactly if the first free one is below b. */
  lemma FreeAtFirst(fat: seq<Word>, b: nat)
    ensures FreeBelow(fat, b) > 0 <==> FirstFree(fat, 0) < b && FirstFree(fat, 0) < |fat|
  {
    if FirstFree(fat, 0) < b && FirstFree(fat, 0) < |fat| {
      FreeBelowPositive(fat, FirstFree(fat, 0), b);
    } else {
      FreeBelowZero(fat, b);
    }
  }
}
