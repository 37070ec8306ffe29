/** Files over the volume: create, read, write and seek act on a table of files, and a file's
    contents are the bytes of its chain cut to its size. The theorems say that this is the same
    as keeping every file as a byte sequence of its own. */
module FatFiles {
  import opened Fat

  datatype File = File(first: Word, size: nat, ptr: nat)

  datatype FileTable = FileTable(vol: Volume, files: seq<File>)

  // ----- the chain of a file -----

  ghost predicate ChainFrom(fat: seq<Word>, c: Word, cs: seq<Word>) { IsChain(fat, cs) && cs[0] == c }

  /** The chain that starts at c, if one does. */
  ghost function ChainOf(fat: seq<Word>, c: Word): seq<Word> {
    if exists cs :: ChainFrom(fat, c, cs) then var cs :| ChainFrom(fat, c, cs); cs else []
  }

  ghost predicate HasChain(fat: seq<Word>, c: Word) { ChainFrom(fat, c, ChainOf(fat, c)) }

  /** A first cluster determines its chain. */
  lemma {:induction false} ChainsAgree(fat: seq<Word>, a: seq<Word>, b: seq<Word>)
    requires IsChain(fat, a) && IsChain(fat, b) && a[0] == b[0]
    ensures a == b
  {
    if |a| > 1 { TailIsChain(fat, a); }
    if |b| > 1 { TailIsChain(fat, b); }
    if |a| > 1 && |b| > 1 {
      ChainsAgree(fat, a[1..], b[1..]);
      assert a == [a[0]] + a[1..] && b == [b[0]] + b[1..];
    }
  }

  lemma ThisChain(fat: seq<Word>, cs: seq<Word>)
    requires IsChain(fat, cs)
    ensures HasChain(fat, cs[0]) && ChainOf(fat, cs[0]) == cs
  {
    assert ChainFrom(fat, cs[0], cs);
    ChainsAgree(fat, ChainOf(fat, cs[0]), cs);
  }

  /** A chain whose entries did not change is still that chain. */
  lemma ChainStays(fat: seq<Word>, fat': seq<Word>, c: Word)
    requires HasChain(fat, c) && |fat'| == |fat|
    requires forall k :: k in ChainOf(fat, c) ==> fat'[k] == fat[k]
    ensures HasChain(fat', c) && ChainOf(fat', c) == ChainOf(fat, c)
  {
    var cs := ChainOf(fat, c);
    forall i | 0 <= i < |cs| - 1 ensures Linked(fat', cs, i) { assert Linked(fat, cs, i) && cs[i] in cs; }
    ThisChain(fat', cs);
  }

  lemma SuffixIsChain(fat: seq<Word>, cs: seq<Word>, k: nat)
    requires IsChain(fat, cs) && k < |cs|
    ensures IsChain(fat, cs[k..])
  {
    var ds := cs[k..];
    forall i | 0 <= i < |ds| ensures 2 <= ds[i] < |fat| { assert ds[i] == cs[k + i]; }
    forall i | 0 <= i < |ds| - 1 ensures Linked(fat, ds, i) {
      assert ds[i] == cs[k + i] && ds[i + 1] == cs[k + i + 1] && Linked(fat, cs, k + i);
    }
  }

  lemma ChainEntriesTaken(fat: seq<Word>, cs: seq<Word>)
    requires IsChain(fat, cs)
    ensures forall c :: c in cs ==> 2 <= c < |fat| && fat[c] != FREE
  {
    forall i | 0 <= i < |cs| ensures fat[cs[i]] != FREE {
      if i < |cs| - 1 { assert Linked(fat, cs, i); }
    }
  }

  // ----- a well-formed table of files -----

  ghost function Chain(t: FileTable, i: nat): seq<Word>
    requires i < |t.files|
  {
    ChainOf(t.vol.fat, t.files[i].first)
  }

  ghost predicate FileOk(t: FileTable, i: nat)
    requires i < |t.files|
  {
    && HasChain(t.vol.fat, t.files[i].first)
    && t.files[i].ptr <= t.files[i].size <= |Flat(t.vol, Chain(t, i))|
  }

  ghost predicate Apart(a: seq<Word>, b: seq<Word>) { forall c :: c in a ==> c !in b }

  ghost predicate TableOk(t: FileTable) {
    && Shape(t.vol)
    && (forall i :: 0 <= i < |t.files| ==> FileOk(t, i))
    && (forall i, j :: 0 <= i < |t.files| && 0 <= j < |t.files| && i != j ==> Apart(Chain(t, i), Chain(t, j)))
  }

  function Cut(bytes: seq<Byte>, size: nat): seq<Byte> { if size <= |bytes| then bytes[..size] else bytes }

  /** What is in a file: the bytes of its clusters, up to its size. */
  ghost function Contents(t: FileTable, i: nat): seq<Byte>
    requires i < |t.files|
  {
    Cut(Flat(t.vol, Chain(t, i)), t.files[i].size)
  }

  // ----- operations -----

  /** A read, once the pointer is known to be at offset off of the cluster k links down. */
  function ReadAt(t: FileTable, i: nat, k: nat, off: nat, length: nat): (seq<Byte>, FileTable)
    requires i < |t.files| && off < t.vol.clusterSize
  {
    var f := t.files[i];
    var left := if f.ptr <= f.size then f.size - f.ptr else 0;
    var got := ReadLoop(t.vol, Hop(t.vol.fat, f.first, k), off, length, left);
    (got, t.(files := t.files[i := f.(ptr := f.ptr + |got|)]))
  }

  function Read(t: FileTable, i: nat, length: nat): (seq<Byte>, FileTable)
    requires i < |t.files| && t.vol.clusterSize > 0
  {
    ReadAt(t, i, Before(t.files[i].ptr, t.vol.clusterSize), Offset(t.files[i].ptr, t.vol.clusterSize), length)
  }

  function WriteAt(t: FileTable, i: nat, k: nat, off: nat, msg: seq<Byte>): (nat, FileTable)
    requires i < |t.files| && off < t.vol.clusterSize
  {
    var f := t.files[i];
    var r := WriteLoop(t.vol, Hop(t.vol.fat, f.first, k), off, msg);
    var p := f.ptr + r.1;
    (r.1, FileTable(r.0, t.files[i := f.(ptr := p, size := if p > f.size then p else f.size)]))
  }

  function Write(t: FileTable, i: nat, msg: seq<Byte>): (nat, FileTable)
    requires i < |t.files| && t.vol.clusterSize > 0
  {
    WriteAt(t, i, Before(t.files[i].ptr, t.vol.clusterSize), Offset(t.files[i].ptr, t.vol.clusterSize), msg)
  }

  /** A new, empty file on the first free cluster. With no cluster free, the directory slot keeps
      whatever first cluster it held before. */
  function Create(t: FileTable, stale: Word): FileTable
    requires |t.vol.fat| <= END_MARK
  {
    var i := FirstFree(t.vol.fat, 0);
    if i < |t.vol.fat| then FileTable(t.vol.(fat := t.vol.fat[i := LAST]), t.files + [File(i, 0, 0)])
    else t.(files := t.files + [File(stale, 0, 0)])
  }

  datatype Whence = Beginning | Current | End

  /** VMFileSeek's new pointer. The pointer is unsigned, so a position below zero wraps around and
      is then cut to the size like any other position behind the end. */
  function Target(size: nat, ptr: nat, offset: int, whence: Whence): (p: nat)
    ensures p <= size
  {
    var p := match whence
      case Current => (ptr + offset) % 0x1_0000_0000
      case End => size
      case Beginning => offset % 0x1_0000_0000;
    if p > size then size else p
  }

  function Origin(ptr: nat, whence: Whence): nat { if whence == Current then ptr else 0 }

  /** A seek stops at both ends of the file, as its two bounds checks suggest, exactly when the position
      it aims at fits the unsigned pointer (or the file is empty). A position below zero wraps to the
      end or near it, one of 2^32 or more to the front. */
  lemma SeekClampsIff(size: nat, ptr: nat, offset: int, whence: Whence)
    requires size < 0x1_0000_0000 && ptr <= size && -0x8000_0000 <= offset < 0x8000_0000 && whence != End
    ensures var p := Origin(ptr, whence) + offset;
            Target(size, ptr, offset, whence) == (if p < 0 then 0 else if p > size then size else p)
            <==> 0 <= p < 0x1_0000_0000 || size == 0
    ensures var p := Origin(ptr, whence) + offset;
            && (p < 0 ==> Target(size, ptr, offset, whence) == Min(size, p + 0x1_0000_0000))
            && (p >= 0x1_0000_0000 ==> Target(size, ptr, offset, whence) == p - 0x1_0000_0000 < ptr)
  {
    var p := Origin(ptr, whence) + offset;
    if p < 0 {
      assert p % 0x1_0000_0000 == p + 0x1_0000_0000;
    } else if p >= 0x1_0000_0000 {
      assert p % 0x1_0000_0000 == p - 0x1_0000_0000;
    }
  }

  /** Where each kind of seek goes, in a file of so many bytes: to its end, or to the position aimed at,
      as an unsigned number and not behind the end. */
  lemma SeekAnswers(t: FileTable, i: nat, offset: int, whence: Whence)
    requires TableOk(t) && i < |t.files| && -0x8000_0000 <= offset < 0x8000_0000
    ensures var n, f, t' := |Contents(t, i)|, t.files[i], Seek(t, i, offset, whence);
            var p := if whence == Beginning then offset else f.ptr + offset;
            && t' == t.(files := t.files[i := File(f.first, n, t'.files[i].ptr)])
            && (whence == End ==> t'.files[i].ptr == n)
            && (whence != End && 0 <= p < 0x1_0000_0000 ==> t'.files[i].ptr == if p <= n then p else n)
            && (whence != End && p < 0 ==> t'.files[i].ptr == if p + 0x1_0000_0000 <= n then p + 0x1_0000_0000 else n)
            && (whence != End && 0x1_0000_0000 <= p < 0x2_0000_0000 ==>
                  t'.files[i].ptr == if p - 0x1_0000_0000 <= n then p - 0x1_0000_0000 else n)
  {
    var f := t.files[i];
    assert FileOk(t, i) && |Contents(t, i)| == f.size;
    var p := if whence == Beginning then offset else f.ptr + offset;
    if p < 0 {
      assert p % 0x1_0000_0000 == p + 0x1_0000_0000;
    } else if 0x1_0000_0000 <= p < 0x2_0000_0000 {
      assert p % 0x1_0000_0000 == p - 0x1_0000_0000;
    }
  }

  function Seek(t: FileTable, i: nat, offset: int, whence: Whence): FileTable
    requires i < |t.files|
  {
    t.(files := t.files[i := t.files[i].(ptr := Target(t.files[i].size, t.files[i].ptr, offset, whence))])
  }

  /** What opening an existing file does to it. */
  function Open(t: FileTable, i: nat, truncate: bool, append: bool): FileTable
    requires i < |t.files|
  {
    var f := t.files[i];
    var size := if truncate then 0 else f.size;
    t.(files := t.files[i := f.(size := size, ptr := if append then size else 0)])
  }

  // ----- reading -----

  lemma FlatSplit(v: Volume, cs: seq<Word>, k: nat)
    requires Shape(v) && k <= |cs| && forall i :: 0 <= i < |cs| ==> cs[i] < |v.data|
    ensures Flat(v, cs) == Flat(v, cs[..k]) + Flat(v, cs[k..]) && |Flat(v, cs[..k])| == Room(k, v.clusterSize)
  {
    assert cs[..k] + cs[k..] == cs;
    FlatConcat(v, cs[..k], cs[k..]);
    FlatLength(v, cs[..k]);
  }

  /** The pointer of file i is at offset off of the k-th cluster of its chain. */
  ghost predicate At(t: FileTable, i: nat, k: nat, off: nat)
    requires i < |t.files|
  {
    var cs := Chain(t, i);
    && FileOk(t, i) && off < t.vol.clusterSize && k <= |cs|
    && (k < |cs| <==> t.files[i].ptr < |Flat(t.vol, cs)|)
    && Hop(t.vol.fat, t.files[i].first, k) == (if k < |cs| then cs[k] else t.vol.fat[cs[|cs| - 1]])
    && |Flat(t.vol, cs[..k])| + off == t.files[i].ptr
  }

  lemma Position(t: FileTable, i: nat)
    requires TableOk(t) && i < |t.files|
    ensures At(t, i, Before(t.files[i].ptr, t.vol.clusterSize), Offset(t.files[i].ptr, t.vol.clusterSize))
  {
    assert FileOk(t, i);
    PositionInChain(t.vol, Chain(t, i), t.files[i].ptr);
    HopWalksChain(t.vol.fat, Chain(t, i), Before(t.files[i].ptr, t.vol.clusterSize));
  }

  lemma PositionInChain(v: Volume, cs: seq<Word>, p: nat)
    requires Shape(v) && IsChain(v.fat, cs) && p <= |Flat(v, cs)|
    ensures var k := Before(p, v.clusterSize);
            && k <= |cs| && (k < |cs| <==> p < |Flat(v, cs)|)
            && |Flat(v, cs[..k])| + Offset(p, v.clusterSize) == p
  {
    FlatLength(v, cs);
    BeforeBound(p, v.clusterSize, |cs|);
    BeforeBound(p, v.clusterSize, |cs| + 1);
    BeforeAndOffset(p, v.clusterSize);
    FlatSplit(v, cs, Before(p, v.clusterSize));
  }

  /** The read loop from the middle of a chain. */
  lemma ReadFrom(v: Volume, cs: seq<Word>, k: nat, off: nat, want: nat, left: nat)
    requires Shape(v) && IsChain(v.fat, cs) && k < |cs| && off < v.clusterSize
    requires |Flat(v, cs[..k])| + off + left <= |Flat(v, cs)|
    ensures var p := |Flat(v, cs[..k])| + off;
            ReadLoop(v, cs[k], off, want, left) == Flat(v, cs)[p..p + Min(want, left)]
  {
    hide Flat, ReadLoop;
    SuffixIsChain(v.fat, cs, k);
    FlatSplit(v, cs, k);
    ReadTail(v, cs[k..], off, want, left);
    assert cs[k..][0] == cs[k];
    SliceOfSuffix(Flat(v, cs[..k]), Flat(v, cs[k..]), off, Min(want, left));
  }

  lemma SliceOfSuffix<T>(a: seq<T>, b: seq<T>, off: nat, n: nat)
    requires off + n <= |b|
    ensures b[off..off + n] == (a + b)[|a| + off..|a| + off + n]
  {}

  lemma ReadAtIsSlice(t: FileTable, i: nat, k: nat, off: nat, length: nat)
    requires Shape(t.vol) && i < |t.files| && At(t, i, k, off)
    ensures var p, size := t.files[i].ptr, t.files[i].size;
            && |Contents(t, i)| == size
            && ReadAt(t, i, k, off, length).0 == Contents(t, i)[p..Min(p + length, size)]
            && ReadAt(t, i, k, off, length).1 == t.(files := t.files[i := t.files[i].(ptr := Min(p + length, size))])
  {
    if k < |Chain(t, i)| {
      ReadsFromChain(t, i, k, off, length);
    }
  }

  lemma ReadsFromChain(t: FileTable, i: nat, k: nat, off: nat, length: nat)
    requires Shape(t.vol) && i < |t.files| && At(t, i, k, off) && k < |Chain(t, i)|
    ensures var f := t.files[i];
            && |Contents(t, i)| == f.size
            && ReadLoop(t.vol, Hop(t.vol.fat, f.first, k), off, length, f.size - f.ptr) ==
               Contents(t, i)[f.ptr..Min(f.ptr + length, f.size)]
  {
    hide Flat, ReadLoop, IsChain, Hop;
    var cs, p, size := Chain(t, i), t.files[i].ptr, t.files[i].size;
    ReadFrom(t.vol, cs, k, off, length, size - p);
    SliceOfCut(Flat(t.vol, cs), p, p + Min(length, size - p), size);
  }

  lemma SliceOfCut<T>(a: seq<T>, p: nat, q: nat, size: nat)
    requires p <= q <= size <= |a|
    ensures a[..size][p..q] == a[p..q]
  {}

  /** A read returns exactly the file's bytes from the pointer on, as many as asked for or as
      there are, moves the pointer behind them, and changes nothing else. */
  lemma ReadIsSlice(t: FileTable, i: nat, length: nat)
    requires TableOk(t) && i < |t.files|
    ensures var p, size := t.files[i].ptr, t.files[i].size;
            && FileOk(t, i) && |Contents(t, i)| == size
            && Read(t, i, length).0 == Contents(t, i)[p..Min(p + length, size)]
            && Read(t, i, length).1 == t.(files := t.files[i := t.files[i].(ptr := Min(p + length, size))])
  {
    Position(t, i);
    ReadAtIsSlice(t, i, Before(t.files[i].ptr, t.vol.clusterSize), Offset(t.files[i].ptr, t.vol.clusterSize), length);
  }

  // ----- writing -----

  ghost predicate Disjoint(a: seq<Word>, b: seq<Word>) {
    forall i, j :: 0 <= i < |a| && 0 <= j < |b| ==> a[i] != b[j]
  }

  /** A chain continued by ds' after its first k clusters. */
  lemma JoinChains(fat: seq<Word>, cs: seq<Word>, k: nat, fat': seq<Word>, ds': seq<Word>)
    requires IsChain(fat, cs) && k < |cs| && IsChain(fat', ds') && ds'[0] == cs[k] && |fat'| == |fat|
    requires Disjoint(cs[..k], ds') && forall i :: 0 <= i < k ==> fat'[cs[i]] == fat[cs[i]]
    ensures IsChain(fat', cs[..k] + ds')
  {
    var all := cs[..k] + ds';
    forall i | 0 <= i < |all| - 1 ensures all[i] < |fat'| && Linked(fat', all, i) {
      if i < k { assert Linked(fat, cs, i); } else { assert Linked(fat', ds', i - k); }
    }
    forall i, j | 0 <= i < j < |all| ensures all[i] != all[j] {
      if i < k <= j { assert cs[..k][i] != ds'[j - k]; }
    }
  }

  /** New clusters were free, so none of them is one the chain already had. */
  lemma PrefixApart(fat: seq<Word>, cs: seq<Word>, k: nat, ds': seq<Word>)
    requires IsChain(fat, cs) && k < |cs| && |cs| - k <= |ds'| && ds'[..|cs| - k] == cs[k..]
    requires forall j :: |cs| - k <= j < |ds'| ==> ds'[j] < |fat| && fat[ds'[j]] == FREE
    ensures Disjoint(cs[..k], ds')
  {
    ChainEntriesTaken(fat, cs);
    forall i, j | 0 <= i < k && 0 <= j < |ds'| ensures cs[..k][i] != ds'[j] {
      assert cs[..k][i] == cs[i];
      if j < |cs| - k { assert ds'[j] == ds'[..|cs| - k][j] == cs[k + j]; } else { assert cs[i] in cs; }
    }
  }

  lemma GrownBehindPrefix(v: Volume, cs: seq<Word>, k: nat, v': Volume, ds': seq<Word>)
    requires Shape(v) && IsChain(v.fat, cs) && k < |cs| && Grown(v, cs[k..], v', ds')
    ensures Grown(v, cs, v', cs[..k] + ds')
    ensures Disjoint(cs[..k], ds')
  {
    var ds, all := cs[k..], cs[..k] + ds';
    PrefixApart(v.fat, cs, k, ds');
    forall i | 0 <= i < k ensures v'.fat[cs[i]] == v.fat[cs[i]] { assert cs[..k][i] == cs[i] && cs[i] !in ds'; }
    assert ds'[0] == ds'[..|ds|][0] == cs[k];
    JoinChains(v.fat, cs, k, v'.fat, ds');
    assert all[..|cs|] == cs[..k] + ds'[..|ds|] == cs;
  }

  /** The chain after the loop ran from offset off of the k-th cluster: the clusters before that
      one, then what the loop leaves. */
  ghost function ChainAfterAt(v: Volume, cs: seq<Word>, k: nat, off: nat, msg: seq<Byte>): seq<Word>
    requires Shape(v) && IsChain(v.fat, cs) && k < |cs| && off < v.clusterSize
  {
    SuffixIsChain(v.fat, cs, k);
    cs[..k] + ChainAfter(v, cs[k..], off, msg)
  }

  lemma WriteFromGrows(v: Volume, cs: seq<Word>, k: nat, off: nat, msg: seq<Byte>)
    requires Shape(v) && IsChain(v.fat, cs) && k < |cs| && off < v.clusterSize
    ensures Grown(v, cs, WriteLoop(v, cs[k], off, msg).0, ChainAfterAt(v, cs, k, off, msg))
  {
    SuffixIsChain(v.fat, cs, k);
    assert cs[k..][0] == cs[k];
    WriteGrows(v, cs[k..], off, msg);
    GrownBehindPrefix(v, cs, k, WriteLoop(v, cs[k], off, msg).0, ChainAfter(v, cs[k..], off, msg));
  }

  lemma BytesBehindPrefix(a: seq<Byte>, b: seq<Byte>, off: nat, msg: seq<Byte>, n: nat, b': seq<Byte>)
    requires BytesWritten(b, off, msg, n, b')
    ensures BytesWritten(a + b, |a| + off, msg, n, a + b')
  {}

  lemma PrefixBytesStay(v: Volume, cs: seq<Word>, k: nat, v': Volume, ds': seq<Word>)
    requires Shape(v) && IsChain(v.fat, cs) && k < |cs| && Grown(v, cs[k..], v', ds')
    ensures Flat(v', cs[..k]) == Flat(v, cs[..k])
  {
    GrownBehindPrefix(v, cs, k, v', ds');
    forall j | 0 <= j < k ensures DataOf(v', cs[..k][j]) == DataOf(v, cs[..k][j]) {
      assert cs[..k][j] == cs[j] && cs[j] !in ds';
    }
    FlatSame(v, v', cs[..k]);
  }

  lemma WriteFromBytes(v: Volume, cs: seq<Word>, k: nat, off: nat, msg: seq<Byte>)
    requires Shape(v) && IsChain(v.fat, cs) && k < |cs| && off < v.clusterSize
    ensures var r := WriteLoop(v, cs[k], off, msg);
            BytesWritten(Flat(v, cs), |Flat(v, cs[..k])| + off, msg, r.1, Flat(r.0, ChainAfterAt(v, cs, k, off, msg)))
  {
    hide Flat, WriteLoop, ChainAfter, BytesWritten, Grown;
    SuffixIsChain(v.fat, cs, k);
    assert cs[k..][0] == cs[k];
    WriteBytes(v, cs[k..], off, msg);
    WriteGrows(v, cs[k..], off, msg);
    BytesFromSuffix(v, cs, k, off, msg, WriteLoop(v, cs[k], off, msg), ChainAfter(v, cs[k..], off, msg));
  }

  /** What was written to the chain from its k-th cluster on, seen from the chain's start. */
  lemma BytesFromSuffix(v: Volume, cs: seq<Word>, k: nat, off: nat, msg: seq<Byte>, r: (Volume, nat), ds': seq<Word>)
    requires Shape(v) && IsChain(v.fat, cs) && k < |cs| && Grown(v, cs[k..], r.0, ds')
    requires BytesWritten(Flat(v, cs[k..]), off, msg, r.1, Flat(r.0, ds'))
    ensures BytesWritten(Flat(v, cs), |Flat(v, cs[..k])| + off, msg, r.1, Flat(r.0, cs[..k] + ds'))
  {
    hide Flat, Grown, BytesWritten;
    PrefixBytesStay(v, cs, k, r.0, ds');
    FlatSplit(v, cs, k);
    FlatConcat(r.0, cs[..k], ds');
    BytesBehindPrefix(Flat(v, cs[..k]), Flat(v, cs[k..]), off, msg, r.1, Flat(r.0, ds'));
  }

  lemma WriteFromCount(v: Volume, cs: seq<Word>, k: nat, off: nat, msg: seq<Byte>)
    requires Shape(v) && IsChain(v.fat, cs) && k < |cs| && off < v.clusterSize
    ensures WriteLoop(v, cs[k], off, msg).1 ==
            Min(|msg|, |Flat(v, cs)| - (|Flat(v, cs[..k])| + off) + Room(FreeBelow(v.fat, WRITE_GUARD), v.clusterSize))
  {
    SuffixIsChain(v.fat, cs, k);
    assert cs[k..][0] == cs[k];
    WriteCount(v, cs[k..], off, msg);
    FlatSplit(v, cs, k);
  }

  lemma WithinConcat(a: seq<Word>, c: seq<Word>, b: nat)
    ensures Within(a + c, b) <==> Within(a, b) && Within(c, b)
  {
    if Within(a + c, b) {
      forall i | 0 <= i < |a| ensures a[i] < b { assert (a + c)[i] == a[i]; }
      forall i | 0 <= i < |c| ensures c[i] < b { assert (a + c)[|a| + i] == c[i]; }
    }
  }

  lemma WriteFromLinks(v: Volume, cs: seq<Word>, k: nat, off: nat, msg: seq<Byte>, b: nat)
    requires Shape(v) && IsChain(v.fat, cs) && k < |cs| && off < v.clusterSize
    ensures Taken(v.fat, cs, WriteLoop(v, cs[k], off, msg).0.fat, ChainAfterAt(v, cs, k, off, msg),
                  Links(|Flat(v, cs)| - (|Flat(v, cs[..k])| + off), FreeBelow(v.fat, WRITE_GUARD), FreeCount(v.fat),
                    |msg|, v.clusterSize), b)
  {
    hide Flat, WriteLoop, ChainAfter, Links, FreeBelow, Within;
    SuffixIsChain(v.fat, cs, k);
    assert cs[k..][0] == cs[k];
    WriteLinks(v, cs[k..], off, msg, b);
    FlatSplit(v, cs, k);
    assert cs == cs[..k] + cs[k..];
    WithinConcat(cs[..k], cs[k..], b);
    WithinConcat(cs[..k], ChainAfter(v, cs[k..], off, msg), b);
  }

  function Overwrite(a: seq<Byte>, p: nat, b: seq<Byte>): seq<Byte>
    requires p <= |a|
  {
    a[..p] + b + (if p + |b| < |a| then a[p + |b|..] else [])
  }

  lemma WrittenIsOverwrite(flat: seq<Byte>, p: nat, msg: seq<Byte>, n: nat, flat': seq<Byte>, size: nat)
    requires BytesWritten(flat, p, msg, n, flat') && p <= size <= |flat|
    ensures Cut(flat', if p + n > size then p + n else size) == Overwrite(Cut(flat, size), p, msg[..n])
  {
    var size' := if p + n > size then p + n else size;
    var a, b := Cut(flat', size'), Overwrite(Cut(flat, size), p, msg[..n]);
    assert |a| == |b| == size';
    forall q | 0 <= q < size' ensures a[q] == b[q] {}
  }

  lemma WriteAtChain(t: FileTable, i: nat, k: nat, off: nat, msg: seq<Byte>)
    requires Shape(t.vol) && i < |t.files| && At(t, i, k, off) && k < |Chain(t, i)|
    ensures var t' := WriteAt(t, i, k, off, msg).1;
            && Chain(t', i) == ChainAfterAt(t.vol, Chain(t, i), k, off, msg)
            && HasChain(t'.vol.fat, t'.files[i].first)
  {
    var cs := Chain(t, i);
    var cs' := ChainAfterAt(t.vol, cs, k, off, msg);
    WriteFromGrows(t.vol, cs, k, off, msg);
    assert cs'[0] == cs'[..|cs|][0] == t.files[i].first;
    ThisChain(WriteLoop(t.vol, cs[k], off, msg).0.fat, cs');
  }

  lemma WriteAtBytes(t: FileTable, i: nat, k: nat, off: nat, msg: seq<Byte>)
    requires Shape(t.vol) && i < |t.files| && At(t, i, k, off) && k < |Chain(t, i)|
    ensures var r, p := WriteAt(t, i, k, off, msg), t.files[i].ptr;
            && BytesWritten(Flat(t.vol, Chain(t, i)), p, msg, r.0, Flat(r.1.vol, Chain(r.1, i)))
  {
    hide Flat, BytesWritten, WriteLoop, ChainAfterAt, IsChain;
    WriteAtChain(t, i, k, off, msg);
    WriteFromBytes(t.vol, Chain(t, i), k, off, msg);
  }

  /** What WriteAt does to the file it writes. */
  lemma WriteAtOwn(t: FileTable, i: nat, k: nat, off: nat, msg: seq<Byte>)
    requires Shape(t.vol) && i < |t.files| && At(t, i, k, off) && k < |Chain(t, i)|
    ensures var r, p := WriteAt(t, i, k, off, msg), t.files[i].ptr;
            && FileOk(r.1, i) && r.0 <= |msg| && p <= |Contents(t, i)|
            && Contents(r.1, i) == Overwrite(Contents(t, i), p, msg[..r.0])
  {
    hide Flat, WriteLoop, ChainAfterAt, IsChain, Overwrite;
    var r := WriteAt(t, i, k, off, msg);
    WriteAtChain(t, i, k, off, msg);
    WriteAtBytes(t, i, k, off, msg);
    WrittenIsOverwrite(Flat(t.vol, Chain(t, i)), t.files[i].ptr, msg, r.0, Flat(r.1.vol, Chain(r.1, i)),
                       t.files[i].size);
  }

  lemma GrownApart(v: Volume, cs: seq<Word>, v': Volume, cs': seq<Word>, ds: seq<Word>)
    requires IsChain(v.fat, cs) && Grown(v, cs, v', cs') && IsChain(v.fat, ds) && Apart(cs, ds)
    ensures Apart(cs', ds) && Apart(ds, cs')
  {
    ChainEntriesTaken(v.fat, ds);
    forall j | 0 <= j < |cs'| ensures cs'[j] !in ds {
      if j < |cs| { assert cs'[j] == cs'[..|cs|][j] && cs[j] in cs; }
    }
  }

  /** What a chain keeps when another one grows. */
  lemma OtherChain(v: Volume, cs: seq<Word>, v': Volume, cs': seq<Word>, c: Word)
    requires Shape(v) && IsChain(v.fat, cs) && Grown(v, cs, v', cs') && HasChain(v.fat, c)
             && Apart(cs, ChainOf(v.fat, c))
    ensures HasChain(v'.fat, c) && ChainOf(v'.fat, c) == ChainOf(v.fat, c)
    ensures Flat(v', ChainOf(v.fat, c)) == Flat(v, ChainOf(v.fat, c)) && Apart(cs', ChainOf(v.fat, c))
  {
    var ds := ChainOf(v.fat, c);
    GrownApart(v, cs, v', cs', ds);
    forall k | k in ds ensures v'.fat[k] == v.fat[k] && DataOf(v', k) == DataOf(v, k) {}
    ChainStays(v.fat, v'.fat, c);
    FlatSame(v, v', ds);
  }

  lemma WriteAtOther(t: FileTable, i: nat, k: nat, off: nat, msg: seq<Byte>, j: nat)
    requires TableOk(t) && i < |t.files| && At(t, i, k, off) && k < |Chain(t, i)| && j < |t.files| && j != i
    ensures var t' := WriteAt(t, i, k, off, msg).1;
            && FileOk(t', j) && Chain(t', j) == Chain(t, j) && Contents(t', j) == Contents(t, j)
            && Apart(Chain(t', i), Chain(t', j))
  {
    assert FileOk(t, j) && Apart(Chain(t, i), Chain(t, j));
    WriteFromGrows(t.vol, Chain(t, i), k, off, msg);
    WriteAtChain(t, i, k, off, msg);
    OtherChain(t.vol, Chain(t, i), WriteAt(t, i, k, off, msg).1.vol, Chain(WriteAt(t, i, k, off, msg).1, i),
               t.files[j].first);
  }

  /** A write keeps the table of files well formed. */
  lemma WriteAtKeeps(t: FileTable, i: nat, k: nat, off: nat, msg: seq<Byte>)
    requires TableOk(t) && i < |t.files| && At(t, i, k, off) && k < |Chain(t, i)|
    ensures TableOk(WriteAt(t, i, k, off, msg).1)
  {
    hide Flat, WriteLoop, ChainAfter, IsChain;
    var t' := WriteAt(t, i, k, off, msg).1;
    WriteFromGrows(t.vol, Chain(t, i), k, off, msg);
    WriteAtOwn(t, i, k, off, msg);
    forall j | 0 <= j < |t.files| && j != i
      ensures FileOk(t', j) && Chain(t', j) == Chain(t, j) && Apart(Chain(t', i), Chain(t', j))
    {
      WriteAtOther(t, i, k, off, msg, j);
    }
    forall a, b | 0 <= a < |t.files| && 0 <= b < |t.files| && a != b ensures Apart(Chain(t', a), Chain(t', b)) {
      if a != i && b != i {
        assert Chain(t', a) == Chain(t, a) && Chain(t', b) == Chain(t, b) && Apart(Chain(t, a), Chain(t, b));
      }
    }
  }

  // ----- how long a file can get -----

  lemma {:induction false} DistinctBelow(cs: seq<Word>, n: nat)
    requires forall i :: 0 <= i < |cs| ==> cs[i] < n
    requires forall i, j :: 0 <= i < j < |cs| ==> cs[i] != cs[j]
    ensures |cs| <= n
    decreases n
  {
    assert |cs| > 0 ==> cs[0] < n;
    if n > 0 && exists i :: 0 <= i < |cs| && cs[i] == n - 1 {
      var i :| 0 <= i < |cs| && cs[i] == n - 1;
      var rest := cs[..i] + cs[i + 1..];
      forall a | 0 <= a < |rest| ensures rest[a] == cs[if a < i then a else a + 1] && rest[a] < n - 1 {}
      DistinctBelow(rest, n - 1);
    } else if n > 0 {
      DistinctBelow(cs, n - 1);
    }
  }

  /** A chain is no longer than the table, so a file's size fits the four bytes it is kept in. */
  lemma ChainBytesFit(v: Volume, cs: seq<Word>)
    requires Shape(v) && IsChain(v.fat, cs) && v.clusterSize < 0x1_0000
    ensures |Flat(v, cs)| < 0x1_0000_0000
  {
    DistinctBelow(cs, |v.fat|);
    FlatLength(v, cs);
    RoomIsProduct(|cs|, v.clusterSize);
    ProductFits(|cs|, v.clusterSize);
  }

  lemma ProductFits(a: nat, b: nat)
    requires a < 0x1_0000 && b < 0x1_0000
    ensures a * b < 0x1_0000_0000
  {
    MulMono(a, 0x1_0000, b);
  }

  lemma WriteNothing(t: FileTable, i: nat)
    requires TableOk(t) && i < |t.files|
    ensures Write(t, i, []) == (0, t)
  {
    assert FileOk(t, i);
    assert t.files[i := t.files[i]] == t.files;
  }
}
