/** Runs of file operations, on tables of any size. Each file is kept, on the abstract side, as a
    byte sequence, a pointer and a number of clusters; the volume is only two counts of free
    clusters, below the guard of the write loop and above it. The two sides give the same answers
    over every run, and free plus chained clusters never change. */
module FatRuns {
  import opened Fat
  import opened FatFiles

  // ----- the abstract side -----

  datatype Plain = Plain(bytes: seq<Byte>, ptr: nat, clusters: nat)

  /** `below` counts the free clusters below the guard, `above` the others. */
  datatype Quota = Quota(files: seq<Plain>, below: nat, above: nat, clusterSize: nat)

  datatype Op =
    | Creating(stale: Word)
    | Reading(file: nat, length: nat)
    | Writing(file: nat, msg: seq<Byte>)
    | Seeking(file: nat, offset: int, whence: Whence)
    | Opening(file: nat, truncate: bool, append: bool)

  datatype Answer = Done | Got(bytes: seq<Byte>) | Count(n: nat) | Failure

  function Max(a: nat, b: nat): nat { if a > b then a else b }

  /** What the pointer leaves of the file's own clusters. */
  function Own(q: Quota, i: nat): int
    requires i < |q.files|
  {
    Room(q.files[i].clusters, q.clusterSize) - q.files[i].ptr
  }

  /** How many bytes of a message a write takes: what fits in the file's own clusters and in the
      free ones below the guard. */
  function Taking(q: Quota, i: nat, length: nat): nat
    requires i < |q.files|
  {
    var most := Own(q, i) + Room(q.below, q.clusterSize);
    if length == 0 || most < 0 then 0 else Min(length, most)
  }

  /** How many clusters it adds to the file. */
  function Adding(q: Quota, i: nat, length: nat): nat
    requires i < |q.files| && q.clusterSize > 0
  {
    if length == 0 then 0 else Links(Own(q, i), q.below, q.below + q.above, length, q.clusterSize)
  }

  /** n free clusters taken, those below the guard first. */
  function Spend(q: Quota, n: nat): Quota {
    if n <= q.below then q.(below := q.below - n)
    else q.(below := 0, above := if n - q.below <= q.above then q.above - (n - q.below) else 0)
  }

  /** A caller's side of the bargain. A create needs a free cluster, and a write must not start
      where the last cluster is full to the end. */
  predicate Allowed(q: Quota, op: Op) {
    match op
    case Creating(_) => q.below + q.above > 0
    case Writing(i, msg) => i < |q.files| && msg != [] ==> Own(q, i) > 0
    case _ => true
  }

  ghost predicate QuotaOk(q: Quota) {
    && q.clusterSize > 0
    && forall i :: 0 <= i < |q.files| ==> q.files[i].ptr <= |q.files[i].bytes|
  }

  function PlainWrite(q: Quota, i: nat, msg: seq<Byte>): Quota
    requires i < |q.files| && q.files[i].ptr <= |q.files[i].bytes| && q.clusterSize > 0
  {
    var f, n, more := q.files[i], Taking(q, i, |msg|), Adding(q, i, |msg|);
    Spend(q, more).(files := q.files[i := Plain(Overwrite(f.bytes, f.ptr, msg[..n]), f.ptr + n, f.clusters + more)])
  }

  function PlainDo(q: Quota, op: Op): (Answer, Quota)
    requires QuotaOk(q) && Allowed(q, op)
  {
    if !op.Creating? && op.file >= |q.files| then (Failure, q) else
    match op
    case Creating(_) => (Done, Spend(q, 1).(files := q.files + [Plain([], 0, 1)]))
    case Reading(i, length) =>
      var f := q.files[i];
      var end := Min(f.ptr + length, |f.bytes|);
      (Got(f.bytes[f.ptr..end]), q.(files := q.files[i := f.(ptr := end)]))
    case Writing(i, msg) => (Count(Taking(q, i, |msg|)), PlainWrite(q, i, msg))
    case Seeking(i, offset, whence) =>
      var f := q.files[i];
      var p := match whence
        case End => |f.bytes|
        case Beginning => Min(offset % 0x1_0000_0000, |f.bytes|)
        case Current => Min((f.ptr + offset) % 0x1_0000_0000, |f.bytes|);
      (Count(p), q.(files := q.files[i := f.(ptr := p)]))
    case Opening(i, truncate, append) =>
      var f := q.files[i];
      var bytes := if truncate then [] else f.bytes;
      (Done, q.(files := q.files[i := f.(bytes := bytes, ptr := if append then |bytes| else 0)]))
  }

  // ----- the volume's side -----

  function Do(t: FileTable, op: Op): (Answer, FileTable)
    requires t.vol.clusterSize > 0 && |t.vol.fat| <= END_MARK
  {
    if !op.Creating? && op.file >= |t.files| then (Failure, t) else
    match op
    case Creating(stale) => (Done, Create(t, stale))
    case Reading(i, length) => var r := Read(t, i, length); (Got(r.0), r.1)
    case Writing(i, msg) => var r := Write(t, i, msg); (Count(r.0), r.1)
    case Seeking(i, offset, whence) => var t' := Seek(t, i, offset, whence); (Count(t'.files[i].ptr), t')
    case Opening(i, truncate, append) => (Done, Open(t, i, truncate, append))
  }

  /** The abstract side of a table of files. */
  ghost predicate Mirrors(q: Quota, t: FileTable) {
    && TableOk(t) && |q.files| == |t.files| && q.clusterSize == t.vol.clusterSize
    && q.below == FreeBelow(t.vol.fat, WRITE_GUARD) && q.below + q.above == FreeCount(t.vol.fat)
    && forall i :: 0 <= i < |t.files| ==> MirrorsFile(q, t, i)
  }

  ghost predicate MirrorsFile(q: Quota, t: FileTable, i: nat)
    requires i < |q.files| == |t.files|
  {
    q.files[i] == Plain(Contents(t, i), t.files[i].ptr, |Chain(t, i)|)
  }

  // ----- creating -----

  /** A new file's cluster is not part of any chain. */
  lemma CreateOther(t: FileTable, stale: Word, j: nat)
    requires TableOk(t) && j < |t.files| && FirstFree(t.vol.fat, 0) < |t.vol.fat|
    ensures var t' := Create(t, stale);
            && FileOk(t', j) && Chain(t', j) == Chain(t, j) && Contents(t', j) == Contents(t, j)
            && FirstFree(t.vol.fat, 0) !in Chain(t, j)
  {
    var t' := Create(t, stale);
    assert FileOk(t, j);
    ChainEntriesTaken(t.vol.fat, Chain(t, j));
    ChainStays(t.vol.fat, t'.vol.fat, t.files[j].first);
    FlatSame(t.vol, t'.vol, Chain(t, j));
  }

  lemma CreateNew(t: FileTable, stale: Word)
    requires Shape(t.vol) && FirstFree(t.vol.fat, 0) < |t.vol.fat|
    ensures var t', n := Create(t, stale), |t.files|;
            Shape(t'.vol) && FileOk(t', n) && Chain(t', n) == [FirstFree(t.vol.fat, 0)] && Contents(t', n) == []
  {
    ThisChain(Create(t, stale).vol.fat, [FirstFree(t.vol.fat, 0)]);
  }

  lemma CreateKeeps(t: FileTable, stale: Word)
    requires TableOk(t) && FirstFree(t.vol.fat, 0) < |t.vol.fat|
    ensures TableOk(Create(t, stale))
  {
    var t', n := Create(t, stale), |t.files|;
    CreateNew(t, stale);
    forall j | 0 <= j < n
      ensures FileOk(t', j) && Chain(t', j) == Chain(t, j) && Apart(Chain(t', n), Chain(t', j))
              && Apart(Chain(t', j), Chain(t', n))
    {
      CreateOther(t, stale, j);
    }
    forall a, b | 0 <= a < |t'.files| && 0 <= b < |t'.files| && a != b ensures Apart(Chain(t', a), Chain(t', b)) {
      if a < n && b < n { assert Apart(Chain(t, a), Chain(t, b)); }
    }
  }

  lemma {:induction false} FreeBelowAfterTaking(fat: seq<Word>, i: nat, b: nat)
    requires i < |fat| && fat[i] == FREE
    ensures FreeBelow(fat[i := LAST], b) == FreeBelow(fat, b) - (if i < b then 1 else 0)
    decreases b
  {
    if b > 0 { FreeBelowAfterTaking(fat, i, b - 1); }
  }

  lemma NoneFree(fat: seq<Word>)
    ensures FirstFree(fat, 0) == |fat| <==> FreeCount(fat) == 0
  {
    if FirstFree(fat, 0) == |fat| {
      FreeBelowZero(fat, |fat|);
    } else {
      FreeBelowPositive(fat, FirstFree(fat, 0), |fat|);
    }
  }

  /** A new file in a directory slot that never held one: the table of files stays well formed
      exactly when a cluster is free. With none free the new file has no cluster at all. */
  lemma CreateNeedsFree(t: FileTable)
    requires TableOk(t)
    ensures TableOk(Create(t, FREE)) <==> FreeCount(t.vol.fat) > 0
  {
    NoneFree(t.vol.fat);
    if FirstFree(t.vol.fat, 0) < |t.vol.fat| {
      CreateKeeps(t, FREE);
    } else {
      assert !FileOk(Create(t, FREE), |t.files|);
    }
  }

  // ----- one operation on both sides -----

  lemma MirrorCreate(q: Quota, t: FileTable, stale: Word)
    requires Mirrors(q, t) && QuotaOk(q) && Allowed(q, Creating(stale))
    ensures Mirrors(PlainDo(q, Creating(stale)).1, Create(t, stale))
  {
    var t', q' := Create(t, stale), PlainDo(q, Creating(stale)).1;
    var i := FirstFree(t.vol.fat, 0);
    NoneFree(t.vol.fat);
    CreateKeeps(t, stale);
    CreateNew(t, stale);
    FreeAtFirst(t.vol.fat, WRITE_GUARD);
    FreeBelowAfterTaking(t.vol.fat, i, |t.vol.fat|);
    FreeBelowAfterTaking(t.vol.fat, i, WRITE_GUARD);
    forall j | 0 <= j < |t'.files| ensures MirrorsFile(q', t', j) {
      if j < |t.files| { CreateOther(t, stale, j); assert MirrorsFile(q, t, j); }
    }
  }

  /** Moving a pointer, or cutting a file and moving its pointer, changes nothing else. */
  lemma MovePointer(q: Quota, t: FileTable, i: nat, size: nat, p: nat)
    requires Mirrors(q, t) && i < |t.files| && p <= size <= t.files[i].size && size <= |q.files[i].bytes|
    ensures Mirrors(q.(files := q.files[i := q.files[i].(bytes := q.files[i].bytes[..size], ptr := p)]),
                    t.(files := t.files[i := t.files[i].(size := size, ptr := p)]))
  {
    var q' := q.(files := q.files[i := q.files[i].(bytes := q.files[i].bytes[..size], ptr := p)]);
    var t' := t.(files := t.files[i := t.files[i].(size := size, ptr := p)]);
    forall j | 0 <= j < |t.files| ensures FileOk(t', j) && MirrorsFile(q', t', j) && Chain(t', j) == Chain(t, j) {
      assert FileOk(t, j) && MirrorsFile(q, t, j);
    }
    forall a, b | 0 <= a < |t.files| && 0 <= b < |t.files| && a != b ensures Apart(Chain(t', a), Chain(t', b)) {
      assert Apart(Chain(t, a), Chain(t, b));
    }
  }

  lemma SizeOfBytes(q: Quota, t: FileTable, i: nat)
    requires Mirrors(q, t) && i < |t.files|
    ensures FileOk(t, i) && q.files[i] == Plain(Contents(t, i), t.files[i].ptr, |Chain(t, i)|)
    ensures |q.files[i].bytes| == t.files[i].size
    ensures Room(q.files[i].clusters, q.clusterSize) == |Flat(t.vol, Chain(t, i))|
  {
    assert FileOk(t, i) && MirrorsFile(q, t, i);
    FlatLength(t.vol, Chain(t, i));
  }

  /** The abstract side of a given table of files. */
  ghost function QuotaOf(t: FileTable): Quota {
    var below, all := FreeBelow(t.vol.fat, WRITE_GUARD), FreeCount(t.vol.fat);
    Quota(seq(|t.files|, i requires 0 <= i < |t.files| => Plain(Contents(t, i), t.files[i].ptr, |Chain(t, i)|)),
          below, if below <= all then all - below else 0, t.vol.clusterSize)
  }

  lemma MirrorsIsOk(q: Quota, t: FileTable)
    requires Mirrors(q, t)
    ensures QuotaOk(q)
  {
    forall i | 0 <= i < |q.files| ensures q.files[i].ptr <= |q.files[i].bytes| { SizeOfBytes(q, t, i); }
  }

  lemma MirrorRead(q: Quota, t: FileTable, i: nat, length: nat)
    requires Mirrors(q, t) && QuotaOk(q) && i < |t.files|
    ensures PlainDo(q, Reading(i, length)).0 == Got(Read(t, i, length).0)
    ensures Mirrors(PlainDo(q, Reading(i, length)).1, Read(t, i, length).1)
  {
    SizeOfBytes(q, t, i);
    ReadIsSlice(t, i, length);
    MovePointer(q, t, i, t.files[i].size, Min(t.files[i].ptr + length, t.files[i].size));
    assert q.files[i].bytes[..t.files[i].size] == q.files[i].bytes;
  }

  lemma MirrorSeek(q: Quota, t: FileTable, i: nat, offset: int, whence: Whence)
    requires Mirrors(q, t) && QuotaOk(q) && i < |t.files|
    ensures PlainDo(q, Seeking(i, offset, whence)).0 == Count(Seek(t, i, offset, whence).files[i].ptr)
    ensures Mirrors(PlainDo(q, Seeking(i, offset, whence)).1, Seek(t, i, offset, whence))
  {
    SizeOfBytes(q, t, i);
    MovePointer(q, t, i, t.files[i].size, Target(t.files[i].size, t.files[i].ptr, offset, whence));
    assert q.files[i].bytes[..t.files[i].size] == q.files[i].bytes;
  }

  lemma MirrorOpen(q: Quota, t: FileTable, i: nat, truncate: bool, append: bool)
    requires Mirrors(q, t) && QuotaOk(q) && i < |t.files|
    ensures Mirrors(PlainDo(q, Opening(i, truncate, append)).1, Open(t, i, truncate, append))
  {
    SizeOfBytes(q, t, i);
    var size := if truncate then 0 else t.files[i].size;
    MovePointer(q, t, i, size, if append then size else 0);
    assert q.files[i].bytes[..size] == if truncate then [] else q.files[i].bytes;
  }

  lemma WriteConserves(t: FileTable, i: nat, k: nat, off: nat, msg: seq<Byte>)
    requires TableOk(t) && i < |t.files| && At(t, i, k, off) && k < |Chain(t, i)|
    ensures var t' := WriteAt(t, i, k, off, msg).1;
            && Shape(t'.vol) && |t'.vol.fat| == |t.vol.fat| && t'.vol.clusterSize == t.vol.clusterSize
            && FreeCount(t'.vol.fat) + |Chain(t', i)| == FreeCount(t.vol.fat) + |Chain(t, i)|
  {
    WriteAtChain(t, i, k, off, msg);
    WriteFromGrows(t.vol, Chain(t, i), k, off, msg);
  }

  lemma WriteAtCount(t: FileTable, i: nat, k: nat, off: nat, msg: seq<Byte>)
    requires TableOk(t) && i < |t.files| && At(t, i, k, off) && k < |Chain(t, i)|
    ensures WriteAt(t, i, k, off, msg).0 ==
            Min(|msg|,
              |Flat(t.vol, Chain(t, i))| - t.files[i].ptr + Room(FreeBelow(t.vol.fat, WRITE_GUARD), t.vol.clusterSize))
  {
    WriteFromCount(t.vol, Chain(t, i), k, off, msg);
  }

  /** How many clusters a write adds to the file it writes. */
  ghost function NewClusters(t: FileTable, i: nat, length: nat): nat
    requires i < |t.files| && t.vol.clusterSize > 0
  {
    Links(|Flat(t.vol, Chain(t, i))| - t.files[i].ptr, FreeBelow(t.vol.fat, WRITE_GUARD), FreeCount(t.vol.fat), length,
      t.vol.clusterSize)
  }

  lemma WriteAtLinks(t: FileTable, i: nat, k: nat, off: nat, msg: seq<Byte>, b: nat)
    requires TableOk(t) && i < |t.files| && At(t, i, k, off) && k < |Chain(t, i)|
    ensures var t' := WriteAt(t, i, k, off, msg).1;
            Taken(t.vol.fat, Chain(t, i), t'.vol.fat, Chain(t', i), NewClusters(t, i, |msg|), b)
  {
    hide Flat, WriteLoop, Links, FreeBelow, Within;
    WriteAtChain(t, i, k, off, msg);
    WriteFromLinks(t.vol, Chain(t, i), k, off, msg, b);
  }

  lemma MirrorWriteNothing(q: Quota, t: FileTable, i: nat)
    requires Mirrors(q, t) && QuotaOk(q) && i < |t.files|
    ensures PlainDo(q, Writing(i, [])).0 == Count(Write(t, i, []).0)
    ensures Mirrors(PlainDo(q, Writing(i, [])).1, Write(t, i, []).1)
  {
    WriteNothing(t, i);
    var f := q.files[i];
    assert Overwrite(f.bytes, f.ptr, []) == f.bytes;
    assert q.files[i := f] == q.files;
  }

  /** A write that starts inside the chain does on both sides the same. */
  lemma MirrorWriteAt(q: Quota, t: FileTable, i: nat, k: nat, off: nat, msg: seq<Byte>)
    requires Mirrors(q, t) && QuotaOk(q) && i < |t.files| && At(t, i, k, off) && k < |Chain(t, i)|
    requires msg != [] && Allowed(q, Writing(i, msg))
    ensures PlainDo(q, Writing(i, msg)).0 == Count(WriteAt(t, i, k, off, msg).0)
    ensures Mirrors(PlainDo(q, Writing(i, msg)).1, WriteAt(t, i, k, off, msg).1)
  {
    hide Flat, WriteLoop, Links, FreeBelow, Room, ChainOf, Overwrite, IsChain;
    var t', q' := WriteAt(t, i, k, off, msg).1, PlainWrite(q, i, msg);
    SizeOfBytes(q, t, i);
    WriteAtCount(t, i, k, off, msg);
    WriteAtKeeps(t, i, k, off, msg);
    WriteConserves(t, i, k, off, msg);
    MirrorCounts(q, t, i, k, off, msg);
    forall j | 0 <= j < |t.files| ensures MirrorsFile(q', t', j) {
      if j != i {
        WriteAtOther(t, i, k, off, msg, j);
        assert MirrorsFile(q, t, j);
      } else {
        WriteAtOwn(t, i, k, off, msg);
        WriteAtLinks(t, i, k, off, msg, 0);
      }
    }
  }

  /** The two counts of free clusters after a write. */
  lemma MirrorCounts(q: Quota, t: FileTable, i: nat, k: nat, off: nat, msg: seq<Byte>)
    requires Mirrors(q, t) && QuotaOk(q) && i < |t.files| && At(t, i, k, off) && k < |Chain(t, i)| && msg != []
    ensures var q', fat' := PlainWrite(q, i, msg), WriteAt(t, i, k, off, msg).1.vol.fat;
            q'.below == FreeBelow(fat', WRITE_GUARD) && q'.below + q'.above == FreeCount(fat')
  {
    SizeOfBytes(q, t, i);
    WriteConserves(t, i, k, off, msg);
    WriteAtLinks(t, i, k, off, msg, WRITE_GUARD);
    WriteAtLinks(t, i, k, off, msg, |t.vol.fat|);
    LinksBound(Own(q, i), q.below, q.below + q.above, |msg|, q.clusterSize);
  }

  lemma MirrorWrite(q: Quota, t: FileTable, i: nat, msg: seq<Byte>)
    requires Mirrors(q, t) && QuotaOk(q) && i < |t.files| && Allowed(q, Writing(i, msg))
    ensures PlainDo(q, Writing(i, msg)).0 == Count(Write(t, i, msg).0)
    ensures Mirrors(PlainDo(q, Writing(i, msg)).1, Write(t, i, msg).1)
  {
    if msg == [] {
      MirrorWriteNothing(q, t, i);
    } else {
      Position(t, i);
      SizeOfBytes(q, t, i);
      MirrorWriteAt(q, t, i, Before(t.files[i].ptr, t.vol.clusterSize), Offset(t.files[i].ptr, t.vol.clusterSize), msg);
    }
  }

  /** One operation: both sides answer alike and stay in step. */
  lemma StepMirrors(q: Quota, t: FileTable, op: Op)
    requires Mirrors(q, t) && QuotaOk(q) && Allowed(q, op)
    ensures PlainDo(q, op).0 == Do(t, op).0 && Mirrors(PlainDo(q, op).1, Do(t, op).1)
    ensures QuotaOk(PlainDo(q, op).1) && |Do(t, op).1.vol.fat| == |t.vol.fat|
  {
    if op.Creating? {
      MirrorCreate(q, t, op.stale);
    } else if op.file < |t.files| {
      match op
      case Reading(i, length) => MirrorRead(q, t, i, length); ReadIsSlice(t, i, length);
      case Writing(i, msg) => MirrorWrite(q, t, i, msg); WriteKeepsTableSize(t, i, msg);
      case Seeking(i, offset, whence) => MirrorSeek(q, t, i, offset, whence);
      case Opening(i, truncate, append) => MirrorOpen(q, t, i, truncate, append);
    }
    MirrorsIsOk(PlainDo(q, op).1, Do(t, op).1);
  }

  lemma {:induction false} LoopKeepsSize(v: Volume, c: nat, off: nat, msg: seq<Byte>)
    requires off < v.clusterSize
    ensures |WriteLoop(v, c, off, msg).0.fat| == |v.fat|
    decreases |msg|
  {
    var room := v.clusterSize - off;
    if |msg| > room && c < |v.fat| <= END_MARK && |DataOf(v, c)| == v.clusterSize {
      var v1, rest := Fill(v, c, off, msg), Rest(v, off, msg);
      if v1.fat[c] >= END_MARK {
        var v2 := v1.(fat := Extend(v1.fat, c));
        LoopKeepsSize(v2, v2.fat[c], 0, rest);
      } else {
        LoopKeepsSize(v1, v1.fat[c], 0, rest);
      }
    }
  }

  lemma WriteKeepsTableSize(t: FileTable, i: nat, msg: seq<Byte>)
    requires i < |t.files| && t.vol.clusterSize > 0
    ensures |Write(t, i, msg).1.vol.fat| == |t.vol.fat|
  {
    var f, cz := t.files[i], t.vol.clusterSize;
    LoopKeepsSize(t.vol, Hop(t.vol.fat, f.first, Before(f.ptr, cz)), Offset(f.ptr, cz), msg);
  }

  // ----- runs -----

  /** The abstract states and answers of a run, while the caller keeps to the bargain. */
  ghost predicate PlainRun(q: Quota, ops: seq<Op>, answers: seq<Answer>, q': Quota)
    decreases |ops|
  {
    if ops == [] then answers == [] && q' == q
    else
      && QuotaOk(q) && Allowed(q, ops[0]) && answers != [] && answers[0] == PlainDo(q, ops[0]).0
      && PlainRun(PlainDo(q, ops[0]).1, ops[1..], answers[1..], q')
  }

  ghost predicate TableRun(t: FileTable, ops: seq<Op>, answers: seq<Answer>, t': FileTable)
    decreases |ops|
  {
    if ops == [] then answers == [] && t' == t
    else
      && t.vol.clusterSize > 0 && |t.vol.fat| <= END_MARK && answers != [] && answers[0] == Do(t, ops[0]).0
      && TableRun(Do(t, ops[0]).1, ops[1..], answers[1..], t')
  }

  /** Over any run the volume answers exactly as plain byte sequences with a quota do, and ends
      in a well-formed table that holds exactly their bytes. */
  lemma {:induction false} RunMirrors(q: Quota, t: FileTable, ops: seq<Op>, answers: seq<Answer>, q': Quota)
    requires Mirrors(q, t) && PlainRun(q, ops, answers, q')
    ensures exists t' :: TableRun(t, ops, answers, t') && Mirrors(q', t')
    decreases |ops|
  {
    if ops == [] {
      assert TableRun(t, ops, answers, t);
    } else {
      StepMirrors(q, t, ops[0]);
      var t1 := Do(t, ops[0]).1;
      RunMirrors(PlainDo(q, ops[0]).1, t1, ops[1..], answers[1..], q');
      var t' :| TableRun(t1, ops[1..], answers[1..], t') && Mirrors(q', t');
      assert TableRun(t, ops, answers, t');
    }
  }

  function Clusters(fs: seq<Plain>): nat { if fs == [] then 0 else fs[0].clusters + Clusters(fs[1..]) }

  lemma {:induction false} ClustersUpdate(fs: seq<Plain>, i: nat, f: Plain)
    requires i < |fs|
    ensures Clusters(fs[i := f]) == Clusters(fs) - fs[i].clusters + f.clusters
  {
    if i == 0 {
      assert fs[i := f][1..] == fs[1..];
    } else {
      assert fs[i := f][1..] == fs[1..][i - 1 := f];
      ClustersUpdate(fs[1..], i - 1, f);
    }
  }

  lemma {:induction false} ClustersAppend(fs: seq<Plain>, f: Plain)
    ensures Clusters(fs + [f]) == Clusters(fs) + f.clusters
  {
    if fs == [] {
      assert fs + [f] == [f];
    } else {
      assert (fs + [f])[1..] == fs[1..] + [f];
      ClustersAppend(fs[1..], f);
    }
  }

  /** Free clusters and the clusters of all chains together are the same number after a run. */
  lemma {:induction false} RunConserves(q: Quota, ops: seq<Op>, answers: seq<Answer>, q': Quota)
    requires PlainRun(q, ops, answers, q')
    ensures q'.below + q'.above + Clusters(q'.files) == q.below + q.above + Clusters(q.files)
    decreases |ops|
  {
    if ops != [] {
      StepConserves(q, ops[0]);
      RunConserves(PlainDo(q, ops[0]).1, ops[1..], answers[1..], q');
    }
  }

  lemma StepConserves(q: Quota, op: Op)
    requires QuotaOk(q) && Allowed(q, op)
    ensures var q' := PlainDo(q, op).1;
            q'.below + q'.above + Clusters(q'.files) == q.below + q.above + Clusters(q.files)
  {
    var q' := PlainDo(q, op).1;
    if op.Creating? {
      ClustersAppend(q.files, Plain([], 0, 1));
    } else if op.file < |q.files| {
      ClustersUpdate(q.files, op.file, q'.files[op.file]);
      if op.Writing? && op.msg != [] {
        LinksBound(Own(q, op.file), q.below, q.below + q.above, |op.msg|, q.clusterSize);
      }
    }
  }

  /** From any well-formed table: the answers of plain byte sequences, and every cluster accounted
      for at the end. */
  lemma RunsFromTable(t: FileTable, ops: seq<Op>, answers: seq<Answer>, q': Quota)
    requires TableOk(t) && PlainRun(QuotaOf(t), ops, answers, q')
    ensures exists t' :: TableRun(t, ops, answers, t') && Mirrors(q', t')
                      && FreeCount(t'.vol.fat) + Clusters(q'.files) == FreeCount(t.vol.fat) + Clusters(QuotaOf(t).files)
  {
    FreeBelowMono(t.vol.fat, WRITE_GUARD);
    RunMirrors(QuotaOf(t), t, ops, answers, q');
    RunConserves(QuotaOf(t), ops, answers, q');
  }

  // ----- one write, and what it leaves behind -----

  /** A write on a table of any size: the message is spliced in at the pointer, as much of it as
      fits, the file grows only when the pointer passes its end, every other file keeps its
      bytes, and free plus chained clusters stay the same. */
  lemma WriteSplices(t: FileTable, i: nat, msg: seq<Byte>)
    requires TableOk(t) && i < |t.files| && t.files[i].ptr < |Flat(t.vol, Chain(t, i))|
    ensures var r, f := Write(t, i, msg), t.files[i];
            && TableOk(r.1) && f.ptr <= |Contents(t, i)|
            && r.0 == Min(|msg|,
                 |Flat(t.vol, Chain(t, i))| - f.ptr + FreeBelow(t.vol.fat, WRITE_GUARD) * t.vol.clusterSize)
            && Contents(r.1, i) == Overwrite(Contents(t, i), f.ptr, msg[..r.0])
            && r.1.files == t.files[i := File(f.first, Max(f.size, f.ptr + r.0), f.ptr + r.0)]
            && |Chain(r.1, i)| == |Chain(t, i)| + NewClusters(t, i, |msg|)
            && FreeCount(r.1.vol.fat) + |Chain(r.1, i)| == FreeCount(t.vol.fat) + |Chain(t, i)|
    ensures forall j :: 0 <= j < |t.files| && j != i ==> Contents(Write(t, i, msg).1, j) == Contents(t, j)
  {
    hide Flat, WriteLoop, Links, FreeBelow, Room, ChainOf, Overwrite, IsChain;
    Position(t, i);
    var k, off := Before(t.files[i].ptr, t.vol.clusterSize), Offset(t.files[i].ptr, t.vol.clusterSize);
    WriteAtKeeps(t, i, k, off, msg);
    WriteAtCount(t, i, k, off, msg);
    RoomIsProduct(FreeBelow(t.vol.fat, WRITE_GUARD), t.vol.clusterSize);
    WriteAtOwn(t, i, k, off, msg);
    WriteAtLinks(t, i, k, off, msg, 0);
    WriteConserves(t, i, k, off, msg);
    WriteSparesOthers(t, i, k, off, msg);
  }

  lemma WriteSparesOthers(t: FileTable, i: nat, k: nat, off: nat, msg: seq<Byte>)
    requires TableOk(t) && i < |t.files| && At(t, i, k, off) && k < |Chain(t, i)|
    ensures forall j :: 0 <= j < |t.files| && j != i ==> Contents(WriteAt(t, i, k, off, msg).1, j) == Contents(t, j)
  {
    forall j | 0 <= j < |t.files| && j != i ensures Contents(WriteAt(t, i, k, off, msg).1, j) == Contents(t, j) {
      WriteAtOther(t, i, k, off, msg, j);
    }
  }

  /** The entries below b that are 0. */
  ghost function FreeEntries(fat: seq<Word>, b: nat): set<nat> { set c: nat | c < |fat| && c < b && fat[c] == 0 }

  lemma {:induction false} FreeBelowCounts(fat: seq<Word>, b: nat)
    ensures |FreeEntries(fat, b)| == FreeBelow(fat, b)
    decreases b
  {
    if b == 0 {
      assert FreeEntries(fat, 0) == {};
    } else {
      FreeBelowCounts(fat, b - 1);
      var more := if b <= |fat| && fat[b - 1] == 0 then {b - 1} else {};
      assert FreeEntries(fat, b) == FreeEntries(fat, b - 1) + more;
    }
  }

  /** The count a write returns, in numbers: all of the message, or what is left of the file's clusters and
      of the free ones, of which only those below 0xFFF count. */
  lemma WriteCounts(t: FileTable, i: nat, msg: seq<Byte>)
    requires TableOk(t) && i < |t.files| && t.files[i].ptr < |Flat(t.vol, Chain(t, i))|
    ensures var cz, fat := t.vol.clusterSize, t.vol.fat;
            var own := |Chain(t, i)| * cz - t.files[i].ptr;
            && |Flat(t.vol, Chain(t, i))| == |Chain(t, i)| * cz
            && Write(t, i, msg).0 == Min(|msg|, own + |FreeEntries(fat, 0xFFF)| * cz)
            && (|fat| <= 0xFFF ==> Write(t, i, msg).0 == Min(|msg|, own + |FreeEntries(fat, |fat|)| * cz))
  {
    var cz, fat, cs := t.vol.clusterSize, t.vol.fat, Chain(t, i);
    WriteSplices(t, i, msg);
    FreeBelowCounts(fat, 0xFFF);
    assert FileOk(t, i);
    FlatLength(t.vol, cs);
    RoomIsProduct(|cs|, cz);
    if |fat| <= 0xFFF { assert FreeEntries(fat, |fat|) == FreeEntries(fat, 0xFFF); }
  }

  /** The guard at 0xFFF is why a write can stop short of the free clusters a larger table has.
      It takes all it could exactly when the message fits below the guard, or nothing above it
      is free. */
  lemma WriteIsCompleteIff(t: FileTable, i: nat, msg: seq<Byte>)
    requires TableOk(t) && i < |t.files| && t.files[i].ptr < |Flat(t.vol, Chain(t, i))|
    ensures var cz, fat := t.vol.clusterSize, t.vol.fat;
            var own := |Chain(t, i)| * cz - t.files[i].ptr;
            var below, all := |FreeEntries(fat, 0xFFF)|, |FreeEntries(fat, |fat|)|;
            Write(t, i, msg).0 == Min(|msg|, own + all * cz) <==> |msg| <= own + below * cz || below == all
  {
    var cz, below, all := t.vol.clusterSize, FreeBelow(t.vol.fat, WRITE_GUARD), FreeCount(t.vol.fat);
    WriteCounts(t, i, msg);
    FreeBelowCounts(t.vol.fat, 0xFFF);
    FreeBelowCounts(t.vol.fat, |t.vol.fat|);
    FreeBelowMono(t.vol.fat, WRITE_GUARD);
    if below < all { MulMono(below, all, cz); }
  }

  lemma {:induction false} FreeBelowMono(fat: seq<Word>, b: nat)
    ensures FreeBelow(fat, b) <= FreeCount(fat)
    decreases if b < |fat| then |fat| - b else 0
  {
    if b < |fat| { FreeBelowMono(fat, b + 1); } else { GuardCountsAll(fat, b); }
  }

  /** The cluster number a read or write starts with. */
  function StartCluster(t: FileTable, i: nat): Word
    requires i < |t.files|
  {
    if t.vol.clusterSize == 0 then LAST
    else Hop(t.vol.fat, t.files[i].first, Before(t.files[i].ptr, t.vol.clusterSize))
  }

  /** The cluster a write starts with is in the table exactly when the pointer is before the end
      of the last cluster. Behind it the chain walk returns the end marker itself. */
  lemma WriteStartsInTable(t: FileTable, i: nat)
    requires TableOk(t) && i < |t.files|
    ensures StartCluster(t, i) < |t.vol.fat| <==> t.files[i].ptr < |Flat(t.vol, Chain(t, i))|
  {
    Position(t, i);
  }

  lemma FillingNeedsNone(q: Quota, i: nat, msg: seq<Byte>)
    requires QuotaOk(q) && i < |q.files| && msg != []
             && q.files[i].ptr + |msg| == Room(q.files[i].clusters, q.clusterSize)
    ensures Allowed(q, Writing(i, msg))
    ensures var f' := PlainDo(q, Writing(i, msg)).1.files[i]; f'.ptr == Room(f'.clusters, q.clusterSize)
  {}

  /** Such a pointer is what a write leaves that fills the last cluster to its end: the next
      write would start with the end marker for a cluster number. */
  lemma FillingStrandsPointer(q: Quota, t: FileTable, i: nat, msg: seq<Byte>)
    requires Mirrors(q, t) && QuotaOk(q) && i < |t.files|
    requires msg != [] && q.files[i].ptr + |msg| == Room(q.files[i].clusters, q.clusterSize)
    ensures var t' := Write(t, i, msg).1;
            TableOk(t') && i < |t'.files| && StartCluster(t', i) >= |t'.vol.fat|
  {
    var q', t' := PlainDo(q, Writing(i, msg)).1, Write(t, i, msg).1;
    FillingNeedsNone(q, i, msg);
    MirrorWrite(q, t, i, msg);
    SizeOfBytes(q', t', i);
    WriteStartsInTable(t', i);
  }

  // ----- volumes with fewer clusters than entries -----

  /** The chains of all open files lie below n. */
  ghost predicate OnVolume(t: FileTable, n: nat) { forall i :: 0 <= i < |t.files| ==> Within(Chain(t, i), n) }

  /** A table may have entries for clusters the volume does not have, and the search for a free
      cluster goes through all of them. A created file lies on the volume, which has the clusters
      below n, exactly if a cluster is free there. */
  lemma CreateStaysIff(t: FileTable, stale: Word, n: nat)
    requires TableOk(t) && OnVolume(t, n) && FreeCount(t.vol.fat) > 0
    ensures OnVolume(Create(t, stale), n) <==> FirstFree(t.vol.fat, 0) < n
    ensures FirstFree(t.vol.fat, 0) < n <==> FreeBelow(t.vol.fat, n) > 0
  {
    var t' := Create(t, stale);
    NoneFree(t.vol.fat);
    FreeAtFirst(t.vol.fat, n);
    CreateNew(t, stale);
    forall j | 0 <= j < |t.files| ensures Within(Chain(t', j), n) { CreateOther(t, stale, j); }
    assert Within(Chain(t', |t.files|), n) <==> [FirstFree(t.vol.fat, 0)][0] < n;
  }

  /** After a write all chains lie on the volume exactly if it has free all the clusters the write
      adds. */
  lemma WriteStaysIff(t: FileTable, i: nat, msg: seq<Byte>, n: nat)
    requires TableOk(t) && OnVolume(t, n) && i < |t.files| && t.files[i].ptr < |Flat(t.vol, Chain(t, i))|
    ensures OnVolume(Write(t, i, msg).1, n) <==> NewClusters(t, i, |msg|) <= FreeBelow(t.vol.fat, n)
  {
    Position(t, i);
    var k, off := Before(t.files[i].ptr, t.vol.clusterSize), Offset(t.files[i].ptr, t.vol.clusterSize);
    WriteAtLinks(t, i, k, off, msg, n);
    forall j | 0 <= j < |t.files| && j != i ensures Within(Chain(Write(t, i, msg).1, j), n) {
      WriteAtOther(t, i, k, off, msg, j);
    }
  }

  /** One operation keeps the table well formed and its chains on the volume. */
  lemma StepStays(t: FileTable, op: Op, n: nat)
    requires TableOk(t) && OnVolume(t, n)
    requires op.Creating? ==> FreeBelow(t.vol.fat, n) > 0
    requires op.Writing? && op.file < |t.files| && op.msg != [] ==>
               && t.files[op.file].ptr < |Flat(t.vol, Chain(t, op.file))|
               && NewClusters(t, op.file, |op.msg|) <= FreeBelow(t.vol.fat, n)
    ensures TableOk(Do(t, op).1) && OnVolume(Do(t, op).1, n)
  {
    if op.Creating? {
      FreeAtFirst(t.vol.fat, n);
      FreeAtFirst(t.vol.fat, |t.vol.fat|);
      CreateKeeps(t, op.stale);
      CreateStaysIff(t, op.stale, n);
    } else if op.Writing? {
      if op.file < |t.files| { WriteStays(t, op.file, op.msg, n); }
    } else {
      var t' := Do(t, op).1;
      FreeBelowMono(t.vol.fat, WRITE_GUARD);
      MirrorsIsOk(QuotaOf(t), t);
      StepMirrors(QuotaOf(t), t, op);
      assert forall j :: 0 <= j < |t.files| ==> t'.files[j].first == t.files[j].first && Chain(t', j) == Chain(t, j);
    }
  }

  lemma WriteStays(t: FileTable, i: nat, msg: seq<Byte>, n: nat)
    requires TableOk(t) && OnVolume(t, n) && i < |t.files|
    requires msg != [] ==>
               t.files[i].ptr < |Flat(t.vol, Chain(t, i))| && NewClusters(t, i, |msg|) <= FreeBelow(t.vol.fat, n)
    ensures TableOk(Write(t, i, msg).1) && OnVolume(Write(t, i, msg).1, n)
  {
    if msg == [] {
      WriteNothing(t, i);
    } else {
      WriteSplices(t, i, msg);
      WriteStaysIff(t, i, msg, n);
    }
  }

  // ----- in the words on the disk -----

  /** A chain, in numbers: every word is the next cluster's number, and the last is 0xFFF7 or more. */
  lemma ChainInNumbers(fat: seq<Word>, cs: seq<Word>)
    ensures IsChain(fat, cs) <==>
              && cs != [] && |fat| <= 0xFFF7 && (forall i :: 0 <= i < |cs| ==> 2 <= cs[i] < |fat|)
              && (forall i :: 0 <= i < |cs| - 1 ==> fat[cs[i]] == cs[i + 1]) && fat[cs[|cs| - 1]] >= 0xFFF7
              && (forall i, j :: 0 <= i < j < |cs| ==> cs[i] != cs[j])
  {
    if IsChain(fat, cs) {
      forall i | 0 <= i < |cs| - 1 ensures fat[cs[i]] == cs[i + 1] { assert Linked(fat, cs, i); }
      assert 2 <= cs[0] < |fat| <= END_MARK;
    }
  }

  /** A new file is empty. Its cluster is the first whose word is 0, and that word is 0xFFFF now. */
  lemma CreateAnswers(t: FileTable, stale: Word)
    requires TableOk(t) && FreeEntries(t.vol.fat, |t.vol.fat|) != {}
    ensures var t', n := Create(t, stale), |t.files|;
            && |t'.files| == n + 1 && (forall j :: 0 <= j < n ==> t'.files[j] == t.files[j])
            && var f := t'.files[n];
               && f.size == 0 && f.ptr == 0 && f.first < |t.vol.fat| && t.vol.fat[f.first] == 0
               && (forall c :: 0 <= c < f.first ==> t.vol.fat[c] != 0)
               && t'.vol == t.vol.(fat := t.vol.fat[f.first := 0xFFFF])
               && TableOk(t') && Chain(t', n) == [f.first] && Contents(t', n) == []
  {
    var c :| c in FreeEntries(t.vol.fat, |t.vol.fat|);
    FirstFreeFinds(t.vol.fat, c);
    CreateNew(t, stale);
    CreateKeeps(t, stale);
  }

  lemma FirstFreeFinds(fat: seq<Word>, c: nat)
    requires c < |fat| && fat[c] == 0
    ensures FirstFree(fat, 0) <= c
  {}
}
