/** The mounted file system in the form the program has it: one object that holds the allocation
    table, the root directory, the cluster cache and the open files, and changes them in place.
    Every method is proved against the functions of Fat, FatFiles and FatDisk. */
module FileEngine {
  import opened Fat
  import opened FatFiles
  import opened FatDisk
  import opened FatRuns

  /** The disk image behind a file descriptor that is only used at whole sectors. */
  class Image {
    var sectors: Disk
    var position: nat

    constructor (d: Disk)
      ensures sectors == d && position == 0
    {
      sectors, position := d, 0;
    }

    method Seek(s: nat)
      modifies this`position
      ensures position == s
    {
      position := s;
    }

    method ReadSector() returns (b: seq<Byte>)
      requires position < |sectors|
      modifies this`position
      ensures b == sectors[old(position)] && position == old(position) + 1
    {
      b := sectors[position];
      position := position + 1;
    }

    method WriteSector(b: seq<Byte>)
      requires position < |sectors|
      modifies this
      ensures sectors == old(sectors)[old(position) := b] && position == old(position) + 1
    {
      sectors := sectors[position := b];
      position := position + 1;
    }
  }

  // ----- directory entries -----

  predicate HasEntry(root: seq<Byte>, e: nat) { e * 32 + 32 <= |root| }

  /** DIR_FIRST_CLUS_LO, at offset 26 */
  function EntryFirst(root: seq<Byte>, e: nat): Word
    requires HasEntry(root, e)
  {
    Le16(root, e * 32 + 26)
  }

  function Quad(b0: Byte, b1: Byte, b2: Byte, b3: Byte): nat { Pair(b0, b1) + 0x1_0000 * Pair(b2, b3) }

  /** DIR_FILE_SIZE, at offset 28 */
  function EntrySize(root: seq<Byte>, e: nat): nat
    requires HasEntry(root, e)
  {
    Quad(root[e * 32 + 28], root[e * 32 + 29], root[e * 32 + 30], root[e * 32 + 31])
  }

  /** A directory entry in bytes: the first cluster's number, and the size of the file. */
  lemma EntryInBytes(root: seq<Byte>, e: nat)
    requires HasEntry(root, e)
    ensures var k := 32 * e;
            && EntryFirst(root, e) == Word16(root, k + 26)
            && EntrySize(root, e) == Word16(root, k + 28) + 65536 * Word16(root, k + 30)
  {}

  /** n in k bytes, little-endian. */
  function Bytes(n: nat, k: nat): (b: seq<Byte>)
    ensures |b| == k
  {
    if k == 0 then [] else [n % 0x100] + Bytes(n / 0x100, k - 1)
  }

  lemma PairOfBytes(n: nat)
    requires n < 0x1_0000
    ensures Pair(Bytes(n, 2)[0], Bytes(n, 2)[1]) == n
  {}

  lemma QuadOfBytes(n: nat)
    requires n < 0x1_0000_0000
    ensures var b := Bytes(n, 4); Quad(b[0], b[1], b[2], b[3]) == n
  {
    var m := n / 0x100;
    var h := m / 0x100;
    assert Bytes(n, 4) == [n % 0x100] + ([m % 0x100] + Bytes(h, 2));
    PairOfBytes(h);
  }

  /** Bytes [at, at + |b|) of the root directory replaced. */
  ghost predicate Replaced(root: seq<Byte>, at: nat, b: seq<Byte>, root': seq<Byte>) {
    && |root'| == |root| && at + |b| <= |root|
    && forall k :: 0 <= k < |root| ==> root'[k] == if at <= k < at + |b| then b[k - at] else root[k]
  }

  /** The size of entry e overwritten by four zero bytes. */
  ghost predicate ClearedBy(root: seq<Byte>, e: nat, zero: seq<Byte>, root': seq<Byte>) {
    |zero| == 4 && zero[2] == zero[3] == 0 && Replaced(root, e * 32 + 28, zero, root')
  }

  ghost predicate Cleared(root: seq<Byte>, e: nat, root': seq<Byte>) { exists zero :: ClearedBy(root, e, zero, root') }

  // ----- mounting -----

  /** readSector */
  method ReadSectorAt(image: Image, s: nat) returns (b: seq<Byte>)
    requires s < |image.sectors|
    modifies image`position
    ensures b == image.sectors[s]
  {
    image.Seek(s);
    b := image.ReadSector();
  }

  /** processFAT */
  method MountTable(image: Image, reserved: nat, fatSize: nat) returns (fat: array<Word>)
    requires DiskOk(image.sectors) && reserved + fatSize <= |image.sectors|
    modifies image`position
    ensures fresh(fat) && fat[..] == LoadFat(reserved, image.sectors, fatSize)
  {
    fat := new Word[fatSize * 256](_ => FREE);
    for i := 0 to fatSize
      invariant fat[..i * 256] == LoadFat(reserved, image.sectors, i)
    {
      var b := ReadSectorAt(image, reserved + i);
      var ws := Unpacked(b);
      for j := 0 to 256
        invariant fat[..i * 256 + j] == LoadFat(reserved, image.sectors, i) + ws[..j]
      {
        fat[i * 256 + j] := ws[j];
      }
      assert ws[..256] == ws;
    }
    assert fat[..fat.Length] == fat[..];
  }

  /** processRoot */
  method MountRoot(image: Image, first: nat, sectors: nat) returns (root: array<Byte>)
    requires DiskOk(image.sectors) && first + sectors <= |image.sectors|
    modifies image`position
    ensures fresh(root) && root[..] == Gather(image.sectors, first, sectors)
  {
    root := new Byte[sectors * 512](_ => 0);
    for i := 0 to sectors
      invariant |Gather(image.sectors, first, i)| == i * 512
      invariant root[..i * 512] == Gather(image.sectors, first, i)
    {
      var b := ReadSectorAt(image, first + i);
      for j := 0 to 512
        invariant root[..i * 512 + j] == Gather(image.sectors, first, i) + b[..j]
      {
        root[i * 512 + j] := b[j];
      }
      assert b[..512] == b;
    }
    assert root[..root.Length] == root[..];
  }

  datatype OpenFile = OpenFile(entry: nat, ptr: nat)

  function FileOf(root: seq<Byte>, o: OpenFile): File
    requires HasEntry(root, o.entry)
  {
    File(EntryFirst(root, o.entry), EntrySize(root, o.entry), o.ptr)
  }

  ghost predicate OpenOk(root: seq<Byte>, open: seq<OpenFile>) {
    && (forall i :: 0 <= i < |open| ==> HasEntry(root, open[i].entry))
    && (forall i, j :: 0 <= i < j < |open| ==> open[i].entry != open[j].entry)
  }

  function FilesOf(root: seq<Byte>, open: seq<OpenFile>): seq<File>
    requires OpenOk(root, open)
  {
    seq(|open|, i requires 0 <= i < |open| => FileOf(root, open[i]))
  }

  /** Only entry e differs. */
  ghost predicate OnlyIn(root: seq<Byte>, e: nat, root': seq<Byte>) {
    && |root'| == |root|
    && forall k :: 0 <= k < |root| && !(e * 32 <= k < e * 32 + 32) ==> root'[k] == root[k]
  }

  lemma OthersKeep(root: seq<Byte>, e: nat, root': seq<Byte>, o: OpenFile)
    requires HasEntry(root, o.entry) && o.entry != e && OnlyIn(root, e, root')
    ensures FileOf(root', o) == FileOf(root, o)
  {}

  /** A fresh entry joins the open files. */
  lemma EntryCreated(root: seq<Byte>, open: seq<OpenFile>, e: nat, root': seq<Byte>, f: File)
    requires OpenOk(root, open) && HasEntry(root, e) && (forall i :: 0 <= i < |open| ==> open[i].entry != e)
    requires OnlyIn(root, e, root') && FileOf(root', OpenFile(e, 0)) == f
    ensures OpenOk(root', open + [OpenFile(e, 0)])
    ensures FilesOf(root', open + [OpenFile(e, 0)]) == FilesOf(root, open) + [f]
  {
    forall i | 0 <= i < |open| ensures FileOf(root', open[i]) == FileOf(root, open[i]) {
      OthersKeep(root, e, root', open[i]);
    }
  }

  /** Setting one file's size in the root directory changes that file and no other. */
  lemma SizeReplaced(root: seq<Byte>, open: seq<OpenFile>, i: nat, size: nat, root': seq<Byte>)
    requires OpenOk(root, open) && i < |open| && size < 0x1_0000_0000
    requires Replaced(root, open[i].entry * 32 + 28, Bytes(size, 4), root')
    ensures OpenOk(root', open)
            && FilesOf(root', open) == FilesOf(root, open)[i := FileOf(root, open[i]).(size := size)]
  {
    QuadOfBytes(size);
    forall j | 0 <= j < |open|
      ensures FileOf(root', open[j]) == if j == i then FileOf(root, open[i]).(size := size) else FileOf(root, open[j])
    {
      assert j != i ==> open[j].entry != open[i].entry;
    }
  }

  // ----- one turn of each loop -----

  lemma Associates<T>(a: seq<T>, b: seq<T>, c: seq<T>)
    ensures a + (b + c) == (a + b) + c && (a + b) + [] == a + b
  {}

  /** What the read loop has still to deliver. */
  ghost function ReadOnward(v: Volume, c: nat, off: nat, want: nat, left: nat): seq<Byte> {
    if want == 0 || left == 0 || off >= v.clusterSize || c >= END_MARK then [] else ReadLoop(v, c, off, want, left)
  }

  lemma ReadTurn(v: Volume, ds: seq<Word>, off: nat, want: nat, left: nat)
    requires Shape(v) && IsChain(v.fat, ds) && off < v.clusterSize && want > 0 && left > 0
    ensures var amount := Min(v.clusterSize - off, left);
            && off + Min(want, amount) <= |v.data[ds[0]]|
            && ReadOnward(v, ds[0], off, want, left) ==
               v.data[ds[0]][off..off + Min(want, amount)] +
               if want < amount then [] else ReadOnward(v, v.fat[ds[0]], 0, want - amount, left - amount)
  {
    var amount := Min(v.clusterSize - off, left);
    if |ds| > 1 { TailIsChain(v.fat, ds); }
    var here := v.data[ds[0]];
    assert here[off..off + Min(want, amount)] + [] == here[off..off + Min(want, amount)];
    if |ds| > 1 && want >= amount == left { assert ReadLoop(v, v.fat[ds[0]], 0, want - left, 0) == []; }
  }

  /** One turn, with what was read before. */
  lemma ReadTurnBehind(v: Volume, ds: seq<Word>, off: nat, want: nat, left: nat, data: seq<Byte>, piece: seq<Byte>)
    requires Shape(v) && IsChain(v.fat, ds) && off < v.clusterSize && want > 0 && left > 0
    requires var n := Min(want, Min(v.clusterSize - off, left));
             off + n <= |v.data[ds[0]]| && piece == v.data[ds[0]][off..off + n]
    ensures var amount := Min(v.clusterSize - off, left);
            data + ReadOnward(v, ds[0], off, want, left) ==
            data + piece + if want < amount then [] else ReadOnward(v, v.fat[ds[0]], 0, want - amount, left - amount)
  {
    var amount := Min(v.clusterSize - off, left);
    ReadTurn(v, ds, off, want, left);
    Associates(data, piece, if want < amount then [] else ReadOnward(v, v.fat[ds[0]], 0, want - amount, left - amount));
  }

  /** The chain goes on behind ds[0] when its entry is no end marker. */
  lemma OnwardChain(v: Volume, n: nat, ds: seq<Word>)
    requires Shape(v) && IsChain(v.fat, ds) && Within(ds, n)
    ensures |v.data[ds[0]]| == v.clusterSize && 2 <= ds[0] < n && ds[0] < |v.fat|
    ensures v.fat[ds[0]] < END_MARK ==>
              |ds| > 1 && IsChain(v.fat, ds[1..]) && ds[1..][0] == v.fat[ds[0]] && Within(ds[1..], n)
  {
    if |ds| > 1 {
      TailIsChain(v.fat, ds);
      assert ds == [ds[0]] + ds[1..];
      WithinCons(ds[0], ds[1..], n);
    }
  }

  /** What the write loop has still to do. */
  ghost function WriteOnward(v: Volume, c: nat, off: nat, msg: seq<Byte>): (Volume, nat) {
    if msg == [] || off >= v.clusterSize then (v, 0) else WriteLoop(v, c, off, msg)
  }

  /** The volume when the write loop moves on from cluster c, and whether it does. */
  ghost function Linked_(v: Volume, c: Word): Volume
    requires c < |v.fat| <= END_MARK
  {
    if v.fat[c] >= END_MARK then v.(fat := Extend(v.fat, c)) else v
  }

  ghost predicate Stops(v: Volume, c: Word)
    requires c < |v.fat| <= END_MARK
  {
    v.fat[c] >= END_MARK && Linked_(v, c).fat[c] >= WRITE_GUARD
  }

  lemma WriteTurn(v: Volume, ds: seq<Word>, off: nat, msg: seq<Byte>)
    requires Shape(v) && IsChain(v.fat, ds) && off < v.clusterSize && msg != []
    ensures |v.data[ds[0]]| == v.clusterSize && 2 <= ds[0] < |v.fat|
    ensures |msg| < v.clusterSize - off ==> WriteOnward(v, ds[0], off, msg) == (Put(v, ds[0], off, msg), |msg|)
    ensures |msg| >= v.clusterSize - off ==>
              var v1, room := Fill(v, ds[0], off, msg), v.clusterSize - off;
              var v2, rest := Linked_(v1, ds[0]), Rest(v, off, msg);
              WriteOnward(v, ds[0], off, msg) ==
                if rest == [] then (v1, room)
                else if Stops(v1, ds[0]) then (v2, room)
                else (WriteOnward(v2, v2.fat[ds[0]], 0, rest).0, room + WriteOnward(v2, v2.fat[ds[0]], 0, rest).1)
  {}

  /** Everything the loop does comes to `total`, when `written` bytes are behind it. */
  ghost predicate ComesTo(total: (Volume, nat), v: Volume, c: nat, off: nat, msg: seq<Byte>, written: nat) {
    total.0 == WriteOnward(v, c, off, msg).0 && total.1 == written + WriteOnward(v, c, off, msg).1
  }

  /** The loop stands at offset off of the first cluster of chain, with msg still to write, and all
      the clusters it will have lie below n. */
  ghost predicate WritingOn(total: (Volume, nat), v: Volume, n: nat, chain: seq<Word>, c: Word, off: nat,
        msg: seq<Byte>, written: nat) {
    && Shape(v) && off < v.clusterSize && msg != [] && IsChain(v.fat, chain) && chain[0] == c
    && Within(ChainAfter(v, chain, off, msg), n)
    && ComesTo(total, v, c, off, msg, written)
  }

  /** The read loop stands there, with want bytes asked for and left in the file. */
  ghost predicate ReadingOn(all: seq<Byte>, v: Volume, n: nat, chain: seq<Word>, c: Word, off: nat, want: nat,
        left: nat, data: seq<Byte>) {
    && Shape(v) && off < v.clusterSize && IsChain(v.fat, chain) && chain[0] == c && Within(chain, n)
    && all == data + ReadOnward(v, c, off, want, left)
  }

  lemma WriteTurnBehind(total: (Volume, nat), v: Volume, ds: seq<Word>, off: nat, msg: seq<Byte>, written: nat)
    requires Shape(v) && IsChain(v.fat, ds) && off < v.clusterSize && msg != []
    requires ComesTo(total, v, ds[0], off, msg, written)
    ensures |v.data[ds[0]]| == v.clusterSize && 2 <= ds[0] < |v.fat|
    ensures |msg| < v.clusterSize - off ==> total == (Put(v, ds[0], off, msg), written + |msg|)
    ensures |msg| >= v.clusterSize - off ==>
              var v1, room := Fill(v, ds[0], off, msg), v.clusterSize - off;
              var v2, rest := Linked_(v1, ds[0]), Rest(v, off, msg);
              if rest == [] then total == (v1, written + room)
              else if Stops(v1, ds[0]) then total == (v2, written + room)
              else ComesTo(total, v2, v2.fat[ds[0]], 0, rest, written + room)
  {
    WriteTurn(v, ds, off, msg);
  }

  /** The chain the write loop goes on with. */
  lemma NextChain(v: Volume, ds: seq<Word>)
    requires Shape(v) && IsChain(v.fat, ds)
    ensures Shape(Linked_(v, ds[0]))
    ensures var fat', next := Linked_(v, ds[0]).fat, if |ds| > 1 then ds[1..] else [Linked_(v, ds[0]).fat[ds[0]]];
            !Stops(v, ds[0]) ==> IsChain(fat', next) && next[0] == fat'[ds[0]]
  {
    if |ds| > 1 {
      TailIsChain(v.fat, ds);
    } else {
      var i := FirstFree(v.fat, 0);
      if i < |v.fat| {
        ExtendGrows(v.fat, ds);
        assert (ds + [i])[1..] == [i];
        TailIsChain(Extend(v.fat, ds[0]), ds + [i]);
      }
    }
  }

  /** The first cluster stays the first. */
  lemma FirstStays(v: Volume, ds: seq<Word>, off: nat, msg: seq<Byte>)
    requires Shape(v) && IsChain(v.fat, ds) && off < v.clusterSize
    ensures ChainAfter(v, ds, off, msg) != [] && ChainAfter(v, ds, off, msg)[0] == ds[0]
  {}

  lemma StartWithin(total: (Volume, nat), v: Volume, n: nat, chain: seq<Word>, c: Word, off: nat, msg: seq<Byte>,
        written: nat)
    requires WritingOn(total, v, n, chain, c, off, msg, written)
    ensures 2 <= c < n && c < |v.fat| <= END_MARK && |v.data[c]| == v.clusterSize
  {
    FirstStays(v, chain, off, msg);
  }

  /** The clusters of the next turn lie below n, too. */
  lemma NextWithin(v: Volume, n: nat, ds: seq<Word>, off: nat, msg: seq<Byte>)
    requires Shape(v) && IsChain(v.fat, ds) && off < v.clusterSize && |msg| > v.clusterSize - off
    requires Within(ChainAfter(v, ds, off, msg), n)
    ensures var v1, rest := Fill(v, ds[0], off, msg), Rest(v, off, msg);
            var v2 := Linked_(v1, ds[0]);
            var next := if |ds| > 1 then ds[1..] else [v2.fat[ds[0]]];
            !Stops(v1, ds[0]) ==> Shape(v2) && IsChain(v2.fat, next) && Within(ChainAfter(v2, next, 0, rest), n)
  {
    var c, rest := ds[0], Rest(v, off, msg);
    if |ds| > 1 {
      TurnOn(v, ds, off, msg);
      ChainOn(v, ds, off, msg);
      WithinCons(c, ChainAfter(Fill(v, c, off, msg), ds[1..], 0, rest), n);
      TailIsChain(v.fat, ds);
    } else if FirstFree(v.fat, 0) < |v.fat| && FirstFree(v.fat, 0) < WRITE_GUARD {
      assert ds == [c];
      TurnGoes(v, c, off, msg);
      FillExtendShape(v, c, off, msg);
      WithinCons(c, ChainAfter(FillExtend(v, c, off, msg), [FirstFree(v.fat, 0)], 0, rest), n);
    }
  }

  lemma WriteMoves(total: (Volume, nat), v: Volume, n: nat, chain: seq<Word>, c: Word, off: nat, msg: seq<Byte>,
        written: nat)
    requires WritingOn(total, v, n, chain, c, off, msg, written) && |msg| > v.clusterSize - off
    ensures 2 <= c < n && c < |v.fat| <= END_MARK && |v.data[c]| == v.clusterSize
    ensures var v1, room := Fill(v, c, off, msg), v.clusterSize - off;
            var v2 := Linked_(v1, c);
            if Stops(v1, c) then total == (v2, written + room)
            else WritingOn(total, v2, n, if |chain| > 1 then chain[1..] else [v2.fat[c]],
                           v2.fat[c], 0, msg[room..], written + room)
  {
    hide ChainAfter, WriteOnward;
    StartWithin(total, v, n, chain, c, off, msg, written);
    WriteTurnBehind(total, v, chain, off, msg, written);
    NextChain(Fill(v, c, off, msg), chain);
    NextWithin(v, n, chain, off, msg);
  }

  class FileSystem {
    const image: Image
    const g: Geometry
    const layout: Layout
    const fat: array<Word>
    const root: array<Byte>
    var cached: seq<Cluster>
    var open: seq<OpenFile>

    /** Mounting an image. */
    constructor (image: Image)
      requires Mountable(image.sectors)
      modifies image`position
      ensures this.image == image && g == GeometryOf(image.sectors[0]) && fresh(fat) && fresh(root)
      ensures State() == Mount(image.sectors) && open == []
    {
      var boot := ReadSectorAt(image, 0);
      var geometry := GeometryOf(boot);
      ghost var m := Mount(image.sectors);
      RootBehindTable(geometry);
      var table := MountTable(image, geometry.reserved, geometry.fatSize);
      var entries := MountRoot(image, geometry.FirstRoot(), geometry.RootSectors());
      this.image, g, layout, fat, root := image, geometry, geometry.Clusters(), table, entries;
      cached, open := [], [];
    }

    ghost function State(): Mounted
      reads this, image, fat, root
    {
      Mounted(layout, fat[..], root[..], cached, image.sectors)
    }

    /** The cluster numbers of the volume. */
    ghost function Held(): nat
      reads this, image, fat, root
    {
      State().Held()
    }

    /** The bytes and links a reader or writer sees. */
    ghost function Vol(): Volume
      reads this, image, fat, root
    {
      State().Vol()
    }

    /** findCachedCluster */
    method FindCached(c: Word) returns (k: nat)
      ensures k == Find(cached, c)
    {
      k := 0;
      while k < |cached|
        invariant k <= |cached| && Find(cached, c) == k + Find(cached[k..], c)
      {
        if cached[k].num == c { return; }
        assert cached[k..][1..] == cached[k + 1..];
        k := k + 1;
      }
    }

    /** createCachedCluster */
    method LoadCluster(c: Word) returns (data: seq<Byte>)
      requires State().Ready() && 2 <= c < Held()
      modifies image`position
      ensures data == OnDisk(layout, image.sectors, c)
    {
      image.Seek(layout.SectorOf(c));
      data := [];
      for i := 0 to layout.sectorsPerCluster
        invariant data == Gather(image.sectors, layout.SectorOf(c), i) && image.position == layout.SectorOf(c) + i
      {
        var b := image.ReadSector();
        data := data + b;
      }
    }

    /** The cached copy of a cluster, made now if there is none. */
    method Fetch(c: Word) returns (k: nat)
      requires State().Ready() && 2 <= c < Held()
      modifies this`cached, image`position
      ensures k < |cached| && cached[k].num == c && cached[k].data == Vol().data[c]
      ensures State().Ready() && Vol() == old(Vol())
    {
      k := FindCached(c);
      if k == |cached| {
        var data := LoadCluster(c);
        FetchKeeps(layout, Held(), fat.Length, cached, image.sectors, c);
        cached := cached + [Cluster(c, data)];
      }
      FindUnique(layout, Held(), cached, k);
    }

    /** FatSearch, on a chain that it does not leave. */
    method FatSearch(first: Word, hops: nat, ghost cs: seq<Word>) returns (c: Word)
      requires IsChain(fat[..], cs) && cs[0] == first && hops <= |cs|
      ensures c == Hop(fat[..], first, hops)
    {
      c := first;
      for i := 0 to hops
        invariant Hop(fat[..], first, hops) == Hop(fat[..], c, hops - i)
        invariant i < |cs| ==> c == cs[i]
      {
        if c == FREE || c >= END_MARK { return LAST; }
        assert i + 1 < |cs| ==> Linked(fat[..], cs, i);
        c := fat[c];
      }
    }

    /** n bytes of a cluster, by way of the cache. */
    method CopyOut(c: Word, offset: nat, n: nat) returns (piece: seq<Byte>)
      requires State().Ready() && 2 <= c < Held() && offset + n <= |Vol().data[c]|
      modifies this`cached, image`position
      ensures State().Ready() && Vol() == old(Vol()) && piece == Vol().data[c][offset..offset + n]
    {
      var k := Fetch(c);
      piece := cached[k].data[offset..offset + n];
    }

    /** One turn of VMFileRead's loop. */
    method ReadOne(num: Word, offset: nat, want: nat, rest: nat, data: seq<Byte>, ghost chain: seq<Word>,
          ghost all: seq<Byte>)
      returns (piece: seq<Byte>, more: bool, next: Word, ghost tail: seq<Word>)
      requires State().Ready() && want > 0 && rest > 0
               && ReadingOn(all, Vol(), Held(), chain, num, offset, want, rest, data)
      modifies this`cached, image`position
      ensures State().Ready() && Vol() == old(Vol()) && 0 < |piece| <= want && |piece| <= rest
      ensures !more ==> all == data + piece
      ensures more ==> want > |piece| && rest > |piece|
      ensures more ==> ReadingOn(all, Vol(), Held(), tail, next, 0, want - |piece|, rest - |piece|, data + piece)
    {
      hide Block, Room, CacheOk, Reach, Hop, ReadLoop;
      ghost var v := Vol();
      var amount := Min(layout.ClusterSize() - offset, rest);
      OnwardChain(v, Held(), chain);
      piece := CopyOut(num, offset, Min(want, amount));
      ReadTurnBehind(v, chain, offset, want, rest, data, piece);
      more, next, tail := want > amount && rest > amount && fat[num] < END_MARK, fat[num], chain[1..];
    }

    /** VMFileRead's loop, from offset off of cluster c: `length` bytes are asked for and `left`
        are left in the file. */
    method ReadClusters(c: Word, off: nat, length: nat, left: nat, ghost ds: seq<Word>) returns (data: seq<Byte>)
      requires State().Ready()
      requires length > 0 && left > 0 ==>
                 ReadingOn(ReadOnward(Vol(), c, off, length, left), Vol(), Held(), ds, c, off, length, left, [])
      modifies this`cached, image`position
      ensures State().Ready() && Vol() == old(Vol())
      ensures data == ReadOnward(old(Vol()), c, off, length, left)
    {
      ghost var v, chain, all := Vol(), ds, ReadOnward(Vol(), c, off, length, left);
      data := [];
      var num, offset: nat, want: nat, rest: nat, more := c, off, length, left, length > 0 && left > 0;
      while more
        invariant State().Ready() && Vol() == v
        invariant if more
                  then want > 0 && rest > 0 && ReadingOn(all, v, Held(), chain, num, offset, want, rest, data)
                  else all == data
        decreases want, more
      {
        var piece;
        piece, more, num, chain := ReadOne(num, offset, want, rest, data, chain, all);
        data, offset, want, rest := data + piece, 0, want - |piece|, rest - |piece|;
      }
    }

    /** Bytes copied into a cluster, by way of the cache. */
    method CopyIn(c: Word, offset: nat, bytes: seq<Byte>)
      requires State().Ready() && 2 <= c < Held() && offset + |bytes| <= |Vol().data[c]|
      modifies this`cached, image`position
      ensures State().Ready() && Vol() == Put(old(Vol()), c, offset, bytes)
    {
      ghost var v := Vol();
      var k := Fetch(c);
      var data := Splice(cached[k].data, offset, bytes);
      StoreUpdates(layout, Held(), fat.Length, cached, image.sectors, k, data);
      cached := cached[k := cached[k].(data := data)];
      assert Vol().data == v.data[c := data];
    }

    /** The write loop's search for a free cluster to link behind num. */
    method LinkFree(num: Word)
      requires num < fat.Length <= END_MARK
      modifies fat
      ensures fat[..] == Extend(old(fat[..]), num)
    {
      ghost var before := fat[..];
      for i := 0 to fat.Length
        invariant fat[..] == before && FirstFree(before, 0) == FirstFree(before, i)
      {
        if fat[i] == FREE {
          fat[num] := i;
          fat[i] := LAST;
          return;
        }
      }
    }

    /** The step from one cluster to the next, with a new one linked behind the last. */
    method NextCluster(num: Word) returns (stop: bool, next: Word)
      requires State().Ready() && num < fat.Length <= END_MARK
      modifies fat
      ensures State().Ready() && Vol() == Linked_(old(Vol()), num) && stop == Stops(old(Vol()), num)
      ensures next == Vol().fat[num]
    {
      stop := false;
      if fat[num] >= END_MARK {
        LinkFree(num);
        stop := fat[num] >= WRITE_GUARD;
      }
      next := fat[num];
    }

    /** One turn of VMFileWrite's loop with more message than cluster: the cluster is filled, and
        the loop goes on at the start of cluster next or stops. */
    method WriteFull(num: Word, offset: nat, rest: seq<Byte>, ghost chain: seq<Word>, ghost total: (Volume, nat),
          ghost written: nat)
      returns (stop: bool, next: Word)
      requires State().Ready() && WritingOn(total, Vol(), Held(), chain, num, offset, rest, written)
      requires |rest| > layout.ClusterSize() - offset
      modifies this`cached, image`position, fat
      ensures State().Ready()
      ensures var room := layout.ClusterSize() - offset;
              if stop then total == (Vol(), written + room)
              else WritingOn(total, Vol(), Held(), if |chain| > 1 then chain[1..] else [next],
                             next, 0, rest[room..], written + room)
    {
      hide IsChain, ComesTo, Shape, Block, Room, Extend, CacheOk, Reach, Hop;
      ghost var v := Vol();
      WriteMoves(total, v, Held(), chain, num, offset, rest, written);
      CopyIn(num, offset, rest[..layout.ClusterSize() - offset]);
      ghost var v1 := Fill(v, num, offset, rest);
      assert Vol() == v1;
      stop, next := NextCluster(num);
    }

    /** The last turn of VMFileWrite's loop: the rest of the message fits. */
    method WriteLast(num: Word, offset: nat, rest: seq<Byte>, ghost chain: seq<Word>, ghost total: (Volume, nat),
          ghost written: nat)
      requires State().Ready() && WritingOn(total, Vol(), Held(), chain, num, offset, rest, written)
      requires |rest| <= layout.ClusterSize() - offset
      modifies this`cached, image`position
      ensures State().Ready() && total == (Vol(), written + |rest|)
    {
      StartWithin(total, Vol(), Held(), chain, num, offset, rest, written);
      WriteTurnBehind(total, Vol(), chain, offset, rest, written);
      CopyIn(num, offset, rest);
      assert rest[..|rest|] == rest;
    }

    /** One turn of VMFileWrite's loop: n bytes go to cluster num. */
    method WriteOne(num: Word, offset: nat, rest: seq<Byte>, ghost chain: seq<Word>, ghost total: (Volume, nat),
          ghost written: nat)
      returns (n: nat, more: bool, next: Word, ghost tail: seq<Word>)
      requires State().Ready() && WritingOn(total, Vol(), Held(), chain, num, offset, rest, written)
      modifies this`cached, image`position, fat
      ensures State().Ready() && 0 < n <= |rest|
      ensures !more ==> total.0 == Vol() && total.1 == written + n
      ensures more ==> n < |rest| && WritingOn(total, Vol(), Held(), tail, next, 0, rest[n..], written + n)
    {
      hide IsChain, ComesTo, Shape, Block, Room, Extend, CacheOk, Reach, Hop;
      var room := layout.ClusterSize() - offset;
      if |rest| <= room {
        WriteLast(num, offset, rest, chain, total, written);
        n, more, next, tail := |rest|, false, num, [];
      } else {
        var stop;
        stop, next := WriteFull(num, offset, rest, chain, total, written);
        n, more, tail := room, !stop, if |chain| > 1 then chain[1..] else [next];
      }
    }

    /** VMFileWrite's loop, from offset off of cluster c. */
    method WriteClusters(c: Word, off: nat, msg: seq<Byte>, ghost ds: seq<Word>) returns (written: nat)
      requires State().Ready()
      requires msg != [] ==> WritingOn(WriteOnward(Vol(), c, off, msg), Vol(), Held(), ds, c, off, msg, 0)
      modifies this`cached, image`position, fat
      ensures State().Ready()
      ensures WriteOnward(old(Vol()), c, off, msg).0 == Vol() && WriteOnward(old(Vol()), c, off, msg).1 == written
    {
      ghost var w, chain := Vol(), ds;
      ghost var total := WriteOnward(w, c, off, msg);
      written := 0;
      var num, offset: nat, rest, more := c, off, msg, msg != [];
      while more
        invariant State().Ready() && Vol() == w
        invariant if more then rest != [] && WritingOn(total, w, Held(), chain, num, offset, rest, written)
                  else total.0 == w && total.1 == written
        decreases |rest|, more
      {
        var n;
        n, more, num, chain := WriteOne(num, offset, rest, chain, total, written);
        w, written, offset, rest := Vol(), written + n, 0, rest[n..];
      }
    }

    // ----- the file calls -----

    ghost predicate Valid()
      reads this, image, fat, root
    {
      State().Ready() && layout.ClusterSize() < 0x1_0000 && OpenOk(root[..], open)
    }

    ghost function Table(): FileTable
      requires Valid()
      reads this, image, fat, root
    {
      FileTable(Vol(), FilesOf(root[..], open))
    }

    /** VMFileRead's walk and loop, when the pointer is at offset off of the cluster k links down. */
    method ReadFrom(first: Word, k: nat, off: nat, length: nat, left: nat, ghost cs: seq<Word>)
      returns (data: seq<Byte>)
      requires State().Ready() && IsChain(fat[..], cs) && cs[0] == first && k <= |cs| && off < layout.ClusterSize()
      requires ReadsFrom(Vol(), Held(), cs, k, Hop(fat[..], first, k), off, length, left)
      modifies this`cached, image`position
      ensures State().Ready() && Vol() == old(Vol())
      ensures data == ReadLoop(old(Vol()), Hop(fat[..], first, k), off, length, left)
    {
      var num := FatSearch(first, k, cs);
      data := ReadClusters(num, off, length, left, if k < |cs| then cs[k..] else []);
    }

    /** VMFileRead */
    method FileRead(i: nat, length: nat) returns (data: seq<Byte>)
      requires Valid() && i < |open| && TableOk(Table()) && OnVolume(Table(), Held())
      modifies this`cached, this`open, image`position
      ensures Valid()
      ensures data == Read(old(Table()), i, length).0
      ensures Table() == Read(old(Table()), i, length).1
    {
      hide IsChain, Block, Room, Before, Offset, CacheOk, Reach, Hop, ReadLoop, Flat;
      ghost var t := Table();
      var f, size := open[i], layout.ClusterSize();
      var k, off := Before(f.ptr, size), Offset(f.ptr, size);
      var first, filesize := EntryFirst(root[..], f.entry), EntrySize(root[..], f.entry);
      assert t.files[i] == File(first, filesize, f.ptr);
      Position(t, i);
      ReadStarts(t, Held(), i, k, off, length);
      data := ReadFrom(first, k, off, length, filesize - f.ptr, Chain(t, i));
      ReadAtIs(t, i, k, off, length, Hop(fat[..], first, k), data);
      MovePointer(i, f.ptr + |data|);
    }

    /** A store of b into the root directory at byte `at` of entry e. */
    method StoreIn(e: nat, at: nat, b: seq<Byte>)
      requires HasEntry(root[..], e) && at + |b| <= 32
      modifies root
      ensures Replaced(old(root[..]), e * 32 + at, b, root[..])
    {
      for k := 0 to |b|
        invariant Replaced(old(root[..]), e * 32 + at, b[..k], root[..])
      {
        root[e * 32 + at + k] := b[k];
      }
      assert b[..|b|] == b;
    }

    /** The end of a write: the pointer moves. */
    method MovePointer(i: nat, p: nat)
      requires Valid() && i < |open|
      modifies this`open
      ensures Valid() && |open| == old(|open|)
      ensures Table() == old(Table()).(files := old(Table()).files[i := old(Table()).files[i].(ptr := p)])
    {
      ghost var files := FilesOf(root[..], open);
      open := open[i := open[i].(ptr := p)];
      assert FilesOf(root[..], open) == files[i := files[i].(ptr := p)];
    }

    method SetSize(i: nat, size: nat)
      requires Valid() && i < |open| && size < 0x1_0000_0000
      modifies root
      ensures Valid() && Table() ==
                old(Table()).(files := old(Table()).files[i := old(Table()).files[i].(size := size)])
    {
      ghost var before := root[..];
      StoreIn(open[i].entry, 28, Bytes(size, 4));
      SizeReplaced(before, open, i, size, root[..]);
    }

    /** The end of a write: the size follows the pointer when the pointer has passed it. */
    method MoveOn(i: nat, n: nat)
      requires Valid() && i < |open| && open[i].ptr + n < 0x1_0000_0000
      modifies this`open, root
      ensures Valid() && Vol() == old(Vol())
      ensures var f := old(Table()).files[i];
              Table().files ==
                old(Table()).files[i := File(f.first, if f.ptr + n > f.size then f.ptr + n else f.size, f.ptr + n)]
    {
      var p := open[i].ptr + n;
      var filesize := EntrySize(root[..], open[i].entry);
      ghost var files := FilesOf(root[..], open);
      MovePointer(i, p);
      if p > filesize { SetSize(i, p); }
      assert Table().files == files[i := File(files[i].first, if p > filesize then p else filesize, p)];
    }

    /** VMFileWrite, when the pointer is at offset off of the cluster k links down. */
    method WriteAtPosition(i: nat, k: nat, off: nat, msg: seq<Byte>, ghost cs: seq<Word>) returns (n: nat)
      requires Valid() && i < |open| && IsChain(fat[..], cs) && cs[0] == EntryFirst(root[..], open[i].entry) && k < |cs|
      requires WritingOn(WriteOnward(Vol(), cs[k], off, msg), Vol(), Held(), cs[k..], cs[k], off, msg, 0)
      requires open[i].ptr + WriteLoop(Vol(), cs[k], off, msg).1 < 0x1_0000_0000
      modifies this`cached, this`open, image`position, fat, root
      ensures Valid()
      ensures n == WriteAt(old(Table()), i, k, off, msg).0
      ensures Table() == WriteAt(old(Table()), i, k, off, msg).1
    {
      hide Extent, Reach, CacheOk, Within, Find, Blocks, WriteLoop, Hop;
      ghost var t := Table();
      HopWalksChain(fat[..], cs, k);
      var num := FatSearch(EntryFirst(root[..], open[i].entry), k, cs);
      n := WriteClusters(num, off, msg, cs[k..]);
      WriteAtIs(t, i, k, off, msg, num, (Vol(), n));
      MoveOn(i, n);
    }

    /** VMFileWrite */
    method FileWrite(i: nat, msg: seq<Byte>) returns (n: nat)
      requires Valid() && i < |open| && TableOk(Table()) && OnVolume(Table(), Held())
      requires msg == [] || Table().files[i].ptr < |Flat(Vol(), Chain(Table(), i))|
      requires msg == [] || NewClusters(Table(), i, |msg|) <= FreeBelow(fat[..], Held())
      modifies this`cached, this`open, image`position, fat, root
      ensures Valid()
      ensures n == Write(old(Table()), i, msg).0
      ensures Table() == Write(old(Table()), i, msg).1
    {
      if msg == [] {
        WriteNothing(Table(), i);
        return 0;
      }
      var ptr, size := open[i].ptr, layout.ClusterSize();
      Position(Table(), i);
      WriteStarts(Table(), Held(), i, Before(ptr, size), Offset(ptr, size), msg);
      n := WriteAtPosition(i, Before(ptr, size), Offset(ptr, size), msg, Chain(Table(), i));
    }

    /** Opening a file that exists. */
    method OpenExisting(i: nat, truncate: bool, append: bool)
      requires Valid() && i < |open|
      modifies this`open, root
      ensures Valid() && Table() == Open(old(Table()), i, truncate, append)
    {
      ghost var t := Table();
      if truncate { SetSize(i, 0); }
      ghost var f := t.files[i].(size := if truncate then 0 else t.files[i].size);
      assert Table().files == t.files[i := f];
      var filesize := EntrySize(root[..], open[i].entry);
      assert Table().files[i] == FileOf(root[..], open[i]);
      MovePointer(i, if append then filesize else 0);
      assert Table().files == t.files[i := f.(ptr := if append then filesize else 0)];
    }

    /** The end of createRootEntry: the size is cleared, and the first free cluster is taken and
        noted in the entry. */
    method FillEntry(e: nat)
      requires OpenOk(root[..], open) && HasEntry(root[..], e) && (forall i :: 0 <= i < |open| ==> open[i].entry != e)
      requires fat.Length <= END_MARK
      modifies fat, root
      ensures OpenOk(root[..], open + [OpenFile(e, 0)])
      ensures var i, stale := FirstFree(old(fat[..]), 0), old(EntryFirst(root[..], e));
              && fat[..] == (if i < fat.Length then old(fat[..])[i := LAST] else old(fat[..]))
              && FilesOf(root[..], open + [OpenFile(e, 0)]) ==
                 old(FilesOf(root[..], open)) + [File(if i < fat.Length then i else stale, 0, 0)]
    {
      ghost var before := root[..];
      ClearSize(e);
      ghost var mid := root[..];
      var found, i := TakeFree();
      if found { NoteCluster(e, i, before); }
    }

    method ClearSize(e: nat)
      requires OpenOk(root[..], open) && HasEntry(root[..], e) && (forall i :: 0 <= i < |open| ==> open[i].entry != e)
      modifies root
      ensures Cleared(old(root[..]), e, root[..]) && OpenOk(root[..], open + [OpenFile(e, 0)])
      ensures FilesOf(root[..], open + [OpenFile(e, 0)]) ==
              old(FilesOf(root[..], open)) + [File(old(EntryFirst(root[..], e)), 0, 0)]
    {
      ghost var before := root[..];
      var zero := Bytes(0, 4);
      BytesOfWord(0);
      StoreIn(e, 28, zero);
      ClearedEntry(before, e, zero, root[..]);
      EntryCreated(before, open, e, root[..], File(EntryFirst(before, e), 0, 0));
      assert ClearedBy(before, e, zero, root[..]);
    }

    /** Creating a file in entry e and opening it. */
    method CreateFile(e: nat)
      requires Valid() && HasEntry(root[..], e) && (forall i :: 0 <= i < |open| ==> open[i].entry != e)
      requires fat.Length <= END_MARK
      modifies this`open, fat, root
      ensures Valid() && Table() == Create(old(Table()), old(EntryFirst(root[..], e)))
    {
      FillEntry(e);
      open := open + [OpenFile(e, 0)];
    }

    /** The four-byte store of the first cluster. */
    method NoteCluster(e: nat, i: Word, ghost before: seq<Byte>)
      requires OpenOk(before, open) && HasEntry(before, e) && (forall j :: 0 <= j < |open| ==> open[j].entry != e)
      requires Cleared(before, e, root[..])
      modifies root
      ensures OpenOk(root[..], open + [OpenFile(e, 0)])
      ensures FilesOf(root[..], open + [OpenFile(e, 0)]) == FilesOf(before, open) + [File(i, 0, 0)]
    {
      ghost var mid := root[..];
      var b := Wide(i);
      StoreIn(e, 26, b);
      EntryNoted(before, open, e, mid, i, b, root[..]);
    }

    /** createRootEntry's search for a first cluster. */
    method TakeFree() returns (found: bool, i: nat)
      requires fat.Length <= END_MARK
      modifies fat
      ensures i == FirstFree(old(fat[..]), 0) && found == (i < fat.Length)
      ensures fat[..] == if found then old(fat[..])[i := LAST] else old(fat[..])
    {
      i := 0;
      while i < fat.Length
        invariant i <= fat.Length && fat[..] == old(fat[..]) && FirstFree(fat[..], 0) == FirstFree(fat[..], i)
      {
        if fat[i] == FREE {
          fat[i] := LAST;
          return true, i;
        }
        i := i + 1;
      }
      found := false;
    }

    /** VMFileSeek */
    method FileSeek(i: nat, offset: int, whence: Whence) returns (position: nat)
      requires Valid() && i < |open|
      modifies this`open
      ensures Valid()
      ensures Table() == Seek(old(Table()), i, offset, whence) && position == Table().files[i].ptr
    {
      position := Target(EntrySize(root[..], open[i].entry), open[i].ptr, offset, whence);
      MovePointer(i, position);
    }

    // ----- shutting down -----

    /** deleteCachedCluster */
    method WriteCluster(x: Cluster)
      requires Reach(layout, Held(), image.sectors) && 2 <= x.num < Held() && |x.data| == layout.ClusterSize()
      modifies image
      ensures image.sectors == FlushOne(layout, old(Held()), x, old(image.sectors))
    {
      OnDiskLength(layout, Held(), image.sectors, x.num);
      RoomIsProduct(layout.sectorsPerCluster, 512);
      ghost var before, s := image.sectors, layout.SectorOf(x.num);
      image.Seek(layout.SectorOf(x.num));
      for i := 0 to layout.sectorsPerCluster
        invariant image.sectors == Scatter(before, s, x.data, i) && image.position == s + i
      {
        image.WriteSector(Piece(x.data, i));
      }
    }

    method FlushClusters()
      requires State().Ready()
      modifies image
      ensures image.sectors == FlushCache(layout, old(Held()), cached, old(image.sectors))
    {
      ghost var before, n := image.sectors, Held();
      assert cached[0..] == cached;
      for i := 0 to |cached|
        invariant Reach(layout, n, image.sectors) && CacheOk(layout, n, cached[i..])
        invariant FlushCache(layout, n, cached[i..], image.sectors) == FlushCache(layout, n, cached, before)
      {
        TailCacheOk(layout, n, cached[i..]);
        assert cached[i..][0] == cached[i] && cached[i..][1..] == cached[i + 1..];
        WriteCluster(cached[i]);
      }
    }

    /** writeSector */
    method WriteSectorAt(s: nat, b: seq<Byte>)
      requires s < |image.sectors|
      modifies image
      ensures image.sectors == old(image.sectors)[s := b]
    {
      image.Seek(s);
      image.WriteSector(b);
    }

    /** The destructor's loop over the table. */
    method FlushTable(reserved: nat, fatSize: nat)
      requires fatSize * 256 <= fat.Length && reserved + SECOND_COPY + fatSize <= |image.sectors|
      modifies image
      ensures image.sectors == StoreFat(reserved, fat[..], old(image.sectors), fatSize)
    {
      ghost var before := image.sectors;
      for i := 0 to fatSize
        invariant image.sectors == StoreFat(reserved, fat[..], before, i)
      {
        var b := Packed(fat[i * 256..i * 256 + 256]);
        assert fat[i * 256..i * 256 + 256] == Words(fat[..], i);
        WriteSectorAt(reserved + i, b);
        WriteSectorAt(reserved + SECOND_COPY + i, b);
      }
    }

    /** The destructor's loop over the root directory. */
    method FlushRoot(first: nat, sectors: nat)
      requires sectors * 512 <= root.Length && first + sectors <= |image.sectors|
      modifies image
      ensures image.sectors == Scatter(old(image.sectors), first, root[..], sectors)
    {
      ghost var before := image.sectors;
      for i := 0 to sectors
        invariant image.sectors == Scatter(before, first, root[..], i)
      {
        assert root[i * 512..i * 512 + 512] == Piece(root[..], i);
        WriteSectorAt(first + i, root[i * 512..i * 512 + 512]);
      }
    }

    /** What shutting down does to the image. */
    method WriteBack()
      requires State().Ok(g)
      modifies image
      ensures image.sectors == Shutdown(g, old(State()))
    {
      ghost var m := State();
      FlushClusters();
      FlushTable(g.reserved, g.fatSize);
      assert image.sectors == BeforeRoot(g, m);
      FlushRoot(g.FirstRoot(), g.RootSectors());
    }
  }

  lemma ReadAtIs(t: FileTable, i: nat, k: nat, off: nat, length: nat, num: Word, data: seq<Byte>)
    requires i < |t.files| && off < t.vol.clusterSize && t.files[i].ptr <= t.files[i].size
    requires num == Hop(t.vol.fat, t.files[i].first, k)
    requires data == ReadLoop(t.vol, num, off, length, t.files[i].size - t.files[i].ptr)
    ensures ReadAt(t, i, k, off, length) ==
              (data, t.(files := t.files[i := t.files[i].(ptr := t.files[i].ptr + |data|)]))
  {}

  lemma WriteAtIs(t: FileTable, i: nat, k: nat, off: nat, msg: seq<Byte>, num: Word, r: (Volume, nat))
    requires i < |t.files| && off < t.vol.clusterSize && num == Hop(t.vol.fat, t.files[i].first, k)
    requires r == WriteLoop(t.vol, num, off, msg)
    ensures var f, p := t.files[i], t.files[i].ptr + r.1;
            WriteAt(t, i, k, off, msg) ==
              (r.1, FileTable(r.0, t.files[i := File(f.first, if p > f.size then p else f.size, p)]))
  {}

  /** The read loop can start at cluster num, and does what the specification's loop does. */
  ghost predicate ReadsFrom(v: Volume, n: nat, cs: seq<Word>, k: nat, num: Word, off: nat, length: nat, left: nat)
    requires k <= |cs| && off < v.clusterSize
  {
    && ReadOnward(v, num, off, length, left) == ReadLoop(v, num, off, length, left)
    && (length > 0 && left > 0 ==>
         k < |cs| && ReadingOn(ReadOnward(v, num, off, length, left), v, n, cs[k..], num, off, length, left, []))
  }

  lemma ReadStarts(t: FileTable, n: nat, i: nat, k: nat, off: nat, length: nat)
    requires TableOk(t) && OnVolume(t, n) && i < |t.files| && At(t, i, k, off)
    ensures var v, cs, f := t.vol, Chain(t, i), t.files[i];
            && IsChain(v.fat, cs) && cs[0] == f.first && k <= |cs| && off < v.clusterSize && f.ptr <= f.size
            && ReadsFrom(v, n, cs, k, Hop(v.fat, cs[0], k), off, length, f.size - f.ptr)
  {
    var v, cs := t.vol, Chain(t, i);
    if k < |cs| {
      SuffixIsChain(v.fat, cs, k);
      assert cs[k..][0] == cs[k];
      assert cs == cs[..k] + cs[k..];
      WithinConcat(cs[..k], cs[k..], n);
    }
  }

  /** The write loop's start, that it does what the specification's does, and that the new size
      fits its four bytes. */
  lemma WriteStarts(t: FileTable, n: nat, i: nat, k: nat, off: nat, msg: seq<Byte>)
    requires TableOk(t) && OnVolume(t, n) && i < |t.files| && At(t, i, k, off) && k < |Chain(t, i)|
             && t.vol.clusterSize < 0x1_0000
    requires NewClusters(t, i, |msg|) <= FreeBelow(t.vol.fat, n)
    ensures var v, cs := t.vol, Chain(t, i);
            && WriteOnward(v, cs[k], off, msg) == WriteLoop(v, cs[k], off, msg)
            && k < |cs| && IsChain(v.fat, cs) && cs[0] == t.files[i].first && off < v.clusterSize
            && (msg != [] ==> WritingOn(WriteOnward(v, cs[k], off, msg), v, n, cs[k..], cs[k], off, msg, 0))
            && t.files[i].ptr + WriteLoop(v, cs[k], off, msg).1 < 0x1_0000_0000
  {
    var v, cs := t.vol, Chain(t, i);
    SuffixIsChain(v.fat, cs, k);
    assert cs[k..][0] == cs[k];
    WriteAtChain(t, i, k, off, msg);
    WriteAtBytes(t, i, k, off, msg);
    WriteFromGrows(v, cs, k, off, msg);
    ChainBytesFit(WriteAt(t, i, k, off, msg).1.vol, Chain(WriteAt(t, i, k, off, msg).1, i));
    WriteAtLinks(t, i, k, off, msg, n);
    WithinConcat(cs[..k], ChainAfter(v, cs[k..], off, msg), n);
  }

  lemma BytesOfWord(i: nat)
    requires i < 0x1_0000
    ensures var b := Bytes(i, 4); Pair(b[0], b[1]) == i && b[2] == 0 && b[3] == 0
  {
    var h := i / 0x100;
    assert Bytes(i, 4) == [i % 0x100] + ([h % 0x100] + Bytes(h / 0x100, 2));
    assert h / 0x100 == 0 && h % 0x100 == h;
    assert Bytes(0, 2) == [0] + Bytes(0, 1);
  }

  /** A cluster number as four bytes. */
  method Wide(i: Word) returns (b: seq<Byte>)
    ensures IsWide(i, b)
  {
    BytesOfWord(i);
    b := Bytes(i, 4);
  }

  predicate IsWide(i: Word, b: seq<Byte>) { |b| == 4 && Pair(b[0], b[1]) == i && b[2] == 0 && b[3] == 0 }

  lemma EntryNoted(before: seq<Byte>, open: seq<OpenFile>, e: nat, mid: seq<Byte>, i: Word, b: seq<Byte>,
        after: seq<Byte>)
    requires OpenOk(before, open) && HasEntry(before, e) && (forall j :: 0 <= j < |open| ==> open[j].entry != e)
    requires Cleared(before, e, mid) && IsWide(i, b) && Replaced(mid, e * 32 + 26, b, after)
    ensures OpenOk(after, open + [OpenFile(e, 0)])
    ensures FilesOf(after, open + [OpenFile(e, 0)]) == FilesOf(before, open) + [File(i, 0, 0)]
  {
    var zero :| ClearedBy(before, e, zero, mid);
    FreshEntry(before, e, mid, zero, b, after);
    EntryCreated(before, open, e, after, File(i, 0, 0));
  }

  /** What createRootEntry's first store leaves in the entry. */
  lemma ClearedEntry(before: seq<Byte>, e: nat, b: seq<Byte>, after: seq<Byte>)
    requires HasEntry(before, e) && |b| == 4 && Pair(b[0], b[1]) == 0 && b[2] == 0 && b[3] == 0
    requires Replaced(before, e * 32 + 28, b, after)
    ensures FileOf(after, OpenFile(e, 0)) == File(EntryFirst(before, e), 0, 0)
  {
    assert after[e * 32 + 26] == before[e * 32 + 26] && after[e * 32 + 27] == before[e * 32 + 27];
    assert after[e * 32 + 28] == b[0] && after[e * 32 + 29] == b[1];
    assert after[e * 32 + 30] == b[2] && after[e * 32 + 31] == b[3];
  }

  /** What the second one adds. It is four bytes wide, and its high half clears the low half of the
      size again. */
  lemma FreshEntry(before: seq<Byte>, e: nat, mid: seq<Byte>, b0: seq<Byte>, b: seq<Byte>, after: seq<Byte>)
    requires HasEntry(before, e) && |b| == |b0| == 4 && b[2] == b[3] == b0[2] == b0[3] == 0
    requires Replaced(before, e * 32 + 28, b0, mid) && Replaced(mid, e * 32 + 26, b, after)
    ensures OnlyIn(before, e, after)
    ensures FileOf(after, OpenFile(e, 0)) == File(Pair(b[0], b[1]), 0, 0)
  {
    assert after[e * 32 + 26] == b[0] && after[e * 32 + 27] == b[1];
    assert after[e * 32 + 28] == b[2] && after[e * 32 + 29] == b[3];
    assert after[e * 32 + 30] == mid[e * 32 + 30] == b0[2] && after[e * 32 + 31] == mid[e * 32 + 31] == b0[3];
  }
}
