/** The mounted volume as it is stored: sectors on the disk image, the allocation table and the
    root directory in memory, and a write-back cache of clusters. Shutting down writes the cache,
    both copies of the table and the root back; mounting reads them again. A sector has 512 bytes
    or 256 table entries, and a directory entry 32 bytes. */
module FatDisk {
  import opened Fat

  /** The distance of the second copy of the table from the first, in sectors. */
  const SECOND_COPY: nat := 17

  type Disk = seq<seq<Byte>>

  datatype Cluster = Cluster(num: Word, data: seq<Byte>)

  /** Where the clusters are: the first sector of the data region, and how many sectors each has. */
  datatype Layout = Layout(firstData: nat, sectorsPerCluster: nat)
  {
    function ClusterSize(): nat { Room(sectorsPerCluster, 512) }

    /** The first sector of a cluster. */
    function SectorOf(c: nat): nat
      requires c >= 2
    {
      firstData + Room(c - 2, sectorsPerCluster)
    }
  }

  /** Room is multiplication, so this is the program's seek position. */
  lemma SeekPosition(l: Layout, c: nat)
    requires c >= 2
    ensures l.SectorOf(c) * 512 == l.firstData * 512 + (c - 2) * l.sectorsPerCluster * 512
    ensures l.ClusterSize() == l.sectorsPerCluster * 512
  {
    RoomIsProduct(c - 2, l.sectorsPerCluster);
    RoomIsProduct(l.sectorsPerCluster, 512);
  }

  ghost predicate DiskOk(d: Disk) { forall s :: 0 <= s < |d| ==> |d[s]| == 512 }

  /** How many cluster numbers a volume has, of the table's entries: the numbers below this belong to
      clusters that lie whole on an image of so many sectors. */
  function Extent(l: Layout, entries: nat, sectors: nat): nat {
    if l.sectorsPerCluster == 0 || sectors < l.firstData then 0
    else Min(entries, 2 + Before(sectors - l.firstData, l.sectorsPerCluster))
  }

  lemma ExtentExact(l: Layout, entries: nat, sectors: nat, c: nat)
    requires l.sectorsPerCluster > 0 && l.firstData <= sectors && 2 <= c < entries
    ensures c < Extent(l, entries, sectors) <==> l.SectorOf(c) + l.sectorsPerCluster <= sectors
  {
    BeforeBound(sectors - l.firstData, l.sectorsPerCluster, c - 1);
    RoomAdds(c - 2, 1, l.sectorsPerCluster);
  }

  /** The clusters below n are all on the disk. */
  ghost predicate Reach(l: Layout, n: nat, d: Disk) {
    && DiskOk(d) && l.sectorsPerCluster > 0 && l.firstData <= |d|
    && forall c :: 2 <= c < n ==> l.SectorOf(c) + l.sectorsPerCluster <= |d|
  }

  lemma ExtentReached(l: Layout, entries: nat, d: Disk)
    requires DiskOk(d) && l.sectorsPerCluster > 0 && l.firstData <= |d|
    ensures Reach(l, Extent(l, entries, |d|), d)
  {
    forall c | 2 <= c < Extent(l, entries, |d|) ensures l.SectorOf(c) + l.sectorsPerCluster <= |d| {
      ExtentExact(l, entries, |d|, c);
    }
  }

  // ----- clusters on disk -----

  /** n sectors from s on, as createCachedCluster reads them. */
  function Gather(d: Disk, s: nat, n: nat): seq<Byte>
    requires s + n <= |d|
  {
    if n == 0 then [] else Gather(d, s, n - 1) + d[s + n - 1]
  }

  function Piece(data: seq<Byte>, i: nat): seq<Byte>
    requires i * 512 + 512 <= |data|
  {
    data[i * 512..i * 512 + 512]
  }

  /** n sectors of data written from s on, as deleteCachedCluster does. */
  function Scatter(d: Disk, s: nat, data: seq<Byte>, n: nat): (d': Disk)
    requires s + n <= |d| && n * 512 <= |data|
    ensures |d'| == |d|
  {
    if n == 0 then d else Scatter(d, s, data, n - 1)[s + n - 1 := Piece(data, n - 1)]
  }

  lemma {:induction false} ScatterAt(d: Disk, s: nat, data: seq<Byte>, n: nat)
    requires s + n <= |d| && n * 512 <= |data|
    ensures forall k :: 0 <= k < |d| ==>
              Scatter(d, s, data, n)[k] == if s <= k < s + n then Piece(data, k - s) else d[k]
  {
    if n > 0 { ScatterAt(d, s, data, n - 1); }
  }

  lemma {:induction false} GatherSame(d: Disk, d': Disk, s: nat, n: nat)
    requires s + n <= |d| && s + n <= |d'| && forall k :: s <= k < s + n ==> d'[k] == d[k]
    ensures Gather(d', s, n) == Gather(d, s, n)
  {
    if n > 0 { GatherSame(d, d', s, n - 1); }
  }

  lemma PrefixExtends<T>(a: seq<T>, i: nat, j: nat)
    requires i <= j <= |a|
    ensures a[..i] + a[i..j] == a[..j]
  {}

  lemma {:induction false} GatherPieces(d: Disk, s: nat, data: seq<Byte>, n: nat)
    requires s + n <= |d| && n * 512 <= |data|
    requires forall k :: s <= k < s + n ==> d[k] == Piece(data, k - s)
    ensures Gather(d, s, n) == data[..n * 512]
  {
    if n > 0 {
      GatherPieces(d, s, data, n - 1);
      assert d[s + n - 1] == Piece(data, n - 1);
      PrefixExtends(data, (n - 1) * 512, n * 512);
    }
  }

  /** What a cluster's sectors hold after the cluster was written there. */
  lemma GatherScatter(d: Disk, s: nat, data: seq<Byte>, n: nat)
    requires s + n <= |d| && n * 512 == |data|
    ensures Gather(Scatter(d, s, data, n), s, n) == data
  {
    ScatterAt(d, s, data, n);
    GatherPieces(Scatter(d, s, data, n), s, data, n);
    assert data[..n * 512] == data;
  }

  lemma {:induction false} GatherLength(d: Disk, s: nat, n: nat)
    requires s + n <= |d| && DiskOk(d)
    ensures |Gather(d, s, n)| == n * 512
  {
    if n > 0 { GatherLength(d, s, n - 1); }
  }

  /** Distinct clusters lie in disjoint runs of sectors, all of them in the data region. */
  lemma ClustersApart(l: Layout, c: nat, e: nat)
    requires 2 <= c < e
    ensures l.firstData <= l.SectorOf(c) && l.SectorOf(c) + l.sectorsPerCluster <= l.SectorOf(e)
  {
    RoomAdds(c - 2, 1, l.sectorsPerCluster);
    RoomAdds(c - 1, e - c - 1, l.sectorsPerCluster);
  }

  lemma {:induction false} RoomAdds(a: nat, b: nat, m: nat)
    ensures Room(a + b, m) == Room(a, m) + Room(b, m)
    decreases b
  {
    if b > 0 { RoomAdds(a, b - 1, m); }
  }

  // ----- the cache -----

  /** The place of cluster c in the cache; the cache's length when it is not there. */
  function Find(cached: seq<Cluster>, c: nat): (k: nat)
    ensures k <= |cached| && (k < |cached| ==> cached[k].num == c)
    ensures forall j :: 0 <= j < k ==> cached[j].num != c
  {
    if cached == [] || cached[0].num == c then 0 else 1 + Find(cached[1..], c)
  }

  /** At most one copy of each cluster, all of them whole clusters of the volume. */
  ghost predicate CacheOk(l: Layout, n: nat, cached: seq<Cluster>) {
    && (forall k :: 0 <= k < |cached| ==> 2 <= cached[k].num < n && |cached[k].data| == l.ClusterSize())
    && (forall j, k :: 0 <= j < k < |cached| ==> cached[j].num != cached[k].num)
  }

  function OnDisk(l: Layout, d: Disk, c: nat): seq<Byte> {
    if 2 <= c && l.SectorOf(c) + l.sectorsPerCluster <= |d| then Gather(d, l.SectorOf(c), l.sectorsPerCluster)
    else seq(l.ClusterSize(), _ => 0)
  }

  /** The bytes of a cluster: the cached copy if there is one, what is on the disk if not. */
  function Block(l: Layout, cached: seq<Cluster>, d: Disk, c: nat): seq<Byte> {
    var k := Find(cached, c);
    if k < |cached| then cached[k].data else OnDisk(l, d, c)
  }

  function Blocks(l: Layout, n: nat, cached: seq<Cluster>, d: Disk): seq<seq<Byte>> {
    seq(n, c requires 0 <= c < n => Block(l, cached, d, c))
  }

  lemma FindUnique(l: Layout, n: nat, cached: seq<Cluster>, k: nat)
    requires CacheOk(l, n, cached) && k < |cached|
    ensures Find(cached, cached[k].num) == k
  {}

  lemma {:induction false} FindAppended(cached: seq<Cluster>, x: Cluster, c: nat)
    ensures Find(cached + [x], c) ==
            if Find(cached, c) < |cached| then Find(cached, c) else if x.num == c then |cached| else |cached| + 1
  {
    if cached == [] {
      assert ([x])[1..] == [];
    } else if cached[0].num != c {
      assert (cached + [x])[1..] == cached[1..] + [x];
      FindAppended(cached[1..], x, c);
    }
  }

  lemma OnDiskLength(l: Layout, n: nat, d: Disk, c: nat)
    requires Reach(l, n, d) && 2 <= c < n
    ensures l.firstData <= l.SectorOf(c) && l.SectorOf(c) + l.sectorsPerCluster <= |d|
    ensures |OnDisk(l, d, c)| == l.ClusterSize()
  {
    ClustersApart(l, c, c + 1);
    GatherLength(d, l.SectorOf(c), l.sectorsPerCluster);
    RoomIsProduct(l.sectorsPerCluster, 512);
  }

  /** Bringing a cluster into the cache changes no cluster's bytes. */
  lemma FetchKeeps(l: Layout, n: nat, entries: nat, cached: seq<Cluster>, d: Disk, c: Word)
    requires Reach(l, n, d) && CacheOk(l, n, cached) && Find(cached, c) == |cached| && 2 <= c < n
    ensures CacheOk(l, n, cached + [Cluster(c, OnDisk(l, d, c))])
    ensures Blocks(l, entries, cached + [Cluster(c, OnDisk(l, d, c))], d) == Blocks(l, entries, cached, d)
  {
    OnDiskLength(l, n, d, c);
    forall e | 0 <= e < entries
      ensures Block(l, cached + [Cluster(c, OnDisk(l, d, c))], d, e) == Block(l, cached, d, e) {
      FindAppended(cached, Cluster(c, OnDisk(l, d, c)), e);
    }
  }

  /** Changing a cached copy changes that cluster's bytes and no other's. */
  lemma StoreUpdates(l: Layout, n: nat, entries: nat, cached: seq<Cluster>, d: Disk, k: nat, data: seq<Byte>)
    requires CacheOk(l, n, cached) && k < |cached| && n <= entries
    ensures Blocks(l, entries, cached[k := cached[k].(data := data)], d) ==
              Blocks(l, entries, cached, d)[cached[k].num := data]
  {
    var cached' := cached[k := cached[k].(data := data)];
    forall e | 0 <= e < entries
      ensures Block(l, cached', d, e) == if e == cached[k].num then data else Block(l, cached, d, e) {
      FindUpdated(cached, k, data, e);
      FindUnique(l, n, cached, k);
    }
  }

  lemma FindUpdated(cached: seq<Cluster>, k: nat, data: seq<Byte>, c: nat)
    requires k < |cached|
    ensures Find(cached[k := cached[k].(data := data)], c) == Find(cached, c)
  {
    var cached' := cached[k := cached[k].(data := data)];
    assert forall i :: 0 <= i < |cached| ==> cached'[i].num == cached[i].num;
  }

  // ----- writing the cache back -----

  function FlushOne(l: Layout, n: nat, x: Cluster, d: Disk): (d': Disk)
    requires Reach(l, n, d) && 2 <= x.num < n && |x.data| == l.ClusterSize()
    ensures |d'| == |d| && Reach(l, n, d')
  {
    OnDiskLength(l, n, d, x.num);
    RoomIsProduct(l.sectorsPerCluster, 512);
    ScatterAt(d, l.SectorOf(x.num), x.data, l.sectorsPerCluster);
    Scatter(d, l.SectorOf(x.num), x.data, l.sectorsPerCluster)
  }

  function FlushCache(l: Layout, n: nat, cached: seq<Cluster>, d: Disk): (d': Disk)
    requires Reach(l, n, d) && CacheOk(l, n, cached)
    ensures |d'| == |d| && Reach(l, n, d')
    decreases |cached|
  {
    if cached == [] then d
    else
      TailCacheOk(l, n, cached);
      FlushCache(l, n, cached[1..], FlushOne(l, n, cached[0], d))
  }

  lemma TailCacheOk(l: Layout, n: nat, cached: seq<Cluster>)
    requires CacheOk(l, n, cached) && cached != []
    ensures CacheOk(l, n, cached[1..])
  {
    var t := cached[1..];
    forall j, k | 0 <= j < k < |t| ensures t[j].num != t[k].num { assert cached[j + 1].num != cached[k + 1].num; }
  }

  /** The sectors of other clusters, and those before the data region, are left alone. */
  lemma FlushOneKeeps(l: Layout, n: nat, d: Disk, x: Cluster, c: nat)
    requires Reach(l, n, d) && 2 <= x.num < n && |x.data| == l.ClusterSize() && 2 <= c < n
    ensures OnDisk(l, FlushOne(l, n, x, d), c) == if c == x.num then x.data else OnDisk(l, d, c)
    ensures forall k :: 0 <= k < l.firstData ==> FlushOne(l, n, x, d)[k] == d[k]
  {
    var s, m := l.SectorOf(x.num), l.sectorsPerCluster;
    OnDiskLength(l, n, d, c);
    OnDiskLength(l, n, d, x.num);
    RoomIsProduct(m, 512);
    ScatterAt(d, s, x.data, m);
    if c == x.num {
      GatherScatter(d, s, x.data, m);
    } else {
      if c < x.num { ClustersApart(l, c, x.num); } else { ClustersApart(l, x.num, c); }
      GatherSame(d, Scatter(d, s, x.data, m), l.SectorOf(c), m);
    }
  }

  /** After the write-back every cluster's sectors hold what the cache or the disk held for it. */
  lemma {:induction false} FlushWritesBlocks(l: Layout, n: nat, cached: seq<Cluster>, d: Disk, c: nat)
    requires Reach(l, n, d) && CacheOk(l, n, cached) && 2 <= c < n
    ensures OnDisk(l, FlushCache(l, n, cached, d), c) == Block(l, cached, d, c)
    decreases |cached|
  {
    if cached != [] {
      TailCacheOk(l, n, cached);
      FlushOneKeeps(l, n, d, cached[0], c);
      FlushWritesBlocks(l, n, cached[1..], FlushOne(l, n, cached[0], d), c);
      var k := Find(cached[1..], c);
      assert k < |cached| - 1 ==> cached[1..][k].num == cached[k + 1].num != cached[0].num;
    }
  }

  lemma {:induction false} FlushKeepsFront(l: Layout, n: nat, cached: seq<Cluster>, d: Disk)
    requires Reach(l, n, d) && CacheOk(l, n, cached)
    ensures forall k :: 0 <= k < l.firstData ==> FlushCache(l, n, cached, d)[k] == d[k]
    decreases |cached|
  {
    if cached != [] {
      TailCacheOk(l, n, cached);
      FlushOneKeeps(l, n, d, cached[0], cached[0].num);
      FlushKeepsFront(l, n, cached[1..], FlushOne(l, n, cached[0], d));
    }
  }

  // ----- the table and the root directory -----

  function Pair(lo: Byte, hi: Byte): Word {
    var l: int, h: int := lo, hi;
    l + 0x100 * h
  }

  /** 256 table entries as a sector, little-endian. */
  function Packed(ws: seq<Word>): (b: seq<Byte>)
    requires |ws| == 256
    ensures |b| == 512
  {
    seq(512, k requires 0 <= k < 512 => if k % 2 == 0 then ws[k / 2] % 0x100 else ws[k / 2] / 0x100)
  }

  function Unpacked(b: seq<Byte>): (ws: seq<Word>)
    requires |b| == 512
    ensures |ws| == 256
  {
    seq(256, j requires 0 <= j < 256 => Pair(b[2 * j], b[2 * j + 1]))
  }

  lemma UnpackPacked(ws: seq<Word>)
    requires |ws| == 256
    ensures Unpacked(Packed(ws)) == ws
  {
    var b := Packed(ws);
    forall j | 0 <= j < 256 ensures Unpacked(b)[j] == ws[j] {
      assert b[2 * j] == ws[j] % 0x100 && b[2 * j + 1] == ws[j] / 0x100;
    }
  }

  function Words(fat: seq<Word>, i: nat): seq<Word>
    requires i * 256 + 256 <= |fat|
  {
    fat[i * 256..i * 256 + 256]
  }

  /** The destructor's loop over the table: sector i goes to both copies. */
  function StoreFat(reserved: nat, fat: seq<Word>, d: Disk, n: nat): (d': Disk)
    requires n * 256 <= |fat| && reserved + SECOND_COPY + n <= |d|
    ensures |d'| == |d|
  {
    if n == 0 then d
    else
      var b := Packed(Words(fat, n - 1));
      StoreFat(reserved, fat, d, n - 1)[reserved + n - 1 := b][reserved + SECOND_COPY + n - 1 := b]
  }

  /** Sector k after n turns of that loop. */
  function FatStored(reserved: nat, fat: seq<Word>, d: Disk, n: nat, k: nat): seq<Byte>
    requires n * 256 <= |fat| && k < |d|
  {
    if reserved <= k < reserved + n then Packed(Words(fat, k - reserved))
    else if reserved + SECOND_COPY <= k < reserved + SECOND_COPY + n then Packed(Words(fat, k - reserved - SECOND_COPY))
    else d[k]
  }

  /** Every sector after that loop. A table of more than 17 sectors makes the second copy run over
      the first, but the first is written later and wins. */
  lemma {:induction false} StoreFatAt(reserved: nat, fat: seq<Word>, d: Disk, n: nat)
    requires n * 256 <= |fat| && reserved + SECOND_COPY + n <= |d|
    ensures forall k :: 0 <= k < |d| ==> StoreFat(reserved, fat, d, n)[k] == FatStored(reserved, fat, d, n, k)
  {
    if n > 0 { StoreFatAt(reserved, fat, d, n - 1); }
  }

  function LoadFat(reserved: nat, d: Disk, n: nat): (fat: seq<Word>)
    requires reserved + n <= |d| && DiskOk(d)
    ensures |fat| == n * 256
  {
    if n == 0 then [] else LoadFat(reserved, d, n - 1) + Unpacked(d[reserved + n - 1])
  }

  lemma {:induction false} LoadStoredFat(reserved: nat, d: Disk, n: nat, fat: seq<Word>)
    requires reserved + n <= |d| && DiskOk(d) && n * 256 <= |fat|
    requires forall i :: 0 <= i < n ==> d[reserved + i] == Packed(Words(fat, i))
    ensures LoadFat(reserved, d, n) == fat[..n * 256]
  {
    if n > 0 {
      LoadStoredFat(reserved, d, n - 1, fat);
      assert d[reserved + (n - 1)] == Packed(Words(fat, n - 1));
      UnpackPacked(Words(fat, n - 1));
      PrefixExtends(fat, (n - 1) * 256, n * 256);
    }
  }

  // ----- the boot sector -----

  function Le16(b: seq<Byte>, at: nat): Word
    requires at + 2 <= |b|
  {
    Pair(b[at], b[at + 1])
  }

  datatype Geometry = Geometry(bytesPerSector: nat, sectorsPerCluster: nat, reserved: nat, numFats: nat,
                               rootEntries: nat, fatSize: nat)
  {
    function FirstRoot(): nat { reserved + numFats * fatSize }
    function RootSectors(): nat { rootEntries * 32 / 512 }
    function Clusters(): Layout { Layout(FirstRoot() + RootSectors(), sectorsPerCluster) }

    /** The geometries this project deals with: 512-byte sectors, a reserved sector, a root
        directory of whole sectors, a table that leaves the markers out, and a second copy of the
        table that does not reach the data region. */
    predicate Supported() {
      && bytesPerSector == 512 && 0 < sectorsPerCluster < 128 && reserved > 0 && numFats > 0
      && rootEntries * 32 == RootSectors() * 512 && 0 < fatSize * 256 <= END_MARK
      && reserved + SECOND_COPY + fatSize <= Clusters().firstData
    }
  }

  function GeometryOf(boot: seq<Byte>): Geometry
    requires |boot| == 512
  {
    Geometry(Le16(boot, 11), boot[13], Le16(boot, 14), boot[16], Le16(boot, 17), Le16(boot, 22))
  }

  /** Every table has at least one copy before the root directory. */
  lemma RootBehindTable(g: Geometry)
    requires g.numFats > 0
    ensures g.reserved + g.fatSize <= g.FirstRoot()
  {
    var m := g.numFats - 1;
    assert g.numFats * g.fatSize == m * g.fatSize + g.fatSize && m * g.fatSize >= 0;
  }

  // ----- shutting down and mounting -----

  /** What the program holds of a mounted volume. */
  datatype Mounted = Mounted(layout: Layout, fat: seq<Word>, root: seq<Byte>, cached: seq<Cluster>, disk: Disk)
  {
    /** The cluster numbers of the volume. The table may have more entries. */
    function Held(): nat { Extent(layout, |fat|, |disk|) }

    /** What reading and writing clusters relies on. */
    ghost predicate Ready() { Reach(layout, Held(), disk) && CacheOk(layout, Held(), cached) }

    /** The volume a reader or writer of files works on. */
    function Vol(): Volume { Volume(fat, Blocks(layout, |fat|, cached, disk), layout.ClusterSize()) }

    /** What shutting down and mounting rely on. */
    ghost predicate Ok(g: Geometry) {
      && Ready() && g.Supported() && layout == g.Clusters()
      && |fat| == g.fatSize * 256 && |root| == g.RootSectors() * 512
    }
  }

  /** The disk before the root directory is written: the cached clusters, then both copies of the
      table. */
  function BeforeRoot(g: Geometry, m: Mounted): (d: Disk)
    requires m.Ok(g)
    ensures |d| == |m.disk|
  {
    StoreFat(g.reserved, m.fat, FlushCache(m.layout, m.Held(), m.cached, m.disk), g.fatSize)
  }

  /** Shutdown: then the root directory. */
  function Shutdown(g: Geometry, m: Mounted): (d: Disk)
    requires m.Ok(g)
    ensures |d| == |m.disk|
  {
    Scatter(BeforeRoot(g, m), g.FirstRoot(), m.root, g.RootSectors())
  }

  /** A disk that can be mounted. */
  ghost predicate Mountable(d: Disk) {
    DiskOk(d) && |d| > 0 && GeometryOf(d[0]).Supported() && GeometryOf(d[0]).Clusters().firstData <= |d|
  }

  /** Mounting: the boot sector, the table, the root directory, and an empty cache. */
  function Mount(d: Disk): (m: Mounted)
    requires Mountable(d)
    ensures m.Ok(GeometryOf(d[0])) && m.disk == d && m.cached == []
  {
    var g := GeometryOf(d[0]);
    RootBehindTable(g);
    GatherLength(d, g.FirstRoot(), g.RootSectors());
    ExtentReached(g.Clusters(), g.fatSize * 256, d);
    Mounted(g.Clusters(), LoadFat(g.reserved, d, g.fatSize), Gather(d, g.FirstRoot(), g.RootSectors()), [], d)
  }

  lemma BeforeRootAt(g: Geometry, m: Mounted)
    requires m.Ok(g)
    ensures var d, flushed := BeforeRoot(g, m), FlushCache(m.layout, m.Held(), m.cached, m.disk);
            && d[0] == m.disk[0] && DiskOk(d)
            && (forall i :: 0 <= i < g.fatSize ==> d[g.reserved + i] == Packed(Words(m.fat, i)))
            && (forall k :: m.layout.firstData <= k < |d| ==> d[k] == flushed[k])
  {
    RootBehindTable(g);
    FlushKeepsFront(m.layout, m.Held(), m.cached, m.disk);
    StoreFatAt(g.reserved, m.fat, FlushCache(m.layout, m.Held(), m.cached, m.disk), g.fatSize);
  }

  /** The sectors after shutdown, region by region. */
  lemma ShutdownAt(g: Geometry, m: Mounted)
    requires m.Ok(g)
    ensures var d, flushed := Shutdown(g, m), FlushCache(m.layout, m.Held(), m.cached, m.disk);
            && g.reserved + g.fatSize <= g.FirstRoot() && Reach(m.layout, m.Held(), d) && d[0] == m.disk[0]
            && (forall i :: 0 <= i < g.fatSize ==> d[g.reserved + i] == Packed(Words(m.fat, i)))
            && (forall k :: g.FirstRoot() <= k < m.layout.firstData ==> d[k] == Piece(m.root, k - g.FirstRoot()))
            && (forall k :: m.layout.firstData <= k < |d| ==> d[k] == flushed[k])
  {
    RootBehindTable(g);
    BeforeRootAt(g, m);
    ScatterAt(BeforeRoot(g, m), g.FirstRoot(), m.root, g.RootSectors());
  }

  /** Shutting down and mounting again gives back the same table, the same root directory and the
      same bytes in every cluster: the sectors of each cluster the image has hold what the cache or
      the disk held for it. A number from Held() on has no sectors, and counts as zeros on both sides. */
  lemma ShutdownThenMount(g: Geometry, m: Mounted)
    requires m.Ok(g) && GeometryOf(m.disk[0]) == g
    ensures Mountable(Shutdown(g, m))
    ensures var m' := Mount(Shutdown(g, m));
            && m'.layout == m.layout && m'.fat == m.fat && m'.root == m.root && m'.cached == []
            && Reach(m.layout, m.Held(), m'.disk)
            && (forall c :: 2 <= c < m.Held() ==>
                  Gather(m'.disk, m.layout.SectorOf(c), m.layout.sectorsPerCluster) ==
                    Block(m.layout, m.cached, m.disk, c))
            && forall c :: 0 <= c < |m.fat| ==>
                 Block(m'.layout, m'.cached, m'.disk, c) == Block(m.layout, m.cached, m.disk, c)
  {
    var d, l, n := Shutdown(g, m), m.layout, m.Held();
    ShutdownAt(g, m);
    LoadStoredFat(g.reserved, d, g.fatSize, m.fat);
    assert m.fat[..g.fatSize * 256] == m.fat;
    GatherPieces(d, g.FirstRoot(), m.root, g.RootSectors());
    assert m.root[..g.RootSectors() * 512] == m.root;
    forall c | 0 <= c < |m.fat| ensures OnDisk(l, d, c) == Block(l, m.cached, m.disk, c) {
      if 2 <= c < n {
        FlushWritesBlocks(l, n, m.cached, m.disk, c);
        OnDiskLength(l, n, d, c);
        GatherSame(FlushCache(l, n, m.cached, m.disk), d, l.SectorOf(c), l.sectorsPerCluster);
      } else if c >= 2 {
        ExtentExact(l, |m.fat|, |d|, c);
      }
    }
  }

  /** So no file is any different after a remount. Clusters off the image count as zeros here, too; a
      file whose chain is within Held() has real sectors only. */
  lemma FilesSurviveRemount(g: Geometry, m: Mounted, cs: seq<Word>)
    requires m.Ok(g) && GeometryOf(m.disk[0]) == g && IsChain(m.fat, cs)
    ensures Mountable(Shutdown(g, m))
    ensures var m' := Mount(Shutdown(g, m)); IsChain(m'.fat, cs) && Flat(m'.Vol(), cs) == Flat(m.Vol(), cs)
  {
    ShutdownThenMount(g, m);
    FlatSame(m.Vol(), Mount(Shutdown(g, m)).Vol(), cs);
  }

  /** With 17-sector tables, and two of them, the second copy mirrors the first. */
  lemma SecondCopyMirrors(g: Geometry, m: Mounted)
    requires m.Ok(g) && g.fatSize == 17 && g.numFats == 2
    ensures var d := Shutdown(g, m); forall i :: 0 <= i < g.fatSize ==>
              g.reserved + g.fatSize + i < |d|
              && d[g.reserved + g.fatSize + i] == d[g.reserved + i] == Packed(Words(m.fat, i))
  {
    FlushKeepsFront(m.layout, m.Held(), m.cached, m.disk);
    StoreFatAt(g.reserved, m.fat, FlushCache(m.layout, m.Held(), m.cached, m.disk), g.fatSize);
    ScatterAt(BeforeRoot(g, m), g.FirstRoot(), m.root, g.RootSectors());
  }

  // ----- the bytes of a volume -----

  function Word16(b: seq<Byte>, at: nat): int
    requires at + 2 <= |b|
  {
    var lo: int, hi: int := b[at], b[at + 1];
    lo + 256 * hi
  }

  lemma {:induction false} GatherAt(d: Disk, s: nat, n: nat, k: nat)
    requires s + n <= |d| && DiskOk(d) && k < n * 512
    ensures |Gather(d, s, n)| == n * 512 && Gather(d, s, n)[k] == d[s + k / 512][k % 512]
  {
    GatherLength(d, s, n);
    GatherLength(d, s, n - 1);
    if k < (n - 1) * 512 {
      GatherAt(d, s, n - 1, k);
    } else {
      assert k / 512 == n - 1 && k % 512 == k - (n - 1) * 512;
    }
  }

  lemma {:induction false} LoadFatAt(reserved: nat, d: Disk, n: nat, i: nat)
    requires reserved + n <= |d| && DiskOk(d) && i < n * 256
    ensures LoadFat(reserved, d, n)[i] == Word16(d[reserved + i / 256], 2 * (i % 256))
  {
    if i < (n - 1) * 256 {
      LoadFatAt(reserved, d, n - 1, i);
    } else {
      assert i / 256 == n - 1 && i % 256 == i - (n - 1) * 256;
    }
  }

  /** Mounting, in bytes: what the boot sector's fields say is where the table, the root directory and
      the clusters are, and each entry of the table is the word at its place. */
  lemma MountReadsBytes(d: Disk)
    requires Mountable(d)
    ensures var b, m := d[0], Mount(d);
            var reserved, fats: int, rootEntries, fatSize := Word16(b, 14), b[16], Word16(b, 17), Word16(b, 22);
            var per: int := b[13];
            var rootStart := reserved + fats * fatSize;
            var dataStart := rootStart + rootEntries / 16;
            && Word16(b, 11) == 512 && rootEntries % 16 == 0 && dataStart <= |d| && reserved + fatSize <= rootStart
            && |m.fat| == 256 * fatSize && |m.root| == 32 * rootEntries
            && m.layout.ClusterSize() == 512 * per
            && (forall c: nat :: 2 <= c ==> m.layout.SectorOf(c) == dataStart + (c - 2) * per)
            && (forall i :: 0 <= i < |m.fat| ==> m.fat[i] == Word16(d[reserved + i / 256], 2 * (i % 256)))
            && (forall k :: 0 <= k < |m.root| ==> m.root[k] == d[rootStart + k / 512][k % 512])
  {
    var b, g, m := d[0], GeometryOf(d[0]), Mount(d);
    FieldsInBytes(b);
    RootBehindTable(g);
    assert g.RootSectors() == g.rootEntries / 16;
    RoomIsProduct(g.sectorsPerCluster, 512);
    forall c: nat | 2 <= c ensures m.layout.SectorOf(c) == m.layout.firstData + (c - 2) * g.sectorsPerCluster {
      RoomIsProduct(c - 2, g.sectorsPerCluster);
    }
    forall i | 0 <= i < |m.fat| ensures m.fat[i] == Word16(d[g.reserved + i / 256], 2 * (i % 256)) {
      LoadFatAt(g.reserved, d, g.fatSize, i);
    }
    forall k | 0 <= k < |m.root| ensures m.root[k] == d[g.FirstRoot() + k / 512][k % 512] {
      GatherAt(d, g.FirstRoot(), g.RootSectors(), k);
    }
  }

  lemma FieldsInBytes(b: seq<Byte>)
    requires |b| == 512
    ensures GeometryOf(b) == Geometry(Word16(b, 11), b[13], Word16(b, 14), b[16], Word16(b, 17), Word16(b, 22))
  {}

  /** Which disks can be mounted, in bytes of the boot sector. */
  lemma MountableInBytes(d: Disk)
    requires DiskOk(d) && |d| > 0
    ensures var b := d[0];
            var reserved, fats: int, rootEntries, fatSize := Word16(b, 14), b[16], Word16(b, 17), Word16(b, 22);
            var dataStart := reserved + fats * fatSize + rootEntries / 16;
            Mountable(d) <==>
              && Word16(b, 11) == 512 && 0 < b[13] < 128 && reserved > 0 && fats > 0 && rootEntries % 16 == 0
              && 0 < fatSize * 256 <= 0xFFF7 && reserved + 17 + fatSize <= dataStart <= |d|
  {
    FieldsInBytes(d[0]);
    assert GeometryOf(d[0]).RootSectors() == GeometryOf(d[0]).rootEntries / 16;
  }

  /** After a shutdown the table's words are on the disk, low byte first, in the first copy of the table. */
  lemma ShutdownWritesBytes(g: Geometry, m: Mounted, i: nat)
    requires m.Ok(g) && GeometryOf(m.disk[0]) == g && i < |m.fat|
    ensures var d, b := Shutdown(g, m), m.disk[0];
            var s := Word16(b, 14) + i / 256;
            && d[0] == b && s < |d| && |d[s]| == 512 && Word16(d[s], 2 * (i % 256)) == m.fat[i]
  {
    ShutdownThenMount(g, m);
    MountReadsBytes(Shutdown(g, m));
    ShutdownAt(g, m);
  }

  /** The fields of the boot sector of fat.ima, from byte 11 on, and its size. */
  const SHIPPED_FIELDS: seq<Byte> := [0, 2, 2, 1, 0, 2, 0, 2, 0, 0, 248, 17, 0]
  const SHIPPED_SECTORS: nat := 8259

  /** A disk with those fields can be mounted. Its table has 4352 entries, for the cluster numbers below
      4098 that it has; its root directory begins at sector 35 and its first cluster at sector 67. */
  lemma ShippedExtent(d: Disk)
    requires DiskOk(d) && |d| == SHIPPED_SECTORS && d[0][11..24] == SHIPPED_FIELDS
    ensures Mountable(d) && GeometryOf(d[0]) == Geometry(512, 2, 1, 2, 512, 17)
    ensures GeometryOf(d[0]).FirstRoot() == 35 && Mount(d).layout == Layout(67, 2)
    ensures |Mount(d).fat| == 4352 && Mount(d).Held() == 4098
  {
    var b := d[0];
    assert forall k :: 11 <= k < 24 ==> b[k] == b[11..24][k - 11];
    assert b[11] == 0 && b[12] == 2 && b[13] == 2 && b[14] == 1 && b[15] == 0 && b[16] == 2 && b[17] == 0 && b[18] == 2;
    assert b[22] == 17 && b[23] == 0;
    FieldsInBytes(b);
    BeforeIsQuotient(SHIPPED_SECTORS - 67, 2);
  }
}
