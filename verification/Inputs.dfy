/** Volumes, byte by byte, on which the driver does something a reader would not
    expect. */
module Inputs {
  import opened Arith
  import opened Bytes
  import opened Layout
  import opened FatTable
  import opened Chains
  import opened Folders
  import opened Tree
  import opened Volume
  import opened Walks
  import opened Reach
  import opened MarkPhase
  import opened Recovery
  import opened Hidden

  // ----- small FAT16 volumes

  /** One-sector clusters, one FAT, a root folder of one sector. */
  function SmallGeo(rows: nat, total: nat): Geo { Geo(1, 1, 1, 1, rows, false, 0, 0, total) }

  /** FAT sector row of a table. */
  function FatRow(t: seq<nat>, row: nat): Sector {
    seq(512, (j: nat) => if row * 256 + j / 2 < |t| then ByteOf(t[row * 256 + j / 2], j % 2) else 0)
  }

  function EntAt(es: seq<Ent>, i: nat): Ent { if i < |es| then es[i] else BLANK }

  /** A folder sector that starts with these entries. */
  function EntSector(es: seq<Ent>): Sector {
    seq(512, (j: nat) => EntBytes(false, EntAt(es, j / 32).name, EntAt(es, j / 32).attr, EntAt(es, j / 32).cluster,
                                  EntAt(es, j / 32).size)[j % 32])
  }

  /** The volume with this table, these entries in the root, and these in the
      sectors of its clusters. */
  function SmallDisk(rows: nat, t: seq<nat>, root: seq<Ent>, data: seq<seq<Ent>>): Disk {
    [ZeroSector()] + seq(rows, (r: nat) => FatRow(t, r)) + [EntSector(root)]
    + seq(|data|, (i: nat) requires i < |data| => EntSector(data[i]))
  }

  ghost predicate Plain(e: Ent) { e.cluster < 0x1_0000 && e.size < U32 }

  ghost predicate SmallOk(rows: nat, t: seq<nat>, root: seq<Ent>, data: seq<seq<Ent>>) {
    && 1 <= rows < 0x100 && |t| == |data| + 2 <= 256 * rows && |t| <= 0xFFF7
       && (forall c | 0 <= c < |t| :: t[c] < 0x1_0000)
    && |root| <= 16 && (forall i | 0 <= i < |root| :: Plain(root[i]))
    && (forall c | 0 <= c < |data| :: |data[c]| <= 16 && forall i | 0 <= i < |data[c]| :: Plain(data[c][i]))
  }

  lemma SmallGeoOk(rows: nat, t: seq<nat>, root: seq<Ent>, data: seq<seq<Ent>>)
    requires SmallOk(rows, t, root, data)
    ensures var g, d := SmallGeo(rows, |data|), SmallDisk(rows, t, root, data);
            && GeoOk(g) && Fits(g, d) && |d| == rows + 2 + |data| && g.Limit() == |t| && g.RootStart() == rows + 1
            && g.DataStart() == rows + 2 && g.Eoc() == 0xFFF8
  {
    hide FatRow;
    hide EntSector;
  }

  lemma SmallSectors(rows: nat, t: seq<nat>, root: seq<Ent>, data: seq<seq<Ent>>)
    ensures var d := SmallDisk(rows, t, root, data);
            && |d| == rows + 2 + |data| && d[rows + 1] == EntSector(root)
            && (forall r | 0 <= r < rows :: d[1 + r] == FatRow(t, r))
            && (forall i | 0 <= i < |data| :: d[rows + 2 + i] == EntSector(data[i]))
  {
    hide FatRow;
    hide EntSector;
  }

  lemma FatRowAt(t: seq<nat>, row: nat, i: nat)
    requires i < 256 && row * 256 + i < |t| && t[row * 256 + i] < 0x1_0000
    ensures Rd16(FatRow(t, row), 2 * i) == t[row * 256 + i]
  {
    assert (2 * i) / 2 == i && (2 * i) % 2 == 0 && (2 * i + 1) / 2 == i && (2 * i + 1) % 2 == 1;
  }

  /** The table on the disk is the one it was made from. */
  lemma SmallTable(rows: nat, t: seq<nat>, root: seq<Ent>, data: seq<seq<Ent>>, c: nat)
    requires SmallOk(rows, t, root, data) && c < |t|
    ensures FatGet(SmallGeo(rows, |data|), SmallDisk(rows, t, root, data), c) == t[c]
  {
    hide *;
    var g, d := SmallGeo(rows, |data|), SmallDisk(rows, t, root, data);
    SmallGeoOk(rows, t, root, data);
    SmallSectors(rows, t, root, data);
    SmallParts(rows, t, root, data, c);
    SmallPlace(g, c);
    EntryAt(g, d, c);
    FatRowAt(t, c / 256, c % 256);
    SmallEntry(g, d, c, t);
  }

  lemma SmallParts(rows: nat, t: seq<nat>, root: seq<Ent>, data: seq<seq<Ent>>, c: nat)
    requires SmallOk(rows, t, root, data) && c < |t|
    ensures c / 256 < rows && t[c] < 0x1_0000 && !SmallGeo(rows, |data|).fat32 && SmallGeo(rows, |data|).reserved == 1
    ensures c / 256 * 256 + c % 256 == c
  {
  }

  lemma SmallPlace(g: Geo, c: nat)
    requires !g.fat32
    ensures c % g.Per() * g.W() + g.W() <= 512
  {
  }

  lemma SmallEntry(g: Geo, d: Disk, c: nat, t: seq<nat>)
    requires !g.fat32 && g.reserved == 1 && 1 + c / 256 < |d| && c < |t| && t[c] < 0x1_0000
    requires d[1 + c / 256] == FatRow(t, c / 256)
             && Rd16(FatRow(t, c / 256), 2 * (c % 256)) == t[c / 256 * 256 + c % 256]
    requires g.reserved + c / g.Per() < |d| && c % g.Per() * g.W() + g.W() <= 512
    requires FatGet(g, d, c) == Rd(g, d[g.reserved + c / g.Per()], c % g.Per() * g.W())
    ensures FatGet(g, d, c) == t[c]
  {
    hide FatRow;
    hide FatGet;
    hide Rd16;
  }

  /** A folder sector reads back as the entries it was made from. */
  lemma EntSectorAt(es: seq<Ent>, i: nat)
    requires i < 16 && Plain(EntAt(es, i))
    ensures Decode(false, EntSector(es), i) == EntAt(es, i)
  {
    var e := EntAt(es, i);
    var b := EntBytes(false, e.name, e.attr, e.cluster, e.size);
    var s := EntSector(es);
    DecodeEncoded(false, e.name, e.attr, e.cluster, e.size);
    forall j | 0 <= j < 32
      ensures s[32 * i + j] == b[j]
    {
      assert (32 * i + j) / 32 == i && (32 * i + j) % 32 == j;
    }
    assert s[32 * i..32 * i + 32] == b;
  }

  lemma SmallRoot(rows: nat, t: seq<nat>, root: seq<Ent>, data: seq<seq<Ent>>, k: nat)
    requires SmallOk(rows, t, root, data)
    ensures var s := Listing(SmallGeo(rows, |data|), SmallDisk(rows, t, root, data), 0);
            |s| == 16 && (k < 16 ==> s[k] == EntAt(root, k))
  {
    var g, d := SmallGeo(rows, |data|), SmallDisk(rows, t, root, data);
    SmallSectors(rows, t, root, data);
    OrbitEmpty(Table(g, d), 0);
    assert FolderBody(g, d, [], 0) == [EntSector(root)];
    hide *;
    RootSlots(g, d, root);
    if k < 16 {
      PlainAt(rows, t, root, data, k);
      EntSectorAt(root, k);
    }
    RootSlot(g, d, root, k);
  }

  lemma PlainAt(rows: nat, t: seq<nat>, root: seq<Ent>, data: seq<seq<Ent>>, k: nat)
    requires SmallOk(rows, t, root, data)
    ensures Plain(EntAt(root, k)) && forall c | 0 <= c < |data| :: Plain(EntAt(data[c], k))
  {
  }

  lemma RootSlots(g: Geo, d: Disk, root: seq<Ent>)
    requires DiskChain(g, d, 0) == [] && FolderBody(g, d, [], 0) == [EntSector(root)]
    ensures Listing(g, d, 0) == Slots(g.fat32, [EntSector(root)])
  {
    hide DiskChain;
    hide FolderBody;
    hide EntSector;
    hide Slots;
  }

  lemma RootSlot(g: Geo, d: Disk, root: seq<Ent>, k: nat)
    requires Listing(g, d, 0) == Slots(g.fat32, [EntSector(root)])
    requires k < 16 ==> Decode(g.fat32, EntSector(root), k) == EntAt(root, k)
    ensures |Listing(g, d, 0)| == 16 && (k < 16 ==> Listing(g, d, 0)[k] == EntAt(root, k))
  {
    hide Listing;
    hide EntSector;
    hide Decode;
    hide EntAt;
  }

  // ----- what the scan of such a root comes to

  /** The scan of the root is the scan of its one sector. */
  lemma SmallScan(rows: nat, t: seq<nat>, root: seq<Ent>, data: seq<seq<Ent>>)
    requires SmallOk(rows, t, root, data)
    ensures var g, d := SmallGeo(rows, |data|), SmallDisk(rows, t, root, data);
            var r := EntriesScan(g, d, EntSector(root), 0, 0, {});
            MarkScan(g, d).marks == r.marks && MarkScan(g, d).bad == r.bad
  {
    hide *;
    var g, d := SmallGeo(rows, |data|), SmallDisk(rows, t, root, data);
    SmallGeoOk(rows, t, root, data);
    SmallSectors(rows, t, root, data);
    SmallRootIs(rows, |data|);
    MarkScanIs(g, d);
    RootScanStep(g, d, 0, {});
    var r := EntriesScan(g, d, EntSector(root), 0, 0, {});
    RootScanStep(g, d, 1, r.marks);
  }

  lemma SmallRootIs(rows: nat, total: nat)
    ensures !SmallGeo(rows, total).fat32 && SmallGeo(rows, total).rootSectors == 1 && SmallGeo(rows, total).spc == 1
    ensures HeadOf(SmallGeo(rows, total), 0) == 0
  {
  }

  // ----- a chain that loops

  const A: Name := [65, 32, 32, 32, 32, 32, 32, 32, 32, 32, 32]
  const B: Name := [66, 32, 32, 32, 32, 32, 32, 32, 32, 32, 32]
  const D: Name := [68, 32, 32, 32, 32, 32, 32, 32, 32, 32, 32]

  /** Ten clusters, all free but for what es changes. */
  function Bare(): seq<nat> { seq(12, i => 0) }
  function NoData(): seq<seq<Ent>> { seq(10, i => []) }

  /** The file A starts at cluster 5, which links to itself. */
  function LoopTable(): seq<nat> { Bare()[5 := 5] }
  function LoopRoot(): seq<Ent> { [Ent(A, 0, 5, 0)] }
  function LoopDisk(): Disk { SmallDisk(1, LoopTable(), LoopRoot(), NoData()) }

  lemma LoopOk()
    ensures SmallOk(1, LoopTable(), LoopRoot(), NoData()) && |NoData()| == 10 && |LoopTable()| == 12
    ensures LoopTable()[5] == 5
    ensures EntAt(LoopRoot(), 0) == Ent(A, 0, 5, 0) && forall i: nat | i > 0 :: EntAt(LoopRoot(), i) == BLANK
  {
  }

  lemma NamesIn()
    ensures BLANK.name[0] == END && Child(Ent(A, 0, 5, 0)) && !IsDir(Ent(A, 0, 5, 0)) && A[0] != END
    ensures Child(Ent(D, ATTR_DIR, 5, 0)) && IsDir(Ent(D, ATTR_DIR, 5, 0)) && D[0] != END
    ensures Child(Ent(B, 0, 7, 0)) && !IsDir(Ent(B, 0, 7, 0)) && B[0] != END && !Child(BLANK)
  {
  }

  /** What paths lead to there. */
  lemma {:induction false} LoopReached(h: nat, dir: bool, n: nat)
    ensures Reached(SmallGeo(1, 10), LoopDisk(), h, dir, n) <==> (dir && h == 0 && n == 0) || (!dir && h == 5 && n == 1)
    decreases n
  {
    hide *;
    var g, d := SmallGeo(1, 10), LoopDisk();
    LoopOk();
    LoopDiskIs();
    NamesIn();
    SmallRootIs(1, 10);
    if n == 0 {
      RootReached(g, d, h, dir);
    } else {
      SmallRoot(1, LoopTable(), LoopRoot(), NoData(), 0);
      if Reached(g, d, h, dir, n) {
        var p: nat, k: nat := ReachedParent(g, d, h, dir, n);
        LoopReached(p, true, n - 1);
        SmallRoot(1, LoopTable(), LoopRoot(), NoData(), k);
        FirstOnly(g, d, k, h, dir);
      }
      if !dir && h == 5 && n == 1 {
        RootReached(g, d, 0, true);
        FirstNamed(g, d, h, dir);
        ReachedChild(g, d, 0, 0, h, dir, 0);
      }
    }
  }

  lemma LoopDiskIs()
    ensures LoopDisk() == SmallDisk(1, LoopTable(), LoopRoot(), NoData())
  {
    hide SmallDisk;
  }

  lemma RootReached(g: Geo, d: Disk, h: nat, dir: bool)
    ensures Reached(g, d, h, dir, 0) <==> dir && h == HeadOf(g, 0)
  {
  }

  /** With one entry in the root, only that one names anything. */
  lemma FirstOnly(g: Geo, d: Disk, k: nat, h: nat, dir: bool)
    requires NamedAt(g, d, 0, k, h, dir) && |Listing(g, d, 0)| == 16
    requires k > 0 && k < 16 ==> !Child(Listing(g, d, 0)[k])
    ensures k == 0 && Child(Listing(g, d, 0)[0]) && Listing(g, d, 0)[0].cluster == h
            && IsDir(Listing(g, d, 0)[0]) == dir
  {
    hide Listing;
    hide Child;
    hide IsDir;
  }

  lemma FirstNamed(g: Geo, d: Disk, h: nat, dir: bool)
    requires |Listing(g, d, 0)| == 16 && Child(Listing(g, d, 0)[0]) && Listing(g, d, 0)[0].cluster == h >= 2
    requires IsDir(Listing(g, d, 0)[0]) == dir
    ensures NamedAt(g, d, 0, 0, h, dir)
  {
    hide Listing;
    hide Child;
    hide IsDir;
  }

  /** A chain a path leads to goes round in a loop; still the disk is readable
      and its folders are apart, so the recovery does not give up, and marks
      what can be reached. */
  lemma LoopRead()
    ensures var g, d := SmallGeo(1, 10), LoopDisk();
            && GeoOk(g) && Fits(g, d) && Reached(g, d, 5, false, 1) && FatGet(g, d, 5) == 5
            && Readable(g, d) && FoldersApart(g, d)
            && !MarkScan(g, d).bad && MarkScan(g, d).marks == {5}
  {
    hide *;
    var g, d := SmallGeo(1, 10), LoopDisk();
    LoopOk();
    LoopDiskIs();
    SmallGeoOk(1, LoopTable(), LoopRoot(), NoData());
    SmallTable(1, LoopTable(), LoopRoot(), NoData(), 5);
    LoopReached(5, false, 1);
    forall h: nat, dir: bool, n: nat
      ensures Reached(g, d, h, dir, n) <==> (dir && h == 0 && n == 0) || (!dir && h == 5 && n == 1)
    {
      LoopReached(h, dir, n);
    }
    LoopChains(g, d);
    LoopReadable(g, d);
    LoopScan();
  }

  lemma LoopChains(g: Geo, d: Disk)
    requires FatGet(g, d, 5) == 5 && g.Limit() == 12
    ensures DiskChain(g, d, 0) == [] && DiskChain(g, d, 5) == [5]
  {
    TableAt(g, d, 5);
    OrbitEmpty(Table(g, d), 0);
    var t := Table(g, d);
    assert Orbit(t, 5, {5}) == [];
    assert Orbit(t, 5, {}) == [5] + Orbit(t, 5, {5});
  }

  lemma LoopReadable(g: Geo, d: Disk)
    requires forall h: nat, dir: bool, n: nat ::
               Reached(g, d, h, dir, n) <==> (dir && h == 0 && n == 0) || (!dir && h == 5 && n == 1)
    requires DiskChain(g, d, 0) == [] && DiskChain(g, d, 5) == [5] && FatGet(g, d, 5) == 5 && g.Limit() == 12
    ensures Readable(g, d) && FoldersApart(g, d)
  {
    hide Reached;
    hide DiskChain;
    hide FatGet;
  }

  lemma LoopScan()
    ensures !MarkScan(SmallGeo(1, 10), LoopDisk()).bad && MarkScan(SmallGeo(1, 10), LoopDisk()).marks == {5}
  {
    hide *;
    var g, d, sec := SmallGeo(1, 10), LoopDisk(), EntSector(LoopRoot());
    LoopOk();
    LoopDiskIs();
    NamesIn();
    SmallGeoOk(1, LoopTable(), LoopRoot(), NoData());
    SmallRootIs(1, 10);
    SmallTable(1, LoopTable(), LoopRoot(), NoData(), 5);
    SmallScan(1, LoopTable(), LoopRoot(), NoData());
    PlainAt(1, LoopTable(), LoopRoot(), NoData(), 0);
    PlainAt(1, LoopTable(), LoopRoot(), NoData(), 1);
    EntSectorAt(LoopRoot(), 0);
    EntSectorAt(LoopRoot(), 1);
    InTableIs(g, 5);
    EntriesScanStep(g, d, sec, 0, 0, {});
    ChainScanStep(g, d, 5, false, 1, false, {});
    ChainScanEnds(g, d, 5, false, 1, false, {5});
    EntriesScanStep(g, d, sec, 1, 0, {5});
    assert {} + {5} == {5};
  }

  // ----- a folder that starts in a file

  /** The file A and the folder D both start at cluster 5, whose sector names
      the file B at cluster 7. */
  function SharedTable(): seq<nat> { Bare()[5 := 0xFFFF][7 := 0xFFFF] }
  function SharedRoot(): seq<Ent> { [Ent(A, 0, 5, 0), Ent(D, ATTR_DIR, 5, 0)] }
  function SharedData(): seq<seq<Ent>> { NoData()[3 := [Ent(B, 0, 7, 0)]] }
  function SharedDisk(): Disk { SmallDisk(1, SharedTable(), SharedRoot(), SharedData()) }

  lemma SharedOk()
    ensures SmallOk(1, SharedTable(), SharedRoot(), SharedData()) && |SharedData()| == 10 && |SharedTable()| == 12
    ensures SharedTable()[5] == 0xFFFF && SharedTable()[7] == 0xFFFF && SharedData()[3] == [Ent(B, 0, 7, 0)]
    ensures EntAt(SharedRoot(), 0) == Ent(A, 0, 5, 0) && EntAt(SharedRoot(), 1) == Ent(D, ATTR_DIR, 5, 0)
    ensures EntAt(SharedRoot(), 2) == BLANK && EntAt(SharedData()[3], 0) == Ent(B, 0, 7, 0)
  {
  }

  lemma SharedDiskIs()
    ensures SharedDisk() == SmallDisk(1, SharedTable(), SharedRoot(), SharedData())
  {
    hide SmallDisk;
  }

  /** The path D/B leads to cluster 7, but the scan marks only 5: it takes the
      folder for visited, having marked its cluster as the file's.  The sweep
      then frees a cluster that is part of the tree. */
  lemma SharedLoses()
    ensures var g, d := SmallGeo(1, 10), SharedDisk();
            && GeoOk(g) && Fits(g, d) && Reached(g, d, 7, false, 2) && Reachable(g, d, 7) && !FoldersApart(g, d)
            && !MarkScan(g, d).bad && MarkScan(g, d).marks == {5}
            && Table(g, d)[7] == 0xFFFF && Swept(g, Table(g, d), MarkScan(g, d).marks)[7] == 0
  {
    hide *;
    var g, d := SmallGeo(1, 10), SharedDisk();
    SharedOk();
    SharedDiskIs();
    SmallGeoOk(1, SharedTable(), SharedRoot(), SharedData());
    SmallTable(1, SharedTable(), SharedRoot(), SharedData(), 5);
    SmallTable(1, SharedTable(), SharedRoot(), SharedData(), 7);
    SmallRootIs(1, 10);
    SharedScan();
    SharedReached();
    SharedSwept(g, d);
  }

  lemma SharedSwept(g: Geo, d: Disk)
    requires FatGet(g, d, 5) == 0xFFFF && FatGet(g, d, 7) == 0xFFFF && g.Limit() == 12 && !g.fat32
    requires Reached(g, d, 5, false, 1) && Reached(g, d, 5, true, 1) && Reached(g, d, 7, false, 2)
    ensures Reachable(g, d, 7) && !FoldersApart(g, d)
    ensures Table(g, d)[7] == 0xFFFF && Swept(g, Table(g, d), {5})[7] == 0
  {
    hide Reached;
    TableAt(g, d, 5);
    TableAt(g, d, 7);
    var t := Table(g, d);
    assert 7 in Elems(Orbit(t, 7, {}));
    assert 5 in Elems(Orbit(t, 5, {}));
    assert 7 in Elems(DiskChain(g, d, 7)) && 5 in Elems(DiskChain(g, d, 5));
    hide DiskChain;
  }

  lemma SharedReached()
    ensures var g, d := SmallGeo(1, 10), SharedDisk();
            Reached(g, d, 5, false, 1) && Reached(g, d, 5, true, 1) && Reached(g, d, 7, false, 2)
  {
    hide *;
    var g, d := SmallGeo(1, 10), SharedDisk();
    SharedOk();
    SharedDiskIs();
    NamesIn();
    SmallRootIs(1, 10);
    RootReached(g, d, 0, true);
    SmallRoot(1, SharedTable(), SharedRoot(), SharedData(), 0);
    SmallRoot(1, SharedTable(), SharedRoot(), SharedData(), 1);
    SecondNamed(g, d, 0, 5, false, 1);
    ReachedChild(g, d, 0, 0, 5, false, 0);
    ReachedChild(g, d, 0, 1, 5, true, 0);
    SharedListing();
    SecondNamed(g, d, 5, 7, false, 0);
    ReachedChild(g, d, 5, 0, 7, false, 1);
  }

  lemma SecondNamed(g: Geo, d: Disk, f: nat, h: nat, dir: bool, n: nat)
    requires |Listing(g, d, f)| >= 16 && Child(Listing(g, d, f)[0]) && Listing(g, d, f)[0].name[0] != END
    requires Listing(g, d, f)[0].cluster == h >= 2 && IsDir(Listing(g, d, f)[0]) == dir
    requires n == 1 ==> Child(Listing(g, d, f)[1])
    ensures NamedAt(g, d, f, 0, h, dir)
    ensures n == 1 && Listing(g, d, f)[1].cluster >= 2 ==>
            NamedAt(g, d, f, 1, Listing(g, d, f)[1].cluster, IsDir(Listing(g, d, f)[1]))
  {
    hide Listing;
    hide Child;
    hide IsDir;
  }

  lemma SharedListing()
    ensures var s := Listing(SmallGeo(1, 10), SharedDisk(), 5); |s| == 16 && s[0] == Ent(B, 0, 7, 0)
  {
    hide *;
    var g, d := SmallGeo(1, 10), SharedDisk();
    SharedOk();
    SharedDiskIs();
    SmallGeoOk(1, SharedTable(), SharedRoot(), SharedData());
    SmallTable(1, SharedTable(), SharedRoot(), SharedData(), 5);
    PlainAt(1, SharedTable(), SharedRoot(), SharedData(), 0);
    EntSectorAt(SharedData()[3], 0);
    SmallRootIs(1, 10);
    SharedBody(g, d);
    LoneListing(g, d, SharedData()[3]);
  }

  lemma SharedBody(g: Geo, d: Disk)
    requires g == SmallGeo(1, 10) && FatGet(g, d, 5) == 0xFFFF && |d| == 13 && d == SharedDisk()
    ensures FolderBody(g, d, DiskChain(g, d, 5), 5) == [EntSector(SharedData()[3])]
  {
    TableAt(g, d, 5);
    var t := Table(g, d);
    assert Orbit(t, t[5], {5}) == [];
    assert DiskChain(g, d, 5) == [5];
    SmallSectors(1, SharedTable(), SharedRoot(), SharedData());
    hide SmallDisk;
    hide EntSector;
    hide DiskChain;
    DivUnique(0, 0, 0, 1);
    assert Sec(g, d, 5, 0) == d[1 + 2 + 3];
  }

  lemma LoneListing(g: Geo, d: Disk, es: seq<Ent>)
    requires FolderBody(g, d, DiskChain(g, d, 5), 5) == [EntSector(es)] && !g.fat32
    requires Decode(false, EntSector(es), 0) == EntAt(es, 0)
    ensures |Listing(g, d, 5)| == 16 && Listing(g, d, 5)[0] == EntAt(es, 0)
  {
    hide DiskChain;
    hide FolderBody;
    hide EntSector;
    hide Decode;
    hide EntAt;
  }

  lemma SharedScan()
    ensures !MarkScan(SmallGeo(1, 10), SharedDisk()).bad && MarkScan(SmallGeo(1, 10), SharedDisk()).marks == {5}
  {
    hide *;
    var g, d, sec := SmallGeo(1, 10), SharedDisk(), EntSector(SharedRoot());
    SharedOk();
    SharedDiskIs();
    NamesIn();
    SmallGeoOk(1, SharedTable(), SharedRoot(), SharedData());
    SmallRootIs(1, 10);
    SmallTable(1, SharedTable(), SharedRoot(), SharedData(), 5);
    SmallScan(1, SharedTable(), SharedRoot(), SharedData());
    forall i: nat | i < 3
      ensures Decode(false, sec, i) == EntAt(SharedRoot(), i)
    {
      PlainAt(1, SharedTable(), SharedRoot(), SharedData(), i);
      EntSectorAt(SharedRoot(), i);
    }
    InTableIs(g, 5);
    EntriesScanStep(g, d, sec, 0, 0, {});
    ChainScanStep(g, d, 5, false, 1, false, {});
    ChainScanEnds(g, d, 0xFFFF, false, 1, false, {5});
    EntriesScanStep(g, d, sec, 1, 0, {5});
    ChainScanEnds(g, d, 5, true, 1, false, {5});
    EntriesScanStep(g, d, sec, 2, 0, {5});
    assert {} + {5} == {5};
  }

  // ----- a folder longer than a search looks

  const README: Name := [82, 69, 65, 68, 77, 69, 32, 32, 84, 88, 84]

  function DeletedEnt(): Ent { BLANK.(name := BLANK.name[0 := DELETED]) }

  /** The folder at cluster 2 has 257 sectors, all of it deleted but for
      README.TXT in the first slot of the last one, which has cluster 259. */
  function LongTable(): seq<nat> {
    seq(260, (c: nat) => if 2 <= c < 258 then c + 1 else if c >= 258 then 0xFFFF else 0)
  }
  function LongData(): seq<seq<Ent>> {
    var e, x := DeletedEnt(), LongEnt();
    var plain, last := seq(16, (i: nat) => e), seq(16, (i: nat) => if i == 0 then x else e);
    seq(258, (c: nat) => if c == 256 then last else plain)
  }
  function LongEnt(): Ent { Ent(README, 0, 259, 0) }
  function LongRoot(): seq<Ent> { [Ent(D, ATTR_DIR, 2, 0)] }
  function LongDisk(): Disk { SmallDisk(2, LongTable(), LongRoot(), LongData()) }
  function LongGeo(): Geo { SmallGeo(2, 258) }
  function LongChain(): seq<nat> { seq(257, (i: nat) => i + 2) }

  function LongListing(): (s: seq<Ent>)
    ensures |s| == 4112
  {
    var e, x := DeletedEnt(), LongEnt();
    seq(4112, (k: nat) => if k == 4096 then x else e)
  }

  lemma LongOk()
    ensures SmallOk(2, LongTable(), LongRoot(), LongData()) && |LongData()| == 258 && |LongTable()| == 260
    ensures LongDisk() == SmallDisk(2, LongTable(), LongRoot(), LongData()) && LongGeo() == SmallGeo(2, 258)
    ensures |LongChain()| == 257 && LongChain()[0] == 2 && LongTable()[258] == 0xFFFF
    ensures forall i | 0 <= i < 257 :: LongChain()[i] == i + 2 && (i < 256 ==> LongTable()[i + 2] == i + 3)
    ensures forall k: nat | k < 4112 :: |LongData()[k / 16]| == 16 && LongData()[k / 16][k % 16] == LongListing()[k]
    ensures forall c, k: nat | 0 <= c < 258 && k < 16 ::
            EntAt(LongData()[c], k) == LongData()[c][k] && Plain(LongData()[c][k])
  {
    hide SmallDisk;
  }

  lemma LongChainIs(g: Geo, d: Disk)
    requires g.Limit() == 260 && g.Eoc() == 0xFFF8 && forall c: nat | c < 260 :: FatGet(g, d, c) == LongTable()[c]
    ensures DiskChain(g, d, 2) == LongChain()
  {
    var t, s := Table(g, d), LongChain();
    forall c: nat | c < 260
      ensures t[c] == LongTable()[c]
    {
      TableAt(g, d, c);
    }
    hide Table;
    hide FatGet;
    assert IsChain(t, 0xFFF8, s);
    OrbitOfChain(t, 0xFFF8, s);
  }

  /** Sector i of the chain is the i-th of the data area. */
  lemma LongSector(g: Geo, d: Disk, i: nat)
    requires g == LongGeo() && d == LongDisk() && i < 257
    ensures |Body(g, d, LongChain())| == 257 && Body(g, d, LongChain())[i] == EntSector(LongData()[i])
  {
    LongOk();
    SmallSectors(2, LongTable(), LongRoot(), LongData());
    hide SmallDisk;
    hide LongData;
    hide EntSector;
    DivUnique(i, i, 0, 1);
    assert Sec(g, d, i + 2, 0) == d[4 + i];
  }

  /** What the folder lists. */
  lemma LongListed()
    ensures Listing(LongGeo(), LongDisk(), 2) == LongListing() && DiskChain(LongGeo(), LongDisk(), 2) == LongChain()
  {
    hide *;
    var g, d := LongGeo(), LongDisk();
    LongOk();
    SmallGeoOk(2, LongTable(), LongRoot(), LongData());
    SmallRootIs(2, 258);
    forall c: nat | c < 260
      ensures FatGet(g, d, c) == LongTable()[c]
    {
      SmallTable(2, LongTable(), LongRoot(), LongData(), c);
    }
    LongChainIs(g, d);
    ListedSlots(g, d, 2);
    forall k: nat | k < 4112
      ensures |Slots(false, Body(g, d, LongChain()))| == 4112
              && Slots(false, Body(g, d, LongChain()))[k] == LongListing()[k]
    {
      LongSlot(g, d, k);
    }
    LongSector(g, d, 0);
    SlotsMatch(Slots(false, Body(g, d, LongChain())), LongListing());
  }

  lemma SlotsMatch(a: seq<Ent>, b: seq<Ent>)
    requires |a| == |b| == 4112 && forall k: nat | k < 4112 :: a[k] == b[k]
    ensures a == b
  {
  }

  lemma LongSlot(g: Geo, d: Disk, k: nat)
    requires g == LongGeo() && d == LongDisk() && k < 4112
    ensures |Slots(false, Body(g, d, LongChain()))| == 4112
    ensures Slots(false, Body(g, d, LongChain()))[k] == LongListing()[k]
  {
    hide *;
    LongOk();
    LongSector(g, d, k / 16);
    EntSectorAt(LongData()[k / 16], k % 16);
    SlotHere(Body(g, d, LongChain()), k);
  }

  lemma SlotHere(body: seq<Sector>, k: nat)
    requires k < 16 * |body|
    ensures |Slots(false, body)| == 16 * |body| && Slots(false, body)[k] == Decode(false, body[k / 16], k % 16)
  {
    hide Decode;
  }

  lemma ListedSlots(g: Geo, d: Disk, f: nat)
    requires f >= 2 && !g.fat32
    ensures Listing(g, d, f) == Slots(false, Body(g, d, DiskChain(g, d, f))) && HeadOf(g, f) == f && !FixedRoot(g, f)
    ensures DiskSlots(g, d, f) == Seen(g, f, Listing(g, d, f))
  {
    hide Slots;
    hide Body;
    hide DiskChain;
    hide Seen;
  }

  lemma LongFacts(g: Geo)
    requires !FixedRoot(g, 2)
    ensures var s := LongListing(); var r := Seen(g, 2, s);
            && |r| == 4096 && Ended(s) && UniqueNames(s) && Live(s[4096]) && s[4096].name == README && Child(s[4096])
            && OnlyDots(r) && Find(r, README) == 4096 && FreeFrom(r, 0) == 0
  {
    var s := LongListing();
    var r := Seen(g, 2, s);
    assert s[0].name[0] == DELETED;
    FreeUnique(r, 0);
    FindFromSpec(r, README, false, 0);
  }

  /** On this volume no search of the folder finds README.TXT, dir_get_sector
      having no sector for its slot; the first slot is free; and README.TXT
      stored there makes two of it in the one folder. */
  lemma StoredTwice()
    ensures var g, d, e := LongGeo(), LongDisk(), Ent(README, 0, 0, 0);
            var s := Listing(g, d, 2);
            && GeoOk(g) && Fits(g, d) && |s| == 4112 && s[4096].name == README && Live(s[4096])
            && DirSector(g, d, 2, 256) == 0 && Lookup(g, d, 2, README) == Absent
            && FreeFrom(DiskSlots(g, d, 2), 0) == 0 && UniqueNames(s) && !UniqueNames(s[0 := e])
  {
    hide *;
    var g, d, e := LongGeo(), LongDisk(), Ent(README, 0, 0, 0);
    LongOk();
    SmallGeoOk(2, LongTable(), LongRoot(), LongData());
    SmallRootIs(2, 258);
    LongListed();
    ListedSlots(g, d, 2);
    LongFacts(g);
    LiveIs(e);
    PlainEntry(README, 0, 0, 0);
    ReadmeFirst();
    LookupIs(g, d, 2, README);
    CapSector(g, d, 2);
    TwoNames(LongListing(), e);
  }

  lemma CapSector(g: Geo, d: Disk, dir: nat)
    requires g.spc > 0 && HeadOf(g, dir) != 0
    ensures DirSector(g, d, dir, MAX_DIR_SECTORS) == 0 && MAX_DIR_SECTORS == 256
  {
    hide PlainWalk;
    hide ClusterToLba;
  }

  lemma ReadmeFirst()
    ensures README[0] != END && README[0] != DELETED && !IsDot(README)
  {
  }

  lemma TwoNames(s: seq<Ent>, e: Ent)
    requires |s| == 4112 && Live(s[4096]) && Live(e) && s[4096].name == e.name
    ensures !UniqueNames(s[0 := e])
  {
    hide Live;
    assert s[0 := e][0] == e && s[0 := e][4096] == s[4096];
  }

  /** And fat_rmdir takes the folder for empty, though README.TXT has a chain. */
  lemma LooksEmptyToo()
    ensures var g, d := LongGeo(), LongDisk();
            OnlyDots(DiskSlots(g, d, 2)) && !NoChains(Listing(g, d, 2)) && DiskChain(g, d, 259) == [259]
  {
    hide *;
    var g, d := LongGeo(), LongDisk();
    LongOk();
    SmallGeoOk(2, LongTable(), LongRoot(), LongData());
    SmallRootIs(2, 258);
    LongListed();
    ListedSlots(g, d, 2);
    LongFacts(g);
    SmallTable(2, LongTable(), LongRoot(), LongData(), 259);
    LastLong(g, d);
  }

  lemma LastLong(g: Geo, d: Disk)
    requires FatGet(g, d, 259) == LongTable()[259] && g.Limit() == 260
    ensures DiskChain(g, d, 259) == [259] && !NoChains(LongListing())
  {
    TableAt(g, d, 259);
    var t := Table(g, d);
    assert t[259] == 0xFFFF;
    assert Orbit(t, t[259], {259}) == [];
    assert Orbit(t, 259, {}) == [259] + Orbit(t, t[259], {259});
    assert Child(LongListing()[4096]);
  }

  // ----- a remembered walk that goes stale

  /** Folder number 2816 is past the table: its link is read from sector 12, the
      sector of cluster 11. */
  function StaleDisk(link: byte): Disk { SmallDisk(1, Bare(), [], NoData())[12 := ZeroSector()[0 := link]] }

  /** Two disks with the same table, where a walk out of the table differs: the
      condition of WalkSame is needed. */
  lemma StaleWalk()
    ensures var g, d0, d1 := SmallGeo(1, 10), StaleDisk(5), StaleDisk(6);
            && GeoOk(g) && Fits(g, d0) && Fits(g, d1) && d1 == d0[12 := d1[12]] && g.Lba(11) == 12
            && Table(g, d1) == Table(g, d0) && PlainWalk(g, d0, 2816, 1) == 5 && PlainWalk(g, d1, 2816, 1) == 6
  {
    var g := SmallGeo(1, 10);
    StaleOk();
    SmallGeoOk(1, Bare(), [], NoData());
    hide SmallDisk;
    var d := SmallDisk(1, Bare(), [], NoData());
    OutsideFirstCopy(g, d, 12, ZeroSector()[0 := 5]);
    OutsideFirstCopy(g, d, 12, ZeroSector()[0 := 6]);
    StaleLink(g, StaleDisk(5), 5);
    StaleLink(g, StaleDisk(6), 6);
  }

  lemma StaleOk()
    ensures SmallOk(1, Bare(), [], NoData()) && |NoData()| == 10
  {
  }

  lemma StaleLink(g: Geo, d: Disk, link: byte)
    requires g == SmallGeo(1, 10) && |d| == 13 && d[12] == ZeroSector()[0 := link] && link >= 2
    ensures PlainWalk(g, d, 2816, 1) == link
  {
    assert Wrap(2816 * g.W()) == 5632 && 5632 / 512 == 11 && 5632 % 512 == 0;
    assert FatGet(g, d, 2816) == Rd16(d[12], 0) == link;
    assert PlainWalk(g, d, 2816, 0) == 2816;
  }
}
