/** Sectors and chains an operation prepares in clusters nothing uses yet. */
module Fresh {
  import opened Arith
  import opened Bytes
  import opened Layout
  import opened FatTable
  import opened Chains
  import opened Folders
  import opened Tree
  import opened Volume
  import opened Paths
  import opened SectorWrites
  import opened FatWrites
  import opened Commits
  import opened Walks
  import opened Atomicity

  /** A sector of a cluster outside u. */
  lemma KeepsFresh(g: Geo, d: Disk, c: nat, s: nat, x: Sector, u: set<nat>)
    requires GeoOk(g) && Fits(g, d) && InTable(g, c) && s < g.spc && InTables(g, u) && c !in u
    ensures g.RootStart() <= g.Lba(c) + s < |d| && Keeps(g, d, d[g.Lba(c) + s := x], u)
    ensures Table(g, d[g.Lba(c) + s := x]) == Table(g, d)
    ensures Wrap(ClusterToLba(g, c) + s) == g.Lba(c) + s
  {
    hide *;
    var l := g.Lba(c) + s;
    RootAbove(g);
    ClusterInside(g, c, s);
    DiskHolds(g, d);
    LbaExact(g, c, s);
    AboveFat(g, d, l, x);
    forall b, j: nat | b in u && j < g.spc
      ensures Sec(g, d[l := x], b, j) == Sec(g, d, b, j)
    {
      InTablesAt(g, u, b);
      InTableMake(g, b);
      SecWritten(g, d, c, s, x, b, j);
    }
    forall b | b in u
      ensures FatGet(g, d[l := x], b) == FatGet(g, d, b)
    {
      InTablesAt(g, u, b);
    }
    KeepsMake(g, d, d[l := x], u);
  }

  lemma DiskHolds(g: Geo, d: Disk)
    requires Fits(g, d)
    ensures g.DataStart() + g.total * g.spc <= |d|
  {
  }

  lemma InTableMake(g: Geo, b: nat)
    requires 2 <= b < g.Limit()
    ensures InTable(g, b)
  {
  }

  lemma KeepsMake(g: Geo, d0: Disk, d1: Disk, u: set<nat>)
    requires |d0| == |d1|
    requires forall c | c in u :: FatGet(g, d1, c) == FatGet(g, d0, c)
    requires forall c, s: nat | c in u && s < g.spc :: Sec(g, d1, c, s) == Sec(g, d0, c, s)
    requires forall l | g.RootStart() <= l < g.DataStart() && l < |d0| :: d1[l] == d0[l]
    ensures Keeps(g, d0, d1, u)
  {
    hide Sec;
    hide FatGet;
  }

  // ----- a new folder

  /** The first sector fat_mkdir writes: "." for itself, ".." for its parent. */
  function DotSector(f32: bool, self: nat, parent: nat): Sector {
    PutEnt(PutEnt(ZeroSector(), 0, EntBytes(f32, DOT, ATTR_DIR, self, 0)), 1,
      EntBytes(f32, DOTDOT, ATTR_DIR, parent, 0))
  }

  lemma DotSectorEntries(f32: bool, self: nat, parent: nat, i: nat)
    requires i < 16 && self < U32 && parent < U32 && (!f32 ==> self < 0x1_0000 && parent < 0x1_0000)
    ensures Decode(f32, DotSector(f32, self, parent), i) ==
            if i == 0 then Ent(DOT, ATTR_DIR, self, 0) else if i == 1 then Ent(DOTDOT, ATTR_DIR, parent, 0) else BLANK
  {
    hide Decode;
    hide PutEnt;
    hide EntBytes;
    hide DecodeBytes;
    DecodeEncoded(f32, DOT, ATTR_DIR, self, 0);
    DecodeEncoded(f32, DOTDOT, ATTR_DIR, parent, 0);
    DecodePut(f32, PutEnt(ZeroSector(), 0, EntBytes(f32, DOT, ATTR_DIR, self, 0)), 1,
      EntBytes(f32, DOTDOT, ATTR_DIR, parent, 0), i);
    DecodePut(f32, ZeroSector(), 0, EntBytes(f32, DOT, ATTR_DIR, self, 0), i);
    DecodeBlank(f32, i);
  }

  /** The slots a new folder's one cluster decodes to. */
  function DotSlots(self: nat, parent: nat, n: nat): seq<Ent>
  {
    seq(n, (k: nat) => if k == 0 then Ent(DOT, ATTR_DIR, self, 0) else if k == 1 then Ent(DOTDOT, ATTR_DIR, parent, 0)
      else BLANK)
  }

  lemma SlotsFrom(f32: bool, body: seq<Sector>, k: nat)
    requires k < 16 * |body|
    ensures |Slots(f32, body)| == 16 * |body| && Slots(f32, body)[k] == Decode(f32, body[k / 16], k % 16)
  {
    hide Decode;
  }

  lemma DotSlotsAt(self: nat, parent: nat, n: nat, k: nat)
    requires k < n
    ensures |DotSlots(self, parent, n)| == n
    ensures DotSlots(self, parent, n)[k] ==
            if k == 0 then Ent(DOT, ATTR_DIR, self, 0) else if k == 1 then Ent(DOTDOT, ATTR_DIR, parent, 0) else BLANK
  {
  }

  lemma DotSlotsEmpty(self: nat, parent: nat, n: nat)
    requires 2 <= n <= 16 * MAX_DIR_SECTORS
    ensures EmptyFolder(DotSlots(self, parent, n), parent)
  {
    var s := DotSlots(self, parent, n);
    assert IsDot(DOT) && IsDot(DOTDOT) && DOT != DOTDOT;
    assert forall k | 2 <= k < n :: s[k] == BLANK && !Live(s[k]);
    assert DotDotFrom(s, 0) == 1;
  }

  lemma OneClusterBody(g: Geo, d: Disk, c: nat, i: nat)
    requires g.spc > 0 && i < g.spc
    ensures Sectors(g, 1) == g.spc && |Body(g, d, [c])| == g.spc && Body(g, d, [c])[i] == Sec(g, d, c, i)
  {
    DivUnique(i, 0, i, g.spc);
    hide Quot;
    hide Rem;
    hide Sec;
  }

  lemma NewFolderSlotsAre(g: Geo, d: Disk, c: nat, parent: nat)
    requires 0 < g.spc < 256 && c < U32 && parent < U32 && (!g.fat32 ==> c < 0x1_0000 && parent < 0x1_0000)
    requires Sec(g, d, c, 0) == DotSector(g.fat32, c, parent)
    requires forall s: nat | 1 <= s < g.spc :: Sec(g, d, c, s) == ZeroSector()
    ensures Slots(g.fat32, Body(g, d, [c])) == DotSlots(c, parent, 16 * g.spc)
    ensures EmptyFolder(Slots(g.fat32, Body(g, d, [c])), parent)
  {
    var a, b := Slots(g.fat32, Body(g, d, [c])), DotSlots(c, parent, 16 * g.spc);
    OneClusterBody(g, d, c, 0);
    forall k: nat | k < 16 * g.spc
      ensures |a| == 16 * g.spc && a[k] == b[k]
    {
      NewFolderSlot(g, d, c, parent, k);
    }
    DotSlotsEmpty(c, parent, 16 * g.spc);
    hide Slots;
    hide DotSlots;
    hide EmptyFolder;
    assert a == b;
  }

  lemma NewFolderSlot(g: Geo, d: Disk, c: nat, parent: nat, k: nat)
    requires 0 < g.spc < 256 && c < U32 && parent < U32 && (!g.fat32 ==> c < 0x1_0000 && parent < 0x1_0000)
    requires Sec(g, d, c, 0) == DotSector(g.fat32, c, parent)
    requires forall s: nat | 1 <= s < g.spc :: Sec(g, d, c, s) == ZeroSector()
    requires k < 16 * g.spc
    ensures |Slots(g.fat32, Body(g, d, [c]))| == 16 * g.spc
    ensures Slots(g.fat32, Body(g, d, [c]))[k] == DotSlots(c, parent, 16 * g.spc)[k]
  {
    OneClusterBody(g, d, c, k / 16);
    SlotsFrom(g.fat32, Body(g, d, [c]), k);
    DotSlotsAt(c, parent, 16 * g.spc, k);
    hide *;
    if k < 16 {
      DotSectorEntries(g.fat32, c, parent, k);
    } else {
      DecodeBlank(g.fat32, k % 16);
    }
  }

  /** Cluster c is a whole chain, a new folder under parent on it. */
  ghost predicate NewFolder(g: Geo, d: Disk, c: nat, parent: nat) {
    && InTable(g, c) && Table(g, d)[c] == g.EocMark() && Sec(g, d, c, 0) == DotSector(g.fat32, c, parent)
    && forall s: nat | 1 <= s < g.spc :: Sec(g, d, c, s) == ZeroSector()
  }

  lemma NewFolderMake(g: Geo, d: Disk, c: nat, parent: nat)
    requires InTable(g, c) && Table(g, d)[c] == g.EocMark() && Sec(g, d, c, 0) == DotSector(g.fat32, c, parent)
    requires forall s: nat | 1 <= s < g.spc :: Sec(g, d, c, s) == ZeroSector()
    ensures NewFolder(g, d, c, parent)
  {
    hide Table;
    hide Sec;
    hide DotSector;
  }

  /** The folder shows dot names and nothing else. */
  lemma NewFolderShows(g: Geo, d: Disk, c: nat, parent: nat)
    requires GeoOk(g) && NewFolder(g, d, c, parent) && c < U32 && parent < U32
    requires !g.fat32 ==> c < 0x1_0000 && parent < 0x1_0000
    ensures DiskChain(g, d, c) == [c] && DiskSlots(g, d, c) == DotSlots(c, parent, 16 * g.spc)
    ensures |DiskSlots(g, d, c)| == 16 * g.spc && OnlyDots(DiskSlots(g, d, c))
    ensures forall k | 0 <= k < |DiskSlots(g, d, c)| ::
            DiskSlots(g, d, c)[k].name[0] == 0 || DiskSlots(g, d, c)[k].name[0] == 0x2E
  {
    hide *;
    NewFolderParts(g, d, c, parent);
    GeoPositive(g);
    MarkStored(g);
    EocAbove(g);
    LimitBelow(g);
    TableBound(g, c);
    LoneOrbit(Table(g, d), c, {});
    LoneChainIs(g, d, c);
    NewFolderSlotsAre(g, d, c, parent);
    ChainSlots(g, d, c);
    SeenAll(g, c, parent);
    DotSlotsDots(c, parent, 16 * g.spc);
  }

  lemma NewFolderParts(g: Geo, d: Disk, c: nat, parent: nat)
    requires NewFolder(g, d, c, parent)
    ensures InTable(g, c) && c >= 2 && Table(g, d)[c] == g.EocMark() && Sec(g, d, c, 0) == DotSector(g.fat32, c, parent)
    ensures forall s: nat | 1 <= s < g.spc :: Sec(g, d, c, s) == ZeroSector()
  {
    hide Table;
    hide Sec;
    hide DotSector;
  }

  lemma LoneChainIs(g: Geo, d: Disk, c: nat)
    ensures DiskChain(g, d, c) == Orbit(Table(g, d), c, {})
  {
  }

  lemma ChainSlots(g: Geo, d: Disk, c: nat)
    requires c >= 2
    ensures DiskSlots(g, d, c) == Seen(g, c, Slots(g.fat32, Body(g, d, DiskChain(g, d, c))))
  {
    hide Slots;
    hide Body;
    hide DiskChain;
    hide Seen;
  }

  lemma SeenAll(g: Geo, c: nat, parent: nat)
    requires 1 <= g.spc < 256
    ensures Seen(g, c, DotSlots(c, parent, 16 * g.spc)) == DotSlots(c, parent, 16 * g.spc)
  {
  }

  lemma DotSlotsDots(self: nat, parent: nat, n: nat)
    ensures |DotSlots(self, parent, n)| == n && OnlyDots(DotSlots(self, parent, n))
    ensures forall k | 0 <= k < n ::
            DotSlots(self, parent, n)[k].name[0] == 0 || DotSlots(self, parent, n)[k].name[0] == 0x2E
  {
  }

  /** An end mark alone is a chain. */
  lemma LoneChain(g: Geo, t: seq<nat>, c: nat)
    requires |t| == g.Limit() && InTable(g, c) && t[c] == g.EocMark()
    ensures IsChain(t, g.Eoc(), [c]) && Injective([c]) && Clusters(g, [c])
  {
  }

  /** A free cluster is in no chain. */
  lemma FreeUnused(g: Geo, d: Disk, m: Model)
    requires WF(g, d, m)
    ensures forall c | c in Used(m) :: c < g.Limit() && Table(g, d)[c] != 0
    ensures InTables(g, Used(m))
  {
    hide *;
    UsedInTables(g, d, m);
    forall c | c in Used(m)
      ensures c < g.Limit() && Table(g, d)[c] != 0
    {
      InTablesAt(g, Used(m), c);
      UsedNonZero(g, d, m, c);
    }
  }

  lemma UsedNonZero(g: Geo, d: Disk, m: Model, c: nat)
    requires WF(g, d, m) && c in Used(m)
    ensures c < g.Limit() && Table(g, d)[c] != 0
  {
    hide HeadsOk;
    hide FolderOk;
    hide Table;
    var h := m.owner[c];
    ModelChain(g, d, m, h);
    ChainInParts(g, d, m, h);
    var i :| 0 <= i < |m.ch[h]| && m.ch[h][i] == c;
    EocPositive(g);
    ChainNonZero(Table(g, d), g.Eoc(), m.ch[h], i);
  }

  // ----- the entry of a new folder or file

  lemma PutInto(g: Geo, sec: Sector, i: nat, name: Name, attr: byte, cluster: nat, size: nat)
    requires i < 16 && size < U32 && cluster < if g.fat32 then U32 else 0x1_0000
    ensures EntryInto(g, sec, PutEnt(sec, i, EntBytes(g.fat32, name, attr, cluster, size)), i,
            Ent(name, attr, cluster, size))
  {
    hide Decode;
    hide PutEnt;
    hide EntBytes;
    hide DecodeBytes;
    DecodeEncoded(g.fat32, name, attr, cluster, size);
    forall j: nat | j < 16
      ensures Decode(g.fat32, PutEnt(sec, i, EntBytes(g.fat32, name, attr, cluster, size)), j) ==
              if j == i then Ent(name, attr, cluster, size) else Decode(g.fat32, sec, j)
    {
      DecodePut(g.fat32, sec, i, EntBytes(g.fat32, name, attr, cluster, size), j);
    }
  }

  /** Table clusters and folder numbers fit the entry's cluster fields. */
  lemma ClusterFits(g: Geo, c: nat)
    requires GeoOk(g) && (InTable(g, c) || c == 0)
    ensures c < U32 && (!g.fat32 ==> c < 0x1_0000) && c < if g.fat32 then U32 else 0x1_0000
  {
  }

  lemma FolderFits(g: Geo, d: Disk, m: Model, f: nat)
    requires WF(g, d, m) && f in m.depth
    ensures f == 0 || InTable(g, f)
  {
    hide *;
    WFParts(g, d, m);
    HeadsIn(g, m, DirsOf(g, d, m));
    if f != 0 {
      ModelChain(g, d, m, f);
      ChainInParts(g, d, m, f);
      ClustersAt(g, m.ch[f], 0);
    }
  }

  lemma FreePlace(s: seq<Ent>)
    requires FreeFrom(s, 0) < |s|
    ensures Placeable(s, FreeFrom(s, 0))
  {
    hide FreeFrom;
  }

  lemma NameFree(s: seq<Ent>, n: Name)
    requires forall j | 0 <= j < |s| :: !Matches(s[j], n, false)
    ensures NotAmong(s, n)
  {
    hide Live;
  }

  lemma NewEntChild(n: Name, attr: byte, c: nat, size: nat)
    requires n[0] != END && n[0] != DELETED && n[0] != DOTCHAR && !IsDot(n) && (attr == 0 || attr == ATTR_DIR)
    ensures Child(Ent(n, attr, c, size)) && (IsDir(Ent(n, attr, c, size)) <==> attr == ATTR_DIR)
  {
  }

  lemma FolderInsertable(g: Geo, d: Disk, m: Model, s: Dirs, f: nat, k: nat, e: Ent, ns: seq<Ent>)
    requires s == DirsOf(g, d, m) && f in s && k < |Seen(g, f, s[f])| && Placeable(s[f], k)
    requires Child(e) && IsDir(e) && e.name[0] != DOTCHAR && e.cluster >= 2 && NotAmong(Seen(g, f, s[f]), e.name)
    requires IsChain(Table(g, d), g.Eoc(), [e.cluster]) && Injective([e.cluster]) && e.cluster !in m.owner
    requires EmptyFolder(ns, f) && 1 <= g.spc < 256
    ensures Insertable(g, Table(g, d), m, s, f, k, e, [e.cluster], ns)
  {
    hide DirsOf;
    hide Table;
    hide IsChain;
    hide EmptyFolder;
    hide Placeable;
    hide Child;
    hide NotAmong;
    hide Seen;
    hide IsDir;
    hide Injective;
  }

  lemma LoneOrbit(t: seq<nat>, c: nat, u: set<nat>)
    requires 2 <= c < |t| && t[c] >= |t| && c !in u
    ensures Orbit(t, c, {}) == [c] && Elems(Orbit(t, c, {})) !! u
  {
    assert Orbit(t, t[c], {c}) == [];
    assert Orbit(t, c, {}) == [c];
  }

  /** Lookups changed since dpre are changed since d0, when nothing in use was
      touched in between. */
  lemma EditedFrom(g: Geo, d0: Disk, dpre: Disk, m0: Model, d1: Disk, m1: Model, f: nat, name: Name, node: Node)
    requires WF(g, d0, m0) && Keeps(g, d0, dpre, Used(m0)) && EditedLookups(g, dpre, m0, d1, m1, f, name, node)
    ensures EditedLookups(g, d0, m0, d1, m1, f, name, node)
  {
    hide *;
    EditedParts(g, dpre, m0, d1, m1, f, name, node);
    forall x, n: Name | x in m0.depth && x in m1.depth
      ensures Lookup(g, d1, x, n) == if x == f && n == name then node else Lookup(g, d0, x, n)
    {
      KeepsLookup(g, d0, dpre, m0, x, n);
    }
    EditedMake(g, d0, m0, d1, m1, f, name, node);
  }

  lemma EditedParts(g: Geo, d0: Disk, m0: Model, d1: Disk, m1: Model, f: nat, name: Name, node: Node)
    requires EditedLookups(g, d0, m0, d1, m1, f, name, node)
    ensures forall x, n: Name | x in m0.depth && x in m1.depth ::
      Lookup(g, d1, x, n) == if x == f && n == name then node else Lookup(g, d0, x, n)
    ensures node.FolderNode? ==> forall n: Name :: Lookup(g, d1, node.cluster, n) == Absent
  {
    hide Lookup;
  }

  /** What the tree shows for a name once it is stored: a name whose first byte
      is the deleted mark is stored, but nothing shows. */
  function Shown(n: Name, node: Node): Node { if n[0] == DELETED then Absent else node }

  /** A new folder's entry is stored: on a disk dpre that has its cluster ready
      and, of everything in use, just what d0 had. */
  lemma FolderCommit(g: Geo, d0: Disk, m0: Model, dpre: Disk, f: nat, k: nat, name: Name, c: nat, l: nat,
                     x: Sector, d1: Disk)
    returns (m1: Model)
    requires f in m0.depth
    requires f in DirsOf(g, d0, m0) && k < |DiskSlots(g, d0, f)| <= |DirsOf(g, d0, m0)[f]|
             && k / 16 < FolderSize(g, m0, f)
    requires Placeable(DirsOf(g, d0, m0)[f], k) && forall j | 0 <= j < |DiskSlots(g, d0, f)| ::
             !Matches(DiskSlots(g, d0, f)[j], name, false)
    requires name[0] != END && name[0] != DOTCHAR && !IsDot(name)
    requires InTable(g, c) && c !in Used(m0) && Table(g, dpre)[c] == g.EocMark()
    requires Sec(g, dpre, c, 0) == DotSector(g.fat32, c, f)
    requires forall s: nat | 1 <= s < g.spc :: Sec(g, dpre, c, s) == ZeroSector()
    requires l < |dpre| && l == FolderLba(g, m0, f, k / 16) && d1 == dpre[l := x]
    requires x == PutEnt(dpre[l], k % 16, EntBytes(g.fat32, name, ATTR_DIR, c, 0))
    requires WF(g, d0, m0) && Keeps(g, d0, dpre, Used(m0))
    ensures WF(g, d1, m1) && EditedLookups(g, d0, m0, d1, m1, f, name, Shown(name, FolderNode(c)))
    ensures StoredIn(g, d0, m0, d1, m1, f, k, Ent(name, ATTR_DIR, c, 0)) && f in m1.depth && ChainsStay(m0, m1)
  {
    hide *;
    var q, i := k / 16, k % 16;
    UsedIs(m0);
    KeepsWF(g, d0, dpre, m0);
    WFParts(g, dpre, m0);
    GeoPositive(g);
    FolderFits(g, d0, m0, f);
    ClusterFits(g, c);
    ClusterFits(g, f);
    SlotThere(g, dpre, m0, f, q, i);
    PutInto(g, dpre[l], i, name, ATTR_DIR, c, 0);
    var e := Ent(name, ATTR_DIR, c, 0);
    m1 := m0;
    if name[0] == DELETED {
      CommitDead(g, dpre, m0, f, q, i, x, e);
      EditedFrom(g, d0, dpre, m0, d1, m0, f, name, Absent);
      ShownIs(name, FolderNode(c));
      ChainsStayMake(m0, m0);
    } else {
      NewEntChild(name, ATTR_DIR, c, 0);
      TableBound(g, c);
      LoneChain(g, Table(g, dpre), c);
      NewFolderSlotsAre(g, dpre, c, f);
      DiskSlotsOf(g, d0, m0, f);
      NameFree(DiskSlots(g, d0, f), name);
      FolderInsertable(g, dpre, m0, DirsOf(g, dpre, m0), f, k, e, Slots(g.fat32, Body(g, dpre, [c])));
      m1 := With(m0, f, k, c, [c], true);
      CommitInsert(g, dpre, m0, f, q, i, l, x, d1, e, [c], Slots(g.fat32, Body(g, dpre, [c])), m1);
      NewNodeFolder(g, dpre, e, [c]);
      ShownIs(name, FolderNode(c));
      EditedFrom(g, d0, dpre, m0, d1, m1, f, name, FolderNode(c));
      FreshHead(g, Table(g, dpre), m0, DirsOf(g, dpre, m0), c);
      WithFacts(m0, f, k, c, [c], true);
    }
    StoredFrom(g, d0, dpre, m0, d1, d1, m1, f, k, e);
  }

  lemma UsedIs(m: Model)
    ensures Used(m) == m.owner.Keys
  {
  }

  lemma ShownIs(n: Name, node: Node)
    ensures Shown(n, node) == if n[0] == DELETED then Absent else node
  {
  }

  lemma WithFacts(m: Model, f: nat, k: nat, c: nat, nc: seq<nat>, dir: bool)
    requires f in m.depth && c >= 2 && c !in m.ch
    ensures var n := With(m, f, k, c, nc, dir);
            && f in n.depth && c in n.loc && n.loc[c] == (f, k) && (dir ==> c in n.depth) && c in n.ch && n.ch[c] == nc
            && ChainsStay(m, n)
            && (forall y | y in m.depth :: y in n.depth)
  {
  }

  /** An absent name matches no slot. */
  lemma NoEntry(g: Geo, d: Disk, f: nat, n: Name)
    requires Lookup(g, d, f, n) == Absent && !IsDot(n)
    requires var s := DiskSlots(g, d, f); Find(s, n) == |s| ==> forall j | 0 <= j < |s| :: !Matches(s[j], n, false)
    ensures forall j | 0 <= j < |DiskSlots(g, d, f)| :: !Matches(DiskSlots(g, d, f)[j], n, false)
  {
    hide DiskSlots;
    hide Find;
    hide Matches;
  }
}
