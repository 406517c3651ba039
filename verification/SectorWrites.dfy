/** What one sector write in the root or data area does to a volume: which
    chain's sectors it changes, which folder's slots, and that is all. */
module SectorWrites {
  import opened Arith
  import opened Bytes
  import opened Layout
  import opened FatTable
  import opened Chains
  import opened Folders
  import opened Tree
  import opened Volume

  ghost predicate Clusters(g: Geo, chain: seq<nat>) {
    forall i | 0 <= i < |chain| :: InTable(g, chain[i])
  }

  lemma InChain(g: Geo, chain: seq<nat>, i: nat)
    requires GeoOk(g) && Clusters(g, chain) && i < Sectors(g, |chain|)
    ensures Quot(i, g.spc) < |chain| && Rem(i, g.spc) < g.spc
    ensures g.DataStart() <= LbaAt(g, chain, i) < g.DataStart() + g.total * g.spc
  {
    DivBelow(i, |chain|, g.spc);
    DivMod(i, g.spc);
    ClusterInside(g, chain[Quot(i, g.spc)], Rem(i, g.spc));
  }

  lemma SecWritten(g: Geo, d: Disk, c: nat, s: nat, x: Sector, c1: nat, s1: nat)
    requires GeoOk(g) && Fits(g, d) && InTable(g, c) && InTable(g, c1) && s < g.spc && s1 < g.spc
    ensures 0 <= g.Lba(c) + s < |d|
    ensures Sec(g, d[g.Lba(c) + s := x], c1, s1) == if c1 == c && s1 == s then x else Sec(g, d, c1, s1)
  {
    ClusterInside(g, c, s);
    ClusterInside(g, c1, s1);
    if c1 != c || s1 != s { ClustersApart(g, c, s, c1, s1); }
  }

  lemma BodyWrittenAt(g: Geo, d: Disk, chain: seq<nat>, i: nat, x: Sector, l: nat, j: nat)
    requires GeoOk(g) && Fits(g, d) && Clusters(g, chain) && Injective(chain)
    requires i < Sectors(g, |chain|) && j < Sectors(g, |chain|)
    requires Quot(i, g.spc) < |chain| && l == LbaAt(g, chain, i) && l < |d|
    ensures SecAt(g, d[l := x], chain, j) == if j == i then x else SecAt(g, d, chain, j)
  {
    InChain(g, chain, i);
    InChain(g, chain, j);
    hide Quot;
    hide Rem;
    hide Sectors;
    hide Geo.Lba;
    hide GeoOk;
    hide Fits;
    assert Sec(g, d[l := x], chain[Quot(j, g.spc)], Rem(j, g.spc)) ==
      if chain[Quot(j, g.spc)] == chain[Quot(i, g.spc)] && Rem(j, g.spc) == Rem(i, g.spc) then x
      else Sec(g, d, chain[Quot(j, g.spc)], Rem(j, g.spc)) by {
    SecWritten(g, d, chain[Quot(i, g.spc)], Rem(i, g.spc), x, chain[Quot(j, g.spc)], Rem(j, g.spc));
    }
    if chain[Quot(j, g.spc)] == chain[Quot(i, g.spc)] && Rem(j, g.spc) == Rem(i, g.spc) {
      SamePlace(i, j, g.spc);
    }
  }

  /** Writing one sector of a chain changes that sector of its body. */
  lemma BodyWritten(g: Geo, d: Disk, chain: seq<nat>, i: nat, x: Sector)
    requires GeoOk(g) && Fits(g, d) && Clusters(g, chain) && Injective(chain) && i < Sectors(g, |chain|)
    ensures Quot(i, g.spc) < |chain| && 0 <= LbaAt(g, chain, i) < |d|
    ensures Body(g, d[LbaAt(g, chain, i) := x], chain) == Body(g, d, chain)[i := x]
  {
    InChain(g, chain, i);
    hide Sectors;
    var l := LbaAt(g, chain, i);
    forall j: nat | j < Sectors(g, |chain|)
      ensures SecAt(g, d[l := x], chain, j) == if j == i then x else SecAt(g, d, chain, j)
    {
      BodyWrittenAt(g, d, chain, i, x, l, j);
    }
    hide SecAt;
  }

  lemma BodyElsewhere(g: Geo, d: Disk, chain: seq<nat>, c: nat, s: nat, x: Sector)
    requires GeoOk(g) && Fits(g, d) && Clusters(g, chain) && InTable(g, c) && s < g.spc && c !in chain
    ensures 0 <= g.Lba(c) + s < |d| && Body(g, d[g.Lba(c) + s := x], chain) == Body(g, d, chain)
  {
    ClusterInside(g, c, s);
    var e := d[g.Lba(c) + s := x];
    forall j: nat | j < Sectors(g, |chain|)
      ensures SecAt(g, e, chain, j) == SecAt(g, d, chain, j)
    {
      InChain(g, chain, j);
      SecWritten(g, d, c, s, x, chain[Quot(j, g.spc)], Rem(j, g.spc));
    }
  }

  lemma BodyUnderRoot(g: Geo, d: Disk, chain: seq<nat>, l: nat, x: Sector)
    requires GeoOk(g) && Fits(g, d) && Clusters(g, chain) && l < g.DataStart() && l < |d|
    ensures Body(g, d[l := x], chain) == Body(g, d, chain)
  {
    forall j: nat | j < Sectors(g, |chain|)
      ensures SecAt(g, d[l := x], chain, j) == SecAt(g, d, chain, j)
    {
      InChain(g, chain, j);
    }
  }

  /** The FAT, every copy of it, and the reserved sectors lie below the root. */
  lemma AboveFat(g: Geo, d: Disk, l: nat, x: Sector)
    requires GeoOk(g) && Fits(g, d) && g.RootStart() <= l < |d|
    ensures Table(g, d[l := x]) == Table(g, d) && StaysOf(g, d[l := x]) == StaysOf(g, d)
    ensures forall c: nat | c < g.Limit() :: FatGet(g, d[l := x], c) == FatGet(g, d, c)
    ensures FsHonest(g, d) ==> FsHonest(g, d[l := x])
    ensures FsUnknown(g, d) ==> FsUnknown(g, d[l := x])
    ensures forall row: nat | row < g.Rows() && RowAgrees(g, d, row) :: RowAgrees(g, d[l := x], row)
  {
    RootAbove(g);
    OutsideFirstCopy(g, d, l, x);
    forall row: nat | row < g.Rows() && RowAgrees(g, d, row)
      ensures RowAgrees(g, d[l := x], row)
    {
      RowInside(g, row);
      CopyInside(g, 0, row);
      forall f: nat | f < g.nfats
        ensures g.CopyLba(f, row) < g.RootStart() <= |d|
      {
        CopyInside(g, f, row);
      }
    }
  }

  lemma RowInside(g: Geo, row: nat)
    requires GeoOk(g) && row < g.Rows()
    ensures row < g.fatSectors
  {
  }

  // ----- folder sectors

  /** Where sector q of folder f is. */
  function FolderLba(g: Geo, m: Model, f: nat, q: nat): int {
    if FixedRoot(g, f) then g.RootStart() + q
    else if g.spc > 0 && Quot(q, g.spc) < |ChainOf(g, m, f)| then LbaAt(g, ChainOf(g, m, f), q) else 0
  }

  /** The sectors of a folder. */
  function FolderSize(g: Geo, m: Model, f: nat): nat {
    if FixedRoot(g, f) then g.rootSectors else Sectors(g, |ChainOf(g, m, f)|)
  }

  /** Those of them that searches look at. */
  function SeenSize(g: Geo, m: Model, f: nat): nat {
    if FixedRoot(g, f) then g.rootSectors else Least(FolderSize(g, m, f), MAX_DIR_SECTORS)
  }

  /** The device ends before sector l. */
  ghost predicate Missing(d: Disk, l: nat) { l >= |d| }

  lemma MissingIs(d: Disk, l: nat)
    ensures Missing(d, l) <==> l >= |d|
  {
  }

  lemma NotMissing(d: Disk, l: nat)
    requires l < |d|
    ensures !Missing(d, l)
  {
  }

  /** The chain at h is in order and each cluster of it is h's. */
  ghost predicate ChainIn(g: Geo, d: Disk, m: Model, h: nat) {
    && h in m.ch && Clusters(g, m.ch[h]) && Injective(m.ch[h]) && 1 <= |m.ch[h]| <= g.total && m.ch[h][0] == h
    && IsChain(Table(g, d), g.Eoc(), m.ch[h])
    && forall i | 0 <= i < |m.ch[h]| :: m.ch[h][i] in m.owner && m.owner[m.ch[h][i]] == h
  }

  lemma ChainInParts(g: Geo, d: Disk, m: Model, h: nat)
    requires ChainIn(g, d, m, h)
    ensures h in m.ch && 1 <= |m.ch[h]| <= g.total && m.ch[h][0] == h
    ensures forall i | 0 <= i < |m.ch[h]| :: m.ch[h][i] in m.owner && m.owner[m.ch[h][i]] == h
    ensures IsChain(Table(g, d), g.Eoc(), m.ch[h]) && Clusters(g, m.ch[h]) && Injective(m.ch[h])
  {
    hide IsChain;
    hide Clusters;
    hide Injective;
  }

  lemma ModelChain(g: Geo, d: Disk, m: Model, h: nat)
    requires h in m.ch && WF(g, d, m)
    ensures ChainIn(g, d, m, h)
  {
    hide HeadsOk;
    hide FolderOk;
    assert Owns(m, h);
    ChainUsed(g, Table(g, d), m, h);
    ChainInjective(Table(g, d), g.Eoc(), m.ch[h]);
    InjectiveShort(Table(g, d), m.ch[h]);
  }

  lemma FolderChain(g: Geo, d: Disk, m: Model, f: nat)
    requires WF(g, d, m) && f in m.depth
    ensures !FixedRoot(g, f) ==> HeadOf(g, f) in m.ch && ChainOf(g, m, f) == m.ch[HeadOf(g, f)]
    ensures Clusters(g, ChainOf(g, m, f)) && Injective(ChainOf(g, m, f))
    ensures |FolderBody(g, d, ChainOf(g, m, f), f)| == FolderSize(g, m, f)
  {
    hide *;
    WFParts(g, d, m);
    DiskSlotsOf(g, d, m, f);
    ChainOfHead(g, m, f);
    if HeadOf(g, f) in m.ch {
      ModelChain(g, d, m, HeadOf(g, f));
      ChainInParts(g, d, m, HeadOf(g, f));
      } else { NoClusters(g);
    }
    BodySize(g, d, m, f);
  }

  lemma NoClusters(g: Geo)
    ensures Clusters(g, []) && Injective([])
  {
  }

  lemma ChainOfHead(g: Geo, m: Model, f: nat)
    ensures ChainOf(g, m, f) == if HeadOf(g, f) in m.ch then m.ch[HeadOf(g, f)] else []
  {
  }

  lemma BodySize(g: Geo, d: Disk, m: Model, f: nat)
    requires GeoOk(g) && Fits(g, d)
    ensures |FolderBody(g, d, ChainOf(g, m, f), f)| == FolderSize(g, m, f)
  {
    hide Sectors;
    hide ChainOf;
    NonNeg(g.total, g.spc);
  }

  lemma FolderSector(g: Geo, d: Disk, m: Model, f: nat, q: nat)
    requires WF(g, d, m) && f in m.depth && q < FolderSize(g, m, f)
    ensures |FolderBody(g, d, ChainOf(g, m, f), f)| == FolderSize(g, m, f)
    ensures g.RootStart() <= FolderLba(g, m, f, q) < |d| && FolderLba(g, m, f, q) > 0
    ensures d[FolderLba(g, m, f, q)] == FolderBody(g, d, ChainOf(g, m, f), f)[q]
    ensures !FixedRoot(g, f) ==> Quot(q, g.spc) < |ChainOf(g, m, f)|
  {
    hide *;
    FolderChain(g, d, m, f);
    WFParts(g, d, m);
    RootAbove(g);
    if FixedRoot(g, f) {
      FixedSector(g, d, m, f, q);
    } else {
      ChainSector(g, d, m, f, q);
    }
  }

  lemma FixedSector(g: Geo, d: Disk, m: Model, f: nat, q: nat)
    requires GeoOk(g) && Fits(g, d) && FixedRoot(g, f) && q < FolderSize(g, m, f) && 1 <= g.RootStart()
    ensures |FolderBody(g, d, ChainOf(g, m, f), f)| == FolderSize(g, m, f)
    ensures g.RootStart() <= FolderLba(g, m, f, q) < |d| && FolderLba(g, m, f, q) > 0
    ensures d[FolderLba(g, m, f, q)] == FolderBody(g, d, ChainOf(g, m, f), f)[q]
  {
  }

  lemma ChainSector(g: Geo, d: Disk, m: Model, f: nat, q: nat)
    requires GeoOk(g) && Fits(g, d) && !FixedRoot(g, f) && q < FolderSize(g, m, f)
             && 1 <= g.RootStart() <= g.DataStart()
    requires Clusters(g, ChainOf(g, m, f))
    ensures |FolderBody(g, d, ChainOf(g, m, f), f)| == FolderSize(g, m, f)
    ensures g.RootStart() <= FolderLba(g, m, f, q) < |d| && FolderLba(g, m, f, q) > 0
    ensures d[FolderLba(g, m, f, q)] == FolderBody(g, d, ChainOf(g, m, f), f)[q]
    ensures Quot(q, g.spc) < |ChainOf(g, m, f)|
  {
    hide Sectors;
    hide Quot;
    hide Rem;
    hide ChainOf;
    hide Geo.Lba;
    hide Geo.RootStart;
    InChain(g, ChainOf(g, m, f), q);
    assert g.spc > 0;
    assert g.DataStart() + g.total * g.spc <= |d|;
    hide GeoOk;
    hide Fits;
  }

  lemma WFParts(g: Geo, d: Disk, m: Model)
    requires WF(g, d, m)
    ensures GeoOk(g) && Fits(g, d) && ChainsOk(g, Table(g, d), m) && HeadsOk(g, m, DirsOf(g, d, m))
    ensures WellFormed(g, Table(g, d), m, DirsOf(g, d, m))
  {
  }

  lemma FolderHead(g: Geo, d: Disk, m: Model, f: nat)
    requires WF(g, d, m) && f in m.depth
    ensures HeadOf(g, f) in m.ch || (HeadOf(g, f) == 0 && FixedRoot(g, f))
  {
    hide *;
    FolderChain(g, d, m, f);
    if FixedRoot(g, f) { FixedHead(g, f); }
  }

  lemma FixedHead(g: Geo, f: nat)
    requires FixedRoot(g, f)
    ensures HeadOf(g, f) == 0
  {
  }
}
