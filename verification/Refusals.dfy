/** Writes the device refused, by the sectors they were for: rows and FSInfo, data
    of clusters nothing uses yet, or a folder's own sectors. */
module Refusals {
  import opened Arith
  import opened Bytes
  import opened Layout
  import opened FatTable
  import opened Tree
  import opened Volume
  import opened SectorWrites
  import opened Commits
  import opened Fresh

  /** What came after r0 lies below the root folder. */
  ghost predicate Low(g: Geo, r0: seq<nat>, r: seq<nat>) {
    r0 <= r && forall i | |r0| <= i < |r| :: r[i] < g.RootStart()
  }

  function Place(g: Geo, c: nat, s: nat): int { g.Lba(c) + s }

  /** Sector l is one of a cluster of the table outside u. */
  ghost predicate FreshPlace(g: Geo, u: set<nat>, l: nat) {
    exists c: nat, s: nat :: InTable(g, c) && c !in u && s < g.spc && Place(g, c, s) == l
  }

  /** What came after r0 lies below the root folder or in clusters outside u. */
  ghost predicate Aside(g: Geo, u: set<nat>, r0: seq<nat>, r: seq<nat>) {
    r0 <= r && forall i | |r0| <= i < |r| :: r[i] < g.RootStart() || FreshPlace(g, u, r[i])
  }

  ghost predicate OfFolder(g: Geo, m: Model, f: nat, l: nat) {
    exists q: nat :: q < FolderSize(g, m, f) && FolderLba(g, m, f, q) == l
  }

  /** After r0 a write to a sector of folder f was refused. */
  ghost predicate FolderRefused(g: Geo, m: Model, f: nat, r0: seq<nat>, r: seq<nat>) {
    exists i | |r0| <= i < |r| :: OfFolder(g, m, f, r[i])
  }

  lemma LowSelf(g: Geo, r: seq<nat>)
    ensures Low(g, r, r)
  {
  }

  lemma LowMore(g: Geo, r0: seq<nat>, r: seq<nat>, l: nat)
    requires Low(g, r0, r) && l < g.RootStart()
    ensures Low(g, r0, r + [l])
  {
  }

  lemma LowThen(g: Geo, r0: seq<nat>, r1: seq<nat>, r2: seq<nat>)
    requires Low(g, r0, r1) && Low(g, r1, r2)
    ensures Low(g, r0, r2)
  {
    hide Geo.RootStart;
  }

  lemma LowAside(g: Geo, u: set<nat>, r0: seq<nat>, r: seq<nat>)
    requires Low(g, r0, r)
    ensures Aside(g, u, r0, r)
  {
    hide Geo.RootStart;
    hide FreshPlace;
  }

  lemma AsideSelf(g: Geo, u: set<nat>, r: seq<nat>)
    ensures Aside(g, u, r, r)
  {
  }

  lemma AsideOne(g: Geo, u: set<nat>, r: seq<nat>, c: nat, s: nat, l: nat)
    requires InTable(g, c) && c !in u && s < g.spc && g.Lba(c) + s == l
    ensures Aside(g, u, r, r + [l])
  {
    assert Place(g, c, s) == l;
    assert FreshPlace(g, u, l);
    hide FreshPlace;
  }

  lemma AsideThen(g: Geo, u: set<nat>, r0: seq<nat>, r1: seq<nat>, r2: seq<nat>)
    requires Aside(g, u, r0, r1) && Aside(g, u, r1, r2)
    ensures Aside(g, u, r0, r2)
  {
    hide Geo.RootStart;
    hide FreshPlace;
  }

  /** None of those is a folder's. */
  lemma AsideElsewhere(g: Geo, d: Disk, m: Model, f: nat, r0: seq<nat>, r: seq<nat>)
    requires f in m.depth && Aside(g, Used(m), r0, r) && WF(g, d, m)
    ensures !FolderRefused(g, m, f, r0, r)
  {
    hide WF;
    hide OfFolder;
    hide FreshPlace;
    hide Geo.RootStart;
    forall i | |r0| <= i < |r|
      ensures !OfFolder(g, m, f, r[i])
    {
      NotOfFolder(g, d, m, f, r[i]);
    }
  }

  lemma NotOfFolder(g: Geo, d: Disk, m: Model, f: nat, l: nat)
    requires f in m.depth && (l < g.RootStart() || FreshPlace(g, Used(m), l)) && WF(g, d, m)
    ensures !OfFolder(g, m, f, l)
  {
    hide *;
    if OfFolder(g, m, f, l) {
      var q := FolderOf(g, m, f, l);
      FolderSector(g, d, m, f, q);
      if l >= g.RootStart() {
        var c: nat, s: nat := FreshOf(g, Used(m), l);
        FreshApart(g, d, m, f, q, c, s);
      }
    }
  }

  lemma FolderOf(g: Geo, m: Model, f: nat, l: nat) returns (q: nat)
    requires OfFolder(g, m, f, l)
    ensures q < FolderSize(g, m, f) && FolderLba(g, m, f, q) == l
  {
    hide FolderSize;
    hide FolderLba;
    q :| q < FolderSize(g, m, f) && FolderLba(g, m, f, q) == l;
  }

  lemma FreshOf(g: Geo, u: set<nat>, l: nat) returns (c: nat, s: nat)
    requires FreshPlace(g, u, l)
    ensures InTable(g, c) && c !in u && s < g.spc && g.Lba(c) + s == l
  {
    hide InTable;
    c, s :| InTable(g, c) && c !in u && s < g.spc && Place(g, c, s) == l;
  }

  lemma FreshApart(g: Geo, d: Disk, m: Model, f: nat, q: nat, c: nat, s: nat)
    requires f in m.depth && q < FolderSize(g, m, f) && InTable(g, c) && c !in Used(m) && s < g.spc && WF(g, d, m)
    ensures FolderLba(g, m, f, q) != g.Lba(c) + s
  {
    hide *;
    WFParts(g, d, m);
    ClusterInside(g, c, s);
    if FixedRoot(g, f) {
      FixedPlace(g, m, f, q);
    } else {
      FolderCluster(g, d, m, f, q);
      InFolderParts(g, m, f, q);
      UsedOwner(m);
      ClustersApart(g, c, s, ChainOf(g, m, f)[Quot(q, g.spc)], Rem(q, g.spc));
    }
  }

  /** A folder's sector is written; a new folder in an unused cluster stays. */
  lemma NewFolderKept(g: Geo, d0: Disk, d: Disk, d1: Disk, m: Model, f: nat, q: nat, c: nat, l: nat)
    requires f in m.depth && q < FolderSize(g, m, f) && l == FolderLba(g, m, f, q) && l < |d|
    requires |d1| == |d| && (forall i | 0 <= i < |d| && i != l :: d1[i] == d[i]) && Table(g, d1) == Table(g, d)
    requires InTable(g, c) && c !in Used(m) && Table(g, d)[c] == g.EocMark()
             && Sec(g, d, c, 0) == DotSector(g.fat32, c, f)
    requires forall s: nat | 1 <= s < g.spc :: Sec(g, d, c, s) == ZeroSector()
    requires WF(g, d0, m)
    ensures NewFolder(g, d1, c, f)
  {
    hide *;
    WFParts(g, d0, m);
    GeoPositive(g);
    forall s: nat | s < g.spc
      ensures Sec(g, d1, c, s) == Sec(g, d, c, s)
    {
      FreshApart(g, d0, m, f, q, c, s);
      SecElse(g, d, d1, c, s, l);
    }
    NewFolderMake(g, d1, c, f);
  }

  lemma SecElse(g: Geo, d: Disk, d1: Disk, c: nat, s: nat, l: nat)
    requires |d1| == |d| && (forall i | 0 <= i < |d| && i != l :: d1[i] == d[i]) && g.Lba(c) + s != l
    ensures Sec(g, d1, c, s) == Sec(g, d, c, s)
  {
    hide Geo.Lba;
  }

  lemma UsedOwner(m: Model)
    ensures forall c :: c in Used(m) <==> c in m.owner
  {
  }
}
