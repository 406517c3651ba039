/** The one directory-sector write each operation turns on: how it changes the
    folders of a volume, and that the volume it leaves is well-formed. */
module Commits {
  import opened Arith
  import opened Bytes
  import opened Layout
  import opened FatTable
  import opened Chains
  import opened Folders
  import opened Tree
  import opened Volume
  import opened Paths
  import opened SectorWrites

  lemma HeadsApart(g: Geo, d: Disk, m: Model, f0: nat, f1: nat)
    requires WF(g, d, m) && f0 in m.depth && f1 in m.depth && f0 != f1
    ensures HeadOf(g, f0) != HeadOf(g, f1)
  {
    hide LocOk;
    hide FolderOk;
    hide ChainsOk;
  }

  /** The cluster under sector q of a chain folder, and whose it is. */
  lemma FolderCluster(g: Geo, d: Disk, m: Model, f: nat, q: nat)
    requires WF(g, d, m) && f in m.depth && !FixedRoot(g, f) && q < FolderSize(g, m, f)
    ensures InFolder(g, m, f, q)
  {
    hide *;
    FolderSector(g, d, m, f, q);
    FolderChain(g, d, m, f);
    ModelChain(g, d, m, HeadOf(g, f));
    ChainInParts(g, d, m, HeadOf(g, f));
    WFParts(g, d, m);
    FolderClusterPlace(g, m, f, q);
    InFolderMake(g, m, f, q);
  }

  /** Sector q of the folder is one of a cluster of its chain. */
  ghost predicate InFolder(g: Geo, m: Model, f: nat, q: nat) {
    var chain := ChainOf(g, m, f);
    && g.spc > 0 && Quot(q, g.spc) < |chain| && Rem(q, g.spc) < g.spc
    && var c := chain[Quot(q, g.spc)];
    && InTable(g, c) && c in m.owner && m.owner[c] == HeadOf(g, f)
    && FolderLba(g, m, f, q) == g.Lba(c) + Rem(q, g.spc)
  }

  lemma InFolderParts(g: Geo, m: Model, f: nat, q: nat)
    requires InFolder(g, m, f, q)
    ensures var chain := ChainOf(g, m, f);
            && g.spc > 0 && Quot(q, g.spc) < |chain| && Rem(q, g.spc) < g.spc
            && var c := chain[Quot(q, g.spc)];
            && InTable(g, c) && c in m.owner && m.owner[c] == HeadOf(g, f)
            && FolderLba(g, m, f, q) == g.Lba(c) + Rem(q, g.spc)
  {
    hide ChainOf;
    hide Quot;
    hide Rem;
    hide FolderLba;
  }

  lemma InFolderMake(g: Geo, m: Model, f: nat, q: nat)
    requires g.spc > 0 && Quot(q, g.spc) < |ChainOf(g, m, f)| && Rem(q, g.spc) < g.spc
    requires var c := ChainOf(g, m, f)[Quot(q, g.spc)];
             && InTable(g, c) && c in m.owner && m.owner[c] == HeadOf(g, f)
             && FolderLba(g, m, f, q) == g.Lba(c) + Rem(q, g.spc)
    ensures InFolder(g, m, f, q)
  {
    hide ChainOf;
    hide Quot;
    hide Rem;
    hide FolderLba;
  }

  lemma FolderClusterPlace(g: Geo, m: Model, f: nat, q: nat)
    requires GeoOk(g) && !FixedRoot(g, f) && q < FolderSize(g, m, f) && Clusters(g, ChainOf(g, m, f))
    ensures g.spc > 0 && Quot(q, g.spc) < |ChainOf(g, m, f)| && Rem(q, g.spc) < g.spc
    ensures InTable(g, ChainOf(g, m, f)[Quot(q, g.spc)])
    ensures FolderLba(g, m, f, q) == g.Lba(ChainOf(g, m, f)[Quot(q, g.spc)]) + Rem(q, g.spc)
  {
    hide ChainOf;
    hide Geo.Lba;
    InChain(g, ChainOf(g, m, f), q);
    hide Sectors;
  }

  /** Writing a folder's sector leaves every other chain's sectors alone. */
  lemma OtherChain(g: Geo, d: Disk, m: Model, f: nat, q: nat, x: Sector, h: nat)
    requires WF(g, d, m) && f in m.depth && q < FolderSize(g, m, f)
    requires h in m.ch && (FixedRoot(g, f) || h != HeadOf(g, f))
    ensures 0 <= FolderLba(g, m, f, q) < |d|
    ensures Body(g, d[FolderLba(g, m, f, q) := x], m.ch[h]) == Body(g, d, m.ch[h])
  {
    hide *;
    FolderSector(g, d, m, f, q);
    ModelChain(g, d, m, h);
    ChainInParts(g, d, m, h);
    WFParts(g, d, m);
    if FixedRoot(g, f) {
      FixedPlace(g, m, f, q);
      BodyUnderRoot(g, d, m.ch[h], FolderLba(g, m, f, q), x);
    } else {
      FolderCluster(g, d, m, f, q);
      InFolderParts(g, m, f, q);
      BodyElsewhere(g, d, m.ch[h], ChainOf(g, m, f)[Quot(q, g.spc)], Rem(q, g.spc), x);
    }
  }

  lemma FixedPlace(g: Geo, m: Model, f: nat, q: nat)
    requires FixedRoot(g, f) && q < FolderSize(g, m, f)
    ensures FolderLba(g, m, f, q) == g.RootStart() + q < g.DataStart()
  {
  }

  lemma FolderWritten(g: Geo, d: Disk, m: Model, f: nat, q: nat, x: Sector)
    requires WF(g, d, m) && f in m.depth && q < FolderSize(g, m, f)
    ensures 0 <= FolderLba(g, m, f, q) < |d| && q < |FolderBody(g, d, ChainOf(g, m, f), f)|
    ensures FolderBody(g, d[FolderLba(g, m, f, q) := x], ChainOf(g, m, f), f) ==
            FolderBody(g, d, ChainOf(g, m, f), f)[q := x]
  {
    hide *;
    FolderSector(g, d, m, f, q);
    FolderChain(g, d, m, f);
    WFParts(g, d, m);
    if FixedRoot(g, f) {
      FixedWritten(g, d, ChainOf(g, m, f), f, q, x);
      FixedPlace(g, m, f, q);
    } else {
      ChainWritten(g, d, m, f, q, x);
    }
  }

  lemma FixedWritten(g: Geo, d: Disk, chain: seq<nat>, f: nat, q: nat, x: Sector)
    requires FixedRoot(g, f) && g.DataStart() <= |d| && q < |FolderBody(g, d, chain, f)|
    ensures g.RootStart() + q < |d|
    ensures FolderBody(g, d[g.RootStart() + q := x], chain, f) == FolderBody(g, d, chain, f)[q := x]
  {
    hide Geo.RootStart;
  }

  lemma ChainWritten(g: Geo, d: Disk, m: Model, f: nat, q: nat, x: Sector)
    requires GeoOk(g) && Fits(g, d) && !FixedRoot(g, f) && q < FolderSize(g, m, f)
    requires Clusters(g, ChainOf(g, m, f)) && Injective(ChainOf(g, m, f))
    ensures 0 <= FolderLba(g, m, f, q) < |d| && q < |FolderBody(g, d, ChainOf(g, m, f), f)|
    ensures FolderBody(g, d[FolderLba(g, m, f, q) := x], ChainOf(g, m, f), f) ==
            FolderBody(g, d, ChainOf(g, m, f), f)[q := x]
  {
    hide ChainOf;
    hide Sectors;
    hide Body;
    hide Quot;
    hide Rem;
    hide Geo.Lba;
    hide GeoOk;
    hide Fits;
    BodyWritten(g, d, ChainOf(g, m, f), q, x);
    assert g.spc > 0 by { GeoPositive(g); }
  }

  lemma GeoPositive(g: Geo)
    requires GeoOk(g)
    ensures 1 <= g.spc < 256 && 1 <= g.nfats < 256 && g.reserved >= 1 && g.Limit() <= g.BadMark() && g.DataStart() < U32
  {
  }

  lemma OtherFolder(g: Geo, d: Disk, m: Model, f: nat, q: nat, x: Sector, f1: nat)
    requires WF(g, d, m) && f in m.depth && q < FolderSize(g, m, f) && f1 in m.depth && f1 != f
    ensures 0 <= FolderLba(g, m, f, q) < |d|
    ensures FolderBody(g, d[FolderLba(g, m, f, q) :=
            x], ChainOf(g, m, f1), f1) == FolderBody(g, d, ChainOf(g, m, f1), f1)
  {
    hide *;
    FolderSector(g, d, m, f, q);
    FolderChain(g, d, m, f1);
    HeadsApart(g, d, m, f, f1);
    WFParts(g, d, m);
    if FixedRoot(g, f1) {
      OneFixedRoot(g, f, f1);
      FolderCluster(g, d, m, f, q);
      InFolderParts(g, m, f, q);
      ClusterInside(g, ChainOf(g, m, f)[Quot(q, g.spc)], Rem(q, g.spc));
      AboveRoot(g, d, FolderLba(g, m, f, q), x, ChainOf(g, m, f1), f1);
    } else {
      OtherChain(g, d, m, f, q, x, HeadOf(g, f1));
      ChainBody(g, d, ChainOf(g, m, f1), f1);
      ChainBody(g, d[FolderLba(g, m, f, q) := x], ChainOf(g, m, f1), f1);
    }
  }

  lemma OneFixedRoot(g: Geo, f: nat, f1: nat)
    requires FixedRoot(g, f1) && f != f1
    ensures !FixedRoot(g, f)
  {
  }

  lemma ChainBody(g: Geo, d: Disk, chain: seq<nat>, f: nat)
    requires !FixedRoot(g, f)
    ensures FolderBody(g, d, chain, f) == Body(g, d, chain)
  {
  }

  lemma AboveRoot(g: Geo, d: Disk, l: nat, x: Sector, chain: seq<nat>, f: nat)
    requires FixedRoot(g, f) && g.DataStart() <= l < |d|
    ensures FolderBody(g, d[l := x], chain, f) == FolderBody(g, d, chain, f)
  {
    hide Geo.RootStart;
  }

  /** Writing a folder sector with just entry i changed changes just that slot. */
  lemma SlotStored(g: Geo, d: Disk, m: Model, f: nat, q: nat, i: nat, x: Sector, e: Ent)
    requires WF(g, d, m) && f in m.depth && q < FolderSize(g, m, f) && i < 16
    requires 0 <= FolderLba(g, m, f, q) < |d|
    requires forall j: nat | j < 16 ::
      Decode(g.fat32, x, j) == if j == i then e else Decode(g.fat32, d[FolderLba(g, m, f, q)], j)
    ensures f in DirsOf(g, d, m) && 16 * q + i < |DirsOf(g, d, m)[f]|
    ensures DirsOf(g, d[FolderLba(g, m, f, q) := x], m) == DirsOf(g, d, m)[f := DirsOf(g, d, m)[f][16 * q + i := e]]
  {
    hide *;
    hide DirsOf;
    var l := FolderLba(g, m, f, q);
    var d1 := d[l := x];
    FolderSector(g, d, m, f, q);
    FolderWritten(g, d, m, f, q, x);
    SlotWritten(g.fat32, FolderBody(g, d, ChainOf(g, m, f), f), q, i, x, e);
    forall f1 | f1 in m.depth && f1 != f
      ensures FolderSlots(g, d1, m, f1) == FolderSlots(g, d, m, f1)
    {
      OtherFolder(g, d, m, f, q, x, f1);
      SlotsBy(g, d, d1, m, f1);
    }
    SlotsAre(g, d, m, f);
    SlotsAre(g, d1, m, f);
    DirsUpdated(g, d, d1, m, f, 16 * q + i, e);
  }

  lemma SlotsAre(g: Geo, d: Disk, m: Model, f: nat)
    ensures FolderSlots(g, d, m, f) == Slots(g.fat32, FolderBody(g, d, ChainOf(g, m, f), f))
  {
  }

  lemma SlotsBy(g: Geo, d0: Disk, d1: Disk, m: Model, f: nat)
    requires FolderBody(g, d1, ChainOf(g, m, f), f) == FolderBody(g, d0, ChainOf(g, m, f), f)
    ensures FolderSlots(g, d1, m, f) == FolderSlots(g, d0, m, f)
  {
  }

  lemma DirsUpdated(g: Geo, d0: Disk, d1: Disk, m: Model, f: nat, k: nat, e: Ent)
    requires f in m.depth && k < |FolderSlots(g, d0, m, f)|
    requires FolderSlots(g, d1, m, f) == FolderSlots(g, d0, m, f)[k := e]
    requires forall f1 | f1 in m.depth && f1 != f :: FolderSlots(g, d1, m, f1) == FolderSlots(g, d0, m, f1)
    ensures f in DirsOf(g, d0, m) && DirsOf(g, d0, m)[f] == FolderSlots(g, d0, m, f)
    ensures DirsOf(g, d1, m) == DirsOf(g, d0, m)[f := DirsOf(g, d0, m)[f][k := e]]
  {
    hide FolderSlots;
  }

  // ----- names before and after

  /** Files the two models share have the same chains and sectors. */
  ghost predicate SameFiles(g: Geo, d0: Disk, m0: Model, d1: Disk, m1: Model) {
    forall h | h in m0.loc && h in m1.loc && h in m0.ch && h in m1.ch && h !in m0.depth ::
      m1.ch[h] == m0.ch[h] && Body(g, d1, m1.ch[h]) == Body(g, d0, m0.ch[h])
  }

  /** Folders that differ at most in slot k, where neither has the name, find
      the name alike. */
  lemma FindSame(s0: seq<Ent>, s1: seq<Ent>, k: nat, n: Name)
    requires Ended(s0) && UniqueNames(s0) && Ended(s1) && UniqueNames(s1) && |s0| == |s1|
    requires forall j | 0 <= j < |s0| && j != k :: s1[j] == s0[j]
    requires k < |s0| ==> !Matches(s0[k], n, false) && !Matches(s1[k], n, false)
    ensures Find(s1, n) == Find(s0, n) && (Find(s0, n) == |s0| || Find(s0, n) != k)
  {
    FindFromSpec(s0, n, false, 0);
    FindFromSpec(s1, n, false, 0);
    var i, j := Find(s0, n), Find(s1, n);
    if i < |s0| { FindUnique(s1, n, false, i); }
    if j < |s1| { FindUnique(s0, n, false, j); }
  }

  lemma KidNode(g: Geo, d0: Disk, m0: Model, d1: Disk, m1: Model, x: nat, k: nat, e: Ent)
    requires WF(g, d0, m0) && WF(g, d1, m1) && SameFiles(g, d0, m0, d1, m1)
    requires KidOk(g, m0, x, k, e) && KidOk(g, m1, x, k, e) && x in DirsOf(g, d0, m0)
    requires k < |DirsOf(g, d0, m0)[x]| && DirsOf(g, d0, m0)[x][k] == e
    ensures NodeOf(g, d1, e) == NodeOf(g, d0, e)
  {
    hide *;
    hide NodeOf;
    if IsDir(e) || e.cluster < 2 {
      PlainNode(g, d0, d1, e);
    } else {
      KidFile(g, m0, x, k, e);
      KidFile(g, m1, x, k, e);
      WFParts(g, d0, m0);
      HeadPlace(g, m0, DirsOf(g, d0, m0), e.cluster);
      DiskChainOf(g, d0, m0, e.cluster);
      DiskChainOf(g, d1, m1, e.cluster);
      FilesAgree(g, d0, m0, d1, m1, e.cluster);
      FileNodes(g, d0, d1, e);
    }
  }

  lemma PlainNode(g: Geo, d0: Disk, d1: Disk, e: Ent)
    requires IsDir(e) || e.cluster < 2
    ensures NodeOf(g, d1, e) == NodeOf(g, d0, e) && (e.cluster < 2 && !IsDir(e) ==> NodeOf(g, d0, e) == FileNode([]))
  {
  }

  lemma KidFile(g: Geo, m: Model, x: nat, k: nat, e: Ent)
    requires KidOk(g, m, x, k, e) && e.cluster >= 2
    ensures e.cluster in m.ch && e.cluster in m.loc && m.loc[e.cluster] == (x, k)
    ensures !IsDir(e) && e.size > 0 ==> e.size <= Sectors(g, |m.ch[e.cluster]|) * 512
  {
    hide Sectors;
  }

  lemma HeadPlace(g: Geo, m: Model, s: Dirs, h: nat)
    requires HeadsOk(g, m, s) && h in m.loc
    ensures h >= 2 && h in m.ch && m.loc[h].0 in s && m.loc[h].0 in m.depth && m.loc[h].1 < |s[m.loc[h].0]|
    ensures var e := s[m.loc[h].0][m.loc[h].1]; Child(e) && e.cluster == h && (IsDir(e) <==> h in m.depth)
    ensures h in m.depth ==> m.depth[h] == m.depth[m.loc[h].0] + 1
  {
    hide LocOk;
    hide Sectors;
    LocFacts(m, s, h);
  }

  lemma FilesAgree(g: Geo, d0: Disk, m0: Model, d1: Disk, m1: Model, h: nat)
    requires SameFiles(g, d0, m0, d1, m1) && h in m0.loc && h in m1.loc && h in m0.ch && h in m1.ch && h !in m0.depth
    ensures m1.ch[h] == m0.ch[h] && Body(g, d1, m1.ch[h]) == Body(g, d0, m0.ch[h])
  {
    hide Body;
  }

  lemma FileNodes(g: Geo, d0: Disk, d1: Disk, e: Ent)
    requires !IsDir(e)
    requires Body(g, d1, DiskChain(g, d1, e.cluster)) == Body(g, d0, DiskChain(g, d0, e.cluster))
    ensures NodeOf(g, d1, e) == NodeOf(g, d0, e)
  {
    hide Body;
    hide DiskChain;
  }

  /** A name the changed slot does not have reads as before. */
  lemma OtherName(g: Geo, d0: Disk, m0: Model, d1: Disk, m1: Model, x: nat, k: nat, n: Name)
    requires WF(g, d0, m0) && WF(g, d1, m1) && SameFiles(g, d0, m0, d1, m1)
    requires x in m0.depth && x in m1.depth && x in DirsOf(g, d0, m0) && x in DirsOf(g, d1, m1)
    requires var s0, s1 := DirsOf(g, d0, m0)[x], DirsOf(g, d1, m1)[x];
             && |s0| == |s1| && (forall j | 0 <= j < |s0| && j != k :: s1[j] == s0[j])
             && (k < |s0| ==> !Matches(s0[k], n, false) && !Matches(s1[k], n, false))
    ensures Lookup(g, d1, x, n) == Lookup(g, d0, x, n)
  {
    hide *;
    DiskSlotsOf(g, d0, m0, x);
    DiskSlotsOf(g, d1, m1, x);
    if IsDot(n) {
      DotAbsent(g, d0, x, n);
      DotAbsent(g, d1, x, n);
    } else {
      var s0, s1 := DiskSlots(g, d0, x), DiskSlots(g, d1, x);
      SeenFolder(g, d0, m0, x);
      SeenFolder(g, d1, m1, x);
      SeenAlike(g, x, DirsOf(g, d0, m0)[x], DirsOf(g, d1, m1)[x]);
      FindSame(s0, s1, k, n);
      LookupEntry(g, d0, m0, x, n);
      LookupEntry(g, d1, m1, x, n);
      if Find(s0, n) < |s0| { KidNode(g, d0, m0, d1, m1, x, Find(s0, n), s0[Find(s0, n)]); }
    }
  }

  lemma SeenAlike(g: Geo, f: nat, s0: seq<Ent>, s1: seq<Ent>)
    requires |s0| == |s1|
    ensures |Seen(g, f, s0)| == |Seen(g, f, s1)| && Seen(g, f, s0) <= s0 && Seen(g, f, s1) <= s1
  {
  }

  lemma DotAbsent(g: Geo, d: Disk, x: nat, n: Name)
    requires IsDot(n)
    ensures Lookup(g, d, x, n) == Absent
  {
  }

  /** The folder slot that entry i of folder sector q is. */
  ghost predicate AtSlot(g: Geo, d: Disk, m: Model, f: nat, q: nat, i: nat) {
    && f in m.depth && q < FolderSize(g, m, f) && i < 16 && 0 <= FolderLba(g, m, f, q) < |d|
    && f in DirsOf(g, d, m) && 16 * q + i < |DirsOf(g, d, m)[f]|
  }

  lemma SlotThere(g: Geo, d: Disk, m: Model, f: nat, q: nat, i: nat)
    requires WF(g, d, m) && f in m.depth && q < FolderSize(g, m, f) && i < 16
    ensures AtSlot(g, d, m, f, q, i) && g.RootStart() <= FolderLba(g, m, f, q)
    ensures DirsOf(g, d, m)[f][16 * q + i] == Decode(g.fat32, d[FolderLba(g, m, f, q)], i)
  {
    hide *;
    FolderSector(g, d, m, f, q);
    SlotAtSector(g, d, m, f, q, i);
  }

  lemma SlotCount(g: Geo, d: Disk, m: Model, f: nat)
    requires WF(g, d, m) && f in m.depth
    ensures f in DirsOf(g, d, m) && |DirsOf(g, d, m)[f]| == 16 * FolderSize(g, m, f)
  {
    hide *;
    FolderChain(g, d, m, f);
    FolderKey(g, d, m, f);
    SlotCountIn(g, d, m, f);
  }

  lemma SlotCountIn(g: Geo, d: Disk, m: Model, f: nat)
    requires f in DirsOf(g, d, m) && f in m.depth && |FolderBody(g, d, ChainOf(g, m, f), f)| == FolderSize(g, m, f)
    ensures |DirsOf(g, d, m)[f]| == 16 * FolderSize(g, m, f)
  {
    hide FolderBody;
    hide FolderSize;
    hide ChainOf;
  }

  lemma SlotAtSector(g: Geo, d: Disk, m: Model, f: nat, q: nat, i: nat)
    requires f in m.depth && q < FolderSize(g, m, f) && i < 16 && 0 <= FolderLba(g, m, f, q) < |d|
    requires |FolderBody(g, d, ChainOf(g, m, f), f)| == FolderSize(g, m, f)
    requires d[FolderLba(g, m, f, q)] == FolderBody(g, d, ChainOf(g, m, f), f)[q]
    ensures AtSlot(g, d, m, f, q, i)
    ensures DirsOf(g, d, m)[f][16 * q + i] == Decode(g.fat32, d[FolderLba(g, m, f, q)], i)
  {
    hide FolderBody;
    hide FolderLba;
    hide FolderSize;
    hide Decode;
    hide ChainOf;
  }

  /** What was in the slot before. */
  function SlotOf(g: Geo, d: Disk, m: Model, f: nat, k: nat): Ent
    requires f in DirsOf(g, d, m) && k < |DirsOf(g, d, m)[f]|
  {
    DirsOf(g, d, m)[f][k]
  }

  lemma FilesStay(g: Geo, d: Disk, m: Model, f: nat, q: nat, x: Sector, m1: Model)
    requires WF(g, d, m) && f in m.depth && q < FolderSize(g, m, f) && 0 <= FolderLba(g, m, f, q) < |d|
    requires forall h | h in m.loc && h in m1.loc && h in m.ch && h in m1.ch :: m1.ch[h] == m.ch[h]
    ensures SameFiles(g, d, m, d[FolderLba(g, m, f, q) := x], m1)
  {
    hide Body;
    hide WF;
    hide FolderLba;
    hide FolderSize;
    forall h | h in m.loc && h in m1.loc && h in m.ch && h in m1.ch && h !in m.depth
      ensures Body(g, d[FolderLba(g, m, f, q) := x], m1.ch[h]) == Body(g, d, m.ch[h])
    {
      WFParts(g, d, m);
      NotFolderHead(g, d, m, f, h);
      OtherChain(g, d, m, f, q, x, h);
    }
  }

  lemma NotFolderHead(g: Geo, d: Disk, m: Model, f: nat, h: nat)
    requires HeadsOk(g, m, DirsOf(g, d, m)) && f in m.depth && h in m.loc && h !in m.depth
    ensures h != HeadOf(g, f)
  {
    hide LocOk;
    hide Sectors;
    hide DirsOf;
  }

  /** The entry as it reads once its first name byte is the deleted mark. */
  function Deleted(e: Ent): Ent { e.(name := e.name[0 := DELETED]) }

  lemma DirsWithout(g: Geo, d1: Disk, m: Model, s: Dirs, f: nat, k: nat, o: nat)
    requires HeadsOk(g, m, s) && f in s && k < |s[f]| && Branch(m, Gone(m, o), f, k, o)
    requires DirsOf(g, d1, m) == s[f := s[f][k := Deleted(s[f][k])]]
    ensures DirsOf(g, d1, Without(m, o)) == SlotsWithout(s, Gone(m, o), f, k)
  {
    hide *;
    var r := Gone(m, o);
    WithoutIs(m, o);
    RootStays(g, m, s);
    BranchInside(m, r, f, k, o);
    var n := Pruned(m, r);
    PrunedDepth(m, r);
    forall y | y in n.depth
      ensures FolderSlots(g, d1, n, y) == FolderSlots(g, d1, m, y)
    {
      PrunedChainOf(g, m, r, y);
      SlotsAre(g, d1, n, y);
      SlotsAre(g, d1, m, y);
    }
    DirsShrunk(g, d1, m, n, s, f, k, r);
  }

  lemma BranchInside(m: Model, r: set<nat>, f: nat, k: nat, o: nat)
    requires Branch(m, r, f, k, o)
    ensures r <= m.loc.Keys && f !in r
  {
  }

  lemma DeletedIs(e: Ent)
    ensures Deleted(e) == e.(name := e.name[0 := DELETED])
  {
  }

  lemma RootStays(g: Geo, m: Model, s: Dirs)
    requires HeadsOk(g, m, s)
    ensures g.fat32 ==> g.rootCluster !in m.loc
    ensures forall y | y in m.depth && y != 0 :: y in m.loc
    ensures s.Keys == m.depth.Keys
  {
    hide LocOk;
  }

  lemma PrunedDepth(m: Model, r: set<nat>)
    ensures Pruned(m, r).depth.Keys == m.depth.Keys - r
  {
  }

  lemma PrunedChainOf(g: Geo, m: Model, r: set<nat>, y: nat)
    requires (g.fat32 ==> g.rootCluster !in m.loc) && r <= m.loc.Keys && y in Pruned(m, r).depth
    ensures ChainOf(g, Pruned(m, r), y) == ChainOf(g, m, y)
  {
  }

  lemma DirsShrunk(g: Geo, d1: Disk, m: Model, n: Model, s: Dirs, f: nat, k: nat, r: set<nat>)
    requires f in s && k < |s[f]| && f !in r && n.depth.Keys == m.depth.Keys - r
    requires forall y | y in n.depth :: FolderSlots(g, d1, n, y) == FolderSlots(g, d1, m, y)
    requires DirsOf(g, d1, m) == s[f := s[f][k := Deleted(s[f][k])]]
    ensures DirsOf(g, d1, n) == SlotsWithout(s, r, f, k)
  {
    hide FolderSlots;
    forall y | y in n.depth
      ensures FolderSlots(g, d1, n, y) == DirsOf(g, d1, m)[y]
    {
    }
    var q := SlotsWithout(s, r, f, k);
    assert m.depth.Keys == DirsOf(g, d1, m).Keys == s.Keys + {f};
    assert forall y | y in n.depth :: y in q && q[y] == DirsOf(g, d1, m)[y];
    assert q.Keys == n.depth.Keys;
  }

  /** Deleting a file, or a folder that looks empty, seen on the disk: the volume stays
      well-formed, the name is gone, and every other name reads as before. */
  lemma CommitRemove(g: Geo, d: Disk, m: Model, f: nat, q: nat, i: nat, l: nat, x: Sector, d1: Disk, e: Ent)
    requires l < |d| && l == FolderLba(g, m, f, q) && i < 16 && x == d[l][32 * i := DELETED] && d1 == d[l := x]
    requires AtSlot(g, d, m, f, q, i) && e == SlotOf(g, d, m, f, 16 * q + i)
    requires Removable(g, m, DirsOf(g, d, m), f, 16 * q + i, e.cluster) && WF(g, d, m)
    ensures WF(g, d1, Without(m, e.cluster)) && SameFiles(g, d, m, d1, Without(m, e.cluster))
    ensures EditedLookups(g, d, m, d1, Without(m, e.cluster), f, e.name, Absent)
  {
    hide *;
    AtSlotParts(g, d, m, f, q, i);
    var k := 16 * q + i;
    SlotIs(g, d, m, f, k);
    CommitRemoveWF(g, d, m, f, q, i, l, x, d1, DirsOf(g, d, m), e);
    RemovableLive(g, m, DirsOf(g, d, m), f, k, e.cluster);
    EmptiedIs(g, d1, m, DirsOf(g, d, m), f, k, e.cluster);
    forall y, n: Name | y in m.depth && y in Without(m, e.cluster).depth
      ensures Lookup(g, d1, y, n) == if y == f && n == e.name then Absent else Lookup(g, d, y, n)
    {
      RemovedName(g, d, m, d1, f, k, y, n);
    }
    EditedMake(g, d, m, d1, Without(m, e.cluster), f, e.name, Absent);
  }

  lemma CommitRemoveWF(g: Geo, d: Disk, m: Model, f: nat, q: nat, i: nat, l: nat, x: Sector, d1: Disk,
                       s: Dirs, e: Ent)
    requires l < |d| && l == FolderLba(g, m, f, q) && i < 16 && x == d[l][32 * i := DELETED] && d1 == d[l := x]
    requires f in s && 16 * q + i < |s[f]| && e == s[f][16 * q + i] && s == DirsOf(g, d, m)
    requires AtSlot(g, d, m, f, q, i) && Removable(g, m, s, f, 16 * q + i, e.cluster) && WF(g, d, m)
    ensures WF(g, d1, Without(m, e.cluster)) && SameFiles(g, d, m, d1, Without(m, e.cluster))
    ensures Emptied(g, d1, m, s, f, 16 * q + i, e.cluster)
  {
    hide *;
    AtSlotParts(g, d, m, f, q, i);
    SlotThere(g, d, m, f, q, i);
    WFParts(g, d, m);
    var k, o := 16 * q + i, e.cluster;
    forall j: nat | j < 16
      ensures Decode(g.fat32, x, j) == if j == i then e.(name := e.name[0 := DELETED]) else Decode(g.fat32, d[l], j)
    {
      DecodeDeleted(g.fat32, d[l], i, j);
      SlotIs(g, d, m, f, k);
    }
    SlotStored(g, d, m, f, q, i, x, e.(name := e.name[0 := DELETED]));
    FolderIn(g, Table(g, d), m, DirsOf(g, d, m), f);
    RemovedHead(g, m, DirsOf(g, d, m), f, k, o);
    SlotIs(g, d, m, f, k);
    DeletedIs(e);
    DirsWithout(g, d1, m, DirsOf(g, d, m), f, k, o);
    RemoveEntry(g, Table(g, d), m, DirsOf(g, d, m), f, k, o);
    AboveFat(g, d, l, x);
    WFMake(g, d1, Without(m, o));
    WithoutChainsSame(m, o);
    EmptiedIs(g, d1, m, s, f, k, o);
    FilesStay(g, d, m, f, q, x, Without(m, o));
  }

  /** The folders on d1 are s without what was at slot k of folder f. */
  ghost predicate Emptied(g: Geo, d1: Disk, m: Model, s: Dirs, f: nat, k: nat, o: nat) {
    f in s && k < |s[f]| && DirsOf(g, d1, Without(m, o)) == SlotsWithout(s, Gone(m, o), f, k)
  }

  lemma EmptiedIs(g: Geo, d1: Disk, m: Model, s: Dirs, f: nat, k: nat, o: nat)
    requires f in s && k < |s[f]|
    ensures Emptied(g, d1, m, s, f, k, o) <==> DirsOf(g, d1, Without(m, o)) == SlotsWithout(s, Gone(m, o), f, k)
  {
    hide DirsOf;
    hide SlotsWithout;
    hide Gone;
    hide Without;
  }

  lemma RemovableLive(g: Geo, m: Model, s: Dirs, f: nat, k: nat, o: nat)
    requires Removable(g, m, s, f, k, o)
    ensures f in s && k < |Seen(g, f, s[f])| && Live(s[f][k])
  {
    hide Seen;
  }

  lemma EditedMake(g: Geo, d0: Disk, m0: Model, d1: Disk, m1: Model, f: nat, name: Name, node: Node)
    requires forall x, n: Name | x in m0.depth && x in m1.depth ::
      Lookup(g, d1, x, n) == if x == f && n == name then node else Lookup(g, d0, x, n)
    requires node.FolderNode? ==> forall n: Name :: Lookup(g, d1, node.cluster, n) == Absent
    ensures EditedLookups(g, d0, m0, d1, m1, f, name, node)
  {
    hide Lookup;
  }

  lemma RemovedName(g: Geo, d: Disk, m: Model, d1: Disk, f: nat, k: nat, y: nat, n: Name)
    requires f in DirsOf(g, d, m) && k < |Seen(g, f, DirsOf(g, d, m)[f])| && Live(SlotOf(g, d, m, f, k))
    requires var m1 := Without(m, SlotOf(g, d, m, f, k).cluster);
             && WF(g, d, m) && WF(g, d1, m1) && SameFiles(g, d, m, d1, m1) && y in m.depth && y in m1.depth
             && DirsOf(g, d1, m1) == SlotsWithout(DirsOf(g, d, m), Gone(m, SlotOf(g, d, m, f, k).cluster), f, k)
    ensures Lookup(g, d1, y, n) ==
            if y == f && n == SlotOf(g, d, m, f, k).name then Absent else Lookup(g, d, y, n)
  {
    hide *;
    var e := SlotOf(g, d, m, f, k);
    var m1 := Without(m, e.cluster);
    var s, s1 := DirsOf(g, d, m), DirsOf(g, d1, m1);
    SlotIs(g, d, m, f, k);
    WithoutSlots(s, Gone(m, e.cluster), f, k, y);
    FolderKey(g, d, m, y);
    FolderKey(g, d1, m1, y);
    if y == f && n == e.name {
      if IsDot(n) {
        DotAbsent(g, d1, y, n);
      } else {
        DiskSlotsOf(g, d1, m1, y);
        DiskSlotsOf(g, d, m, y);
        SeenFolder(g, d, m, y);
        SeenUpdated(g, y, s[y], k, s1[y][k]);
        NameGone(DiskSlots(g, d, y), k);
        LookupEntry(g, d1, m1, y, n);
      }
    } else if y == f {
      NameChanged(e, n);
      OtherName(g, d, m, d1, m1, y, k, n);
    } else {
      OtherName(g, d, m, d1, m1, y, |s[y]|, n);
    }
  }

  lemma FolderKey(g: Geo, d: Disk, m: Model, y: nat)
    requires y in m.depth
    ensures y in DirsOf(g, d, m)
  {
  }

  lemma WithoutSlots(s: Dirs, gone: set<nat>, f: nat, k: nat, y: nat)
    requires f in s && k < |s[f]|
    ensures var r := SlotsWithout(s, gone, f, k);
            y in r && y in s ==>
              r[y] == if y == f then s[f][k := s[f][k].(name := s[f][k].name[0 := DELETED])] else s[y]
  {
  }

  lemma NameChanged(e: Ent, n: Name)
    requires n != e.name
    ensures !Matches(e, n, false) && !Matches(e.(name := e.name[0 := DELETED]), n, false)
  {
  }

  lemma NameGone(s: seq<Ent>, k: nat)
    requires UniqueNames(s) && k < |s| && Live(s[k])
    ensures var r := s[k := s[k].(name := s[k].name[0 := DELETED])];
            forall j | 0 <= j < |r| :: !Matches(r[j], s[k].name, false)
  {
  }

  lemma AtSlotParts(g: Geo, d: Disk, m: Model, f: nat, q: nat, i: nat)
    requires AtSlot(g, d, m, f, q, i)
    ensures f in m.depth && q < FolderSize(g, m, f) && i < 16 && 0 <= FolderLba(g, m, f, q) < |d|
    ensures f in DirsOf(g, d, m) && 16 * q + i < |DirsOf(g, d, m)[f]|
  {
  }

  lemma SlotIs(g: Geo, d: Disk, m: Model, f: nat, k: nat)
    requires f in DirsOf(g, d, m) && k < |DirsOf(g, d, m)[f]|
    ensures SlotOf(g, d, m, f, k) == DirsOf(g, d, m)[f][k]
  {
  }

  lemma FolderIn(g: Geo, t: seq<nat>, m: Model, s: Dirs, f: nat)
    requires WellFormed(g, t, m, s) && f in s
    ensures FolderOk(g, m, f, s[f])
  {
  }

  lemma WFMake(g: Geo, d: Disk, m: Model)
    requires GeoOk(g) && Fits(g, d) && WellFormed(g, Table(g, d), m, DirsOf(g, d, m))
    ensures WF(g, d, m)
  {
  }

  lemma WithoutChainsSame(m: Model, o: nat)
    ensures forall h | h in m.loc && h in Without(m, o).loc && h in m.ch
            && h in Without(m, o).ch :: Without(m, o).ch[h] == m.ch[h]
  {
  }

  // ----- adding an entry

  lemma DirsWith(g: Geo, d1: Disk, m: Model, s: Dirs, f: nat, k: nat, e: Ent, nc: seq<nat>, ns: seq<Ent>)
    requires HeadsOk(g, m, s) && f in s && f in m.depth && k < |s[f]|
    requires if e.cluster >= 2 then e.cluster !in m.ch && e.cluster !in m.depth && e.cluster !in s else !IsDir(e)
    requires DirsOf(g, d1, m) == s[f := s[f][k := e]]
    requires IsDir(e) ==> ns == Slots(g.fat32, Body(g, d1, nc))
    ensures DirsOf(g, d1, With(m, f, k, e.cluster, nc, IsDir(e))) == SlotsWith(s, f, k, e, ns)
  {
    hide *;
    var n, c := With(m, f, k, e.cluster, nc, IsDir(e)), e.cluster;
    HeadsIn(g, m, s);
    WithDepth(m, f, k, c, nc, IsDir(e));
    forall y | y in m.depth
      ensures FolderSlots(g, d1, n, y) == FolderSlots(g, d1, m, y)
    {
      WithChainOf(g, m, f, k, c, nc, IsDir(e), y);
      SlotsAre(g, d1, n, y);
      SlotsAre(g, d1, m, y);
    }
    if IsDir(e) { NewFolderSlots(g, d1, m, f, k, c, nc); }
    DirsGrown(g, d1, m, n, s, f, k, e, ns);
  }

  lemma HeadsIn(g: Geo, m: Model, s: Dirs)
    requires HeadsOk(g, m, s)
    ensures forall y | y in m.depth && y != 0 :: y in m.ch && y in m.loc
    ensures g.fat32 ==> g.rootCluster in m.ch && g.rootCluster !in m.loc
    ensures s.Keys == m.depth.Keys && 0 in m.depth
    ensures forall h | h in m.ch :: h in m.loc || (g.fat32 && h == g.rootCluster)
  {
    hide LocOk;
    hide Sectors;
    forall y | y in m.depth && y != 0
      ensures y in m.ch
    {
      LocFacts(m, s, y);
    }
  }

  lemma WithDepth(m: Model, f: nat, k: nat, c: nat, nc: seq<nat>, dir: bool)
    requires f in m.depth && (dir ==> c >= 2)
    ensures With(m, f, k, c, nc, dir).depth.Keys == if dir then m.depth.Keys + {c} else m.depth.Keys
  {
  }

  lemma WithChainOf(g: Geo, m: Model, f: nat, k: nat, c: nat, nc: seq<nat>, dir: bool, y: nat)
    requires f in m.depth && (c >= 2 ==> c !in m.ch)
    requires (y != 0 ==> y in m.ch) && (g.fat32 ==> g.rootCluster in m.ch)
    ensures ChainOf(g, With(m, f, k, c, nc, dir), y) == ChainOf(g, m, y)
  {
  }

  lemma NewFolderSlots(g: Geo, d: Disk, m: Model, f: nat, k: nat, c: nat, nc: seq<nat>)
    requires f in m.depth && c >= 2
    ensures FolderSlots(g, d, With(m, f, k, c, nc, true), c) == Slots(g.fat32, Body(g, d, nc))
  {
    hide Body;
    hide Slots;
  }

  lemma DirsGrown(g: Geo, d1: Disk, m: Model, n: Model, s: Dirs, f: nat, k: nat, e: Ent, ns: seq<Ent>)
    requires f in s && k < |s[f]| && DirsOf(g, d1, m) == s[f := s[f][k := e]]
    requires n.depth.Keys == if IsDir(e) then m.depth.Keys + {e.cluster} else m.depth.Keys
    requires e.cluster >= 2 ==> e.cluster !in m.depth && e.cluster !in s
    requires e.cluster < 2 ==> !IsDir(e)
    requires forall y | y in m.depth :: FolderSlots(g, d1, n, y) == FolderSlots(g, d1, m, y)
    requires IsDir(e) ==> ns == FolderSlots(g, d1, n, e.cluster)
    ensures DirsOf(g, d1, n) == SlotsWith(s, f, k, e, ns)
  {
    hide FolderSlots;
    hide IsDir;
    var r := SlotsWith(s, f, k, e, ns);
    forall y | y in n.depth
      ensures FolderSlots(g, d1, n, y) == r[y]
    {
      if y in m.depth { assert y in DirsOf(g, d1, m); }
    }
  }

  /** The new chain's sectors are where a folder-sector write cannot reach. */
  lemma FreshBodyStays(g: Geo, d: Disk, m: Model, f: nat, q: nat, x: Sector, nc: seq<nat>)
    requires WF(g, d, m) && f in m.depth && q < FolderSize(g, m, f) && 0 <= FolderLba(g, m, f, q) < |d|
    requires Clusters(g, nc) && forall i | 0 <= i < |nc| :: nc[i] !in m.owner
    ensures Body(g, d[FolderLba(g, m, f, q) := x], nc) == Body(g, d, nc)
  {
    hide *;
    WFParts(g, d, m);
    if FixedRoot(g, f) {
      FixedPlace(g, m, f, q);
      BodyUnderRoot(g, d, nc, FolderLba(g, m, f, q), x);
    } else {
      FolderCluster(g, d, m, f, q);
      InFolderParts(g, m, f, q);
      BodyElsewhere(g, d, nc, ChainOf(g, m, f)[Quot(q, g.spc)], Rem(q, g.spc), x);
    }
  }

  /** What a new entry stands for: nothing under a folder, a file's first bytes. */
  function NewNode(g: Geo, d: Disk, e: Ent, nc: seq<nat>): Node {
    if IsDir(e) then FolderNode(e.cluster) else FileNode(FileBytes(Body(g, d, nc), e.size))
  }

  ghost predicate EntryInto(g: Geo, was: Sector, x: Sector, i: nat, e: Ent) {
    forall j: nat | j < 16 :: Decode(g.fat32, x, j) == if j == i then e else Decode(g.fat32, was, j)
  }

  lemma CommitInsertWF(g: Geo, d: Disk, m: Model, f: nat, q: nat, i: nat, l: nat, x: Sector, d1: Disk, s: Dirs, e: Ent,
                       nc: seq<nat>, ns: seq<Ent>, m1: Model)
    requires l < |d| && l == FolderLba(g, m, f, q) && d1 == d[l := x] && EntryInto(g, d[l], x, i, e)
    requires f in m.depth && m1 == With(m, f, 16 * q + i, e.cluster, nc, IsDir(e)) && s == DirsOf(g, d, m)
    requires Clusters(g, nc) && (forall i | 0 <= i < |nc| :: nc[i] !in m.owner)
    requires IsDir(e) ==> ns == Slots(g.fat32, Body(g, d, nc))
    requires AtSlot(g, d, m, f, q, i) && Insertable(g, Table(g, d), m, s, f, 16 * q + i, e, nc, ns) && WF(g, d, m)
    ensures WF(g, d1, m1) && SameFiles(g, d, m, d1, m1) && Body(g, d1, nc) == Body(g, d, nc)
    ensures Filled(g, d1, m1, s, f, 16 * q + i, e, ns)
  {
    hide *;
    AtSlotParts(g, d, m, f, q, i);
    SlotThere(g, d, m, f, q, i);
    WFParts(g, d, m);
    var k := 16 * q + i;
    EntryIntoAll(g, d[l], x, i, e);
    SlotStored(g, d, m, f, q, i, x, e);
    FreshBodyStays(g, d, m, f, q, x, nc);
    InsertableParts(g, Table(g, d), m, DirsOf(g, d, m), f, k, e, nc, ns);
    if e.cluster >= 2 { FreshHead(g, Table(g, d), m, DirsOf(g, d, m), e.cluster); }
    DirsWith(g, d1, m, DirsOf(g, d, m), f, k, e, nc, ns);
    InsertEntry(g, Table(g, d), m, DirsOf(g, d, m), f, k, e, nc, ns);
    AboveFat(g, d, l, x);
    WFMake(g, d1, m1);
    WithChainsSame(m, f, k, e.cluster, nc, IsDir(e));
    FilledIs(g, d1, m1, s, f, k, e, ns);
    FilesStay(g, d, m, f, q, x, m1);
  }

  /** The folders on d1 are s with e at slot k of folder f. */
  ghost predicate Filled(g: Geo, d1: Disk, m1: Model, s: Dirs, f: nat, k: nat, e: Ent, ns: seq<Ent>) {
    f in s && k < |s[f]| && DirsOf(g, d1, m1) == SlotsWith(s, f, k, e, ns)
  }

  lemma FilledIs(g: Geo, d1: Disk, m1: Model, s: Dirs, f: nat, k: nat, e: Ent, ns: seq<Ent>)
    requires f in s && k < |s[f]|
    ensures Filled(g, d1, m1, s, f, k, e, ns) <==> DirsOf(g, d1, m1) == SlotsWith(s, f, k, e, ns)
  {
    hide DirsOf;
    hide SlotsWith;
  }

  lemma EntryIntoAll(g: Geo, was: Sector, x: Sector, i: nat, e: Ent)
    requires EntryInto(g, was, x, i, e)
    ensures forall j: nat | j < 16 :: Decode(g.fat32, x, j) == if j == i then e else Decode(g.fat32, was, j)
  {
    hide Decode;
  }

  lemma InsertableParts(g: Geo, t: seq<nat>, m: Model, s: Dirs, f: nat, k: nat, e: Ent, nc: seq<nat>, ns: seq<Ent>)
    requires Insertable(g, t, m, s, f, k, e, nc, ns)
    ensures f in s && k < |Seen(g, f, s[f])| && IsFree(s[f][k]) && Child(e) && Live(e) && !IsDot(e.name)
    ensures e.cluster >= 2 ==> |nc| > 0 && nc[0] == e.cluster && e.cluster !in m.owner
    ensures e.cluster < 2 ==> !IsDir(e) && e.size == 0
    ensures IsDir(e) ==> NoChildren(ns)
  {
    hide Seen;
    hide NotAmong;
    hide Sectors;
    hide InRange;
    hide NamesOk;
    hide DotDotOk;
  }

  lemma WithChainsSame(m: Model, f: nat, k: nat, c: nat, nc: seq<nat>, dir: bool)
    requires f in m.depth && (c >= 2 ==> c !in m.loc)
    ensures var n := With(m, f, k, c, nc, dir); forall h | h in m.loc && h in n.loc && h in m.ch
            && h in n.ch :: n.ch[h] == m.ch[h]
  {
  }

  lemma SlotsWithAt(s: Dirs, f: nat, k: nat, e: Ent, ns: seq<Ent>, y: nat)
    requires f in s && k < |s[f]| && (e.cluster >= 2 ==> e.cluster !in s) && (e.cluster < 2 ==> !IsDir(e))
    ensures var r := SlotsWith(s, f, k, e, ns);
            && (y in s ==> y in r && r[y] == if y == f then s[f][k := e] else s[y])
            && (IsDir(e) ==> e.cluster in r && r[e.cluster] == ns)
  {
  }

  lemma InsertedName(g: Geo, d: Disk, m: Model, d1: Disk, f: nat, k: nat, e: Ent, nc: seq<nat>, ns: seq<Ent>, y: nat,
                     n: Name)
    requires f in m.depth && f in DirsOf(g, d, m) && k < |Seen(g, f, DirsOf(g, d, m)[f])|
             && IsFree(DirsOf(g, d, m)[f][k]) && Live(e)
    requires !IsDot(e.name) && (e.cluster >= 2 ==> e.cluster !in DirsOf(g, d, m))
             && (e.cluster < 2 ==> !IsDir(e) && e.size == 0)
    requires e.cluster >= 2 ==> |nc| > 0 && nc[0] == e.cluster
    requires e.cluster < 2 ==> nc == []
    requires Body(g, d1, nc) == Body(g, d, nc)
    requires var m1 := With(m, f, k, e.cluster, nc, IsDir(e));
             && WF(g, d, m) && WF(g, d1, m1) && SameFiles(g, d, m, d1, m1) && y in m.depth && y in m1.depth
             && DirsOf(g, d1, m1) == SlotsWith(DirsOf(g, d, m), f, k, e, ns)
    ensures Lookup(g, d1, y, n) == if y == f && n == e.name then NewNode(g, d, e, nc) else Lookup(g, d, y, n)
  {
    hide *;
    var m1 := With(m, f, k, e.cluster, nc, IsDir(e));
    var s, s1 := DirsOf(g, d, m), DirsOf(g, d1, m1);
    FolderKey(g, d, m, y);
    FolderKey(g, d1, m1, y);
    SlotsWithAt(s, f, k, e, ns, y);
    if y == f && n == e.name {
      DiskSlotsOf(g, d1, m1, y);
      SeenFolder(g, d1, m1, y);
      SeenUpdated(g, y, s[y], k, e);
      EntMatches(e);
      FindUnique(DiskSlots(g, d1, y), n, false, k);
      FindIs(DiskSlots(g, d1, y), n);
      LookupEntry(g, d1, m1, y, n);
      if e.cluster >= 2 {
        WithHead(m, f, k, e.cluster, nc, IsDir(e));
        DiskChainOf(g, d1, m1, e.cluster);
        NewNodeIs(g, d, d1, e, nc);
      } else {
        PlainNode(g, d, d1, e);
        EmptyNode(g, d, e);
      }
    } else if y == f {
      FreeNoMatch(s[y][k], n);
      OtherNoMatch(e, n);
      OtherName(g, d, m, d1, m1, y, k, n);
    } else {
      OtherName(g, d, m, d1, m1, y, |s[y]|, n);
    }
  }

  lemma FindIs(s: seq<Ent>, n: Name)
    ensures Find(s, n) == FindFrom(s, n, false, 0)
  {
  }

  lemma EntMatches(e: Ent)
    requires Live(e)
    ensures Matches(e, e.name, false)
  {
  }

  lemma FreeNoMatch(e: Ent, n: Name)
    requires IsFree(e)
    ensures !Matches(e, n, false)
  {
  }

  lemma OtherNoMatch(e: Ent, n: Name)
    requires n != e.name
    ensures !Matches(e, n, false)
  {
  }

  lemma WithHead(m: Model, f: nat, k: nat, c: nat, nc: seq<nat>, dir: bool)
    requires f in m.depth && c >= 2
    ensures c in With(m, f, k, c, nc, dir).ch && With(m, f, k, c, nc, dir).ch[c] == nc
  {
  }

  lemma NewNodeIs(g: Geo, d: Disk, d1: Disk, e: Ent, nc: seq<nat>)
    requires DiskChain(g, d1, e.cluster) == nc && Body(g, d1, nc) == Body(g, d, nc)
    ensures NodeOf(g, d1, e) == NewNode(g, d, e, nc)
  {
    hide Body;
    hide DiskChain;
  }

  lemma EmptyNode(g: Geo, d: Disk, e: Ent)
    requires e.size == 0 && !IsDir(e)
    ensures NewNode(g, d, e, []) == FileNode([])
  {
  }

  /** Every chain of m0 is one of m1. */
  ghost predicate ChainsStay(m0: Model, m1: Model) {
    forall h | h in m0.ch :: h in m1.ch && m1.ch[h] == m0.ch[h]
  }

  lemma ChainsStayMake(m0: Model, m1: Model)
    requires forall h | h in m0.ch :: h in m1.ch && m1.ch[h] == m0.ch[h]
    ensures ChainsStay(m0, m1)
  {
  }

  /** The slots of folder f, all of them, are as before but for slot k. */
  ghost predicate StoredIn(g: Geo, d0: Disk, m0: Model, d1: Disk, m1: Model, f: nat, k: nat, e: Ent) {
    && f in DirsOf(g, d0, m0) && f in DirsOf(g, d1, m1) && k < |DirsOf(g, d0, m0)[f]|
    && DirsOf(g, d1, m1)[f] == DirsOf(g, d0, m0)[f][k := e]
  }

  lemma StoredInMake(g: Geo, d0: Disk, m0: Model, d1: Disk, m1: Model, f: nat, k: nat, e: Ent)
    requires f in DirsOf(g, d0, m0) && f in DirsOf(g, d1, m1) && k < |DirsOf(g, d0, m0)[f]|
    requires DirsOf(g, d1, m1)[f] == DirsOf(g, d0, m0)[f][k := e]
    ensures StoredIn(g, d0, m0, d1, m1, f, k, e)
  {
    hide DirsOf;
  }

  lemma StoredInParts(g: Geo, d0: Disk, m0: Model, d1: Disk, m1: Model, f: nat, k: nat, e: Ent)
    requires StoredIn(g, d0, m0, d1, m1, f, k, e)
    ensures f in DirsOf(g, d0, m0) && f in DirsOf(g, d1, m1) && k < |DirsOf(g, d0, m0)[f]|
    ensures DirsOf(g, d1, m1)[f] == DirsOf(g, d0, m0)[f][k := e]
  {
    hide DirsOf;
  }

  /** The same, between disks whose folders are alike. */
  lemma StoredFrom(g: Geo, d0: Disk, dpre: Disk, m0: Model, d1: Disk, d: Disk, m1: Model, f: nat, k: nat, e: Ent)
    requires StoredIn(g, dpre, m0, d1, m1, f, k, e)
    requires DirsOf(g, dpre, m0) == DirsOf(g, d0, m0) && DirsOf(g, d, m1) == DirsOf(g, d1, m1)
    ensures StoredIn(g, d0, m0, d, m1, f, k, e)
  {
    hide DirsOf;
  }

  /** Adding a file or an empty folder, seen on the disk. */
  lemma CommitInsert(g: Geo, d: Disk, m: Model, f: nat, q: nat, i: nat, l: nat, x: Sector, d1: Disk, e: Ent,
                     nc: seq<nat>, ns: seq<Ent>, m1: Model)
    requires l < |d| && l == FolderLba(g, m, f, q) && d1 == d[l := x] && EntryInto(g, d[l], x, i, e)
    requires f in m.depth && m1 == With(m, f, 16 * q + i, e.cluster, nc, IsDir(e))
    requires Clusters(g, nc) && (forall i | 0 <= i < |nc| :: nc[i] !in m.owner)
    requires (IsDir(e) ==> ns == Slots(g.fat32, Body(g, d, nc))) && (e.cluster < 2 ==> nc == [])
    requires AtSlot(g, d, m, f, q, i) && Insertable(g, Table(g, d), m, DirsOf(g, d, m), f, 16 * q + i, e, nc, ns)
    requires WF(g, d, m)
    ensures WF(g, d1, m1) && SameFiles(g, d, m, d1, m1) && StoredIn(g, d, m, d1, m1, f, 16 * q + i, e)
    ensures EditedLookups(g, d, m, d1, m1, f, e.name, NewNode(g, d, e, nc))
  {
    hide *;
    AtSlotParts(g, d, m, f, q, i);
    WFParts(g, d, m);
    var k, s := 16 * q + i, DirsOf(g, d, m);
    CommitInsertWF(g, d, m, f, q, i, l, x, d1, s, e, nc, ns, m1);
    FilledIs(g, d1, m1, s, f, k, e, ns);
    InsertableParts(g, Table(g, d), m, s, f, k, e, nc, ns);
    if e.cluster >= 2 { FreshHead(g, Table(g, d), m, s, e.cluster); }
    forall y, n: Name | y in m.depth && y in m1.depth
      ensures Lookup(g, d1, y, n) == if y == f && n == e.name then NewNode(g, d, e, nc) else Lookup(g, d, y, n)
    {
      InsertedName(g, d, m, d1, f, k, e, nc, ns, y, n);
    }
    if IsDir(e) {
      forall n: Name
        ensures Lookup(g, d1, e.cluster, n) == Absent
      {
        WithDepth(m, f, k, e.cluster, nc, true);
        SlotsWithAt(s, f, k, e, ns, f);
        EmptyLookup(g, d1, m1, e.cluster, ns, n);
      }
    }
    SlotsWithAt(s, f, k, e, ns, f);
    StoredInMake(g, d, m, d1, m1, f, k, e);
    NewNodeFolder(g, d, e, nc);
    EditedMake(g, d, m, d1, m1, f, e.name, NewNode(g, d, e, nc));
  }

  lemma NewNodeFolder(g: Geo, d: Disk, e: Ent, nc: seq<nat>)
    ensures NewNode(g, d, e, nc).FolderNode? <==> IsDir(e)
    ensures IsDir(e) ==> NewNode(g, d, e, nc).cluster == e.cluster
  {
  }

  lemma EmptyLookup(g: Geo, d: Disk, m: Model, c: nat, ns: seq<Ent>, n: Name)
    requires WF(g, d, m) && c in m.depth && c in DirsOf(g, d, m) && DirsOf(g, d, m)[c] == ns && NoChildren(ns)
    ensures Lookup(g, d, c, n) == Absent
  {
    hide *;
    hide NoChildren;
    if IsDot(n) {
      DotAbsent(g, d, c, n);
    } else {
      DiskSlotsOf(g, d, m, c);
      LookupEntry(g, d, m, c, n);
      NoKid(g, c, ns);
    }
  }

  lemma NoKid(g: Geo, f: nat, s: seq<Ent>)
    requires NoChildren(s)
    ensures forall k | 0 <= k < |Seen(g, f, s)| :: !Child(Seen(g, f, s)[k])
  {
    hide Child;
  }

  // ----- replacing a file's entry: a removal and an insertion in one write

  /** The facts under which the entry of a file may be overwritten by e. */
  ghost predicate Replaceable(g: Geo, d: Disk, m: Model, f: nat, k: nat, e: Ent, nc: seq<nat>) {
    && f in DirsOf(g, d, m) && k < |Seen(g, f, DirsOf(g, d, m)[f])|
    && var e0 := DirsOf(g, d, m)[f][k];
    && Child(e0) && !IsDir(e0) && Child(e) && !IsDir(e) && e.name == e0.name && e.name[0] != DOTCHAR
    && FreshFile(g, d, m, e, nc)
  }

  /** e is a file whose bytes are on nc, a chain nothing uses. */
  ghost predicate FreshFile(g: Geo, d: Disk, m: Model, e: Ent, nc: seq<nat>) {
    && !IsDir(e) && Clusters(g, nc) && (forall i | 0 <= i < |nc| :: nc[i] !in m.owner)
    && (e.cluster >= 2 ==>
       IsChain(Table(g, d), g.Eoc(), nc) && nc[0] == e.cluster && Injective(nc) && e.size <= Sectors(g, |nc|) * 512)
    && (e.cluster < 2 ==> nc == [] && e.size == 0)
  }

  lemma ReplacedSlots(g: Geo, m: Model, s: seq<Ent>, f: nat, k: nat)
    requires FolderOk(g, m, f, s) && k < |Seen(g, f, s)| && Live(s[k])
    ensures var r := s[k := s[k].(name := s[k].name[0 := DELETED])];
            Placeable(r, k) && k < |Seen(g, f, r)| && NotAmong(Seen(g, f, r), s[k].name)
  {
    hide KidsOk;
    hide DotDotOk;
    hide IsDot;
    SeenUpdated(g, f, s, k, s[k].(name := s[k].name[0 := DELETED]));
    hide Seen;
  }

  lemma EditedTwice(g: Geo, d0: Disk, m0: Model, dx: Disk, mx: Model, d1: Disk, m1: Model, f: nat, name: Name,
                    mid: Node, node: Node)
    requires EditedLookups(g, d0, m0, dx, mx, f, name, mid) && EditedLookups(g, dx, mx, d1, m1, f, name, node)
    requires m0.depth.Keys == mx.depth.Keys
    ensures EditedLookups(g, d0, m0, d1, m1, f, name, node)
  {
    hide Lookup;
  }

  lemma WithoutFile(g: Geo, m: Model, s: Dirs, f: nat, k: nat, o: nat)
    requires HeadsOk(g, m, s) && f in s && k < |Seen(g, f, s[f])| && !IsDir(s[f][k]) && FolderOk(g, m, f, s[f])
             && Child(s[f][k]) && s[f][k].cluster == o
    ensures Removable(g, m, s, f, k, o) && Without(m, o).depth == m.depth && Gone(m, o) <= m.loc.Keys
    ensures forall c | c in Without(m, o).owner :: c in m.owner
    ensures o < 2 ==> o !in m.loc
  {
    hide FolderOk;
    hide LocOk;
    hide Sectors;
    hide Seen;
    RemovedHead(g, m, s, f, k, o);
    if o >= 2 { FileGone(g, m, s, o); }
  }

  /** Nothing is named from inside a file. */
  lemma FileGone(g: Geo, m: Model, s: Dirs, o: nat)
    requires HeadsOk(g, m, s) && o in m.loc && o in m.ch && o !in m.depth
    ensures Gone(m, o) == {o}
  {
    hide LocOk;
    forall h | h in m.loc
      ensures h in Gone(m, o) <==> h == o
    {
      if h in Gone(m, o) && h != o {
        LocFacts(m, s, h);
        var n: nat :| Up(m, h, n) == o;
        UpShift(m, h, n - 1);
        UpDepth(g, m, s, m.loc[h].0, n - 1);
      }
      if h == o { assert Up(m, o, 0) == o; }
    }
  }

  lemma SamePlaces(g: Geo, m: Model, n: Model, f: nat, q: nat)
    requires ChainOf(g, n, f) == ChainOf(g, m, f)
    ensures FolderLba(g, n, f, q) == FolderLba(g, m, f, q) && FolderSize(g, n, f) == FolderSize(g, m, f)
  {
  }

  lemma FreshInsertable(g: Geo, d: Disk, m: Model, f: nat, k: nat, e: Ent, nc: seq<nat>)
    requires f in DirsOf(g, d, m) && k < |Seen(g, f, DirsOf(g, d, m)[f])| && Placeable(DirsOf(g, d, m)[f], k)
    requires Child(e) && e.name[0] != DOTCHAR && FreshFile(g, d, m, e, nc)
    requires NotAmong(Seen(g, f, DirsOf(g, d, m)[f]), e.name)
    ensures Insertable(g, Table(g, d), m, DirsOf(g, d, m), f, k, e, nc, [])
  {
    hide Seen;
    hide NotAmong;
    hide Placeable;
    hide Child;
    hide Live;
    hide DirsOf;
    hide Table;
    hide IsChain;
    hide Sectors;
    hide Injective;
  }

  lemma FreshFileStays(g: Geo, d: Disk, m: Model, dx: Disk, mx: Model, e: Ent, nc: seq<nat>)
    requires FreshFile(g, d, m, e, nc) && Table(g, dx) == Table(g, d)
    requires forall c | c in mx.owner :: c in m.owner
    ensures FreshFile(g, dx, mx, e, nc)
  {
    hide Table;
    hide IsChain;
    hide Sectors;
    hide Injective;
  }

  lemma FreshParts(g: Geo, d: Disk, m: Model, e: Ent, nc: seq<nat>)
    requires FreshFile(g, d, m, e, nc)
    ensures !IsDir(e) && Clusters(g, nc) && (forall i | 0 <= i < |nc| :: nc[i] !in m.owner)
    ensures e.cluster < 2 ==> nc == []
  {
    hide Table;
    hide IsChain;
    hide Sectors;
    hide Injective;
  }

  lemma ReplaceableParts(g: Geo, d: Disk, m: Model, f: nat, k: nat, e: Ent, nc: seq<nat>)
    requires Replaceable(g, d, m, f, k, e, nc)
    ensures f in DirsOf(g, d, m) && k < |Seen(g, f, DirsOf(g, d, m)[f])|
    ensures Child(SlotOf(g, d, m, f, k)) && Live(SlotOf(g, d, m, f, k)) && !IsDir(SlotOf(g, d, m, f, k))
    ensures Child(e) && e.name == SlotOf(g, d, m, f, k).name && e.name[0] != DOTCHAR && FreshFile(g, d, m, e, nc)
  {
    hide DirsOf;
    hide FreshFile;
    hide IsDot;
    hide Seen;
  }

  lemma DeletedInto(g: Geo, d: Disk, l: int, i: nat, x: Sector, xd: Sector, e: Ent)
    requires 0 <= l < |d| && i < 16 && EntryInto(g, d[l], x, i, e) && xd == d[l][32 * i := DELETED]
    ensures EntryInto(g, xd, x, i, e)
  {
    forall j: nat | j < 16
      ensures Decode(g.fat32, x, j) == if j == i then e else Decode(g.fat32, xd, j)
    {
      DecodeDeleted(g.fat32, d[l], i, j);
    }
    hide Decode;
  }

  lemma SlotsWithoutAt(s: Dirs, gone: set<nat>, f: nat, k: nat)
    requires f in s && k < |s[f]|
    ensures f in SlotsWithout(s, gone, f, k)
    ensures SlotsWithout(s, gone, f, k)[f] == s[f][k := s[f][k].(name := s[f][k].name[0 := DELETED])]
  {
  }

  /** Overwriting a file's entry with one on a fresh chain. */
  lemma CommitReplace(g: Geo, d: Disk, m: Model, f: nat, q: nat, i: nat, l: nat, x: Sector, d1: Disk, e: Ent,
                      nc: seq<nat>, o: nat) returns (m1: Model)
    requires l < |d| && l == FolderLba(g, m, f, q) && d1 == d[l := x] && EntryInto(g, d[l], x, i, e)
    requires AtSlot(g, d, m, f, q, i) && o == SlotOf(g, d, m, f, 16 * q + i).cluster
    requires Replaceable(g, d, m, f, 16 * q + i, e, nc) && WF(g, d, m)
    ensures Swapped(m, f, 16 * q + i, o, e.cluster, nc, m1) && WF(g, d1, m1)
    ensures EditedLookups(g, d, m, d1, m1, f, e.name, FileNode(FileBytes(Body(g, d, nc), e.size)))
    ensures StoredIn(g, d, m, d1, m1, f, 16 * q + i, e)
  {
    hide *;
    AtSlotParts(g, d, m, f, q, i);
    SlotThere(g, d, m, f, q, i);
    WFParts(g, d, m);
    var k := 16 * q + i;
    ReplaceableParts(g, d, m, f, k, e, nc);
    SlotIs(g, d, m, f, k);
    FolderIn(g, Table(g, d), m, DirsOf(g, d, m), f);
    var e0 := SlotOf(g, d, m, f, k);
    WithoutFile(g, m, DirsOf(g, d, m), f, k, o);
    var xd: Sector := d[l][32 * i := DELETED];
    var dx, mx := d[l := xd], Without(m, o);
    CommitRemove(g, d, m, f, q, i, l, xd, dx, e0);
    CommitRemoveWF(g, d, m, f, q, i, l, xd, dx, DirsOf(g, d, m), e0);
    EmptiedIs(g, dx, m, DirsOf(g, d, m), f, k, o);
    RootStays(g, m, DirsOf(g, d, m));
    WithoutIs(m, o);
    PrunedChainOf(g, m, Gone(m, o), f);
    SamePlaces(g, m, mx, f, q);
    SlotThere(g, dx, mx, f, q, i);
    AtSlotParts(g, dx, mx, f, q, i);
    DeletedInto(g, d, l, i, x, xd, e);
    AboveFat(g, d, l, xd);
    FreshParts(g, d, m, e, nc);
    FreshFileStays(g, d, m, dx, mx, e, nc);
    ReplacedSlots(g, m, DirsOf(g, d, m)[f], f, k);
    SlotsWithoutAt(DirsOf(g, d, m), Gone(m, o), f, k);
    FreshInsertable(g, dx, mx, f, k, e, nc);
    FreshBodyStays(g, d, m, f, q, xd, nc);
    m1 := With(mx, f, k, e.cluster, nc, IsDir(e));
    assert dx[l := x] == d1;
    CommitInsert(g, dx, mx, f, q, i, l, x, d1, e, nc, [], m1);
    FileNewNode(g, dx, e, nc);
    StoredInParts(g, dx, mx, d1, m1, f, k, e);
    StoredInMake(g, d, m, d1, m1, f, k, e);
    EditedTwice(g, d, m, dx, mx, d1, m1, f, e.name, Absent, NewNode(g, dx, e, nc));
    SwappedIs(m, f, k, o, e.cluster, nc, m1);
  }

  /** In m1 the chain nc at c stands where that at o stood. */
  ghost predicate Swapped(m: Model, f: nat, k: nat, o: nat, c: nat, nc: seq<nat>, m1: Model) {
    f in m.depth && f in Without(m, o).depth && m1 == With(Without(m, o), f, k, c, nc, false)
  }

  lemma SwappedIs(m: Model, f: nat, k: nat, o: nat, c: nat, nc: seq<nat>, m1: Model)
    ensures Swapped(m, f, k, o, c, nc, m1) <==>
            f in m.depth && f in Without(m, o).depth && m1 == With(Without(m, o), f, k, c, nc, false)
  {
    hide Without;
    hide With;
  }

  lemma FileNewNode(g: Geo, d: Disk, e: Ent, nc: seq<nat>)
    requires !IsDir(e)
    ensures NewNode(g, d, e, nc) == FileNode(FileBytes(Body(g, d, nc), e.size))
  {
  }

  // ----- an entry whose first name byte is the deleted mark

  /** Storing an entry that reads as deleted changes no name at all. */
  lemma CommitDead(g: Geo, d: Disk, m: Model, f: nat, q: nat, i: nat, x: Sector, e: Ent)
    requires WF(g, d, m) && AtSlot(g, d, m, f, q, i) && EntryInto(g, d[FolderLba(g, m, f, q)], x, i, e)
    requires Placeable(DirsOf(g, d, m)[f], 16 * q + i) && e.name[0] == DELETED
    ensures var d1 := d[FolderLba(g, m, f, q) := x];
            WF(g, d1, m) && EditedLookups(g, d, m, d1, m, f, e.name, Absent)
              && StoredIn(g, d, m, d1, m, f, 16 * q + i, e)
  {
    hide *;
    AtSlotParts(g, d, m, f, q, i);
    SlotThere(g, d, m, f, q, i);
    WFParts(g, d, m);
    var l, k := FolderLba(g, m, f, q), 16 * q + i;
    var d1 := d[l := x];
    EntryIntoAll(g, d[l], x, i, e);
    SlotStored(g, d, m, f, q, i, x, e);
    InsertDead(g, Table(g, d), m, DirsOf(g, d, m), f, k, e);
    AboveFat(g, d, l, x);
    WFMake(g, d1, m);
    FilesStay(g, d, m, f, q, x, m);
    PlaceableFree(DirsOf(g, d, m)[f], k);
    StoredInMake(g, d, m, d1, m, f, k, e);
    forall y, n: Name | y in m.depth
      ensures Lookup(g, d1, y, n) == if y == f && n == e.name then Absent else Lookup(g, d, y, n)
    {
      DeadName(g, d, m, d1, f, k, e, y, n);
    }
    EditedMake(g, d, m, d1, m, f, e.name, Absent);
  }

  lemma PlaceableFree(s: seq<Ent>, k: nat)
    requires Placeable(s, k)
    ensures k < |s| && IsFree(s[k])
  {
  }

  lemma DeadMatch(e: Ent, n: Name)
    requires e.name[0] == DELETED
    ensures !Matches(e, n, false)
  {
  }

  lemma DeadNever(n: Name, s: seq<Ent>)
    requires n[0] == DELETED
    ensures forall j | 0 <= j < |s| :: !Matches(s[j], n, false)
  {
  }

  lemma DeadName(g: Geo, d: Disk, m: Model, d1: Disk, f: nat, k: nat, e: Ent, y: nat, n: Name)
    requires WF(g, d, m) && WF(g, d1, m) && SameFiles(g, d, m, d1, m) && y in m.depth && f in DirsOf(g, d, m)
    requires k < |DirsOf(g, d, m)[f]| && IsFree(DirsOf(g, d, m)[f][k]) && e.name[0] == DELETED
    requires DirsOf(g, d1, m) == DirsOf(g, d, m)[f := DirsOf(g, d, m)[f][k := e]]
    ensures Lookup(g, d1, y, n) == if y == f && n == e.name then Absent else Lookup(g, d, y, n)
  {
    hide *;
    var s := DirsOf(g, d, m);
    FolderKey(g, d, m, y);
    FolderKey(g, d1, m, y);
    if y == f && n == e.name {
      if IsDot(n) {
        DotAbsent(g, d1, y, n);
      } else {
        LookupEntry(g, d1, m, y, n);
        DeadNever(n, DiskSlots(g, d1, y));
      }
    } else if y == f {
      FreeNoMatch(s[y][k], n);
      DeadMatch(e, n);
      OtherName(g, d, m, d1, m, y, k, n);
    } else {
      OtherName(g, d, m, d1, m, y, |s[y]|, n);
    }
  }

  /** What a search for a file's name says about the name. */
  lemma FileSearch(g: Geo, d: Disk, m: Model, f: nat, n: Name)
    requires WF(g, d, m) && f in m.depth && !IsDot(n)
    ensures FilesFound(g, d, m, f, n)
  {
    hide *;
    SeenFolder(g, d, m, f);
    var s := DiskSlots(g, d, f);
    FindFromSpec(s, n, true, 0);
    LookupEntry(g, d, m, f, n);
    FileSearchIn(g, d, s, n);
    FindIs(s, n);
    var k := FindFrom(s, n, true, 0);
    if k < |s| {
      FileMatch(s[k], n);
      FindUnique(s, n, false, k);
      NodeKind(g, d, s[k]);
    }
    FilesFoundIs(g, d, m, f, n);
  }

  /** A search for files finds the file of the name, or there is none. */
  ghost predicate FilesFound(g: Geo, d: Disk, m: Model, f: nat, n: Name) {
    var s := DiskSlots(g, d, f);
    var k := FindFrom(s, n, true, 0);
    if k == |s| then !Lookup(g, d, f, n).FileNode?
    else
      && Matches(s[k], n, true) && Child(s[k]) && !IsDir(s[k]) && KidOk(g, m, f, k, s[k])
      && Find(s, n) == k && Lookup(g, d, f, n) == NodeOf(g, d, s[k]) && Lookup(g, d, f, n).FileNode?
  }

  lemma FilesFoundIs(g: Geo, d: Disk, m: Model, f: nat, n: Name)
    ensures var s := DiskSlots(g, d, f);
            var k := FindFrom(s, n, true, 0);
            FilesFound(g, d, m, f, n) <==>
              if k == |s| then !Lookup(g, d, f, n).FileNode?
              else
                && Matches(s[k], n, true) && Child(s[k]) && !IsDir(s[k]) && KidOk(g, m, f, k, s[k])
                && Find(s, n) == k && Lookup(g, d, f, n) == NodeOf(g, d, s[k]) && Lookup(g, d, f, n).FileNode?
  {
    hide DiskSlots;
    hide FindFrom;
    hide Find;
    hide Lookup;
    hide NodeOf;
    hide Matches;
    hide Child;
    hide KidOk;
  }

  lemma NodeKind(g: Geo, d: Disk, e: Ent)
    ensures if IsDir(e) then NodeOf(g, d, e) == FolderNode(e.cluster) else NodeOf(g, d, e).FileNode?
  {
  }

  lemma FileMatch(e: Ent, n: Name)
    requires Matches(e, n, true)
    ensures Matches(e, n, false) && !IsDir(e)
  {
  }

  lemma FileSearchIn(g: Geo, d: Disk, s: seq<Ent>, n: Name)
    requires Find(s, n) < |s| ==> Matches(s[Find(s, n)], n, false)
    requires FindFrom(s, n, true, 0) == |s| ==> forall j | 0 <= j < |s| :: !Matches(s[j], n, true)
    ensures FindFrom(s, n, true, 0) == |s| && Find(s, n) < |s| ==> !NodeOf(g, d, s[Find(s, n)]).FileNode?
  {
    hide Find;
    hide FindFrom;
    hide Live;
  }

  lemma RemovableFile(g: Geo, m: Model, s: Dirs, f: nat, k: nat)
    requires f in s && k < |Seen(g, f, s[f])| && Child(s[f][k]) && !IsDir(s[f][k])
    ensures Removable(g, m, s, f, k, s[f][k].cluster)
  {
    hide Seen;
  }

  /** A folder fat_rmdir finds empty has no child. */
  lemma DotsEmpty(s: seq<Ent>)
    requires NamesOk(s) && OnlyDots(s)
    ensures NoChildren(s)
  {
    hide Ended;
    hide UniqueNames;
    hide IsDot;
  }

  lemma RemovableFolder(g: Geo, m: Model, s: Dirs, f: nat, k: nat)
    requires f in s && k < |Seen(g, f, s[f])| && Child(s[f][k])
    requires s[f][k].cluster in s && NoChildren(Seen(g, s[f][k].cluster, s[s[f][k].cluster]))
    ensures Removable(g, m, s, f, k, s[f][k].cluster)
  {
    hide Seen;
  }

  /** The cluster of a folder's entry is a folder of the model. */
  lemma KidFolder(g: Geo, d: Disk, m: Model, f: nat, k: nat)
    requires WF(g, d, m) && f in m.depth && k < |DiskSlots(g, d, f)|
    requires Child(DiskSlots(g, d, f)[k]) && IsDir(DiskSlots(g, d, f)[k])
    ensures var c := DiskSlots(g, d, f)[k].cluster; c >= 2 && c in m.depth && c in DirsOf(g, d, m)
  {
    hide *;
    SeenFolder(g, d, m, f);
    WFParts(g, d, m);
    var e := DiskSlots(g, d, f)[k];
    DirHead(g, m, f, k, e);
    KidFile(g, m, f, k, e);
    HeadPlace(g, m, DirsOf(g, d, m), e.cluster);
    FolderKey(g, d, m, e.cluster);
  }

  lemma DirHead(g: Geo, m: Model, f: nat, k: nat, e: Ent)
    requires KidOk(g, m, f, k, e) && IsDir(e)
    ensures e.cluster >= 2
  {
    hide Sectors;
  }

  /** The folder ".." leads to is the one that holds the entry of f. */
  lemma ParentFolder(g: Geo, d: Disk, m: Model, f: nat)
    requires WF(g, d, m) && f in m.depth && f != 0
    ensures f in m.loc && m.loc[f].0 in m.depth && DotDotOk(DiskSlots(g, d, f), m.loc[f].0)
  {
    hide *;
    SeenFolder(g, d, m, f);
    WFParts(g, d, m);
    HeadPlace(g, m, DirsOf(g, d, m), f);
  }

  lemma DotDotIs(s: seq<Ent>, parent: nat)
    ensures DotDotOk(s, parent) <==> DotDotFrom(s, 0) < |s| && s[DotDotFrom(s, 0)].cluster == parent
  {
    hide DotDotFrom;
  }

  /** A folder's entry is in the folder it was found in. */
  lemma KidHome(g: Geo, d: Disk, m: Model, f: nat, k: nat)
    requires WF(g, d, m) && f in m.depth && k < |DiskSlots(g, d, f)|
    requires Child(DiskSlots(g, d, f)[k]) && IsDir(DiskSlots(g, d, f)[k])
    ensures var c := DiskSlots(g, d, f)[k].cluster; c in m.depth && c in m.loc && m.loc[c] == (f, k) && c != 0
  {
    hide *;
    KidFolder(g, d, m, f, k);
    SeenFolder(g, d, m, f);
    KidFile(g, m, f, k, DiskSlots(g, d, f)[k]);
  }
}
