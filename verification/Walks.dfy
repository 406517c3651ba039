/** Walking a chain by FAT entries, from its first cluster every time: what the
    driver's position caches must agree with. */
module Walks {
  import opened Arith
  import opened Bytes
  import opened Layout
  import opened FatTable
  import opened Chains
  import opened Folders
  import opened Tree
  import opened Volume
  import opened SectorWrites
  import opened Commits

  function Follow(g: Geo, next: nat): nat { if 2 <= next < g.Eoc() then next else 0 }

  /** The cluster n links after c, or 0 once the chain has ended. */
  function PlainWalk(g: Geo, d: Disk, c: nat, n: nat): nat {
    if n == 0 then c
    else if PlainWalk(g, d, c, n - 1) == 0 then 0
    else Follow(g, FatGet(g, d, PlainWalk(g, d, c, n - 1)))
  }

  function ClusterToLba(g: Geo, c: nat): nat { Wrap(g.DataStart() + Wrap(c - 2) * g.spc) }

  /** The sector dir_get_sector answers, worked out with no cache; 0 for none. */
  function DirSector(g: Geo, d: Disk, dir: nat, index: nat): nat
    requires g.spc > 0
  {
    if HeadOf(g, dir) == 0 then (if index >= g.rootSectors then 0 else g.RootStart() + index)
    else if index >= MAX_DIR_SECTORS then 0
    else if PlainWalk(g, d, HeadOf(g, dir), Quot(index, g.spc)) == 0 then 0
    else Wrap(ClusterToLba(g, PlainWalk(g, d, HeadOf(g, dir), Quot(index, g.spc))) + Rem(index, g.spc))
  }

  /** A walk that has ended stays ended. */
  lemma {:induction false} WalkEnded(g: Geo, d: Disk, c: nat, i: nat, n: nat)
    requires i <= n && PlainWalk(g, d, c, i) == 0
    ensures PlainWalk(g, d, c, n) == 0
    decreases n
  {
    if i < n { WalkEnded(g, d, c, i, n - 1); }
  }

  lemma WalkNext(g: Geo, d: Disk, c: nat, i: nat)
    ensures PlainWalk(g, d, c, i) != 0 ==> PlainWalk(g, d, c, i + 1) == Follow(g, FatGet(g, d, PlainWalk(g, d, c, i)))
  {
  }

  /** The first n links of a walk are read from entries of the table. */
  ghost predicate WalkInTable(g: Geo, d: Disk, c: nat, n: nat) {
    forall i: nat | i < n :: InTable(g, PlainWalk(g, d, c, i))
  }

  /** Such a walk is the same on any disk with the same table. */
  lemma {:induction false} WalkSame(g: Geo, d0: Disk, d1: Disk, c: nat, n: nat)
    requires Table(g, d1) == Table(g, d0) && WalkInTable(g, d0, c, n)
    ensures PlainWalk(g, d1, c, n) == PlainWalk(g, d0, c, n)
    decreases n
  {
    if n > 0 {
      WalkSame(g, d0, d1, c, n - 1);
      var x := PlainWalk(g, d0, c, n - 1);
      assert InTable(g, x);
      TableAt(g, d0, x);
      TableAt(g, d1, x);
    }
  }

  /** On a chain of a well-formed volume the walk is the chain. */
  lemma {:induction false} WalkChain(g: Geo, d: Disk, t: seq<nat>, s: seq<nat>, n: nat)
    requires t == Table(g, d) && IsChain(t, g.Eoc(), s) && g.Limit() < g.Eoc()
    ensures PlainWalk(g, d, s[0], n) == if n < |s| then s[n] else 0
  {
    if n > 0 {
      WalkChain(g, d, t, s, n - 1);
      if n <= |s| {
        assert t[s[n - 1]] == FatGet(g, d, s[n - 1]);
      }
    }
  }

  /** Where a walk of n links along a chain gets; 0 past its end. */
  function Nth(chain: seq<nat>, n: nat): nat { if n < |chain| then chain[n] else 0 }

  lemma NthIs(chain: seq<nat>, n: nat)
    ensures Nth(chain, n) == if n < |chain| then chain[n] else 0
  {
  }

  lemma ModelWalk(g: Geo, d: Disk, m: Model, h: nat, chain: seq<nat>, n: nat)
    requires h in m.ch && chain == m.ch[h] && WF(g, d, m)
    ensures PlainWalk(g, d, h, n) == Nth(chain, n)
    ensures n < |chain| ==> InTable(g, Nth(chain, n)) && Nth(chain, n) >= 2
  {
    hide *;
    ModelChain(g, d, m, h);
    ChainInParts(g, d, m, h);
    WFParts(g, d, m);
    LimitBelow(g);
    WalkChain(g, d, Table(g, d), chain, n);
    NthIs(chain, n);
    if n < |chain| { ClustersAt(g, chain, n); }
  }

  lemma LimitBelow(g: Geo)
    requires GeoOk(g)
    ensures g.Limit() < g.Eoc()
  {
  }

  lemma ClustersAt(g: Geo, chain: seq<nat>, n: nat)
    requires Clusters(g, chain) && n < |chain|
    ensures InTable(g, chain[n]) && chain[n] >= 2
  {
  }

  lemma LbaExact(g: Geo, c: nat, s: nat)
    requires GeoOk(g) && InTable(g, c) && s < g.spc
    ensures Wrap(ClusterToLba(g, c) + s) == g.Lba(c) + s && g.Lba(c) + s > 0
    ensures ClusterToLba(g, c) == g.Lba(c)
  {
    ClusterInside(g, c, s);
    ClusterInside(g, c, 0);
    RootAbove(g);
    WrapSmall(g.Lba(c) + s);
    hide Geo.Lba;
    hide GeoOk;
  }

  lemma WrapSmall(x: int)
    requires 0 <= x < U32
    ensures Wrap(x) == x
  {
  }

  /** In a folder of a well-formed volume dir_get_sector finds each of its
      sectors, and nothing past its end. */
  lemma FolderSectorFound(g: Geo, d: Disk, m: Model, f: nat, index: nat)
    requires WF(g, d, m) && f in m.depth && g.spc > 0
    ensures DirSector(g, d, f, index) == if index < SeenSize(g, m, f) then FolderLba(g, m, f, index) else 0
    ensures index < SeenSize(g, m, f) ==> 0 < FolderLba(g, m, f, index) < |d|
  {
    hide *;
    SeenSizeIs(g, m, f);
    if index < FolderSize(g, m, f) { FolderSector(g, d, m, f, index); }
    FolderChain(g, d, m, f);
    WFParts(g, d, m);
    if FixedRoot(g, f) {
      FixedFound(g, d, m, f, index);
    } else {
      var h := HeadOf(g, f);
      ModelWalk(g, d, m, h, m.ch[h], Quot(index, g.spc));
      NthIs(m.ch[h], Quot(index, g.spc));
      ModelChain(g, d, m, h);
      ChainInParts(g, d, m, h);
      HeadNonZero(g, m.ch[h], h);
      if index < FolderSize(g, m, f) {
        FolderCluster(g, d, m, f, index);
        InFolderParts(g, m, f, index);
        LbaExact(g, m.ch[h][Quot(index, g.spc)], Rem(index, g.spc));
      }
      ChainFound(g, d, m, f, index);
    }
  }

  lemma SeenSizeIs(g: Geo, m: Model, f: nat)
    ensures SeenSize(g, m, f) <= FolderSize(g, m, f)
    ensures !FixedRoot(g, f) ==> SeenSize(g, m, f) == Least(FolderSize(g, m, f), MAX_DIR_SECTORS) <= MAX_DIR_SECTORS
  {
    hide Sectors;
    hide ChainOf;
  }

  lemma HeadNonZero(g: Geo, chain: seq<nat>, h: nat)
    requires Clusters(g, chain) && |chain| > 0 && chain[0] == h
    ensures h != 0
  {
  }

  lemma FixedFound(g: Geo, d: Disk, m: Model, f: nat, index: nat)
    requires FixedRoot(g, f) && g.spc > 0
    ensures DirSector(g, d, f, index) == if index < SeenSize(g, m, f) then FolderLba(g, m, f, index) else 0
  {
    hide Geo.RootStart;
  }

  lemma ChainFound(g: Geo, d: Disk, m: Model, f: nat, index: nat)
    requires !FixedRoot(g, f) && g.spc > 0 && HeadOf(g, f) != 0
    requires HeadOf(g, f) in m.ch && ChainOf(g, m, f) == m.ch[HeadOf(g, f)]
    requires var q, chain := Quot(index, g.spc), m.ch[HeadOf(g, f)];
             && PlainWalk(g, d, HeadOf(g, f), q) == (if q < |chain| then chain[q] else 0)
             && (index < FolderSize(g, m, f) ==>
                   q < |chain| && chain[q] >= 2 && FolderLba(g, m, f, index) == g.Lba(chain[q]) + Rem(index, g.spc) &&
                   Wrap(ClusterToLba(g, chain[q]) + Rem(index, g.spc)) == g.Lba(chain[q]) + Rem(index, g.spc))
    ensures DirSector(g, d, f, index) == if index < SeenSize(g, m, f) then FolderLba(g, m, f, index) else 0
  {
    hide PlainWalk;
    hide Geo.Lba;
    hide Wrap;
    hide ClusterToLba;
    hide FolderLba;
    hide Rem;
    var q, chain := Quot(index, g.spc), m.ch[HeadOf(g, f)];
    if index >= FolderSize(g, m, f) {
      PastEnd(index, |chain|, g.spc);
    }
    hide Quot;
  }

  lemma PastEnd(i: nat, n: nat, k: nat)
    requires k > 0 && i >= n * k
    ensures Quot(i, k) >= n
  {
    DivMod(i, k);
    if Quot(i, k) < n { Scale(Quot(i, k), Rem(i, k), n, k); }
  }

  lemma WalkStart(g: Geo, d: Disk, c: nat)
    ensures PlainWalk(g, d, c, 0) == c
  {
  }

  lemma WalkOn(g: Geo, d: Disk, c: nat, i: nat, next: nat)
    requires PlainWalk(g, d, c, i) != 0 && next == FatGet(g, d, PlainWalk(g, d, c, i))
    ensures PlainWalk(g, d, c, i + 1) == if next < 2 || next >= g.Eoc() then 0 else next
  {
    hide FatGet;
  }

  lemma DirSectorCases(g: Geo, d: Disk, dir: nat, index: nat)
    requires g.spc > 0
    ensures HeadOf(g, dir) == 0 ==> DirSector(g, d, dir, index) == if index >= g.rootSectors then 0
            else g.RootStart() + index
    ensures HeadOf(g, dir) != 0 && index >= MAX_DIR_SECTORS ==> DirSector(g, d, dir, index) == 0
    ensures HeadOf(g, dir) != 0 && index < MAX_DIR_SECTORS ==>
      var c := PlainWalk(g, d, HeadOf(g, dir), Quot(index, g.spc));
      DirSector(g, d, dir, index) == if c == 0 then 0 else Wrap(ClusterToLba(g, c) + Rem(index, g.spc))
  {
    hide PlainWalk;
    hide Wrap;
    hide ClusterToLba;
    hide Quot;
    hide Rem;
    hide Geo.RootStart;
  }

  // ----- positions remembered inside a chain of the model

  /** h is no chain, or c is the cluster at index i of the chain at h. */
  ghost predicate PlaceOk(m: Model, h: nat, i: nat, c: nat) {
    h != 0 ==> h in m.ch && i < |m.ch[h]| && m.ch[h][i] == c
  }

  lemma PlaceWalk(g: Geo, d: Disk, m: Model, h: nat, i: nat, c: nat)
    requires WF(g, d, m) && PlaceOk(m, h, i, c)
    ensures h != 0 ==> c != 0 && PlainWalk(g, d, h, i) == c
  {
    hide *;
    hide PlaceOk;
    PlaceParts(m, h, i, c);
    if h != 0 {
      ModelWalk(g, d, m, h, m.ch[h], i);
      NthIs(m.ch[h], i);
    }
  }

  lemma PlaceParts(m: Model, h: nat, i: nat, c: nat)
    requires PlaceOk(m, h, i, c)
    ensures h != 0 ==> h in m.ch && i < |m.ch[h]| && m.ch[h][i] == c
  {
  }

  lemma WalkPlace(g: Geo, d: Disk, m: Model, h: nat, i: nat, c: nat)
    requires WF(g, d, m) && (h in m.ch || h == 0) && c != 0 && PlainWalk(g, d, h, i) == c
    ensures PlaceOk(m, h, i, c)
  {
    hide WF;
    hide PlainWalk;
    if h != 0 { ModelWalk(g, d, m, h, m.ch[h], i); }
  }

  lemma PlaceNone(m: Model, i: nat, c: nat)
    ensures PlaceOk(m, 0, i, c)
  {
  }
}
