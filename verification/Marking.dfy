/** On a well-formed volume the clusters a path leads to are the clusters in
    use, so the mark phase marks exactly those. */
module Marking {
  import opened Bytes
  import opened Layout
  import opened FatTable
  import opened Chains
  import opened Folders
  import opened Tree
  import opened Volume
  import opened SectorWrites
  import opened Commits
  import opened Fresh
  import opened Reach
  import opened Walks

  /** Folders nest no deeper than the scan goes. */
  ghost predicate NestsWithin(m: Model) {
    forall f | f in m.depth :: m.depth[f] < SCAN_DEPTH
  }

  lemma NestsIs(m: Model)
    ensures NestsWithin(m) <==> forall f | f in m.depth :: m.depth[f] < 12
  {
  }

  /** What a path of n folders leads to is in the model. */
  ghost predicate InModel(g: Geo, m: Model, h: nat, dir: bool, n: nat, f: nat) {
    if dir then f in m.depth && h == HeadOf(g, f) && m.depth[f] == n
    else h in m.ch && h in m.loc && h !in m.depth && h >= 2
  }

  lemma ListingOf(g: Geo, d: Disk, m: Model, f: nat)
    requires WF(g, d, m) && f in m.depth
    ensures f in DirsOf(g, d, m) && Listing(g, d, HeadOf(g, f)) == DirsOf(g, d, m)[f]
  {
    hide *;
    DiskSlotsOf(g, d, m, f);
    FolderHead(g, d, m, f);
    if HeadOf(g, f) in m.ch { DiskChainOf(g, d, m, HeadOf(g, f)); }
    FolderChain(g, d, m, f);
    WFParts(g, d, m);
    ChainOfHead(g, m, f);
    NoChain(g, d);
    SameListing(g, d, m, f);
  }

  /** All entries of a folder, past the reach of searches too, lead to chains of
      their own, and end markers come last. */
  lemma KidsThere(g: Geo, d: Disk, m: Model, f: nat)
    requires WF(g, d, m) && f in m.depth
    ensures var s := Listing(g, d, HeadOf(g, f));
            Ended(s) && forall k | 0 <= k < |s| && Child(s[k]) :: KidOk(g, m, f, k, s[k])
  {
    ListingOf(g, d, m, f);
    DiskSlotsOf(g, d, m, f);
    hide WF;
    hide Listing;
    hide DirsOf;
    hide KidOk;
    hide Ended;
    hide NamesOk;
    hide DotDotOk;
    hide Seen;
    hide Child;
  }

  lemma NoChain(g: Geo, d: Disk)
    ensures DiskChain(g, d, 0) == []
  {
    OrbitEmpty(Table(g, d), 0);
  }

  lemma SameListing(g: Geo, d: Disk, m: Model, f: nat)
    requires GeoOk(g) && DiskChain(g, d, HeadOf(g, f)) == ChainOf(g, m, f)
    ensures Listing(g, d, HeadOf(g, f)) == FolderSlots(g, d, m, f)
  {
    hide DiskChain;
    hide ChainOf;
    hide Body;
    hide Geo.DataStart;
    hide Geo.RootStart;
    hide Slots;
  }

  lemma {:induction false} ReachedInModel(g: Geo, d: Disk, m: Model, h: nat, dir: bool, n: nat) returns (f: nat)
    requires WF(g, d, m) && Reached(g, d, h, dir, n)
    ensures InModel(g, m, h, dir, n, f)
    decreases n
  {
    hide *;
    WFParts(g, d, m);
    RootIn(g, m, DirsOf(g, d, m));
    f := 0;
    if n == 0 {
      ReachedRoot(g, d, h, dir);
      RootModel(g, m, h);
    } else {
      var p: nat, k: nat := ReachedParent(g, d, h, dir, n);
      var fp := ReachedInModel(g, d, m, p, true, n - 1);
      InModelParts(g, m, p, true, n - 1, fp);
      ListingOf(g, d, m, fp);
      NamedParts(g, d, p, k, h, dir);
      KidsThere(g, d, m, fp);
      KidFile(g, m, fp, k, Listing(g, d, p)[k]);
      HeadPlace(g, m, DirsOf(g, d, m), h);
      f := h;
      HeadItself(g, h);
      InModelMake(g, m, h, dir, n, f);
    }
  }

  lemma RootIn(g: Geo, m: Model, s: Dirs)
    requires HeadsOk(g, m, s)
    ensures 0 in m.depth && m.depth[0] == 0
  {
  }

  lemma RootModel(g: Geo, m: Model, h: nat)
    requires 0 in m.depth && m.depth[0] == 0 && h == HeadOf(g, 0)
    ensures InModel(g, m, h, true, 0, 0)
  {
  }

  lemma HeadItself(g: Geo, h: nat)
    requires h >= 2
    ensures HeadOf(g, h) == h
  {
  }

  lemma InModelParts(g: Geo, m: Model, h: nat, dir: bool, n: nat, f: nat)
    requires InModel(g, m, h, dir, n, f)
    ensures if dir then f in m.depth && h == HeadOf(g, f) && m.depth[f] == n
            else h in m.ch && h in m.loc && h !in m.depth && h >= 2
  {
  }

  lemma InModelMake(g: Geo, m: Model, h: nat, dir: bool, n: nat, f: nat)
    requires if dir then f in m.depth && h == HeadOf(g, f) && m.depth[f] == n
             else h in m.ch && h in m.loc && h !in m.depth && h >= 2
    ensures InModel(g, m, h, dir, n, f)
  {
  }

  lemma NamedParts(g: Geo, d: Disk, f: nat, k: nat, c: nat, dir: bool)
    requires NamedAt(g, d, f, k, c, dir)
    ensures k < |Listing(g, d, f)| && Child(Listing(g, d, f)[k]) && Listing(g, d, f)[k].cluster == c && c >= 2
            && IsDir(Listing(g, d, f)[k]) == dir
  {
    hide Listing;
    hide Child;
    hide IsDir;
  }

  lemma {:induction false} FolderReached(g: Geo, d: Disk, m: Model, f: nat)
    requires WF(g, d, m) && f in m.depth
    ensures Reached(g, d, HeadOf(g, f), true, m.depth[f])
    decreases m.depth[f], 1
  {
    hide *;
    WFParts(g, d, m);
    RootIn(g, m, DirsOf(g, d, m));
    if f == 0 {
      ReachedStart(g, d);
    } else {
      ParentFolder(g, d, m, f);
      HeadPlace(g, m, DirsOf(g, d, m), f);
      HeadItself(g, f);
      HeadReached(g, d, m, f, m.loc[f].0, m.depth[f]);
    }
  }

  /** The chain an entry names is reached by way of the entry's folder. */
  lemma {:induction false} HeadReached(g: Geo, d: Disk, m: Model, h: nat, p: nat, n: nat)
    requires h in m.loc && p == m.loc[h].0 && p in m.depth && n == m.depth[p] + 1 && WF(g, d, m)
    ensures Reached(g, d, h, h in m.depth, n)
    decreases n, 0
  {
    hide *;
    WFParts(g, d, m);
    HeadPlace(g, m, DirsOf(g, d, m), h);
    var k := m.loc[h].1;
    FolderReached(g, d, m, p);
    ListingOf(g, d, m, p);
    KidsThere(g, d, m, p);
    NamedHead(g, d, HeadOf(g, p), k, h, h in m.depth);
    ReachedChild(g, d, HeadOf(g, p), k, h, h in m.depth, m.depth[p]);
  }

  lemma NamedHead(g: Geo, d: Disk, f: nat, k: nat, c: nat, dir: bool)
    requires var s := Listing(g, d, f);
             Ended(s) && k < |s| && Child(s[k]) && s[k].cluster == c && c >= 2 && IsDir(s[k]) == dir
    ensures NamedAt(g, d, f, k, c, dir)
  {
    hide Listing;
    hide IsDir;
  }

  lemma WFApart(g: Geo, d: Disk, m: Model)
    requires WF(g, d, m)
    ensures FoldersApart(g, d)
  {
    hide WF;
    hide Reached;
    hide DiskChain;
    forall f: nat, n: nat, h: nat, dir: bool, k: nat | Reached(g, d, f, true, n) && Reached(g, d, h, dir, k)
      && (h != f || !dir)
      ensures Elems(DiskChain(g, d, f)) !! Elems(DiskChain(g, d, h))
    {
      HeadsDiffer(g, d, m, f, n, h, dir, k);
    }
  }

  lemma HeadsDiffer(g: Geo, d: Disk, m: Model, f: nat, n: nat, h: nat, dir: bool, k: nat)
    requires WF(g, d, m) && Reached(g, d, f, true, n) && Reached(g, d, h, dir, k) && (h != f || !dir)
    ensures Elems(DiskChain(g, d, f)) !! Elems(DiskChain(g, d, h))
  {
    hide *;
    var f0 := ReachedInModel(g, d, m, f, true, n);
    InModelParts(g, m, f, true, n, f0);
    var h0 := ReachedInModel(g, d, m, h, dir, k);
    InModelParts(g, m, h, dir, k, h0);
    WFParts(g, d, m);
    if !dir { NotFolderHead(g, d, m, f0, h); }
    FolderHead(g, d, m, f0);
    if dir { FolderHead(g, d, m, h0); }
    NoChain(g, d);
    EmptyElems();
    if f in m.ch && h in m.ch {
      ModelChain(g, d, m, f);
      ChainInParts(g, d, m, f);
      ModelChain(g, d, m, h);
      ChainInParts(g, d, m, h);
      DiskChainOf(g, d, m, f);
      DiskChainOf(g, d, m, h);
      ApartChains(m, f, h);
    } else {
      EmptyApart(DiskChain(g, d, f), DiskChain(g, d, h));
    }
  }

  lemma EmptyElems()
    ensures Elems([]) == {}
  {
  }

  lemma EmptyApart(a: seq<nat>, b: seq<nat>)
    requires a == [] || b == []
    ensures Elems(a) !! Elems(b)
  {
  }

  lemma ApartChains(m: Model, f: nat, h: nat)
    requires f in m.ch && h in m.ch && f != h
    requires forall i | 0 <= i < |m.ch[f]| :: m.ch[f][i] in m.owner && m.owner[m.ch[f][i]] == f
    requires forall i | 0 <= i < |m.ch[h]| :: m.ch[h][i] in m.owner && m.owner[m.ch[h][i]] == h
    ensures Elems(m.ch[f]) !! Elems(m.ch[h])
  {
  }

  /** Reachable and in use are the same. */
  lemma ReachableUsed(g: Geo, d: Disk, m: Model, x: nat)
    requires WF(g, d, m)
    ensures Reachable(g, d, x) <==> x in Used(m)
  {
    hide *;
    WFParts(g, d, m);
    if Reachable(g, d, x) {
      var h, dir, n := ReachableBy(g, d, x);
      var f := ReachedInModel(g, d, m, h, dir, n);
      InModelParts(g, m, h, dir, n, f);
      if dir { FolderHead(g, d, m, f); }
      NoChain(g, d);
      EmptyElems();
      ElemAt(DiskChain(g, d, h), x);
      if h in m.ch {
        DiskChainOf(g, d, m, h);
        ModelChain(g, d, m, h);
        ChainInParts(g, d, m, h);
      }
      UsedIs(m);
    }
    UsedIs(m);
    if x in Used(m) {
      var h := m.owner[x];
      OwnerHead(g, d, m, x);
      DiskChainOf(g, d, m, h);
      if h in m.loc {
        HeadPlace(g, m, DirsOf(g, d, m), h);
        HeadReached(g, d, m, h, m.loc[h].0, m.depth[m.loc[h].0] + 1);
        ReachableMake(g, d, x, h, h in m.depth, m.depth[m.loc[h].0] + 1);
      } else {
        ReachedStart(g, d);
        ReachableMake(g, d, x, h, true, 0);
      }
    }
  }

  lemma ElemAt(s: seq<nat>, x: nat)
    ensures x in Elems(s) <==> x in s
  {
  }

  lemma ReachableMake(g: Geo, d: Disk, x: nat, h: nat, dir: bool, n: nat)
    requires Reached(g, d, h, dir, n) && x in DiskChain(g, d, h)
    ensures Reachable(g, d, x)
  {
    hide Reached;
    hide DiskChain;
    assert x in Elems(DiskChain(g, d, h));
  }

  lemma OwnerHead(g: Geo, d: Disk, m: Model, x: nat)
    requires WF(g, d, m) && x in m.owner
    ensures var h := m.owner[x]; h in m.ch && x in m.ch[h] && (h in m.loc || h == HeadOf(g, 0))
  {
    hide LocOk;
    hide FolderOk;
    hide Sectors;
    hide DirsOf;
  }

  /** The scan reads a well-formed volume whole when its folders nest no deeper
      than the scan goes. */
  lemma WFReadable(g: Geo, d: Disk, m: Model)
    requires WF(g, d, m) && NestsWithin(m)
    ensures Readable(g, d)
  {
    hide WF;
    hide Reached;
    hide DiskChain;
    hide FatGet;
    hide NestsWithin;
    forall h: nat, dir: bool, n: nat | Reached(g, d, h, dir, n)
      ensures !(g.Limit() <= h < g.Eoc())
      ensures forall x | x in Elems(DiskChain(g, d, h)) :: !(g.Limit() <= FatGet(g, d, x) < g.Eoc())
      ensures dir && (InTable(g, h) || n == 0) ==> n < SCAN_DEPTH
    {
      HeadReadable(g, d, m, h, dir, n);
    }
  }

  lemma HeadReadable(g: Geo, d: Disk, m: Model, h: nat, dir: bool, n: nat)
    requires WF(g, d, m) && NestsWithin(m) && Reached(g, d, h, dir, n)
    ensures !(g.Limit() <= h < g.Eoc())
    ensures forall x | x in Elems(DiskChain(g, d, h)) :: !(g.Limit() <= FatGet(g, d, x) < g.Eoc())
    ensures dir ==> n < SCAN_DEPTH
  {
    hide *;
    var f := ReachedInModel(g, d, m, h, dir, n);
    InModelParts(g, m, h, dir, n, f);
    WFParts(g, d, m);
    if dir {
      FolderHead(g, d, m, f);
      NestsAt(m, f);
    }
    NoChain(g, d);
    EmptyElems();
    ZeroBelow(g);
    if h in m.ch {
      ModelChain(g, d, m, h);
      ChainInParts(g, d, m, h);
      DiskChainOf(g, d, m, h);
      ChainReadable(g, d, m.ch[h]);
    }
  }

  lemma NestsAt(m: Model, f: nat)
    requires NestsWithin(m) && f in m.depth
    ensures m.depth[f] < SCAN_DEPTH
  {
  }

  lemma ZeroBelow(g: Geo)
    ensures 0 < g.Limit()
  {
  }

  lemma ChainReadable(g: Geo, d: Disk, s: seq<nat>)
    requires IsChain(Table(g, d), g.Eoc(), s) && Clusters(g, s)
    ensures s[0] < g.Limit()
    ensures forall x | x in Elems(s) :: !(g.Limit() <= FatGet(g, d, x) < g.Eoc())
  {
    forall x | x in Elems(s)
      ensures !(g.Limit() <= FatGet(g, d, x) < g.Eoc())
    {
      var i :| 0 <= i < |s| && s[i] == x;
      TableAt(g, d, x);
      if i + 1 < |s| { assert Table(g, d)[s[i]] == s[i + 1] && InTable(g, s[i + 1]); }
    }
  }

  /** And when no folder it reads is too deep, none of the volume is. */
  lemma WFNests(g: Geo, d: Disk, m: Model)
    requires WF(g, d, m)
    requires forall f: nat, n: nat | Reached(g, d, f, true, n) && (InTable(g, f) || n == 0) :: NotDeep(g, d, f)
    ensures NestsWithin(m)
  {
    hide WF;
    hide Reached;
    hide NotDeep;
    forall f | f in m.depth
      ensures m.depth[f] < SCAN_DEPTH
    {
      FolderNests(g, d, m, f);
    }
  }

  lemma FolderNests(g: Geo, d: Disk, m: Model, f: nat)
    requires WF(g, d, m) && f in m.depth
    requires forall f: nat, n: nat | Reached(g, d, f, true, n) && (InTable(g, f) || n == 0) :: NotDeep(g, d, f)
    ensures m.depth[f] < SCAN_DEPTH
  {
    hide *;
    WFParts(g, d, m);
    RootIn(g, m, DirsOf(g, d, m));
    FolderReached(g, d, m, f);
    FolderHead(g, d, m, f);
    if HeadOf(g, f) in m.ch { HeadInTable(g, d, m, HeadOf(g, f)); }
    FixedZero(g, f);
    var n := NotDeepBy(g, d, HeadOf(g, f));
    var f1 := ReachedInModel(g, d, m, HeadOf(g, f), true, n);
    InModelParts(g, m, HeadOf(g, f), true, n, f1);
    if f1 != f { HeadsApart(g, d, m, f, f1); }
  }

  lemma FixedZero(g: Geo, f: nat)
    ensures FixedRoot(g, f) ==> f == 0
  {
  }

  lemma HeadInTable(g: Geo, d: Disk, m: Model, h: nat)
    requires WF(g, d, m) && h in m.ch
    ensures InTable(g, h)
  {
    hide *;
    ModelChain(g, d, m, h);
    ChainInParts(g, d, m, h);
    hide Clusters;
    FirstInTable(g, m.ch[h]);
  }

  lemma FirstInTable(g: Geo, s: seq<nat>)
    requires Clusters(g, s) && |s| > 0
    ensures InTable(g, s[0])
  {
  }

  lemma NotDeepBy(g: Geo, d: Disk, f: nat) returns (n: nat)
    requires NotDeep(g, d, f)
    ensures n < SCAN_DEPTH && Reached(g, d, f, true, n)
  {
    hide Reached;
    n :| n < SCAN_DEPTH && Reached(g, d, f, true, n);
  }

  /** A scan that ended well is one of a volume whose folders nest within its
      depth, and the other way round. */
  lemma MarkFacts(g: Geo, d: Disk, m: Model)
    requires WF(g, d, m)
    ensures NestsWithin(m) ==> Readable(g, d)
  {
    hide *;
    if NestsWithin(m) { WFReadable(g, d, m); }
  }

  /** The marks of a scan that ended well are the clusters in use. */
  lemma MarksUsed(g: Geo, d: Disk, m: Model, marks: set<nat>)
    requires WF(g, d, m)
    requires forall x | x in marks :: Reachable(g, d, x)
    requires forall x: nat | Reachable(g, d, x) :: x in marks
    ensures marks == Used(m)
  {
    hide *;
    forall x
      ensures x in marks <==> x in Used(m)
    {
      if x in marks { ReachableUsed(g, d, m, x); }
      if x in Used(m) { ReachableUsed(g, d, m, x); }
    }
  }

  /** The links from h on make an ended chain without repeats. */
  ghost predicate EndedChain(g: Geo, d: Disk, h: nat) {
    var c := DiskChain(g, d, h);
    IsChain(Table(g, d), g.Eoc(), c) && Injective(c) && c[0] == h
  }

  lemma EndedMake(g: Geo, d: Disk, h: nat)
    requires var c := DiskChain(g, d, h); IsChain(Table(g, d), g.Eoc(), c) && Injective(c) && c[0] == h
    ensures EndedChain(g, d, h)
  {
    hide DiskChain;
  }

  /** What well-formed means in terms of the disk alone: the chains that paths
      lead to are in range, linked, ended and free of repeats, none of their
      entries is zero, and two of them share no cluster. */
  lemma ReachedChains(g: Geo, d: Disk, m: Model, h: nat, dir: bool, n: nat, h1: nat, dir1: bool, n1: nat)
    requires WF(g, d, m) && Reached(g, d, h, dir, n) && Reached(g, d, h1, dir1, n1)
    ensures h != 0 ==> EndedChain(g, d, h)
    ensures forall x | x in DiskChain(g, d, h) :: InTable(g, x) && FatGet(g, d, x) != 0
    ensures h1 != h ==> Elems(DiskChain(g, d, h)) !! Elems(DiskChain(g, d, h1))
  {
    hide *;
    ReachedChain(g, d, m, h, dir, n);
    ReachedChain(g, d, m, h1, dir1, n1);
    InVolumeIs(g, d, m, h);
    InVolumeIs(g, d, m, h1);
    if h1 != h {
      if h != 0 && h1 != 0 {
        ModelChain(g, d, m, h);
        ChainInParts(g, d, m, h);
        ModelChain(g, d, m, h1);
        ChainInParts(g, d, m, h1);
        ApartChains(m, h, h1);
      } else {
        EmptyApart(DiskChain(g, d, h), DiskChain(g, d, h1));
      }
    }
  }

  lemma ReachedChain(g: Geo, d: Disk, m: Model, h: nat, dir: bool, n: nat)
    requires WF(g, d, m) && Reached(g, d, h, dir, n)
    ensures InVolume(g, d, m, h) && (h != 0 ==> EndedChain(g, d, h))
    ensures forall x | x in DiskChain(g, d, h) :: InTable(g, x) && FatGet(g, d, x) != 0
  {
    hide *;
    var f := ReachedInModel(g, d, m, h, dir, n);
    InModelParts(g, m, h, dir, n, f);
    if dir { FolderHead(g, d, m, f); }
    NoChain(g, d);
    if h in m.ch {
      ModelChain(g, d, m, h);
      ChainInParts(g, d, m, h);
      HeadInTable(g, d, m, h);
      InTableIs(g, h);
      DiskChainOf(g, d, m, h);
      EndedMake(g, d, h);
      forall x | x in DiskChain(g, d, h)
        ensures InTable(g, x) && FatGet(g, d, x) != 0
      {
        var i :| 0 <= i < |m.ch[h]| && m.ch[h][i] == x;
        ClustersAt(g, m.ch[h], i);
        UsedIs(m);
        UsedNonZero(g, d, m, x);
        InTableIs(g, x);
        TableAt(g, d, x);
      }
    }
    InVolumeIs(g, d, m, h);
  }

  /** The links from h on are the model's chain. */
  ghost predicate InVolume(g: Geo, d: Disk, m: Model, h: nat) {
    if h == 0 then DiskChain(g, d, h) == [] else h in m.ch && DiskChain(g, d, h) == m.ch[h]
  }

  lemma InVolumeIs(g: Geo, d: Disk, m: Model, h: nat)
    ensures InVolume(g, d, m, h) <==>
            if h == 0 then DiskChain(g, d, h) == [] else h in m.ch && DiskChain(g, d, h) == m.ch[h]
  {
    hide DiskChain;
  }
}
