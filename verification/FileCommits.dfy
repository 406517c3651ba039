/** The directory write that ends write_file, and the release after it. */
module FileCommits {
  import opened Arith
  import opened Bytes
  import opened Layout
  import opened FatTable
  import opened Chains
  import opened Folders
  import opened Tree
  import opened Volume
  import opened Paths
  import opened SectorWrites
  import opened FatWrites
  import opened Commits
  import opened Walks
  import opened Atomicity
  import opened Fresh
  import opened FileData

  /** The content w is on chain nc, which is ready on disk d. */
  ghost predicate Prepared(g: Geo, d0: Disk, d: Disk, u: set<nat>, nc: seq<nat>, w: seq<byte>, done: nat) {
    Fill(g, d0, d, u, nc, w, done) && 512 * done >= |w| && (nc == [] ==> |w| == 0)
  }

  /** The entry write_file stores. */
  function FileEnt(name: Name, nc: seq<nat>, w: seq<byte>): Ent { Ent(name, 0, FirstOf(nc), |w|) }

  lemma PreparedFile(g: Geo, d0: Disk, d: Disk, m: Model, nc: seq<nat>, w: seq<byte>, done: nat, name: Name)
    requires GeoOk(g) && Prepared(g, d0, d, Used(m), nc, w, done) && |w| < U32
    ensures FreshFile(g, d, m, FileEnt(name, nc, w), nc) && FileBytes(Body(g, d, nc), |w|) == w
    ensures FirstOf(nc) < (if g.fat32 then U32 else 0x1_0000) && Clusters(g, nc)
    ensures (forall i | 0 <= i < |nc| :: nc[i] !in m.owner) && (FirstOf(nc) < 2 ==> nc == [])
            && !IsDir(FileEnt(name, nc, w))
  {
    hide *;
    UsedIs(m);
    PreparedParts(g, d0, d, Used(m), nc, w, done);
    FillParts(g, d0, d, Used(m), nc, w, done);
    ReadBack(Body(g, d, nc), w, done);
    NcClusters(g, Table(g, d0), Table(g, d), Used(m), nc);
    FirstLast(nc);
    if |nc| > 0 {
      FillChain(g, Table(g, d0), Table(g, d), Used(m), nc);
      ClustersAt(g, nc, 0);
      ClusterFits(g, nc[0]);
    } else {
      ClusterFits(g, 0);
    }
    FreshFileMake(g, d, m, name, nc, w);
  }

  lemma PreparedParts(g: Geo, d0: Disk, d: Disk, u: set<nat>, nc: seq<nat>, w: seq<byte>, done: nat)
    requires Prepared(g, d0, d, u, nc, w, done)
    ensures Fill(g, d0, d, u, nc, w, done) && 512 * done >= |w| && (nc == [] ==> |w| == 0)
  {
    hide Fill;
  }

  lemma FreshFileMake(g: Geo, d: Disk, m: Model, name: Name, nc: seq<nat>, w: seq<byte>)
    requires Clusters(g, nc) && (forall i | 0 <= i < |nc| :: nc[i] !in m.owner)
    requires |nc| > 0 ==> IsChain(Table(g, d), g.Eoc(), nc) && Injective(nc) && nc[0] >= 2
    requires (nc == [] ==> |w| == 0) && |w| <= Sectors(g, |nc|) * 512
    ensures FreshFile(g, d, m, FileEnt(name, nc, w), nc) && !IsDir(FileEnt(name, nc, w))
            && FileEnt(name, nc, w).cluster == FirstOf(nc)
  {
    hide Table;
    hide IsChain;
    hide Injective;
    hide Sectors;
    hide Clusters;
  }

  lemma FileEntIs(name: Name, nc: seq<nat>, w: seq<byte>)
    ensures FileEnt(name, nc, w) == Ent(name, 0, FirstOf(nc), |w|)
  {
  }

  /** A new file's entry is stored in a free slot. */
  lemma NewFileCommit(g: Geo, d0: Disk, m0: Model, dpre: Disk, s: Dirs, f: nat, k: nat, name: Name, nc: seq<nat>,
                      w: seq<byte>, done: nat, l: nat, x: Sector, d1: Disk)
    returns (m1: Model)
    requires f in m0.depth && s == DirsOf(g, d0, m0) && f in s && k < |Seen(g, f, s[f])|
    requires k / 16 < FolderSize(g, m0, f) && Placeable(s[f], k) && NotAmong(Seen(g, f, s[f]), name)
    requires name[0] != END && name[0] != DOTCHAR && !IsDot(name)
    requires l < |dpre| && l == FolderLba(g, m0, f, k / 16) && d1 == dpre[l := x] && |w| < U32
    requires x == PutEnt(dpre[l], k % 16, EntBytes(g.fat32, name, 0, FirstOf(nc), |w|))
    requires Prepared(g, d0, dpre, Used(m0), nc, w, done) && WF(g, d0, m0) && Keeps(g, d0, dpre, Used(m0))
    ensures f in m1.depth && WF(g, d1, m1) && ChainsStay(m0, m1)
    ensures EditedLookups(g, d0, m0, d1, m1, f, name, Shown(name, FileNode(w)))
    ensures StoredIn(g, d0, m0, d1, m1, f, k, Ent(name, 0, FirstOf(nc), |w|))
  {
    hide *;
    var q, i := k / 16, k % 16;
    UsedIs(m0);
    KeepsWF(g, d0, dpre, m0);
    WFParts(g, dpre, m0);
    PreparedFile(g, d0, dpre, m0, nc, w, done, name);
    FileEntIs(name, nc, w);
    SlotThere(g, dpre, m0, f, q, i);
    PutInto(g, dpre[l], i, name, 0, FirstOf(nc), |w|);
    ShownIs(name, FileNode(w));
    var e := FileEnt(name, nc, w);
    m1 := m0;
    if name[0] == DELETED {
      CommitDead(g, dpre, m0, f, q, i, x, e);
      EditedFrom(g, d0, dpre, m0, d1, m0, f, name, Absent);
      ChainsStayMake(m0, m0);
    } else {
      NewEntChild(name, 0, FirstOf(nc), |w|);
      FreshInsertable(g, dpre, m0, f, k, e, nc);
      m1 := With(m0, f, k, FirstOf(nc), nc, false);
      CommitInsert(g, dpre, m0, f, q, i, l, x, d1, e, nc, [], m1);
      FileNewNode(g, dpre, e, nc);
      EditedFrom(g, d0, dpre, m0, d1, m1, f, name, FileNode(w));
      if FirstOf(nc) >= 2 {
        FirstLast(nc);
        FreshHead(g, Table(g, dpre), m0, DirsOf(g, dpre, m0), FirstOf(nc));
        WithFacts(m0, f, k, FirstOf(nc), nc, false);
      } else {
        WithNone(m0, f, k, FirstOf(nc), nc);
      }
    }
    StoredFrom(g, d0, dpre, m0, d1, d1, m1, f, k, e);
  }

  lemma WithNone(m: Model, f: nat, k: nat, c: nat, nc: seq<nat>)
    requires f in m.depth && c < 2
    ensures With(m, f, k, c, nc, false) == m && ChainsStay(m, m)
  {
  }

  /** A file's entry is stored over the old one, which named o. */
  lemma ReplaceCommit(g: Geo, d0: Disk, m0: Model, dpre: Disk, s: Dirs, f: nat, k: nat, name: Name, nc: seq<nat>,
                      w: seq<byte>, done: nat, l: nat, x: Sector, d1: Disk, o: nat)
    returns (m1: Model)
    requires f in m0.depth && s == DirsOf(g, d0, m0) && f in s && k < |Seen(g, f, s[f])|
    requires Child(s[f][k]) && !IsDir(s[f][k]) && s[f][k].name == name && o == s[f][k].cluster
    requires name[0] != END && name[0] != DELETED && name[0] != DOTCHAR && !IsDot(name)
    requires l < |dpre| && l == FolderLba(g, m0, f, k / 16) && d1 == dpre[l := x] && |w| < U32
    requires x == PutEnt(dpre[l], k % 16, EntBytes(g.fat32, name, 0, FirstOf(nc), |w|))
    requires k / 16 < FolderSize(g, m0, f)
    requires Prepared(g, d0, dpre, Used(m0), nc, w, done) && WF(g, d0, m0) && Keeps(g, d0, dpre, Used(m0))
    ensures f in m1.depth && WF(g, d1, m1) && EditedLookups(g, d0, m0, d1, m1, f, name, FileNode(w))
    ensures StoredIn(g, d0, m0, d1, m1, f, k, Ent(name, 0, FirstOf(nc), |w|))
    ensures Elems(DiskChain(g, d0, o)) !! Used(m1) && DiskChain(g, d1, o) == DiskChain(g, d0, o)
    ensures if o < 2 then ChainsStay(m0, m1) else InTable(g, o) && o in m0.ch
  {
    hide *;
    var q, i := k / 16, k % 16;
    UsedIs(m0);
    KeepsWF(g, d0, dpre, m0);
    WFParts(g, dpre, m0);
    PreparedFile(g, d0, dpre, m0, nc, w, done, name);
    FileEntIs(name, nc, w);
    SlotThere(g, dpre, m0, f, q, i);
    PutInto(g, dpre[l], i, name, 0, FirstOf(nc), |w|);
    NewEntChild(name, 0, FirstOf(nc), |w|);
    var e := FileEnt(name, nc, w);
    ReplaceableMake(g, dpre, m0, s, f, k, e, nc);
    SlotIs(g, dpre, m0, f, k);
    m1 := CommitReplace(g, dpre, m0, f, q, i, l, x, d1, e, nc, o);
    SwappedIs(m0, f, k, o, FirstOf(nc), nc, m1);
    EditedFrom(g, d0, dpre, m0, d1, m1, f, name, FileNode(w));
    RemovableFile(g, m0, s, f, k);
    HeadToo(g, dpre, m0, f, k);
    OldChain(g, d0, dpre, m0, o);
    AboveFat(g, dpre, l, x);
    LetGo(g, dpre, m0, d1, o);
    DiskChainIs(g, d1, o);
    WithUsed(Without(m0, o), f, k, FirstOf(nc), nc);
    if o < 2 {
      if FirstOf(nc) >= 2 {
        FirstLast(nc);
        FreshHead(g, Table(g, dpre), m0, DirsOf(g, dpre, m0), FirstOf(nc));
        WithFacts(m0, f, k, FirstOf(nc), nc, false);
      } else {
        WithNone(m0, f, k, FirstOf(nc), nc);
      }
    } else {
      DiskChainOf(g, dpre, m0, o);
      ModelChain(g, dpre, m0, o);
      ChainInParts(g, dpre, m0, o);
    }
    WithKeepsFolder(Without(m0, o), f, k, FirstOf(nc), nc, f);
    ChainApart(m0, DiskChain(g, d0, o), nc);
    StoredFrom(g, d0, dpre, m0, d1, d1, m1, f, k, e);
  }

  lemma DiskChainIs(g: Geo, d: Disk, c: nat)
    ensures DiskChain(g, d, c) == Orbit(Table(g, d), c, {})
  {
  }

  lemma ReplaceableMake(g: Geo, d: Disk, m: Model, s: Dirs, f: nat, k: nat, e: Ent, nc: seq<nat>)
    requires s == DirsOf(g, d, m) && f in s && k < |Seen(g, f, s[f])|
    requires Child(s[f][k]) && !IsDir(s[f][k]) && Child(e) && !IsDir(e) && e.name == s[f][k].name
             && e.name[0] != DOTCHAR
    requires FreshFile(g, d, m, e, nc)
    ensures Replaceable(g, d, m, f, k, e, nc)
  {
    hide FreshFile;
    hide DirsOf;
    hide Child;
    hide Seen;
  }

  /** The old chain is on both disks what it is in the model. */
  lemma OldChain(g: Geo, d0: Disk, dpre: Disk, m: Model, o: nat)
    requires WF(g, d0, m) && WF(g, dpre, m) && (o >= 2 ==> o in m.ch)
    ensures DiskChain(g, dpre, o) == DiskChain(g, d0, o)
    ensures DiskChain(g, d0, o) == if o >= 2 then m.ch[o] else []
    ensures forall c | c in DiskChain(g, d0, o) :: c in m.owner
  {
    hide *;
    if o >= 2 {
      DiskChainOf(g, d0, m, o);
      DiskChainOf(g, dpre, m, o);
      ModelChain(g, d0, m, o);
      ChainInParts(g, d0, m, o);
    } else {
      NoDiskChain(g, d0, o);
      NoDiskChain(g, dpre, o);
    }
  }

  lemma WithUsed(m: Model, f: nat, k: nat, c: nat, nc: seq<nat>)
    requires f in m.depth
    ensures forall x | x in Used(With(m, f, k, c, nc, false)) :: x in Used(m) || x in nc
  {
  }

  lemma WithKeepsFolder(m: Model, f: nat, k: nat, c: nat, nc: seq<nat>, y: nat)
    requires f in m.depth && y in m.depth
    ensures y in With(m, f, k, c, nc, false).depth
  {
  }

  lemma ChainApart(m: Model, old0: seq<nat>, nc: seq<nat>)
    requires (forall c | c in old0 :: c in m.owner) && forall i | 0 <= i < |nc| :: nc[i] !in m.owner
    ensures forall c | c in Elems(old0) :: c !in nc
  {
  }

  /** Free clusters after a write: the new chain's are taken, the old chain's
      come back, and no other changes. */
  ghost predicate FreeMoved(t0: seq<nat>, t1: seq<nat>, nc: seq<nat>, old0: seq<nat>) {
    && Free(t1) == Free(t0) - Elems(nc) + Elems(old0) && Elems(nc) <= Free(t0) && Elems(old0) !! Free(t0)
    && |Free(t1)| == |Free(t0)| - |nc| + |old0|
  }

  lemma Moved(g: Geo, d0: Disk, d1: Disk, m: Model, nc: seq<nat>, o: nat, t: seq<nat>)
    requires WF(g, d0, m) && (o >= 2 ==> o in m.ch) && FillTable(g, Table(g, d0), Table(g, d1), Used(m), nc)
    requires t == Cleared(Table(g, d1), Elems(DiskChain(g, d0, o)))
    ensures FreeMoved(Table(g, d0), t, nc, DiskChain(g, d0, o))
  {
    hide *;
    WFParts(g, d0, m);
    ClearedGrows(g, d0, m, o);
    FillFree(g, Table(g, d0), Table(g, d1), Used(m), nc);
    OldChain(g, d0, d0, m, o);
    MovedSets(Table(g, d0), Table(g, d1), t, nc, DiskChain(g, d0, o));
  }

  lemma MovedSets(t0: seq<nat>, t1: seq<nat>, t: seq<nat>, nc: seq<nat>, old0: seq<nat>)
    requires |t0| == |t1| && t == Cleared(t1, Elems(old0)) && FreeGrew(t0, Cleared(t0, Elems(old0)), old0)
    requires Elems(nc) <= Free(t0) && Free(t1) == Free(t0) - Elems(nc) && |Elems(nc)| == |nc|
    ensures FreeMoved(t0, t, nc, old0)
  {
    var a, b, o := Free(t0), Elems(nc), Elems(old0);
    ClearedInside(t0, old0);
    ClearedFree(t1, o);
    SplitSize(a, b);
    assert Free(t) == (a - b) + o;
    assert |a + o| == |a| + |o|;
    assert |(a - b) + o| == |a - b| + |o|;
  }

  lemma ClearedInside(t0: seq<nat>, old0: seq<nat>)
    requires FreeGrew(t0, Cleared(t0, Elems(old0)), old0)
    ensures forall c | c in Elems(old0) :: 2 <= c < |t0|
  {
    forall c | c in Elems(old0)
      ensures 2 <= c < |t0|
    {
      assert c in Free(Cleared(t0, Elems(old0)));
    }
  }

  lemma NoElems(u: set<nat>)
    ensures Elems([]) !! u
  {
  }

  lemma NotInTable(g: Geo, c: nat)
    requires c < 2
    ensures !InTable(g, c)
  {
  }

  /** The name is free, or a file that may be replaced. */
  predicate Writable(g: Geo, d: Disk, f: nat, n: Name, replace: bool) {
    Lookup(g, d, f, n) == Absent || (replace && Lookup(g, d, f, n).FileNode?)
  }

  lemma LooseIs(t: seq<nat>, first: nat, u: set<nat>)
    requires Loose(t, first, u)
    ensures Elems(Orbit(t, first, {})) !! u
  {
  }

  lemma PreparedMake(g: Geo, d0: Disk, d: Disk, u: set<nat>, nc: seq<nat>, w: seq<byte>, done: nat)
    requires Fill(g, d0, d, u, nc, w, done) && 512 * done >= |w| && (nc == [] ==> |w| == 0)
    ensures Prepared(g, d0, d, u, nc, w, done)
  {
    hide Fill;
  }

  lemma HeadThere(g: Geo, d: Disk, f: nat, n: Name)
    ensures var s := DiskSlots(g, d, f); HeadNamed(g, d, f, n) == if Find(s, n) < |s| then s[Find(s, n)].cluster else 0
  {
    hide DiskSlots;
    hide Find;
  }

  /** The reasons write_file has for refusing, when the device takes every
      write: a name it may not take, no slot, or no room. */
  ghost predicate Refused(g: Geo, d: Disk, f: nat, n: Name, len: nat, replace: bool) {
    || !Writable(g, d, f, n, replace)
    || (Lookup(g, d, f, n) == Absent && FreeFrom(DiskSlots(g, d, f), 0) == |DiskSlots(g, d, f)|)
    || 512 * Sectors(g, |Free(Table(g, d))|) < len
  }

  lemma RefusedIs(g: Geo, d: Disk, f: nat, n: Name, len: nat, replace: bool)
    ensures Lookup(g, d, f, n).FolderNode? || (!replace && Lookup(g, d, f, n) != Absent) ==>
            Refused(g, d, f, n, len, replace)
    ensures Lookup(g, d, f, n) == Absent && FreeFrom(DiskSlots(g, d, f), 0) == |DiskSlots(g, d, f)| ==>
            Refused(g, d, f, n, len, replace)
    ensures 512 * Sectors(g, |Free(Table(g, d))|) < len ==> Refused(g, d, f, n, len, replace)
    ensures Writable(g, d, f, n, replace) <==> Lookup(g, d, f, n) == Absent || (replace && Lookup(g, d, f, n).FileNode?)
  {
    hide Lookup;
    hide DiskSlots;
    hide Sectors;
    hide Table;
  }

  /** The directory write of write_file, whichever slot it fills: the model of
      the volume it leaves, and what the release after it will free. */
  lemma StoreCommit(g: Geo, d0: Disk, m0: Model, dpre: Disk, d1: Disk, f: nat, k: nat, name: Name, found: bool, o: nat,
                    nc: seq<nat>, w: seq<byte>, done: nat, l: nat, x: Sector)
    returns (m1: Model)
    requires f in m0.depth && k < |DiskSlots(g, d0, f)| && k / 16 < FolderSize(g, m0, f)
    requires name[0] != END && name[0] != DOTCHAR && !IsDot(name)
    requires var s := DiskSlots(g, d0, f);
             if found then Child(s[k]) && !IsDir(s[k]) && s[k].name == name && o == s[k].cluster && name[0] != DELETED
             else Lookup(g, d0, f, name) == Absent && Find(s, name) == |s| && FreeFrom(s, 0) == k && o == 0
    requires l == FolderLba(g, m0, f, k / 16) && l < |dpre| && d1 == dpre[l := x] && |w| < U32
    requires x == PutEnt(dpre[l], k % 16, EntBytes(g.fat32, name, 0, FirstOf(nc), |w|))
    requires Prepared(g, d0, dpre, Used(m0), nc, w, done) && WF(g, d0, m0) && Keeps(g, d0, dpre, Used(m0))
             && Table(g, d1) == Table(g, dpre)
    ensures f in m1.depth && WF(g, d1, m1) && EditedLookups(g, d0, m0, d1, m1, f, name, Shown(name, FileNode(w)))
    ensures StoredIn(g, d0, m0, d1, m1, f, k, Ent(name, 0, FirstOf(nc), |w|))
    ensures Elems(Orbit(Table(g, d1), o, {})) !! Used(m1) && InTables(g, Used(m1))
    ensures Orbit(Table(g, d1), o, {}) == DiskChain(g, d0, o)
    ensures if o < 2 then ChainsStay(m0, m1) else InTable(g, o)
    ensures FreeMoved(Table(g, d0), Cleared(Table(g, d1), Elems(DiskChain(g, d0, o))), nc, DiskChain(g, d0, o))
  {
    hide *;
    DiskSlotsOf(g, d0, m0, f);
    FolderKey(g, d0, m0, f);
    ShownIs(name, FileNode(w));
    if found {
      m1 := ReplaceCommit(g, d0, m0, dpre, DirsOf(g, d0, m0), f, k, name, nc, w, done, l, x, d1, o);
    } else {
      FreePlace(DiskSlots(g, d0, f));
      SeenPlace(g, f, DirsOf(g, d0, m0)[f], k);
      LookupEntry(g, d0, m0, f, name);
      NameFree(DiskSlots(g, d0, f), name);
      m1 := NewFileCommit(g, d0, m0, dpre, DirsOf(g, d0, m0), f, k, name, nc, w, done, l, x, d1);
      NoDiskChain(g, d0, 0);
      NoDiskChain(g, d1, 0);
      NoElems(Used(m1));
    }
    PreparedParts(g, d0, dpre, Used(m0), nc, w, done);
    FillParts(g, d0, dpre, Used(m0), nc, w, done);
    Moved(g, d0, d1, m0, nc, o, Cleared(Table(g, d1), Elems(DiskChain(g, d0, o))));
    UsedInTables(g, d1, m1);
    DiskChainIs(g, d1, o);
  }

  lemma NotRefused(g: Geo, d: Disk, f: nat, n: Name, len: nat, replace: bool)
    ensures Writable(g, d, f, n, replace) && 512 * Sectors(g, |Free(Table(g, d))|) >= len
            && (Lookup(g, d, f, n) == Absent ==> FreeFrom(DiskSlots(g, d, f), 0) < |DiskSlots(g, d, f)|)
            ==> !Refused(g, d, f, n, len, replace)
    ensures Writable(g, d, f, n, replace) <==> Lookup(g, d, f, n) == Absent || (replace && Lookup(g, d, f, n).FileNode?)
  {
    hide Lookup;
    hide DiskSlots;
    hide Sectors;
    hide Table;
  }

  /** A file that has been prepared had the free clusters it needs. */
  lemma RoomEnough(g: Geo, d0: Disk, d: Disk, u: set<nat>, nc: seq<nat>, w: seq<byte>, done: nat)
    requires Prepared(g, d0, d, u, nc, w, done)
    ensures 512 * Sectors(g, |Free(Table(g, d0))|) >= |w|
  {
    hide *;
    PreparedParts(g, d0, d, u, nc, w, done);
    FillParts(g, d0, d, u, nc, w, done);
    FillFree(g, Table(g, d0), Table(g, d), u, nc);
    SubsetSize(Elems(nc), Free(Table(g, d0)));
    SectorsGrow(g, |nc|, |Free(Table(g, d0))|);
    PreparedLong(g, d0, d, u, nc, w, done);
  }

  lemma PreparedLong(g: Geo, d0: Disk, d: Disk, u: set<nat>, nc: seq<nat>, w: seq<byte>, done: nat)
    requires Prepared(g, d0, d, u, nc, w, done)
    ensures 512 * done >= |w|
  {
    hide Fill;
  }

  lemma SectorsGrow(g: Geo, a: nat, b: nat)
    requires a <= b
    ensures Sectors(g, a) <= Sectors(g, b)
  {
    Dist(a, b - a, g.spc);
    NonNeg(b - a, g.spc);
  }
}
