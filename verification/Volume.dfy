/** A volume on a disk: the sectors of chains and folders, what a well-formed
    volume is, and the tree of names a reader sees from the root. */
module Volume {
  import opened Arith
  import opened Bytes
  import opened Layout
  import opened FatTable
  import opened Chains
  import opened Folders
  import opened Tree

  /** Sector s of cluster c. */
  function Sec(g: Geo, d: Disk, c: nat, s: nat): Sector {
    if 0 <= g.Lba(c) + s < |d| then d[g.Lba(c) + s] else ZeroSector()
  }

  function SecAt(g: Geo, d: Disk, chain: seq<nat>, i: nat): Sector {
    if g.spc > 0 && Quot(i, g.spc) < |chain| then Sec(g, d, chain[Quot(i, g.spc)], Rem(i, g.spc)) else ZeroSector()
  }

  /** The sectors of a chain, one cluster after the other. */
  function Body(g: Geo, d: Disk, chain: seq<nat>): (r: seq<Sector>)
    ensures |r| == Sectors(g, |chain|)
  {
    seq(Sectors(g, |chain|), (i: nat) => SecAt(g, d, chain, i))
  }

  /** Where sector i of a chain is. */
  function LbaAt(g: Geo, chain: seq<nat>, i: nat): int
    requires g.spc > 0 && Quot(i, g.spc) < |chain|
  {
    g.Lba(chain[Quot(i, g.spc)]) + Rem(i, g.spc)
  }

  function FolderBody(g: Geo, d: Disk, chain: seq<nat>, f: nat): seq<Sector> {
    if !FixedRoot(g, f) then Body(g, d, chain)
    else if g.DataStart() <= |d| then d[g.RootStart()..g.DataStart()] else []
  }

  /** The slots of folder f of a volume with model m. */
  function FolderSlots(g: Geo, d: Disk, m: Model, f: nat): seq<Ent> {
    Slots(g.fat32, FolderBody(g, d, ChainOf(g, m, f), f))
  }

  function DirsOf(g: Geo, d: Disk, m: Model): Dirs {
    map f | f in m.depth :: FolderSlots(g, d, m, f)
  }

  ghost predicate WF(g: Geo, d: Disk, m: Model) {
    GeoOk(g) && Fits(g, d) && WellFormed(g, Table(g, d), m, DirsOf(g, d, m))
  }

  // ----- what a reader sees, from the disk alone

  datatype Node = Absent | FileNode(bytes: seq<byte>) | FolderNode(cluster: nat)

  function DiskChain(g: Geo, d: Disk, c: nat): seq<nat> { Orbit(Table(g, d), c, {}) }

  /** The slots a search of folder f goes through. */
  function DiskSlots(g: Geo, d: Disk, f: nat): seq<Ent> {
    Seen(g, f, Slots(g.fat32, FolderBody(g, d, DiskChain(g, d, HeadOf(g, f)), f)))
  }

  /** What an entry stands for. */
  function NodeOf(g: Geo, d: Disk, e: Ent): Node {
    if IsDir(e) then FolderNode(e.cluster)
    else FileNode(FileBytes(Body(g, d, DiskChain(g, d, e.cluster)), e.size))
  }

  function NodeAt(g: Geo, d: Disk, s: seq<Ent>, n: Name): Node {
    if IsDot(n) || Find(s, n) == |s| then Absent else NodeOf(g, d, s[Find(s, n)])
  }

  /** The named member of folder f. */
  function Lookup(g: Geo, d: Disk, f: nat, n: Name): Node {
    NodeAt(g, d, DiskSlots(g, d, f), n)
  }

  // ----- disks that agree on the clusters in use

  /** d1 has the entries and sectors of the clusters u, and the fixed root
      folder, exactly as d0 has them. */
  ghost predicate Keeps(g: Geo, d0: Disk, d1: Disk, u: set<nat>) {
    && |d0| == |d1|
    && (forall c | c in u :: FatGet(g, d1, c) == FatGet(g, d0, c))
    && (forall c, s: nat | c in u && s < g.spc :: Sec(g, d1, c, s) == Sec(g, d0, c, s))
    && (forall l | g.RootStart() <= l < g.DataStart() && l < |d0| :: d1[l] == d0[l])
  }

  lemma KeepsTrans(g: Geo, d0: Disk, d1: Disk, d2: Disk, u: set<nat>)
    requires Keeps(g, d0, d1, u) && Keeps(g, d1, d2, u)
    ensures Keeps(g, d0, d2, u)
  {
  }

  lemma BodyKept(g: Geo, d0: Disk, d1: Disk, chain: seq<nat>, u: set<nat>)
    requires Keeps(g, d0, d1, u) && forall i | 0 <= i < |chain| :: chain[i] in u
    ensures Body(g, d1, chain) == Body(g, d0, chain)
  {
    forall i: nat | i < Sectors(g, |chain|)
      ensures SecAt(g, d1, chain, i) == SecAt(g, d0, chain, i)
    {
      if g.spc > 0 && Quot(i, g.spc) < |chain| { DivMod(i, g.spc); }
    }
  }

  lemma FolderKept(g: Geo, d0: Disk, d1: Disk, chain: seq<nat>, f: nat, u: set<nat>)
    requires Keeps(g, d0, d1, u) && forall i | 0 <= i < |chain| :: chain[i] in u
    ensures FolderBody(g, d1, chain, f) == FolderBody(g, d0, chain, f)
  {
    BodyKept(g, d0, d1, chain, u);
    if FixedRoot(g, f) && g.DataStart() <= |d0| {
      assert d1[g.RootStart()..g.DataStart()] == d0[g.RootStart()..g.DataStart()];
    }
  }

  /** The clusters in use. */
  function Used(m: Model): set<nat> { m.owner.Keys }

  lemma ChainUsed(g: Geo, t: seq<nat>, m: Model, h: nat)
    requires ChainsOk(g, t, m) && h in m.ch
    ensures forall i | 0 <= i < |m.ch[h]| :: m.ch[h][i] in Used(m)
    ensures IsChain(t, g.Eoc(), m.ch[h]) && m.ch[h][0] == h
  {
    assert Owns(m, h);
  }

  lemma DirsKept(g: Geo, d0: Disk, d1: Disk, m: Model)
    requires ChainsOk(g, Table(g, d0), m) && Keeps(g, d0, d1, Used(m))
    ensures DirsOf(g, d1, m) == DirsOf(g, d0, m)
  {
    forall f | f in m.depth
      ensures FolderSlots(g, d1, m, f) == FolderSlots(g, d0, m, f)
    {
      if HeadOf(g, f) in m.ch { ChainUsed(g, Table(g, d0), m, HeadOf(g, f)); }
      FolderKept(g, d0, d1, ChainOf(g, m, f), f, Used(m));
    }
  }

  lemma ChainsKept(g: Geo, t0: seq<nat>, t1: seq<nat>, m: Model)
    requires ChainsOk(g, t0, m) && |t1| == |t0| && forall c | c in Used(m) && c < |t0| :: t1[c] == t0[c]
    ensures ChainsOk(g, t1, m)
  {
    forall h | h in m.ch
      ensures IsChain(t1, g.Eoc(), m.ch[h])
    {
      ChainUsed(g, t0, m, h);
      ChainKept(t0, t1, g.Eoc(), m.ch[h]);
    }
  }

  /** Whatever happens to clusters not in use, the volume stays well-formed. */
  lemma KeepsWF(g: Geo, d0: Disk, d1: Disk, m: Model)
    requires WF(g, d0, m) && Keeps(g, d0, d1, Used(m))
    ensures WF(g, d1, m) && DirsOf(g, d1, m) == DirsOf(g, d0, m)
  {
    hide HeadsOk;
    hide FolderOk;
    DirsKept(g, d0, d1, m);
    ChainsKept(g, Table(g, d0), Table(g, d1), m);
  }

  // ----- the disk's own view of a well-formed volume is the model's

  lemma DiskChainOf(g: Geo, d: Disk, m: Model, h: nat)
    requires WF(g, d, m) && h in m.ch
    ensures DiskChain(g, d, h) == m.ch[h] && Injective(m.ch[h])
  {
    hide HeadsOk;
    hide FolderOk;
    ChainUsed(g, Table(g, d), m, h);
    OrbitOfChain(Table(g, d), g.Eoc(), m.ch[h]);
    ChainInjective(Table(g, d), g.Eoc(), m.ch[h]);
  }

  lemma DiskSlotsOf(g: Geo, d: Disk, m: Model, f: nat)
    requires WF(g, d, m) && f in m.depth
    ensures f in DirsOf(g, d, m) && FolderSlots(g, d, m, f) == DirsOf(g, d, m)[f]
    ensures DiskSlots(g, d, f) == Seen(g, f, DirsOf(g, d, m)[f])
    ensures FolderOk(g, m, f, DirsOf(g, d, m)[f]) && (!FixedRoot(g, f) ==> HeadOf(g, f) in m.ch)
  {
    hide ChainsOk;
    hide FolderOk;
    hide LocOk;
    hide Sectors;
    hide Seen;
    var h := HeadOf(g, f);
    if !FixedRoot(g, f) {
      if f != 0 { LocFacts(m, DirsOf(g, d, m), f); }
      DiskChainOf(g, d, m, h);
    }
    assert f in DirsOf(g, d, m);
  }

  /** The slots a search goes through are in order. */
  lemma SeenFolder(g: Geo, d: Disk, m: Model, f: nat)
    requires WF(g, d, m) && f in m.depth
    ensures var s := DiskSlots(g, d, f);
            && NamesOk(s) && Ended(s) && UniqueNames(s) && (f != 0 ==> f in m.loc && DotDotOk(s, m.loc[f].0))
            && (forall k | 0 <= k < |s| && Child(s[k]) :: KidOk(g, m, f, k, s[k]))
    ensures f in DirsOf(g, d, m) && DiskSlots(g, d, f) <= DirsOf(g, d, m)[f]
  {
    hide *;
    DiskSlotsOf(g, d, m, f);
    SeenFacts(g, m, f, DirsOf(g, d, m)[f]);
  }

  lemma SeenFacts(g: Geo, m: Model, f: nat, s: seq<Ent>)
    requires FolderOk(g, m, f, s)
    ensures var r := Seen(g, f, s);
            && NamesOk(r) && Ended(r) && UniqueNames(r) && (f != 0 ==> f in m.loc && DotDotOk(r, m.loc[f].0))
            && (forall k | 0 <= k < |r| && Child(r[k]) :: KidOk(g, m, f, k, r[k]))
  {
    hide KidOk;
    hide Seen;
    hide UniqueNames;
    hide Ended;
    hide DotDotOk;
    hide Child;
  }

  /** The entry a search finds under a name a caller can spell. */
  lemma LookupEntry(g: Geo, d: Disk, m: Model, f: nat, n: Name)
    requires WF(g, d, m) && f in m.depth && !IsDot(n)
    ensures var s := DiskSlots(g, d, f); var k := Find(s, n);
            if k == |s| then Lookup(g, d, f, n) == Absent && forall j | 0 <= j < |s| :: !Matches(s[j], n, false)
            else
              && Matches(s[k], n, false) && Child(s[k]) && KidOk(g, m, f, k, s[k])
              && Lookup(g, d, f, n) == NodeOf(g, d, s[k])
  {
    hide WF;
    hide KidOk;
    hide Sectors;
    hide DirsOf;
    hide NamesOk;
    hide DotDotOk;
    SeenFolder(g, d, m, f);
    hide DiskSlots;
    FindFromSpec(DiskSlots(g, d, f), n, false, 0);
  }

  lemma NodeKept(g: Geo, d0: Disk, d1: Disk, m: Model, e: Ent)
    requires WF(g, d0, m) && WF(g, d1, m) && Keeps(g, d0, d1, Used(m))
    requires e.cluster >= 2 ==> e.cluster in m.ch
    ensures NodeOf(g, d1, e) == NodeOf(g, d0, e)
  {
    hide HeadsOk;
    hide FolderOk;
    if e.cluster >= 2 {
      DiskChainOf(g, d0, m, e.cluster);
      DiskChainOf(g, d1, m, e.cluster);
      ChainUsed(g, Table(g, d0), m, e.cluster);
      BodyKept(g, d0, d1, m.ch[e.cluster], Used(m));
    }
  }

  /** Every member of every folder reads the same on disks that agree. */
  lemma KeepsLookup(g: Geo, d0: Disk, d1: Disk, m: Model, f: nat, n: Name)
    requires WF(g, d0, m) && Keeps(g, d0, d1, Used(m)) && f in m.depth
    ensures Lookup(g, d1, f, n) == Lookup(g, d0, f, n)
  {
    hide *;
    KeepsWF(g, d0, d1, m);
    DiskSlotsOf(g, d0, m, f);
    DiskSlotsOf(g, d1, m, f);
    LookupIs(g, d0, f, n);
    LookupIs(g, d1, f, n);
    if !IsDot(n) {
      LookupEntry(g, d0, m, f, n);
      var s := DiskSlots(g, d0, f);
      if Find(s, n) < |s| {
        KidChain(g, m, f, Find(s, n), s[Find(s, n)]);
        NodeKept(g, d0, d1, m, s[Find(s, n)]);
      }
    }
  }

  lemma LookupIs(g: Geo, d: Disk, f: nat, n: Name)
    ensures var s := DiskSlots(g, d, f);
            Lookup(g, d, f, n) == if IsDot(n) || Find(s, n) == |s| then Absent else NodeOf(g, d, s[Find(s, n)])
  {
    hide DiskSlots;
    hide Find;
    hide NodeOf;
  }

  lemma KidChain(g: Geo, m: Model, f: nat, k: nat, e: Ent)
    requires KidOk(g, m, f, k, e)
    ensures e.cluster >= 2 ==> e.cluster in m.ch
  {
  }
}
