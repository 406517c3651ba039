/** Crash atomicity: what every disk state an operation passes through shows. */
module Atomicity {
  import opened Bytes
  import opened Layout
  import opened FatTable
  import opened Chains
  import opened Folders
  import opened Tree
  import opened Volume
  import opened Paths
  import opened SectorWrites
  import opened FatWrites
  import opened Commits

  /** The disk still shows the tree of d0, on a well-formed volume. */
  ghost predicate ShowsBefore(g: Geo, d0: Disk, m0: Model, d: Disk) {
    WF(g, d, m0) && SameTree(g, d0, d)
  }

  /** The disk shows the tree of d0 with one name changed. */
  ghost predicate ShowsAfter(g: Geo, d0: Disk, m1: Model, d: Disk, f: nat, name: Name, node: Node) {
    WF(g, d, m1) && EditedTree(g, d0, d, f, name, node)
  }

  /** Every disk state from n0 on shows the tree before or the tree after. */
  ghost predicate Atomic(g: Geo, d0: Disk, m0: Model, m1: Model, past: seq<Disk>, n0: nat, f: nat, name: Name,
                         node: Node) {
    forall i | n0 <= i < |past| :: ShowsBefore(g, d0, m0, past[i]) || ShowsAfter(g, d0, m1, past[i], f, name, node)
  }

  /** Every disk state from n0 on shows the tree before. */
  ghost predicate Unchanged(g: Geo, d0: Disk, m0: Model, past: seq<Disk>, n0: nat) {
    forall i | n0 <= i < |past| :: ShowsBefore(g, d0, m0, past[i])
  }

  lemma BeforeKept(g: Geo, d0: Disk, m0: Model, d: Disk)
    requires WF(g, d0, m0) && Keeps(g, d0, d, Used(m0))
    ensures ShowsBefore(g, d0, m0, d)
  {
    hide *;
    KeepsWF(g, d0, d, m0);
    TreeKept(g, d0, d, m0);
    BeforeMake(g, d0, m0, d);
  }

  lemma BeforeMake(g: Geo, d0: Disk, m0: Model, d: Disk)
    requires WF(g, d, m0) && SameTree(g, d0, d)
    ensures ShowsBefore(g, d0, m0, d)
  {
  }

  lemma EditedThenSame(g: Geo, d0: Disk, d1: Disk, d: Disk, f: nat, name: Name, node: Node)
    requires EditedTree(g, d0, d1, f, name, node) && SameTree(g, d1, d)
    ensures EditedTree(g, d0, d, f, name, node)
  {
    hide Resolve;
    hide ResolveEdited;
  }

  lemma AfterKept(g: Geo, d0: Disk, d1: Disk, m1: Model, d: Disk, f: nat, name: Name, node: Node)
    requires WF(g, d1, m1) && EditedTree(g, d0, d1, f, name, node) && Keeps(g, d1, d, Used(m1))
    ensures ShowsAfter(g, d0, m1, d, f, name, node)
  {
    hide *;
    KeepsWF(g, d1, d, m1);
    TreeKept(g, d1, d, m1);
    EditedThenSame(g, d0, d1, d, f, name, node);
    AfterMake(g, d0, m1, d, f, name, node);
  }

  lemma AfterMake(g: Geo, d0: Disk, m1: Model, d: Disk, f: nat, name: Name, node: Node)
    requires WF(g, d, m1) && EditedTree(g, d0, d, f, name, node)
    ensures ShowsAfter(g, d0, m1, d, f, name, node)
  {
  }

  lemma AllBefore(g: Geo, d0: Disk, m0: Model, past: seq<Disk>, n0: nat, d: Disk)
    requires WF(g, d0, m0) && KeptFrom(g, d0, n0, past, d, Used(m0))
    ensures Unchanged(g, d0, m0, past, n0) && ShowsBefore(g, d0, m0, d)
  {
    hide WF;
    hide Keeps;
    hide ShowsBefore;
    hide Used;
    forall i | n0 <= i < |past|
      ensures ShowsBefore(g, d0, m0, past[i])
    {
      BeforeKept(g, d0, m0, past[i]);
    }
    BeforeKept(g, d0, m0, d);
  }

  /** States up to n1 keep the old volume, state n1 is the commit, and later
      ones keep the new volume. */
  lemma AllAtomic(g: Geo, d0: Disk, m0: Model, n0: nat, p1: seq<Disk>, d1: Disk, m1: Model, past: seq<Disk>, d: Disk,
                  f: nat, name: Name, node: Node)
    requires n0 <= |p1| && Unchanged(g, d0, m0, p1, n0) && p1 + [d1] <= past
    requires WF(g, d1, m1) && EditedTree(g, d0, d1, f, name, node)
    requires KeptFrom(g, d1, |p1| + 1, past, d, Used(m1))
    ensures Atomic(g, d0, m0, m1, past, n0, f, name, node) && ShowsAfter(g, d0, m1, d, f, name, node)
  {
    hide WF;
    hide Keeps;
    hide ShowsBefore;
    hide ShowsAfter;
    hide Used;
    hide EditedTree;
    KeepsSelf(g, d1, Used(m1));
    forall i | n0 <= i < |past|
      ensures ShowsBefore(g, d0, m0, past[i]) || ShowsAfter(g, d0, m1, past[i], f, name, node)
    {
      if i < |p1| {
        assert past[i] == p1[i];
      } else {
        if i == |p1| { assert past[i] == d1; }
        AfterKept(g, d0, d1, m1, past[i], f, name, node);
      }
    }
    AfterKept(g, d0, d1, m1, d, f, name, node);
  }

  lemma UnchangedNone(g: Geo, d0: Disk, m0: Model, past: seq<Disk>)
    ensures Unchanged(g, d0, m0, past, |past|)
  {
  }

  // ----- the chain an operation lets go of

  lemma UsedInTables(g: Geo, d: Disk, m: Model)
    requires WF(g, d, m)
    ensures InTables(g, Used(m))
  {
    hide HeadsOk;
    hide FolderOk;
    forall c | c in Used(m)
      ensures InTable(g, c)
    {
      var h := m.owner[c];
      ModelChain(g, d, m, h);
      ChainInParts(g, d, m, h);
    }
  }

  /** Once its entry is gone a chain is nobody's, and its orbit is itself. */
  lemma LetGo(g: Geo, d: Disk, m: Model, d1: Disk, o: nat)
    requires WF(g, d, m) && Table(g, d1) == Table(g, d) && (if o >= 2 then o in m.loc && o in m.ch else o !in m.loc)
    ensures Elems(Orbit(Table(g, d1), o, {})) !! Used(Without(m, o))
    ensures o >= 2 ==> Orbit(Table(g, d1), o, {}) == m.ch[o] && InTable(g, o)
    ensures o < 2 ==> Orbit(Table(g, d1), o, {}) == [] && !InTable(g, o) && Without(m, o) == m
  {
    hide HeadsOk;
    hide FolderOk;
    hide WellFormed;
    if o >= 2 {
      DiskChainOf(g, d, m, o);
      ModelChain(g, d, m, o);
      ChainInParts(g, d, m, o);
      assert Up(m, o, 0) == o;
      assert o in Gone(m, o);
      hide Gone;
    } else {
      OrbitEmpty(Table(g, d1), o);
    }
  }

  // ----- free clusters

  /** The first cluster of the named member of a folder; 0 when there is none. */
  function HeadNamed(g: Geo, d: Disk, f: nat, n: Name): nat {
    HeadIn(DiskSlots(g, d, f), n)
  }

  function HeadIn(s: seq<Ent>, n: Name): nat {
    if Find(s, n) < |s| then s[Find(s, n)].cluster else 0
  }

  /** The table gained exactly these clusters as free ones. */
  ghost predicate FreeGrew(t0: seq<nat>, t1: seq<nat>, chain: seq<nat>) {
    && Free(t1) == Free(t0) + Elems(chain) && Free(t0) !! Elems(chain)
    && |Free(t1)| == |Free(t0)| + |chain|
  }

  lemma {:induction false} ChainNonZero(t: seq<nat>, eoc: nat, s: seq<nat>, i: nat)
    requires IsChain(t, eoc, s) && i < |s| && eoc > 0
    ensures t[s[i]] != 0
  {
    if i + 1 < |s| { assert t[s[i]] == s[i + 1]; }
  }

  lemma ClearedGrows(g: Geo, d: Disk, m: Model, o: nat)
    requires WF(g, d, m) && (o >= 2 ==> o in m.ch) && GeoOk(g)
    ensures FreeGrew(Table(g, d), Cleared(Table(g, d), Elems(DiskChain(g, d, o))), DiskChain(g, d, o))
    ensures DiskChain(g, d, o) == Orbit(Table(g, d), o, {})
  {
    hide WF;
    assert DiskChain(g, d, o) == Orbit(Table(g, d), o, {});
    hide DiskChain;
    var t := Table(g, d);
    if o >= 2 {
      DiskChainOf(g, d, m, o);
      ModelChain(g, d, m, o);
      ChainInParts(g, d, m, o);
      var c := m.ch[o];
      forall x | x in Elems(c)
        ensures 2 <= x < |t| && t[x] != 0
      {
        var i :| 0 <= i < |c| && c[i] == x;
        EocPositive(g);
        ChainNonZero(t, g.Eoc(), c, i);
      }
      hide Table;
      ClearedGrowsBy(t, c);
    } else {
      NoDiskChain(g, d, o);
      hide Table;
      ClearedGrowsBy(t, []);
    }
  }

  lemma EocPositive(g: Geo)
    ensures g.Eoc() > 0
  {
  }

  lemma NoDiskChain(g: Geo, d: Disk, o: nat)
    requires o < 2
    ensures DiskChain(g, d, o) == []
  {
    OrbitEmpty(Table(g, d), o);
  }

  lemma ClearedGrowsBy(t: seq<nat>, c: seq<nat>)
    requires Injective(c) && forall x | x in Elems(c) :: 2 <= x < |t| && t[x] != 0
    ensures FreeGrew(t, Cleared(t, Elems(c)), c)
  {
    ClearedFree(t, Elems(c));
    InjectiveSize(c);
    assert Free(t) !! Elems(c);
  }

  lemma AfterParts(g: Geo, d0: Disk, m1: Model, d: Disk, f: nat, name: Name, node: Node)
    requires ShowsAfter(g, d0, m1, d, f, name, node)
    ensures WF(g, d, m1) && EditedTree(g, d0, d, f, name, node)
  {
  }

  /** The head a removable slot names is in the model. */
  lemma HeadToo(g: Geo, d: Disk, m: Model, f: nat, k: nat)
    requires WF(g, d, m) && f in DirsOf(g, d, m) && k < |DirsOf(g, d, m)[f]|
    requires Removable(g, m, DirsOf(g, d, m), f, k, SlotOf(g, d, m, f, k).cluster)
    ensures var o := SlotOf(g, d, m, f, k).cluster;
            if o >= 2 then f != o && o in m.loc && o in m.ch else o !in m.loc
    ensures f in m.depth && f in Without(m, SlotOf(g, d, m, f, k).cluster).depth
  {
    hide *;
    WFParts(g, d, m);
    RootStays(g, m, DirsOf(g, d, m));
    FolderIn(g, Table(g, d), m, DirsOf(g, d, m), f);
    SlotIs(g, d, m, f, k);
    RemovedHead(g, m, DirsOf(g, d, m), f, k, SlotOf(g, d, m, f, k).cluster);
    FolderStays(m, SlotOf(g, d, m, f, k).cluster, f, k);
  }

  lemma FolderStays(m0: Model, o: nat, f: nat, k: nat)
    requires f in m0.depth && Branch(m0, Gone(m0, o), f, k, o)
    ensures f in Without(m0, o).depth
  {
    WithoutIs(m0, o);
    hide Gone;
  }

  lemma NamedHere(g: Geo, d: Disk, f: nat, n: Name, k: nat)
    requires k < |DiskSlots(g, d, f)| && Find(DiskSlots(g, d, f), n) == k
    ensures HeadNamed(g, d, f, n) == DiskSlots(g, d, f)[k].cluster
  {
    hide DiskSlots;
    hide Find;
  }

  lemma MatchName(e: Ent, n: Name, filesOnly: bool)
    requires Matches(e, n, filesOnly)
    ensures e.name == n && Live(e)
  {
  }

  lemma BeforeParts(g: Geo, d0: Disk, m0: Model, d: Disk)
    requires ShowsBefore(g, d0, m0, d)
    ensures WF(g, d, m0) && SameTree(g, d0, d)
  {
  }

  /** The whole of an operation: states that keep the old volume, the commit,
      and states that keep the new one. */
  lemma AtomicCommit(g: Geo, d0: Disk, m0: Model, n0: nat, p1: seq<Disk>, dpre: Disk, d1: Disk, m1: Model,
                     past: seq<Disk>, d: Disk,
                     f: nat, name: Name, node: Node)
    requires WF(g, d0, m0) && KeptFrom(g, d0, n0, p1, dpre, Used(m0)) && n0 <= |p1| && p1 + [d1] <= past
    requires WF(g, d1, m1) && EditedLookups(g, d0, m0, d1, m1, f, name, node)
    requires KeptFrom(g, d1, |p1| + 1, past, d, Used(m1))
    ensures Atomic(g, d0, m0, m1, past, n0, f, name, node) && ShowsAfter(g, d0, m1, d, f, name, node)
    ensures WF(g, d, m1) && EditedTree(g, d0, d, f, name, node)
  {
    hide *;
    AllBefore(g, d0, m0, p1, n0, dpre);
    TreeChanged(g, d0, m0, d1, m1, f, name, node);
    AllAtomic(g, d0, m0, n0, p1, d1, m1, past, d, f, name, node);
    AfterParts(g, d0, m1, d, f, name, node);
  }

  lemma EditedHere(g: Geo, d0: Disk, m0: Model, d1: Disk, m1: Model, f: nat, name: Name, node: Node)
    requires EditedLookups(g, d0, m0, d1, m1, f, name, node) && f in m0.depth && f in m1.depth
    ensures Lookup(g, d1, f, name) == node
  {
    hide Lookup;
  }

  /** The same, with the new member read back at the end. */
  lemma Committed(g: Geo, d0: Disk, m0: Model, n0: nat, p1: seq<Disk>, dpre: Disk, d1: Disk, m1: Model,
                  past: seq<Disk>, d: Disk,
                  f: nat, name: Name, node: Node)
    requires WF(g, d0, m0) && KeptFrom(g, d0, n0, p1, dpre, Used(m0)) && n0 <= |p1| && p1 + [d1] <= past
    requires WF(g, d1, m1) && EditedLookups(g, d0, m0, d1, m1, f, name, node) && f in m0.depth && f in m1.depth
    requires KeptFrom(g, d1, |p1| + 1, past, d, Used(m1))
    ensures Atomic(g, d0, m0, m1, past, n0, f, name, node) && ShowsAfter(g, d0, m1, d, f, name, node)
    ensures WF(g, d, m1) && Lookup(g, d, f, name) == node
  {
    hide *;
    AtomicCommit(g, d0, m0, n0, p1, dpre, d1, m1, past, d, f, name, node);
    EditedHere(g, d0, m0, d1, m1, f, name, node);
    KeptKeeps(g, d1, |p1| + 1, past, d, Used(m1));
    KeepsLookup(g, d1, d, m1, f, name);
  }
}
