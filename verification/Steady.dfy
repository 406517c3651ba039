/** The tree of a disk, well-formed or not, depends only on the clusters a path
    leads to: disks that agree on those have the same tree. */
module Steady {
  import opened Bytes
  import opened Layout
  import opened FatTable
  import opened Chains
  import opened Folders
  import opened Tree
  import opened Volume
  import opened Paths
  import opened FatWrites
  import opened Reach
  import opened Recovery

  /** l holds every cluster a path leads to. */
  ghost predicate HoldsAll(g: Geo, d: Disk, l: set<nat>) {
    forall x: nat | Reachable(g, d, x) :: x in l
  }

  /** d1 agrees with d0 on a set that holds every cluster a path leads to. */
  ghost predicate Agrees(g: Geo, d0: Disk, d1: Disk, l: set<nat>) {
    Keeps(g, d0, d1, l) && HoldsAll(g, d0, l)
  }

  lemma {:induction false} OrbitAgrees(t0: seq<nat>, t1: seq<nat>, c: nat, seen: set<nat>)
    requires |t1| == |t0| && forall x | x in Elems(Orbit(t0, c, seen)) && x < |t0| :: t1[x] == t0[x]
    ensures Orbit(t1, c, seen) == Orbit(t0, c, seen)
    decreases Range(2, |t0|) - seen
  {
    if 2 <= c < |t0| && c !in seen {
      assert c in Range(2, |t0|);
      var o := Orbit(t0, t0[c], seen + {c});
      assert Orbit(t0, c, seen) == [c] + o && c in Elems([c] + o);
      forall x | x in Elems(o)
        ensures x in Elems([c] + o)
      {
        assert x in [c] + o;
      }
      OrbitAgrees(t0, t1, t0[c], seen + {c});
    }
  }

  /** A reached chain has the same clusters, in the same order. */
  lemma ChainAgrees(g: Geo, d0: Disk, d1: Disk, l: set<nat>, h: nat)
    requires Agrees(g, d0, d1, l) && (h < 2 || exists dir: bool, n: nat :: Reached(g, d0, h, dir, n))
    ensures DiskChain(g, d1, h) == DiskChain(g, d0, h) && forall x | x in DiskChain(g, d0, h) :: x in l
  {
    hide Reached;
    forall x | x in DiskChain(g, d0, h)
      ensures x in l
    {
      if h < 2 {
        OrbitEmpty(Table(g, d0), h);
      } else {
        var dir: bool, n: nat :| Reached(g, d0, h, dir, n);
        assert x in Elems(DiskChain(g, d0, h));
        assert Reachable(g, d0, x);
      }
    }
    forall x | x in Elems(DiskChain(g, d0, h)) && x < g.Limit()
      ensures Table(g, d1)[x] == Table(g, d0)[x]
    {
      assert x in DiskChain(g, d0, h) && x in l;
    }
    OrbitAgrees(Table(g, d0), Table(g, d1), h, {});
  }

  lemma ListingAgrees(g: Geo, d0: Disk, d1: Disk, l: set<nat>, h: nat)
    requires Agrees(g, d0, d1, l) && (h < 2 || exists dir: bool, n: nat :: Reached(g, d0, h, dir, n))
    ensures Listing(g, d1, h) == Listing(g, d0, h)
  {
    ChainAgrees(g, d0, d1, l, h);
    AgreesParts(g, d0, d1, l);
    hide *;
    FolderKept(g, d0, d1, DiskChain(g, d0, h), h, l);
    ListingIs(g, d0, h);
    ListingIs(g, d1, h);
  }

  lemma ListingIs(g: Geo, d: Disk, h: nat)
    ensures Listing(g, d, h) == Slots(g.fat32, FolderBody(g, d, DiskChain(g, d, h), h))
  {
  }

  lemma AgreesParts(g: Geo, d0: Disk, d1: Disk, l: set<nat>)
    requires Agrees(g, d0, d1, l)
    ensures Keeps(g, d0, d1, l) && HoldsAll(g, d0, l)
  {
  }

  /** The same paths lead to the same chains. */
  lemma {:induction false} ReachedAgrees(g: Geo, d0: Disk, d1: Disk, l: set<nat>, h: nat, dir: bool, n: nat)
    requires Agrees(g, d0, d1, l)
    ensures Reached(g, d1, h, dir, n) <==> Reached(g, d0, h, dir, n)
    decreases n
  {
    hide *;
    if n == 0 {
      ReachedZero(g, d0, h, dir);
      ReachedZero(g, d1, h, dir);
    } else {
      if Reached(g, d0, h, dir, n) {
        var p: nat, k: nat := ReachedParent(g, d0, h, dir, n);
        ReachedAgrees(g, d0, d1, l, p, true, n - 1);
        ListingAgrees(g, d0, d1, l, p);
        NamedAgrees(g, d0, d1, p, k, h, dir);
        ReachedChild(g, d1, p, k, h, dir, n - 1);
      }
      if Reached(g, d1, h, dir, n) {
        var p: nat, k: nat := ReachedParent(g, d1, h, dir, n);
        ReachedAgrees(g, d0, d1, l, p, true, n - 1);
        ListingAgrees(g, d0, d1, l, p);
        NamedAgrees(g, d0, d1, p, k, h, dir);
        ReachedChild(g, d0, p, k, h, dir, n - 1);
      }
    }
  }

  lemma ReachedZero(g: Geo, d: Disk, h: nat, dir: bool)
    ensures Reached(g, d, h, dir, 0) <==> dir && h == HeadOf(g, 0)
  {
  }

  lemma NamedAgrees(g: Geo, d0: Disk, d1: Disk, p: nat, k: nat, h: nat, dir: bool)
    requires Listing(g, d1, p) == Listing(g, d0, p)
    ensures NamedAt(g, d1, p, k, h, dir) <==> NamedAt(g, d0, p, k, h, dir)
  {
    hide Listing;
    hide Before;
    hide Child;
    hide IsDir;
  }

  /** And so the same clusters are reachable. */
  lemma ReachableAgrees(g: Geo, d0: Disk, d1: Disk, l: set<nat>, x: nat)
    requires Agrees(g, d0, d1, l)
    ensures Reachable(g, d1, x) <==> Reachable(g, d0, x)
  {
    hide Agrees;
    hide Reached;
    hide DiskChain;
    forall h: nat, dir: bool, n: nat
      ensures Reached(g, d1, h, dir, n) <==> Reached(g, d0, h, dir, n)
      ensures Reached(g, d0, h, dir, n) ==> DiskChain(g, d1, h) == DiskChain(g, d0, h)
    {
      ReachedAgrees(g, d0, d1, l, h, dir, n);
      if Reached(g, d0, h, dir, n) { ChainAgrees(g, d0, d1, l, h); }
    }
  }

  lemma ApartAgrees(g: Geo, d0: Disk, d1: Disk, l: set<nat>)
    requires Agrees(g, d0, d1, l) && FoldersApart(g, d0)
    ensures FoldersApart(g, d1)
  {
    hide Agrees;
    hide Reached;
    hide DiskChain;
    forall h: nat, dir: bool, n: nat
      ensures Reached(g, d1, h, dir, n) <==> Reached(g, d0, h, dir, n)
      ensures Reached(g, d0, h, dir, n) ==> DiskChain(g, d1, h) == DiskChain(g, d0, h)
    {
      ReachedAgrees(g, d0, d1, l, h, dir, n);
      if Reached(g, d0, h, dir, n) { ChainAgrees(g, d0, d1, l, h); }
    }
  }

  // ----- names

  /** A folder a path of names may come to: the root, one whose entry leads to no
      cluster, or a reached one. */
  ghost predicate Visitable(g: Geo, d: Disk, f: nat) {
    f < 2 || exists n: nat :: Reached(g, d, f, true, n)
  }

  lemma HeadVisited(g: Geo, d: Disk, f: nat) returns (n: nat)
    requires Visitable(g, d, f)
    ensures if HeadOf(g, f) >= 2 then Reached(g, d, HeadOf(g, f), true, n) else n == 0
  {
    n := 0;
    ReachedZero(g, d, HeadOf(g, 0), true);
    hide Reached;
    if f >= 2 { n :| Reached(g, d, f, true, n); }
  }

  lemma SlotsAre(g: Geo, d: Disk, f: nat)
    ensures DiskSlots(g, d, f) == Seen(g, f, Listing(g, d, HeadOf(g, f)))
            && DiskSlots(g, d, f) <= Listing(g, d, HeadOf(g, f))
  {
    hide Slots;
    hide DiskChain;
    hide Body;
    hide Seen;
  }

  lemma {:induction false} FindStops(s: seq<Ent>, n: Name, i: nat)
    requires i <= |s| && FindFrom(s, n, false, i) < |s|
    ensures var k := FindFrom(s, n, false, i);
            i <= k && Matches(s[k], n, false) && forall j | i <= j < k :: s[j].name[0] != END
    decreases |s| - i
  {
    if !Matches(s[i], n, false) { FindStops(s, n, i + 1); }
  }

  /** What a search finds there is named, before the end marker, as the scan
      names it. */
  lemma FoundNamed(g: Geo, d: Disk, f: nat, n: Name)
    requires !IsDot(n) && Find(DiskSlots(g, d, f), n) < |DiskSlots(g, d, f)|
    requires DiskSlots(g, d, f)[Find(DiskSlots(g, d, f), n)].cluster >= 2
    ensures var k := Find(DiskSlots(g, d, f), n); var e := DiskSlots(g, d, f)[k];
            NamedAt(g, d, HeadOf(g, f), k, e.cluster, IsDir(e))
  {
    SlotsAre(g, d, f);
    var s, r := DiskSlots(g, d, f), Listing(g, d, HeadOf(g, f));
    hide DiskSlots;
    hide Listing;
    FindStops(s, n, 0);
    var k := Find(s, n);
    assert r[k] == s[k] && forall j | 0 <= j < k :: r[j] == s[j];
  }

  lemma LookupAgrees(g: Geo, d0: Disk, d1: Disk, l: set<nat>, f: nat, n: Name)
    requires Agrees(g, d0, d1, l) && Visitable(g, d0, f)
    ensures Lookup(g, d1, f, n) == Lookup(g, d0, f, n)
    ensures Lookup(g, d0, f, n).FolderNode? ==> Visitable(g, d0, Lookup(g, d0, f, n).cluster)
  {
    hide *;
    var v := HeadVisited(g, d0, f);
    ListingAgrees(g, d0, d1, l, HeadOf(g, f));
    SlotsAre(g, d0, f);
    SlotsAre(g, d1, f);
    var s := DiskSlots(g, d0, f);
    var k := Find(s, n);
    LookupIs(g, d0, f, n);
    LookupIs(g, d1, f, n);
    if !IsDot(n) && k < |s| {
      var e := s[k];
      if e.cluster >= 2 {
        FoundNamed(g, d0, f, n);
        RootVisits(g, d0, f, k, e.cluster, IsDir(e));
        ReachedChild(g, d0, HeadOf(g, f), k, e.cluster, IsDir(e), v);
      }
      NodeAgrees(g, d0, d1, l, e);
      NodeVisited(g, d0, e, v + 1);
    }
  }

  /** Only a folder with sectors names anything, a fixed root for one. */
  lemma RootVisits(g: Geo, d: Disk, f: nat, k: nat, c: nat, dir: bool)
    requires NamedAt(g, d, HeadOf(g, f), k, c, dir)
    ensures HeadOf(g, f) < 2 ==> HeadOf(g, f) == HeadOf(g, 0) && forall n: nat :: n == 0 ==>
            Reached(g, d, HeadOf(g, f), true, n)
  {
    ParentSeen(g, d, HeadOf(g, f), k, c, dir, 0);
    hide NamedAt;
  }

  lemma NodeAgrees(g: Geo, d0: Disk, d1: Disk, l: set<nat>, e: Ent)
    requires Agrees(g, d0, d1, l) && (e.cluster < 2 || exists dir: bool, n: nat :: Reached(g, d0, e.cluster, dir, n))
    ensures NodeOf(g, d1, e) == NodeOf(g, d0, e)
  {
    ChainAgrees(g, d0, d1, l, e.cluster);
    AgreesParts(g, d0, d1, l);
    hide DiskChain;
    hide Agrees;
    hide Reached;
    hide Keeps;
    hide Body;
    BodyKept(g, d0, d1, DiskChain(g, d0, e.cluster), l);
  }

  lemma NodeVisited(g: Geo, d: Disk, e: Ent, n: nat)
    requires e.cluster < 2 || Reached(g, d, e.cluster, IsDir(e), n)
    ensures NodeOf(g, d, e).FolderNode? ==> Visitable(g, d, NodeOf(g, d, e).cluster)
  {
    hide Reached;
    hide DiskChain;
    hide Body;
  }

  lemma {:induction false} ResolveAgrees(g: Geo, d0: Disk, d1: Disk, l: set<nat>, f: nat, path: seq<Name>)
    requires Agrees(g, d0, d1, l) && Visitable(g, d0, f)
    ensures Resolve(g, d1, f, path) == Resolve(g, d0, f, path)
    decreases |path|
  {
    hide Agrees;
    hide Visitable;
    hide Lookup;
    if |path| > 0 {
      LookupAgrees(g, d0, d1, l, f, path[0]);
      if Lookup(g, d0, f, path[0]).FolderNode? { ResolveAgrees(g, d0, d1, l, Lookup(g, d0, f, path[0]).cluster,
        path[1..]); }
    }
  }

  /** Disks that agree on the reachable clusters have the same tree. */
  lemma TreeAgrees(g: Geo, d0: Disk, d1: Disk, l: set<nat>)
    requires Agrees(g, d0, d1, l)
    ensures SameTree(g, d0, d1)
  {
    hide Agrees;
    hide Resolve;
    assert Visitable(g, d0, 0);
    forall path: seq<Name>
      ensures Resolve(g, d1, 0, path) == Resolve(g, d0, 0, path)
    {
      ResolveAgrees(g, d0, d1, l, 0, path);
    }
  }

  // ----- the recovery

  /** Every state from n0 on has the tree of d0. */
  ghost predicate SameTreeFrom(g: Geo, d0: Disk, past: seq<Disk>, n0: nat) {
    forall i | n0 <= i < |past| :: SameTree(g, d0, past[i])
  }

  /** l is the set of all clusters a path leads to. */
  ghost predicate Exactly(g: Geo, d: Disk, l: set<nat>) {
    forall x: nat :: x in l <==> Reachable(g, d, x)
  }

  lemma ExactlyMake(g: Geo, d: Disk, l: set<nat>)
    requires forall x: nat :: x in l <==> Reachable(g, d, x)
    ensures Exactly(g, d, l)
  {
    hide Reachable;
  }

  lemma ExactlyParts(g: Geo, d: Disk, l: set<nat>)
    requires Exactly(g, d, l)
    ensures forall x: nat :: x in l <==> Reachable(g, d, x)
  {
    hide Reachable;
  }

  /** Nothing is left to recover: of the clusters no path leads to, only bad ones
      are not free; the copies are equal, the count exact. */
  ghost predicate Recovered(g: Geo, d: Disk) {
    exists marks: set<nat> :: Settled(g, d, marks) && Exactly(g, d, marks)
  }

  lemma SteadySelf(g: Geo, d: Disk, past: seq<Disk>)
    ensures SameTree(g, d, d) && SameTreeFrom(g, d, past, |past|)
  {
    hide Resolve;
  }

  /** What a recovery that kept the reachable clusters leaves. */
  lemma RecoverySteady(g: Geo, d0: Disk, past: seq<Disk>, n0: nat, d: Disk, marks: set<nat>)
    requires FoldersApart(g, d0) && KeptFrom(g, d0, n0, past, d, marks) && Exactly(g, d0, marks)
    ensures SameTreeFrom(g, d0, past, n0) && SameTree(g, d0, d) && FoldersApart(g, d)
    ensures Settled(g, d, marks) ==> Recovered(g, d)
  {
    hide *;
    ExactlyParts(g, d0, marks);
    HoldsAllMake(g, d0, marks);
    KeptKeeps(g, d0, n0, past, d, marks);
    AgreesMake(g, d0, d, marks);
    TreeAgrees(g, d0, d, marks);
    ApartAgrees(g, d0, d, marks);
    StatesSteady(g, d0, past, n0, d, marks);
    forall x: nat
      ensures x in marks <==> Reachable(g, d, x)
    {
      ReachableAgrees(g, d0, d, marks, x);
    }
    ExactlyMake(g, d, marks);
    if Settled(g, d, marks) { RecoveredMake(g, d, marks); }
  }

  lemma StatesSteady(g: Geo, d0: Disk, past: seq<Disk>, n0: nat, d: Disk, marks: set<nat>)
    requires HoldsAll(g, d0, marks) && KeptFrom(g, d0, n0, past, d, marks)
    ensures SameTreeFrom(g, d0, past, n0)
  {
    hide HoldsAll;
    hide Keeps;
    hide SameTree;
    forall i | n0 <= i < |past|
      ensures SameTree(g, d0, past[i])
    {
      AgreesMake(g, d0, past[i], marks);
      TreeAgrees(g, d0, past[i], marks);
    }
  }

  lemma HoldsAllMake(g: Geo, d: Disk, l: set<nat>)
    requires forall x: nat | Reachable(g, d, x) :: x in l
    ensures HoldsAll(g, d, l)
  {
  }

  lemma AgreesMake(g: Geo, d0: Disk, d1: Disk, l: set<nat>)
    requires Keeps(g, d0, d1, l) && HoldsAll(g, d0, l)
    ensures Agrees(g, d0, d1, l)
  {
    hide Keeps;
    hide HoldsAll;
  }

  lemma RecoveredMake(g: Geo, d: Disk, marks: set<nat>)
    requires Settled(g, d, marks) && Exactly(g, d, marks)
    ensures Recovered(g, d)
  {
    hide Settled;
    hide Exactly;
  }

  lemma RecoveredMarks(g: Geo, d: Disk, marks: set<nat>)
    requires Recovered(g, d) && Exactly(g, d, marks)
    ensures Settled(g, d, marks)
  {
    hide Settled;
    hide Reachable;
    var l: set<nat> :| Settled(g, d, l) && Exactly(g, d, l);
    assert l == marks;
  }

  /** A recovery by the exact marks keeps the tree, and recovers the disk if the
      device took its writes; of a recovered disk it makes nothing new. */
  lemma RecoveryLeaves(g: Geo, d0: Disk, past: seq<Disk>, n0: nat, d: Disk, marks: set<nat>, took: bool)
    requires KeptFrom(g, d0, n0, past, d, marks) && (FoldersApart(g, d0) ==> Exactly(g, d0, marks))
    requires took ==> Table(g, d) == Swept(g, Table(g, d0), marks) && Mirrored(g, d) && FsExact(g, d)
    ensures FoldersApart(g, d0) ==> SameTreeFrom(g, d0, past, n0) && SameTree(g, d0, d) && FoldersApart(g, d)
    ensures FoldersApart(g, d0) && took ==> Recovered(g, d)
    ensures FoldersApart(g, d0) && Recovered(g, d0) ==> Settled(g, d0, marks)
  {
    hide *;
    if FoldersApart(g, d0) {
      RecoverySteady(g, d0, past, n0, d, marks);
      if Recovered(g, d0) { RecoveredMarks(g, d0, marks); }
      if took {
        SweptTwice(g, Table(g, d0), marks);
        SettledMake(g, d, marks);
      }
    }
  }

  /** No cluster is lost then: each is free, marked bad, or part of the tree. */
  lemma NothingLost(g: Geo, d: Disk, c: nat)
    requires Recovered(g, d) && InTable(g, c)
    ensures FatGet(g, d, c) == 0 || FatGet(g, d, c) == g.BadMark() || Reachable(g, d, c)
  {
    hide Reachable;
    hide FatGet;
    hide Mirrored;
    hide FsExact;
    var l: set<nat> :| Settled(g, d, l) && Exactly(g, d, l);
    assert Swept(g, Table(g, d), l)[c] == Table(g, d)[c] == FatGet(g, d, c);
  }
}
