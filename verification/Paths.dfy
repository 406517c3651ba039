/** The tree of names under the root, as the function from paths to what is
    there; two disks have the same tree when every path resolves alike. */
module Paths {
  import opened Bytes
  import opened Layout
  import opened Folders
  import opened Tree
  import opened Volume
  import opened SectorWrites

  /** What a path of names leads to from folder f. */
  function Resolve(g: Geo, d: Disk, f: nat, path: seq<Name>): Node
    decreases |path|, 0
  {
    if |path| == 0 then FolderNode(f) else Descend(g, d, Lookup(g, d, f, path[0]), path[1..])
  }

  /** What the rest of a path leads to from a node. */
  function Descend(g: Geo, d: Disk, n: Node, rest: seq<Name>): Node
    decreases |rest|, 1
  {
    match n
    case FolderNode(c) => Resolve(g, d, c, rest)
    case _ => if |rest| == 0 then n else Absent
  }

  /** Resolve on the same disk, but with name of folder f replaced by node,
      which nothing is under. */
  function ResolveEdited(g: Geo, d: Disk, x: nat, path: seq<Name>, f: nat, name: Name, node: Node): Node
    decreases |path|
  {
    if |path| == 0 then FolderNode(x)
    else if x == f && path[0] == name then (if |path| == 1 then node else Absent)
    else match Lookup(g, d, x, path[0])
      case FolderNode(c) => ResolveEdited(g, d, c, path[1..], f, name, node)
      case other => if |path| == 1 then other else Absent
  }

  ghost predicate SameTree(g: Geo, d0: Disk, d1: Disk) {
    forall path: seq<Name> :: Resolve(g, d1, 0, path) == Resolve(g, d0, 0, path)
  }

  /** The tree of d1 is the tree of d0 with one name of folder f changed. */
  ghost predicate EditedTree(g: Geo, d0: Disk, d1: Disk, f: nat, name: Name, node: Node) {
    forall path: seq<Name> :: Resolve(g, d1, 0, path) == ResolveEdited(g, d0, 0, path, f, name, node)
  }

  /** A folder found in a folder is a folder of the model. */
  lemma LookupFolder(g: Geo, d: Disk, m: Model, f: nat, n: Name)
    requires WF(g, d, m) && f in m.depth && Lookup(g, d, f, n).FolderNode?
    ensures Lookup(g, d, f, n).cluster in m.depth
  {
    hide *;
    LookupIs(g, d, f, n);
    LookupEntry(g, d, m, f, n);
    SeenFolder(g, d, m, f);
    var s := DiskSlots(g, d, f);
    var k := Find(s, n);
    NodeFolder(g, d, s[k]);
    WFParts(g, d, m);
    KidInside(g, m, DirsOf(g, d, m), f, k, s[k]);
  }

  lemma NodeFolder(g: Geo, d: Disk, e: Ent)
    ensures NodeOf(g, d, e).FolderNode? ==> IsDir(e) && NodeOf(g, d, e).cluster == e.cluster
  {
    hide FileBytes;
    hide Body;
    hide DiskChain;
  }

  /** A folder's entry leads to a folder of the model. */
  lemma KidInside(g: Geo, m: Model, s: Dirs, f: nat, k: nat, e: Ent)
    requires HeadsOk(g, m, s) && KidOk(g, m, f, k, e) && IsDir(e)
    requires f in s && k < |s[f]| && s[f][k] == e
    ensures e.cluster in m.depth
  {
    hide LocOk;
    LocFacts(m, s, e.cluster);
  }

  lemma {:induction false} ResolveKept(g: Geo, d0: Disk, d1: Disk, m: Model, f: nat, path: seq<Name>)
    requires WF(g, d0, m) && f in m.depth && Keeps(g, d0, d1, Used(m))
    ensures Resolve(g, d1, f, path) == Resolve(g, d0, f, path)
    decreases |path|
  {
    hide WF;
    hide Keeps;
    hide Lookup;
    if |path| > 0 {
      KeepsLookup(g, d0, d1, m, f, path[0]);
      if Lookup(g, d0, f, path[0]).FolderNode? {
        LookupFolder(g, d0, m, f, path[0]);
        ResolveKept(g, d0, d1, m, Lookup(g, d0, f, path[0]).cluster, path[1..]);
      }
    }
  }

  /** Disks that agree on the clusters in use have the same tree. */
  lemma TreeKept(g: Geo, d0: Disk, d1: Disk, m: Model)
    requires WF(g, d0, m) && Keeps(g, d0, d1, Used(m))
    ensures SameTree(g, d0, d1)
  {
    forall path: seq<Name>
      ensures Resolve(g, d1, 0, path) == Resolve(g, d0, 0, path)
    {
      ResolveKept(g, d0, d1, m, 0, path);
    }
  }

  /** Folder by folder, d1 is d0 with name of folder f now node. */
  ghost predicate EditedLookups(g: Geo, d0: Disk, m0: Model, d1: Disk, m1: Model, f: nat, name: Name, node: Node) {
    && (forall x, n: Name | x in m0.depth && x in m1.depth ::
          Lookup(g, d1, x, n) == if x == f && n == name then node else Lookup(g, d0, x, n))
    && (node.FolderNode? ==> forall n: Name :: Lookup(g, d1, node.cluster, n) == Absent)
  }

  lemma DescendBare(g: Geo, d: Disk, node: Node, rest: seq<Name>)
    requires node.FolderNode? ==> forall n: Name :: Lookup(g, d, node.cluster, n) == Absent
    ensures Descend(g, d, node, rest) == if |rest| == 0 then node else Absent
  {
    if node.FolderNode? && |rest| > 0 {
      assert Resolve(g, d, node.cluster, rest) == Descend(g, d, Lookup(g, d, node.cluster, rest[0]), rest[1..]);
      assert Lookup(g, d, node.cluster, rest[0]) == Absent;
    }
  }

  lemma {:induction false} ResolveChanged(g: Geo, d0: Disk, m0: Model, d1: Disk, m1: Model, f: nat, name: Name,
      node: Node,
                                          x: nat, path: seq<Name>)
    requires WF(g, d0, m0) && WF(g, d1, m1) && x in m0.depth && x in m1.depth
    requires EditedLookups(g, d0, m0, d1, m1, f, name, node)
    ensures Resolve(g, d1, x, path) == ResolveEdited(g, d0, x, path, f, name, node)
    decreases |path|
  {
    hide WF;
    hide Lookup;
    if |path| > 0 {
      var here := Lookup(g, d1, x, path[0]);
      if x == f && path[0] == name {
        assert Resolve(g, d1, x, path) == Descend(g, d1, node, path[1..]);
        DescendBare(g, d1, node, path[1..]);
      } else if here.FolderNode? {
        assert here == Lookup(g, d0, x, path[0]);
        LookupFolder(g, d0, m0, x, path[0]);
        LookupFolder(g, d1, m1, x, path[0]);
        ResolveChanged(g, d0, m0, d1, m1, f, name, node, here.cluster, path[1..]);
      }
    }
  }

  /** A change of one folder member, seen as a change of the whole tree. */
  lemma TreeChanged(g: Geo, d0: Disk, m0: Model, d1: Disk, m1: Model, f: nat, name: Name, node: Node)
    requires WF(g, d0, m0) && WF(g, d1, m1)
    requires EditedLookups(g, d0, m0, d1, m1, f, name, node)
    ensures EditedTree(g, d0, d1, f, name, node)
  {
    forall path: seq<Name>
      ensures Resolve(g, d1, 0, path) == ResolveEdited(g, d0, 0, path, f, name, node)
    {
      ResolveChanged(g, d0, m0, d1, m1, f, name, node, 0, path);
    }
  }

  // ----- an edit and its undoing

  /** Paths that start with q go on from folder x, on both disks. */
  ghost predicate Prefix(g: Geo, d0: Disk, d1: Disk, f: nat, name: Name, node: Node, q: seq<Name>, x: nat) {
    forall r: seq<Name> ::
      && Resolve(g, d1, 0, q + r) == Resolve(g, d1, x, r)
      && ResolveEdited(g, d0, 0, q + r, f, name, node) == ResolveEdited(g, d0, x, r, f, name, node)
  }

  lemma PrefixAt(g: Geo, d0: Disk, d1: Disk, f: nat, name: Name, node: Node, q: seq<Name>, x: nat, r: seq<Name>)
    requires Prefix(g, d0, d1, f, name, node, q, x) && EditedTree(g, d0, d1, f, name, node)
    ensures Resolve(g, d1, x, r) == ResolveEdited(g, d0, x, r, f, name, node)
  {
    hide Resolve;
    hide ResolveEdited;
    assert Resolve(g, d1, 0, q + r) == ResolveEdited(g, d0, 0, q + r, f, name, node);
  }

  /** The members of x but for the edited name are the same. */
  lemma SameMember(g: Geo, d0: Disk, d1: Disk, f: nat, name: Name, node: Node, q: seq<Name>, x: nat, n: Name)
    requires Prefix(g, d0, d1, f, name, node, q, x) && EditedTree(g, d0, d1, f, name, node) && !(x == f && n == name)
    ensures Lookup(g, d1, x, n) == Lookup(g, d0, x, n)
  {
    PrefixAt(g, d0, d1, f, name, node, q, x, [n]);
    hide Prefix;
    hide EditedTree;
    hide Lookup;
    assert [n][1..] == [];
    LoneName(g, d1, x, n);
    OneEdited(g, d0, x, n, f, name, node);
  }

  lemma LoneName(g: Geo, d: Disk, x: nat, n: Name)
    ensures Resolve(g, d, x, [n]) == Lookup(g, d, x, n)
  {
    hide Lookup;
    assert [n][1..] == [];
    assert Resolve(g, d, x, [n]) == Descend(g, d, Lookup(g, d, x, n), []);
  }

  lemma OneEdited(g: Geo, d: Disk, x: nat, n: Name, f: nat, name: Name, node: Node)
    requires !(x == f && n == name)
    ensures ResolveEdited(g, d, x, [n], f, name, node) == Lookup(g, d, x, n)
  {
    hide Lookup;
    assert [n][1..] == [];
  }

  lemma PrefixMore(g: Geo, d0: Disk, d1: Disk, f: nat, name: Name, node: Node, q: seq<Name>, x: nat, n: Name, c: nat)
    requires Prefix(g, d0, d1, f, name, node, q, x) && !(x == f && n == name)
    requires Lookup(g, d1, x, n) == FolderNode(c) == Lookup(g, d0, x, n)
    ensures Prefix(g, d0, d1, f, name, node, q + [n], c)
  {
    hide Lookup;
    forall r: seq<Name>
      ensures Resolve(g, d1, 0, q + [n] + r) == Resolve(g, d1, c, r)
      ensures ResolveEdited(g, d0, 0, q + [n] + r, f, name, node) == ResolveEdited(g, d0, c, r, f, name, node)
    {
      assert q + [n] + r == q + ([n] + r);
      assert ([n] + r)[0] == n && ([n] + r)[1..] == r;
      assert Resolve(g, d1, x, [n] + r) == Descend(g, d1, FolderNode(c), r);
    }
  }

  lemma {:induction false} Undone(g: Geo, d0: Disk, d1: Disk, f: nat, name: Name, node: Node, q: seq<Name>, x: nat,
                                  rest: seq<Name>)
    requires EditedTree(g, d0, d1, f, name, node) && Lookup(g, d0, f, name) == Absent
    requires Prefix(g, d0, d1, f, name, node, q, x)
    ensures ResolveEdited(g, d1, x, rest, f, name, Absent) == Resolve(g, d0, x, rest)
    decreases |rest|
  {
    hide EditedTree;
    hide Prefix;
    hide Lookup;
    if |rest| > 0 {
      var n := rest[0];
      if x == f && n == name {
        assert Resolve(g, d0, x, rest) == Descend(g, d0, Absent, rest[1..]);
      } else {
        SameMember(g, d0, d1, f, name, node, q, x, n);
        var here := Lookup(g, d0, x, n);
        if here.FolderNode? {
          PrefixMore(g, d0, d1, f, name, node, q, x, n, here.cluster);
          Undone(g, d0, d1, f, name, node, q + [n], here.cluster, rest[1..]);
        }
      }
    }
  }

  /** A name that was not there, put in and taken out again, leaves the tree. */
  lemma EditUndone(g: Geo, d0: Disk, d1: Disk, d2: Disk, f: nat, name: Name, node: Node)
    requires EditedTree(g, d0, d1, f, name, node) && EditedTree(g, d1, d2, f, name, Absent)
    requires Lookup(g, d0, f, name) == Absent
    ensures SameTree(g, d0, d2)
  {
    hide Lookup;
    hide Resolve;
    hide ResolveEdited;
    forall r: seq<Name>
      ensures [] + r == r
    {
    }
    assert Prefix(g, d0, d1, f, name, node, [], 0);
    forall path: seq<Name>
      ensures Resolve(g, d2, 0, path) == Resolve(g, d0, 0, path)
    {
      Undone(g, d0, d1, f, name, node, [], 0, path);
    }
  }
}
