/** What the operations promise, read off path by path and entry by entry. */
module Readings {
  import opened Bytes
  import opened Layout
  import opened FatTable
  import opened Chains
  import opened Folders
  import opened Tree
  import opened Volume
  import opened Paths
  import opened Atomicity
  import opened Fresh
  import opened FileCommits
  import opened Outcomes
  import opened Reach
  import opened Format

  /** A path leads from folder to folder, by the names looked up on the way. */
  lemma PathRead(g: Geo, d: Disk, f: nat, n: Name, rest: seq<Name>)
    ensures Resolve(g, d, f, []) == FolderNode(f)
    ensures Resolve(g, d, f, [n] + rest) ==
            var here := Lookup(g, d, f, n);
            if here.FolderNode? then Resolve(g, d, here.cluster, rest) else if rest == [] then here else Absent
  {
    hide Lookup;
    assert ([n] + rest)[1..] == rest;
  }

  /** In an edited tree it does so too, but at the name of the edit. */
  lemma EditedRead(g: Geo, d: Disk, x: nat, n: Name, rest: seq<Name>, f: nat, name: Name, node: Node)
    ensures ResolveEdited(g, d, x, [], f, name, node) == FolderNode(x)
    ensures ResolveEdited(g, d, x, [n] + rest, f, name, node) ==
            if x == f && n == name then (if rest == [] then node else Absent)
            else
              var here := Lookup(g, d, x, n);
              if here.FolderNode? then ResolveEdited(g, d, here.cluster, rest, f, name, node)
              else if rest == [] then here else Absent
  {
    hide Lookup;
    assert ([n] + rest)[1..] == rest;
  }

  /** Nothing changes what any path leads to. */
  lemma StayedRead(g: Geo, d0: Disk, m: Model, past: seq<Disk>, n0: nat, d: Disk)
    requires Stayed(g, d0, m, past, n0, d)
    ensures forall i | n0 <= i < |past| :: forall path: seq<Name> ::
            Resolve(g, past[i], 0, path) == Resolve(g, d0, 0, path)
    ensures forall path: seq<Name> :: Resolve(g, d, 0, path) == Resolve(g, d0, 0, path)
  {
    hide WF;
    hide Resolve;
  }

  /** At each state all paths lead where they did, or all lead where they do in
      the edited tree; in the end the latter. */
  lemma ChangedRead(g: Geo, d0: Disk, m0: Model, past: seq<Disk>, n0: nat, d: Disk, m1: Model, f: nat, name: Name,
                    node: Node)
    requires Changed(g, d0, m0, past, n0, d, m1, f, name, node)
    ensures forall i | n0 <= i < |past| ::
            || (forall path: seq<Name> :: Resolve(g, past[i], 0, path) == Resolve(g, d0, 0, path))
            || (forall path: seq<Name> :: Resolve(g, past[i], 0, path) == ResolveEdited(g, d0, 0, path, f, name, node))
    ensures forall path: seq<Name> :: Resolve(g, d, 0, path) == ResolveEdited(g, d0, 0, path, f, name, node)
  {
    hide WF;
    hide Resolve;
    hide ResolveEdited;
  }

  /** The entries that are zero afterwards. */
  lemma GrewRead(g: Geo, d0: Disk, d: Disk, chain: seq<nat>)
    requires FreeGrew(Table(g, d0), Table(g, d), chain)
    ensures forall x: nat | 2 <= x < g.total + 2 :: FatGet(g, d, x) == 0 <==> FatGet(g, d0, x) == 0 || x in chain
    ensures forall x | x in chain :: FatGet(g, d0, x) != 0 || !(2 <= x < g.total + 2)
  {
    hide FatGet;
    hide Table;
    FreeEach(g, d0);
    FreeEach(g, d);
    hide Free;
    assert forall x | x in chain :: x in Elems(chain);
  }

  lemma FreeEach(g: Geo, d: Disk)
    ensures forall x: nat | 2 <= x < g.total + 2 :: x in Free(Table(g, d)) <==> FatGet(g, d, x) == 0
  {
    hide FatGet;
  }

  lemma MovedRead(g: Geo, d0: Disk, d: Disk, nc: seq<nat>, old0: seq<nat>)
    requires FreeMoved(Table(g, d0), Table(g, d), nc, old0)
    ensures forall x: nat | 2 <= x < g.total + 2 ::
            FatGet(g, d, x) == 0 <==> x in old0 || (FatGet(g, d0, x) == 0 && x !in nc)
  {
    hide FatGet;
    hide Table;
    FreeEach(g, d0);
    FreeEach(g, d);
    hide Free;
  }

  /** fat_delete: it removes exactly the names of files, and what was the file's
      chain is then free. */
  lemma DeleteRead(g: Geo, d0: Disk, p0: seq<Disk>, m0: Model, d: Disk, p: seq<Disk>, m1: Model, f: nat, name: Name,
                   ok: bool, reliable: bool)
    requires DeleteDone(g, d0, p0, m0, d, p, m1, f, name, ok, reliable)
    ensures reliable ==> (ok <==> Lookup(g, d0, f, name).FileNode?)
    ensures !ok ==> d == d0 && p == p0
    ensures ok ==>
            && (forall i | |p0| <= i < |p| ::
                  || (forall path: seq<Name> :: Resolve(g, p[i], 0, path) == Resolve(g, d0, 0, path))
                  || (forall path: seq<Name> ::
                     Resolve(g, p[i], 0, path) == ResolveEdited(g, d0, 0, path, f, name, Absent)))
            && (forall path: seq<Name> :: Resolve(g, d, 0, path) == ResolveEdited(g, d0, 0, path, f, name, Absent))
    ensures ok && reliable ==>
            var s := DiskSlots(g, d0, f); var k := FindFrom(s, name, false, 0);
            var chain := if k < |s| then DiskChain(g, d0, s[k].cluster) else DiskChain(g, d0, 0);
            forall x: nat | 2 <= x < g.total + 2 :: FatGet(g, d, x) == 0 <==> FatGet(g, d0, x) == 0 || x in chain
  {
    hide *;
    DeleteWhen(g, d0, p0, m0, d, p, m1, f, name, ok, reliable);
    DeleteParts(g, d0, p0, m0, d, p, m1, f, name, ok, reliable);
    if ok { ChangedRead(g, d0, m0, p, |p0|, d, m1, f, name, Absent); }
    HeadRead(g, d0, f, name);
    if ok && reliable { GrewRead(g, d0, d, DiskChain(g, d0, HeadNamed(g, d0, f, name))); }
  }

  lemma HeadRead(g: Geo, d: Disk, f: nat, name: Name)
    ensures var s := DiskSlots(g, d, f); var k := FindFrom(s, name, false, 0);
            HeadNamed(g, d, f, name) == if k < |s| then s[k].cluster else 0
  {
    hide DiskSlots;
    hide FindFrom;
  }

  /** fat_rmdir, likewise with the folder's chain. */
  lemma RmdirRead(g: Geo, d0: Disk, p0: seq<Disk>, m0: Model, d: Disk, p: seq<Disk>, m1: Model, f: nat, name: Name,
                  ok: bool, reliable: bool)
    requires RmdirDone(g, d0, p0, m0, d, p, m1, f, name, ok, reliable)
    ensures !ok ==> d == d0 && p == p0
    ensures ok ==>
            && (forall i | |p0| <= i < |p| ::
                  || (forall path: seq<Name> :: Resolve(g, p[i], 0, path) == Resolve(g, d0, 0, path))
                  || (forall path: seq<Name> ::
                     Resolve(g, p[i], 0, path) == ResolveEdited(g, d0, 0, path, f, name, Absent)))
            && (forall path: seq<Name> :: Resolve(g, d, 0, path) == ResolveEdited(g, d0, 0, path, f, name, Absent))
    ensures ok && reliable ==>
            && Lookup(g, d0, f, name).FolderNode?
            && var chain := DiskChain(g, d0, Lookup(g, d0, f, name).cluster);
               forall x: nat | 2 <= x < g.total + 2 :: FatGet(g, d, x) == 0 <==> FatGet(g, d0, x) == 0 || x in chain
  {
    hide *;
    RmdirWhen(g, d0, p0, m0, d, p, m1, f, name, ok, reliable);
    RmdirParts(g, d0, p0, m0, d, p, m1, f, name, ok, reliable);
    if ok { ChangedRead(g, d0, m0, p, |p0|, d, m1, f, name, Absent); }
    if ok && reliable { GrewRead(g, d0, d, DiskChain(g, d0, Lookup(g, d0, f, name).cluster)); }
  }

  /** fat_mkdir: the edit puts a folder at c there, unless the name looks deleted,
      and c alone is no longer free. */
  lemma MkdirRead(g: Geo, d0: Disk, p0: seq<Disk>, m0: Model, d: Disk, p: seq<Disk>, m1: Model, f: nat, name: Name,
                  c: nat, ok: bool, reliable: bool)
    requires MkdirDone(g, d0, p0, m0, d, p, m1, f, name, c, ok, reliable)
    ensures !ok ==>
            && (forall i | |p0| <= i < |p| :: forall path: seq<Name> ::
               Resolve(g, p[i], 0, path) == Resolve(g, d0, 0, path))
            && (forall path: seq<Name> :: Resolve(g, d, 0, path) == Resolve(g, d0, 0, path))
    ensures ok ==>
            var node := if name[0] == 0xE5 then Absent else FolderNode(c);
            && (forall i | |p0| <= i < |p| ::
                  || (forall path: seq<Name> :: Resolve(g, p[i], 0, path) == Resolve(g, d0, 0, path))
                  || (forall path: seq<Name> ::
                     Resolve(g, p[i], 0, path) == ResolveEdited(g, d0, 0, path, f, name, node)))
            && (forall path: seq<Name> :: Resolve(g, d, 0, path) == ResolveEdited(g, d0, 0, path, f, name, node))
            && Lookup(g, d, f, name) == node
            && FatGet(g, d0, c) == 0
            && forall x: nat | 2 <= x < g.total + 2 :: FatGet(g, d, x) == 0 <==> FatGet(g, d0, x) == 0 && x != c
  {
    hide *;
    MkdirParts(g, d0, p0, m0, d, p, m1, f, name, c, ok, reliable);
    if ok {
      MkdirTook(g, d0, p0, m0, d, p, m1, f, name, c, reliable);
      StoredParts(g, d0, m0, p, |p0|, d, m1, f, name, FolderNode(c));
      ShownRead(name, FolderNode(c));
      ChangedRead(g, d0, m0, p, |p0|, d, m1, f, name, Shown(name, FolderNode(c)));
      TookRead(g, d0, d, c);
    } else {
      StayedRead(g, d0, m1, p, |p0|, d);
    }
  }

  lemma ShownRead(n: Name, node: Node)
    ensures Shown(n, node) == if n[0] == 0xE5 then Absent else node
  {
  }

  lemma TookRead(g: Geo, d0: Disk, d: Disk, c: nat)
    requires c in Free(Table(g, d0)) && Free(Table(g, d)) == Free(Table(g, d0)) - {c}
    ensures FatGet(g, d0, c) == 0
    ensures forall x: nat | 2 <= x < g.total + 2 :: FatGet(g, d, x) == 0 <==> FatGet(g, d0, x) == 0 && x != c
  {
    hide FatGet;
    FreeEach(g, d0);
    FreeEach(g, d);
    FreePlain(g, d0);
    hide Free;
    hide Table;
  }

  /** write_file: the edit puts the file there, the chain nc is in use with no
      cluster to spare, and that of the file it replaces is free. */
  lemma WriteRead(g: Geo, d0: Disk, p0: seq<Disk>, m0: Model, d: Disk, p: seq<Disk>, m1: Model, f: nat, name: Name,
                  w: seq<byte>, nc: seq<nat>, replace: bool, ok: bool, reliable: bool)
    requires WriteDone(g, d0, p0, m0, d, p, m1, f, name, w, nc, replace, ok, reliable)
    ensures !ok ==>
            && (forall i | |p0| <= i < |p| :: forall path: seq<Name> ::
               Resolve(g, p[i], 0, path) == Resolve(g, d0, 0, path))
            && (forall path: seq<Name> :: Resolve(g, d, 0, path) == Resolve(g, d0, 0, path))
            && (reliable ==> forall x: nat | 2 <= x < g.total + 2 :: FatGet(g, d, x) == FatGet(g, d0, x))
    ensures ok ==>
            var node := if name[0] == 0xE5 then Absent else FileNode(w);
            && (forall i | |p0| <= i < |p| ::
                  || (forall path: seq<Name> :: Resolve(g, p[i], 0, path) == Resolve(g, d0, 0, path))
                  || (forall path: seq<Name> ::
                     Resolve(g, p[i], 0, path) == ResolveEdited(g, d0, 0, path, f, name, node)))
            && (forall path: seq<Name> :: Resolve(g, d, 0, path) == ResolveEdited(g, d0, 0, path, f, name, node))
            && Lookup(g, d, f, name) == node
            && |w| <= 512 * (|nc| * g.spc) && (|nc| > 0 ==> 512 * ((|nc| - 1) * g.spc) < |w|)
    ensures ok && reliable ==>
            var s := DiskSlots(g, d0, f); var k := FindFrom(s, name, false, 0);
            var chain := if k < |s| then DiskChain(g, d0, s[k].cluster) else DiskChain(g, d0, 0);
            forall x: nat | 2 <= x < g.total + 2 ::
              FatGet(g, d, x) == 0 <==> x in chain || (FatGet(g, d0, x) == 0 && x !in nc)
  {
    hide *;
    WriteParts(g, d0, p0, m0, d, p, m1, f, name, w, nc, replace, ok, reliable);
    WriteTables(g, d0, p0, m0, d, p, m1, f, name, w, nc, replace, ok, reliable);
    if ok {
      StoredParts(g, d0, m0, p, |p0|, d, m1, f, name, FileNode(w));
      ShownRead(name, FileNode(w));
      ChangedRead(g, d0, m0, p, |p0|, d, m1, f, name, Shown(name, FileNode(w)));
      EnoughRead(g, nc, |w|);
      HeadRead(g, d0, f, name);
      if reliable { MovedRead(g, d0, d, nc, DiskChain(g, d0, HeadNamed(g, d0, f, name))); }
    } else {
      StayedRead(g, d0, m1, p, |p0|, d);
      if reliable { SameEntries(g, d0, d); }
    }
  }

  lemma EnoughRead(g: Geo, nc: seq<nat>, size: nat)
    requires JustEnough(g, nc, size)
    ensures size <= 512 * (|nc| * g.spc) && (|nc| > 0 ==> 512 * ((|nc| - 1) * g.spc) < size)
  {
  }

  lemma SameEntries(g: Geo, d0: Disk, d: Disk)
    requires Table(g, d) == Table(g, d0)
    ensures forall x: nat | 2 <= x < g.total + 2 :: FatGet(g, d, x) == FatGet(g, d0, x)
  {
    hide FatGet;
    forall x: nat | 2 <= x < g.total + 2
      ensures FatGet(g, d, x) == FatGet(g, d0, x)
    {
      TableAt(g, d, x);
      TableAt(g, d0, x);
    }
  }

  lemma WriteTables(g: Geo, d0: Disk, p0: seq<Disk>, m0: Model, d: Disk, p: seq<Disk>, m1: Model, f: nat, name: Name,
                    w: seq<byte>, nc: seq<nat>, replace: bool, ok: bool, reliable: bool)
    requires WriteDone(g, d0, p0, m0, d, p, m1, f, name, w, nc, replace, ok, reliable)
    ensures !ok && reliable ==> Table(g, d) == Table(g, d0)
    ensures ok ==> JustEnough(g, nc, |w|)
    ensures ok && reliable ==> FreeMoved(Table(g, d0), Table(g, d), nc, DiskChain(g, d0, HeadNamed(g, d0, f, name)))
  {
    hide Stored;
    hide Stayed;
    hide Refused;
    hide FreeMoved;
    hide JustEnough;
    hide Table;
  }

  /** What never changes: the boot sector, and the top bits of each entry. */
  lemma StaysRead(g: Geo, d0: Disk, d1: Disk)
    requires StaysOf(g, d0) == StaysOf(g, d1) && |d0| > 0 && |d1| > 0
    ensures d0[0] == d1[0] && forall c: nat | c < g.total + 2 :: TopAt(g, d0, c) == TopAt(g, d1, c)
  {
    hide TopAt;
    forall c: nat | c < g.total + 2
      ensures TopAt(g, d0, c) == TopAt(g, d1, c)
    {
      assert TopBits(g, d0)[c] == TopBits(g, d1)[c];
    }
  }

  // ----- what the recovery goes by

  /** An entry that leads on: before the first zero byte, neither deleted nor a
      volume label, "." or "..", and its cluster 2 or more. */
  lemma NamedRead(g: Geo, d: Disk, f: nat, k: nat, c: nat, dir: bool)
    ensures NamedAt(g, d, f, k, c, dir) <==>
            var s := Listing(g, d, f);
            && k < |s| && (forall j | 0 <= j <= k :: s[j].name[0] != 0)
            && s[k].name[0] != 0xE5 && (s[k].attr as int) / 8 % 2 == 0
            && !(s[k].name[0] == 0x2E && (s[k].name[1] == 0x2E || s[k].name[1] == 32)
                 && forall i | 2 <= i < 11 :: s[k].name[i] == 32)
            && s[k].cluster == c && c >= 2 && ((s[k].attr as int) / 16 % 2 == 1 <==> dir)
  {
    hide Listing;
    hide IsDot;
    var s := Listing(g, d, f);
    if k < |s| { DotNames(s[k].name); }
  }

  /** What is reached: the root, and what an entry of a folder reached leads to. */
  lemma ReachedRead(g: Geo, d: Disk, h: nat, dir: bool, n: nat)
    ensures Reached(g, d, h, dir, 0) <==> dir && h == if g.fat32 then g.rootCluster else 0
    ensures Reached(g, d, h, dir, n + 1) <==>
            exists p: nat, k: nat :: Reached(g, d, p, true, n) && NamedAt(g, d, p, k, h, dir)
  {
    hide NamedAt;
    if Reached(g, d, h, dir, n + 1) {
      var p: nat :| Reached(g, d, p, true, n) && Named(g, d, p, h, dir);
      var k: nat :| NamedAt(g, d, p, k, h, dir);
    }
    if p: nat, k: nat :| Reached(g, d, p, true, n) && NamedAt(g, d, p, k, h, dir) {
      assert Named(g, d, p, h, dir);
    }
  }

  /** The clusters reached are those of the chains reached. */
  lemma ReachableRead(g: Geo, d: Disk, x: nat)
    ensures Reachable(g, d, x) <==>
            exists h: nat, dir: bool, n: nat :: Reached(g, d, h, dir, n) && x in DiskChain(g, d, h)
  {
    hide Reached;
    hide DiskChain;
    if Reachable(g, d, x) {
      var h: nat, dir: bool, n: nat :| Reached(g, d, h, dir, n) && x in Elems(DiskChain(g, d, h));
      assert x in DiskChain(g, d, h);
    }
    if h: nat, dir: bool, n: nat :| Reached(g, d, h, dir, n) && x in DiskChain(g, d, h) {
      ReachedIn(g, d, x, h, dir, n);
    }
  }

  lemma ReachedIn(g: Geo, d: Disk, x: nat, h: nat, dir: bool, n: nat)
    requires Reached(g, d, h, dir, n) && x in DiskChain(g, d, h)
    ensures Reachable(g, d, x)
  {
    hide Reached;
    hide DiskChain;
    assert Reached(g, d, h, dir, n) && x in Elems(DiskChain(g, d, h));
  }
}
