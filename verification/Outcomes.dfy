/** What each operation on names promises, between the disk, history and model
    it found and those it leaves. */
module Outcomes {
  import opened Bytes
  import opened Layout
  import opened FatTable
  import opened Chains
  import opened Folders
  import opened Tree
  import opened Volume
  import opened Atomicity
  import opened Fresh
  import opened FileData
  import opened FileCommits
  import opened Hidden

  /** The tree is the one of d0 at every state from n0 on, and now. */
  ghost predicate Stayed(g: Geo, d0: Disk, m: Model, past: seq<Disk>, n0: nat, d: Disk) {
    Unchanged(g, d0, m, past, n0) && ShowsBefore(g, d0, m, d)
  }

  /** At every state from n0 on the tree is the one of d0 or that tree with one
      name changed, and now it is the latter. */
  ghost predicate Changed(g: Geo, d0: Disk, m0: Model, past: seq<Disk>, n0: nat, d: Disk, m1: Model, f: nat,
                          name: Name, node: Node) {
    Atomic(g, d0, m0, m1, past, n0, f, name, node) && ShowsAfter(g, d0, m1, d, f, name, node)
  }

  /** The name was stored in folder f: it shows node, unless it looks deleted,
      and is the only one of the folder but for names no search gets to. */
  ghost predicate Stored(g: Geo, d0: Disk, m0: Model, past: seq<Disk>, n0: nat, d: Disk, m1: Model, f: nat,
                         name: Name, node: Node) {
    && Changed(g, d0, m0, past, n0, d, m1, f, name, Shown(name, node))
    && Lookup(g, d, f, name) == Shown(name, node) && OneName(g, d0, d, f, name)
  }

  lemma StayedMake(g: Geo, d0: Disk, m: Model, past: seq<Disk>, n0: nat, d: Disk)
    requires Unchanged(g, d0, m, past, n0) && ShowsBefore(g, d0, m, d)
    ensures Stayed(g, d0, m, past, n0, d)
  {
    hide Unchanged;
    hide ShowsBefore;
  }

  lemma ChangedMake(g: Geo, d0: Disk, m0: Model, past: seq<Disk>, n0: nat, d: Disk, m1: Model, f: nat, name: Name,
                    node: Node)
    requires Atomic(g, d0, m0, m1, past, n0, f, name, node) && ShowsAfter(g, d0, m1, d, f, name, node)
    ensures Changed(g, d0, m0, past, n0, d, m1, f, name, node)
  {
    hide Atomic;
    hide ShowsAfter;
  }

  lemma StoredMake(g: Geo, d0: Disk, m0: Model, past: seq<Disk>, n0: nat, d: Disk, m1: Model, f: nat, name: Name,
                   node: Node)
    requires Atomic(g, d0, m0, m1, past, n0, f, name, Shown(name, node))
             && ShowsAfter(g, d0, m1, d, f, name, Shown(name, node))
    requires Lookup(g, d, f, name) == Shown(name, node) && OneName(g, d0, d, f, name)
    ensures Stored(g, d0, m0, past, n0, d, m1, f, name, node)
  {
    hide Atomic;
    hide ShowsAfter;
    hide Lookup;
    hide OneName;
    hide Shown;
  }

  lemma StoredParts(g: Geo, d0: Disk, m0: Model, past: seq<Disk>, n0: nat, d: Disk, m1: Model, f: nat, name: Name,
                    node: Node)
    requires Stored(g, d0, m0, past, n0, d, m1, f, name, node)
    ensures Changed(g, d0, m0, past, n0, d, m1, f, name, Shown(name, node))
    ensures Lookup(g, d, f, name) == Shown(name, node) && OneName(g, d0, d, f, name)
  {
    hide Changed;
    hide Lookup;
    hide OneName;
    hide Shown;
  }

  // ----- the operations

  /** fat_delete of name: done exactly when it names a file, the free clusters
      then grown by its chain; otherwise nothing happened.  All of it but for
      what a device that refuses a write prevents. */
  ghost predicate DeleteDone(g: Geo, d0: Disk, p0: seq<Disk>, m0: Model, d: Disk, p: seq<Disk>, m1: Model, f: nat,
                             name: Name,
                             ok: bool, reliable: bool) {
    if ok then
      && Lookup(g, d0, f, name).FileNode? && p0 < p && Changed(g, d0, m0, p, |p0|, d, m1, f, name, Absent)
      && (reliable ==> FreeGrew(Table(g, d0), Table(g, d), DiskChain(g, d0, HeadNamed(g, d0, f, name))))
    else
      d == d0 && p == p0 && m1 == m0 && (reliable ==> !Lookup(g, d0, f, name).FileNode?)
  }

  /** fat_rmdir of name: done exactly when it names a folder that shows nothing
      but deleted and dot names. */
  ghost predicate RmdirDone(g: Geo, d0: Disk, p0: seq<Disk>, m0: Model, d: Disk, p: seq<Disk>, m1: Model, f: nat,
                            name: Name,
                            ok: bool, reliable: bool) {
    var node := Lookup(g, d0, f, name);
    if ok then
      && node.FolderNode? && OnlyDots(DiskSlots(g, d0, node.cluster)) && p0 < p
      && Changed(g, d0, m0, p, |p0|, d, m1, f, name, Absent)
      && (reliable ==> FreeGrew(Table(g, d0), Table(g, d), DiskChain(g, d0, node.cluster)))
    else
      && d == d0 && p == p0 && m1 == m0
      && (reliable ==> node.FolderNode? ==> !OnlyDots(DiskSlots(g, d0, node.cluster)))
  }

  /** The reasons fat_mkdir has for refusing. */
  ghost predicate NoFolder(g: Geo, d: Disk, f: nat, n: Name) {
    || Lookup(g, d, f, n) != Absent || FreeFrom(DiskSlots(g, d, f), 0) == |DiskSlots(g, d, f)|
       || Free(Table(g, d)) == {}
  }

  /** fat_mkdir of name: refused for those reasons only; otherwise one free
      cluster c becomes the folder. */
  ghost predicate MkdirDone(g: Geo, d0: Disk, p0: seq<Disk>, m0: Model, d: Disk, p: seq<Disk>, m1: Model, f: nat,
                            name: Name, c: nat,
                            ok: bool, reliable: bool) {
    if ok then
      && !NoFolder(g, d0, f, name) && Stored(g, d0, m0, p, |p0|, d, m1, f, name, FolderNode(c))
      && c in Free(Table(g, d0)) && Free(Table(g, d)) == Free(Table(g, d0)) - {c}
    else
      && m1 == m0 && Stayed(g, d0, m1, p, |p0|, d)
      && (reliable ==> d == d0 && p == p0 && NoFolder(g, d0, f, name))
  }

  /** The free clusters, by their entries. */
  lemma FreePlain(g: Geo, d: Disk)
    ensures Free(Table(g, d)) == set x: nat | 2 <= x < g.total + 2 && FatGet(g, d, x) == 0
  {
    hide FatGet;
  }

  /** The reasons of fat_mkdir, spelled out. */
  lemma NoFolderPlain(g: Geo, d: Disk, f: nat, n: Name)
    ensures var s := DiskSlots(g, d, f);
            !NoFolder(g, d, f, n) <==>
              && Lookup(g, d, f, n) == Absent
              && (exists k | 0 <= k < |s| :: s[k].name[0] == 0 || s[k].name[0] == 0xE5)
              && (exists x: nat | 2 <= x < g.total + 2 :: FatGet(g, d, x) == 0)
  {
    FreePlain(g, d);
    SlotPlain(DiskSlots(g, d, f));
    hide Lookup;
    hide DiskSlots;
    hide FatGet;
    hide FreeFrom;
    hide Table;
    var t := Free(Table(g, d));
    if t != {} {
      var x :| x in t;
      assert FatGet(g, d, x) == 0;
    }
    if x: nat :| 2 <= x < g.total + 2 && FatGet(g, d, x) == 0 { assert x in t; }
  }

  lemma MkdirPlain(g: Geo, d0: Disk, p0: seq<Disk>, m0: Model, d: Disk, p: seq<Disk>, m1: Model, f: nat, name: Name,
                   c: nat, ok: bool, reliable: bool)
    requires MkdirDone(g, d0, p0, m0, d, p, m1, f, name, c, ok, reliable)
    ensures reliable ==>
            var s := DiskSlots(g, d0, f);
            ok <==>
              && Lookup(g, d0, f, name) == Absent
              && (exists k | 0 <= k < |s| :: s[k].name[0] == 0 || s[k].name[0] == 0xE5)
              && (exists x: nat | 2 <= x < g.total + 2 :: FatGet(g, d0, x) == 0)
  {
    hide *;
    MkdirWhen(g, d0, p0, m0, d, p, m1, f, name, c, ok, reliable);
    NoFolderPlain(g, d0, f, name);
  }

  lemma MkdirTook(g: Geo, d0: Disk, p0: seq<Disk>, m0: Model, d: Disk, p: seq<Disk>, m1: Model, f: nat, name: Name,
                  c: nat, reliable: bool)
    requires MkdirDone(g, d0, p0, m0, d, p, m1, f, name, c, true, reliable)
    ensures c in Free(Table(g, d0)) && Free(Table(g, d)) == Free(Table(g, d0)) - {c} && Lookup(g, d0, f, name) == Absent
  {
    hide Stored;
    hide Free;
    hide Lookup;
    hide DiskSlots;
  }

  lemma SlotPlain(s: seq<Ent>)
    ensures FreeFrom(s, 0) < |s| <==> exists k | 0 <= k < |s| :: s[k].name[0] == 0 || s[k].name[0] == 0xE5
  {
    var r := FreeFrom(s, 0);
    if r < |s| { assert s[r].name[0] == 0 || s[r].name[0] == 0xE5; }
  }

  /** And those of write_file. */
  lemma RefusedPlain(g: Geo, d: Disk, f: nat, n: Name, len: nat, replace: bool)
    ensures var s := DiskSlots(g, d, f);
            !Refused(g, d, f, n, len, replace) <==>
              && (if Lookup(g, d, f, n) == Absent
                  then exists k | 0 <= k < |s| :: s[k].name[0] == 0 || s[k].name[0] == 0xE5
                  else replace && Lookup(g, d, f, n).FileNode?)
              && len <= 512 * (|set x: nat | 2 <= x < g.total + 2 && FatGet(g, d, x) == 0| * g.spc)
  {
    FreePlain(g, d);
    SlotPlain(DiskSlots(g, d, f));
    hide Lookup;
    hide DiskSlots;
    hide FatGet;
    hide FreeFrom;
    hide Table;
  }

  lemma WriteWhen(g: Geo, d0: Disk, p0: seq<Disk>, m0: Model, d: Disk, p: seq<Disk>, m1: Model, f: nat, name: Name,
                  w: seq<byte>, nc: seq<nat>, replace: bool, ok: bool, reliable: bool)
    requires WriteDone(g, d0, p0, m0, d, p, m1, f, name, w, nc, replace, ok, reliable)
    ensures reliable ==> (ok <==> !Refused(g, d0, f, name, |w|, replace))
  {
    hide Stored;
    hide Stayed;
    hide Refused;
    hide FreeMoved;
    hide JustEnough;
  }

  lemma RmdirWhen(g: Geo, d0: Disk, p0: seq<Disk>, m0: Model, d: Disk, p: seq<Disk>, m1: Model, f: nat, name: Name,
                  ok: bool, reliable: bool)
    requires RmdirDone(g, d0, p0, m0, d, p, m1, f, name, ok, reliable)
    ensures var node := Lookup(g, d0, f, name);
            reliable ==> (ok <==> node.FolderNode? && OnlyDots(DiskSlots(g, d0, node.cluster)))
    ensures var node := Lookup(g, d0, f, name);
            ok && reliable && node.FolderNode? ==> FreeGrew(Table(g, d0), Table(g, d), DiskChain(g, d0, node.cluster))
  {
    hide Lookup;
    hide Changed;
    hide FreeGrew;
    hide OnlyDots;
  }

  lemma DeleteWhen(g: Geo, d0: Disk, p0: seq<Disk>, m0: Model, d: Disk, p: seq<Disk>, m1: Model, f: nat, name: Name,
                   ok: bool, reliable: bool)
    requires DeleteDone(g, d0, p0, m0, d, p, m1, f, name, ok, reliable)
    ensures reliable ==> (ok <==> Lookup(g, d0, f, name).FileNode?)
    ensures ok && reliable ==> FreeGrew(Table(g, d0), Table(g, d), DiskChain(g, d0, HeadNamed(g, d0, f, name)))
  {
    hide Lookup;
    hide Changed;
    hide FreeGrew;
  }

  /** nc has as many clusters as size bytes need. */
  predicate JustEnough(g: Geo, nc: seq<nat>, size: nat) {
    if size == 0 then nc == [] else |nc| > 0 && 512 * Sectors(g, |nc| - 1) < size <= 512 * Sectors(g, |nc|)
  }

  /** write_file of content w: refused for the reasons of Refused only, every
      FAT entry then put back; otherwise stored on chain nc, and the clusters
      of the file it replaced are free. */
  ghost predicate WriteDone(g: Geo, d0: Disk, p0: seq<Disk>, m0: Model, d: Disk, p: seq<Disk>, m1: Model, f: nat,
                            name: Name,
                            w: seq<byte>, nc: seq<nat>, replace: bool, ok: bool, reliable: bool) {
    if ok then
      && !Refused(g, d0, f, name, |w|, replace) && Stored(g, d0, m0, p, |p0|, d, m1, f, name, FileNode(w))
      && JustEnough(g, nc, |w|)
      && (reliable ==> FreeMoved(Table(g, d0), Table(g, d), nc, DiskChain(g, d0, HeadNamed(g, d0, f, name))))
    else
      && m1 == m0 && Stayed(g, d0, m1, p, |p0|, d)
      && (reliable ==> Table(g, d) == Table(g, d0) && Refused(g, d0, f, name, |w|, replace))
  }

  /** The prepared chain nc is allocated, though nothing leads to it. */
  ghost predicate ChainLeft(g: Geo, d0: Disk, d: Disk, nc: seq<nat>, size: nat) {
    && JustEnough(g, nc, size) && Elems(nc) <= Free(Table(g, d0))
    && Free(Table(g, d)) == Free(Table(g, d0)) - Elems(nc) && |Free(Table(g, d))| == |Free(Table(g, d0))| - |nc|
  }

  lemma ChainLeftMake(g: Geo, d0: Disk, d: Disk, u: set<nat>, nc: seq<nat>, w: seq<byte>, done: nat)
    requires Prepared(g, d0, d, u, nc, w, done) && JustEnough(g, nc, |w|)
    ensures ChainLeft(g, d0, d, nc, |w|)
  {
    PreparedParts(g, d0, d, u, nc, w, done);
    FillParts(g, d0, d, u, nc, w, done);
    FillFree(g, Table(g, d0), Table(g, d), u, nc);
    hide Table;
    hide Free;
    hide JustEnough;
    hide Prepared;
    hide FillTable;
  }

  lemma DeleteKept(g: Geo, d0: Disk, p0: seq<Disk>, m0: Model, f: nat, name: Name, reliable: bool)
    requires reliable ==> !Lookup(g, d0, f, name).FileNode?
    ensures DeleteDone(g, d0, p0, m0, d0, p0, m0, f, name, false, reliable)
  {
    hide Lookup;
  }

  lemma DeleteMake(g: Geo, d0: Disk, p0: seq<Disk>, m0: Model, d: Disk, p: seq<Disk>, m1: Model, f: nat, name: Name,
                   reliable: bool)
    requires Lookup(g, d0, f, name).FileNode? && p0 < p && Changed(g, d0, m0, p, |p0|, d, m1, f, name, Absent)
    requires reliable ==> FreeGrew(Table(g, d0), Table(g, d), DiskChain(g, d0, HeadNamed(g, d0, f, name)))
    ensures DeleteDone(g, d0, p0, m0, d, p, m1, f, name, true, reliable)
  {
    hide Lookup;
    hide Changed;
    hide FreeGrew;
  }

  lemma DeleteParts(g: Geo, d0: Disk, p0: seq<Disk>, m0: Model, d: Disk, p: seq<Disk>, m1: Model, f: nat, name: Name,
                    ok: bool, reliable: bool)
    requires DeleteDone(g, d0, p0, m0, d, p, m1, f, name, ok, reliable)
    ensures ok ==> p0 <= p && Changed(g, d0, m0, p, |p0|, d, m1, f, name, Absent)
    ensures !ok ==> d == d0 && p == p0 && m1 == m0
  {
    hide Lookup;
    hide Changed;
    hide FreeGrew;
  }

  lemma RmdirKept(g: Geo, d0: Disk, p0: seq<Disk>, m0: Model, f: nat, name: Name, reliable: bool)
    requires reliable ==> Lookup(g, d0, f, name).FolderNode? ==>
             !OnlyDots(DiskSlots(g, d0, Lookup(g, d0, f, name).cluster))
    ensures RmdirDone(g, d0, p0, m0, d0, p0, m0, f, name, false, reliable)
  {
    hide Lookup;
    hide OnlyDots;
  }

  lemma RmdirMake(g: Geo, d0: Disk, p0: seq<Disk>, m0: Model, d: Disk, p: seq<Disk>, m1: Model, f: nat, name: Name,
                  c: nat, reliable: bool)
    requires Lookup(g, d0, f, name) == FolderNode(c) && OnlyDots(DiskSlots(g, d0, c)) && p0 < p
    requires Changed(g, d0, m0, p, |p0|, d, m1, f, name, Absent)
    requires reliable ==> FreeGrew(Table(g, d0), Table(g, d), DiskChain(g, d0, c))
    ensures RmdirDone(g, d0, p0, m0, d, p, m1, f, name, true, reliable)
  {
    hide Lookup;
    hide Changed;
    hide FreeGrew;
    hide OnlyDots;
  }

  lemma RmdirParts(g: Geo, d0: Disk, p0: seq<Disk>, m0: Model, d: Disk, p: seq<Disk>, m1: Model, f: nat, name: Name,
                   ok: bool, reliable: bool)
    requires RmdirDone(g, d0, p0, m0, d, p, m1, f, name, ok, reliable)
    ensures ok ==> p0 <= p && Changed(g, d0, m0, p, |p0|, d, m1, f, name, Absent)
    ensures !ok ==> d == d0 && p == p0 && m1 == m0
  {
    hide Lookup;
    hide Changed;
    hide FreeGrew;
    hide OnlyDots;
  }

  lemma MkdirKept(g: Geo, d0: Disk, p0: seq<Disk>, m0: Model, d: Disk, p: seq<Disk>, f: nat, name: Name, c: nat,
                  reliable: bool)
    requires Stayed(g, d0, m0, p, |p0|, d) && (reliable ==> d == d0 && p == p0 && NoFolder(g, d0, f, name))
    ensures MkdirDone(g, d0, p0, m0, d, p, m0, f, name, c, false, reliable)
  {
    hide Stayed;
    hide NoFolder;
  }

  lemma MkdirMake(g: Geo, d0: Disk, p0: seq<Disk>, m0: Model, d: Disk, p: seq<Disk>, m1: Model, f: nat, name: Name,
                  c: nat, reliable: bool)
    requires !NoFolder(g, d0, f, name) && Stored(g, d0, m0, p, |p0|, d, m1, f, name, FolderNode(c))
    requires c in Free(Table(g, d0)) && Free(Table(g, d)) == Free(Table(g, d0)) - {c}
    ensures MkdirDone(g, d0, p0, m0, d, p, m1, f, name, c, true, reliable)
  {
    hide Stored;
    hide NoFolder;
    hide Free;
  }

  lemma MkdirParts(g: Geo, d0: Disk, p0: seq<Disk>, m0: Model, d: Disk, p: seq<Disk>, m1: Model, f: nat, name: Name,
                   c: nat, ok: bool, reliable: bool)
    requires MkdirDone(g, d0, p0, m0, d, p, m1, f, name, c, ok, reliable)
    ensures ok ==> Stored(g, d0, m0, p, |p0|, d, m1, f, name, FolderNode(c))
    ensures !ok ==> m1 == m0 && Stayed(g, d0, m1, p, |p0|, d)
  {
    hide Stored;
    hide Stayed;
    hide NoFolder;
    hide Free;
  }

  lemma MkdirWhen(g: Geo, d0: Disk, p0: seq<Disk>, m0: Model, d: Disk, p: seq<Disk>, m1: Model, f: nat, name: Name,
                  c: nat, ok: bool, reliable: bool)
    requires MkdirDone(g, d0, p0, m0, d, p, m1, f, name, c, ok, reliable)
    ensures reliable ==> (ok <==> !NoFolder(g, d0, f, name))
  {
    hide Stored;
    hide Stayed;
    hide NoFolder;
    hide Free;
  }

  lemma NoFolderIs(g: Geo, d: Disk, f: nat, n: Name)
    ensures NoFolder(g, d, f, n) <==>
      Lookup(g, d, f, n) != Absent || FreeFrom(DiskSlots(g, d, f), 0) == |DiskSlots(g, d, f)| || Free(Table(g, d)) == {}
  {
    hide Lookup;
    hide DiskSlots;
    hide Free;
  }

  lemma WriteKept(g: Geo, d0: Disk, p0: seq<Disk>, m0: Model, d: Disk, p: seq<Disk>, f: nat, name: Name,
                  w: seq<byte>, nc: seq<nat>, replace: bool, reliable: bool)
    requires Stayed(g, d0, m0, p, |p0|, d)
             && (reliable ==> Table(g, d) == Table(g, d0) && Refused(g, d0, f, name, |w|, replace))
    ensures WriteDone(g, d0, p0, m0, d, p, m0, f, name, w, nc, replace, false, reliable)
  {
    hide Stayed;
    hide Refused;
    hide Table;
  }

  lemma WriteMake(g: Geo, d0: Disk, p0: seq<Disk>, m0: Model, d: Disk, p: seq<Disk>, m1: Model, f: nat, name: Name,
                  w: seq<byte>, nc: seq<nat>, replace: bool, reliable: bool)
    requires !Refused(g, d0, f, name, |w|, replace) && Stored(g, d0, m0, p, |p0|, d, m1, f, name, FileNode(w))
             && JustEnough(g, nc, |w|)
    requires reliable ==> FreeMoved(Table(g, d0), Table(g, d), nc, DiskChain(g, d0, HeadNamed(g, d0, f, name)))
    ensures WriteDone(g, d0, p0, m0, d, p, m1, f, name, w, nc, replace, true, reliable)
  {
    hide Stored;
    hide Refused;
    hide FreeMoved;
    hide JustEnough;
  }

  lemma WriteParts(g: Geo, d0: Disk, p0: seq<Disk>, m0: Model, d: Disk, p: seq<Disk>, m1: Model, f: nat, name: Name,
                   w: seq<byte>, nc: seq<nat>, replace: bool, ok: bool, reliable: bool)
    requires WriteDone(g, d0, p0, m0, d, p, m1, f, name, w, nc, replace, ok, reliable)
    ensures ok ==> Stored(g, d0, m0, p, |p0|, d, m1, f, name, FileNode(w))
    ensures !ok ==> m1 == m0 && Stayed(g, d0, m1, p, |p0|, d)
  {
    hide Stored;
    hide Stayed;
    hide Refused;
    hide FreeMoved;
    hide JustEnough;
  }

  lemma JustEnoughIs(g: Geo, nc: seq<nat>, size: nat)
    ensures JustEnough(g, nc, size) <==>
      if size == 0 then nc == [] else |nc| > 0 && 512 * Sectors(g, |nc| - 1) < size <= 512 * Sectors(g, |nc|)
  {
    hide Sectors;
  }
}
