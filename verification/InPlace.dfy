/** fat_write_at: sectors of one file's chain written in place. */
module InPlace {
  import opened Arith
  import opened Bytes
  import opened Layout
  import opened FatTable
  import opened Chains
  import opened Folders
  import opened Tree
  import opened Volume
  import opened Paths
  import opened SectorWrites
  import opened FatWrites
  import opened Commits
  import opened Walks
  import opened Atomicity
  import opened Ranges
  import opened FileData

  /** w with the bytes from off on replaced by part. */
  function Splice(w: seq<byte>, off: nat, part: seq<byte>): (r: seq<byte>)
    requires off + |part| <= |w|
    ensures |r| == |w|
  {
    w[..off] + part + w[off + |part|..]
  }

  lemma SpliceJoin(w: seq<byte>, off: nat, a: seq<byte>, b: seq<byte>)
    requires off + |a| + |b| <= |w|
    ensures Splice(Splice(w, off, a), off + |a|, b) == Splice(w, off, a + b)
  {
  }

  lemma SpliceNone(w: seq<byte>, off: nat)
    requires off <= |w|
    ensures Splice(w, off, []) == w
  {
  }

  lemma SpliceSector(body: seq<Sector>, size: nat, q: nat, skip: nat, part: seq<byte>)
    requires q < |body| && skip + |part| <= 512 && 512 * q + skip + |part| <= |FileBytes(body, size)|
    ensures FileBytes(body[q := Splice(body[q], skip, part)], size)
            == Splice(FileBytes(body, size), 512 * q + skip, part)
  {
    var w := FileBytes(body, size);
    var x: Sector := Splice(body[q], skip, part);
    var v, u := FileBytes(body[q := x], size), Splice(w, 512 * q + skip, part);
    forall k | 0 <= k < |w|
      ensures v[k] == u[k]
    {
      assert k == 512 * (k / 512) + k % 512;
      if k / 512 == q { assert v[k] == x[k % 512]; }
    }
  }

  // ----- one sector of a file's chain

  lemma FileSectorPlace(g: Geo, d: Disk, m: Model, h: nat, q: nat)
    requires h in m.ch && q < Sectors(g, |m.ch[h]|) && WF(g, d, m)
    ensures GeoOk(g) && Fits(g, d) && Clusters(g, m.ch[h]) && Injective(m.ch[h])
    ensures Quot(q, g.spc) < |m.ch[h]| && Rem(q, g.spc) < g.spc
    ensures g.RootStart() <= g.DataStart() <= LbaAt(g, m.ch[h], q) < |d|
  {
    hide *;
    WFParts(g, d, m);
    ModelChain(g, d, m, h);
    ChainInParts(g, d, m, h);
    InChain(g, m.ch[h], q);
    GeoPositive(g);
    RootAbove(g);
    PlaceBound(g, d, LbaAt(g, m.ch[h], q));
  }

  lemma PlaceBound(g: Geo, d: Disk, l: int)
    requires GeoOk(g) && Fits(g, d) && g.DataStart() <= l < g.DataStart() + g.total * g.spc
    ensures l < |d| && g.RootStart() <= g.DataStart()
  {
  }

  /** l is where sector q of the chain is. */
  ghost predicate SectorHere(g: Geo, d: Disk, chain: seq<nat>, q: nat, l: nat) {
    && q < Sectors(g, |chain|) && g.spc > 0 && Quot(q, g.spc) < |chain| && LbaAt(g, chain, q) == l
    && g.RootStart() <= l < |d|
  }

  lemma SectorHereIs(g: Geo, d: Disk, chain: seq<nat>, q: nat, l: nat)
    ensures SectorHere(g, d, chain, q, l) <==>
            && q < Sectors(g, |chain|) && g.spc > 0 && Quot(q, g.spc) < |chain| && LbaAt(g, chain, q) == l
            && g.RootStart() <= l < |d|
  {
    hide Quot;
    hide LbaAt;
    hide Sectors;
    hide Geo.RootStart;
  }

  /** Other chains do not notice. */
  lemma OtherBody(g: Geo, d: Disk, m: Model, h: nat, q: nat, l: nat, x: Sector, h1: nat)
    requires l < |d| && h in m.ch && h1 in m.ch && h1 != h && SectorHere(g, d, m.ch[h], q, l) && WF(g, d, m)
    ensures Body(g, d[l := x], m.ch[h1]) == Body(g, d, m.ch[h1])
  {
    hide *;
    SectorHereIs(g, d, m.ch[h], q, l);
    FileSectorPlace(g, d, m, h, q);
    ModelChain(g, d, m, h);
    ChainInParts(g, d, m, h);
    ModelChain(g, d, m, h1);
    ChainInParts(g, d, m, h1);
    var c := m.ch[h][Quot(q, g.spc)];
    assert c !in m.ch[h1];
    ClustersAt(g, m.ch[h], Quot(q, g.spc));
    BodyElsewhere(g, d, m.ch[h1], c, Rem(q, g.spc), x);
    LbaAtIs(g, m.ch[h], q);
  }

  lemma LbaAtIs(g: Geo, chain: seq<nat>, q: nat)
    requires g.spc > 0 && Quot(q, g.spc) < |chain|
    ensures LbaAt(g, chain, q) == g.Lba(chain[Quot(q, g.spc)]) + Rem(q, g.spc)
  {
    hide Geo.Lba;
    hide Quot;
    hide Rem;
  }

  lemma SlotsKept(g: Geo, d: Disk, m: Model, h: nat, q: nat, l: nat, x: Sector, f: nat)
    requires l < |d| && h in m.ch && h in m.loc && h !in m.depth && f in m.depth
    requires SectorHere(g, d, m.ch[h], q, l) && WF(g, d, m)
    ensures FolderSlots(g, d[l := x], m, f) == FolderSlots(g, d, m, f)
  {
    hide *;
    SectorHereIs(g, d, m.ch[h], q, l);
    FileSectorPlace(g, d, m, h, q);
    WFParts(g, d, m);
    NotFolderHead(g, d, m, f, h);
    FolderChain(g, d, m, f);
    var d1 := d[l := x];
    if FixedRoot(g, f) {
      FixedKept(g, d, m, l, x, f);
    } else {
      OtherBody(g, d, m, h, q, l, x, HeadOf(g, f));
      ChainBody(g, d, ChainOf(g, m, f), f);
      ChainBody(g, d1, ChainOf(g, m, f), f);
    }
    SlotsBy(g, d, d1, m, f);
  }

  lemma FixedKept(g: Geo, d: Disk, m: Model, l: nat, x: Sector, f: nat)
    requires FixedRoot(g, f) && g.DataStart() <= l < |d|
    ensures FolderBody(g, d[l := x], ChainOf(g, m, f), f) == FolderBody(g, d, ChainOf(g, m, f), f)
  {
    hide Geo.DataStart;
    hide Geo.RootStart;
    hide ChainOf;
  }

  lemma DirsSame(g: Geo, d0: Disk, d1: Disk, m: Model)
    requires forall f | f in m.depth :: FolderSlots(g, d1, m, f) == FolderSlots(g, d0, m, f)
    ensures DirsOf(g, d1, m) == DirsOf(g, d0, m)
  {
    hide FolderSlots;
  }

  /** A file's sector is written: every other chain, every folder and the FAT
      stay, and the volume is as well-formed as it was. */
  lemma DataWritten(g: Geo, d: Disk, m: Model, h: nat, q: nat, l: nat, x: Sector)
    requires l < |d| && h in m.ch && h in m.loc && h !in m.depth && q < |Body(g, d, m.ch[h])|
    requires SectorHere(g, d, m.ch[h], q, l) && WF(g, d, m)
    ensures InPlace(g, d, d[l := x], m, h)
    ensures Body(g, d[l := x], m.ch[h]) == Body(g, d, m.ch[h])[q := x]
  {
    hide *;
    SectorHereIs(g, d, m.ch[h], q, l);
    FileSectorPlace(g, d, m, h, q);
    var d1 := d[l := x];
    AboveFat(g, d, l, x);
    BodyWritten(g, d, m.ch[h], q, x);
    FitsSame(g, d, d1);
    forall f | f in m.depth
      ensures FolderSlots(g, d1, m, f) == FolderSlots(g, d, m, f)
    {
      SlotsKept(g, d, m, h, q, l, x, f);
    }
    DirsSame(g, d, d1, m);
    WFParts(g, d, m);
    WFMake(g, d1, m);
    forall h1 | h1 in m.ch && h1 != h
      ensures Body(g, d1, m.ch[h1]) == Body(g, d, m.ch[h1])
    {
      OtherBody(g, d, m, h, q, l, x, h1);
    }
    InPlaceMake(g, d, d1, m, h);
  }

  /** d differs from d0 in the sectors of h's chain at most. */
  ghost predicate InPlace(g: Geo, d0: Disk, d: Disk, m: Model, h: nat) {
    && WF(g, d, m) && Table(g, d) == Table(g, d0) && DirsOf(g, d, m) == DirsOf(g, d0, m)
    && forall h1 | h1 in m.ch && h1 != h :: Body(g, d, m.ch[h1]) == Body(g, d0, m.ch[h1])
  }

  lemma InPlaceMake(g: Geo, d0: Disk, d: Disk, m: Model, h: nat)
    requires WF(g, d, m) && Table(g, d) == Table(g, d0) && DirsOf(g, d, m) == DirsOf(g, d0, m)
    requires forall h1 | h1 in m.ch && h1 != h :: Body(g, d, m.ch[h1]) == Body(g, d0, m.ch[h1])
    ensures InPlace(g, d0, d, m, h)
  {
    hide WF;
    hide Table;
    hide DirsOf;
    hide Body;
  }

  lemma InPlaceParts(g: Geo, d0: Disk, d: Disk, m: Model, h: nat)
    requires InPlace(g, d0, d, m, h)
    ensures WF(g, d, m) && Table(g, d) == Table(g, d0) && DirsOf(g, d, m) == DirsOf(g, d0, m)
    ensures forall h1 | h1 in m.ch && h1 != h :: Body(g, d, m.ch[h1]) == Body(g, d0, m.ch[h1])
  {
    hide WF;
    hide Table;
    hide DirsOf;
    hide Body;
  }

  lemma InPlaceThen(g: Geo, d0: Disk, d1: Disk, d2: Disk, m: Model, h: nat)
    requires InPlace(g, d0, d1, m, h) && InPlace(g, d1, d2, m, h)
    ensures InPlace(g, d0, d2, m, h)
  {
    hide WF;
    hide Table;
    hide DirsOf;
    hide Body;
  }

  lemma InPlaceSelf(g: Geo, d: Disk, m: Model, h: nat)
    requires WF(g, d, m)
    ensures InPlace(g, d, d, m, h)
  {
    hide WF;
    hide Body;
  }

  // ----- what a reader sees of it

  /** A folder slot that is not (f, k) names another chain than h, or none. */
  lemma OtherNode(g: Geo, d0: Disk, d: Disk, m: Model, h: nat, x: nat, k: nat, e: Ent)
    requires WF(g, d0, m) && InPlace(g, d0, d, m, h) && KidOk(g, m, x, k, e) && h in m.loc && m.loc[h] != (x, k)
    ensures NodeOf(g, d, e) == NodeOf(g, d0, e)
  {
    hide *;
    InPlaceParts(g, d0, d, m, h);
    if IsDir(e) || e.cluster < 2 {
      PlainNode(g, d0, d, e);
    } else {
      KidFile(g, m, x, k, e);
      DiskChainOf(g, d0, m, e.cluster);
      DiskChainOf(g, d, m, e.cluster);
      FileNodes(g, d0, d, e);
    }
  }

  /** Entry k of folder f is a file of at least one byte on the chain at h. */
  ghost predicate FileHere(g: Geo, d: Disk, m: Model, f: nat, k: nat, h: nat, name: Name, size: nat) {
    && f in m.depth && k < |DiskSlots(g, d, f)| && size > 0
    && var e := DiskSlots(g, d, f)[k];
    && Matches(e, name, true) && !IsDot(name) && e.cluster == h && e.size == size && KidOk(g, m, f, k, e)
  }

  lemma FileHereParts(g: Geo, d: Disk, m: Model, f: nat, k: nat, h: nat, name: Name, size: nat)
    requires FileHere(g, d, m, f, k, h, name, size)
    ensures f in m.depth && k < |DiskSlots(g, d, f)| && size > 0
    ensures var e := DiskSlots(g, d, f)[k];
            Matches(e, name, true) && !IsDot(name) && e.cluster == h && e.size == size && KidOk(g, m, f, k, e)
              && !IsDir(e)
  {
    hide DiskSlots;
    hide KidOk;
    hide IsDot;
  }

  lemma InPlaceLookup(g: Geo, d0: Disk, d: Disk, m: Model, f: nat, k: nat, h: nat, name: Name, size: nat, x: nat,
                      n: Name)
    requires WF(g, d0, m) && InPlace(g, d0, d, m, h) && FileHere(g, d0, m, f, k, h, name, size) && x in m.depth
    requires h in m.ch && h in m.loc && m.loc[h] == (f, k)
             && NodeOf(g, d, DiskSlots(g, d0, f)[k]) == FileNode(Content(g, d, m.ch[h], size))
    ensures Lookup(g, d, x, n) == if x == f && n == name then FileNode(Content(g, d, m.ch[h], size))
            else Lookup(g, d0, x, n)
  {
    hide *;
    InPlaceParts(g, d0, d, m, h);
    FileHereParts(g, d0, m, f, k, h, name, size);
    DiskSlotsOf(g, d0, m, x);
    DiskSlotsOf(g, d, m, x);
    if IsDot(n) {
      DotAbsent(g, d0, x, n);
      DotAbsent(g, d, x, n);
    } else {
      var s := DiskSlots(g, d0, x);
      LookupEntry(g, d0, m, x, n);
      LookupEntry(g, d, m, x, n);
      SeenFolder(g, d0, m, x);
      FindIs(s, n);
      if x == f && n == name {
        FileMatch(s[k], n);
        FindUnique(s, n, false, k);
      } else if Find(s, n) < |s| {
        MatchName(s[Find(s, n)], n, false);
        if x == f && Find(s, n) == k { MatchName(s[k], name, true); }
        OtherNode(g, d0, d, m, h, x, Find(s, n), s[Find(s, n)]);
      }
    }
  }

  /** The tree shows the new content under the file's name, and nothing else new. */
  lemma InPlaceShows(g: Geo, d0: Disk, d: Disk, m: Model, f: nat, k: nat, h: nat, name: Name, size: nat)
    requires WF(g, d0, m) && InPlace(g, d0, d, m, h) && FileHere(g, d0, m, f, k, h, name, size) && h in m.ch
    ensures ShowsAfter(g, d0, m, d, f, name, FileNode(Content(g, d, m.ch[h], size)))
    ensures Lookup(g, d, f, name) == FileNode(Content(g, d, m.ch[h], size))
  {
    hide *;
    InPlaceParts(g, d0, d, m, h);
    FileHereParts(g, d0, m, f, k, h, name, size);
    FileAt(g, d, m, f, k, DiskSlots(g, d0, f)[k]);
    FileParts(g, d, m, f, k, DiskSlots(g, d0, f)[k]);
    NodeIs(g, d, DiskSlots(g, d0, f)[k]);
    var node := FileNode(Content(g, d, m.ch[h], size));
    forall x, n: Name | x in m.depth
      ensures Lookup(g, d, x, n) == if x == f && n == name then node else Lookup(g, d0, x, n)
    {
      InPlaceLookup(g, d0, d, m, f, k, h, name, size, x, n);
    }
    EditedMake(g, d0, m, d, m, f, name, node);
    TreeChanged(g, d0, m, d, m, f, name, node);
    AfterMake(g, d0, m, d, f, name, node);
  }

  // ----- how far fat_write_at has got

  /** The first n bytes of data are in place at off. */
  ghost predicate Patched(g: Geo, d0: Disk, d: Disk, m: Model, h: nat, size: nat, off: nat, data: seq<byte>, n: nat) {
    && InPlace(g, d0, d, m, h) && h in m.ch && n <= |data| && off + n <= |Content(g, d0, m.ch[h], size)|
    && Content(g, d, m.ch[h], size) == Splice(Content(g, d0, m.ch[h], size), off, data[..n])
  }

  ghost predicate PatchedSome(g: Geo, d0: Disk, d: Disk, m: Model, h: nat, size: nat, off: nat, data: seq<byte>) {
    exists n: nat :: Patched(g, d0, d, m, h, size, off, data, n)
  }

  /** Every disk state from n0 on has some first part of data in place. */
  ghost predicate PatchedAll(g: Geo, d0: Disk, past: seq<Disk>, n0: nat, m: Model, h: nat, size: nat, off: nat,
                             data: seq<byte>) {
    forall i | n0 <= i < |past| :: PatchedSome(g, d0, past[i], m, h, size, off, data)
  }

  lemma PatchedNone(g: Geo, d: Disk, m: Model, h: nat, size: nat, off: nat, data: seq<byte>)
    requires WF(g, d, m) && h in m.ch && off <= |Content(g, d, m.ch[h], size)|
    ensures Patched(g, d, d, m, h, size, off, data, 0)
  {
    hide *;
    InPlaceSelf(g, d, m, h);
    SpliceNone(Content(g, d, m.ch[h], size), off);
    PatchedMake(g, d, d, m, h, size, off, data, 0);
  }

  lemma PatchedMake(g: Geo, d0: Disk, d: Disk, m: Model, h: nat, size: nat, off: nat, data: seq<byte>, n: nat)
    requires InPlace(g, d0, d, m, h) && h in m.ch && n <= |data| && off + n <= |Content(g, d0, m.ch[h], size)|
    requires Content(g, d, m.ch[h], size) == Splice(Content(g, d0, m.ch[h], size), off, data[..n])
    ensures Patched(g, d0, d, m, h, size, off, data, n)
  {
    hide InPlace;
    hide Content;
    hide Splice;
  }

  lemma PatchedParts(g: Geo, d0: Disk, d: Disk, m: Model, h: nat, size: nat, off: nat, data: seq<byte>, n: nat)
    requires Patched(g, d0, d, m, h, size, off, data, n)
    ensures InPlace(g, d0, d, m, h) && h in m.ch && n <= |data| && off + n <= |Content(g, d0, m.ch[h], size)|
    ensures Content(g, d, m.ch[h], size) == Splice(Content(g, d0, m.ch[h], size), off, data[..n])
    ensures WF(g, d, m)
  {
    hide WF;
    hide Content;
    hide Splice;
  }

  /** Device sector l is sector s of the cluster at index. */
  ghost predicate SectorAt(g: Geo, chain: seq<nat>, index: nat, s: nat, l: nat) {
    index < |chain| && s < g.spc && l == g.Lba(chain[index]) + s
  }

  /** Position p of the file is skip bytes into that sector. */
  ghost predicate PositionAt(g: Geo, index: nat, s: nat, skip: nat, p: nat) {
    p == 512 * (Sectors(g, index) + s) + skip
  }

  lemma SectorIs(g: Geo, chain: seq<nat>, index: nat, s: nat, l: nat, skip: nat, p: nat)
    requires SectorAt(g, chain, index, s, l) && PositionAt(g, index, s, skip, p)
    ensures index < |chain| && s < g.spc && l == g.Lba(chain[index]) + s && p == 512 * (Sectors(g, index) + s) + skip
  {
    hide Geo.Lba;
    hide Sectors;
  }

  lemma SectorMake(g: Geo, chain: seq<nat>, index: nat, s: nat, l: nat)
    requires index < |chain| && s < g.spc && l == g.Lba(chain[index]) + s
    ensures SectorAt(g, chain, index, s, l)
  {
  }

  /** Going past 512 of the bytes to skip. */
  lemma NextPosition(g: Geo, index: nat, s: nat, skip: nat, p: nat)
    requires PositionAt(g, index, s, skip, p) && skip >= 512
    ensures PositionAt(g, index, s + 1, skip - 512, p)
  {
    hide Sectors;
  }

  lemma NextSectorAt(g: Geo, index: nat, s: nat, skip: nat, p: nat, chunk: nat)
    requires PositionAt(g, index, s, skip, p) && skip + chunk == 512
    ensures PositionAt(g, index, s + 1, 0, p + chunk)
  {
    hide Sectors;
  }

  /** The end of one cluster is the start of the next. */
  lemma ClusterEnd(g: Geo, index: nat, p: nat)
    requires PositionAt(g, index, g.spc, 0, p)
    ensures PositionAt(g, index + 1, 0, 0, p)
  {
    SectorsMore(g, index);
    hide Sectors;
  }

  /** One more sector: chunk bytes of data go skip bytes into sector s of the
      cluster at index, which is sector l of the device. */
  lemma PatchedMore(g: Geo, d0: Disk, d: Disk, m: Model, h: nat, size: nat, off: nat, data: seq<byte>, n: nat,
                    index: nat, s: nat, skip: nat, chunk: nat, l: nat, x: Sector)
    requires l < |d| && skip + chunk <= 512 && n + chunk <= |data| && x == Splice(d[l], skip, data[n..n + chunk])
    requires h in m.ch && h in m.loc && h !in m.depth
    requires SectorAt(g, m.ch[h], index, s, l) && PositionAt(g, index, s, skip, off + n)
    requires off + n + chunk <= |Content(g, d0, m.ch[h], size)|
    requires Patched(g, d0, d, m, h, size, off, data, n)
    ensures Patched(g, d0, d[l := x], m, h, size, off, data, n + chunk)
  {
    hide *;
    PatchedParts(g, d0, d, m, h, size, off, data, n);
    WFParts(g, d, m);
    ModelChain(g, d, m, h);
    ChainInParts(g, d, m, h);
    SectorIs(g, m.ch[h], index, s, l, skip, off + n);
    var q, part := Sectors(g, index) + s, data[n..n + chunk];
    PlaceInFile(g, d, m.ch[h], index, s);
    GeoPositive(g);
    LbaAtIs(g, m.ch[h], q);
    var d1 := d[l := x];
    SectorHereIs(g, d, m.ch[h], q, l);
    DataWritten(g, d, m, h, q, l, x);
    InPlaceThen(g, d0, d, d1, m, h);
    ContentIs(g, d0, m.ch[h], size);
    ContentIs(g, d, m.ch[h], size);
    ContentIs(g, d1, m.ch[h], size);
    SpliceSector(Body(g, d, m.ch[h]), size, q, skip, part);
    SpliceJoin(Content(g, d0, m.ch[h], size), off, data[..n], part);
    assert data[..n] + part == data[..n + chunk];
    PatchedMake(g, d0, d1, m, h, size, off, data, n + chunk);
  }

  /** Where that sector is. */
  lemma PatchPlace(g: Geo, d0: Disk, d: Disk, m: Model, h: nat, size: nat, off: nat, data: seq<byte>, n: nat,
                   index: nat, s: nat)
    requires Patched(g, d0, d, m, h, size, off, data, n) && h in m.ch && index < |m.ch[h]| && s < g.spc
    ensures g.RootStart() <= g.Lba(m.ch[h][index]) + s < |d|
            && Wrap(ClusterToLba(g, m.ch[h][index]) + s) == g.Lba(m.ch[h][index]) + s
  {
    hide *;
    PatchedParts(g, d0, d, m, h, size, off, data, n);
    WFParts(g, d, m);
    ModelChain(g, d, m, h);
    ChainInParts(g, d, m, h);
    PlaceInFile(g, d, m.ch[h], index, s);
  }

  lemma PatchedStep(g: Geo, d0: Disk, past: seq<Disk>, n0: nat, m: Model, h: nat, size: nat, off: nat,
                    data: seq<byte>, d: Disk, n: nat)
    requires PatchedAll(g, d0, past, n0, m, h, size, off, data) && Patched(g, d0, d, m, h, size, off, data, n)
    ensures PatchedAll(g, d0, past + [d], n0, m, h, size, off, data)
  {
    hide Patched;
    assert PatchedSome(g, d0, d, m, h, size, off, data);
    hide PatchedSome;
  }

  lemma PatchedBegin(g: Geo, d0: Disk, past: seq<Disk>, m: Model, h: nat, size: nat, off: nat, data: seq<byte>)
    ensures PatchedAll(g, d0, past, |past|, m, h, size, off, data)
  {
  }

  /** Bytes from one place copied over a part of a sector. */
  method CopyInto(sector: Sector, skip: nat, data: seq<byte>, start: nat, chunk: nat) returns (r: Sector)
    requires skip + chunk <= 512 && start + chunk <= |data|
    ensures r == Splice(sector, skip, data[start..start + chunk])
  {
    r := sector;
    var i := 0;
    while i < chunk
      invariant i <= chunk && forall k | 0 <= k < 512 :: r[k] == if skip <= k < skip + i then data[start + (k - skip)]
                else sector[k]
    {
      r := r[skip + i := data[start + i]];
      i := i + 1;
    }
  }

  lemma SpliceWhole(a: Sector, b: Sector, part: seq<byte>)
    requires |part| == 512
    ensures Splice(a, 0, part) == Splice(b, 0, part)
  {
  }

  /** Node b is file a with the first n bytes of data over it at off. */
  ghost predicate Patches(a: Node, b: Node, off: nat, data: seq<byte>, n: nat) {
    && a.FileNode? && b.FileNode? && n <= |data| && off + n <= |a.bytes| == |b.bytes|
    && forall i | 0 <= i < |a.bytes| :: b.bytes[i] == if off <= i < off + n then data[i - off] else a.bytes[i]
  }

  lemma WrittenBytes(a: Node, b: Node, off: nat, data: seq<byte>, n: nat)
    requires Patches(a, b, off, data, n)
    ensures a.FileNode? && b.FileNode? && n <= |data| && off + n <= |a.bytes| == |b.bytes|
    ensures forall i | 0 <= i < |a.bytes| :: b.bytes[i] == if off <= i < off + n then data[i - off] else a.bytes[i]
  {
  }

  lemma SpliceBytes(w: seq<byte>, off: nat, data: seq<byte>, n: nat)
    requires n <= |data| && off + n <= |w|
    ensures Patches(FileNode(w), FileNode(Splice(w, off, data[..n])), off, data, n)
  {
  }

  lemma WrittenNone(a: Node, off: nat)
    requires a.FileNode? && off <= |a.bytes|
    ensures Patches(a, a, off, [], 0)
  {
  }

  /** The tree of d is the tree of d0 with the first n bytes of data written
      over the named file at off. */
  ghost predicate Overwritten(g: Geo, d0: Disk, m: Model, d: Disk, f: nat, name: Name, off: nat, data: seq<byte>,
                              n: nat) {
    && Lookup(g, d0, f, name).FileNode? && n <= |data| && off + n <= |Lookup(g, d0, f, name).bytes|
    && ShowsAfter(g, d0, m, d, f, name, FileNode(Splice(Lookup(g, d0, f, name).bytes, off, data[..n])))
  }

  ghost predicate OverwrittenPart(g: Geo, d0: Disk, m: Model, d: Disk, f: nat, name: Name, off: nat, data: seq<byte>) {
    exists n: nat :: Overwritten(g, d0, m, d, f, name, off, data, n)
  }

  /** Every disk state from n0 on shows some first part of data written. */
  ghost predicate OverwrittenAll(g: Geo, d0: Disk, m: Model, past: seq<Disk>, n0: nat, f: nat, name: Name, off: nat,
                                 data: seq<byte>) {
    forall i | n0 <= i < |past| :: OverwrittenPart(g, d0, m, past[i], f, name, off, data)
  }

  lemma OverwrittenMake(g: Geo, d0: Disk, m: Model, d: Disk, f: nat, name: Name, off: nat, data: seq<byte>, n: nat,
                        w: seq<byte>)
    requires Lookup(g, d0, f, name) == FileNode(w) && n <= |data| && off + n <= |w|
    requires ShowsAfter(g, d0, m, d, f, name, FileNode(Splice(w, off, data[..n])))
    ensures Overwritten(g, d0, m, d, f, name, off, data, n) && OverwrittenPart(g, d0, m, d, f, name, off, data)
  {
    hide Lookup;
    hide ShowsAfter;
    hide Splice;
    assert Overwritten(g, d0, m, d, f, name, off, data, n);
    hide Overwritten;
  }

  lemma PatchedShows(g: Geo, d0: Disk, m: Model, d: Disk, f: nat, k: nat, h: nat, name: Name, size: nat, off: nat,
                     data: seq<byte>, n: nat)
    requires WF(g, d0, m) && FileHere(g, d0, m, f, k, h, name, size) && Patched(g, d0, d, m, h, size, off, data, n)
    requires h in m.ch && Lookup(g, d0, f, name) == FileNode(Content(g, d0, m.ch[h], size))
    ensures Overwritten(g, d0, m, d, f, name, off, data, n) && OverwrittenPart(g, d0, m, d, f, name, off, data)
    ensures Patches(Lookup(g, d0, f, name), Lookup(g, d, f, name), off, data, n)
  {
    hide *;
    PatchedParts(g, d0, d, m, h, size, off, data, n);
    SpliceBytes(Content(g, d0, m.ch[h], size), off, data, n);
    InPlaceShows(g, d0, d, m, f, k, h, name, size);
    OverwrittenMake(g, d0, m, d, f, name, off, data, n, Content(g, d0, m.ch[h], size));
  }

  lemma PatchedPast(g: Geo, d0: Disk, m: Model, past: seq<Disk>, n0: nat, f: nat, k: nat, h: nat, name: Name,
                    size: nat, off: nat, data: seq<byte>)
    requires WF(g, d0, m) && FileHere(g, d0, m, f, k, h, name, size)
             && PatchedAll(g, d0, past, n0, m, h, size, off, data)
    requires h in m.ch && Lookup(g, d0, f, name) == FileNode(Content(g, d0, m.ch[h], size))
    ensures OverwrittenAll(g, d0, m, past, n0, f, name, off, data)
  {
    hide *;
    hide PatchedAll;
    hide OverwrittenAll;
    forall i | n0 <= i < |past|
      ensures OverwrittenPart(g, d0, m, past[i], f, name, off, data)
    {
      SomePatched(g, d0, past, n0, m, h, size, off, data, i);
      var n := PatchedAmount(g, d0, past[i], m, h, size, off, data);
      PatchedShows(g, d0, m, past[i], f, k, h, name, size, off, data, n);
    }
    OverwrittenEach(g, d0, m, past, n0, f, name, off, data);
  }

  lemma SomePatched(g: Geo, d0: Disk, past: seq<Disk>, n0: nat, m: Model, h: nat, size: nat, off: nat,
                    data: seq<byte>, i: nat)
    requires PatchedAll(g, d0, past, n0, m, h, size, off, data) && n0 <= i < |past|
    ensures PatchedSome(g, d0, past[i], m, h, size, off, data)
  {
    hide PatchedSome;
  }

  lemma PatchedAmount(g: Geo, d0: Disk, d: Disk, m: Model, h: nat, size: nat, off: nat, data: seq<byte>)
    returns (n: nat)
    requires PatchedSome(g, d0, d, m, h, size, off, data)
    ensures Patched(g, d0, d, m, h, size, off, data, n)
  {
    hide Patched;
    n :| Patched(g, d0, d, m, h, size, off, data, n);
  }

  lemma OverwrittenEach(g: Geo, d0: Disk, m: Model, past: seq<Disk>, n0: nat, f: nat, name: Name, off: nat,
                        data: seq<byte>)
    requires forall i | n0 <= i < |past| :: OverwrittenPart(g, d0, m, past[i], f, name, off, data)
    ensures OverwrittenAll(g, d0, m, past, n0, f, name, off, data)
  {
    hide OverwrittenPart;
  }

  /** Nothing to write: the tree with the file's own content in place. */
  lemma OverwrittenNone(g: Geo, d: Disk, m: Model, past: seq<Disk>, f: nat, name: Name, off: nat)
    requires WF(g, d, m) && f in m.depth && Lookup(g, d, f, name).FileNode? && off <= |Lookup(g, d, f, name).bytes|
    ensures Overwritten(g, d, m, d, f, name, off, [], 0) && OverwrittenAll(g, d, m, past, |past|, f, name, off, [])
  {
    hide *;
    var node := Lookup(g, d, f, name);
    SpliceNone(node.bytes, off);
    EditedMake(g, d, m, d, m, f, name, node);
    TreeChanged(g, d, m, d, m, f, name, node);
    AfterMake(g, d, m, d, f, name, node);
    OverwrittenMake(g, d, m, d, f, name, off, [], 0, node.bytes);
    OverwrittenEach(g, d, m, past, |past|, f, name, off, []);
  }

  lemma MoreClusters(g: Geo, d0: Disk, chain: seq<nat>, size: nat, index: nat, p: nat)
    requires PositionAt(g, index + 1, 0, 0, p) && p < |Content(g, d0, chain, size)| && index < |chain|
    ensures index + 1 < |chain|
  {
    hide Body;
  }

  lemma StartSkip(g: Geo, off: nat)
    requires g.spc > 0
    ensures ClusterBytes(g) > 0
  {
  }

  lemma PositionMake(g: Geo, index: nat, skip: nat, p: nat)
    requires p == 512 * Sectors(g, index) + skip
    ensures PositionAt(g, index, 0, skip, p)
  {
  }

  /** The file find_entry_in found, for fat_write_at. */
  lemma FileFound(g: Geo, d: Disk, m: Model, f: nat, k: nat, e: Ent, name: Name)
    requires WF(g, d, m) && f in m.depth && k < |DiskSlots(g, d, f)| && e == DiskSlots(g, d, f)[k]
    requires KidOk(g, m, f, k, e) && Child(e) && !IsDir(e) && e.name == name && e.size > 0
    ensures FileHere(g, d, m, f, k, e.cluster, name, e.size)
    ensures e.cluster in m.ch && e.cluster in m.loc && e.cluster !in m.depth
            && e.size <= 512 * Sectors(g, |m.ch[e.cluster]|)
    ensures NodeOf(g, d, e) == FileNode(Content(g, d, m.ch[e.cluster], e.size))
  {
    hide *;
    FileAt(g, d, m, f, k, e);
    FileParts(g, d, m, f, k, e);
    NodeIs(g, d, e);
    WFParts(g, d, m);
    SeenFolder(g, d, m, f);
    HeadPlace(g, m, DirsOf(g, d, m), e.cluster);
    FileHereMake(g, d, m, f, k, e, name);
  }

  lemma FileHereMake(g: Geo, d: Disk, m: Model, f: nat, k: nat, e: Ent, name: Name)
    requires f in m.depth && k < |DiskSlots(g, d, f)| && e == DiskSlots(g, d, f)[k]
    requires KidOk(g, m, f, k, e) && Child(e) && !IsDir(e) && e.name == name && e.size > 0
    ensures FileHere(g, d, m, f, k, e.cluster, name, e.size)
  {
    hide DiskSlots;
    hide KidOk;
  }
}

