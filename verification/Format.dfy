/** The format byte by byte: where every number, sector and name of a volume is,
    written with plain arithmetic and the constants themselves. */
module Format {
  import opened Arith
  import opened Bytes
  import opened Layout
  import opened FatTable
  import opened Chains
  import opened Folders
  import opened Tree
  import opened Volume
  import opened Walks
  import opened Fresh
  import opened Boot
  import opened FatWrites
  import opened Recovery
  import opened Ranges
  import opened SectorWrites

  // ----- the FAT

  /** The entry of cluster c in the first copy: four bytes, the highest with the
      volume's bits in its upper half, or two. */
  lemma EntryBytes(g: Geo, d: Disk, c: nat)
    requires GeoOk(g) && Fits(g, d) && c < g.total + 2
    ensures g.fat32 ==>
              var l, o := g.reserved + c / 128, 4 * (c % 128);
              && l < |d|
              && FatGet(g, d, c) == (d[l][o] as int) + 0x100 * (d[l][o + 1] as int) + 0x1_0000 * (d[l][o + 2] as int)
                                    + 0x100_0000 * ((d[l][o + 3] as int) % 16)
              && TopAt(g, d, c) == (d[l][o + 3] as int) / 16
    ensures !g.fat32 ==>
              var l, o := g.reserved + c / 256, 2 * (c % 256);
              && l < |d| && FatGet(g, d, c) == (d[l][o] as int) + 0x100 * (d[l][o + 1] as int)
    ensures |Table(g, d)| == g.total + 2 && Table(g, d)[c] == FatGet(g, d, c)
  {
    hide *;
    Widths(g);
    EntryAt(g, d, c);
    TopPlace(g, d, c);
    var l := g.reserved + c / g.Per();
    WordBytes(g, d[l], c % g.Per() * g.W());
    TableAt(g, d, c);
  }

  /** Any cluster number, in the table or not: no more than 32 bits of its place
      count, and past the end of the device the answer is 0xFFFFFFFF. */
  lemma EntryAnywhere(g: Geo, d: Disk, c: nat)
    ensures var off := c * (if g.fat32 then 4 else 2) % 0x1_0000_0000;
            var l, o := (g.reserved + off / 512) % 0x1_0000_0000, off % 512;
            FatGet(g, d, c) ==
            if l >= |d| then 0xFFFF_FFFF
            else if g.fat32 then
              (d[l][o] as int) + 0x100 * (d[l][o + 1] as int) + 0x1_0000 * (d[l][o + 2] as int)
              + 0x100_0000 * ((d[l][o + 3] as int) % 16)
            else (d[l][o] as int) + 0x100 * (d[l][o + 1] as int)
  {
    EntryFits(g, c);
    var off := Wrap(c * g.W());
    var l := Wrap(g.reserved + off / 512);
    if l < |d| { WordBytes(g, d[l], off % 512); }
    hide Rd;
  }

  lemma Widths(g: Geo)
    ensures g.W() == (if g.fat32 then 4 else 2) && g.Per() == (if g.fat32 then 128 else 256)
    ensures g.Limit() == g.total + 2
  {
  }

  lemma TopPlace(g: Geo, d: Disk, c: nat)
    requires g.reserved + c / g.Per() < |d|
    ensures TopAt(g, d, c) == Top(g, d[g.reserved + c / g.Per()], c % g.Per() * g.W())
  {
    hide Top;
  }

  lemma WordBytes(g: Geo, s: Sector, o: nat)
    requires o + g.W() <= 512
    ensures g.fat32 ==>
              && Rd(g, s, o) == (s[o] as int) + 0x100 * (s[o + 1] as int) + 0x1_0000 * (s[o + 2] as int)
                                + 0x100_0000 * ((s[o + 3] as int) % 16)
              && Top(g, s, o) == (s[o + 3] as int) / 16
    ensures !g.fat32 ==> Rd(g, s, o) == (s[o] as int) + 0x100 * (s[o + 1] as int)
  {
    if g.fat32 {
      Words(s, o);
      hide Rd32;
      HighByte(s, o);
    } else {
      HalfBytes(s, o);
    }
  }

  lemma HalfBytes(s: Sector, o: nat)
    requires o + 2 <= 512
    ensures Rd16(s, o) == (s[o] as int) + 0x100 * (s[o + 1] as int)
  {
  }

  /** The two halves of the highest byte of a word. */
  lemma HighByte(b: Sector, o: nat)
    requires o + 4 <= 512
    ensures Rd32(b, o) % 0x1000_0000 == (b[o] as int) + 0x100 * (b[o + 1] as int) + 0x1_0000 * (b[o + 2] as int)
                                        + 0x100_0000 * ((b[o + 3] as int) % 16)
    ensures Rd32(b, o) / 0x1000_0000 == (b[o + 3] as int) / 16
  {
    Words(b, o);
    hide Rd32;
    var low := (b[o] as int) + 0x100 * (b[o + 1] as int) + 0x1_0000 * (b[o + 2] as int);
    SplitHigh(low, b[o + 3]);
  }

  lemma SplitHigh(low: nat, high: nat)
    requires low < 0x100_0000 && high < 256
    ensures (low + 0x100_0000 * high) % 0x1000_0000 == low + 0x100_0000 * (high % 16)
    ensures (low + 0x100_0000 * high) / 0x1000_0000 == high / 16
  {
    var a, b := high / 16, high % 16;
    assert high == 16 * a + b;
    Nibble(low + 0x100_0000 * b, a);
  }

  /** A link of 0x0FFFFFF8 or more, or of less than 2, ends a walk; on FAT16 one
      of 0xFFF8 or more. */
  lemma LinkTaken(g: Geo, d: Disk, c: nat, n: nat)
    ensures PlainWalk(g, d, c, 0) == c
    ensures var x := PlainWalk(g, d, c, n); var next := FatGet(g, d, x);
            PlainWalk(g, d, c, n + 1) ==
            if x == 0 || next < 2 || next >= (if g.fat32 then 0x0FFF_FFF8 else 0xFFF8) then 0 else next
  {
    hide FatGet;
  }

  /** A chain in a table: its clusters are in the table, linked by the entries on
      disk, and its last entry is such a mark. */
  lemma ChainLinks(g: Geo, d: Disk, chain: seq<nat>)
    ensures IsChain(Table(g, d), g.Eoc(), chain) <==>
            && |chain| > 0 && (forall i | 0 <= i < |chain| :: 2 <= chain[i] < g.total + 2)
            && (forall i | 0 <= i < |chain| - 1 :: FatGet(g, d, chain[i]) == chain[i + 1])
            && FatGet(g, d, chain[|chain| - 1]) >= if g.fat32 then 0x0FFF_FFF8 else 0xFFF8
  {
    hide FatGet;
    Widths(g);
    forall i | 0 <= i < |chain| && 2 <= chain[i] < g.total + 2
      ensures Table(g, d)[chain[i]] == FatGet(g, d, chain[i])
    {
      TableAt(g, d, chain[i]);
    }
  }

  /** All chains of a well-formed volume are such chains, and the clusters met from
      their first ones. */
  lemma ModelLinks(g: Geo, d: Disk, m: Model, h: nat, chain: seq<nat>)
    requires h in m.ch && chain == m.ch[h] && WF(g, d, m)
    ensures DiskChain(g, d, h) == chain && IsChain(Table(g, d), g.Eoc(), chain) && h in chain
  {
    hide *;
    DiskChainOf(g, d, m, h);
    ModelChain(g, d, m, h);
    ChainInParts(g, d, m, h);
  }

  // ----- clusters and files

  /** Sector s of cluster c. */
  lemma ClusterPlace(g: Geo, d: Disk, c: nat, s: nat)
    requires GeoOk(g) && Fits(g, d) && 2 <= c < g.total + 2 && s < g.spc
    ensures var l := g.reserved + g.nfats * g.fatSectors + g.rootSectors + (c - 2) * g.spc + s;
            0 <= l < |d| && Sec(g, d, c, s) == d[l]
  {
    hide *;
    Inside(g, c);
    FitsIs(g, d);
    ClusterInside(g, c, s);
    LbaIs(g, c);
    RootIs(g);
    SecIs(g, d, c, s);
  }

  lemma Inside(g: Geo, c: nat)
    requires 2 <= c < g.total + 2
    ensures InTable(g, c)
  {
  }

  lemma FitsIs(g: Geo, d: Disk)
    requires Fits(g, d)
    ensures g.DataStart() + g.total * g.spc <= |d|
  {
    hide Geo.DataStart;
  }

  lemma RootIs(g: Geo)
    ensures g.RootStart() == g.reserved + g.nfats * g.fatSectors
    ensures g.DataStart() == g.reserved + g.nfats * g.fatSectors + g.rootSectors
  {
  }

  lemma LbaIs(g: Geo, c: int)
    ensures g.Lba(c) == g.reserved + g.nfats * g.fatSectors + g.rootSectors + (c - 2) * g.spc
  {
  }

  lemma SecIs(g: Geo, d: Disk, c: nat, s: nat)
    requires 0 <= g.Lba(c) + s < |d|
    ensures Sec(g, d, c, s) == d[g.Lba(c) + s]
  {
    hide Geo.Lba;
  }

  /** Byte o of sector s of the cluster at index q of a file's chain. */
  lemma FileByte(g: Geo, d: Disk, chain: seq<nat>, size: nat, q: nat, s: nat, o: nat)
    requires GeoOk(g) && Fits(g, d) && q < |chain| && s < g.spc && o < 512
    requires forall i | 0 <= i < |chain| :: 2 <= chain[i] < g.total + 2
    ensures var w := FileBytes(Body(g, d, chain), size);
            var p := (q * g.spc + s) * 512 + o;
            var l := g.reserved + g.nfats * g.fatSectors + g.rootSectors + (chain[q] - 2) * g.spc + s;
            && |w| == (if size <= |chain| * g.spc * 512 then size else |chain| * g.spc * 512)
            && 0 <= p < |chain| * g.spc * 512 && 0 <= l < |d| && (p < size ==> w[p] == d[l][o])
  {
    hide *;
    InTables(g, chain);
    BodySector(g, d, chain, q, s);
    SectorsIs(g, q);
    SectorsIs(g, |chain|);
    NonNeg(q, g.spc);
    ContentIs(g, d, chain, size);
    NonNeg(|chain|, g.spc);
    ByteIs(Body(g, d, chain), size, q * g.spc + s, o);
  }

  /** The sector at that place of a chain's body. */
  lemma BodySector(g: Geo, d: Disk, chain: seq<nat>, q: nat, s: nat)
    requires GeoOk(g) && Fits(g, d) && Clusters(g, chain) && q < |chain| && s < g.spc
    ensures var l := g.reserved + g.nfats * g.fatSectors + g.rootSectors + (chain[q] - 2) * g.spc + s;
            && |Body(g, d, chain)| == |chain| * g.spc && 0 <= q * g.spc + s < |chain| * g.spc && 0 <= l < |d|
            && Body(g, d, chain)[q * g.spc + s] == d[l]
  {
    hide *;
    PlaceInFile(g, d, chain, q, s);
    SectorsIs(g, q);
    SectorsIs(g, |chain|);
    NonNeg(q, g.spc);
    LbaIs(g, chain[q]);
    RootIs(g);
    NonNeg(g.nfats, g.fatSectors);
  }

  lemma InTables(g: Geo, chain: seq<nat>)
    requires forall i | 0 <= i < |chain| :: 2 <= chain[i] < g.total + 2
    ensures Clusters(g, chain)
  {
  }

  lemma SectorsIs(g: Geo, n: nat)
    ensures Sectors(g, n) == n * g.spc
  {
  }

  lemma ByteIs(body: seq<Sector>, size: nat, q: nat, o: nat)
    requires q < |body| && o < 512
    ensures |FileBytes(body, size)| == if size <= 512 * |body| then size else 512 * |body|
    ensures q * 512 + o < size ==> FileBytes(body, size)[q * 512 + o] == body[q][o]
  {
    assert (q * 512 + o) / 512 == q;
  }

  // ----- folder entries

  /** The entry in 32 bytes: the name, the attributes, the cluster's high half on
      FAT32, its low half, and the size, each the lowest byte first. */
  lemma EntryRead(f32: bool, b: seq<byte>)
    requires |b| == 32
    ensures var e := DecodeBytes(f32, b);
            && e.name == b[0..11] && e.attr == b[11]
            && e.cluster == (b[26] as int) + 0x100 * (b[27] as int)
                            + (if f32 then 0x1_0000 * (b[20] as int) + 0x100_0000 * (b[21] as int) else 0)
            && e.size == (b[28] as int) + 0x100 * (b[29] as int) + 0x1_0000 * (b[30] as int)
                         + 0x100_0000 * (b[31] as int)
  {
    assert b[..11] == b[0..11];
  }

  /** The entry stored for a name: what a search reads back, and zeros in the
      twelve bytes, fourteen on FAT16, that hold nothing else. */
  lemma EntryStored(f32: bool, name: Name, attr: byte, cluster: nat, size: nat)
    requires size < 0x1_0000_0000 && cluster < if f32 then 0x1_0000_0000 else 0x1_0000
    ensures var b := EntBytes(f32, name, attr, cluster, size);
            && b[0..11] == name && b[11] == attr
            && (b[26] as int) + 0x100 * (b[27] as int) + 0x1_0000 * (b[20] as int) + 0x100_0000 * (b[21] as int) ==
               cluster
            && (b[28] as int) + 0x100 * (b[29] as int) + 0x1_0000 * (b[30] as int) + 0x100_0000 * (b[31] as int) == size
            && (forall i | 12 <= i < 20 || 22 <= i < 26 :: b[i] == 0)
            && (!f32 ==> b[20] == 0 && b[21] == 0)
  {
    hide EntBytes;
    hide DecodeBytes;
    DecodeEncoded(f32, name, attr, cluster, size);
    var b := EntBytes(f32, name, attr, cluster, size);
    EntryRead(f32, b);
    Blanks(f32, name, attr, cluster, size);
  }

  lemma Blanks(f32: bool, name: Name, attr: byte, cluster: nat, size: nat)
    ensures var b := EntBytes(f32, name, attr, cluster, size);
            (forall i | 12 <= i < 20 || 22 <= i < 26 :: b[i] == 0) && (!f32 ==> b[20] == 0 && b[21] == 0)
  {
  }

  /** The first sector of a new folder, entry by entry: ".", "..", and zeros. */
  lemma DotBytes(f32: bool, self: nat, parent: nat)
    requires self < U32 && parent < U32 && (!f32 ==> self < 0x1_0000 && parent < 0x1_0000)
    ensures var s := DotSector(f32, self, parent);
            && s[0..32] == EntBytes(f32, [0x2E, 32, 32, 32, 32, 32, 32, 32, 32, 32, 32], 0x10, self, 0)
            && s[32..64] == EntBytes(f32, [0x2E, 0x2E, 32, 32, 32, 32, 32, 32, 32, 32, 32], 0x10, parent, 0)
            && forall i | 64 <= i < 512 :: s[i] == 0
  {
    hide EntBytes;
    var a, b := EntBytes(f32, DOT, ATTR_DIR, self, 0), EntBytes(f32, DOTDOT, ATTR_DIR, parent, 0);
    var s := DotSector(f32, self, parent);
    assert s[0..32] == a;
    assert s[32..64] == b;
  }

  // ----- folders

  /** A folder with a chain is searched in its first 256 sectors: slot i of sector
      s of the cluster at index q. */
  lemma FolderSlot(g: Geo, d: Disk, f: nat, chain: seq<nat>, q: nat, s: nat, i: nat)
    requires GeoOk(g) && Fits(g, d) && (f != 0 || g.fat32)
    requires chain == DiskChain(g, d, if f == 0 then g.rootCluster else f)
    requires q < |chain| && s < g.spc && i < 16
    ensures var n := q * g.spc + s;
            var l := g.reserved + g.nfats * g.fatSectors + g.rootSectors + (chain[q] - 2) * g.spc + s;
            && |DiskSlots(g, d, f)| == 16 * (if |chain| * g.spc <= 256 then |chain| * g.spc else 256)
            && 0 <= n && 0 <= l < |d|
            && (n < 256 ==> 16 * n + i < |DiskSlots(g, d, f)| &&
                            DiskSlots(g, d, f)[16 * n + i] == DecodeBytes(g.fat32, d[l][32 * i..32 * i + 32]))
  {
    hide *;
    OrbitTables(g, d, if f == 0 then g.rootCluster else f);
    BodySector(g, d, chain, q, s);
    NonNeg(q, g.spc);
    NonNeg(|chain|, g.spc);
    FolderSlotsAre(g, d, f, chain);
    SlotIs(g.fat32, Body(g, d, chain), q * g.spc + s, i);
  }

  lemma OrbitTables(g: Geo, d: Disk, c: nat)
    ensures Clusters(g, DiskChain(g, d, c))
  {
    hide FatGet;
    OrbitFacts(Table(g, d), c, {});
    hide Orbit;
    hide Table;
  }

  lemma FolderSlotsAre(g: Geo, d: Disk, f: nat, chain: seq<nat>)
    requires f != 0 || g.fat32
    requires chain == DiskChain(g, d, if f == 0 then g.rootCluster else f)
    ensures var all := Slots(g.fat32, Body(g, d, chain));
            DiskSlots(g, d, f) == if |all| <= 4096 then all else all[..4096]
  {
    hide Slots;
    hide Body;
    hide DiskChain;
  }

  lemma SlotIs(f32: bool, body: seq<Sector>, n: nat, i: nat)
    requires n < |body| && i < 16
    ensures |Slots(f32, body)| == 16 * |body|
    ensures Slots(f32, body)[16 * n + i] == DecodeBytes(f32, body[n][32 * i..32 * i + 32])
  {
    hide DecodeBytes;
    SlotsFrom(f32, body, 16 * n + i);
    hide Slots;
  }

  /** The root folder of a FAT16 volume: slot i of its sector n. */
  lemma RootSlot(g: Geo, d: Disk, n: nat, i: nat)
    requires GeoOk(g) && Fits(g, d) && !g.fat32 && n < g.rootSectors && i < 16
    ensures var l := g.reserved + g.nfats * g.fatSectors + n;
            && |DiskSlots(g, d, 0)| == 16 * g.rootSectors && 0 <= l < |d|
            && DiskSlots(g, d, 0)[16 * n + i] == DecodeBytes(false, d[l][32 * i..32 * i + 32])
  {
    hide *;
    RootIs(g);
    FitsIs(g, d);
    NonNeg(g.total, g.spc);
    NonNeg(g.nfats, g.fatSectors);
    RootSlotsAre(g, d);
    SlotIs(false, d[g.RootStart()..g.DataStart()], n, i);
  }

  lemma RootSlotsAre(g: Geo, d: Disk)
    requires !g.fat32 && g.DataStart() <= |d|
    ensures DiskSlots(g, d, 0) == Slots(false, d[g.RootStart()..g.DataStart()])
  {
    hide Slots;
    hide DiskChain;
    hide Geo.RootStart;
  }

  // ----- searches

  lemma {:induction false} Stops(s: seq<Ent>, want: Name, filesOnly: bool, i: nat)
    requires i <= |s|
    ensures var k := FindFrom(s, want, filesOnly, i);
            k < |s| ==> i <= k && Matches(s[k], want, filesOnly) && forall j | i <= j < k ::
              Passed(s[j], want, filesOnly)
    decreases |s| - i
  {
    if i < |s| && s[i].name[0] != END && !Matches(s[i], want, filesOnly) {
      hide Matches;
      Stops(s, want, filesOnly, i + 1);
    }
  }

  lemma MatchBytes(e: Ent, want: Name, filesOnly: bool)
    ensures Matches(e, want, filesOnly) <==>
            && e.name == want && want[0] != 0 && want[0] != 0xE5
            && (e.attr as int) / 8 % 2 == 0 && (filesOnly ==> (e.attr as int) / 16 % 2 == 0)
    ensures Passed(e, want, filesOnly) <==> e.name[0] != 0 && !Matches(e, want, filesOnly)
  {
  }

  /** A search finds the first slot of the name that is no volume label, and no
      folder when it is for files, unless a zero byte comes first. */
  lemma FoundBytes(s: seq<Ent>, want: Name, filesOnly: bool, k: nat)
    requires k < |s|
    ensures FindFrom(s, want, filesOnly, 0) == k <==>
            && s[k].name == want && want[0] != 0 && want[0] != 0xE5
            && (s[k].attr as int) / 8 % 2 == 0 && (filesOnly ==> (s[k].attr as int) / 16 % 2 == 0)
            && forall j | 0 <= j < k ::
                 s[j].name[0] != 0 &&
                 (s[j].name != want || want[0] == 0xE5 || (s[j].attr as int) / 8 % 2 == 1 ||
                  (filesOnly && (s[j].attr as int) / 16 % 2 == 1))
  {
    hide *;
    Stops(s, want, filesOnly, 0);
    forall j | 0 <= j < |s|
      ensures Passed(s[j], want, filesOnly) <==> s[j].name[0] != 0 && !Matches(s[j], want, filesOnly)
      ensures Matches(s[j], want, filesOnly) <==>
              && s[j].name == want && want[0] != 0 && want[0] != 0xE5
              && (s[j].attr as int) / 8 % 2 == 0 && (filesOnly ==> (s[j].attr as int) / 16 % 2 == 0)
    {
      MatchBytes(s[j], want, filesOnly);
    }
    if Matches(s[k], want, filesOnly) && forall j | 0 <= j < k :: Passed(s[j], want, filesOnly) {
      FindPast(s, want, filesOnly, 0, k);
      FindHere(s, want, filesOnly, k);
    }
  }

  /** A new entry goes where the first byte is 0xE5 or zero. */
  lemma FreeBytes(s: seq<Ent>, k: nat)
    requires k <= |s|
    ensures FreeFrom(s, 0) == k <==>
            && (k < |s| ==> s[k].name[0] == 0xE5 || s[k].name[0] == 0)
            && forall j | 0 <= j < k :: s[j].name[0] != 0xE5 && s[j].name[0] != 0
  {
  }

  /** The parent is read from the first slot named "..". */
  lemma DotDotBytes(s: seq<Ent>, k: nat)
    requires k <= |s|
    ensures DotDotFrom(s, 0) == k <==>
            && (k < |s| ==> s[k].name == [0x2E, 0x2E, 32, 32, 32, 32, 32, 32, 32, 32, 32])
            && forall j | 0 <= j < k :: s[j].name != [0x2E, 0x2E, 32, 32, 32, 32, 32, 32, 32, 32, 32]
  {
  }

  /** What a name leads to: the folder at the cluster of the slot found, or the
      file on its chain; nothing for "." and "..", and for a name not found. */
  lemma LookupBytes(g: Geo, d: Disk, f: nat, n: Name)
    ensures var s := DiskSlots(g, d, f); var k := FindFrom(s, n, false, 0);
            var dot := n[0] == 0x2E && (n[1] == 0x2E || n[1] == 32) && forall i | 2 <= i < 11 :: n[i] == 32;
            Lookup(g, d, f, n) ==
            if dot || k == |s| then Absent
            else if (s[k].attr as int) / 16 % 2 == 1 then FolderNode(s[k].cluster)
            else FileNode(FileBytes(Body(g, d, DiskChain(g, d, s[k].cluster)), s[k].size))
  {
    hide *;
    LookupIs(g, d, f, n);
    FindIs(DiskSlots(g, d, f), n);
    DotNames(n);
    var s := DiskSlots(g, d, f);
    if FindFrom(s, n, false, 0) < |s| { NodeBytes(g, d, s[FindFrom(s, n, false, 0)]); }
  }

  lemma FindIs(s: seq<Ent>, n: Name)
    ensures Find(s, n) == FindFrom(s, n, false, 0) <= |s|
  {
    hide FindFrom;
  }

  lemma DotNames(n: Name)
    ensures IsDot(n) <==> n[0] == 0x2E && (n[1] == 0x2E || n[1] == 32) && forall i | 2 <= i < 11 :: n[i] == 32
  {
    if n[0] == 0x2E && (n[1] == 0x2E || n[1] == 32) && forall i | 2 <= i < 11 :: n[i] == 32 {
      if n[1] == 32 { assert n == DOT; } else { assert n == DOTDOT; }
    }
  }

  lemma NodeBytes(g: Geo, d: Disk, e: Ent)
    ensures NodeOf(g, d, e) ==
            if (e.attr as int) / 16 % 2 == 1 then FolderNode(e.cluster)
            else FileNode(FileBytes(Body(g, d, DiskChain(g, d, e.cluster)), e.size))
  {
    hide FileBytes;
    hide Body;
    hide DiskChain;
  }

  // ----- the boot sector

  lemma SectorSize(b: Sector)
    ensures Rd16(b, 11) == 512 <==> b[11] == 0 && b[12] == 2
  {
  }

  /** The boot sectors fat_mount takes. */
  lemma BootTaken(b: Sector)
    ensures var fat16: nat := (b[22] as int) + 0x100 * (b[23] as int);
            var fat32: nat := (b[36] as int) + 0x100 * (b[37] as int) + 0x1_0000 * (b[38] as int)
                              + 0x100_0000 * (b[39] as int);
            var roots: nat := (b[17] as int) + 0x100 * (b[18] as int);
            var head: nat := (b[44] as int) + 0x100 * (b[45] as int) + 0x1_0000 * (b[46] as int)
                             + 0x100_0000 * ((b[47] as int) % 16);
            Accepted(b) <==>
            && b[11] == 0 && b[12] == 2 && b[13] != 0 && b[16] != 0
            && (fat16 != 0 || (1 <= fat32 <= 0x20_0000 && roots == 0 && head >= 2))
  {
    hide *;
    SectorSize(b);
    Words(b, 17);
    Words(b, 22);
    Words(b, 36);
    HighByte(b, 44);
    AcceptedIs(b);
  }

  /** The layout fat_mount works out. */
  lemma BootLayout(b: Sector)
    requires b[13] != 0
    ensures var fat16: nat := (b[22] as int) + 0x100 * (b[23] as int);
            var fat32: nat := (b[36] as int) + 0x100 * (b[37] as int) + 0x1_0000 * (b[38] as int)
                              + 0x100_0000 * (b[39] as int);
            var roots: nat := (b[17] as int) + 0x100 * (b[18] as int);
            var g := BootGeo(b);
            && g.spc == b[13] as int && g.reserved == (b[14] as int) + 0x100 * (b[15] as int)
            && g.nfats == b[16] as int && g.fatSectors == (if fat16 != 0 then fat16 else fat32)
            && g.rootSectors == (32 * roots + 511) / 512 && g.fat32 == (fat16 == 0)
  {
    hide *;
    Words(b, 14);
    Words(b, 17);
    Words(b, 22);
    Words(b, 36);
    AcceptedIs(b);
    BootGeoIs(b);
  }

  lemma BootRoot(b: Sector)
    requires b[13] != 0 && b[22] == 0 && b[23] == 0
    ensures BootGeo(b).rootCluster == (b[44] as int) + 0x100 * (b[45] as int) + 0x1_0000 * (b[46] as int)
                                      + 0x100_0000 * ((b[47] as int) % 16)
    ensures BootGeo(b).fsinfoLba == (b[48] as int) + 0x100 * (b[49] as int)
  {
    hide *;
    Words(b, 22);
    Words(b, 48);
    HighByte(b, 44);
    BootGeoIs(b);
  }

  /** And its clusters: as many as the sectors left hold, but no more than one
      FAT has entries for. */
  lemma BootClusters(b: Sector)
    requires b[13] != 0
    ensures var small: nat := (b[19] as int) + 0x100 * (b[20] as int);
            var large: nat := (b[32] as int) + 0x100 * (b[33] as int) + 0x1_0000 * (b[34] as int)
                              + 0x100_0000 * (b[35] as int);
            var g := BootGeo(b);
            var left: int := (if small != 0 then small else large)
                             - (g.reserved + g.nfats * g.fatSectors + g.rootSectors);
            var room := g.fatSectors * (if g.fat32 then 128 else 256) - 2;
            g.total == if left <= 0 || room <= 0 then 0
              else if left / (b[13] as int) <= room then left / (b[13] as int) else room
  {
    hide *;
    Words(b, 19);
    Words(b, 32);
    BootGeoIs(b);
  }

  // ----- FSInfo

  /** An FSInfo sector is a reserved one with both signatures, and its free count,
      when exact, is the number of zero entries. */
  lemma FsinfoBytes(g: Geo, d: Disk)
    ensures FsPresent(g, d) <==>
            && g.fat32 && 1 <= g.fsinfoLba < g.reserved && g.fsinfoLba < |d|
            && var b := d[g.fsinfoLba];
               && b[0] == 0x52 && b[1] == 0x52 && b[2] == 0x61 && b[3] == 0x41
               && b[484] == 0x72 && b[485] == 0x72 && b[486] == 0x41 && b[487] == 0x61
    ensures FsPresent(g, d) && FsExact(g, d) ==>
            var b := d[g.fsinfoLba];
            (b[488] as int) + 0x100 * (b[489] as int) + 0x1_0000 * (b[490] as int) + 0x100_0000 * (b[491] as int) ==
            |set x | 2 <= x < |Table(g, d)| && Table(g, d)[x] == 0|
  {
    hide Rd32;
    hide Table;
    if g.fsinfoLba < |d| {
      FsWords(d[g.fsinfoLba]);
      Words(d[g.fsinfoLba], 488);
    }
  }

  /** An allocated cluster is the free one met first, from the hint up and round. */
  lemma NearestMeans(t: seq<nat>, hint: nat, total: nat, c: nat, x: nat)
    requires NearestFree(t, hint, total, c) && 2 <= x < |t| && t[x] == 0
    ensures total > 0 && (c - 2 - hint) % total <= (x - 2 - hint) % total
  {
  }
}
