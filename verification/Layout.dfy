/** Where things are on the volume: the geometry fat_mount works out from the
    boot sector, and the arithmetic facts every later write relies on. */
module Layout {
  import opened Arith
  import opened Bytes

  datatype Geo = Geo(
    spc: nat, reserved: nat, nfats: nat, rootSectors: nat, fatSectors: nat,
    fat32: bool, rootCluster: nat, fsinfoLba: nat, total: nat)
  {
    /** Bytes of one FAT entry, and the entries one FAT sector holds. */
    function W(): nat { if fat32 then 4 else 2 }
    function Per(): (r: nat)
      ensures r > 0
    {
      if fat32 then 128 else 256
    }
    function Modulus(): (r: nat)
      ensures r > 0
    {
      if fat32 then 0x1000_0000 else 0x1_0000
    }
    function Eoc(): nat { if fat32 then 0x0FFF_FFF8 else 0xFFF8 }
    function EocMark(): nat { if fat32 then 0x0FFF_FFFF else 0xFFFF }
    function BadMark(): nat { if fat32 then 0x0FFF_FFF7 else 0xFFF7 }
    function RootStart(): nat { reserved + nfats * fatSectors }
    function DataStart(): nat { RootStart() + rootSectors }
    /** One past the last cluster number. */
    function Limit(): nat { total + 2 }
    /** FAT sectors that hold entries of real clusters. */
    function Rows(): nat { (Limit() * W() + 511) / 512 }
    function CopyLba(copy: nat, row: nat): nat { reserved + copy * fatSectors + row }
    /** Sector of a cluster, in unbounded arithmetic. */
    function Lba(c: int): int { DataStart() + (c - 2) * spc }
  }

  /** The geometry facts the volume theorems need.  Mount checks all of them
      but two: reserved >= 1 and Limit() <= BadMark() (see MountSound). */
  ghost predicate GeoOk(g: Geo) {
    && 1 <= g.spc < 256 && 1 <= g.reserved < 0x1_0000 && 1 <= g.nfats < 256 && 1 <= g.fatSectors <= 0x20_0000
    && g.Limit() <= g.BadMark()
    && g.Limit() <= g.fatSectors * g.Per()
    && (g.fat32 ==> g.rootSectors == 0 && g.rootCluster >= 2)
    && (g.total == 0 || g.DataStart() + g.total * g.spc < U32)
    && g.DataStart() < U32
  }

  /** The device is at least as long as the volume. */
  ghost predicate Fits(g: Geo, d: Disk) {
    g.DataStart() + g.total * g.spc <= |d|
  }

  predicate InTable(g: Geo, c: int) { 2 <= c < g.Limit() }

  /** The reserved sectors and the first FAT copy lie below the root folder. */
  lemma RootAbove(g: Geo)
    requires GeoOk(g)
    ensures 1 <= g.reserved < g.reserved + g.fatSectors <= g.RootStart() <= g.DataStart()
  {
    CopyInside(g, 0, g.fatSectors - 1);
  }

  lemma CopiesExist(g: Geo)
    requires GeoOk(g)
    ensures g.nfats > 0
  {
  }

  lemma CopyInside(g: Geo, copy: nat, row: nat)
    requires GeoOk(g) && copy < g.nfats && row < g.fatSectors
    ensures g.reserved <= g.CopyLba(copy, row) < g.RootStart()
    ensures copy == 0 ==> g.CopyLba(copy, row) == g.reserved + row
    ensures copy > 0 ==> g.CopyLba(copy, row) >= g.reserved + g.fatSectors
  {
    Scale(copy, row, g.nfats, g.fatSectors);
    if copy > 0 { Scale(0, 0, copy, g.fatSectors); }
  }

  lemma CopiesApart(g: Geo, f0: nat, r0: nat, f1: nat, r1: nat)
    requires GeoOk(g) && f0 < g.nfats && f1 < g.nfats && r0 < g.fatSectors && r1 < g.fatSectors
    requires f0 != f1 || r0 != r1
    ensures g.CopyLba(f0, r0) != g.CopyLba(f1, r1)
  {
    Apart(f0, r0, f1, r1, g.fatSectors);
  }

  /** Every in-range cluster's sectors lie in the data area, with no 32-bit wrap. */
  lemma ClusterInside(g: Geo, c: nat, s: nat)
    requires GeoOk(g) && InTable(g, c) && s < g.spc
    ensures g.DataStart() <= g.Lba(c) + s < g.DataStart() + g.total * g.spc < U32
    ensures Wrap(g.DataStart() + Wrap(c - 2) * g.spc) == g.Lba(c)
  {
    Scale(c - 2, s, g.total, g.spc);
    hide Geo.DataStart;
    hide Geo.Per;
    hide Geo.BadMark;
    WrapIn(c - 2);
    WrapIn(g.Lba(c));
  }

  lemma WrapIn(x: int)
    requires 0 <= x < U32
    ensures Wrap(x) == x
  {
  }

  /** Different places in the data area are different sectors. */
  lemma ClustersApart(g: Geo, c0: nat, s0: nat, c1: nat, s1: nat)
    requires GeoOk(g) && s0 < g.spc && s1 < g.spc
    requires c0 != c1 || s0 != s1
    ensures g.Lba(c0) + s0 != g.Lba(c1) + s1
  {
    Apart(c0 - 2, s0, c1 - 2, s1, g.spc);
  }

  /** The FAT sector and offset of an in-range entry, as fat_entry_read and
      fat_entry_write compute them. */
  lemma EntryPlace(g: Geo, c: nat)
    requires GeoOk(g) && c < g.Limit()
    ensures Wrap(c * g.W()) == c * g.W()
    ensures c * g.W() / 512 == c / g.Per() < g.Rows() <= g.fatSectors
    ensures c * g.W() % 512 == c % g.Per() * g.W()
    ensures Wrap(g.reserved + c * g.W() / 512) == g.reserved + c / g.Per()
  {
    hide *;
    EntryHalves(g, c);
    RowOfEntry(g, c);
    WordsFit(g, c);
  }

  lemma EntryHalves(g: Geo, c: nat)
    ensures c * g.W() / 512 == c / g.Per()
    ensures c * g.W() % 512 == c % g.Per() * g.W()
  {
    if g.fat32 {
      assert c * 4 / 512 == c / 128;
    } else {
      assert c * 2 / 512 == c / 256;
    }
  }

  lemma RowOfEntry(g: Geo, c: nat)
    requires GeoOk(g) && c < g.Limit()
    ensures c / g.Per() < g.Rows() <= g.fatSectors
  {
    if g.fat32 {
      assert g.Limit() <= g.fatSectors * 128;
    } else {
      assert g.Limit() <= g.fatSectors * 256;
    }
  }

  lemma WordsFit(g: Geo, c: nat)
    requires GeoOk(g) && c < g.Limit() && c * g.W() / 512 == c / g.Per() < g.fatSectors
    ensures Wrap(c * g.W()) == c * g.W()
    ensures Wrap(g.reserved + c * g.W() / 512) == g.reserved + c / g.Per()
  {
    assert c < 0x1000_0000;
  }
}
