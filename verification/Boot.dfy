/** fat_mount's reading of the boot sector: which ones it takes, the geometry it
    works out, and when that geometry is sound. */
module Boot {
  import opened Arith
  import opened Bytes
  import opened Layout
  import opened Folders
  import opened Walks

  function FatSize(b: Sector): nat { if Rd16(b, 22) != 0 then Rd16(b, 22) else Rd32(b, 36) }
  function TotalSectors(b: Sector): nat { if Rd16(b, 19) != 0 then Rd16(b, 19) else Rd32(b, 32) }

  /** The boot sectors fat_mount takes. */
  predicate Accepted(b: Sector) {
    && Rd16(b, 11) == 512 && b[13] != 0 && b[16] != 0 && FatSize(b) != 0
    && (Rd16(b, 22) == 0 ==> Rd16(b, 17) == 0 && Rd32(b, 44) % 0x1000_0000 >= 2 && FatSize(b) <= 0x20_0000)
  }

  /** The layout the boot sector describes, in unbounded arithmetic: as many
      clusters as the sectors allow, but no more than one FAT has entries for. */
  function GeoWith(b: Sector, total: nat): Geo {
    var wide := Rd16(b, 22) == 0;
    Geo(b[13], Rd16(b, 14), b[16], (Rd16(b, 17) * 32 + 511) / 512, FatSize(b), wide,
        if wide then Rd32(b, 44) % 0x1000_0000 else 0, if wide then Rd16(b, 48) else 0, total)
  }

  function BootGeo(b: Sector): Geo
    requires b[13] != 0
  {
    var start, per := GeoWith(b, 0).DataStart(), GeoWith(b, 0).Per();
    var fits := if TotalSectors(b) > start then (TotalSectors(b) - start) / b[13] else 0;
    var room := if FatSize(b) * per >= 2 then FatSize(b) * per - 2 else 0;
    GeoWith(b, Least(fits, room))
  }

  lemma FatSizeSmall(b: Sector)
    requires Accepted(b)
    ensures 1 <= FatSize(b) <= 0x20_0000
  {
    hide Rd32;
    hide Rd16;
  }

  /** b[16] FAT copies and the root folder fit 32 bits with room to spare. */
  lemma StartSmall(b: Sector)
    requires Accepted(b)
    ensures GeoWith(b, 0).DataStart() < U32 && b[16] * FatSize(b) < 0x4000_0000
  {
    hide Rd32;
    hide Rd16;
    FatSizeSmall(b);
    var n: int, f: int := b[16], FatSize(b);
    assert n * f <= 255 * 0x20_0000 by {
      Dist(n, 255 - n, f);
      NonNeg(255 - n, f);
    }
    assert Rd16(b, 14) < 0x1_0000 && Rd16(b, 17) < 0x1_0000;
  }

  /** What the clamp and the division leave: every cluster has an entry in the
      FAT and sectors on the volume, and no sector number wraps. */
  lemma BootRoom(b: Sector)
    requires Accepted(b)
    ensures BootGeo(b).Limit() <= BootGeo(b).fatSectors * BootGeo(b).Per()
    ensures BootGeo(b).total > 0 ==> BootGeo(b).DataStart() + BootGeo(b).total * BootGeo(b).spc <= TotalSectors(b)
    ensures BootGeo(b).DataStart() == GeoWith(b, 0).DataStart()
  {
    hide Rd32;
    hide Rd16;
    FatSizeSmall(b);
    EntriesFit(GeoWith(b, 0));
    SpcPositive(b);
    hide Accepted;
    var start: int, spc: int := GeoWith(b, 0).DataStart(), b[13];
    var left := TotalSectors(b) - start;
    if left > 0 {
      var fits := left / spc;
      assert fits * spc <= left;
      var total: int := BootGeo(b).total;
      Dist(total, fits - total, spc);
      NonNeg(fits - total, spc);
    }
  }

  lemma SpcPositive(b: Sector)
    requires Accepted(b)
    ensures b[13] > 0
  {
    hide Rd32;
    hide Rd16;
  }

  /** The geometry of a boot sector fat_mount takes is sound if and only if there
      is a reserved sector and no cluster number reaches the bad mark. */
  lemma MountSound(b: Sector)
    requires Accepted(b)
    ensures var g := BootGeo(b);
            GeoOk(g) <==> g.reserved >= 1 && g.total + 2 <= if g.fat32 then 0x0FFF_FFF7 else 0xFFF7
  {
    FatSizeSmall(b);
    StartSmall(b);
    BootRoom(b);
    BootFields(b);
    EntriesFit(BootGeo(b));
    hide BootGeo;
    hide GeoWith;
    hide FatSize;
    hide TotalSectors;
    hide Rd32;
    hide Rd16;
    TotalSmall(b);
  }

  lemma TotalSmall(b: Sector)
    ensures TotalSectors(b) < U32
  {
    hide Rd32;
    hide Rd16;
  }

  lemma EntriesFit(g: Geo)
    requires g.fatSectors >= 1
    ensures g.fatSectors * g.Per() >= 2
  {
  }

  lemma BootFields(b: Sector)
    requires Accepted(b)
    ensures var g := BootGeo(b);
            && g.spc == b[13] > 0 && g.reserved == Rd16(b, 14) < 0x1_0000 && g.nfats == b[16] > 0
               && g.fatSectors == FatSize(b)
            && (g.fat32 ==> g.rootSectors == 0 && g.rootCluster >= 2)
  {
    hide Rd32;
  }

  /** A FAT16 boot sector with 512-byte sectors, one-sector clusters, one FAT of
      256 sectors, 512 root entries and 131072 sectors in all. */
  function LargeFat16(reserved: byte): Sector {
    ZeroSector()[12 := 2][13 := 1][14 := reserved][16 := 1][18 := 2][23 := 1][34 := 2]
  }

  lemma LargeFat16Fields(reserved: byte)
    ensures var b := LargeFat16(reserved);
            && Rd16(b, 11) == 512 && b[13] == 1 && Rd16(b, 14) == reserved && b[16] == 1 && Rd16(b, 17) == 512
            && Rd16(b, 19) == 0 && Rd16(b, 22) == 256 && Rd32(b, 32) == 0x2_0000
  {
  }

  /** fat_mount takes a FAT16 volume with clusters past the bad mark: cluster
      0xFFF8 may be allocated, and a link to it reads as the end of a chain. */
  lemma TooManyClusters()
    ensures var b := LargeFat16(1);
            Accepted(b) && InTable(BootGeo(b), 0xFFF8) && Follow(BootGeo(b), 0xFFF8) == 0 && !GeoOk(BootGeo(b))
  {
    LargeFat16Fields(1);
    var b := LargeFat16(1);
    hide LargeFat16;
    hide Rd32;
    hide Rd16;
    assert FatSize(b) == 256 && TotalSectors(b) == 0x2_0000;
    assert GeoWith(b, 0).DataStart() == 289;
    assert BootGeo(b).total == 65534;
  }

  /** And one without reserved sectors, whose first FAT row is the boot sector. */
  lemma NoReservedSector()
    ensures var b := LargeFat16(0);
            Accepted(b) && BootGeo(b).CopyLba(0, 0) == 0 && !GeoOk(BootGeo(b))
  {
    LargeFat16Fields(0);
    var b := LargeFat16(0);
    hide LargeFat16;
    hide Rd32;
    hide Rd16;
    assert FatSize(b) == 256;
  }

  /** Where the data area starts, as 32-bit variables work it out. */
  method Starts(reserved: nat, nfats: nat, fatSectors: nat, rootEntries: nat) returns (rootSectors: nat, dataStart: nat)
    requires reserved < 0x1_0000 && rootEntries < 0x1_0000 && nfats * fatSectors < 0x4000_0000
    ensures rootSectors == (rootEntries * 32 + 511) / 512 && dataStart == reserved + nfats * fatSectors + rootSectors
  {
    hide *;
    var fats: nat := nfats * fatSectors;
    WrapSame(fats);
    WrapSame(reserved + fats);
    WrapSame(rootEntries * 32);
    WrapSame(rootEntries * 32 + 511);
    WrapSame(reserved + fats + (rootEntries * 32 + 511) / 512);
    var rootStart := Wrap(reserved + Wrap(fats));
    rootSectors := Wrap(Wrap(rootEntries * 32) + 511) / 512;
    dataStart := Wrap(rootStart + rootSectors);
  }

  /** The variables of the layout that fat_mount sets before it knows whether it
      takes the boot sector; the others, the start of the data area and the number
      of clusters among them, are set after that. */
  datatype Fields = Fields(spc: nat, reserved: nat, nfats: nat, fatSectors: nat, fat32: bool, rootCluster: nat,
    fsinfoLba: nat)

  /** They say what the mounted geometry says. */
  predicate Intact(g: Geo, v: Fields) {
    && v.spc == g.spc && v.reserved == g.reserved && v.nfats == g.nfats && v.fatSectors == g.fatSectors
       && v.fat32 == g.fat32
    && (g.fat32 ==> v.rootCluster == g.rootCluster && v.fsinfoLba == g.fsinfoLba)
  }

  /** What reading boot sector b makes of them; a FAT16 one leaves the last two. */
  function FieldsRead(was: Fields, b: Sector): Fields {
    var wide := Rd16(b, 22) == 0;
    Fields(b[13], Rd16(b, 14), b[16], if wide then Rd32(b, 36) else Rd16(b, 22), wide,
           if wide then Rd32(b, 44) % 0x1000_0000 else was.rootCluster, if wide then Rd16(b, 48) else was.fsinfoLba)
  }

  /** Refused by the FAT32 test, before the end marks and the FSInfo state are set. */
  predicate RefusedEarly(b: Sector) {
    Rd16(b, 22) == 0 && (Rd16(b, 17) != 0 || Rd32(b, 44) % 0x1000_0000 < 2 || Rd32(b, 36) > 0x20_0000)
  }

  lemma MountIntact(was: Fields, b: Sector)
    requires Accepted(b)
    ensures Intact(BootGeo(b), FieldsRead(was, b))
  {
    SpcPositive(b);
    hide Rd32;
    hide Rd16;
    hide Accepted;
  }

  /** When the boot sector read names the layout that is mounted, fat_mount takes
      it if and only if its sectors have 512 bytes and, on FAT32, its count of
      root entries is zero.  A sector refused for anything else leaves variables
      of another volume to a driver that still counts as mounted. */
  lemma RemountTaken(g: Geo, was: Fields, b: Sector)
    requires GeoOk(g) && Intact(g, FieldsRead(was, b))
    ensures Accepted(b) <==> Rd16(b, 11) == 512 && (g.fat32 ==> Rd16(b, 17) == 0)
  {
    hide Rd32;
    hide Rd16;
  }

  /** A refused sector of zeros leaves a cluster size of zero, which the next
      walk of a folder divides by. */
  lemma RemountZeros(g: Geo, was: Fields)
    requires GeoOk(g)
    ensures !Accepted(ZeroSector()) && FieldsRead(was, ZeroSector()).spc == 0
            && !Intact(g, FieldsRead(was, ZeroSector()))
  {
  }

  /** fat_mount up to the recovery: the fields as 32-bit variables hold them. */
  method ReadBoot(b: Sector, was: Fields) returns (ok: bool, late: bool, fields: Fields, g: Geo)
    ensures ok == Accepted(b) && (ok ==> g == BootGeo(b))
    ensures fields == FieldsRead(was, b) && late == !RefusedEarly(b)
  {
    hide *;
    AcceptedIs(b);
    FieldsAre(was, b);
    ok, late, g := false, false, Geo(1, 1, 1, 0, 1, false, 0, 0, 0);
    var bytesPerSector: nat, spc: nat, reserved: nat, nfats: nat, rootEntries: nat := Rd16(b, 11), b[13], Rd16(b, 14),
      b[16], Rd16(b, 17);
    var fatSectors: nat, rootCluster: nat, fsinfoLba: nat := Rd16(b, 22), 0, 0;
    var fat32 := fatSectors == 0;
    fields := Fields(spc, reserved, nfats, fatSectors, fat32, was.rootCluster, was.fsinfoLba);
    if fat32 {
      fatSectors := Rd32(b, 36);
      rootCluster := Rd32(b, 44) % 0x1000_0000;
      fsinfoLba := Rd16(b, 48);
      fields := fields.(fatSectors := fatSectors, rootCluster := rootCluster, fsinfoLba := fsinfoLba);
      if rootEntries != 0 || rootCluster < 2 || fatSectors > 0x20_0000 { return; }
    }
    late := true;
    if bytesPerSector != 512 || spc == 0 || nfats == 0 || fatSectors == 0 { return; }
    StartSmall(b);
    FatSizeSmall(b);
    BootGeoIs(b);
    var rootSectors, dataStart := Starts(reserved, nfats, fatSectors, rootEntries);
    var total16: nat, total32: nat := Rd16(b, 19), Rd32(b, 32);
    var sectors := if total16 != 0 then total16 else total32;
    var total := if sectors > dataStart then (sectors - dataStart) / spc else 0;
    WrapSame(fatSectors * 128);
    WrapSame(fatSectors * 256);
    var room := Wrap(fatSectors * if fat32 then 128 else 256);
    room := if room >= 2 then room - 2 else 0;
    if total > room { total := room; }
    ok, g := true, Geo(spc, reserved, nfats, rootSectors, fatSectors, fat32, rootCluster, fsinfoLba, total);
  }

  lemma FieldsAre(was: Fields, b: Sector)
    ensures var wide := Rd16(b, 22) == 0;
            && FieldsRead(was, b) ==
               Fields(b[13], Rd16(b, 14), b[16], if wide then Rd32(b, 36) else Rd16(b, 22), wide,
                      if wide then Rd32(b, 44) % 0x1000_0000 else was.rootCluster, if wide then Rd16(b, 48)
                        else was.fsinfoLba)
            && (RefusedEarly(b) <==>
               wide && (Rd16(b, 17) != 0 || Rd32(b, 44) % 0x1000_0000 < 2 || Rd32(b, 36) > 0x20_0000))
  {
    hide Rd32;
    hide Rd16;
  }

  lemma WrapSame(x: nat)
    ensures x < 0x1_0000_0000 ==> Wrap(x) == x
  {
  }

  lemma BootGeoIs(b: Sector)
    requires b[13] != 0
    ensures var wide := Rd16(b, 22) == 0;
            var roots, sectors := (Rd16(b, 17) * 32 + 511) / 512, if Rd16(b, 19) != 0 then Rd16(b, 19) else Rd32(b, 32);
            var start := Rd16(b, 14) + b[16] * FatSize(b) + roots;
            var fits := if sectors > start then (sectors - start) / b[13] else 0;
            var n := FatSize(b) * if wide then 128 else 256;
            var room := if n >= 2 then n - 2 else 0;
            BootGeo(b) == Geo(b[13], Rd16(b, 14), b[16], roots, FatSize(b), wide,
              if wide then Rd32(b, 44) % 0x1000_0000 else 0,
                              if wide then Rd16(b, 48) else 0, if fits <= room then fits else room)
  {
    hide Rd32;
    hide Rd16;
    hide FatSize;
  }

  lemma AcceptedIs(b: Sector)
    ensures Accepted(b) <==>
            Rd16(b, 11) == 512 && b[13] != 0 && b[16] != 0 && FatSize(b) != 0
            && (Rd16(b, 22) == 0 ==> Rd16(b, 17) == 0 && Rd32(b, 44) % 0x1000_0000 >= 2 && FatSize(b) <= 0x20_0000)
    ensures FatSize(b) == if Rd16(b, 22) != 0 then Rd16(b, 22) else Rd32(b, 36)
  {
    hide Rd32;
    hide Rd16;
  }
}
