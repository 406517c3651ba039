/** Scanning a folder sector by sector, on any disk: what the searches of the
    driver go through, and that it is the folder on a well-formed volume. */
module Scans {
  import opened Bytes
  import opened Layout
  import opened Folders
  import opened Tree
  import opened Volume
  import opened SectorWrites
  import opened Commits
  import opened Walks

  /** The most folder sectors a search asks for, a looping chain included. */
  function ScanCap(g: Geo, dir: nat): nat { if HeadOf(g, dir) == 0 then g.rootSectors else MAX_DIR_SECTORS }

  /** dir_get_sector answers with a sector the device has. */
  predicate HasSector(g: Geo, d: Disk, dir: nat, index: nat)
    requires g.spc > 0
  {
    0 < DirSector(g, d, dir, index) < |d|
  }

  /** The sectors from index on, up to the first there is none of. */
  function ScanFrom(g: Geo, d: Disk, dir: nat, index: nat): (r: seq<Sector>)
    requires g.spc > 0
    ensures |r| <= if index < ScanCap(g, dir) then ScanCap(g, dir) - index else 0
    decreases ScanCap(g, dir) - index
  {
    if index < ScanCap(g, dir) && HasSector(g, d, dir, index)
    then [d[DirSector(g, d, dir, index)]] + ScanFrom(g, d, dir, index + 1) else []
  }

  /** The sectors, and the slots, a search of folder dir goes through. */
  function Scan(g: Geo, d: Disk, dir: nat): seq<Sector>
    requires g.spc > 0
  {
    ScanFrom(g, d, dir, 0)
  }

  function ScanSlots(g: Geo, d: Disk, dir: nat): seq<Ent>
    requires g.spc > 0
  {
    Slots(g.fat32, Scan(g, d, dir))
  }

  lemma NoneAtCap(g: Geo, d: Disk, dir: nat, index: nat)
    requires g.spc > 0 && HasSector(g, d, dir, index)
    ensures index < ScanCap(g, dir)
  {
    DirSectorCases(g, d, dir, index);
    hide DirSector;
  }

  lemma {:induction false} ScanSplit(g: Geo, d: Disk, dir: nat, n: nat)
    requires g.spc > 0 && n <= |Scan(g, d, dir)|
    ensures |ScanFrom(g, d, dir, n)| == |Scan(g, d, dir)| - n
    ensures forall i: nat | i < n :: HasSector(g, d, dir, i) && Scan(g, d, dir)[i] == d[DirSector(g, d, dir, i)]
    ensures forall i: nat | n <= i < |Scan(g, d, dir)| :: Scan(g, d, dir)[i] == ScanFrom(g, d, dir, n)[i - n]
  {
    hide DirSector;
    if n > 0 { ScanSplit(g, d, dir, n - 1); }
  }

  /** Each index below the scan's length has a sector, and the next has none. */
  lemma ScanIndex(g: Geo, d: Disk, dir: nat, index: nat)
    requires g.spc > 0 && index <= |Scan(g, d, dir)|
    ensures HasSector(g, d, dir, index) <==> index < |Scan(g, d, dir)|
    ensures index < |Scan(g, d, dir)| ==> Scan(g, d, dir)[index] == d[DirSector(g, d, dir, index)]
    ensures |Scan(g, d, dir)| <= ScanCap(g, dir)
  {
    hide DirSector;
    ScanSplit(g, d, dir, index);
    if HasSector(g, d, dir, index) { NoneAtCap(g, d, dir, index); }
  }

  /** The slots of one sector of the scan. */
  lemma ScanSector(g: Geo, d: Disk, dir: nat, q: nat)
    requires g.spc > 0 && q < |Scan(g, d, dir)|
    ensures HasSector(g, d, dir, q) && 16 * q + 16 <= |ScanSlots(g, d, dir)| == 16 * |Scan(g, d, dir)|
    ensures forall i: nat | i < 16 :: ScanSlots(g, d, dir)[16 * q + i] == Decode(g.fat32, d[DirSector(g, d, dir, q)], i)
  {
    ScanIndex(g, d, dir, q);
    hide Scan;
    hide DirSector;
    hide Decode;
    forall i: nat | i < 16
      ensures ScanSlots(g, d, dir)[16 * q + i] == Decode(g.fat32, d[DirSector(g, d, dir, q)], i)
    {
      assert (16 * q + i) / 16 == q && (16 * q + i) % 16 == i;
    }
  }

  lemma ScanCount(g: Geo, d: Disk, dir: nat)
    requires g.spc > 0
    ensures |ScanSlots(g, d, dir)| == 16 * |Scan(g, d, dir)| && |Scan(g, d, dir)| <= ScanCap(g, dir)
  {
    hide Slots;
  }

  // ----- a folder of a well-formed volume

  lemma ScanLength(g: Geo, d: Disk, m: Model, f: nat)
    requires WF(g, d, m) && f in m.depth && g.spc > 0
    ensures |Scan(g, d, f)| == SeenSize(g, m, f)
    ensures forall i: nat | i < SeenSize(g, m, f) :: DirSector(g, d, f, i) == FolderLba(g, m, f, i)
  {
    hide *;
    var n, size := |Scan(g, d, f)|, SeenSize(g, m, f);
    ScanIndex(g, d, f, n);
    FolderSectorFound(g, d, m, f, n);
    HasIs(g, d, f, n);
    if size < n {
      ScanIndex(g, d, f, size);
      FolderSectorFound(g, d, m, f, size);
      HasIs(g, d, f, size);
    }
    forall i: nat | i < size
      ensures DirSector(g, d, f, i) == FolderLba(g, m, f, i)
    {
      FolderSectorFound(g, d, m, f, i);
    }
  }

  lemma HasIs(g: Geo, d: Disk, f: nat, i: nat)
    requires g.spc > 0
    ensures HasSector(g, d, f, i) <==> 0 < DirSector(g, d, f, i) < |d|
  {
    hide DirSector;
  }

  /** The scan goes through exactly the slots the folder shows. */
  lemma ScanIsFolder(g: Geo, d: Disk, m: Model, f: nat)
    requires WF(g, d, m) && f in m.depth && g.spc > 0
    ensures ScanSlots(g, d, f) == DiskSlots(g, d, f) && |Scan(g, d, f)| == SeenSize(g, m, f)
    ensures forall i: nat | i < |Scan(g, d, f)| ::
            DirSector(g, d, f, i) == FolderLba(g, m, f, i) && i < FolderSize(g, m, f)
    ensures DirSector(g, d, f, |Scan(g, d, f)|) == 0
  {
    hide *;
    ScanLength(g, d, m, f);
    SeenSizeIs(g, m, f);
    DiskSlotsOf(g, d, m, f);
    SlotCount(g, d, m, f);
    ScanCount(g, d, f);
    SeenCount(g, m, f, DirsOf(g, d, m)[f]);
    FolderSectorFound(g, d, m, f, |Scan(g, d, f)|);
    forall k: nat | k < |ScanSlots(g, d, f)|
      ensures ScanSlots(g, d, f)[k] == DiskSlots(g, d, f)[k]
    {
      var q, i := k / 16, k % 16;
      ScanSector(g, d, f, q);
      HasIs(g, d, f, q);
      SlotThere(g, d, m, f, q, i);
      assert ScanSlots(g, d, f)[16 * q + i] == Decode(g.fat32, d[DirSector(g, d, f, q)], i);
    }
  }

  lemma SeenCount(g: Geo, m: Model, f: nat, s: seq<Ent>)
    requires |s| == 16 * FolderSize(g, m, f)
    ensures |Seen(g, f, s)| == 16 * SeenSize(g, m, f)
  {
    hide Sectors;
    hide ChainOf;
  }
}
