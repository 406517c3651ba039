/** What the mark phase of fat_recover comes to on a disk, as functions: the
    marks it makes, in the order it makes them, and whether it gives up. */
module MarkPhase {
  import opened Bytes
  import opened Layout
  import opened FatTable
  import opened Chains
  import opened Folders
  import opened Walks
  import opened Reach

  /** The marks so far, whether the scan gave up, and whether the listing ended. */
  datatype Scanned = Scanned(marks: set<nat>, bad: bool, end: bool)

  /** The chain from c on, of a folder when dir, its listing ended when end. */
  function ChainScan(g: Geo, d: Disk, c: nat, dir: bool, depth: nat, end: bool, l: set<nat>): (r: Scanned)
    ensures l <= r.marks
    decreases Range(2, g.Limit()) - l, 1, 0
  {
    if !(2 <= c < g.Eoc()) then Scanned(l, false, false)
    else if c >= g.Limit() then Scanned(l, true, false)
    else if c in l then Scanned(l, false, false)
    else if dir && depth >= SCAN_DEPTH then Scanned(l + {c}, true, false)
    else
      assert c in Range(2, g.Limit());
      var r := if dir && !end then SectorsScan(g, d, c, 0, depth, l + {c}) else Scanned(l + {c}, false, end);
      if r.bad then Scanned(r.marks, true, false) else ChainScan(g, d, FatGet(g, d, c), dir, depth, r.end, r.marks)
  }

  /** The sectors of cluster c of a folder, from s on. */
  function SectorsScan(g: Geo, d: Disk, c: nat, s: nat, depth: nat, l: set<nat>): (r: Scanned)
    ensures l <= r.marks
    decreases Range(2, g.Limit()) - l, 3, if s < g.spc then g.spc - s else 0
  {
    if s >= g.spc then Scanned(l, false, false)
    else if Wrap(ClusterToLba(g, c) + s) >= |d| then Scanned(l, true, false)
    else
      var r := EntriesScan(g, d, d[Wrap(ClusterToLba(g, c) + s)], 0, depth, l);
      if r.bad || r.end then r else SectorsScan(g, d, c, s + 1, depth, r.marks)
  }

  /** The entries of a folder sector, from i on. */
  function EntriesScan(g: Geo, d: Disk, sec: Sector, i: nat, depth: nat, l: set<nat>): (r: Scanned)
    ensures l <= r.marks
    decreases Range(2, g.Limit()) - l, 2, if i < 16 then 16 - i else 0
  {
    if i >= 16 then Scanned(l, false, false)
    else
      var e := Decode(g.fat32, sec, i);
      if e.name[0] == END then Scanned(l, false, true)
      else if Child(e) && e.cluster >= 2 then
        var r := ChainScan(g, d, e.cluster, IsDir(e), depth + 1, false, l);
        if r.bad then r else EntriesScan(g, d, sec, i + 1, depth, r.marks)
      else EntriesScan(g, d, sec, i + 1, depth, l)
  }

  /** The sectors of a fixed root, from s on. */
  function RootScan(g: Geo, d: Disk, s: nat, l: set<nat>): Scanned
    decreases if s < g.rootSectors then g.rootSectors - s else 0
  {
    if s >= g.rootSectors then Scanned(l, false, false)
    else if g.RootStart() + s >= |d| then Scanned(l, true, false)
    else
      var r := EntriesScan(g, d, d[g.RootStart() + s], 0, 0, l);
      if r.bad || r.end then r else RootScan(g, d, s + 1, r.marks)
  }

  /** The whole mark phase. */
  function MarkScan(g: Geo, d: Disk): Scanned {
    if g.fat32 then ChainScan(g, d, g.rootCluster, true, 0, false, {}) else RootScan(g, d, 0, {})
  }

  // ----- one step of each

  lemma ChainScanEnds(g: Geo, d: Disk, c: nat, dir: bool, depth: nat, end: bool, l: set<nat>)
    ensures !(2 <= c < g.Eoc()) || (c < g.Limit() && c in l) ==>
            ChainScan(g, d, c, dir, depth, end, l) == Scanned(l, false, false)
    ensures 2 <= c < g.Eoc() && c >= g.Limit() ==> ChainScan(g, d, c, dir, depth, end, l).bad
  {
  }

  lemma ChainScanStep(g: Geo, d: Disk, c: nat, dir: bool, depth: nat, end: bool, l: set<nat>)
    requires InTable(g, c) && c < g.Eoc() && c !in l
    ensures dir && depth >= SCAN_DEPTH ==> ChainScan(g, d, c, dir, depth, end, l).bad
    ensures !(dir && depth >= SCAN_DEPTH) ==>
            var r := if dir && !end then SectorsScan(g, d, c, 0, depth, l + {c}) else Scanned(l + {c}, false, end);
            if r.bad then ChainScan(g, d, c, dir, depth, end, l).bad
            else ChainScan(g, d, c, dir, depth, end, l) == ChainScan(g, d, FatGet(g, d, c), dir, depth, r.end, r.marks)
  {
    hide SectorsScan;
    hide FatGet;
  }

  lemma SectorsScanStep(g: Geo, d: Disk, c: nat, s: nat, depth: nat, l: set<nat>)
    ensures s >= g.spc ==> SectorsScan(g, d, c, s, depth, l) == Scanned(l, false, false)
    ensures s < g.spc && Wrap(ClusterToLba(g, c) + s) < |d| ==>
            var r := EntriesScan(g, d, d[Wrap(ClusterToLba(g, c) + s)], 0, depth, l);
            SectorsScan(g, d, c, s, depth, l) ==
            if r.bad || r.end then r else SectorsScan(g, d, c, s + 1, depth, r.marks)
    ensures s < g.spc && Wrap(ClusterToLba(g, c) + s) >= |d| ==> SectorsScan(g, d, c, s, depth, l).bad
  {
    hide EntriesScan;
    hide ClusterToLba;
  }

  lemma EntriesScanStep(g: Geo, d: Disk, sec: Sector, i: nat, depth: nat, l: set<nat>)
    ensures i >= 16 ==> EntriesScan(g, d, sec, i, depth, l) == Scanned(l, false, false)
    ensures i < 16 && Decode(g.fat32, sec, i).name[0] == END ==>
            EntriesScan(g, d, sec, i, depth, l) == Scanned(l, false, true)
    ensures i < 16 && Decode(g.fat32, sec, i).name[0] != END ==>
            var e := Decode(g.fat32, sec, i);
            EntriesScan(g, d, sec, i, depth, l) ==
            if Child(e) && e.cluster >= 2 then
              var r := ChainScan(g, d, e.cluster, IsDir(e), depth + 1, false, l);
              if r.bad then r else EntriesScan(g, d, sec, i + 1, depth, r.marks)
            else EntriesScan(g, d, sec, i + 1, depth, l)
  {
    hide ChainScan;
    hide Decode;
    hide Child;
    hide IsDir;
  }

  lemma RootScanStep(g: Geo, d: Disk, s: nat, l: set<nat>)
    ensures s >= g.rootSectors ==> RootScan(g, d, s, l) == Scanned(l, false, false)
    ensures s < g.rootSectors && g.RootStart() + s < |d| ==>
            var r := EntriesScan(g, d, d[g.RootStart() + s], 0, 0, l);
            RootScan(g, d, s, l) == if r.bad || r.end then r else RootScan(g, d, s + 1, r.marks)
    ensures s < g.rootSectors && g.RootStart() + s >= |d| ==> RootScan(g, d, s, l).bad
  {
    hide EntriesScan;
  }

  lemma MarkScanIs(g: Geo, d: Disk)
    ensures MarkScan(g, d) ==
            if g.fat32 then ChainScan(g, d, g.rootCluster, true, 0, false, {}) else RootScan(g, d, 0, {})
  {
    hide ChainScan;
    hide RootScan;
  }
}
