/** The mark phase of fat_recover: every cluster some path from the root leads
    to, marked by scan_chain and scan_dir_sector calling each other. */
module Scanner {
  import opened Bytes
  import opened Layout
  import opened FatTable
  import opened Chains
  import opened Folders
  import opened Tree
  import opened Volume
  import opened Walks
  import opened Reach
  import opened MarkPhase

  /** The bit of cluster c. */
  predicate IsLive(live: seq<bool>, c: nat) { 2 <= c < |live| + 2 && live[c - 2] }

  /** The static state of the scan.  The disk is a constant of it: nothing is
      written until the scan is over. */
  class TreeScan {
    const g: Geo
    const d: Disk
    var live: seq<bool>
    var bad: bool
    var fatLba: nat
    var fat: Sector
    ghost var seen: set<nat>

    constructor (g0: Geo, d0: Disk)
      requires GeoOk(g0) && Fits(g0, d0)
      ensures g == g0 && d == d0 && Ready() && !bad && Marked() == {} && seen == {}
    {
      g, d := g0, d0;
      live := seq(g0.total, i => false);
      bad, fatLba, fat := false, 0, ZeroSector();
      seen := {};
    }

    ghost function Marked(): set<nat>
      reads `live
    {
      set c: nat | 2 <= c < |live| + 2 && IsLive(live, c)
    }

    /** The bitmap has a bit for each cluster, and the FAT sector in memory is
        the one its number says. */
    ghost predicate Ready()
      reads `live, `fatLba, `fat
    {
      GeoOk(g) && Fits(g, d) && |live| == g.total && (fatLba != 0 ==> fatLba < |d| && fat == d[fatLba])
    }

    lemma ReadyParts()
      requires Ready()
      ensures GeoOk(g) && Fits(g, d) && |live| == g.total && g.Limit() == g.total + 2 && g.Limit() < g.Eoc()
      ensures forall c | c in Marked() :: InTable(g, c)
      ensures forall c: nat | InTable(g, c) :: IsLive(live, c) <==> c in Marked()
    {
    }

    /** scan_next: what fat_entry_read answers, through a one-sector cache. */
    method Next(c: nat) returns (r: nat)
      requires Ready() && InTable(g, c)
      modifies this`fatLba, this`fat
      ensures Ready() && r == FatGet(g, d, c) && r < 0x1000_0000
    {
      EntryPlace(g, c);
      EntryAt(g, d, c);
      EntryFits(g, c);
      hide Rd;
      var off := Wrap(c * g.W());
      var lba := Wrap(g.reserved + off / 512);
      if lba != fatLba {
        r := 0xFFFF_FFFF;
        if lba >= |d| { return; }
        fat, fatLba := d[lba], lba;
      }
      r := Rd(g, fat, off % 512);
    }

    method Mark(c: nat)
      requires Ready() && InTable(g, c)
      modifies this`live
      ensures Ready() && Marked() == old(Marked()) + {c}
    {
      live := live[c - 2 := true];
    }

    /** Where the search stands between two steps. */
    ghost predicate Good(gray: set<nat>, open: set<nat>)
      reads `live, `fatLba, `fat, `seen
    {
      Ready() && Grew(g, d, {}, Marked()) && gray <= Marked() && Standing(g, d, Marked(), seen, gray, open)
        && Shallow(g, d, seen)
    }

    lemma GoodParts(gray: set<nat>, open: set<nat>)
      requires Good(gray, open)
      ensures Ready() && Grew(g, d, {}, Marked()) && gray <= Marked() && Standing(g, d, Marked(), seen, gray, open)
              && Shallow(g, d, seen)
    {
      hide Standing;
      hide Grew;
      hide Shallow;
    }

    lemma GoodMake(gray: set<nat>, open: set<nat>)
      requires Ready() && Grew(g, d, {}, Marked()) && gray <= Marked() && Standing(g, d, Marked(), seen, gray, open)
               && Shallow(g, d, seen)
      ensures Good(gray, open)
    {
      hide Standing;
      hide Grew;
      hide Shallow;
    }

    /** The state is the one r says the scan comes to. */
    ghost predicate Got(r: Scanned)
      reads `live, `bad
    {
      if bad then r.bad else !r.bad && r.marks == Marked()
    }

    lemma GotIs(r: Scanned)
      ensures Got(r) <==> if bad then r.bad else !r.bad && r.marks == Marked()
    {
    }

    /** In the middle of scan_chain: n clusters of the chain at c0 are done, c
        is the next to look at, and k slots of the listing are passed. */
    ghost predicate Walking(l0: set<nat>, gray: set<nat>, open: set<nat>, c0: nat, dir: bool, depth: nat, c: nat,
                            n: nat, k: nat, end: bool)
      reads `live, `fatLba, `fat, `seen
    {
      && Ready() && Visit(g, d, l0, Marked(), seen, gray, open, c0, dir, depth, n, k, end) && Shallow(g, d, seen)
      && n <= |DiskChain(g, d, c0)|
         && (if n == 0 then c == c0 && k == 0 && !end else c == FatGet(g, d, DiskChain(g, d, c0)[n - 1]))
      && (dir && !end ==> k == 16 * Sectors(g, n))
    }

    lemma WalkingParts(l0: set<nat>, gray: set<nat>, open: set<nat>, c0: nat, dir: bool, depth: nat, c: nat, n: nat,
                       k: nat, end: bool)
      requires Walking(l0, gray, open, c0, dir, depth, c, n, k, end)
      ensures Ready() && Visit(g, d, l0, Marked(), seen, gray, open, c0, dir, depth, n, k, end) && Shallow(g, d, seen)
      ensures n <= |DiskChain(g, d, c0)| <= g.total && (dir && !end ==> k == 16 * Sectors(g, n))
      ensures if n == 0 then c == c0 && k == 0 && !end else c == FatGet(g, d, DiskChain(g, d, c0)[n - 1])
      ensures Reached(g, d, c0, dir, depth) && Grew(g, d, {}, Marked()) && Grew(g, d, l0, Marked())
              && Upto(DiskChain(g, d, c0), n) <= Marked()
    {
      ChainShort(g, d, c0);
      VisitParts(g, d, l0, Marked(), seen, gray, open, c0, dir, depth, n, k, end);
      hide *;
      hide Walking;
      WalkingAre(l0, gray, open, c0, dir, depth, c, n, k, end);
    }

    lemma WalkingAre(l0: set<nat>, gray: set<nat>, open: set<nat>, c0: nat, dir: bool, depth: nat, c: nat, n: nat,
                     k: nat, end: bool)
      requires Walking(l0, gray, open, c0, dir, depth, c, n, k, end)
      ensures Ready() && Visit(g, d, l0, Marked(), seen, gray, open, c0, dir, depth, n, k, end) && Shallow(g, d, seen)
      ensures n <= |DiskChain(g, d, c0)| && (dir && !end ==> k == 16 * Sectors(g, n))
      ensures if n == 0 then c == c0 && k == 0 && !end else c == FatGet(g, d, DiskChain(g, d, c0)[n - 1])
    {
      hide Visit;
      hide Shallow;
      hide DiskChain;
      hide FatGet;
      hide Sectors;
      hide Ready;
    }

    lemma WalkingMake(l0: set<nat>, gray: set<nat>, open: set<nat>, c0: nat, dir: bool, depth: nat, c: nat, n: nat,
                      k: nat, end: bool)
      requires Ready() && Visit(g, d, l0, Marked(), seen, gray, open, c0, dir, depth, n, k, end) && Shallow(g, d, seen)
      requires n <= |DiskChain(g, d, c0)| && (dir && !end ==> k == 16 * Sectors(g, n))
      requires if n == 0 then c == c0 && k == 0 && !end else c == FatGet(g, d, DiskChain(g, d, c0)[n - 1])
      ensures Walking(l0, gray, open, c0, dir, depth, c, n, k, end)
    {
      hide Visit;
      hide Shallow;
      hide DiskChain;
      hide FatGet;
      hide Sectors;
      hide Ready;
    }

    /** scan_chain: marks the chain at c0 and, for a folder, what its listing
        leads to.  The count of unmarked clusters goes down from call to call. */
    method ScanChain(c0: nat, dir: bool, depth: nat, ghost gray: set<nat>, ghost open: set<nat>)
      requires Good(gray, open) && !bad && c0 >= 2 && depth <= SCAN_DEPTH && Reached(g, d, c0, dir, depth)
      modifies this
      ensures Ready() && Grew(g, d, {}, Marked()) && Grew(g, d, old(Marked()), Marked()) && old(seen) <= seen
      ensures Readable(g, d) ==> !bad
      ensures !bad ==> Good(gray, open)
      ensures !bad && FoldersApart(g, d) && InTable(g, c0) ==> c0 in Marked() && (dir ==> c0 in seen)
      ensures Got(ChainScan(g, d, c0, dir, depth, false, old(Marked())))
      decreases Range(2, g.Limit()) - Marked(), 1
    {
      hide *;
      GoodParts(gray, open);
      ReadyParts();
      ghost var l0, k := Marked(), 0;
      VisitBegin(g, d, l0, seen, gray, open, c0, dir, depth);
      ListingSize(g, d, c0);
      var c: nat, n: nat, end := c0, 0, false;
      WalkingMake(l0, gray, open, c0, dir, depth, c, n, k, end);
      WalkingParts(l0, gray, open, c0, dir, depth, c, n, k, end);
      GrewSuperset(g, d, l0, Marked());
      ghost var r := ChainScan(g, d, c0, dir, depth, false, l0);
      while c >= 2 && c < g.Eoc() && !bad
        invariant Ready() && old(seen) <= seen && (bad ==> !Readable(g, d)) && l0 <= Marked()
        invariant Grew(g, d, {}, Marked()) && Grew(g, d, l0, Marked())
        invariant !bad ==> Walking(l0, gray, open, c0, dir, depth, c, n, k, end)
        invariant if bad then r.bad else r == ChainScan(g, d, c, dir, depth, end, Marked())
        decreases g.total - n
      {
        WalkingParts(l0, gray, open, c0, dir, depth, c, n, k, end);
        ChainScanEnds(g, d, c, dir, depth, end, Marked());
        if c >= g.total + 2 || n > g.total {
          OffTable(g, d, c0, dir, depth, n, c);
          ReadyParts();
          bad := true;
          GotIs(r);
          return;
        }
        InTableIs(g, c);
        ReadyParts();
        if IsLive(live, c) {
          VisitStop(g, d, l0, Marked(), seen, gray, open, c0, dir, depth, n, k, end, c);
          VisitParts(g, d, l0, Marked(), seen, gray, open, c0, dir, depth, n, k, end);
          GoodMake(gray, open);
          GotIs(r);
          return;
        }
        OnChain(g, d, c0, n, c, Marked());
        c, end, k := TakeCluster(c, dir, depth, end, l0, gray, open, c0, n, k);
        GrewSuperset(g, d, l0, Marked());
        n := n + 1;
      }
      if !bad {
        WalkingParts(l0, gray, open, c0, dir, depth, c, n, k, end);
        InTableIs(g, c);
        VisitStop(g, d, l0, Marked(), seen, gray, open, c0, dir, depth, n, k, end, c);
        VisitParts(g, d, l0, Marked(), seen, gray, open, c0, dir, depth, n, k, end);
        GoodMake(gray, open);
      }
      ChainScanEnds(g, d, c, dir, depth, end, Marked());
      GotIs(r);
    }

    /** One turn of scan_chain's loop: cluster c is marked, its sectors scanned
        when it is a folder's, and its FAT entry read. */
    method TakeCluster(c: nat, dir: bool, depth: nat, end0: bool,
                       ghost l0: set<nat>, ghost gray: set<nat>, ghost open: set<nat>, ghost c0: nat, ghost n: nat,
                         ghost k0: nat)
      returns (next: nat, end: bool, ghost k: nat)
      requires Walking(l0, gray, open, c0, dir, depth, c, n, k0, end0) && !bad && depth <= SCAN_DEPTH && c0 >= 2
      requires n < |DiskChain(g, d, c0)| && DiskChain(g, d, c0)[n] == c && c !in Marked() && InTable(g, c)
      modifies this
      ensures Ready() && old(seen) <= seen && (bad ==> !Readable(g, d)) && Grew(g, d, {}, Marked())
              && Grew(g, d, l0, Marked())
      ensures !bad ==> Walking(l0, gray, open, c0, dir, depth, next, n + 1, k, end)
      ensures var r := ChainScan(g, d, c, dir, depth, end0, old(Marked()));
              if bad then r.bad else r == ChainScan(g, d, next, dir, depth, end, Marked())
      decreases Range(2, g.Limit()) - Marked(), 0
    {
      hide *;
      WalkingParts(l0, gray, open, c0, dir, depth, c, n, k0, end0);
      ReadyParts();
      InTableIs(g, c);
      ChainScanStep(g, d, c, dir, depth, end0, Marked());
      next, end, k := 0, end0, k0;
      VisitMark(g, d, l0, Marked(), seen, gray, open, c0, dir, depth, n, k, end);
      Mark(c);
      if dir { seen := seen + {c0}; }
      VisitParts(g, d, l0, Marked(), seen, gray, open, c0, dir, depth, n + 1, k, end);
      if dir {
        if depth >= SCAN_DEPTH {
          TooDeep(g, d, c0, depth, n);
          bad := true;
          return;
        }
        ShallowMore(g, d, old(seen), c0, depth);
        InTableIs(g, c);
        assert c in Range(2, g.Limit());
        end, k := ScanCluster(c, depth, end, l0, gray, open, c0, n, k);
      }
      next := Next(c);
      bad := bad || next == 0xFFFF_FFFF;
      if !bad { WalkingMake(l0, gray, open, c0, dir, depth, next, n + 1, k, end); }
    }

    /** The sectors of cluster c of the folder at c0, up to its end marker. */
    method ScanCluster(c: nat, depth: nat, end0: bool,
                       ghost l0: set<nat>, ghost gray: set<nat>, ghost open: set<nat>, ghost c0: nat, ghost n: nat,
                         ghost k0: nat)
      returns (end: bool, ghost k: nat)
      requires Ready() && Shallow(g, d, seen) && !bad && depth < SCAN_DEPTH && c0 >= 2
      requires n < |DiskChain(g, d, c0)| && DiskChain(g, d, c0)[n] == c && InTable(g, c)
      requires Visit(g, d, l0, Marked(), seen, gray, open, c0, true, depth, n + 1, k0, end0)
               && (!end0 ==> k0 == 16 * Sectors(g, n))
      modifies this
      ensures Ready() && old(seen) <= seen && (bad ==> !Readable(g, d)) && Grew(g, d, {}, Marked())
              && Grew(g, d, l0, Marked())
      ensures !bad ==>
              Visit(g, d, l0, Marked(), seen, gray, open, c0, true, depth, n + 1, k, end) && Shallow(g, d, seen)
      ensures !bad && !end ==> k == 16 * Sectors(g, n + 1)
      ensures var r := if end0 then Scanned(old(Marked()), false, true)
              else SectorsScan(g, d, c, 0, depth, old(Marked()));
              if bad then r.bad else r == Scanned(Marked(), false, end)
      decreases Range(2, g.Limit()) - Marked(), 3
    {
      hide *;
      ReadyParts();
      ghost var o, l := DiskChain(g, d, c0), Marked();
      SectorsNext(g, n);
      end, k := end0, k0;
      var s: nat := 0;
      VisitParts(g, d, l0, Marked(), seen, gray, open, c0, true, depth, n + 1, k, end);
      LastOpened(o, c0, true, n);
      GrewSelf(g, d, Marked());
      ghost var r := if end0 then Scanned(l, false, true) else SectorsScan(g, d, c, 0, depth, l);
      while s < g.spc && !bad && !end
        invariant Ready() && s <= g.spc && old(seen) <= seen && (bad ==> !Readable(g, d)) && l <= Marked()
        invariant Grew(g, d, {}, Marked()) && Grew(g, d, l0, Marked())
        invariant !bad ==>
                  Visit(g, d, l0, Marked(), seen, gray, open, c0, true, depth, n + 1, k, end) && Shallow(g, d, seen)
        invariant !bad && !end ==> k == 16 * (Sectors(g, n) + s)
        invariant if bad then r.bad
                  else r == if end then Scanned(Marked(), false, true) else SectorsScan(g, d, c, s, depth, Marked())
      {
        SectorsScanStep(g, d, c, s, depth, Marked());
        VisitParts(g, d, l0, Marked(), seen, gray, open, c0, true, depth, n + 1, k, end);
        ListedSector(g, d, c0, n, s);
        GrayMarked(gray, o, n, Marked());
        GoodMake(gray + LastOne(o, n + 1), open + Opened(c0, true, n + 1));
        ghost var l1, seen1 := Marked(), seen;
        var lba := Wrap(ClusterToLba(g, c) + s);
        bad := lba >= |d|;
        if bad { return; }
        end := ScanDirSector(d[lba], depth, c0, k, gray + LastOne(o, n + 1), open + Opened(c0, true, n + 1));
        GrewThen(g, d, l0, l1, Marked());
        GrewSuperset(g, d, l1, Marked());
        if !bad {
          GoodParts(gray + LastOne(o, n + 1), open + Opened(c0, true, n + 1));
          VisitNested(g, d, l0, l1, seen1, gray, open, c0, depth, n + 1, k, false, Marked(), seen, k + 16, end);
        }
        k, s := k + 16, s + 1;
      }
      SectorsScanStep(g, d, c, s, depth, Marked());
    }

    /** scan_dir_sector: true at the folder's end marker. */
    method ScanDirSector(sec: Sector, depth: nat, ghost f: nat, ghost k: nat, ghost gray: set<nat>,
                         ghost open: set<nat>) returns (end: bool)
      requires Good(gray, open) && !bad && depth < SCAN_DEPTH && Reached(g, d, f, true, depth)
      requires Progress(g, d, Marked(), seen, f, k, false) && k + 16 <= |Listing(g, d, f)|
      requires forall i: nat | i < 16 :: Listing(g, d, f)[k + i] == Decode(g.fat32, sec, i)
      modifies this
      ensures Ready() && old(seen) <= seen && (bad ==> !Readable(g, d)) && Grew(g, d, {}, Marked())
              && Grew(g, d, old(Marked()), Marked())
      ensures !bad ==> Good(gray, open) && Progress(g, d, Marked(), seen, f, k + 16, end)
      ensures var r := EntriesScan(g, d, sec, 0, depth, old(Marked()));
              if bad then r.bad else r == Scanned(Marked(), false, end)
      decreases Range(2, g.Limit()) - Marked(), 2
    {
      hide *;
      GoodParts(gray, open);
      ghost var l := Marked();
      GrewSelf(g, d, l);
      ghost var r := EntriesScan(g, d, sec, 0, depth, l);
      end := false;
      var i: nat := 0;
      while i < 16 && !bad
        invariant i <= 16 && Ready() && old(seen) <= seen && (bad ==> !Readable(g, d)) && l <= Marked() && !end
        invariant Grew(g, d, {}, Marked()) && Grew(g, d, l, Marked())
        invariant !bad ==> Good(gray, open) && Progress(g, d, Marked(), seen, f, k + i, false)
        invariant if bad then r.bad else r == EntriesScan(g, d, sec, i, depth, Marked())
      {
        EntriesScanStep(g, d, sec, i, depth, Marked());
        var e := Decode(g.fat32, sec, i);
        if e.name[0] == END {
          ProgressEnd(g, d, Marked(), seen, f, k + i, k + 16);
          return true;
        }
        ChildIs(e);
        if !(e.name[0] == DELETED || e.name == DOT || e.name == DOTDOT || IsVolumeId(e)) && e.cluster >= 2 {
          ghost var l1, seen1 := Marked(), seen;
          ProgressNamed(g, d, l1, seen1, f, k + i, depth);
          ScanChain(e.cluster, IsDir(e), depth + 1, gray, open);
          GotIs(ChainScan(g, d, e.cluster, IsDir(e), depth + 1, false, l1));
          GrewThen(g, d, l, l1, Marked());
          GrewSuperset(g, d, l1, Marked());
          ProgressMore(g, d, l1, seen1, Marked(), seen, f, k + i, false);
          HandledNow(g, d, Marked(), seen, e);
        } else {
          NothingNamed(g, d, Marked(), seen, e);
        }
        if !bad { ProgressStep(g, d, Marked(), seen, f, k + i); }
        i := i + 1;
      }
      EntriesScanStep(g, d, sec, i, depth, Marked());
    }

    /** The whole mark phase.  Whatever the disk holds, it ends, comes to what
        MarkScan says, marks only what can be reached, and is bad only on a disk that cannot be read whole; when
        it is not bad and folders are apart, it has marked all that can be reached. */
    method ScanRoot()
      requires Ready() && !bad && Marked() == {} && seen == {}
      modifies this
      ensures Ready() && (forall x | x in Marked() :: Reachable(g, d, x)) && (bad ==> !Readable(g, d))
      ensures Got(MarkScan(g, d))
      ensures !bad && FoldersApart(g, d) ==> forall x: nat | Reachable(g, d, x) :: x in Marked()
      ensures !bad && FoldersApart(g, d) ==>
        forall f: nat, n: nat | Reached(g, d, f, true, n) && (InTable(g, f) || n == 0) :: NotDeep(g, d, f)
    {
      hide *;
      ScanStart(g, d);
      ReachedStart(g, d);
      RootHead(g);
      GrewSelf(g, d, {});
      MarkScanIs(g, d);
      if g.fat32 {
        GoodMake({}, {});
        ReadyParts();
        ScanChain(g.rootCluster, true, 0, {}, {});
        if !bad { GoodParts({}, {}); }
      } else {
        ScanFixedRoot();
      }
      MarksReachable(g, d, Marked());
      if !bad && FoldersApart(g, d) { ScanComplete(g, d, Marked(), seen); }
    }

    /** The sectors of a fixed root folder. */
    method ScanFixedRoot()
      requires Ready() && !bad && Marked() == {} && seen == {} && !g.fat32
      modifies this
      ensures Ready() && Grew(g, d, {}, Marked()) && (bad ==> !Readable(g, d))
      ensures !bad ==> Standing(g, d, Marked(), seen, {}, {}) && Shallow(g, d, seen) && 0 in seen
      ensures Got(RootScan(g, d, 0, {}))
    {
      hide *;
      ScanStart(g, d);
      ReachedStart(g, d);
      ReadyParts();
      seen := {0};
      GrewSelf(g, d, {});
      StandingRoot(g, d);
      ProgressNone(g, d, {}, seen, 0);
      GoodMake({}, {0});
      var s: nat := 0;
      var end := false;
      ghost var r := RootScan(g, d, 0, {});
      while s < g.rootSectors && !bad && !end
        invariant Ready() && s <= g.rootSectors && Grew(g, d, {}, Marked()) && (bad ==> !Readable(g, d)) && 0 in seen
        invariant !bad ==> Good({}, {0}) && Progress(g, d, Marked(), seen, 0, 16 * s, end)
        invariant if bad then r.bad
                  else r == if end then Scanned(Marked(), false, true) else RootScan(g, d, s, Marked())
      {
        RootScanStep(g, d, s, Marked());
        RootSector(g, d, s, 16 * s, g.RootStart() + s);
        bad := g.RootStart() + s >= |d|;
        if bad { return; }
        end := ScanDirSector(d[g.RootStart() + s], 0, 0, 16 * s, {}, {0});
        s := s + 1;
      }
      RootScanStep(g, d, s, Marked());
      GotIs(r);
      if !bad {
        RootListing(g, d);
        GoodParts({}, {0});
        RootClose(g, d, Marked(), seen, 16 * s, end);
      }
    }
  }
}
