/** The FAT driver: its module state as the fields of one object, its functions
    as methods that change them in the order the source does.  Ghost fields
    record the disk after every sector write and the model of the volume. */
module Driver {
  import opened Arith
  import opened Bytes
  import opened Layout
  import opened FatTable
  import opened Chains
  import opened Folders
  import opened Tree
  import opened Volume
  import opened Paths
  import opened SectorWrites
  import opened FatWrites
  import opened Commits
  import opened Walks
  import opened Scans
  import opened Atomicity
  import opened Fresh
  import opened FileData
  import opened FileCommits
  import opened Ranges
  import opened InPlace
  import opened Reach
  import opened MarkPhase
  import opened Scanner
  import opened Marking
  import opened Recovery
  import opened Steady
  import opened Hidden
  import opened Outcomes
  import opened Refusals
  import opened Boot

  class FatDriver {
    /** The device: sectors from 0, its states after each sector write since the
        mount, and the sectors whose write it has refused.  A read past its end fails; a write may fail at any time, and
        then leaves the sector as it was - unless the device is reliable. */
    const reliable: bool
    var disk: Disk
    var past: seq<Disk>
    ghost var refused: seq<nat>

    /** The layout as mounted, and the variables of it that a failed fat_mount
        overwrites all the same. */
    var g: Geo
    var fields: Fields
    var mounted: bool
    var cwd: nat
    var allocHint: nat
    var fsinfoDone: bool
    var atFirst: nat
    var atIndex: nat
    var atCluster: nat
    var walkDir: nat
    var walkSkip: nat
    var walkCluster: nat
    var matchedLba: nat
    var matchedIndex: nat

    ghost var m: Model
    ghost var stays: Stays
    ghost var honest: bool
    ghost var mirrored: bool
    ghost var fatReads: nat
    ghost var folderReads: nat

    /** Geometry, device and the history of the disk are as StateOk says. */
    ghost predicate Base()
      reads `disk, `past, `g, `fields, `fsinfoDone, `stays, `honest, `mirrored
    {
      && GeoOk(g) && Intact(g, fields) && Fits(g, disk) && StaysOf(g, disk) == stays
      && (honest && reliable ==> FsHonest(g, disk))
      && (fsinfoDone && reliable ==> FsUnknown(g, disk))
      && (mirrored && reliable ==> Mirrored(g, disk))
      && HistoryOk(g, past, |disk|, stays, honest && reliable, mirrored && reliable)
    }

    /** The kernel before its first mount. */
    constructor (device: Disk, takesAll: bool)
      ensures disk == device && reliable == takesAll && !mounted && past == []
    {
      disk, reliable, mounted, past, refused := device, takesAll, false, [], [];
    }

    // ----- the block device

    method ReadSector(lba: nat) returns (ok: bool, buf: Sector)
      ensures ok == (lba < |disk|) && (ok ==> buf == disk[lba])
    {
      ok := lba < |disk|;
      buf := if ok then disk[lba] else ZeroSector();
    }

    method WriteSector(lba: nat, buf: Sector) returns (ok: bool)
      modifies this`disk, this`past, this`refused
      ensures ok ==> lba < |old(disk)| && disk == old(disk)[lba := buf] && past == old(past) + [disk]
      ensures !ok ==> disk == old(disk) && past == old(past)
      ensures !ok ==> lba >= |disk| || !reliable
      ensures refused == if ok then old(refused) else old(refused) + [lba]
    {
      var accepted: bool := *;
      ok := lba < |disk| && (reliable || accepted);
      if ok {
        disk := disk[lba := buf];
        past := past + [disk];
      } else {
        refused := refused + [lba];
      }
    }


    // ----- FAT entries

    method FatEntryRead(cluster: nat) returns (r: nat)
      modifies this`fatReads
      ensures r == FatGet(g, disk, cluster) && fatReads == old(fatReads) + 1
    {
      var off := Wrap(cluster * g.W());
      var sector := Wrap(g.reserved + off / 512);
      var ok, buf := ReadSector(sector);
      fatReads := fatReads + 1;
      if !ok { return UNKNOWN; }
      EntryFits(g, cluster);
      r := Rd(g, buf, off % 512);
    }

    /** Marks FSInfo's counts unknown, once, before the first FAT change. */
    method FsinfoUnknown(ghost u: set<nat>)
      requires Base() && InTables(g, u)
      modifies this`disk, this`past, this`refused, this`fsinfoDone
      ensures Base() && (reliable ==> FsUnknown(g, disk))
      ensures old(past) <= past && KeptFrom(g, old(disk), |old(past)|, past, disk, u)
      ensures UpperSame(g, old(disk), disk) && Table(g, disk) == Table(g, old(disk))
      ensures |disk| == |old(disk)| && forall l | g.reserved <= l < |disk| :: disk[l] == old(disk)[l]
      ensures reliable && FsUnknown(g, old(disk)) && old(fsinfoDone) ==> past == old(past)
      ensures Low(g, old(refused), refused)
      ensures FsOnly(g, old(disk), disk)
      ensures forall l: nat | l < |disk| && disk[l] != old(disk)[l] ::
              forall i | 0 <= i < 512 :: disk[l][i] == if 488 <= i < 496 then 0xFF else old(disk)[l][i]
      ensures reliable && !old(fsinfoDone) && g.fat32 && 1 <= g.fsinfoLba < g.reserved && g.fsinfoLba < |disk| ==>
              var b := old(disk)[g.fsinfoLba];
              && b[0] == 0x52 && b[1] == 0x52 && b[2] == 0x61 && b[3] == 0x41
              && b[484] == 0x72 && b[485] == 0x72 && b[486] == 0x41 && b[487] == 0x61 ==>
                forall i | 488 <= i < 496 :: disk[g.fsinfoLba][i] == 0xFF
    {
      hide *;
      LowSelf(g, refused);
      KeptSelf(g, disk, past, u);
      UpperSelf(g, disk);
      BaseParts();
      FsSettled(g, disk);
      FsOnlySelf(g, disk);
      if !g.fat32 || fsinfoDone { return; }
      fsinfoDone := true;
      BaseLater();
      if g.fsinfoLba < 1 || g.fsinfoLba >= g.reserved { return; }
      var ok, b := ReadSector(g.fsinfoLba);
      if !ok { return; }
      FsWords(b);
      if Rd32(b, 0) != 0x4161_5252 || Rd32(b, 484) != 0x6141_7272 { return; }
      if Rd32(b, 488) == UNKNOWN && Rd32(b, 492) == UNKNOWN { return; }
      MarkFsinfo(b, u);
    }

    /** The write of fsinfo_unknown, which ignores whether it was taken. */
    method MarkFsinfo(b: Sector, ghost u: set<nat>)
      requires GeoOk(g) && Intact(g, fields) && Fits(g, disk) && StaysOf(g, disk) == stays
               && (mirrored && reliable ==> Mirrored(g, disk))
      requires HistoryOk(g, past, |disk|, stays, honest && reliable, mirrored && reliable)
      requires FsPresent(g, disk) && g.fsinfoLba < |disk| && g.fsinfoLba < g.reserved && b == disk[g.fsinfoLba]
               && InTables(g, u)
      modifies this`disk, this`past, this`refused
      ensures Base() && (reliable ==> FsUnknown(g, disk))
      ensures old(past) <= past && KeptFrom(g, old(disk), |old(past)|, past, disk, u)
      ensures UpperSame(g, old(disk), disk) && Table(g, disk) == Table(g, old(disk))
      ensures |disk| == |old(disk)| && forall l | g.reserved <= l < |disk| :: disk[l] == old(disk)[l]
      ensures Low(g, old(refused), refused)
      ensures FsOnly(g, old(disk), disk)
      ensures forall l: nat | l < |disk| && disk[l] != old(disk)[l] ::
              forall i | 0 <= i < 512 :: disk[l][i] == if 488 <= i < 496 then 0xFF else old(disk)[l][i]
      ensures reliable ==> forall i | 488 <= i < 496 :: disk[g.fsinfoLba][i] == 0xFF
    {
      hide *;
      ghost var d0, p0 := disk, past;
      ghost var hon, mir := honest && reliable, mirrored && reliable;
      KeptSelf(g, disk, past, u);
      UpperSelf(g, disk);
      LowSelf(g, refused);
      RootAbove(g);
      LowMore(g, refused, refused, g.fsinfoLba);
      FsHere(g, disk);
      FsOnlySelf(g, disk);
      FsOnlyOne(g, disk, FsMarked(b));
      FsMarkedBytes(b);
      var ok := WriteSector(g.fsinfoLba, FsMarked(b));
      if ok {
        FsMarkState(g, d0, u, stays, hon, mir);
        FitsSame(g, d0, disk);
        HistoryMore(g, p0, disk, |disk|, stays, hon, mir);
        KeptOne(g, d0, |p0|, p0, d0, disk, u);
        ReservedUpper(g, d0, g.fsinfoLba, FsMarked(b));
      } else {
        HistoryWeaker(g, past, |disk|, stays, hon, mir, false, false);
      }
      BaseMake();
    }

    lemma BaseLater()
      requires GeoOk(g) && Intact(g, fields) && Fits(g, disk) && StaysOf(g, disk) == stays
      requires honest && reliable ==> FsHonest(g, disk)
      requires mirrored && reliable ==> Mirrored(g, disk)
      requires HistoryOk(g, past, |disk|, stays, honest && reliable, mirrored && reliable)
      ensures FsUnknown(g, disk) ==> Base()
    {
    }

    /** Writes one FAT row to every copy, the first copy first; stop says
        whether a failed write ends the loop, as it does for fat_entry_write. */
    method WriteCopies(row: nat, buf: Sector, stop: bool, ghost t: seq<nat>, ghost u: set<nat>) returns (ok: bool)
      requires Base() && InTables(g, u) && row < g.Rows() && (reliable ==> FsUnknown(g, disk))
      requires g.CopyLba(0, row) < |disk|
      requires var d1 := disk[g.CopyLba(0, row) := buf];
               Table(g, d1) == t && StaysOf(g, d1) == stays
                 && forall c | c in u :: FatGet(g, d1, c) == FatGet(g, disk, c)
      modifies this`disk, this`past, this`refused
      ensures Base() && UpperSame(g, old(disk), disk)
      ensures old(past) <= past && KeptFrom(g, old(disk), |old(past)|, past, disk, u)
      ensures OthersStay(g, old(disk), disk, row)
      ensures reliable ==> ok
      ensures RowSteps(g, old(disk), |old(past)|, past, row, t)
      ensures ok ==> Table(g, disk) == t && RowAgrees(g, disk, row)
      ensures Table(g, disk) == t || Table(g, disk) == Table(g, old(disk))
      ensures Low(g, old(refused), refused)
      ensures ok ==> forall f: nat | f < g.nfats ::
              && 0 <= g.reserved + f * g.fatSectors + row < |disk|
              && disk[g.reserved + f * g.fatSectors + row] == buf
      ensures |disk| == |old(disk)| && forall l: nat | l < |disk| && disk[l] != old(disk)[l] ::
              && g.fatSectors > 0 && g.reserved + row <= l
              && Rem(l - g.reserved - row, g.fatSectors) == 0 && Quot(l - g.reserved - row, g.fatSectors) < g.nfats
      ensures RowOnly(g, old(disk), disk, row)
    {
      hide *;
      ghost var d0, n0, mir, hon := disk, |past|, mirrored && reliable, honest && reliable;
      ghost var un := reliable;
      BaseParts();
      CopyBegin(g, disk, past, row, buf, t, u, un, hon, mir);
      RowStepsNone(g, d0, past, row, t);
      RowOnlySelf(g, d0, row);
      LowSelf(g, refused);
      ok := true;
      var f := 0;
      while f < g.nfats
        invariant f <= g.nfats && |disk| == |d0| && old(past) <= past
        invariant (!ok ==> !reliable) && RowSteps(g, d0, n0, past, row, t) && Low(g, old(refused), refused)
        invariant RowOnly(g, d0, disk, row)
        invariant CopyState(g, d0, n0, past, disk, row, buf, f, t, stays, u, ok, un, ok && hon, ok && mir)
      {
        ghost var d1, p1 := disk, past;
        CopyParts(g, d0, n0, past, disk, row, buf, f, t, stays, u, ok, un, ok && hon, ok && mir);
        CopyPlace(g, disk, f, row);
        LowMore(g, old(refused), refused, g.CopyLba(f, row));
        var wrote := WriteSector(g.CopyLba(f, row), buf);
        if wrote {
          CopyWritten(g, d0, n0, p1, d1, row, buf, f, t, stays, u, ok, un, ok && hon, ok && mir);
          CopyParts(g, d0, n0, past, disk, row, buf, f + 1, t, stays, u, ok, un, ok && hon, ok && mir);
          RowStepsMore(g, d0, n0, p1, disk, row, t);
          RowOnlyMore(g, d0, d1, row, f, buf);
        } else {
          CopyRefused(g, d0, n0, past, disk, row, buf, f, t, stays, u, ok, un, ok && hon, ok && mir);
          ok := false;
        }
        f := f + 1;
        if stop && !ok { break; }
      }
      CopyParts(g, d0, n0, past, disk, row, buf, f, t, stays, u, ok, un, ok && hon, ok && mir);
      if ok {
        CopyEnd(g, d0, n0, past, disk, row, buf, t, stays, u, un, hon, mir);
        CopiesHold(g, disk, row, buf);
      }
      RowOnlyPlain(g, d0, disk, row);
      BaseMake();
    }

    lemma BaseParts()
      requires Base()
      ensures GeoOk(g) && Intact(g, fields) && Fits(g, disk) && StaysOf(g, disk) == stays
      ensures honest && reliable ==> FsHonest(g, disk)
      ensures fsinfoDone && reliable ==> FsUnknown(g, disk)
      ensures mirrored && reliable ==> Mirrored(g, disk)
      ensures HistoryOk(g, past, |disk|, stays, honest && reliable, mirrored && reliable)
    {
    }

    lemma BaseMake()
      requires GeoOk(g) && Intact(g, fields) && Fits(g, disk) && StaysOf(g, disk) == stays
      requires honest && reliable ==> FsHonest(g, disk)
      requires fsinfoDone && reliable ==> FsUnknown(g, disk)
      requires mirrored && reliable ==> Mirrored(g, disk)
      requires HistoryOk(g, past, |disk|, stays, honest && reliable, mirrored && reliable)
      ensures Base()
    {
    }

    /** The FAT sector of an entry with the entry replaced: the first half of
        fat_entry_write. */
    method EntryRow(cluster: nat, value: nat) returns (ok: bool, row: nat, buf: Sector)
      requires GeoOk(g) && Fits(g, disk) && InTable(g, cluster)
      ensures ok && row < g.Rows() && g.CopyLba(0, row) < |disk| && row == cluster / g.Per()
      ensures cluster % g.Per() * g.W() + g.W() <= 512
      ensures buf == Put(g, disk[g.CopyLba(0, row)], cluster % g.Per() * g.W(), value)
    {
      hide *;
      TableBound(g, cluster);
      CopiesExist(g);
      EntryPlace(g, cluster);
      EntryFits(g, cluster);
      CopyPlace(g, disk, 0, cluster / g.Per());
      Width(g);
      var w := g.W();
      var off := Wrap(cluster * w);
      row := off / 512;
      ok, buf := ReadSector(g.reserved + row);
      if !ok { return; }
      var o := off % 512;
      StoreIsPut(g, buf, o, value);
      var v := if g.fat32 then value % 0x1000_0000 + Rd32(buf, o) / 0x1000_0000 * 0x1000_0000 else value;
      buf := Store(buf, o, v, w);
    }

    /** The second half of fat_entry_write: FSInfo first, then the row. */
    method StoreEntry(row: nat, buf: Sector, cluster: nat, value: nat, ghost u: set<nat>) returns (ok: bool)
      requires Base() && InTables(g, u) && InTable(g, cluster) && cluster !in u
      requires row == cluster / g.Per() < g.Rows() && g.CopyLba(0, row) < |disk|
               && cluster % g.Per() * g.W() + g.W() <= 512
      requires buf == Put(g, disk[g.CopyLba(0, row)], cluster % g.Per() * g.W(), value)
      modifies this`disk, this`past, this`refused, this`fsinfoDone
      ensures Base() && UpperSame(g, old(disk), disk) && (reliable ==> ok)
      ensures old(past) <= past && KeptFrom(g, old(disk), |old(past)|, past, disk, u)
      ensures Table(g, disk) == Table(g, old(disk))
              || Table(g, disk) == Table(g, old(disk))[cluster := value % g.Modulus()]
      ensures ok ==> Table(g, disk) == Table(g, old(disk))[cluster := value % g.Modulus()]
      ensures Low(g, old(refused), refused)
      ensures RowAndFs(g, old(disk), disk, row) && (ok ==> RowAgrees(g, disk, row))
    {
      hide *;
      ghost var d0, p0 := disk, past;
      BaseParts();
      CopyPlace(g, d0, 0, row);
      TableBound(g, cluster);
      FsinfoUnknown(u);
      BaseParts();
      ghost var d1, p1 := disk, past;
      EntryWritten(g, d1, cluster, value);
      EntryOnly(g, d1, g.CopyLba(0, row), buf, cluster, value, u);
      ghost var r1 := refused;
      ok := WriteCopies(row, buf, true, Table(g, d1)[cluster := value % g.Modulus()], u);
      LowThen(g, old(refused), r1, refused);
      KeptThen(g, d0, |p0|, p1, d1, past, disk, u);
      UpperTrans(g, d0, d1, disk);
      RowAndFsMake(g, d0, d1, disk, row);
    }

    /** FAT[cluster] = value in every copy, the first copy first; refuses a
        cluster past the table and stops at the first write that fails. */
    method FatEntryWrite(cluster: nat, value: nat, ghost u: set<nat>) returns (ok: bool)
      requires Base() && InTables(g, u) && cluster !in u
      modifies this`disk, this`past, this`refused, this`fsinfoDone, this`walkDir
      ensures Base() && UpperSame(g, old(disk), disk)
      ensures old(past) <= past && KeptFrom(g, old(disk), |old(past)|, past, disk, u)
      ensures !InTable(g, cluster) ==> !ok && disk == old(disk) && past == old(past) && walkDir == old(walkDir)
      ensures InTable(g, cluster) ==> walkDir == 0 && (reliable ==> ok)
      ensures Table(g, disk) == Table(g, old(disk))
              || (InTable(g, cluster) && Table(g, disk) == Table(g, old(disk))[cluster := value % g.Modulus()])
      ensures ok ==> InTable(g, cluster) && Table(g, disk) == Table(g, old(disk))[cluster := value % g.Modulus()]
      ensures Low(g, old(refused), refused)
      ensures old(WalkOk()) ==> WalkOk()
      ensures cluster < 2 || cluster >= g.total + 2 ==> !ok && disk == old(disk) && past == old(past)
      ensures var row := cluster * (if g.fat32 then 4 else 2) / 512;
              && (ok ==> 0 <= g.reserved + row < |disk| && forall f: nat | f < g.nfats ::
                    && 0 <= g.reserved + f * g.fatSectors + row < |disk|
                    && disk[g.reserved + f * g.fatSectors + row] == disk[g.reserved + row])
              && |disk| == |old(disk)| && (forall l: nat | l < |disk| && disk[l] != old(disk)[l] ::
                    || (g.fat32 && l == g.fsinfoLba)
                    || (&& g.fatSectors > 0 && g.reserved + row <= l && Rem(l - g.reserved - row, g.fatSectors) == 0
                        && Quot(l - g.reserved - row, g.fatSectors) < g.nfats))
    {
      LowSelf(g, refused);
      if cluster < 2 || cluster >= g.total + 2 {
        KeptSelf(g, disk, past, u);
        return false;
      }
      assert InTable(g, cluster);
      BaseParts();
      hide *;
      walkDir := 0;
      WalkOkMake();
      var rd, row, buf := EntryRow(cluster, value);
      if !rd { return false; }
      ghost var d0 := disk;
      ok := StoreEntry(row, buf, cluster, value, u);
      BaseParts();
      RowAndFsPlain(g, d0, disk, row);
      EntryPlace(g, cluster);
      Width(g);
      if ok { RowAgreesPlain(g, disk, row); }
    }

    /** One entry through the allocator's one-row cache; 0xFFFFFFFF is no row. */
    method PeekEntry(c: nat, row0: nat, buf0: Sector) returns (ok: bool, row: nat, buf: Sector, v: nat)
      requires GeoOk(g) && Fits(g, disk) && InTable(g, c)
      requires row0 != 0xFFFF_FFFF ==> g.reserved + row0 < |disk| && buf0 == disk[g.reserved + row0]
      ensures ok && g.reserved + row < |disk| && buf == disk[g.reserved + row] && v == FatGet(g, disk, c)
    {
      hide *;
      TableBound(g, c);
      CopiesExist(g);
      EntryPlace(g, c);
      EntryAt(g, disk, c);
      EntryFits(g, c);
      var off := Wrap(c * g.W());
      var r, o := off / 512, off % 512;
      RowSmall(g, r);
      row, buf, ok, v := row0, buf0, true, 0;
      if r != row {
        row := r;
        ok, buf := ReadSector(g.reserved + row);
        if !ok { return; }
      }
      v := Rd(g, buf, o);
    }

    /** The first free cluster after the hint, marked as a chain's end; 0 when
        the search saw none free. */
    method AllocCluster(ghost u: set<nat>) returns (c: nat)
      requires Base() && InTables(g, u) && (forall x | x in u :: Table(g, disk)[x] != 0)
      modifies this`disk, this`past, this`refused, this`fsinfoDone, this`walkDir, this`allocHint
      ensures Base() && UpperSame(g, old(disk), disk)
      ensures old(past) <= past && KeptFrom(g, old(disk), |old(past)|, past, disk, u)
      ensures walkDir == 0 || walkDir == old(walkDir)
      ensures c == 0 ==> reliable ==> disk == old(disk) && past == old(past) && Free(Table(g, disk)) == {}
      ensures c != 0 ==>
              c in Free(Table(g, old(disk))) && InTable(g, c) && c !in u && allocHint == c - 1 && walkDir == 0
      ensures c != 0 ==> Table(g, disk) == Table(g, old(disk))[c := if g.fat32 then 0x0FFF_FFFF else 0xFFFF]
      ensures c != 0 ==> NearestFree(Table(g, old(disk)), old(allocHint), g.total, c)
      ensures Table(g, disk) == Table(g, old(disk)) || exists x | x in Free(Table(g, old(disk))) ::
              Table(g, disk) == Table(g, old(disk))[x := g.EocMark()]
      ensures Low(g, old(refused), refused)
      ensures old(WalkOk()) ==> WalkOk()
    {
      hide *;
      KeptSelf(g, disk, past, u);
      UpperSelf(g, disk);
      BaseParts();
      MarkStored(g);
      MarkIs(g);
      LowSelf(g, refused);
      var row: nat, buf := 0xFFFF_FFFF, ZeroSector();
      var k: nat, ok, v: nat := 0, true, 0;
      c := 0;
      while k < g.total
        invariant Base() && k <= g.total && disk == old(disk) && past == old(past) && c == 0
        invariant Low(g, old(refused), refused) && refused == old(refused)
        invariant walkDir == old(walkDir) && allocHint == old(allocHint)
        invariant row != 0xFFFF_FFFF ==> g.reserved + row < |disk| && buf == disk[g.reserved + row]
        invariant forall j: nat | j < k :: Candidate(allocHint, g.total, j) < |Table(g, disk)| ==>
                  Table(g, disk)[Candidate(allocHint, g.total, j)] != 0
      {
        var x := Candidate(allocHint, g.total, k);
        CandidateIn(g, allocHint, k);
        ok, row, buf, v := PeekEntry(x, row, buf);
        if !ok { return; }
        TableAt(g, disk, x);
        if v == 0 {
          TableBound(g, x);
          FreeMember(Table(g, disk), x);
          FirstFree(g, Table(g, disk), allocHint, k);
          var wrote := FatEntryWrite(x, g.EocMark(), u);
          if !wrote { return; }
          c, allocHint := x, x - 1;
          return;
        }
        k := k + 1;
      }
      CandidatesCover(g, allocHint, Table(g, disk));
    }

    /** Frees the chain at cluster, looping or not: every in-range cluster the
        links reach from it, and nothing else. */
    method ReleaseChain(cluster0: nat, ghost u: set<nat>)
      requires Base() && InTables(g, u) && Elems(Orbit(Table(g, disk), cluster0, {})) !! u
      modifies this`disk, this`past, this`refused, this`fsinfoDone, this`walkDir, this`fatReads
      ensures Base() && UpperSame(g, old(disk), disk)
      ensures old(past) <= past && KeptFrom(g, old(disk), |old(past)|, past, disk, u)
      ensures PartCleared(Table(g, old(disk)), Table(g, disk), Elems(Orbit(Table(g, old(disk)), cluster0, {})))
      ensures reliable ==>
              Table(g, disk) == Cleared(Table(g, old(disk)), Elems(Orbit(Table(g, old(disk)), cluster0, {})))
      ensures !InTable(g, cluster0) ==> disk == old(disk) && past == old(past) && walkDir == old(walkDir)
      ensures InTable(g, cluster0) ==> walkDir == 0
      ensures Low(g, old(refused), refused)
      ensures old(WalkOk()) ==> WalkOk()
    {
      hide *;
      ghost var d0, p0 := disk, past;
      ghost var t0 := Table(g, d0);
      KeptSelf(g, disk, past, u);
      UpperSelf(g, disk);
      BaseParts();
      EocAbove(g);
      ReleaseBegin(t0, cluster0);
      LowSelf(g, refused);
      var cluster: nat, count: nat := cluster0, 0;
      while cluster >= 2 && cluster < g.Eoc() && count < g.total
        invariant Base() && UpperSame(g, d0, disk)
        invariant p0 <= past && KeptFrom(g, d0, |p0|, past, disk, u)
        invariant Releasing(t0, Table(g, disk), Orbit(t0, cluster0, {}), count, cluster)
        invariant Low(g, old(refused), refused) && (old(WalkOk()) ==> WalkOk())
        invariant count == 0 ==> cluster == cluster0 && disk == d0 && past == p0 && walkDir == old(walkDir)
        invariant count > 0 ==> InTable(g, cluster0) && walkDir == 0
        decreases g.total - count
      {
        ghost var d1, p1 := disk, past;
        var next := FatEntryRead(cluster);
        ReleaseMember(g, t0, Table(g, d1), cluster0, count, cluster, u);
        ReleasingPart(t0, Table(g, d1), cluster0, count, cluster);
        ghost var r1 := refused;
        var ok := FatEntryWrite(cluster, 0, u);
        LowThen(g, old(refused), r1, refused);
        KeptThen(g, d0, |p0|, p1, d1, past, disk, u);
        UpperTrans(g, d0, d1, disk);
        if !ok {
          ReleaseCut(g, t0, Table(g, d1), Table(g, disk), cluster0, count, cluster);
          return;
        }
        TableBound(g, cluster);
        TableAt(g, d1, cluster);
        ReleaseStep(t0, Table(g, d1), cluster0, count, cluster);
        cluster := next;
        count := count + 1;
      }
      if count == 0 { NotWalked(g, cluster0); }
      ReleaseEnd(g, t0, Table(g, disk), cluster0, count, cluster);
      ReleasingPart(t0, Table(g, disk), cluster0, count, cluster);
    }

    // ----- folder sectors

    /** The remembered walk is where the plain walk gets. */
    ghost predicate WalkOk()
      reads `g, `disk, `walkDir, `walkSkip, `walkCluster
    {
      walkDir != 0 ==> walkCluster != 0 && PlainWalk(g, disk, walkDir, walkSkip) == walkCluster
    }

    /** Sector index of a folder, picking the walk up where the last call left
        it: the answer never depends on the remembered walk, only the number
        of FAT reads does. */
    method DirGetSector(dir: nat, index: nat) returns (lba: nat)
      requires g.spc > 0 && WalkOk()
      modifies this`walkDir, this`walkSkip, this`walkCluster, this`fatReads
      ensures WalkOk() && lba == DirSector(g, disk, dir, index)
      ensures (walkDir == old(walkDir) && walkSkip == old(walkSkip) && walkCluster == old(walkCluster))
              || (walkDir == HeadOf(g, dir) && walkSkip == Quot(index, g.spc)
                 && walkCluster == PlainWalk(g, disk, walkDir, walkSkip))
      ensures lba != 0 && HeadOf(g, dir) != 0 ==> walkDir == HeadOf(g, dir) && walkSkip == Quot(index, g.spc)
      ensures fatReads <= old(fatReads) + (if HeadOf(g, dir) == 0 then 0
        else if old(walkDir) == HeadOf(g, dir) && old(walkSkip) <= Quot(index, g.spc)
        then Quot(index, g.spc) - old(walkSkip) else Quot(index, g.spc))
    {
      hide *;
      WalkOkParts();
      DirSectorCases(g, disk, dir, index);
      var dirCluster := HeadOf(g, dir);
      if dirCluster == 0 {
        if index >= g.rootSectors { return 0; }
        return g.RootStart() + index;
      }
      if index >= MAX_DIR_SECTORS { return 0; }
      var skip, at, cluster := Quot(index, g.spc), 0, dirCluster;
      WalkStart(g, disk, dirCluster);
      if walkDir == dirCluster && walkSkip <= skip { at, cluster := walkSkip, walkCluster; }
      ghost var at0 := at;
      while at < skip
        invariant at0 <= at <= skip && cluster != 0 && PlainWalk(g, disk, dirCluster, at) == cluster
        invariant fatReads == old(fatReads) + (at - at0)
        modifies this`fatReads
      {
        cluster := FatEntryRead(cluster);
        WalkOn(g, disk, dirCluster, at, cluster);
        at := at + 1;
        if cluster < 2 || cluster >= g.Eoc() {
          WalkEnded(g, disk, dirCluster, at, skip);
          return 0;
        }
      }
      walkDir, walkSkip, walkCluster := dirCluster, skip, cluster;
      WalkOkMake();
      lba := Wrap(ClusterToLba(g, cluster) + Rem(index, g.spc));
    }

    lemma WalkOkParts()
      requires WalkOk()
      ensures walkDir != 0 ==> walkCluster != 0 && PlainWalk(g, disk, walkDir, walkSkip) == walkCluster
    {
    }

    lemma WalkOkMake()
      requires walkDir != 0 ==> walkCluster != 0 && PlainWalk(g, disk, walkDir, walkSkip) == walkCluster
      ensures WalkOk()
    {
    }

    // ----- a mounted, well-formed volume

    /** What holds of every disk state since the mount, a power cut included, on
        a device that has taken every write. */
    lemma HistoryShows(i: nat)
      requires Base() && i < |past|
      ensures StaysOf(g, past[i]) == stays
      ensures honest && reliable ==> FsHonest(g, past[i])
      ensures mirrored && reliable ==> OneRowOff(g, past[i]) && Mirrored(g, disk)
    {
      hide StaysOf;
      hide OneRowOff;
      hide FsHonest;
      hide Mirrored;
    }

    /** Model and caches fit the disk. */
    ghost predicate Valid()
      reads `disk, `past, `g, `fields, `fsinfoDone, `stays, `honest, `mirrored, `mounted, `cwd, `m
      reads `walkDir, `walkSkip, `walkCluster, `atFirst, `atIndex, `atCluster
    {
      && Base() && mounted && WF(g, disk, m) && cwd in m.depth
      && PlaceOk(m, walkDir, walkSkip, walkCluster) && PlaceOk(m, atFirst, atIndex, atCluster)
    }

    lemma ValidParts()
      requires Valid()
      ensures Base() && mounted && WF(g, disk, m) && cwd in m.depth && GeoOk(g) && Fits(g, disk) && g.spc > 0
      ensures PlaceOk(m, walkDir, walkSkip, walkCluster) && PlaceOk(m, atFirst, atIndex, atCluster)
    {
      hide WF;
      hide PlaceOk;
      hide HistoryOk;
    }

    lemma ValidMake()
      requires Base() && mounted && WF(g, disk, m) && cwd in m.depth
      requires PlaceOk(m, walkDir, walkSkip, walkCluster) && PlaceOk(m, atFirst, atIndex, atCluster)
      ensures Valid()
    {
      hide WF;
      hide PlaceOk;
      hide Base;
    }

    // ----- scanning a folder, on any disk

    /** The remembered walk is the one it was, or one of folder f. */
    ghost predicate WalkIn(f: nat, w0: nat, s0: nat, c0: nat)
      reads `g, `walkDir, `walkSkip, `walkCluster
    {
      (walkDir == w0 && walkSkip == s0 && walkCluster == c0) || walkDir == HeadOf(g, f)
    }

    /** Sector s of folder f, or none: lba is 0 past its end, and past the
        device's when a link leads there. */
    method NextSector(f: nat, s: nat) returns (more: bool, lba: nat, sec: Sector)
      requires g.spc > 0 && WalkOk()
      modifies this`walkDir, this`walkSkip, this`walkCluster, this`fatReads, this`folderReads
      ensures WalkOk() && WalkIn(f, old(walkDir), old(walkSkip), old(walkCluster))
      ensures lba == DirSector(g, disk, f, s) && more == HasSector(g, disk, f, s)
              && (more ==> lba < |disk| && sec == disk[lba])
      ensures more && HeadOf(g, f) != 0 ==> walkDir == HeadOf(g, f) && walkSkip == Quot(s, g.spc)
      ensures folderReads == old(folderReads) + if more then 1 else 0
      ensures fatReads <= old(fatReads) + (if HeadOf(g, f) == 0 then 0
        else if old(walkDir) == HeadOf(g, f) && old(walkSkip) <= Quot(s, g.spc)
        then Quot(s, g.spc) - old(walkSkip) else Quot(s, g.spc))
    {
      hide *;
      HasIs(g, disk, f, s);
      lba := DirGetSector(f, s);
      WalkInMake(f, old(walkDir), old(walkSkip), old(walkCluster));
      more, sec := lba != 0, ZeroSector();
      if !more { return; }
      more, sec := ReadSector(lba);
      if more { folderReads := folderReads + 1; }
    }

    lemma WalkInMake(f: nat, w0: nat, s0: nat, c0: nat)
      requires (walkDir == w0 && walkSkip == s0 && walkCluster == c0) || walkDir == HeadOf(g, f)
      ensures WalkIn(f, w0, s0, c0)
    {
    }

    lemma WalkInThen(f: nat, w0: nat, s0: nat, c0: nat, w1: nat, s1: nat, c1: nat)
      requires (w1 == w0 && s1 == s0 && c1 == c0) || w1 == HeadOf(g, f)
      requires WalkIn(f, w1, s1, c1)
      ensures WalkIn(f, w0, s0, c0)
    {
    }

    /** What a scan of folder f may cost: no more sectors than the cap, and one FAT
        read for each cluster that the sectors read fill. */
    ghost predicate Cost(f: nat, reads0: nat, folder0: nat)
      reads `g, `fatReads, `folderReads
    {
      && g.spc > 0 && folder0 <= folderReads <= folder0 + ScanCap(g, f)
      && fatReads <= reads0 + Quot(folderReads - folder0, g.spc)
    }

    lemma CostIs(f: nat, reads0: nat, folder0: nat)
      ensures Cost(f, reads0, folder0) <==>
              && g.spc > 0 && folder0 <= folderReads <= folder0 + ScanCap(g, f)
              && fatReads <= reads0 + Quot(folderReads - folder0, g.spc)
    {
      hide Quot;
      hide ScanCap;
    }

    /** In the middle of a scan of folder f, s sectors into it: what it may have
        cost so far. */
    ghost predicate Scanning(f: nat, s: nat, reads0: nat, folder0: nat, w0: nat, s0: nat, c0: nat)
      reads `g, `disk, `walkDir, `walkSkip, `walkCluster, `fatReads, `folderReads
    {
      && g.spc > 0 && WalkOk() && WalkIn(f, w0, s0, c0) && s <= |Scan(g, disk, f)| && folderReads == folder0 + s
      && fatReads <= reads0 + (if s == 0 || HeadOf(g, f) == 0 then 0 else Quot(s - 1, g.spc))
      && (s > 0 && HeadOf(g, f) != 0 ==> walkDir == HeadOf(g, f) && walkSkip == Quot(s - 1, g.spc))
    }

    lemma ScanningParts(f: nat, s: nat, reads0: nat, folder0: nat, w0: nat, s0: nat, c0: nat)
      requires Scanning(f, s, reads0, folder0, w0, s0, c0)
      ensures g.spc > 0 && WalkOk() && WalkIn(f, w0, s0, c0) && s <= |Scan(g, disk, f)| <= ScanCap(g, f)
              && folderReads == folder0 + s
      ensures Cost(f, reads0, folder0)
    {
      ScanCount(g, disk, f);
      if s > 0 { QuotGrows(s - 1, s, g.spc); }
      hide Quot;
      hide Scan;
      hide WalkOk;
      hide WalkIn;
    }

    lemma ScanningMake(f: nat)
      requires g.spc > 0 && WalkOk()
      ensures Scanning(f, 0, fatReads, folderReads, walkDir, walkSkip, walkCluster)
    {
      hide Scan;
      hide WalkOk;
    }

    /** The next sector of a scan; none, and the whole scan, when s is its end. */
    method ScanNext(f: nat, s: nat, ghost reads0: nat, ghost folder0: nat, ghost w0: nat, ghost s0: nat, ghost c0: nat)
      returns (more: bool, lba: nat, sec: Sector)
      requires Scanning(f, s, reads0, folder0, w0, s0, c0)
      modifies this`walkDir, this`walkSkip, this`walkCluster, this`fatReads, this`folderReads
      ensures WalkOk() && WalkIn(f, w0, s0, c0) && Cost(f, reads0, folder0)
      ensures more == (s < |Scan(g, disk, f)|) && lba == DirSector(g, disk, f, s)
              && (more ==> lba < |disk| && sec == disk[lba])
      ensures more ==> Scanning(f, s + 1, reads0, folder0, w0, s0, c0)
    {
      hide *;
      ScanningAre(f, s, reads0, folder0, w0, s0, c0);
      ScanIndex(g, disk, f, s);
      if s > 0 { QuotGrows(s - 1, s, g.spc); }
      QuotGrows(s, s + 1, g.spc);
      ghost var w1, s1, c1 := walkDir, walkSkip, walkCluster;
      WalkInIs(f, w0, s0, c0);
      more, lba, sec := NextSector(f, s);
      WalkInThen(f, w0, s0, c0, w1, s1, c1);
      if more { ScanningOn(f, s + 1, reads0, folder0, w0, s0, c0); }
      CostIs(f, reads0, folder0);
    }

    lemma WalkInIs(f: nat, w0: nat, s0: nat, c0: nat)
      requires WalkIn(f, w0, s0, c0)
      ensures (walkDir == w0 && walkSkip == s0 && walkCluster == c0) || walkDir == HeadOf(g, f)
    {
    }

    lemma ScanningAre(f: nat, s: nat, reads0: nat, folder0: nat, w0: nat, s0: nat, c0: nat)
      requires Scanning(f, s, reads0, folder0, w0, s0, c0)
      ensures g.spc > 0 && WalkOk() && WalkIn(f, w0, s0, c0) && s <= |Scan(g, disk, f)| && folderReads == folder0 + s
      ensures fatReads <= reads0 + (if s == 0 || HeadOf(g, f) == 0 then 0 else Quot(s - 1, g.spc))
      ensures s > 0 && HeadOf(g, f) != 0 ==> walkDir == HeadOf(g, f) && walkSkip == Quot(s - 1, g.spc)
    {
      hide Quot;
      hide Scan;
      hide WalkOk;
      hide WalkIn;
    }

    lemma ScanningOn(f: nat, s: nat, reads0: nat, folder0: nat, w0: nat, s0: nat, c0: nat)
      requires g.spc > 0 && WalkOk() && WalkIn(f, w0, s0, c0) && s <= |Scan(g, disk, f)| && folderReads == folder0 + s
      requires fatReads <= reads0 + (if s == 0 || HeadOf(g, f) == 0 then 0 else Quot(s - 1, g.spc))
      requires s > 0 && HeadOf(g, f) != 0 ==> walkDir == HeadOf(g, f) && walkSkip == Quot(s - 1, g.spc)
      ensures Scanning(f, s, reads0, folder0, w0, s0, c0)
    {
      hide Quot;
      hide Scan;
      hide WalkOk;
      hide WalkIn;
    }

    /** The slots a search of folder f goes through, whatever is on the disk. */
    ghost function SlotsSeen(f: nat): seq<Ent>
      reads `g, `disk
    {
      if g.spc > 0 then ScanSlots(g, disk, f) else []
    }

    lemma SlotsSeenIs(f: nat)
      requires g.spc > 0
      ensures SlotsSeen(f) == ScanSlots(g, disk, f)
    {
      hide ScanSlots;
    }

    /** The search of find_entry_in, and of fat_delete with filesOnly: through
        the folder's sectors in turn up to the end marker.  On any disk it reads
        no more than the cap of them, and what it finds is a live match. */
    method Search(f: nat, want: Name, filesOnly: bool)
      returns (found: bool, lba: nat, i: nat, sec: Sector, ghost k: nat)
      requires g.spc > 0 && WalkOk()
      modifies this`walkDir, this`walkSkip, this`walkCluster, this`fatReads, this`folderReads
      ensures WalkOk() && WalkIn(f, old(walkDir), old(walkSkip), old(walkCluster))
      ensures k == FindFrom(SlotsSeen(f), want, filesOnly, 0) && found == (k < |SlotsSeen(f)|)
      ensures found ==>
              i < 16 && k == 16 * (k / 16) + i && k / 16 < |Scan(g, disk, f)| && lba == DirSector(g, disk, f, k / 16)
      ensures found ==> lba < |disk| && sec == disk[lba] && SlotsSeen(f)[k] == Decode(g.fat32, sec, i)
      ensures found ==> Matches(SlotsSeen(f)[k], want, filesOnly)
      ensures Cost(f, old(fatReads), old(folderReads))
    {
      hide *;
      SlotsSeenIs(f);
      ScanCount(g, disk, f);
      ghost var reads0, folder0, w0, s0, c0 := fatReads, folderReads, walkDir, walkSkip, walkCluster;
      ScanningMake(f);
      var s: nat := 0;
      k := |SlotsSeen(f)|;
      found, lba, i, sec := false, 0, 0, ZeroSector();
      while true
        invariant Scanning(f, s, reads0, folder0, w0, s0, c0) && s <= |Scan(g, disk, f)| && !found
                  && k == |SlotsSeen(f)|
        invariant FindFrom(SlotsSeen(f), want, filesOnly, 0) == FindFrom(SlotsSeen(f), want, filesOnly, 16 * s)
        decreases ScanCap(g, f) - s
      {
        var more;
        more, lba, sec := ScanNext(f, s, reads0, folder0, w0, s0, c0);
        if !more {
          FindHere(SlotsSeen(f), want, filesOnly, 16 * s);
          return;
        }
        ScanningParts(f, s + 1, reads0, folder0, w0, s0, c0);
        ScanSector(g, disk, f, s);
        var hit, end;
        hit, end, i := SearchSector(g.fat32, sec, want, filesOnly);
        FindInSector(g.fat32, SlotsSeen(f), sec, s, i, want, filesOnly);
        if end { return; }
        if hit {
          found, k := true, 16 * s + i;
          return;
        }
        s := s + 1;
      }
    }

    /** find_free_slot: the first slot of folder f that is deleted or unused. */
    method FindFreeSlot(f: nat) returns (found: bool, lba: nat, i: nat, ghost k: nat)
      requires g.spc > 0 && WalkOk()
      modifies this`walkDir, this`walkSkip, this`walkCluster, this`fatReads, this`folderReads
      ensures WalkOk() && WalkIn(f, old(walkDir), old(walkSkip), old(walkCluster))
      ensures k == FreeFrom(SlotsSeen(f), 0) && found == (k < |SlotsSeen(f)|)
      ensures found ==>
              i < 16 && k == 16 * (k / 16) + i && k / 16 < |Scan(g, disk, f)| && lba == DirSector(g, disk, f, k / 16)
      ensures Cost(f, old(fatReads), old(folderReads))
    {
      hide *;
      SlotsSeenIs(f);
      ScanCount(g, disk, f);
      ghost var reads0, folder0, w0, s0, c0 := fatReads, folderReads, walkDir, walkSkip, walkCluster;
      ScanningMake(f);
      var s: nat, sec: Sector := 0, ZeroSector();
      k := |SlotsSeen(f)|;
      found, lba, i := false, 0, 0;
      while true
        invariant Scanning(f, s, reads0, folder0, w0, s0, c0) && s <= |Scan(g, disk, f)| && !found
                  && k == |SlotsSeen(f)|
        invariant forall j | 0 <= j < 16 * s :: !IsFree(SlotsSeen(f)[j])
        decreases ScanCap(g, f) - s
      {
        var more;
        more, lba, sec := ScanNext(f, s, reads0, folder0, w0, s0, c0);
        if !more {
          FreeUnique(SlotsSeen(f), k);
          return;
        }
        ScanningParts(f, s + 1, reads0, folder0, w0, s0, c0);
        ScanSector(g, disk, f, s);
        found, i := FreeInSector(g.fat32, sec);
        UsedSector(g.fat32, SlotsSeen(f), sec, s, i);
        if found {
          k := 16 * s + i;
          FreeUnique(SlotsSeen(f), k);
          return;
        }
        s := s + 1;
      }
    }

    // ----- scanning a folder of the mounted volume

    /** A scan of one of its folders leaves the volume's caches in order. */
    lemma Rewalked(f: nat, w0: nat, s0: nat, c0: nat)
      requires Base() && mounted && WF(g, disk, m) && cwd in m.depth && f in m.depth
      requires PlaceOk(m, w0, s0, c0) && PlaceOk(m, atFirst, atIndex, atCluster) && WalkOk() && WalkIn(f, w0, s0, c0)
      ensures Valid()
    {
      hide *;
      WalkOkParts();
      WalkInIs(f, w0, s0, c0);
      FolderHead(g, disk, m, f);
      if walkDir != 0 && walkDir == HeadOf(g, f) { WalkPlace(g, disk, m, walkDir, walkSkip, walkCluster); }
      PlaceNone(m, walkSkip, walkCluster);
      ValidMake();
    }

    lemma ValidWalk()
      requires Valid()
      ensures WalkOk() && g.spc > 0
    {
      hide *;
      ValidParts();
      PlaceWalk(g, disk, m, walkDir, walkSkip, walkCluster);
      WalkOkMake();
    }

    /** The slots of folder f as the disk shows them. */
    ghost function FolderNow(f: nat): seq<Ent>
      reads `g, `disk
    {
      DiskSlots(g, disk, f)
    }

    lemma FolderNowIs(f: nat)
      requires WF(g, disk, m) && f in m.depth
      ensures f in DirsOf(g, disk, m) && FolderNow(f) == DiskSlots(g, disk, f) == Seen(g, f, DirsOf(g, disk, m)[f])
      ensures FolderNow(f) <= DirsOf(g, disk, m)[f]
    {
      hide *;
      DiskSlotsOf(g, disk, m, f);
      SeenFolder(g, disk, m, f);
      NowIs(f);
    }

    lemma NowIs(f: nat)
      ensures FolderNow(f) == DiskSlots(g, disk, f)
    {
      hide DiskSlots;
    }

    /** On the mounted volume a scan goes through the folder's slots. */
    lemma FolderScanned(f: nat)
      requires WF(g, disk, m) && f in m.depth && g.spc > 0
      ensures SlotsSeen(f) == FolderNow(f) && |FolderNow(f)| == 16 * |Scan(g, disk, f)|
              && DirSector(g, disk, f, |Scan(g, disk, f)|) == 0
      ensures forall i: nat | i < |Scan(g, disk, f)| ::
              DirSector(g, disk, f, i) == FolderLba(g, m, f, i) && i < FolderSize(g, m, f)
    {
      hide *;
      ScanIsFolder(g, disk, m, f);
      ScanCount(g, disk, f);
      SlotsSeenIs(f);
      NowIs(f);
    }

    /** Search, in a folder of the volume. */
    method SearchFolder(f: nat, want: Name, filesOnly: bool)
      returns (found: bool, lba: nat, i: nat, sec: Sector, ghost k: nat)
      requires Valid() && f in m.depth
      modifies this`walkDir, this`walkSkip, this`walkCluster, this`fatReads, this`folderReads
      ensures Valid() && k == FindFrom(FolderNow(f), want, filesOnly, 0) && found == (k < |FolderNow(f)|)
      ensures found ==>
              i < 16 && k == 16 * (k / 16) + i && k / 16 < FolderSize(g, m, f) && lba == FolderLba(g, m, f, k / 16)
      ensures found ==> lba < |disk| && sec == disk[lba] && FolderNow(f)[k] == Decode(g.fat32, sec, i)
      ensures Cost(f, old(fatReads), old(folderReads))
    {
      hide *;
      ValidParts();
      ValidWalk();
      FolderScanned(f);
      ghost var w0, s0, c0 := walkDir, walkSkip, walkCluster;
      found, lba, i, sec, k := Search(f, want, filesOnly);
      Rewalked(f, w0, s0, c0);
    }

    /** FindFreeSlot, in a folder of the volume. */
    method FreeSlotOf(f: nat) returns (found: bool, lba: nat, i: nat, ghost k: nat)
      requires Valid() && f in m.depth
      modifies this`walkDir, this`walkSkip, this`walkCluster, this`fatReads, this`folderReads
      ensures Valid() && k == FreeFrom(FolderNow(f), 0) && found == (k < |FolderNow(f)|)
      ensures found ==>
              i < 16 && k == 16 * (k / 16) + i && k / 16 < FolderSize(g, m, f) && lba == FolderLba(g, m, f, k / 16)
    {
      hide *;
      ValidParts();
      ValidWalk();
      FolderScanned(f);
      ghost var w0, s0, c0 := walkDir, walkSkip, walkCluster;
      found, lba, i, k := FindFreeSlot(f);
      Rewalked(f, w0, s0, c0);
    }

    /** A write to the root folder or the data area. */
    method WriteAbove(lba: nat, buf: Sector) returns (ok: bool)
      requires Base() && g.RootStart() <= lba
      modifies this`disk, this`past, this`refused
      ensures Base() && |disk| == |old(disk)|
      ensures ok ==> lba < |disk| && disk == old(disk)[lba := buf] && past == old(past) + [disk]
      ensures !ok ==> disk == old(disk) && past == old(past) && (lba < |disk| ==> !reliable)
      ensures Table(g, disk) == Table(g, old(disk))
      ensures refused == if ok then old(refused) else old(refused) + [lba]
      ensures old(WalkOk() && WalkInTable(g, disk, walkDir, walkSkip)) ==> WalkOk()
    {
      hide *;
      BaseParts();
      ghost var d0, p0, hon, mir := disk, past, honest && reliable, mirrored && reliable;
      ghost var w := WalkOk() && WalkInTable(g, disk, walkDir, walkSkip);
      if w { WalkOkParts(); }
      ok := WriteSector(lba, buf);
      if ok {
        AboveState(g, d0, lba, buf, stays, hon, mir);
        if w { WalkSame(g, d0, disk, walkDir, walkSkip); }
        HistoryMore(g, p0, disk, |disk|, stays, hon, mir);
      } else {
        HistoryWeaker(g, past, |disk|, stays, hon, mir, honest && reliable, mirrored && reliable);
      }
      if w { WalkOkMake(); }
      BaseMake();
    }

    /** at_first = 0: the position in a file is forgotten. */
    lemma ForgetAt()
      requires Base() && mounted && WF(g, disk, m) && cwd in m.depth && PlaceOk(m, walkDir, walkSkip, walkCluster)
               && atFirst == 0
      ensures Valid()
    {
      hide *;
      PlaceNone(m, atIndex, atCluster);
      ValidMake();
    }

    /** Entry k of the current folder may go: a file, or an empty folder. */
    ghost predicate Droppable(k: nat)
      reads `g, `disk, `m, `cwd
    {
      && cwd in m.depth && k < |FolderNow(cwd)| && k / 16 < FolderSize(g, m, cwd)
      && Removable(g, m, DirsOf(g, disk, m), cwd, k, FolderNow(cwd)[k].cluster)
    }

    lemma DroppableParts(k: nat)
      requires Droppable(k)
      ensures cwd in m.depth && k < |FolderNow(cwd)| && k / 16 < FolderSize(g, m, cwd)
      ensures Removable(g, m, DirsOf(g, disk, m), cwd, k, FolderNow(cwd)[k].cluster)
    {
    }

    /** The common end of fat_delete and fat_rmdir: one sector write takes the
        entry away, and only then is its chain freed. */
    method DropEntry(lba: nat, sec: Sector, i: nat, ghost k: nat) returns (ok: bool)
      requires Valid() && atFirst == 0 && Droppable(k) && i == k % 16 && lba == FolderLba(g, m, cwd, k / 16)
      requires lba < |disk| && sec == disk[lba]
      modifies this`disk, this`past, this`refused, this`fsinfoDone, this`walkDir, this`fatReads, this`m
      ensures Valid() && (!ok ==> !reliable)
      ensures !ok ==> disk == old(disk) && past == old(past) && m == old(m)
      ensures ok ==> old(past) < past
      ensures ok ==> Changed(g, old(disk), old(m), past, |old(past)|, disk, m, cwd, old(FolderNow(cwd)[k].name), Absent)
      ensures ok && reliable ==>
        FreeGrew(Table(g, old(disk)), Table(g, disk), DiskChain(g, old(disk), old(FolderNow(cwd)[k].cluster)))
      ensures ok ==> m == Without(old(m), old(FolderNow(cwd)[k].cluster))
    {
      hide *;
      ghost var d0, m0, p0, f := disk, m, past, cwd;
      DroppableParts(k);
      ValidParts();
      FolderNowIs(f);
      SlotThere(g, disk, m, f, k / 16, i);
      ghost var e := FolderNow(f)[k];
      SlotIs(g, disk, m, f, k);
      var first := Decode(g.fat32, sec, i).cluster;
      var x: Sector := sec[32 * i := DELETED];
      CommitRemove(g, disk, m, f, k / 16, i, lba, x, disk[lba := x], e);
      ok := WriteAbove(lba, x);
      if !ok {
        ValidMake();
        return;
      }
      ghost var d1 := disk;
      m := Without(m0, first);
      HeadToo(g, d0, m0, f, k);
      LetGo(g, d0, m0, d1, first);
      UsedInTables(g, d1, m);
      ClearedGrows(g, d0, m0, first);
      ReleaseChain(first, Used(m));
      TreeChanged(g, d0, m0, d1, m, f, e.name, Absent);
      UnchangedNone(g, d0, m0, p0);
      AllAtomic(g, d0, m0, |p0|, p0, d1, m, past, disk, f, e.name, Absent);
      AfterParts(g, d0, m, disk, f, e.name, Absent);
      ChangedMake(g, d0, m0, past, |p0|, disk, m, f, e.name, Absent);
      if first >= 2 { PlaceNone(m, walkSkip, walkCluster); }
      ForgetAt();
    }

    /** Deletes a file of the current folder: its entry first, then its chain. */
    method FatDelete(name: CString) returns (ok: bool)
      requires mounted ==> Valid()
      modifies this
      ensures stays == old(stays) && honest == old(honest) && mirrored == old(mirrored)
      ensures g == old(g) && mounted == old(mounted) && cwd == old(cwd) && (mounted ==> Valid())
      ensures !mounted ==> !ok && disk == old(disk) && past == old(past)
      ensures mounted ==> DeleteDone(g, old(disk), old(past), old(m), disk, past, m, cwd, FatName(name), ok, reliable)
    {
      hide *;
      if mounted { ValidParts(); }
      atFirst := 0;
      if !mounted { return false; }
      ForgetAt();
      ok := DeleteNamed(name);
    }

    /** fat_delete from the search for the name on. */
    method DeleteNamed(name: CString) returns (ok: bool)
      requires Valid() && atFirst == 0
      modifies this`disk, this`past, this`refused, this`fsinfoDone, this`walkDir, this`walkSkip, this`walkCluster
      modifies this`fatReads, this`folderReads, this`m
      ensures Valid()
      ensures DeleteDone(g, old(disk), old(past), old(m), disk, past, m, cwd, FatName(name), ok, reliable)
    {
      hide *;
      ghost var d0, p0, m0 := disk, past, m;
      ValidParts();
      var want := ToFatName(name);
      FatNameFirst(name);
      FolderNowIs(cwd);
      FileSearch(g, disk, m, cwd, want);
      FilesFoundIs(g, disk, m, cwd, want);
      ghost var k;
      var lba, i, sec;
      ok, lba, i, sec, k := SearchFolder(cwd, want, true);
      if !ok {
        DeleteKept(g, d0, p0, m0, cwd, want, reliable);
        return;
      }
      NamedHere(g, disk, cwd, want, k);
      RemovableFile(g, m, DirsOf(g, disk, m), cwd, k);
      DroppableMake(k);
      FileMatch(FolderNow(cwd)[k], want);
      MatchName(FolderNow(cwd)[k], want, true);
      ok := DropEntry(lba, sec, i, k);
      if ok {
        DeleteMake(g, d0, p0, m0, disk, past, m, cwd, want, reliable);
      } else {
        DeleteKept(g, d0, p0, m0, cwd, want, reliable);
      }
    }

    lemma DroppableMake(k: nat)
      requires cwd in m.depth && k < |FolderNow(cwd)| && k / 16 < FolderSize(g, m, cwd)
      requires Removable(g, m, DirsOf(g, disk, m), cwd, k, FolderNow(cwd)[k].cluster)
      ensures Droppable(k)
    {
    }

    /** find_entry_in: on any disk what it finds is a live entry of the name. */
    method FindEntryIn(f: nat, name: CString) returns (found: bool, e: Ent, ghost k: nat)
      requires g.spc > 0 && WalkOk()
      modifies this`walkDir, this`walkSkip, this`walkCluster, this`fatReads, this`folderReads
      modifies this`matchedLba, this`matchedIndex
      ensures WalkOk() && WalkIn(f, old(walkDir), old(walkSkip), old(walkCluster))
      ensures k == Find(SlotsSeen(f), FatName(name)) && found == (k < |SlotsSeen(f)|)
      ensures found ==> e == SlotsSeen(f)[k] && Live(e) && e.name == FatName(name)
      ensures found ==>
              matchedIndex == k % 16 && k / 16 < |Scan(g, disk, f)|
              && matchedLba == DirSector(g, disk, f, k / 16) < |disk|
      ensures Cost(f, old(fatReads), old(folderReads))
    {
      hide *;
      var want := ToFatName(name);
      FindIs(SlotsSeen(f), want);
      var lba, i, sec;
      found, lba, i, sec, k := Search(f, want, false);
      e := Decode(g.fat32, ZeroSector(), 0);
      if found {
        matchedLba, matchedIndex := lba, i;
        e := Decode(g.fat32, sec, i);
        MatchName(SlotsSeen(f)[k], want, false);
      }
    }

    /** FindEntryIn, in a folder of the volume. */
    method FindEntry(f: nat, name: CString) returns (found: bool, e: Ent, ghost k: nat)
      requires Valid() && f in m.depth
      modifies this`walkDir, this`walkSkip, this`walkCluster, this`fatReads, this`folderReads
      modifies this`matchedLba, this`matchedIndex
      ensures Valid() && k == Find(FolderNow(f), FatName(name)) && found == (k < |FolderNow(f)|)
      ensures found ==> e == FolderNow(f)[k] && Child(e) && e.name == FatName(name) && KidOk(g, m, f, k, e)
      ensures found ==> matchedIndex == k % 16 && k / 16 < FolderSize(g, m, f)
      ensures found ==> matchedLba == FolderLba(g, m, f, k / 16) && matchedLba < |disk|
      ensures Lookup(g, disk, f, FatName(name)) == if found then NodeOf(g, disk, e) else Absent
      ensures Cost(f, old(fatReads), old(folderReads))
    {
      hide *;
      ValidParts();
      ValidWalk();
      FolderScanned(f);
      FatNameFirst(name);
      LookupEntry(g, disk, m, f, FatName(name));
      NowIs(f);
      ghost var w0, s0, c0 := walkDir, walkSkip, walkCluster;
      found, e, k := FindEntryIn(f, name);
      Rewalked(f, w0, s0, c0);
    }

    /** What fat_rmdir takes for an empty folder: only deleted and dot names up
        to the first end marker, or to where its sectors end. */
    ghost predicate LooksEmpty(f: nat)
      reads `g, `disk
    {
      && g.spc > 0
      && var s := SlotsSeen(f);
      var n := DotsFrom(s, 0);
      if n < |s| then s[n].name[0] == END else DirSector(g, disk, f, |Scan(g, disk, f)|) == 0
    }

    lemma LooksEmptyIs(f: nat, n: nat)
      requires g.spc > 0 && n <= |SlotsSeen(f)| && n == DotsFrom(SlotsSeen(f), 0)
      ensures LooksEmpty(f) <==>
        if n < |SlotsSeen(f)| then SlotsSeen(f)[n].name[0] == END else DirSector(g, disk, f, |Scan(g, disk, f)|) == 0
    {
      hide SlotsSeen;
      hide DirSector;
      hide Scan;
    }

    /** The check of fat_rmdir. */
    method FolderEmpty(f: nat) returns (empty: bool)
      requires g.spc > 0 && WalkOk()
      modifies this`walkDir, this`walkSkip, this`walkCluster, this`fatReads, this`folderReads
      ensures WalkOk() && WalkIn(f, old(walkDir), old(walkSkip), old(walkCluster))
      ensures empty == LooksEmpty(f)
      ensures Cost(f, old(fatReads), old(folderReads))
      ensures var s := SlotsSeen(f);
              empty <==>
                && (!exists k | 0 <= k < |s| :: s[k].name[0] != 0 && s[k].name[0] != 0xE5 && s[k].name[0] != 0x2E
                                                && forall j | 0 <= j < k :: s[j].name[0] != 0)
                && ((forall k | 0 <= k < |s| :: s[k].name[0] == 0xE5 || s[k].name[0] == 0x2E) ==>
                      DirSector(g, disk, f, |Scan(g, disk, f)|) == 0)
    {
      hide *;
      SlotsSeenIs(f);
      ScanCount(g, disk, f);
      DotsBytes(SlotsSeen(f));
      LooksEmptyIs(f, DotsFrom(SlotsSeen(f), 0));
      ghost var reads0, folder0, w0, s0, c0 := fatReads, folderReads, walkDir, walkSkip, walkCluster;
      ScanningMake(f);
      var s: nat := 0;
      while true
        invariant Scanning(f, s, reads0, folder0, w0, s0, c0) && s <= |Scan(g, disk, f)|
        invariant forall j | 0 <= j < 16 * s :: DotOrDeleted(SlotsSeen(f)[j])
        decreases ScanCap(g, f) - s
      {
        var more, lba, sec := ScanNext(f, s, reads0, folder0, w0, s0, c0);
        if !more {
          DotsUnique(SlotsSeen(f), 16 * s);
          LooksEmptyIs(f, 16 * s);
          return lba == 0;
        }
        ScanningParts(f, s + 1, reads0, folder0, w0, s0, c0);
        ScanSector(g, disk, f, s);
        var end, full, i := DotsInSector(g.fat32, sec);
        DotsSoFar(g.fat32, SlotsSeen(f), sec, s, i);
        if end || full {
          EndNoDot(SlotsSeen(f)[16 * s + i]);
          DotsUnique(SlotsSeen(f), 16 * s + i);
          LooksEmptyIs(f, 16 * s + i);
          return end;
        }
        s := s + 1;
      }
    }

    /** FolderEmpty, in a folder of the volume. */
    method EmptyFolderHere(f: nat) returns (empty: bool)
      requires Valid() && f in m.depth
      modifies this`walkDir, this`walkSkip, this`walkCluster, this`fatReads, this`folderReads
      ensures Valid() && empty == OnlyDots(FolderNow(f))
    {
      hide *;
      ValidParts();
      ValidWalk();
      FolderScanned(f);
      FolderNowIs(f);
      SeenFolder(g, disk, m, f);
      DotsAll(FolderNow(f));
      LooksEmptyIs(f, DotsFrom(FolderNow(f), 0));
      ghost var w0, s0, c0 := walkDir, walkSkip, walkCluster;
      empty := FolderEmpty(f);
      Rewalked(f, w0, s0, c0);
    }

    /** Removes an empty subfolder of the current folder. */
    method FatRmdir(name: CString) returns (ok: bool)
      requires mounted ==> Valid()
      modifies this
      ensures stays == old(stays) && honest == old(honest) && mirrored == old(mirrored)
      ensures g == old(g) && mounted == old(mounted) && cwd == old(cwd) && (mounted ==> Valid())
      ensures !mounted || name == [] ==> !ok && disk == old(disk) && past == old(past) && m == old(m)
      ensures mounted && name != [] ==>
        RmdirDone(g, old(disk), old(past), old(m), disk, past, m, cwd, FatName(name), ok, reliable)
      ensures mounted && name != [] && reliable ==> (match Lookup(g, old(disk), cwd, FatName(name))
        case FolderNode(c) =>
          var s := DiskSlots(g, old(disk), c);
          ok <==> !exists k | 0 <= k < |s| :: s[k].name[0] != 0 && s[k].name[0] != 0xE5 && s[k].name[0] != 0x2E
                                              && forall j | 0 <= j < k :: s[j].name[0] != 0
        case _ => !ok)
    {
      hide *;
      if mounted { ValidParts(); }
      atFirst := 0;
      if !mounted || |name| == 0 {
        if mounted { ForgetAt(); }
        return false;
      }
      ForgetAt();
      ghost var d0, p0, m0, n := disk, past, m, FatName(name);
      ghost var node := Lookup(g, d0, cwd, n);
      ok := RemoveNamed(name);
      RmdirWhen(g, d0, p0, m0, disk, past, m, cwd, n, ok, reliable);
      if node.FolderNode? {
        LookupFolder(g, d0, m0, cwd, n);
        SeenFolder(g, d0, m0, node.cluster);
        OnlyDotsBytes(DiskSlots(g, d0, node.cluster));
      }
    }

    /** fat_rmdir from the search for the name on. */
    method RemoveNamed(name: CString) returns (ok: bool)
      requires Valid() && atFirst == 0
      modifies this`disk, this`past, this`refused, this`fsinfoDone, this`walkDir, this`walkSkip, this`walkCluster
      modifies this`fatReads, this`folderReads, this`matchedLba, this`matchedIndex, this`m
      ensures Valid()
      ensures RmdirDone(g, old(disk), old(past), old(m), disk, past, m, cwd, FatName(name), ok, reliable)
    {
      hide *;
      ghost var d0, p0, m0, want := disk, past, m, FatName(name);
      ValidParts();
      var e: Ent;
      ghost var k;
      ok, e, k := FindEntry(cwd, name);
      if ok { NodeKind(g, disk, e); }
      if !ok || !IsDir(e) {
        RmdirKept(g, d0, p0, m0, cwd, want, reliable);
        return false;
      }
      FolderNowIs(cwd);
      KidFolder(g, disk, m, cwd, k);
      var first := e.cluster;
      var elba, eidx := matchedLba, matchedIndex;
      if first < 2 { return false; }
      FolderNowIs(first);
      ok := EmptyFolderHere(first);
      if !ok {
        RmdirKept(g, d0, p0, m0, cwd, want, reliable);
        return;
      }
      ValidParts();
      FolderNowIs(first);
      SeenFolder(g, disk, m, first);
      DotsEmpty(FolderNow(first));
      RemovableFolder(g, m, DirsOf(g, disk, m), cwd, k);
      DroppableMake(k);
      var sec;
      ok, sec := ReadSector(elba);
      if !ok { return; }
      ok := DropEntry(elba, sec, eidx, k);
      if ok {
        RmdirMake(g, d0, p0, m0, disk, past, m, cwd, want, first, reliable);
      } else {
        RmdirKept(g, d0, p0, m0, cwd, want, reliable);
      }
    }

    /** Sector s of cluster c, which is not one of u. */
    method WriteFresh(c: nat, s: nat, buf: Sector, ghost u: set<nat>) returns (ok: bool)
      requires Base() && InTables(g, u) && InTable(g, c) && c !in u && s < g.spc
      modifies this`disk, this`past, this`refused
      ensures Base() && (!ok ==> !reliable) && Table(g, disk) == Table(g, old(disk))
      ensures old(past) <= past && KeptFrom(g, old(disk), |old(past)|, past, disk, u)
      ensures ok ==> 0 <= g.Lba(c) + s < |old(disk)| && disk == old(disk)[g.Lba(c) + s := buf]
      ensures !ok ==> disk == old(disk)
      ensures Aside(g, u, old(refused), refused)
    {
      hide *;
      BaseParts();
      ghost var d0, p0 := disk, past;
      KeptSelf(g, disk, past, u);
      KeepsFresh(g, d0, c, s, buf, u);
      AsideSelf(g, u, refused);
      AsideOne(g, u, refused, c, s, Wrap(ClusterToLba(g, c) + s));
      ok := WriteAbove(Wrap(ClusterToLba(g, c) + s), buf);
      if ok { KeptOne(g, d0, |p0|, p0, d0, disk, u); }
    }

    /** The sectors of a new folder: dot entries, then blank ones. */
    method NewFolderSectors(c: nat, parent: nat, ghost u: set<nat>) returns (ok: bool)
      requires Base() && InTables(g, u) && InTable(g, c) && c !in u
      modifies this`disk, this`past, this`refused
      ensures Base() && (!ok ==> !reliable) && Table(g, disk) == Table(g, old(disk))
      ensures old(past) <= past && KeptFrom(g, old(disk), |old(past)|, past, disk, u)
      ensures ok ==> Sec(g, disk, c, 0) == DotSector(g.fat32, c, parent) && forall s: nat | 1 <= s < g.spc ::
              Sec(g, disk, c, s) == ZeroSector()
    {
      hide *;
      BaseParts();
      GeoPositive(g);
      ghost var d0, p0 := disk, past;
      ghost var d1, p1 := disk, past;
      ok := WriteFresh(c, 0, DotSector(g.fat32, c, parent), u);
      if !ok { return; }
      BaseParts();
      SecWritten(g, d1, c, 0, DotSector(g.fat32, c, parent), c, 0);
      var s: nat := 1;
      while s < g.spc
        invariant 1 <= s <= g.spc && Base() && Table(g, disk) == Table(g, d0)
        invariant p0 <= past && KeptFrom(g, d0, |p0|, past, disk, u)
        invariant Sec(g, disk, c, 0) == DotSector(g.fat32, c, parent)
        invariant forall j: nat | 1 <= j < s :: Sec(g, disk, c, j) == ZeroSector()
      {
        d1, p1 := disk, past;
        BaseParts();
        ok := WriteFresh(c, s, ZeroSector(), u);
        KeptThen(g, d0, |p0|, p1, d1, past, disk, u);
        if !ok { return; }
        forall j: nat | j < g.spc
          ensures Sec(g, disk, c, j) == if j == s then ZeroSector() else Sec(g, d1, c, j)
        {
          SecWritten(g, d1, c, s, ZeroSector(), c, j);
        }
        s := s + 1;
      }
      ok := true;
    }

    lemma KeptPlaces(m0: Model, m1: Model, h: nat, i: nat, c: nat)
      requires PlaceOk(m0, h, i, c) && ChainsStay(m0, m1)
      ensures PlaceOk(m1, h, i, c)
    {
    }

    /** Makes an empty folder in the current folder: its cluster c first, then
        the one entry that shows it. */
    method FatMkdir(name: CString) returns (ok: bool, ghost c: nat)
      requires mounted ==> Valid()
      modifies this
      ensures stays == old(stays) && honest == old(honest) && mirrored == old(mirrored)
      ensures g == old(g) && mounted == old(mounted) && cwd == old(cwd) && (mounted ==> Valid())
      ensures !mounted || name == [] ==> !ok && disk == old(disk) && past == old(past) && m == old(m)
      ensures mounted && name != [] ==>
        MkdirDone(g, old(disk), old(past), old(m), disk, past, m, cwd, FatName(name), c, ok, reliable)
      ensures old(past) <= past
      ensures mounted && name != [] && reliable ==>
              var s := DiskSlots(g, old(disk), cwd);
              ok <==>
                && Lookup(g, old(disk), cwd, FatName(name)) == Absent
                && (exists k | 0 <= k < |s| :: s[k].name[0] == 0 || s[k].name[0] == 0xE5)
                && (exists x: nat | 2 <= x < g.total + 2 :: FatGet(g, old(disk), x) == 0)
      ensures ok ==> NewFolder(g, disk, c, cwd) && DiskChain(g, disk, c) == [c] && OnlyDots(DiskSlots(g, disk, c))
    {
      hide *;
      if mounted { ValidParts(); }
      c := 0;
      atFirst := 0;
      if !mounted || |name| == 0 {
        if mounted { ForgetAt(); }
        return false, 0;
      }
      ForgetAt();
      ghost var d0, p0, m0, n := disk, past, m, FatName(name);
      ok, c := MakeNamed(name);
      MkdirPlain(g, d0, p0, m0, disk, past, m, cwd, n, c, ok, reliable);
      if ok { FolderMade(c); }
    }

    lemma FolderMade(c: nat)
      requires Valid() && NewFolder(g, disk, c, cwd)
      ensures DiskChain(g, disk, c) == [c] && OnlyDots(DiskSlots(g, disk, c)) && |DiskSlots(g, disk, c)| == 16 * g.spc
      ensures forall k | 0 <= k < |DiskSlots(g, disk, c)| ::
              DiskSlots(g, disk, c)[k].name[0] == 0 || DiskSlots(g, disk, c)[k].name[0] == 0x2E
    {
      hide *;
      ValidParts();
      FolderFits(g, disk, m, cwd);
      NewFolderParts(g, disk, c, cwd);
      ClusterFits(g, c);
      ClusterFits(g, cwd);
      NewFolderShows(g, disk, c, cwd);
    }

    /** fat_mkdir from the search for the name on. */
    method MakeNamed(name: CString) returns (ok: bool, ghost c: nat)
      requires Valid() && atFirst == 0
      modifies this`disk, this`past, this`refused, this`fsinfoDone, this`walkDir, this`walkSkip, this`walkCluster
      modifies this`allocHint, this`fatReads, this`folderReads, this`matchedLba, this`matchedIndex, this`m
      ensures Valid() && old(past) <= past
      ensures MkdirDone(g, old(disk), old(past), old(m), disk, past, m, cwd, FatName(name), c, ok, reliable)
      ensures ok ==> NewFolder(g, disk, c, cwd)
    {
      hide *;
      ghost var d0, p0, m0, want := disk, past, m, FatName(name);
      ValidParts();
      NothingYet(past);
      c := 0;
      FatNameFirst(name);
      FolderNowIs(cwd);
      NoFolderIs(g, disk, cwd, want);
      var taken, e, k0 := FindEntry(cwd, name);
      if taken {
        NodeKind(g, disk, e);
        MkdirKept(g, d0, p0, m0, disk, past, cwd, want, 0, reliable);
        return false, 0;
      }
      var slotLba, slotIdx;
      ghost var k;
      ok, slotLba, slotIdx, k := FreeSlotOf(cwd);
      if !ok {
        MkdirKept(g, d0, p0, m0, disk, past, cwd, want, c, reliable);
        return;
      }
      ok, c := PlaceFolder(FatName(name), slotLba, slotIdx, k);
    }

    lemma NothingYet(p0: seq<Disk>)
      requires WF(g, disk, m) && p0 == past
      ensures p0 <= past && Stayed(g, disk, m, past, |p0|, disk)
    {
      hide *;
      UnchangedNone(g, disk, m, past);
      KeepsSelf(g, disk, Used(m));
      BeforeKept(g, disk, m, disk);
      StayedMake(g, disk, m, past, |p0|, disk);
    }

    /** In the middle of an operation that began on disk d0: nothing in use has
        been touched, and the caches still fit. */
    ghost predicate Underway(d0: Disk, p0: seq<Disk>)
      reads `disk, `past, `g, `fields, `fsinfoDone, `stays, `honest, `mirrored, `mounted, `cwd, `m, `atFirst
      reads `walkDir, `walkSkip, `walkCluster
    {
      && Base() && mounted && WF(g, d0, m) && cwd in m.depth && p0 <= past && atFirst == 0
      && PlaceOk(m, walkDir, walkSkip, walkCluster) && KeptFrom(g, d0, |p0|, past, disk, Used(m))
    }

    lemma UnderwayParts(d0: Disk, p0: seq<Disk>)
      requires Underway(d0, p0)
      ensures Base() && mounted && WF(g, d0, m) && cwd in m.depth && p0 <= past && atFirst == 0
      ensures PlaceOk(m, walkDir, walkSkip, walkCluster) && KeptFrom(g, d0, |p0|, past, disk, Used(m))
              && Keeps(g, d0, disk, Used(m))
      ensures WF(g, disk, m) && InTables(g, Used(m)) && GeoOk(g) && Fits(g, disk) && |disk| == |d0|
    {
      hide *;
      hide Underway;
      UnderwayAre(d0, p0);
      BaseParts();
      KeptKeeps(g, d0, |p0|, past, disk, Used(m));
      KeepsWF(g, d0, disk, m);
      UsedInTables(g, d0, m);
      KeepsSize(g, d0, disk, Used(m));
    }

    lemma UnderwayAre(d0: Disk, p0: seq<Disk>)
      requires Underway(d0, p0)
      ensures Base() && mounted && WF(g, d0, m) && cwd in m.depth && p0 <= past && atFirst == 0
      ensures PlaceOk(m, walkDir, walkSkip, walkCluster) && KeptFrom(g, d0, |p0|, past, disk, Used(m))
    {
      hide Base;
      hide WF;
      hide KeptFrom;
      hide PlaceOk;
    }

    lemma UnderwayMake(d0: Disk, p0: seq<Disk>)
      requires Base() && mounted && WF(g, d0, m) && cwd in m.depth && p0 <= past && atFirst == 0
      requires PlaceOk(m, walkDir, walkSkip, walkCluster) && KeptFrom(g, d0, |p0|, past, disk, Used(m))
      ensures Underway(d0, p0)
    {
      hide Base;
      hide WF;
      hide KeptFrom;
    }

    /** An operation given up on the way leaves the volume as it was. */
    lemma GivenUp(d0: Disk, p0: seq<Disk>)
      requires Underway(d0, p0)
      ensures Valid() && Stayed(g, d0, m, past, |p0|, disk)
    {
      hide *;
      UnderwayParts(d0, p0);
      AllBefore(g, d0, m, past, |p0|, disk);
      StayedMake(g, d0, m, past, |p0|, disk);
      ForgetAt();
    }

    /** The rest of fat_mkdir, once a slot is found. */
    method PlaceFolder(want: Name, slotLba: nat, slotIdx: nat, ghost k: nat) returns (ok: bool, ghost c: nat)
      requires Valid() && atFirst == 0 && k == FreeFrom(FolderNow(cwd), 0) < |FolderNow(cwd)|
      requires slotIdx < 16 && k == 16 * (k / 16) + slotIdx && k / 16 < FolderSize(g, m, cwd)
               && slotLba == FolderLba(g, m, cwd, k / 16)
      requires Lookup(g, disk, cwd, want) == Absent && want[0] != END && want[0] != DOTCHAR && !IsDot(want)
      modifies this`disk, this`past, this`refused, this`fsinfoDone, this`walkDir, this`allocHint, this`fatReads, this`m
      ensures Valid() && old(past) <= past
      ensures MkdirDone(g, old(disk), old(past), old(m), disk, past, m, cwd, want, c, ok, reliable)
      ensures ok ==> NewFolder(g, disk, c, cwd)
    {
      hide *;
      ghost var d0, p0, m0 := disk, past, m;
      ghost var u := Used(m);
      ValidParts();
      FolderNowIs(cwd);
      NoFolderIs(g, disk, cwd, want);
      FreeUnused(g, d0, m);
      var cluster := AllocCluster(u);
      c := cluster;
      if cluster == 0 {
        if walkDir == 0 { PlaceNone(m, walkSkip, walkCluster); }
        UnderwayMake(d0, p0);
        GivenUp(d0, p0);
        MkdirKept(g, d0, p0, m0, disk, past, cwd, want, c, reliable);
        return false, 0;
      }
      MemberFree(Table(g, d0), cluster);
      PlaceNone(m, walkSkip, walkCluster);
      UnderwayMake(d0, p0);
      MarkStored(g);
      MarkIs(g);
      FreeTaken(Table(g, d0), cluster, g.EocMark());
      TableBound(g, cluster);
      BaseParts();
      ghost var d1, p1 := disk, past;
      ok := NewFolderSectors(cluster, cwd, u);
      KeptThen(g, d0, |p0|, p1, d1, past, disk, u);
      UnderwayMake(d0, p0);
      if ok { ok := StoreFolderEntry(want, cluster, slotLba, slotIdx, d0, p0, k); }
      if ok {
        MkdirMake(g, d0, p0, m0, disk, past, m, cwd, want, cluster, reliable);
      } else {
        Abandon(cluster, d0, p0);
        MkdirKept(g, d0, p0, m0, disk, past, cwd, want, c, reliable);
      }
    }

    lemma MemberFree(t: seq<nat>, c: nat)
      requires c in Free(t)
      ensures Free(t) != {}
    {
    }

    /** The failed: label of fat_mkdir: the one new cluster is let go. */
    method Abandon(c: nat, ghost d0: Disk, ghost p0: seq<Disk>)
      requires Underway(d0, p0) && InTable(g, c) && c !in Used(m) && Table(g, disk)[c] == g.EocMark()
      modifies this`disk, this`past, this`refused, this`fsinfoDone, this`walkDir, this`fatReads
      ensures Valid() && p0 <= past
      ensures Stayed(g, d0, m, past, |p0|, disk)
    {
      hide *;
      UnderwayParts(d0, p0);
      MarkStored(g);
      EocAbove(g);
      TableBound(g, c);
      LoneOrbit(Table(g, disk), c, Used(m));
      ghost var d1, p1 := disk, past;
      ReleaseChain(c, Used(m));
      KeptThen(g, d0, |p0|, p1, d1, past, disk, Used(m));
      PlaceNone(m, walkSkip, walkCluster);
      UnderwayMake(d0, p0);
      GivenUp(d0, p0);
    }

    /** The last write of fat_mkdir, the one that shows the folder. */
    method StoreFolderEntry(want: Name, c: nat, slotLba: nat, slotIdx: nat, ghost d0: Disk, ghost p0: seq<Disk>,
                            ghost k: nat) returns (ok: bool)
      requires Underway(d0, p0) && slotIdx < 16 && k == 16 * (k / 16) + slotIdx && k / 16 < FolderSize(g, m, cwd)
      requires slotLba == FolderLba(g, m, cwd, k / 16)
      requires k == FreeFrom(DiskSlots(g, d0, cwd), 0) < |DiskSlots(g, d0, cwd)|
      requires Lookup(g, d0, cwd, want) == Absent && want[0] != END && want[0] != DOTCHAR && !IsDot(want)
      requires InTable(g, c) && c !in Used(m) && Table(g, disk)[c] == g.EocMark()
      requires Sec(g, disk, c, 0) == DotSector(g.fat32, c, cwd)
      requires forall s: nat | 1 <= s < g.spc :: Sec(g, disk, c, s) == ZeroSector()
      modifies this`disk, this`past, this`refused, this`m
      ensures old(past) <= past && Table(g, disk) == Table(g, old(disk))
      ensures !ok ==> Underway(d0, p0) && !reliable && disk == old(disk) && m == old(m)
      ensures ok ==> Valid() && Stored(g, d0, old(m), past, |p0|, disk, m, cwd, want, FolderNode(c))
      ensures ok ==> NewFolder(g, disk, c, cwd)
    {
      hide *;
      ghost var m0, dpre, ppre, f, q := m, disk, past, cwd, k / 16;
      ghost var node := Shown(want, FolderNode(c));
      UnderwayParts(d0, p0);
      DiskSlotsOf(g, d0, m, f);
      FreePlace(DiskSlots(g, d0, f));
      SeenPlace(g, f, DirsOf(g, d0, m)[f], k);
      LookupEntry(g, d0, m, f, want);
      NoEntry(g, d0, f, want);
      FolderKey(g, d0, m, f);
      FolderSector(g, disk, m, f, q);
      var rd, sec := ReadSector(slotLba);
      if !rd { return false; }
      var x := PutEnt(sec, slotIdx, EntBytes(g.fat32, want, ATTR_DIR, c, 0));
      ok := WriteAbove(slotLba, x);
      if !ok {
        UnderwayMake(d0, p0);
        return;
      }
      ghost var m1 := FolderCommit(g, d0, m0, dpre, f, k, want, c, slotLba, x, disk);
      m := m1;
      KeptSelf(g, disk, past, Used(m1));
      AtomicCommit(g, d0, m0, |p0|, ppre, dpre, disk, m1, past, disk, f, want, node);
      EditedHere(g, d0, m0, disk, m1, f, want, node);
      PlainEntry(want, ATTR_DIR, c, 0);
      KeepsSelf(g, disk, Used(m1));
      OneNameAfter(g, d0, m0, disk, disk, m1, f, k, Ent(want, ATTR_DIR, c, 0));
      StoredMake(g, d0, m0, past, |p0|, disk, m1, f, want, FolderNode(c));
      KeptPlaces(m0, m1, walkDir, walkSkip, walkCluster);
      ForgetAt();
      NewFolderKept(g, d0, dpre, disk, m0, f, q, c, slotLba);
    }

    // ----- writing files

    /** One turn of write_file's loop up to its data: a free cluster joins the
        chain that ends at prev. */
    method ExtendChain(first: nat, prev: nat, ghost d0: Disk, ghost p0: seq<Disk>, ghost nc: seq<nat>,
                       ghost w: seq<byte>, ghost done: nat)
      returns (ok: bool, c: nat)
      requires Underway(d0, p0) && Fill(g, d0, disk, Used(m), nc, w, done) && first == FirstOf(nc) && prev == LastOf(nc)
      modifies this`disk, this`past, this`refused, this`fsinfoDone, this`walkDir, this`allocHint, this`fatReads
      ensures Underway(d0, p0)
      ensures ok ==> Fill(g, d0, disk, Used(m), nc + [c], w, done) && InTable(g, c) && c !in Used(m)
      ensures !ok ==> Loose(Table(g, disk), first, Used(m))
      ensures !ok && reliable ==> disk == old(disk) && past == old(past) && Free(Table(g, disk)) == {}
      ensures Low(g, old(refused), refused)
    {
      hide *;
      ghost var u := Used(m);
      UnderwayParts(d0, p0);
      FreeUnused(g, disk, m);
      FillParts(g, d0, disk, u, nc, w, done);
      LimitBelow(g);
      LooseFill(g, Table(g, d0), Table(g, disk), u, nc);
      MarkStored(g);
      MarkIs(g);
      ghost var d1, p1 := disk, past;
      c := AllocCluster(u);
      ghost var r1 := refused;
      KeptThen(g, d0, |p0|, p1, d1, past, disk, u);
      if c == 0 {
        if walkDir == 0 { PlaceNone(m, walkSkip, walkCluster); }
        UnderwayMake(d0, p0);
        StillLoose(g, Table(g, d0), Table(g, d1), Table(g, disk), u, nc);
        return false, 0;
      }
      TableBound(g, c);
      FreeIs(Table(g, d1), c);
      PlaceNone(m, walkSkip, walkCluster);
      if first == 0 {
        NoneYet(g, Table(g, d0), Table(g, d1), u, nc);
        FillGrow(g, d0, d1, disk, u, nc, c, w, done);
        UnderwayMake(d0, p0);
        return true, c;
      }
      SomeYet(nc);
      ghost var d2, p2 := disk, past;
      NcClusters(g, Table(g, d0), Table(g, d1), u, nc);
      FillTableGrow(g, Table(g, d0), Table(g, d1), u, nc, c);
      ClusterStored(g, c);
      BaseParts();
      ok := FatEntryWrite(prev, c, u);
      LowThen(g, old(refused), r1, refused);
      KeptThen(g, d0, |p0|, p2, d2, past, disk, u);
      UpperTrans(g, d1, d2, disk);
      if ok {
        FillGrow(g, d0, d1, disk, u, nc, c, w, done);
        UnderwayMake(d0, p0);
        return;
      }
      ghost var d3, p3, r3 := disk, past, refused;
      EocAbove(g);
      LoneOrbit(Table(g, disk), c, u);
      ReleaseChain(c, u);
      LowThen(g, old(refused), r3, refused);
      KeptThen(g, d0, |p0|, p3, d3, past, disk, u);
      CutLoose(g, Table(g, d0), Table(g, d1), Table(g, d3), Table(g, disk), u, nc, c);
      UnderwayMake(d0, p0);
    }

    /** The data of one turn of write_file's loop: sectors of cluster c until it
        is full or nothing remains.  done0 sectors are written before it. */
    method WriteCluster(c: nat, src: Source, done0: nat, remaining0: nat, ghost d0: Disk, ghost p0: seq<Disk>,
                        ghost nc: seq<nat>)
      returns (ok: bool, done: nat, remaining: nat)
      requires Underway(d0, p0) && Fill(g, d0, disk, Used(m), nc, src.Content(), done0) && |nc| > 0 && c == nc[|nc| - 1]
      requires done0 == Sectors(g, |nc| - 1) && remaining0 > 0 && remaining0 == src.Len() - 512 * done0
      modifies this`disk, this`past, this`refused
      ensures Underway(d0, p0) && (!ok ==> !reliable)
      ensures Fill(g, d0, disk, Used(m), nc, src.Content(), done) && done >= done0
      ensures ok ==> done > done0 && remaining == if 512 * done >= src.Len() then 0 else src.Len() - 512 * done
      ensures ok ==> remaining == 0 || done == Sectors(g, |nc|)
      ensures Aside(g, Used(m), old(refused), refused)
    {
      hide *;
      ghost var u, w := Used(m), src.Content();
      UnderwayParts(d0, p0);
      GeoPositive(g);
      SectorsMore(g, |nc| - 1);
      done, remaining := done0, remaining0;
      AsideSelf(g, u, refused);
      var s: nat := 0;
      while s < g.spc && remaining > 0
        invariant Underway(d0, p0) && s <= g.spc && done == done0 + s
        invariant Fill(g, d0, disk, u, nc, w, done)
        invariant remaining == if 512 * done >= src.Len() then 0 else src.Len() - 512 * done
        invariant s == 0 ==> remaining > 0
        invariant Aside(g, u, old(refused), refused)
      {
        UnderwayParts(d0, p0);
        var chunk := if remaining < 512 then remaining else 512;
        var buf := FillBuffer(src, done, chunk);
        FillSector(g, d0, disk, u, nc, w, done, s);
        ghost var d1, p1, r1 := disk, past, refused;
        ok := WriteFresh(c, s, buf, u);
        AsideThen(g, u, old(refused), r1, refused);
        KeptThen(g, d0, |p0|, p1, d1, past, disk, u);
        UnderwayMake(d0, p0);
        if !ok { return; }
        s, done, remaining := s + 1, done + 1, remaining - chunk;
      }
      ok := true;
    }

    /** write_file's loop: the content on a fresh chain, ended. */
    method WriteData(src: Source, ghost d0: Disk, ghost p0: seq<Disk>)
      returns (ok: bool, first: nat, ghost nc: seq<nat>, ghost done: nat)
      requires Underway(d0, p0) && disk == d0 && src.Len() < U32
      modifies this`disk, this`past, this`refused, this`fsinfoDone, this`walkDir, this`allocHint, this`fatReads
      ensures Underway(d0, p0) && Loose(Table(g, disk), first, Used(m))
      ensures ok ==>
              first == FirstOf(nc) && Fill(g, d0, disk, Used(m), nc, src.Content(), done) && 512 * done >= src.Len()
      ensures ok ==> if src.Len() == 0 then nc == []
              else |nc| > 0 && 512 * Sectors(g, |nc| - 1) < src.Len() <= 512 * Sectors(g, |nc|)
      ensures !ok && reliable ==> Cleared(Table(g, disk), Elems(Orbit(Table(g, disk), first, {}))) == Table(g, d0)
      ensures !ok && reliable ==> 512 * Sectors(g, |Free(Table(g, d0))|) < src.Len()
      ensures Aside(g, Used(m), old(refused), refused)
    {
      hide *;
      ghost var u, w := Used(m), src.Content();
      UnderwayParts(d0, p0);
      FillBegin(g, disk, u, w);
      nc, done := [], 0;
      var q, remaining, prev, c := 0, src.Len(), 0, 0;
      first := 0;
      FirstLast([]);
      AsideSelf(g, u, refused);
      SectorsMore(g, 0);
      EocAbove(g);
      while remaining > 0
        invariant Underway(d0, p0) && Fill(g, d0, disk, u, nc, w, done)
        invariant q == done && first == FirstOf(nc) && prev == LastOf(nc)
        invariant remaining == if 512 * done >= src.Len() then 0 else src.Len() - 512 * done
        invariant remaining > 0 ==> done == Sectors(g, |nc|)
        invariant |nc| > 0 ==> 512 * Sectors(g, |nc| - 1) < src.Len()
        invariant |nc| == 0 ==> remaining == src.Len()
        invariant Aside(g, u, old(refused), refused)
        decreases remaining
      {
        ghost var d1, r1 := disk, refused;
        ok, c := ExtendChain(first, prev, d0, p0, nc, w, done);
        LowAside(g, u, r1, refused);
        AsideThen(g, u, old(refused), r1, refused);
        r1 := refused;
        if !ok {
          if reliable {
            NoRoom(g, d0, disk, u, nc, w, done);
          }
          return;
        }
        FirstGrow(g, d0, disk, u, nc, c, w, done);
        FirstLast(nc + [c]);
        nc := nc + [c];
        if first == 0 { first := c; }
        prev := c;
        ok, q, remaining := WriteCluster(c, src, q, remaining, d0, p0, nc);
        AsideThen(g, u, old(refused), r1, refused);
        done := q;
        if !ok {
          FillLoose(g, d0, disk, u, nc, w, done);
          return;
        }
      }
      UnderwayParts(d0, p0);
      FillLoose(g, d0, disk, u, nc, w, done);
      FillParts(g, d0, disk, u, nc, w, done);
      ok := true;
      if prev != 0 {
        ghost var r1 := refused;
        ok := EndChain(prev, d0, p0, nc, w, done);
        LowAside(g, u, r1, refused);
        AsideThen(g, u, old(refused), r1, refused);
      }
    }

    /** The last entry of the prepared chain gets the end mark again. */
    method EndChain(prev: nat, ghost d0: Disk, ghost p0: seq<Disk>, ghost nc: seq<nat>, ghost w: seq<byte>,
                    ghost done: nat) returns (ok: bool)
      requires Underway(d0, p0) && Fill(g, d0, disk, Used(m), nc, w, done) && |nc| > 0 && prev == LastOf(nc)
      modifies this`disk, this`past, this`refused, this`fsinfoDone, this`walkDir
      ensures Underway(d0, p0) && (!ok ==> !reliable)
      ensures Fill(g, d0, disk, Used(m), nc, w, done) && Loose(Table(g, disk), FirstOf(nc), Used(m))
      ensures Low(g, old(refused), refused)
    {
      hide *;
      ghost var u := Used(m);
      UnderwayParts(d0, p0);
      FillParts(g, d0, disk, u, nc, w, done);
      NcClusters(g, Table(g, d0), Table(g, disk), u, nc);
      FirstLast(nc);
      MarkStored(g);
      LastMarked(g, Table(g, d0), Table(g, disk), u, nc);
      ghost var d1, p1 := disk, past;
      ok := FatEntryWrite(prev, g.EocMark(), u);
      KeptThen(g, d0, |p0|, p1, d1, past, disk, u);
      FillRefl(g, d0, d1, u, nc, w, done, disk);
      PlaceNone(m, walkSkip, walkCluster);
      UnderwayMake(d0, p0);
      FillLoose(g, d0, disk, u, nc, w, done);
    }

    /** The slot write_file will fill: the file's own entry when there is one,
        else the first free slot. */
    ghost predicate SlotFor(d0: Disk, want: Name, found: bool, k: nat, oldCluster: nat)
      reads `g, `m, `cwd
    {
      && cwd in m.depth && k < |DiskSlots(g, d0, cwd)| && k / 16 < FolderSize(g, m, cwd)
      && var s := DiskSlots(g, d0, cwd);
      && want[0] != END && want[0] != DOTCHAR && !IsDot(want)
      && (if found then Find(s, want) == k && Child(s[k]) && !IsDir(s[k]) && s[k].name == want
         && oldCluster == s[k].cluster
          else Lookup(g, d0, cwd, want) == Absent && Find(s, want) == |s| && FreeFrom(s, 0) == k && oldCluster == 0)
    }

    lemma SlotForParts(d0: Disk, want: Name, found: bool, k: nat, oldCluster: nat)
      requires SlotFor(d0, want, found, k, oldCluster)
      ensures cwd in m.depth && k < |DiskSlots(g, d0, cwd)| && k / 16 < FolderSize(g, m, cwd)
      ensures want[0] != END && want[0] != DOTCHAR && !IsDot(want)
      ensures var s := DiskSlots(g, d0, cwd);
              if found then Find(s, want) == k && Child(s[k]) && !IsDir(s[k]) && s[k].name == want
                && oldCluster == s[k].cluster && want[0] != DELETED
              else Lookup(g, d0, cwd, want) == Absent && Find(s, want) == |s| && FreeFrom(s, 0) == k && oldCluster == 0
    {
      hide DiskSlots;
      hide Find;
      hide FreeFrom;
      hide Lookup;
      hide IsDot;
    }

    /** Either the slot is free and nothing shows the name, or it has the name. */
    lemma SlotNames(d0: Disk, want: Name, found: bool, k: nat, oldCluster: nat)
      requires SlotFor(d0, want, found, k, oldCluster) && WF(g, d0, m)
      ensures cwd in m.depth && k < |DiskSlots(g, d0, cwd)|
      ensures var s := DiskSlots(g, d0, cwd);
              if IsFree(s[k]) then forall j | 0 <= j < |s| :: !Matches(s[j], want, false)
                else Live(s[k]) && s[k].name == want
    {
      hide *;
      SlotForParts(d0, want, found, k, oldCluster);
      LookupEntry(g, d0, m, cwd, want);
      LiveSlot(DiskSlots(g, d0, cwd)[k]);
    }

    lemma LiveSlot(e: Ent)
      ensures Child(e) ==> Live(e) && !IsFree(e)
    {
    }

    /** The one directory write of write_file, and the release that follows it. */
    method StoreFile(want: Name, len: nat, first: nat, slotLba: nat, slotIdx: nat, oldCluster: nat,
                     ghost d0: Disk, ghost p0: seq<Disk>, ghost found: bool, ghost k: nat, ghost nc: seq<nat>,
                     ghost w: seq<byte>, ghost done: nat)
      returns (ok: bool)
      requires Underway(d0, p0) && SlotFor(d0, want, found, k, oldCluster)
      requires slotIdx < 16 && k == 16 * (k / 16) + slotIdx && slotLba == FolderLba(g, m, cwd, k / 16)
      requires Prepared(g, d0, disk, Used(m), nc, w, done) && len == |w| < U32 && first == FirstOf(nc)
      requires Loose(Table(g, disk), first, Used(m))
      modifies this`disk, this`past, this`refused, this`fsinfoDone, this`walkDir, this`fatReads, this`m
      ensures Valid() && p0 <= past
      ensures !ok ==> !reliable && m == old(m) && Stayed(g, d0, m, past, |p0|, disk)
      ensures !ok ==> disk == old(disk) && past == old(past) && refused == old(refused) + [slotLba]
      ensures ok ==> Low(g, old(refused), refused)
      ensures ok ==> Stored(g, d0, old(m), past, |p0|, disk, m, cwd, want, FileNode(w))
      ensures ok && reliable ==> FreeMoved(Table(g, d0), Table(g, disk), nc, DiskChain(g, d0, oldCluster))
    {
      hide *;
      ghost var dpre, ppre := disk, past;
      SlotForParts(d0, want, found, k, oldCluster);
      UnderwayParts(d0, p0);
      FolderSector(g, disk, m, cwd, k / 16);
      var rd, sec := ReadOrUndo(slotLba, first, d0, p0);
      NotMissing(dpre, slotLba);
      if !rd { return false; }
      UnderwayParts(d0, p0);
      var x := PutEnt(sec, slotIdx, EntBytes(g.fat32, want, 0, first, len));
      ok := WriteAbove(slotLba, x);
      if !ok {
        UnderwayMake(d0, p0);
        GivenUp(d0, p0);
        return;
      }
      LetOldGo(want, first, slotLba, slotIdx, oldCluster, x, d0, p0, dpre, ppre, found, k, nc, w, done);
    }

    /** The entry of write_file is stored, x in sector slotLba: the old chain goes. */
    method LetOldGo(want: Name, first: nat, slotLba: nat, slotIdx: nat, oldCluster: nat, ghost x: Sector,
                    ghost d0: Disk, ghost p0: seq<Disk>, ghost dpre: Disk, ghost ppre: seq<Disk>, ghost found: bool,
                    ghost k: nat, ghost nc: seq<nat>, ghost w: seq<byte>, ghost done: nat)
      requires slotIdx < 16 && k == 16 * (k / 16) + slotIdx && slotLba == FolderLba(g, m, cwd, k / 16)
      requires slotLba < |dpre| && disk == dpre[slotLba := x] && past == ppre + [disk] && p0 <= ppre && |w| < U32
      requires x == PutEnt(dpre[slotLba], slotIdx, EntBytes(g.fat32, want, 0, first, |w|)) && first == FirstOf(nc)
      requires Base() && mounted && atFirst == 0 && cwd in m.depth && PlaceOk(m, walkDir, walkSkip, walkCluster)
      requires Table(g, disk) == Table(g, dpre) && Prepared(g, d0, dpre, Used(m), nc, w, done)
      requires SlotFor(d0, want, found, k, oldCluster) && KeptFrom(g, d0, |p0|, ppre, dpre, Used(m)) && WF(g, d0, m)
      modifies this`disk, this`past, this`refused, this`fsinfoDone, this`walkDir, this`fatReads, this`m
      ensures Valid() && p0 <= past && Low(g, old(refused), refused)
      ensures Stored(g, d0, old(m), past, |p0|, disk, m, cwd, want, FileNode(w))
      ensures reliable ==> FreeMoved(Table(g, d0), Table(g, disk), nc, DiskChain(g, d0, oldCluster))
    {
      hide *;
      ghost var m0, f, d1, p1 := m, cwd, disk, past;
      ghost var node := Shown(want, FileNode(w));
      SlotForParts(d0, want, found, k, oldCluster);
      SlotNames(d0, want, found, k, oldCluster);
      KeptKeeps(g, d0, |p0|, ppre, dpre, Used(m));
      ghost var m1 := StoreCommit(g, d0, m0, dpre, d1, f, k, want, found, oldCluster, nc, w, done, slotLba, x);
      m := m1;
      ReleaseChain(oldCluster, Used(m1));
      Committed(g, d0, m0, |p0|, ppre, dpre, d1, m1, past, disk, f, want, node);
      PlainEntry(want, 0, first, |w|);
      KeptKeeps(g, d1, |p1|, past, disk, Used(m1));
      OneNameAfter(g, d0, m0, d1, disk, m1, f, k, Ent(want, 0, first, |w|));
      StoredMake(g, d0, m0, past, |p0|, disk, m1, f, want, FileNode(w));
      if oldCluster >= 2 { PlaceNone(m1, walkSkip, walkCluster); } else {
        NotInTable(g, oldCluster);
        KeptPlaces(m0, m1, walkDir, walkSkip, walkCluster);
      }
      ForgetAt();
    }

    /** The failed: label of write_file: the new chain is let go. */
    method Undo(first: nat, ghost d0: Disk, ghost p0: seq<Disk>)
      requires Underway(d0, p0) && Loose(Table(g, disk), first, Used(m))
      modifies this`disk, this`past, this`refused, this`fsinfoDone, this`walkDir, this`fatReads
      ensures Valid() && p0 <= past
      ensures Stayed(g, d0, m, past, |p0|, disk)
      ensures reliable ==> Table(g, disk) == Cleared(Table(g, old(disk)), Elems(Orbit(Table(g, old(disk)), first, {})))
      ensures Low(g, old(refused), refused)
    {
      hide *;
      UnderwayParts(d0, p0);
      LooseIs(Table(g, disk), first, Used(m));
      ghost var d1, p1 := disk, past;
      ReleaseChain(first, Used(m));
      KeptThen(g, d0, |p0|, p1, d1, past, disk, Used(m));
      PlaceNone(m, walkSkip, walkCluster);
      UnderwayMake(d0, p0);
      GivenUp(d0, p0);
    }

    /** write_file's read of the sector it is about to change, which failing lets
        the new chain go. */
    method ReadOrUndo(lba: nat, first: nat, ghost d0: Disk, ghost p0: seq<Disk>) returns (ok: bool, buf: Sector)
      requires Underway(d0, p0) && Loose(Table(g, disk), first, Used(m))
      modifies this`disk, this`past, this`refused, this`fsinfoDone, this`walkDir, this`fatReads
      ensures if ok then lba < |disk| && buf == disk[lba] else Missing(old(disk), lba) && Valid()
      ensures ok ==> Underway(d0, p0) && disk == old(disk) && past == old(past) && refused == old(refused)
      ensures ok ==> walkDir == old(walkDir)
      ensures p0 <= past && (!ok ==> Stayed(g, d0, m, past, |p0|, disk))
      ensures !ok && reliable ==>
              Table(g, disk) == Cleared(Table(g, old(disk)), Elems(Orbit(Table(g, old(disk)), first, {})))
    {
      hide *;
      UnderwayParts(d0, p0);
      ok, buf := ReadSector(lba);
      MissingIs(disk, lba);
      if !ok { Undo(first, d0, p0); }
    }

    /** write_file once the slot is known: data, chain, entry, release. */
    method PlaceFile(want: Name, src: Source, slotLba: nat, slotIdx: nat, oldCluster: nat, ghost found: bool,
                     ghost k: nat)
      returns (ok: bool, ghost nc: seq<nat>)
      requires Valid() && atFirst == 0 && SlotFor(disk, want, found, k, oldCluster) && src.Len() < U32
      requires slotIdx < 16 && k == 16 * (k / 16) + slotIdx && slotLba == FolderLba(g, m, cwd, k / 16)
      modifies this`disk, this`past, this`refused, this`fsinfoDone, this`walkDir, this`allocHint, this`fatReads, this`m
      ensures Valid() && old(past) <= past
      ensures !ok ==> m == old(m) && Stayed(g, old(disk), m, past, |old(past)|, disk)
      ensures !ok && reliable ==>
              Table(g, disk) == Table(g, old(disk)) && 512 * Sectors(g, |Free(Table(g, disk))|) < src.Len()
      ensures ok ==> 512 * Sectors(g, |Free(Table(g, old(disk)))|) >= src.Len() && JustEnough(g, nc, src.Len())
      ensures ok ==> Stored(g, old(disk), old(m), past, |old(past)|, disk, m, cwd, want, FileNode(src.Content()))
      ensures ok && reliable ==> FreeMoved(Table(g, old(disk)), Table(g, disk), nc, DiskChain(g, old(disk), oldCluster))
      ensures FolderRefused(g, old(m), cwd, old(refused), refused) ==>
              !ok && ChainLeft(g, old(disk), disk, nc, src.Len())
    {
      hide *;
      ghost var d0, p0, done := disk, past, 0;
      ValidParts();
      KeptSelf(g, disk, past, Used(m));
      UnderwayMake(d0, p0);
      var first;
      ghost var u, r0 := Used(m), refused;
      ok, first, nc, done := WriteData(src, d0, p0);
      ghost var r1 := refused;
      if !ok {
        Undo(first, d0, p0);
        LowAside(g, u, r1, refused);
        AsideThen(g, u, r0, r1, refused);
        AsideElsewhere(g, d0, m, cwd, r0, refused);
        return;
      }
      PreparedMake(g, d0, disk, Used(m), nc, src.Content(), done);
      RoomEnough(g, d0, disk, Used(m), nc, src.Content(), done);
      JustEnoughIs(g, nc, src.Len());
      ChainLeftMake(g, d0, disk, u, nc, src.Content(), done);
      ghost var m0 := m;
      ok := StoreFile(want, src.Len(), first, slotLba, slotIdx, oldCluster, d0, p0, found, k, nc, src.Content(), done);
      if ok {
        LowAside(g, u, r1, refused);
        AsideThen(g, u, r0, r1, refused);
        AsideElsewhere(g, d0, m0, cwd, r0, refused);
      }
    }

    /** write_file: creates the named file of the current folder or, when
        replace is set, replaces its content. */
    method WriteFile(name: CString, src: Source, replace: bool) returns (ok: bool, ghost nc: seq<nat>)
      requires (mounted ==> Valid()) && src.Len() < U32
      modifies this
      ensures stays == old(stays) && honest == old(honest) && mirrored == old(mirrored)
      ensures g == old(g) && mounted == old(mounted) && cwd == old(cwd) && (mounted ==> Valid()) && old(past) <= past
      ensures !mounted || name == [] ==> !ok && disk == old(disk) && past == old(past) && m == old(m)
      ensures mounted && name != [] ==>
        WriteDone(g, old(disk), old(past), old(m), disk, past, m, cwd, FatName(name), src.Content(), nc, replace, ok,
          reliable)
      ensures mounted && name != [] && FolderRefused(g, old(m), cwd, old(refused), refused) ==>
              !ok && ChainLeft(g, old(disk), disk, nc, src.Len())
      ensures ok ==> mounted && name != []
      ensures ok && src.Given? && name[0] != 0xE5 ==> Lookup(g, disk, cwd, FatName(name)) == FileNode(src.bytes)
      ensures ok && src.Zeros? && name[0] != 0xE5 ==>
              Lookup(g, disk, cwd, FatName(name)) == FileNode(seq(src.n, i => 0))
      ensures mounted && name != [] && reliable ==>
              var s, len := DiskSlots(g, old(disk), cwd), if src.Given? then |src.bytes| else src.n;
              ok <==>
                && (if Lookup(g, old(disk), cwd, FatName(name)) == Absent
                    then exists k | 0 <= k < |s| :: s[k].name[0] == 0 || s[k].name[0] == 0xE5
                    else replace && Lookup(g, old(disk), cwd, FatName(name)).FileNode?)
                && len <= 512 * (|set x: nat | 2 <= x < g.total + 2 && FatGet(g, old(disk), x) == 0| * g.spc)
    {
      hide *;
      if mounted { ValidParts(); }
      nc := [];
      atFirst := 0;
      if !mounted || |name| == 0 {
        if mounted { ForgetAt(); }
        return false, [];
      }
      ForgetAt();
      ghost var d0, p0, m0, n, w := disk, past, m, FatName(name), src.Content();
      ok, nc := WriteNamed(name, src, replace);
      WriteParts(g, d0, p0, m0, disk, past, m, cwd, n, w, nc, replace, ok, reliable);
      WriteWhen(g, d0, p0, m0, disk, past, m, cwd, n, w, nc, replace, ok, reliable);
      RefusedPlain(g, d0, cwd, n, |w|, replace);
      if ok { StoredParts(g, d0, m0, past, |p0|, disk, m, cwd, n, FileNode(w)); }
      FatNameFirst(name);
      ShownIs(n, FileNode(w));
      ContentIsGiven(src);
      DeletedMark();
    }

    /** write_file from the search for the name on. */
    method WriteNamed(name: CString, src: Source, replace: bool) returns (ok: bool, ghost nc: seq<nat>)
      requires Valid() && atFirst == 0 && name != [] && src.Len() < U32
      modifies this`disk, this`past, this`refused, this`fsinfoDone, this`walkDir, this`walkSkip, this`walkCluster
      modifies this`allocHint, this`fatReads, this`folderReads, this`matchedLba, this`matchedIndex, this`m
      ensures Valid() && old(past) <= past
      ensures WriteDone(g, old(disk), old(past), old(m), disk, past, m, cwd, FatName(name), src.Content(), nc,
              replace, ok, reliable)
      ensures FolderRefused(g, old(m), cwd, old(refused), refused) ==>
              !ok && ChainLeft(g, old(disk), disk, nc, src.Len())
    {
      hide *;
      ghost var d0, p0, m0, w := disk, past, m, src.Content();
      ValidParts();
      AsideSelf(g, Used(m), refused);
      AsideElsewhere(g, disk, m, cwd, refused, refused);
      NothingYet(past);
      RefusedIs(g, disk, cwd, FatName(name), src.Len(), replace);
      FatNameFirst(name);
      FolderNowIs(cwd);
      nc := [];
      var want := ToFatName(name);
      var existing, e, k := FindEntry(cwd, name);
      if existing { NodeKind(g, disk, e); }
      if existing && (!replace || IsDir(e)) {
        WriteKept(g, d0, p0, m0, disk, past, cwd, want, w, nc, replace, reliable);
        return false, [];
      }
      var oldCluster := if existing then e.cluster else 0;
      var slotLba, slotIdx := matchedLba, matchedIndex;
      if !existing {
        ok, slotLba, slotIdx, k := FreeSlotOf(cwd);
        if !ok {
          WriteKept(g, d0, p0, m0, disk, past, cwd, want, w, nc, replace, reliable);
          return;
        }
      }
      HeadThere(g, disk, cwd, want);
      SlotForMake(disk, want, existing, k, oldCluster);
      NotRefused(g, disk, cwd, want, src.Len(), replace);
      ok, nc := PlaceFile(want, src, slotLba, slotIdx, oldCluster, existing, k);
      if ok {
        WriteMake(g, d0, p0, m0, disk, past, m, cwd, want, w, nc, replace, reliable);
      } else {
        WriteKept(g, d0, p0, m0, disk, past, cwd, want, w, nc, replace, reliable);
      }
    }

    lemma SlotForMake(d0: Disk, want: Name, found: bool, k: nat, oldCluster: nat)
      requires cwd in m.depth && k < |DiskSlots(g, d0, cwd)| && k / 16 < FolderSize(g, m, cwd)
      requires want[0] != END && want[0] != DOTCHAR && !IsDot(want)
      requires var s := DiskSlots(g, d0, cwd);
               if found then Find(s, want) == k && Child(s[k]) && !IsDir(s[k]) && s[k].name == want
                 && oldCluster == s[k].cluster
               else Lookup(g, d0, cwd, want) == Absent && Find(s, want) == |s| && FreeFrom(s, 0) == k && oldCluster == 0
      ensures SlotFor(d0, want, found, k, oldCluster)
    {
      hide DiskSlots;
      hide Find;
      hide FreeFrom;
      hide Lookup;
      hide IsDot;
      hide Child;
    }

    // ----- ranged reads

    /** One cluster's part of a ranged read: from skip0 bytes into it, position p
        of the file, until the cluster or the request ends. */
    method ReadCluster(cluster: nat, skip0: nat, remaining0: nat, ghost chain: seq<nat>, ghost index: nat,
                       ghost size: nat, ghost p: nat, ghost w: seq<byte>)
      returns (ok: bool, out: seq<byte>, remaining: nat)
      requires GeoOk(g) && Fits(g, disk) && Clusters(g, chain) && index < |chain| && cluster == chain[index]
      requires p == 512 * Sectors(g, index) + skip0 && skip0 < 512 * g.spc
      requires w == Content(g, disk, chain, size) && p + remaining0 <= |w|
      ensures ok && |out| + remaining == remaining0 && out == Slice(w, p, |out|)
      ensures p + |out| <= 512 * Sectors(g, index + 1) && (remaining > 0 ==> p + |out| == 512 * Sectors(g, index + 1))
    {
      hide *;
      SectorsMore(g, index);
      SliceNone(w, p);
      var lba: nat, skip: nat, s: nat := ClusterToLba(g, cluster), skip0, 0;
      ok, out, remaining := true, [], remaining0;
      while s < g.spc && remaining > 0
        invariant s <= g.spc && |out| + remaining == remaining0 && out == Slice(w, p, |out|)
        invariant remaining > 0 ==> p + |out| == 512 * (Sectors(g, index) + s) + skip
        invariant skip == 0 || skip < 512 * (g.spc - s)
        invariant p + |out| <= 512 * (Sectors(g, index) + if out == [] then g.spc else s)
      {
        if skip >= 512 {
          skip := skip - 512;
        } else {
          var chunk := if 512 - skip < remaining then 512 - skip else remaining;
          ReadShare(g, disk, chain, size, index, s, skip, chunk);
          var rd, sector := ReadSector(Wrap(lba + s));
          if !rd { return; }
          SliceGrows(w, p, out, sector[skip..skip + chunk]);
          out := out + sector[skip..skip + chunk];
          remaining := remaining - chunk;
          skip := 0;
        }
        s := s + 1;
      }
    }

    /** The walk of a ranged read to the cluster it starts in, from the
        remembered place when that lies on the way. */
    method SeekCluster(first: nat, want: nat) returns (index: nat, cluster: nat)
      requires Valid() && first >= 2 && first in m.ch && want < |m.ch[first]|
      modifies this`fatReads
      ensures Valid() && index == want && cluster == m.ch[first][want]
      ensures fatReads <= old(fatReads) + (if atFirst == first && atIndex <= want then want - atIndex else want)
    {
      hide *;
      ValidParts();
      PlaceParts(m, atFirst, atIndex, atCluster);
      ModelChain(g, disk, m, first);
      ChainInParts(g, disk, m, first);
      WFParts(g, disk, m);
      LimitBelow(g);
      index, cluster := 0, first;
      if atFirst == first && atIndex <= want && atCluster >= 2 { index, cluster := atIndex, atCluster; }
      ClustersAt(g, m.ch[first], index);
      ghost var at0 := index;
      if atFirst == first && atIndex <= want { ClustersAt(g, m.ch[first], atIndex); }
      while index < want && cluster >= 2 && cluster < g.Eoc()
        invariant at0 <= index <= want && cluster == m.ch[first][index] && InTable(g, cluster) && Valid()
        invariant fatReads == old(fatReads) + (index - at0)
        modifies this`fatReads
      {
        NextCluster(g, disk, m, first, index);
        cluster := FatEntryRead(cluster);
        ClustersAt(g, m.ch[first], index + 1);
        index := index + 1;
      }
      TableBound(g, cluster);
    }

    /** The reading loop of fat_read_at: cluster by cluster, the place of each
        one remembered before it is read. */
    method ReadOn(first: nat, index0: nat, cluster0: nat, skip0: nat, remaining0: nat, ghost chain: seq<nat>,
                  ghost size: nat, ghost p: nat, ghost w: seq<byte>)
      returns (out: seq<byte>, remaining: nat)
      requires first >= 2 && first in m.ch && chain == m.ch[first] && index0 < |chain| && cluster0 == chain[index0]
      requires p == 512 * Sectors(g, index0) + skip0 && skip0 < 512 * g.spc && 0 < remaining0
      requires w == Content(g, disk, chain, size) && p + remaining0 <= |w| && Valid()
      modifies this`fatReads, this`atFirst, this`atIndex, this`atCluster
      ensures Valid() && remaining == 0 && out == Slice(w, p, remaining0)
      ensures atFirst == first && index0 <= atIndex && fatReads == old(fatReads) + (atIndex - index0)
      ensures 512 * Sectors(g, atIndex) < p + remaining0 <= 512 * Sectors(g, atIndex + 1)
    {
      hide *;
      ValidParts();
      ModelChain(g, disk, m, first);
      ChainInParts(g, disk, m, first);
      LimitBelow(g);
      var index: nat, cluster: nat, skip: nat := index0, cluster0, skip0;
      out, remaining := [], remaining0;
      ClusterHere(g, chain, index);
      ContentIs(g, disk, chain, size);
      ReadingBegin(g, chain, w, p, remaining0, index, skip);
      while remaining > 0 && cluster >= 2 && cluster < g.Eoc()
        invariant Valid() && index0 <= index < |chain| && cluster == chain[index] && 2 <= cluster < g.Eoc()
        invariant Reading(g, chain, w, p, remaining0, out, remaining, index, skip)
        invariant remaining == 0 ==> atFirst == first && atIndex == index
        invariant fatReads == old(fatReads) + (index - index0)
        decreases |chain| - index, remaining
      {
        ReadingParts(g, chain, w, p, remaining0, out, remaining, index, skip);
        atFirst, atIndex, atCluster := first, index, cluster;
        PlaceMake(m, first, index, cluster);
        ValidMake();
        var ok, part, left := ReadCluster(cluster, skip, remaining, chain, index, size, p + |out|, w);
        ReadingMore(g, chain, w, p, remaining0, out, remaining, index, skip, part, left);
        out, remaining, skip := out + part, left, 0;
        if remaining > 0 {
          NextCluster(g, disk, m, first, index);
          cluster := FatEntryRead(cluster);
          index := index + 1;
          ClusterHere(g, chain, index);
        }
      }
      ReadingParts(g, chain, w, p, remaining0, out, remaining, index, skip);
    }

    /** fat_read_at once the file is found. */
    method ReadFrom(first: nat, off: nat, total: nat, ghost chain: seq<nat>, ghost size: nat, ghost w: seq<byte>)
      returns (out: seq<byte>)
      requires first >= 2 && first in m.ch && chain == m.ch[first]
      requires w == Content(g, disk, chain, size) && off + total <= |w| && off < size && off < |w| && Valid()
      modifies this`fatReads, this`atFirst, this`atIndex, this`atCluster
      ensures Valid() && out == Slice(w, off, total)
      ensures out != [] ==> atFirst == first && 512 * Sectors(g, atIndex) < off + |out| <= 512 * Sectors(g, atIndex + 1)
      ensures out != [] ==>
              fatReads <= old(fatReads) + (if old(atFirst) == first && 512 * Sectors(g, old(atIndex)) <= off
                                           then atIndex - old(atIndex) else atIndex)
    {
      hide *;
      ValidParts();
      ContentIs(g, disk, chain, size);
      StartPlace(g, off, |chain|);
      SliceNone(w, off);
      SliceSize(w, off, total);
      var per := ClusterBytes(g);
      SeekSooner(g, off, atIndex);
      var index, cluster := SeekCluster(first, Quot(off, per));
      out := [];
      if total > 0 {
        var left;
        out, left := ReadOn(first, index, cluster, Rem(off, per), total, chain, size, off, w);
      }
    }

    /** Reads len bytes at off of a file of the current folder.  The answer never
        depends on the remembered place; a read that goes on from it makes FAT
        reads for the clusters in between only. */
    method FatReadAt(name: CString, off: nat, len: nat) returns (r: int, out: seq<byte>)
      requires (mounted ==> Valid()) && off < U32 && len < U32
      modifies this`walkDir, this`walkSkip, this`walkCluster, this`fatReads, this`folderReads
      modifies this`matchedLba, this`matchedIndex
      modifies this`atFirst, this`atIndex, this`atCluster
      ensures mounted ==> Valid()
      ensures !mounted ==> r == -1 && out == []
      ensures mounted ==> (match Lookup(g, disk, cwd, FatName(name))
        case FileNode(w) => out == Slice(w, off, len) && r == AsInt(|out|)
        case _ => r == -1 && out == [])
      ensures mounted ==> (match Lookup(g, disk, cwd, FatName(name))
        case FileNode(w) =>
          && |out| == (if off >= |w| then 0 else if |w| - off < len then |w| - off else len)
          && (forall i | 0 <= i < |out| :: out[i] == w[off + i])
          && r == (if |out| < 0x8000_0000 then |out| else |out| - 0x1_0000_0000)
        case _ => true)
      ensures mounted && out != [] ==> atFirst == HeadNamed(g, disk, cwd, FatName(name))
      ensures mounted && out != [] ==> 512 * Sectors(g, atIndex) < off + |out| <= 512 * Sectors(g, atIndex + 1)
      ensures mounted && out != [] ==>
              g.spc > 0 && old(folderReads) <= folderReads <= old(folderReads) + ScanCap(g, cwd)
      ensures mounted && out != [] ==> (fatReads <= old(fatReads) + Quot(folderReads - old(folderReads), g.spc)
        + (if old(atFirst) == atFirst && 512 * Sectors(g, old(atIndex)) <= off
           then atIndex - old(atIndex) else atIndex))
    {
      hide *;
      if !mounted { return -1, []; }
      ValidParts();
      FatNameFirst(name);
      FolderNowIs(cwd);
      var found, e, k := FindEntry(cwd, name);
      CostIs(cwd, old(fatReads), old(folderReads));
      if found { NodeKind(g, disk, e); }
      if !found || IsDir(e) { return -1, []; }
      NamedHere(g, disk, cwd, FatName(name), k);
      FileAt(g, disk, m, cwd, k, e);
      FileParts(g, disk, m, cwd, k, e);
      ghost var w := NodeOf(g, disk, e).bytes;
      SliceIs(w, off, len);
      ReadAnswers(w, off, len);
      if off >= e.size { return 0, []; }
      SliceCut(w, off, len);
      out := ReadFrom(e.cluster, off, if e.size - off < len then e.size - off else len, m.ch[e.cluster], e.size, w);
      r := AsInt(|out|);
    }

    // ----- writing in place

    /** In the middle of fat_write_at: n bytes of data are in place in the file
        on the chain at h, and every disk state so far has some first part of it. */
    ghost predicate Patching(d0: Disk, p0: seq<Disk>, h: nat, size: nat, off: nat, data: seq<byte>, n: nat)
      reads `disk, `past, `g, `fields, `fsinfoDone, `stays, `honest, `mirrored, `mounted, `cwd, `m, `atFirst
      reads `walkDir, `walkSkip, `walkCluster
    {
      && Base() && mounted && cwd in m.depth && p0 <= past && atFirst == 0 && PlaceOk(m, walkDir, walkSkip, walkCluster)
      && h in m.ch && h in m.loc && h !in m.depth
      && Patched(g, d0, disk, m, h, size, off, data, n) && PatchedAll(g, d0, past, |p0|, m, h, size, off, data)
    }

    lemma PatchingParts(d0: Disk, p0: seq<Disk>, h: nat, size: nat, off: nat, data: seq<byte>, n: nat)
      requires Patching(d0, p0, h, size, off, data, n)
      ensures Base() && mounted && cwd in m.depth && p0 <= past && atFirst == 0
              && PlaceOk(m, walkDir, walkSkip, walkCluster)
      ensures h in m.ch && h in m.loc && h !in m.depth
      ensures Patched(g, d0, disk, m, h, size, off, data, n) && PatchedAll(g, d0, past, |p0|, m, h, size, off, data)
    {
      hide Base;
      hide Patched;
      hide PatchedAll;
      hide PlaceOk;
    }

    lemma PatchingMake(d0: Disk, p0: seq<Disk>, h: nat, size: nat, off: nat, data: seq<byte>, n: nat)
      requires Base() && mounted && cwd in m.depth && p0 <= past && atFirst == 0
               && PlaceOk(m, walkDir, walkSkip, walkCluster)
      requires h in m.ch && h in m.loc && h !in m.depth
      requires Patched(g, d0, disk, m, h, size, off, data, n) && PatchedAll(g, d0, past, |p0|, m, h, size, off, data)
      ensures Patching(d0, p0, h, size, off, data, n)
    {
      hide Base;
      hide Patched;
      hide PatchedAll;
      hide PlaceOk;
    }

    /** One sector of fat_write_at: read first when only a part of it changes. */
    method PatchSector(lba: nat, sector: Sector, skip: nat, data: seq<byte>, done: nat, chunk: nat,
                       ghost d0: Disk, ghost p0: seq<Disk>, ghost h: nat, ghost size: nat, ghost off: nat,
                         ghost index: nat, ghost s: nat)
      returns (ok: bool, buf: Sector)
      requires skip + chunk <= 512 && done + chunk <= |data| && h in m.ch
               && off + done + chunk <= |Content(g, d0, m.ch[h], size)|
      requires lba < |disk| && g.RootStart() <= lba && SectorAt(g, m.ch[h], index, s, lba)
               && PositionAt(g, index, s, skip, off + done)
      requires Patching(d0, p0, h, size, off, data, done)
      modifies this`disk, this`past, this`refused
      ensures !ok ==> !reliable
      ensures Patching(d0, p0, h, size, off, data, if ok then done + chunk else done)
              && Table(g, disk) == Table(g, old(disk))
    {
      hide *;
      PatchingParts(d0, p0, h, size, off, data, done);
      buf := sector;
      if chunk < 512 {
        ok, buf := ReadSector(lba);
        if !ok { return; }
      } else {
        SpliceWhole(sector, disk[lba], data[done..done + chunk]);
      }
      buf := CopyInto(buf, skip, data, done, chunk);
      PatchedMore(g, d0, disk, m, h, size, off, data, done, index, s, skip, chunk, lba, buf);
      ghost var p1 := past;
      ok := WriteAbove(lba, buf);
      if ok { PatchedStep(g, d0, p1, |p0|, m, h, size, off, data, disk, done + chunk); }
      PatchingMake(d0, p0, h, size, off, data, if ok then done + chunk else done);
    }

    /** One cluster's part of fat_write_at, from skip0 bytes into it. */
    method PatchCluster(cluster: nat, skip0: nat, sector0: Sector, data: seq<byte>, done0: nat,
                        ghost d0: Disk, ghost p0: seq<Disk>, ghost h: nat, ghost size: nat, ghost off: nat,
                        ghost index: nat)
      returns (ok: bool, done: nat, sector: Sector)
      requires done0 <= |data| && h in m.ch && index < |m.ch[h]| && cluster == m.ch[h][index]
      requires off + |data| <= |Content(g, d0, m.ch[h], size)|
               && (done0 < |data| ==> PositionAt(g, index, 0, skip0, off + done0)) && skip0 < 512 * g.spc
      requires Patching(d0, p0, h, size, off, data, done0)
      modifies this`disk, this`past, this`refused
      ensures done0 <= done <= |data| && (!ok ==> !reliable)
      ensures Patching(d0, p0, h, size, off, data, done) && Table(g, disk) == Table(g, old(disk))
      ensures ok && done < |data| ==> PositionAt(g, index + 1, 0, 0, off + done)
    {
      hide *;
      var lba: nat, skip: nat, s: nat := ClusterToLba(g, cluster), skip0, 0;
      ok, done, sector := true, done0, sector0;
      while s < g.spc && done < |data|
        invariant s <= g.spc && done0 <= done <= |data| && ok && Table(g, disk) == Table(g, old(disk))
        invariant Patching(d0, p0, h, size, off, data, done)
        invariant done < |data| ==> PositionAt(g, index, s, skip, off + done)
        invariant skip == 0 || skip < 512 * (g.spc - s)
      {
        if skip >= 512 {
          NextPosition(g, index, s, skip, off + done);
          skip := skip - 512;
        } else {
          var chunk := if 512 - skip < |data| - done then 512 - skip else |data| - done;
          PatchingParts(d0, p0, h, size, off, data, done);
          PatchPlace(g, d0, disk, m, h, size, off, data, done, index, s);
          SectorMake(g, m.ch[h], index, s, Wrap(lba + s));
          ok, sector := PatchSector(Wrap(lba + s), sector, skip, data, done, chunk, d0, p0, h, size, off, index, s);
          if !ok { return; }
          if skip + chunk == 512 { NextSectorAt(g, index, s, skip, off + done, chunk); }
          done := done + chunk;
          skip := 0;
        }
        s := s + 1;
      }
      if done < |data| { ClusterEnd(g, index, off + done); }
    }

    /** The walk of fat_write_at to the cluster it starts in. */
    method WalkTo(first: nat, n: nat) returns (cluster: nat)
      requires Valid()
      modifies this`fatReads
      ensures Valid() && (first in m.ch && n < |m.ch[first]| ==> cluster == m.ch[first][n])
    {
      hide *;
      ValidParts();
      LimitBelow(g);
      if first in m.ch {
        ModelChain(g, disk, m, first);
        ChainInParts(g, disk, m, first);
      }
      cluster := first;
      var i: nat := n;
      while i != 0 && cluster >= 2 && cluster < g.Eoc()
        invariant i <= n && Valid()
        invariant first in m.ch && n < |m.ch[first]| ==> cluster == m.ch[first][n - i]
        modifies this`fatReads
      {
        if first in m.ch && n < |m.ch[first]| { NextCluster(g, disk, m, first, n - i); }
        cluster := FatEntryRead(cluster);
        i := i - 1;
      }
      if first in m.ch && n < |m.ch[first]| { ClusterHere(g, m.ch[first], n - i); }
    }

    /** The writing loop of fat_write_at. */
    method PatchOn(first: nat, index0: nat, cluster0: nat, skip0: nat, data: seq<byte>,
                   ghost d0: Disk, ghost p0: seq<Disk>, ghost size: nat, ghost off: nat)
      returns (done: nat)
      requires |data| > 0 && first in m.ch && index0 < |m.ch[first]| && cluster0 == m.ch[first][index0]
      requires off + |data| <= |Content(g, d0, m.ch[first], size)| && PositionAt(g, index0, 0, skip0, off)
               && skip0 < 512 * g.spc
      requires Patching(d0, p0, first, size, off, data, 0)
      modifies this`disk, this`past, this`refused, this`fatReads
      ensures done <= |data| && (reliable ==> done == |data|)
      ensures Patching(d0, p0, first, size, off, data, done) && Table(g, disk) == Table(g, old(disk))
    {
      hide *;
      ghost var chain := m.ch[first];
      var index: nat, cluster: nat, skip: nat := index0, cluster0, skip0;
      var ok, sector := true, ZeroSector();
      done := 0;
      PatchingParts(d0, p0, first, size, off, data, 0);
      PatchedParts(g, d0, disk, m, first, size, off, data, 0);
      ModelChain(g, disk, m, first);
      ChainInParts(g, disk, m, first);
      WFParts(g, disk, m);
      LimitBelow(g);
      GeoPositive(g);
      ClusterHere(g, chain, index);
      while done < |data| && cluster >= 2 && cluster < g.Eoc()
        invariant done <= |data| && Table(g, disk) == Table(g, old(disk))
        invariant Patching(d0, p0, first, size, off, data, done)
        invariant index < |chain| && cluster == chain[index] && 2 <= cluster < g.Eoc() && skip < 512 * g.spc
        invariant done < |data| ==> PositionAt(g, index, 0, skip, off + done)
        decreases |chain| - index, |data| - done
      {
        ghost var was := done;
        ok, done, sector := PatchCluster(cluster, skip, sector, data, done, d0, p0, first, size, off, index);
        if !ok { return; }
        skip := 0;
        if done < |data| {
          PatchingParts(d0, p0, first, size, off, data, done);
          PatchedParts(g, d0, disk, m, first, size, off, data, done);
          MoreClusters(g, d0, chain, size, index, off + done);
          NextCluster(g, disk, m, first, index);
          cluster := FatEntryRead(cluster);
          index := index + 1;
          ClusterHere(g, chain, index);
          PatchingMake(d0, p0, first, size, off, data, done);
        }
      }
    }

    /** fat_write_at once the file is found and the span fits it. */
    method PatchFile(first: nat, cluster: nat, off: nat, data: seq<byte>, ghost k: nat, ghost name: Name,
                     ghost size: nat, ghost chain: seq<nat>) returns (done: nat)
      requires first in m.ch && chain == m.ch[first] && first in m.loc && first !in m.depth
      requires g.spc > 0 && |data| > 0 && off + |data| <= size <= 512 * Sectors(g, |chain|)
      requires Lookup(g, disk, cwd, name) == FileNode(Content(g, disk, chain, size)) && StartsAt(g, chain, off, cluster)
      requires FileHere(g, disk, m, cwd, k, first, name, size) && atFirst == 0 && Valid()
      modifies this`disk, this`past, this`refused, this`fatReads
      ensures Valid() && old(past) <= past && Table(g, disk) == Table(g, old(disk))
      ensures done <= |data| && (reliable ==> done == |data|)
      ensures Overwritten(g, old(disk), m, disk, cwd, name, off, data, done)
      ensures OverwrittenAll(g, old(disk), m, past, |old(past)|, cwd, name, off, data)
      ensures Patches(Lookup(g, old(disk), cwd, name), Lookup(g, disk, cwd, name), off, data, done)
    {
      hide *;
      ghost var d0, p0 := disk, past;
      ValidParts();
      ContentIs(g, disk, chain, size);
      StartPlace(g, off, |chain|);
      StartsAtIs(g, chain, off, cluster);
      PositionMake(g, Quot(off, ClusterBytes(g)), Rem(off, ClusterBytes(g)), off);
      PatchedNone(g, d0, m, first, size, off, data);
      PatchedBegin(g, d0, past, m, first, size, off, data);
      PatchingMake(d0, p0, first, size, off, data, 0);
      done := PatchOn(first, Quot(off, ClusterBytes(g)), cluster, Rem(off, ClusterBytes(g)), data, d0, p0, size, off);
      PatchingParts(d0, p0, first, size, off, data, done);
      PatchedParts(g, d0, disk, m, first, size, off, data, done);
      PatchedShows(g, d0, m, disk, cwd, k, first, name, size, off, data, done);
      PatchedPast(g, d0, m, past, |p0|, cwd, k, first, name, size, off, data);
      ForgetAt();
    }

    /** Writes data over a file of the current folder from off on, never past
        its end: the answer is -1, or how many bytes were written. */
    method FatWriteAt(name: CString, off: nat, data: seq<byte>) returns (r: int, ghost done: nat)
      requires (mounted ==> Valid()) && off < U32 && |data| < U32
      modifies this
      ensures stays == old(stays) && honest == old(honest) && mirrored == old(mirrored)
      ensures g == old(g) && mounted == old(mounted) && cwd == old(cwd) && m == old(m)
      ensures (mounted ==> Valid()) && old(past) <= past && Table(g, disk) == Table(g, old(disk))
      ensures !mounted ==> r == -1 && disk == old(disk) && past == old(past)
      ensures mounted ==> (match Lookup(g, old(disk), cwd, FatName(name))
        case FileNode(w) =>
          if off + |data| > |w| then r == -1 && disk == old(disk) && past == old(past)
          else r == (if done < 0x8000_0000 then done else done - 0x1_0000_0000) && (reliable ==> done == |data|)
               && Overwritten(g, old(disk), m, disk, cwd, FatName(name), off, data, done)
               && OverwrittenAll(g, old(disk), m, past, |old(past)|, cwd, FatName(name), off, data)
        case _ => r == -1 && disk == old(disk) && past == old(past))
      ensures mounted ==> (match (Lookup(g, old(disk), cwd, FatName(name)), Lookup(g, disk, cwd, FatName(name)))
        case (FileNode(w), FileNode(v)) =>
          && done <= |data| && |v| == |w|
          && forall i | 0 <= i < |v| :: v[i] == if off <= i < off + done then data[i - off] else w[i]
        case (a, b) => a == b)
    {
      hide *;
      ghost var d0, p0 := disk, past;
      if mounted { ValidParts(); }
      done := 0;
      atFirst := 0;
      if !mounted { return -1, 0; }
      ForgetAt();
      FatNameFirst(name);
      FolderNowIs(cwd);
      var found, e, k := FindEntry(cwd, name);
      if found {
        NodeKind(g, disk, e);
        if !IsDir(e) {
          FileAt(g, disk, m, cwd, k, e);
          FileParts(g, disk, m, cwd, k, e);
        }
      }
      if !found || IsDir(e) || off > e.size || |data| > e.size - off { return -1, 0; }
      var per := ClusterBytes(g);
      StartSkip(g, off);
      var cluster := WalkTo(e.cluster, Quot(off, per));
      if |data| == 0 {
        OverwrittenNone(g, d0, m, past, cwd, FatName(name), off);
        WrittenNone(Lookup(g, d0, cwd, FatName(name)), off);
        return 0, 0;
      }
      FileFound(g, disk, m, cwd, k, e, FatName(name));
      StartsAtIs(g, m.ch[e.cluster], off, cluster);
      var n := PatchFile(e.cluster, cluster, off, data, k, FatName(name), e.size, m.ch[e.cluster]);
      done := n;
      WrittenBytes(Lookup(g, d0, cwd, FatName(name)), Lookup(g, disk, cwd, FatName(name)), off, data, n);
      AsIntIs(n);
      r := AsInt(n);
    }

    // ----- the current folder

    /** The search of fat_chdir for the entry named "..". */
    method FindDotDot(f: nat) returns (found: bool, cluster: nat)
      requires g.spc > 0 && WalkOk()
      modifies this`walkDir, this`walkSkip, this`walkCluster, this`fatReads, this`folderReads
      ensures WalkOk() && WalkIn(f, old(walkDir), old(walkSkip), old(walkCluster))
      ensures found == (DotDotFrom(SlotsSeen(f), 0) < |SlotsSeen(f)|)
      ensures found ==> cluster == SlotsSeen(f)[DotDotFrom(SlotsSeen(f), 0)].cluster
      ensures Cost(f, old(fatReads), old(folderReads))
    {
      hide *;
      SlotsSeenIs(f);
      ScanCount(g, disk, f);
      ghost var reads0, folder0, w0, s0, c0 := fatReads, folderReads, walkDir, walkSkip, walkCluster;
      ScanningMake(f);
      var s: nat := 0;
      found, cluster := false, 0;
      while true
        invariant Scanning(f, s, reads0, folder0, w0, s0, c0) && s <= |Scan(g, disk, f)| && !found
        invariant forall j | 0 <= j < 16 * s :: SlotsSeen(f)[j].name != DOTDOT
        decreases ScanCap(g, f) - s
      {
        var more, lba, sec := ScanNext(f, s, reads0, folder0, w0, s0, c0);
        if !more {
          DotDotUnique(SlotsSeen(f), 16 * s);
          return;
        }
        ScanningParts(f, s + 1, reads0, folder0, w0, s0, c0);
        ScanSector(g, disk, f, s);
        var i;
        found, i := DotDotInSector(g.fat32, sec);
        NoDotDot(g.fat32, SlotsSeen(f), sec, s, i);
        if found {
          DotDotUnique(SlotsSeen(f), 16 * s + i);
          cluster := Decode(g.fat32, sec, i).cluster;
          return;
        }
        s := s + 1;
      }
    }

    /** FindDotDot, in a folder of the volume. */
    method ParentOf(f: nat) returns (found: bool, cluster: nat)
      requires Valid() && f in m.depth
      modifies this`walkDir, this`walkSkip, this`walkCluster, this`fatReads, this`folderReads
      ensures Valid() && found == (DotDotFrom(FolderNow(f), 0) < |FolderNow(f)|)
      ensures found ==> cluster == FolderNow(f)[DotDotFrom(FolderNow(f), 0)].cluster
    {
      hide *;
      ValidParts();
      ValidWalk();
      FolderScanned(f);
      ghost var w0, s0, c0 := walkDir, walkSkip, walkCluster;
      found, cluster := FindDotDot(f);
      Rewalked(f, w0, s0, c0);
    }

    /** Makes a named folder, its parent or itself the current folder. */
    method FatChdir(name: CString) returns (ok: bool)
      requires mounted ==> Valid()
      modifies this`cwd, this`walkDir, this`walkSkip, this`walkCluster, this`fatReads, this`folderReads
      modifies this`matchedLba, this`matchedIndex
      ensures mounted ==> Valid() && old(cwd) in m.depth
      ensures !mounted || !ok ==> !ok && cwd == old(cwd)
      ensures mounted && name == [DOTCHAR] ==> ok && cwd == old(cwd)
      ensures mounted && name == [DOTCHAR, DOTCHAR] ==> ok
      ensures mounted && name == [DOTCHAR, DOTCHAR] ==> if old(cwd) == 0 then cwd == 0
              else old(cwd) in m.loc && cwd == m.loc[old(cwd)].0
      ensures mounted && name != [DOTCHAR] && name != [DOTCHAR, DOTCHAR] ==>
        ok == Lookup(g, disk, old(cwd), FatName(name)).FolderNode?
      ensures ok && name != [DOTCHAR] && name != [DOTCHAR, DOTCHAR] ==>
        cwd == Lookup(g, disk, old(cwd), FatName(name)).cluster && cwd != 0 && cwd in m.loc && m.loc[cwd].0 == old(cwd)
    {
      hide *;
      if !mounted { return false; }
      ValidParts();
      if name == [DOTCHAR] { return true; }
      if name == [DOTCHAR, DOTCHAR] {
        if cwd == 0 { return true; }
        FolderNowIs(cwd);
        ParentFolder(g, disk, m, cwd);
        DotDotIs(FolderNow(cwd), m.loc[cwd].0);
        var cluster;
        ok, cluster := ParentOf(cwd);
        if !ok { return; }
        ValidParts();
        cwd := cluster;
        ValidMake();
        return;
      }
      FolderNowIs(cwd);
      var found, e, k := FindEntry(cwd, name);
      if found { NodeKind(g, disk, e); }
      if !found || !IsDir(e) { return false; }
      KidHome(g, disk, m, cwd, k);
      ValidParts();
      cwd := e.cluster;
      ValidMake();
      ok := true;
    }

    // ----- recovery

    /** Whether some copy of a row differs from the first. */
    method CopiesDiffer(row: nat, a: Sector) returns (dirty: bool)
      requires GeoOk(g) && Fits(g, disk) && row < g.Rows() && g.CopyLba(0, row) < |disk| && a == disk[g.CopyLba(0, row)]
      ensures dirty <==> !RowAgrees(g, disk, row)
    {
      hide *;
      dirty := false;
      CopiesLikeOne(g, disk, row, a);
      CopiesExist(g);
      var f: nat := 1;
      while f < g.nfats
        invariant 1 <= f <= g.nfats && (if dirty then !RowAgrees(g, disk, row) else CopiesLike(g, disk, row, a, f))
      {
        CopyPlace(g, disk, f, row);
        var ok, b := ReadSector(g.CopyLba(f, row));
        if !ok { return; }
        if b != a {
          CopyOff(g, disk, row, f);
          dirty := true;
        } else if !dirty {
          CopiesLikeMore(g, disk, row, a, f);
        }
        f := f + 1;
      }
      if !dirty { CopiesLikeAll(g, disk, row, a); }
    }

    /** The sweep after row rows: those are swept and equal in all copies unless
        the device is unreliable, and nothing marked has been touched. */
    ghost predicate Sweeping(d0: Disk, p0: seq<Disk>, marks: set<nat>, row: nat)
      reads `disk, `past, `g, `fields, `fsinfoDone, `stays, `honest, `mirrored
    {
      && Base() && p0 <= past && KeptFrom(g, d0, |p0|, past, disk, marks) && UpperSame(g, d0, disk)
         && InTables(g, marks)
      && SweptTo(g, Table(g, d0), Table(g, disk), marks, row, reliable) && (reliable ==> RowsAgree(g, disk, row))
      && FatOnly(g, d0, disk)
    }

    lemma SweepingParts(d0: Disk, p0: seq<Disk>, marks: set<nat>, row: nat)
      requires Sweeping(d0, p0, marks, row)
      ensures Base() && p0 <= past && KeptFrom(g, d0, |p0|, past, disk, marks) && UpperSame(g, d0, disk)
              && InTables(g, marks)
      ensures SweptTo(g, Table(g, d0), Table(g, disk), marks, row, reliable) && (reliable ==> RowsAgree(g, disk, row))
      ensures FatOnly(g, d0, disk)
    {
      hide FatOnly;
      hide Base;
      hide KeptFrom;
      hide UpperSame;
      hide SweptTo;
      hide RowsAgree;
    }

    lemma SweepingMake(d0: Disk, p0: seq<Disk>, marks: set<nat>, row: nat)
      requires Base() && p0 <= past && KeptFrom(g, d0, |p0|, past, disk, marks) && UpperSame(g, d0, disk)
               && InTables(g, marks)
      requires SweptTo(g, Table(g, d0), Table(g, disk), marks, row, reliable) && (reliable ==> RowsAgree(g, disk, row))
      requires FatOnly(g, d0, disk)
      ensures Sweeping(d0, p0, marks, row)
    {
      hide FatOnly;
      hide Base;
      hide KeptFrom;
      hide UpperSame;
      hide SweptTo;
      hide RowsAgree;
    }

    /** One row of the sweep: copies compared, lost entries zeroed, and the row
        written to every copy when either found something. */
    method RepairRow(row: nat, live: seq<bool>, nfree0: nat, ghost d0: Disk, ghost p0: seq<Disk>,
                     ghost marks: set<nat>) returns (nfree: nat)
      requires Sweeping(d0, p0, marks, row) && row < g.Rows() && Bits(g, live, marks)
      requires nfree0 == |FreeBelow(Swept(g, Table(g, d0), marks), row * g.Per())|
      modifies this`disk, this`past, this`refused, this`fsinfoDone
      ensures Sweeping(d0, p0, marks, row + 1)
      ensures nfree == |FreeBelow(Swept(g, Table(g, d0), marks), row * g.Per() + g.Per())|
      ensures Swept(g, Table(g, d0), marks) == Table(g, d0) && RowAgrees(g, old(disk), row) ==>
              disk == old(disk) && past == old(past)
      ensures reliable ==> 0 <= g.reserved + row < |disk| && forall f: nat | f < g.nfats ::
              && 0 <= g.reserved + f * g.fatSectors + row < |disk|
              && disk[g.reserved + f * g.fatSectors + row] == disk[g.reserved + row]
      ensures |disk| == |old(disk)| && forall l: nat | l < |disk| && disk[l] != old(disk)[l] ::
              || (g.fat32 && l == g.fsinfoLba)
              || (&& g.fatSectors > 0 && g.reserved + row <= l
                  && Rem(l - g.reserved - row, g.fatSectors) == 0 && Quot(l - g.reserved - row, g.fatSectors) < g.nfats)
    {
      hide *;
      ghost var t0 := Table(g, d0);
      SweepingParts(d0, p0, marks, row);
      BaseParts();
      RowNow(g, disk, row, t0, marks, reliable);
      TableSize(g, disk, t0, marks, row, reliable);
      var ok, a := ReadSector(g.CopyLba(0, row));
      var dirty := CopiesDiffer(row, a);
      ghost var d1, p1, a0 := disk, past, a;
      var changed;
      a, changed, nfree := SweepRow(g, row, a, live, nfree0, t0, marks);
      RowSweptOut(g, disk, row, a, t0, marks, reliable);
      SweptToStep(g, t0, Table(g, disk), marks, row, reliable);
      if !dirty && !changed {
        assert disk[g.CopyLba(0, row) := a] == disk;
        OthersStaySelf(g, disk, row);
        if reliable { RowsAgreeStep(g, disk, disk, row); }
        if reliable { RowAgreesPlain(g, disk, row); }
        SweepingMake(d0, p0, marks, row + 1);
        return;
      }
      FsinfoUnknown(marks);
      KeptThen(g, d0, |p0|, p1, d1, past, disk, marks);
      UpperTrans(g, d0, d1, disk);
      BaseParts();
      CopiesExist(g);
      CopyPlace(g, disk, 0, row);
      RowSweptOut(g, disk, row, a, t0, marks, reliable);
      if reliable { RowsAgreeAbove(g, d1, disk, row); }
      FatOnlyFs(g, d1, disk);
      FatOnlyThen(g, d0, d1, disk);
      SweepingMake(d0, p0, marks, row);
      ghost var d2 := disk;
      StoreRow(row, a, d0, p0, marks);
      RowAndFsMake(g, d1, d2, disk, row);
      RowAndFsPlain(g, d1, disk, row);
      RowDoneHere(d0, p0, marks, row);
    }

    lemma RowDoneHere(d0: Disk, p0: seq<Disk>, marks: set<nat>, row: nat)
      requires Sweeping(d0, p0, marks, row + 1) && row < g.Rows()
      ensures reliable ==> 0 <= g.reserved + row < |disk| && forall f: nat | f < g.nfats ::
              && 0 <= g.reserved + f * g.fatSectors + row < |disk|
              && disk[g.reserved + f * g.fatSectors + row] == disk[g.reserved + row]
    {
      hide *;
      SweepingParts(d0, p0, marks, row + 1);
      BaseParts();
      if reliable {
        RowsAgreeAt(g, disk, row + 1, row);
        RowAgreesPlain(g, disk, row);
      }
    }

    /** A swept row goes to every copy, whatever becomes of each write. */
    method StoreRow(row: nat, a: Sector, ghost d0: Disk, ghost p0: seq<Disk>, ghost marks: set<nat>)
      requires Sweeping(d0, p0, marks, row) && row < g.Rows() && g.CopyLba(0, row) < |disk|
               && (reliable ==> FsUnknown(g, disk))
      requires var d1 := disk[g.CopyLba(0, row) := a];
               && Table(g, d1) == RowSwept(g, Table(g, disk), marks, row) && StaysOf(g, d1) == StaysOf(g, disk)
               && forall c | c in marks && c < g.Limit() :: FatGet(g, d1, c) == FatGet(g, disk, c)
      modifies this`disk, this`past, this`refused
      ensures Sweeping(d0, p0, marks, row + 1)
      ensures RowOnly(g, old(disk), disk, row)
    {
      hide *;
      ghost var d1, p1, t0 := disk, past, Table(g, d0);
      SweepingParts(d0, p0, marks, row);
      BaseParts();
      SweptToStep(g, t0, Table(g, disk), marks, row, reliable);
      MarksBelow(g, marks);
      var ok := WriteCopies(row, a, false, RowSwept(g, Table(g, disk), marks, row), marks);
      KeptThen(g, d0, |p0|, p1, d1, past, disk, marks);
      UpperTrans(g, d0, d1, disk);
      CopiesExist(g);
      CopyPlace(g, d1, 0, row);
      FatOnlyRow(g, d1, disk, row);
      FatOnlyThen(g, d0, d1, disk);
      if reliable {
        RowsAgreeStep(g, d1, disk, row);
      }
      SweepingMake(d0, p0, marks, row + 1);
    }

    /** The end of the recovery: FSInfo's free count is made exact. */
    method WriteFreeCount(nfree: nat, ghost u: set<nat>)
      requires Base() && InTables(g, u) && nfree < UNKNOWN && (reliable ==> nfree == |Free(Table(g, disk))|)
      modifies this`disk, this`past, this`refused, this`fsinfoDone
      ensures Base() && (reliable ==> FsExact(g, disk))
      ensures old(past) <= past && KeptFrom(g, old(disk), |old(past)|, past, disk, u)
      ensures UpperSame(g, old(disk), disk) && Table(g, disk) == Table(g, old(disk))
      ensures |disk| == |old(disk)| && forall l | g.reserved <= l < |disk| :: disk[l] == old(disk)[l]
      ensures nfree == |Free(Table(g, old(disk)))| && FsExact(g, old(disk)) ==> disk == old(disk) && past == old(past)
      ensures FsOnly(g, old(disk), disk)
      ensures forall l: nat | l < |disk| && disk[l] != old(disk)[l] ::
              forall i | 0 <= i < 512 && !(488 <= i < 492) :: disk[l][i] == old(disk)[l][i]
    {
      hide *;
      KeptSelf(g, disk, past, u);
      UpperSelf(g, disk);
      BaseParts();
      FsCases(g, disk, nfree);
      FsOnlySelf(g, disk);
      if !g.fat32 || g.fsinfoLba < 1 || g.fsinfoLba >= g.reserved { return; }
      var ok, a := ReadSector(g.fsinfoLba);
      if !ok || Rd32(a, 0) != 0x4161_5252 || Rd32(a, 484) != 0x6141_7272 || Rd32(a, 488) == nfree { return; }
      StoreCount(a, nfree, u);
    }

    /** The write of that count. */
    method StoreCount(a: Sector, nfree: nat, ghost u: set<nat>)
      requires GeoOk(g) && Intact(g, fields) && Fits(g, disk) && StaysOf(g, disk) == stays
               && (mirrored && reliable ==> Mirrored(g, disk))
      requires honest && reliable ==> FsHonest(g, disk)
      requires fsinfoDone && reliable ==> FsUnknown(g, disk)
      requires HistoryOk(g, past, |disk|, stays, honest && reliable, mirrored && reliable)
      requires FsPresent(g, disk) && g.fsinfoLba < |disk| && g.fsinfoLba < g.reserved && a == disk[g.fsinfoLba]
      requires InTables(g, u) && nfree < UNKNOWN && (reliable ==> nfree == |Free(Table(g, disk))|)
      modifies this`disk, this`past, this`refused, this`fsinfoDone
      ensures Base() && (reliable ==> FsExact(g, disk))
      ensures old(past) <= past && KeptFrom(g, old(disk), |old(past)|, past, disk, u)
      ensures UpperSame(g, old(disk), disk) && Table(g, disk) == Table(g, old(disk))
      ensures |disk| == |old(disk)| && forall l | g.reserved <= l < |disk| :: disk[l] == old(disk)[l]
      ensures FsOnly(g, old(disk), disk)
      ensures forall l: nat | l < |disk| && disk[l] != old(disk)[l] ::
              forall i | 0 <= i < 512 && !(488 <= i < 492) :: disk[l][i] == old(disk)[l][i]
    {
      hide *;
      KeptSelf(g, disk, past, u);
      UpperSelf(g, disk);
      ghost var d0, p0, hon, mir := disk, past, honest && reliable, mirrored && reliable;
      FsCountState(g, d0, u, nfree, stays, hon, mir);
      FsHere(g, d0);
      FsOnlySelf(g, d0);
      FsOnlyOne(g, d0, FsCounted(a, nfree));
      FsCountedBytes(a, nfree);
      var ok := WriteSector(g.fsinfoLba, FsCounted(a, nfree));
      if ok {
        fsinfoDone := false;
        FitsSame(g, d0, disk);
        HistoryMore(g, p0, disk, |disk|, stays, hon, mir);
        KeptOne(g, d0, |p0|, p0, d0, disk, u);
        ReservedUpper(g, d0, g.fsinfoLba, FsCounted(a, nfree));
      } else {
        HistoryWeaker(g, past, |disk|, stays, hon, mir, false, false);
      }
      BaseMake();
    }

    /** The rows of the sweep, and then the count. */
    method Repair(live: seq<bool>, ghost marks: set<nat>)
      requires Base() && InTables(g, marks) && Bits(g, live, marks)
      modifies this`disk, this`past, this`refused, this`fsinfoDone
      ensures Base() && old(past) <= past && KeptFrom(g, old(disk), |old(past)|, past, disk, marks)
      ensures UpperSame(g, old(disk), disk)
      ensures reliable ==>
              Table(g, disk) == Swept(g, Table(g, old(disk)), marks) && Mirrored(g, disk) && FsExact(g, disk)
      ensures Settled(g, old(disk), marks) ==> disk == old(disk) && past == old(past)
      ensures FatOnly(g, old(disk), disk)
    {
      hide *;
      ghost var d0, p0, t0 := disk, past, Table(g, disk);
      BaseParts();
      KeptSelf(g, disk, past, marks);
      UpperSelf(g, disk);
      SweptToBegin(g, t0, marks);
      if !reliable { SweptToStep(g, t0, t0, marks, 0, true); SweptToWeaker(g, t0, t0, marks, 0); }
      RowsAgreeNone(g, disk);
      FatOnlySelf(g, disk);
      SweepingMake(d0, p0, marks, 0);
      FreeBelowNone(Swept(g, t0, marks));
      if Settled(g, d0, marks) { SettledParts(g, d0, marks); }
      var nfree: nat, row: nat := 0, 0;
      while row < g.Rows()
        invariant row <= g.Rows() && Sweeping(d0, p0, marks, row)
        invariant nfree == |FreeBelow(Swept(g, t0, marks), row * g.Per())|
        invariant Settled(g, d0, marks) ==> disk == d0 && past == p0
      {
        if Settled(g, d0, marks) { MirroredRow(g, d0, row); }
        NextRow(g, row);
        nfree := RepairRow(row, live, nfree, d0, p0, marks);
        row := row + 1;
      }
      ghost var d1, p1 := disk, past;
      SweepingParts(d0, p0, marks, row);
      BaseParts();
      CountDone(g, t0, Table(g, disk), marks, row, reliable);
      if reliable { RowsAgreeAll(g, disk, row); }
      WriteFreeCount(nfree, marks);
      FatOnlyFs(g, d1, disk);
      FatOnlyThen(g, d0, d1, disk);
      KeptThen(g, d0, |p0|, p1, d1, past, disk, marks);
      UpperTrans(g, d0, d1, disk);
      if reliable { MirroredAbove(g, d1, disk); }
    }

    /** fat_recover: marks every cluster a path leads to, then frees what is not
        marked, makes the copies equal and the free count exact.  When the tree
        cannot be read whole, or there are too many clusters, it writes nothing. */
    method FatRecover(scanMax: nat) returns (done: bool, ghost marks: set<nat>)
      requires Base()
      modifies this`disk, this`past, this`refused, this`fsinfoDone
      ensures Base() && old(past) <= past && UpperSame(g, old(disk), disk)
      ensures !done ==> disk == old(disk) && past == old(past)
      ensures done <==> 0 < g.total <= scanMax && !MarkScan(g, old(disk)).bad
      ensures done ==> marks == MarkScan(g, old(disk)).marks
      ensures 0 < g.total <= scanMax && Readable(g, old(disk)) ==> done
      ensures forall x | x in marks :: Reachable(g, old(disk), x)
      ensures done && FoldersApart(g, old(disk)) ==> forall x: nat | Reachable(g, old(disk), x) :: x in marks
      ensures done && FoldersApart(g, old(disk)) ==>
        forall f: nat, n: nat | Reached(g, old(disk), f, true, n) && (InTable(g, f) || n == 0) ::
          NotDeep(g, old(disk), f)
      ensures done ==> KeptFrom(g, old(disk), |old(past)|, past, disk, marks)
      ensures done && reliable ==>
              Table(g, disk) == Swept(g, Table(g, old(disk)), marks) && Mirrored(g, disk) && FsExact(g, disk)
      ensures done && Settled(g, old(disk), marks) ==> disk == old(disk) && past == old(past)
      ensures FoldersApart(g, old(disk)) ==>
        SameTree(g, old(disk), disk) && SameTreeFrom(g, old(disk), past, |old(past)|) && FoldersApart(g, disk)
      ensures done && FoldersApart(g, old(disk)) && reliable ==> Recovered(g, disk)
      ensures FoldersApart(g, old(disk)) && Recovered(g, old(disk)) ==> disk == old(disk) && past == old(past)
      ensures |disk| == |old(disk)| && forall l: nat | l < |disk| && disk[l] != old(disk)[l] ::
              || (g.fat32 && l == g.fsinfoLba)
              || (&& g.fatSectors > 0 && g.reserved <= l && Quot(l - g.reserved, g.fatSectors) < g.nfats
                  && Rem(l - g.reserved, g.fatSectors) < (if g.fat32 then (g.total + 129) / 128
                     else (g.total + 257) / 256))
      ensures done && reliable ==>
              && g.fatSectors > 0
              && g.reserved + g.nfats * g.fatSectors <= |disk|
              && forall k: nat | k < g.nfats * g.fatSectors
                  && Rem(k, g.fatSectors) < (if g.fat32 then (g.total + 129) / 128 else (g.total + 257) / 256) ::
                g.reserved + Rem(k, g.fatSectors) < |disk|
                && disk[g.reserved + k] == disk[g.reserved + Rem(k, g.fatSectors)]
      ensures done && reliable ==> forall x: nat | 2 <= x < g.total + 2 ::
              FatGet(g, disk, x) ==
              if x in marks || FatGet(g, old(disk), x) == (if g.fat32 then 0x0FFF_FFF7 else 0xFFF7)
              then FatGet(g, old(disk), x) else 0
    {
      hide *;
      ghost var d0 := disk;
      done, marks := ScanAndRepair(scanMax);
      RecoveredPlain(d0, done, marks);
    }

    lemma RecoveredPlain(d0: Disk, done: bool, marks: set<nat>)
      requires Base() && FatOnly(g, d0, disk)
      requires done && reliable ==> Table(g, disk) == Swept(g, Table(g, d0), marks) && Mirrored(g, disk)
      ensures |disk| == |d0| && forall l: nat | l < |disk| && disk[l] != d0[l] ::
              || (g.fat32 && l == g.fsinfoLba)
              || (&& g.fatSectors > 0 && g.reserved <= l && Quot(l - g.reserved, g.fatSectors) < g.nfats
                  && Rem(l - g.reserved, g.fatSectors) < (if g.fat32 then (g.total + 129) / 128
                     else (g.total + 257) / 256))
      ensures done && reliable ==>
              && g.fatSectors > 0
              && g.reserved + g.nfats * g.fatSectors <= |disk|
              && forall k: nat | k < g.nfats * g.fatSectors
                  && Rem(k, g.fatSectors) < (if g.fat32 then (g.total + 129) / 128 else (g.total + 257) / 256) ::
                g.reserved + Rem(k, g.fatSectors) < |disk|
                && disk[g.reserved + k] == disk[g.reserved + Rem(k, g.fatSectors)]
      ensures done && reliable ==> forall x: nat | 2 <= x < g.total + 2 ::
              FatGet(g, disk, x) ==
              if x in marks || FatGet(g, d0, x) == (if g.fat32 then 0x0FFF_FFF7 else 0xFFF7)
              then FatGet(g, d0, x) else 0
    {
      hide *;
      FatOnlyPlain(g, d0, disk);
      BaseParts();
      FatNonEmpty(g);
      MirroredPlain(g, disk);
      SweptPlain(g, d0, disk, marks);
    }

    /** The scan, and the repair by its marks. */
    method ScanAndRepair(scanMax: nat) returns (done: bool, ghost marks: set<nat>)
      requires Base()
      modifies this`disk, this`past, this`refused, this`fsinfoDone
      ensures Base() && old(past) <= past && UpperSame(g, old(disk), disk)
      ensures !done ==> disk == old(disk) && past == old(past)
      ensures done <==> 0 < g.total <= scanMax && !MarkScan(g, old(disk)).bad
      ensures done ==> marks == MarkScan(g, old(disk)).marks
      ensures 0 < g.total <= scanMax && Readable(g, old(disk)) ==> done
      ensures forall x | x in marks :: Reachable(g, old(disk), x)
      ensures done && FoldersApart(g, old(disk)) ==> forall x: nat | Reachable(g, old(disk), x) :: x in marks
      ensures done && FoldersApart(g, old(disk)) ==>
        forall f: nat, n: nat | Reached(g, old(disk), f, true, n) && (InTable(g, f) || n == 0) ::
          NotDeep(g, old(disk), f)
      ensures done ==> KeptFrom(g, old(disk), |old(past)|, past, disk, marks)
      ensures done && reliable ==>
              Table(g, disk) == Swept(g, Table(g, old(disk)), marks) && Mirrored(g, disk) && FsExact(g, disk)
      ensures done && Settled(g, old(disk), marks) ==> disk == old(disk) && past == old(past)
      ensures FoldersApart(g, old(disk)) ==>
        SameTree(g, old(disk), disk) && SameTreeFrom(g, old(disk), past, |old(past)|) && FoldersApart(g, disk)
      ensures done && FoldersApart(g, old(disk)) && reliable ==> Recovered(g, disk)
      ensures FoldersApart(g, old(disk)) && Recovered(g, old(disk)) ==> disk == old(disk) && past == old(past)
      ensures FatOnly(g, old(disk), disk)
    {
      hide *;
      ghost var d0, p0 := disk, past;
      BaseParts();
      UpperSelf(g, disk);
      SteadySelf(g, disk, past);
      FatOnlySelf(g, disk);
      done, marks := false, {};
      if g.total == 0 || g.total > scanMax { return; }
      var scan := new TreeScan(g, disk);
      scan.ScanRoot();
      marks := scan.Marked();
      scan.GotIs(MarkScan(g, disk));
      if scan.bad { return; }
      scan.ReadyParts();
      InTablesMake(g, marks);
      BitsMake(g, scan.live, marks);
      Repair(scan.live, marks);
      done := true;
      if FoldersApart(g, d0) {
        ExactlyMake(g, d0, marks);
        RecoveryLeaves(g, d0, past, |p0|, disk, marks, reliable);
      }
    }

    /** The recovery, on a volume that may be well-formed: then its marks are the
        clusters in use, and it gives up only on too many clusters or too deep a
        tree. */
    method RecoverVolume(scanMax: nat) returns (done: bool)
      requires Base()
      modifies this`disk, this`past, this`refused, this`fsinfoDone
      ensures Base() && old(past) <= past && UpperSame(g, old(disk), disk) && |disk| == |old(disk)|
      ensures !done ==> disk == old(disk) && past == old(past)
      ensures done && reliable ==> Mirrored(g, disk) && FsExact(g, disk)
      ensures FoldersApart(g, old(disk)) ==>
              SameTree(g, old(disk), disk) && SameTreeFrom(g, old(disk), past, |old(past)|)
      ensures FoldersApart(g, old(disk)) && done && reliable ==> Recovered(g, disk)
      ensures WF(g, old(disk), m) ==> Stayed(g, old(disk), m, past, |old(past)|, disk)
      ensures WF(g, old(disk), m) ==> WF(g, disk, m) && done == (0 < g.total <= scanMax && NestsWithin(m))
      ensures WF(g, old(disk), m) && done && reliable ==>
        Table(g, disk) == Swept(g, Table(g, old(disk)), Used(m)) && Settled(g, disk, Used(m))
      ensures WF(g, old(disk), m) && done && Settled(g, old(disk), Used(m)) ==>
        disk == old(disk) && past == old(past)
    {
      hide *;
      ghost var d0, p0 := disk, past;
      ghost var sound := WF(g, disk, m);
      if sound {
        WFApart(g, disk, m);
        MarkFacts(g, disk, m);
        KeptSelf(g, disk, past, Used(m));
      }
      ghost var marks;
      done, marks := FatRecover(scanMax);
      UpperSize(g, d0, disk);
      if sound {
        if done {
          WFNests(g, d0, m);
          MarksUsed(g, d0, m, marks);
          if reliable {
            SweptTwice(g, Table(g, d0), Used(m));
            SettledMake(g, disk, Used(m));
          }
        }
        AllBefore(g, d0, m, past, |p0|, disk);
        StayedMake(g, d0, m, past, |p0|, disk);
        BeforeParts(g, d0, m, disk);
      }
    }

    /** Mounts the volume on the device, and recovers it.  Whatever is on it, the
        root folder and the data area are not written; and when the volume is
        well-formed, its tree is the one the device held, at every step and after. */
    method FatMount(scanMax: nat, ghost m0: Model) returns (ok: bool, ghost done: bool, during: seq<Disk>)
      requires |disk| > 0 && Accepted(disk[0]) ==> GeoOk(BootGeo(disk[0])) && Fits(BootGeo(disk[0]), disk)
      modifies this
      ensures ok == (|old(disk)| > 0 && Accepted(old(disk)[0]))
      ensures !ok ==> disk == old(disk) && past == old(past) && g == old(g) && m == old(m) && mounted == old(mounted)
      ensures fields == if |old(disk)| > 0 then FieldsRead(old(fields), old(disk)[0]) else old(fields)
      ensures !ok && old(Valid()) ==> (Valid() <==> Intact(g, fields))
      ensures ok ==>
              g == BootGeo(old(disk)[0]) && m == m0 && mounted && cwd == 0 && past == [] && Base()
              && UpperSame(g, old(disk), disk)
      ensures ok ==> honest == FsHonest(g, disk) && mirrored == Mirrored(g, disk) && stays == StaysOf(g, old(disk))
      ensures ok && FsHonest(g, old(disk)) && reliable ==> honest
      ensures ok ==>
              HistoryOk(g, during, |old(disk)|, stays, FsHonest(g, old(disk)) && reliable, Mirrored(g, old(disk))
              && reliable)
      ensures ok && !done ==> disk == old(disk) && during == []
      ensures ok && done && reliable ==> Mirrored(g, disk) && FsExact(g, disk)
      ensures ok && FoldersApart(g, old(disk)) ==> SameTree(g, old(disk), disk) && SameTreeFrom(g, old(disk), during, 0)
      ensures ok && FoldersApart(g, old(disk)) && done && reliable ==> Recovered(g, disk)
      ensures ok && WF(g, old(disk), m) ==>
              Valid() && done == (0 < g.total <= scanMax && forall f | f in m.depth :: m.depth[f] < 12)
      ensures ok && WF(g, old(disk), m) ==> Stayed(g, old(disk), m, during, 0, disk)
      ensures ok && WF(g, old(disk), m) && done && reliable ==>
        Table(g, disk) == Swept(g, Table(g, old(disk)), Used(m)) && Settled(g, disk, Used(m))
      ensures ok && WF(g, old(disk), m) && done && Settled(g, old(disk), Used(m)) ==> disk == old(disk) && during == []
    {
      hide *;
      done, during := false, [];
      var geo;
      ok, geo := ReadLayout();
      if !ok { return; }
      g, fsinfoDone, allocHint, cwd, mounted := geo, false, 0, 0, true;
      NestsIs(m0);
      done, during := MountVolume(scanMax, m0);
    }

    /** fat_mount until it takes or refuses the boot sector: the variables of the
        layout are overwritten first. */
    method ReadLayout() returns (ok: bool, geo: Geo)
      modifies this`atFirst, this`walkDir, this`fields, this`fsinfoDone, this`allocHint
      ensures ok == (|disk| > 0 && Accepted(disk[0])) && (ok ==> geo == BootGeo(disk[0]) && Intact(geo, fields))
      ensures fields == if |disk| > 0 then FieldsRead(old(fields), disk[0]) else old(fields)
      ensures atFirst == 0 && walkDir == 0
      ensures !ok && old(Valid()) ==> (Valid() <==> Intact(g, fields))
    {
      hide *;
      ghost var sound, was := Valid(), fields;
      if sound {
        ValidParts();
        BaseParts();
      }
      atFirst, walkDir := 0, 0;
      ok, geo := false, g;
      var read, boot := ReadSector(0);
      if read {
        var late;
        ok, late, fields, geo := ReadBoot(boot, fields);
        if late { fsinfoDone, allocHint := false, 0; }
        if ok { MountIntact(was, boot); }
      }
      if sound { Remounted(); }
    }

    lemma Refreshed()
      requires Base() && mounted && WF(g, disk, m) && cwd in m.depth && atFirst == 0 && walkDir == 0
      ensures Valid()
    {
      hide *;
      PlaceNone(m, walkSkip, walkCluster);
      ForgetAt();
    }

    /** A driver that was in order, after a mount that failed. */
    lemma Remounted()
      requires GeoOk(g) && Fits(g, disk) && StaysOf(g, disk) == stays
      requires honest && reliable ==> FsHonest(g, disk)
      requires fsinfoDone && reliable ==> FsUnknown(g, disk)
      requires mirrored && reliable ==> Mirrored(g, disk)
      requires HistoryOk(g, past, |disk|, stays, honest && reliable, mirrored && reliable)
      requires mounted && WF(g, disk, m) && cwd in m.depth && atFirst == 0 && walkDir == 0
      ensures Valid() <==> Intact(g, fields)
    {
      hide *;
      if Valid() {
        ValidParts();
        BaseParts();
      }
      if Intact(g, fields) {
        BaseMake();
        Refreshed();
      }
    }

    /** fat_mount once the geometry is set. */
    method MountVolume(scanMax: nat, ghost m0: Model) returns (done: bool, during: seq<Disk>)
      requires GeoOk(g) && Intact(g, fields) && Fits(g, disk) && mounted && cwd == 0 && !fsinfoDone && atFirst == 0
               && walkDir == 0
      modifies this`disk, this`past, this`refused, this`fsinfoDone, this`m, this`stays, this`honest, this`mirrored
      ensures m == m0 && past == [] && Base() && UpperSame(g, old(disk), disk)
      ensures honest == FsHonest(g, disk) && mirrored == Mirrored(g, disk) && stays == StaysOf(g, old(disk))
      ensures FsHonest(g, old(disk)) && reliable ==> honest
      ensures HistoryOk(g, during, |old(disk)|, stays, FsHonest(g, old(disk)) && reliable, Mirrored(g, old(disk))
              && reliable)
      ensures !done ==> disk == old(disk) && during == []
      ensures done && reliable ==> Mirrored(g, disk) && FsExact(g, disk)
      ensures FoldersApart(g, old(disk)) ==> SameTree(g, old(disk), disk) && SameTreeFrom(g, old(disk), during, 0)
      ensures FoldersApart(g, old(disk)) && done && reliable ==> Recovered(g, disk)
      ensures WF(g, old(disk), m) ==> Valid() && done == (0 < g.total <= scanMax && NestsWithin(m))
      ensures WF(g, old(disk), m) ==> Stayed(g, old(disk), m, during, 0, disk)
      ensures WF(g, old(disk), m) && done && reliable ==>
        Table(g, disk) == Swept(g, Table(g, old(disk)), Used(m)) && Settled(g, disk, Used(m))
      ensures WF(g, old(disk), m) && done && Settled(g, old(disk), Used(m)) ==> disk == old(disk) && during == []
    {
      hide *;
      ghost var d0 := disk;
      StartMount(m0);
      done := RecoverVolume(scanMax);
      during := EndMount();
      if WF(g, d0, m) {
        WFParts(g, d0, m);
        RootIn(g, m, DirsOf(g, d0, m));
        PlaceNone(m, walkSkip, walkCluster);
        ForgetAt();
      }
    }

    /** The history of a mount starts at the disk it found. */
    method StartMount(ghost m0: Model)
      requires GeoOk(g) && Intact(g, fields) && Fits(g, disk) && !fsinfoDone
      modifies this`m, this`past, this`refused, this`stays, this`honest, this`mirrored
      ensures m == m0 && past == [] && Base()
      ensures stays == StaysOf(g, disk) && honest == FsHonest(g, disk) && mirrored == Mirrored(g, disk)
    {
      hide *;
      m, past, stays, honest, mirrored := m0, [], StaysOf(g, disk), FsHonest(g, disk), Mirrored(g, disk);
      NoHistory(g, |disk|, stays, honest, mirrored);
      BaseMake();
    }

    /** The history starts anew once the volume is mounted. */
    method EndMount() returns (during: seq<Disk>)
      requires Base()
      modifies this`past, this`refused, this`honest, this`mirrored
      ensures during == old(past) && past == [] && Base()
      ensures honest == FsHonest(g, disk) && mirrored == Mirrored(g, disk) && (old(honest) && reliable ==> honest)
      ensures HistoryOk(g, during, |disk|, stays, old(honest) && reliable, old(mirrored) && reliable)
    {
      hide *;
      BaseParts();
      during, past := past, [];
      honest, mirrored := FsHonest(g, disk), Mirrored(g, disk);
      NoHistory(g, |disk|, stays, honest && reliable, mirrored && reliable);
      BaseMake();
    }
  }
}
