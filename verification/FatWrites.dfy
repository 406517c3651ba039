/** What writes below the root folder do: to the FAT copies, to FSInfo, and -
    nothing - to the sectors and entries of clusters that are in use. */
module FatWrites {
  import opened Arith
  import opened Bytes
  import opened Layout
  import opened FatTable
  import opened Chains
  import opened Volume
  import opened SectorWrites

  /** A set of cluster numbers of the table. */
  ghost predicate InTables(g: Geo, u: set<nat>) {
    forall c | c in u :: InTable(g, c)
  }

  lemma KeepsSelf(g: Geo, d: Disk, u: set<nat>)
    ensures Keeps(g, d, d, u)
  {
  }

  /** Below the root folder only FAT entries can matter to clusters in use. */
  lemma KeepsBelow(g: Geo, d: Disk, l: nat, x: Sector, u: set<nat>)
    requires GeoOk(g) && Fits(g, d) && l < |d| && l < g.RootStart() && InTables(g, u)
    requires forall c | c in u :: FatGet(g, d[l := x], c) == FatGet(g, d, c)
    ensures Keeps(g, d, d[l := x], u)
  {
    RootAbove(g);
    forall c, s: nat | c in u && s < g.spc
      ensures Sec(g, d[l := x], c, s) == Sec(g, d, c, s)
    {
      ClusterInside(g, c, s);
    }
  }

  /** A reserved sector: no entry, no copy, no folder, no data. */
  lemma ReservedWrite(g: Geo, d: Disk, l: nat, x: Sector, u: set<nat>)
    requires GeoOk(g) && Fits(g, d) && 1 <= l < g.reserved && l < |d| && InTables(g, u)
    ensures Table(g, d[l := x]) == Table(g, d) && StaysOf(g, d[l := x]) == StaysOf(g, d)
    ensures Keeps(g, d, d[l := x], u)
    ensures forall row: nat | row < g.Rows() && RowAgrees(g, d, row) :: RowAgrees(g, d[l := x], row)
  {
    RootAbove(g);
    OutsideFirstCopy(g, d, l, x);
    forall row: nat | row < g.Rows() && RowAgrees(g, d, row)
      ensures RowAgrees(g, d[l := x], row)
    {
      RowSame(g, d, l, x, row);
    }
    KeepsBelow(g, d, l, x, u);
  }

  lemma RowSame(g: Geo, d: Disk, l: nat, x: Sector, row: nat)
    requires GeoOk(g) && Fits(g, d) && row < g.Rows() && l < |d|
    requires forall f: nat | f < g.nfats :: l != g.CopyLba(f, row)
    requires RowAgrees(g, d, row)
    ensures RowAgrees(g, d[l := x], row)
  {
  }

  /** One copy of a FAT row is written: other rows, FSInfo and the data stay,
      and so do the entries unless the copy is the first. */
  lemma CopyWrite(g: Geo, d: Disk, f: nat, row: nat, x: Sector, u: set<nat>)
    requires GeoOk(g) && Fits(g, d) && f < g.nfats && row < g.Rows() && InTables(g, u) && g.CopyLba(f, row) < |d|
    requires f == 0 ==> forall c | c in u :: FatGet(g, d[g.CopyLba(f, row) := x], c) == FatGet(g, d, c)
    ensures f > 0 ==>
            Table(g, d[g.CopyLba(f, row) := x]) == Table(g, d) && StaysOf(g, d[g.CopyLba(f, row) := x]) == StaysOf(g, d)
    ensures Keeps(g, d, d[g.CopyLba(f, row) := x], u)
    ensures FsPresent(g, d[g.CopyLba(f, row) := x]) <==> FsPresent(g, d)
    ensures FsUnknown(g, d) ==> FsUnknown(g, d[g.CopyLba(f, row) := x])
    ensures MirroredBut(g, d, row) ==> MirroredBut(g, d[g.CopyLba(f, row) := x], row)
  {
    hide *;
    var l := g.CopyLba(f, row);
    CopyPlace(g, d, f, row);
    if f > 0 {
      OutsideFirstCopy(g, d, l, x);
      forall c | c in u
        ensures FatGet(g, d[l := x], c) == FatGet(g, d, c)
      {
        InTablesAt(g, u, c);
      }
    }
    KeepsBelow(g, d, l, x, u);
    FsInfoAway(g, d, l, x);
    if MirroredBut(g, d, row) { OtherRows(g, d, f, row, x); }
  }

  lemma InTablesAt(g: Geo, u: set<nat>, c: nat)
    requires InTables(g, u) && c in u
    ensures 2 <= c < g.Limit()
  {
  }

  lemma CopyPlace(g: Geo, d: Disk, f: nat, row: nat)
    requires GeoOk(g) && Fits(g, d) && f < g.nfats && row < g.Rows()
    ensures g.reserved <= g.CopyLba(f, row) < g.RootStart() <= |d| && row < g.fatSectors
    ensures f > 0 ==> g.reserved + g.fatSectors <= g.CopyLba(f, row)
    ensures f == 0 ==> g.CopyLba(f, row) == g.reserved + row
  {
    assert row < g.fatSectors;
    CopyInside(g, f, row);
    RootAbove(g);
    EnoughDisk(g, d);
  }

  lemma EnoughDisk(g: Geo, d: Disk)
    requires Fits(g, d)
    ensures g.DataStart() <= |d|
  {
    NonNeg(g.total, g.spc);
  }

  lemma FsInfoAway(g: Geo, d: Disk, l: nat, x: Sector)
    requires g.reserved <= l < |d|
    ensures FsPresent(g, d[l := x]) <==> FsPresent(g, d)
    ensures FsUnknown(g, d) ==> FsUnknown(g, d[l := x])
  {
  }

  lemma OtherRows(g: Geo, d: Disk, f: nat, row: nat, x: Sector)
    requires GeoOk(g) && Fits(g, d) && f < g.nfats && row < g.Rows() && g.CopyLba(f, row) < |d|
    requires MirroredBut(g, d, row)
    ensures MirroredBut(g, d[g.CopyLba(f, row) := x], row)
  {
    var e := d[g.CopyLba(f, row) := x];
    forall r: nat | r < g.Rows() && r != row
      ensures RowAgrees(g, e, r)
    {
      OtherRow(g, d, f, row, x, r);
    }
  }

  lemma OtherRow(g: Geo, d: Disk, f: nat, row: nat, x: Sector, r: nat)
    requires GeoOk(g) && Fits(g, d) && f < g.nfats && row < g.Rows() && g.CopyLba(f, row) < |d|
    requires r < g.Rows() && r != row && RowAgrees(g, d, r)
    ensures RowAgrees(g, d[g.CopyLba(f, row) := x], r)
  {
    forall f1: nat | f1 < g.nfats
      ensures g.CopyLba(f, row) != g.CopyLba(f1, r)
    {
      assert row < g.fatSectors && r < g.fatSectors;
      CopiesApart(g, f1, r, f, row);
    }
    RowSame(g, d, g.CopyLba(f, row), x, r);
  }

  /** Copies below n of row are x. */
  ghost predicate RowIs(g: Geo, d: Disk, row: nat, n: nat, x: Sector) {
    forall k: nat | k < n && g.CopyLba(k, row) < |d| :: d[g.CopyLba(k, row)] == x
  }

  lemma RowIsMore(g: Geo, d: Disk, row: nat, n: nat, x: Sector)
    requires GeoOk(g) && n < g.nfats && row < g.fatSectors && g.CopyLba(n, row) < |d| && RowIs(g, d, row, n, x)
    ensures RowIs(g, d[g.CopyLba(n, row) := x], row, n + 1, x)
  {
    forall k: nat | k < n
      ensures g.CopyLba(k, row) != g.CopyLba(n, row)
    {
      CopiesApart(g, k, row, n, row);
    }
  }

  /** When every copy of the one odd row holds the same sector, all agree. */
  lemma AllCopies(g: Geo, d: Disk, row: nat, x: Sector)
    requires MirroredBut(g, d, row) && RowIs(g, d, row, g.nfats, x) && g.nfats > 0
    ensures Mirrored(g, d)
  {
    forall r: nat | r < g.Rows()
      ensures RowAgrees(g, d, r)
    {
      if r == row {
        forall f: nat | f < g.nfats && g.CopyLba(f, row) < |d| && g.CopyLba(0, row) < |d|
          ensures d[g.CopyLba(f, row)] == d[g.CopyLba(0, row)]
        {
        }
      }
    }
  }

  lemma MirroredOne(g: Geo, d: Disk, r: nat)
    requires MirroredBut(g, d, r)
    ensures OneRowOff(g, d)
  {
  }

  lemma MirroredAny(g: Geo, d: Disk, r: nat)
    requires Mirrored(g, d)
    ensures MirroredBut(g, d, r) && OneRowOff(g, d)
  {
    MirroredOne(g, d, r);
  }

  // ----- the disk states an operation passes through

  /** Every disk state since state n0, and the disk now, keeps what d0 holds
      of the clusters u. */
  ghost predicate KeptFrom(g: Geo, d0: Disk, n0: nat, past: seq<Disk>, d: Disk, u: set<nat>) {
    n0 <= |past| && Keeps(g, d0, d, u) && forall i | n0 <= i < |past| :: Keeps(g, d0, past[i], u)
  }

  lemma KeptSelf(g: Geo, d0: Disk, past: seq<Disk>, u: set<nat>)
    ensures KeptFrom(g, d0, |past|, past, d0, u)
  {
    KeepsSelf(g, d0, u);
  }

  /** A stretch that keeps u, followed by another. */
  lemma KeptThen(g: Geo, d0: Disk, n0: nat, p1: seq<Disk>, d1: Disk, p2: seq<Disk>, d2: Disk, u: set<nat>)
    requires KeptFrom(g, d0, n0, p1, d1, u) && p1 <= p2 && KeptFrom(g, d1, |p1|, p2, d2, u)
    ensures KeptFrom(g, d0, n0, p2, d2, u)
  {
    forall i | n0 <= i < |p2|
      ensures Keeps(g, d0, p2[i], u)
    {
      if i >= |p1| { KeepsTrans(g, d0, d1, p2[i], u); }
    }
    KeepsTrans(g, d0, d1, d2, u);
  }

  /** One more write that keeps u. */
  lemma KeptOne(g: Geo, d0: Disk, n0: nat, p1: seq<Disk>, d1: Disk, d2: Disk, u: set<nat>)
    requires KeptFrom(g, d0, n0, p1, d1, u) && Keeps(g, d1, d2, u)
    ensures KeptFrom(g, d0, n0, p1 + [d2], d2, u)
  {
    KeepsTrans(g, d0, d1, d2, u);
  }

  // ----- FSInfo

  /** An FSInfo sector with the free count and the hint both unknown. */
  function FsMarked(b: Sector): Sector {
    b[..488] + [0xFF, 0xFF, 0xFF, 0xFF, 0xFF, 0xFF, 0xFF, 0xFF] + b[496..]
  }

  lemma FsMarkedFields(b: Sector)
    ensures Rd32(FsMarked(b), 0) == Rd32(b, 0) && Rd32(FsMarked(b), 484) == Rd32(b, 484)
    ensures Rd32(FsMarked(b), 488) == UNKNOWN
  {
    var m := FsMarked(b);
    assert m[0] == b[0] && m[1] == b[1] && m[2] == b[2] && m[3] == b[3];
    assert m[484] == b[484] && m[485] == b[485] && m[486] == b[486] && m[487] == b[487];
    assert m[488] == 0xFF && m[489] == 0xFF && m[490] == 0xFF && m[491] == 0xFF;
  }

  /** Eight bytes of it change, and become 0xFF. */
  lemma FsMarkedBytes(b: Sector)
    ensures forall i | 0 <= i < 512 :: FsMarked(b)[i] == if 488 <= i < 496 then 0xFF else b[i]
  {
  }

  /** Both words unknown are eight such bytes, and the signatures are these. */
  lemma FsWords(b: Sector)
    ensures Rd32(b, 488) == UNKNOWN && Rd32(b, 492) == UNKNOWN ==> forall i | 488 <= i < 496 :: b[i] == 0xFF
    ensures Rd32(b, 0) == 0x4161_5252 <==> b[0] == 0x52 && b[1] == 0x52 && b[2] == 0x61 && b[3] == 0x41
    ensures Rd32(b, 484) == 0x6141_7272 <==> b[484] == 0x72 && b[485] == 0x72 && b[486] == 0x41 && b[487] == 0x61
  {
    Words(b, 488);
    Words(b, 492);
    Words(b, 0);
    Words(b, 484);
    hide Rd32;
  }

  lemma FsMarkWritten(g: Geo, d: Disk)
    requires FsPresent(g, d)
    ensures FsUnknown(g, d[g.fsinfoLba := FsMarked(d[g.fsinfoLba])])
  {
    FsMarkedFields(d[g.fsinfoLba]);
  }

  lemma UnknownHonest(g: Geo, d: Disk)
    requires FsUnknown(g, d)
    ensures FsHonest(g, d)
  {
  }

  /** What every disk state since the mount satisfies: the top FAT bits are the
      mounted ones; and, given a device that has taken every write and a volume
      that was so to begin with, FSInfo's count is honest and at most one FAT
      row differs between copies. */
  ghost predicate StateOk(g: Geo, d: Disk, size: nat, stays: Stays, honest: bool, mirrored: bool) {
    |d| == size && StaysOf(g, d) == stays && (honest ==> FsHonest(g, d)) && (mirrored ==> OneRowOff(g, d))
  }

  ghost predicate HistoryOk(g: Geo, past: seq<Disk>, size: nat, stays: Stays, honest: bool, mirrored: bool) {
    forall i | 0 <= i < |past| :: StateOk(g, past[i], size, stays, honest, mirrored)
  }

  lemma HistoryMore(g: Geo, past: seq<Disk>, d: Disk, size: nat, stays: Stays, h: bool, r: bool)
    requires HistoryOk(g, past, size, stays, h, r) && StateOk(g, d, size, stays, h, r)
    ensures HistoryOk(g, past + [d], size, stays, h, r)
  {
    hide StateOk;
  }

  lemma HistoryWeaker(g: Geo, past: seq<Disk>, size: nat, stays: Stays, h0: bool, r0: bool, h1: bool, r1: bool)
    requires HistoryOk(g, past, size, stays, h0, r0) && (h1 ==> h0) && (r1 ==> r0)
    ensures HistoryOk(g, past, size, stays, h1, r1)
  {
    hide FsHonest;
    hide OneRowOff;
  }

  /** Rows that agreed still agree. */
  ghost predicate RowsStay(g: Geo, d0: Disk, d1: Disk) {
    forall row: nat | row < g.Rows() && RowAgrees(g, d0, row) :: RowAgrees(g, d1, row)
  }

  lemma MirroredStays(g: Geo, d0: Disk, d1: Disk)
    requires Mirrored(g, d0) && RowsStay(g, d0, d1)
    ensures Mirrored(g, d1) && OneRowOff(g, d1)
  {
    hide RowAgrees;
    MirroredAny(g, d1, 0);
  }

  /** Marking FSInfo unknown leaves the volume as honest and mirrored as it was. */
  lemma FsMarkState(g: Geo, d: Disk, u: set<nat>, stays: Stays, honest: bool, mirrored: bool)
    requires GeoOk(g) && Fits(g, d) && InTables(g, u) && FsPresent(g, d)
    requires StaysOf(g, d) == stays && (mirrored ==> Mirrored(g, d))
    ensures var d1 := d[g.fsinfoLba := FsMarked(d[g.fsinfoLba])];
            && Keeps(g, d, d1, u) && Table(g, d1) == Table(g, d) && FsUnknown(g, d1) && FsHonest(g, d1)
            && StateOk(g, d1, |d|, stays, honest, mirrored) && (mirrored ==> Mirrored(g, d1)) && StaysOf(g, d1) == stays
  {
    hide *;
    hide FsPresent;
    FsPlace(g, d);
    var x := FsMarked(d[g.fsinfoLba]);
    var d1 := d[g.fsinfoLba := x];
    ReservedWrite(g, d, g.fsinfoLba, x, u);
    FsMarkWritten(g, d);
    UnknownHonest(g, d1);
    RowsStayMake(g, d, d1);
    if mirrored { MirroredStays(g, d, d1); }
    StateMake(g, d1, |d|, stays, honest, mirrored);
  }

  lemma FsPlace(g: Geo, d: Disk)
    requires FsPresent(g, d)
    ensures 1 <= g.fsinfoLba < g.reserved && g.fsinfoLba < |d| && g.fat32
  {
  }

  lemma RowsStayMake(g: Geo, d0: Disk, d1: Disk)
    requires forall row: nat | row < g.Rows() && RowAgrees(g, d0, row) :: RowAgrees(g, d1, row)
    ensures RowsStay(g, d0, d1)
  {
    hide RowAgrees;
  }

  lemma StateMake(g: Geo, d: Disk, size: nat, stays: Stays, honest: bool, mirrored: bool)
    requires |d| == size && StaysOf(g, d) == stays && (honest ==> FsHonest(g, d)) && (mirrored ==> OneRowOff(g, d))
    ensures StateOk(g, d, size, stays, honest, mirrored)
  {
  }

  // ----- writing one row to every copy, the first copy first

  /** Copies 0 to n - 1 of row hold x and the rest is as it was: the entries are
      t once the first copy is written, FSInfo is unknown, other rows agree. */
  ghost predicate RowInHand(g: Geo, d: Disk, row: nat, x: Sector, n: nat, t: seq<nat>, stays: Stays, unknown: bool,
                            mirrored: bool) {
    && Fits(g, d) && StaysOf(g, d) == stays && (n > 0 ==> Table(g, d) == t) && (unknown ==> FsUnknown(g, d))
    && (mirrored ==> MirroredBut(g, d, row)) && RowIs(g, d, row, n, x)
  }

  lemma CopyStep(g: Geo, d: Disk, row: nat, x: Sector, n: nat, t: seq<nat>, stays: Stays, unknown: bool,
                 mirrored: bool, u: set<nat>)
    requires GeoOk(g) && n < g.nfats && row < g.Rows() && InTables(g, u) && g.CopyLba(n, row) < |d|
    requires RowInHand(g, d, row, x, n, t, stays, unknown, mirrored)
    requires var d1 := d[g.CopyLba(n, row) := x];
             n == 0 ==>
               (forall c | c in u :: FatGet(g, d1, c) == FatGet(g, d, c)) && Table(g, d1) == t
               && StaysOf(g, d1) == stays
    ensures var d1 := d[g.CopyLba(n, row) := x];
            && RowInHand(g, d1, row, x, n + 1, t, stays, unknown, mirrored) && Keeps(g, d, d1, u)
            && StateOk(g, d1, |d|, stays, unknown, mirrored)
  {
    hide *;
    hide RowInHand;
    RowInHandParts(g, d, row, x, n, t, stays, unknown, mirrored);
    var d1 := d[g.CopyLba(n, row) := x];
    CopyPlace(g, d, n, row);
    CopyWrite(g, d, n, row, x, u);
    RowIsMore(g, d, row, n, x);
    if unknown { UnknownHonest(g, d1); }
    if mirrored { MirroredOne(g, d1, row); }
    FitsSame(g, d, d1);
    StateMake(g, d1, |d|, stays, unknown, mirrored);
    RowInHandMake(g, d1, row, x, n + 1, t, stays, unknown, mirrored);
  }

  lemma FitsSame(g: Geo, d: Disk, d1: Disk)
    requires Fits(g, d) && |d1| == |d|
    ensures Fits(g, d1)
  {
  }

  lemma RowInHandParts(g: Geo, d: Disk, row: nat, x: Sector, n: nat, t: seq<nat>, stays: Stays, unknown: bool,
                       mirrored: bool)
    requires RowInHand(g, d, row, x, n, t, stays, unknown, mirrored)
    ensures Fits(g, d) && StaysOf(g, d) == stays && (n > 0 ==> Table(g, d) == t) && (unknown ==> FsUnknown(g, d))
    ensures (mirrored ==> MirroredBut(g, d, row)) && RowIs(g, d, row, n, x)
  {
  }

  lemma RowInHandMake(g: Geo, d: Disk, row: nat, x: Sector, n: nat, t: seq<nat>, stays: Stays, unknown: bool,
                      mirrored: bool)
    requires Fits(g, d) && StaysOf(g, d) == stays && (n > 0 ==> Table(g, d) == t) && (unknown ==> FsUnknown(g, d))
    requires (mirrored ==> MirroredBut(g, d, row)) && RowIs(g, d, row, n, x)
    ensures RowInHand(g, d, row, x, n, t, stays, unknown, mirrored)
  {
  }

  /** Nothing written yet. */
  lemma RowStart(g: Geo, d: Disk, row: nat, x: Sector, t: seq<nat>, unknown: bool, mirrored: bool)
    requires Fits(g, d) && (unknown ==> FsUnknown(g, d)) && (mirrored ==> Mirrored(g, d))
    ensures RowInHand(g, d, row, x, 0, t, StaysOf(g, d), unknown, mirrored)
  {
  }

  /** Every copy written: the copies agree again. */
  lemma RowDone(g: Geo, d: Disk, row: nat, x: Sector, t: seq<nat>, stays: Stays, unknown: bool, mirrored: bool)
    requires GeoOk(g) && RowInHand(g, d, row, x, g.nfats, t, stays, unknown, mirrored)
    ensures Table(g, d) == t && StaysOf(g, d) == stays && (unknown ==> FsUnknown(g, d) && FsHonest(g, d))
    ensures mirrored ==> Mirrored(g, d)
  {
    if mirrored { AllCopies(g, d, row, x); }
    if unknown { UnknownHonest(g, d); }
  }

  /** Every other row of the table agrees if it did. */
  ghost predicate OthersStay(g: Geo, d0: Disk, d1: Disk, row: nat) {
    forall r: nat | r < g.Rows() && r != row && RowAgrees(g, d0, r) :: RowAgrees(g, d1, r)
  }

  lemma OthersStep(g: Geo, d0: Disk, d1: Disk, n: nat, row: nat, x: Sector)
    requires GeoOk(g) && Fits(g, d1) && n < g.nfats && row < g.Rows() && g.CopyLba(n, row) < |d1|
    requires OthersStay(g, d0, d1, row)
    ensures OthersStay(g, d0, d1[g.CopyLba(n, row) := x], row)
  {
    hide RowAgrees;
    hide GeoOk;
    var e := d1[g.CopyLba(n, row) := x];
    forall r: nat | r < g.Rows() && r != row && RowAgrees(g, d0, r)
      ensures RowAgrees(g, e, r)
    {
      OtherRow(g, d1, n, row, x, r);
    }
  }

  lemma RowAllAgree(g: Geo, d: Disk, row: nat, x: Sector)
    requires RowIs(g, d, row, g.nfats, x) && g.nfats > 0
    ensures RowAgrees(g, d, row)
  {
  }

  lemma StoreIsPut(g: Geo, s: Sector, o: nat, value: nat)
    requires o + g.W() <= 512
    ensures Put(g, s, o, value) ==
            if g.fat32 then Wr32(s, o, value % 0x1000_0000 + Rd32(s, o) / 0x1000_0000 * 0x1000_0000)
              else Wr16(s, o, value)
  {
  }

  ghost predicate UpperSame(g: Geo, d0: Disk, d1: Disk) {
    |d1| == |d0| && forall l | g.RootStart() <= l < |d0| :: d1[l] == d0[l]
  }

  /** Where a loop over the copies of row stands, f copies on.  While every write
      has been taken (live) the first f copies hold x; in any case the clusters
      u, the other rows and everything above the FAT are as in d0. */
  ghost predicate CopyState(g: Geo, d0: Disk, n0: nat, past: seq<Disk>, d: Disk, row: nat, x: Sector, f: nat,
                            t: seq<nat>,
                            stays: Stays, u: set<nat>, live: bool, un: bool, honest: bool, mirrored: bool) {
    && Fits(g, d) && StaysOf(g, d) == stays && UpperSame(g, d0, d) && OthersStay(g, d0, d, row)
    && KeptFrom(g, d0, n0, past, d, u) && HistoryOk(g, past, |d|, stays, honest, mirrored)
    && (f == 0 ==> d == d0) && (Table(g, d) == t || Table(g, d) == Table(g, d0))
    && (live ==> RowInHand(g, d, row, x, f, t, stays, un, mirrored))
    && (!live ==> f > 0 && !honest && !mirrored) && (honest ==> un)
  }

  lemma CopyBegin(g: Geo, d: Disk, past: seq<Disk>, row: nat, x: Sector, t: seq<nat>, u: set<nat>, un: bool,
                  honest: bool, mirrored: bool)
    requires Fits(g, d) && HistoryOk(g, past, |d|, StaysOf(g, d), honest, mirrored)
    requires (un ==> FsUnknown(g, d)) && (honest ==> un) && (mirrored ==> Mirrored(g, d))
    ensures CopyState(g, d, |past|, past, d, row, x, 0, t, StaysOf(g, d), u, true, un, honest, mirrored)
  {
    hide *;
    hide CopyState;
    KeptSelf(g, d, past, u);
    RowStart(g, d, row, x, t, un, mirrored);
    OthersSelf(g, d, row);
    CopyBeginMake(g, d, past, row, x, t, u, un, honest, mirrored);
  }

  lemma OthersSelf(g: Geo, d: Disk, row: nat)
    ensures OthersStay(g, d, d, row) && UpperSame(g, d, d)
  {
  }

  lemma CopyBeginMake(g: Geo, d: Disk, past: seq<Disk>, row: nat, x: Sector, t: seq<nat>, u: set<nat>, un: bool,
                      honest: bool, mirrored: bool)
    requires Fits(g, d) && HistoryOk(g, past, |d|, StaysOf(g, d), honest, mirrored)
             && KeptFrom(g, d, |past|, past, d, u)
    requires RowInHand(g, d, row, x, 0, t, StaysOf(g, d), un, mirrored) && OthersStay(g, d, d, row)
             && UpperSame(g, d, d) && (honest ==> un)
    ensures CopyState(g, d, |past|, past, d, row, x, 0, t, StaysOf(g, d), u, true, un, honest, mirrored)
  {
    hide HistoryOk;
    hide KeptFrom;
    hide RowInHand;
    hide OthersStay;
  }

  lemma CopyParts(g: Geo, d0: Disk, n0: nat, past: seq<Disk>, d: Disk, row: nat, x: Sector, f: nat, t: seq<nat>,
                  stays: Stays, u: set<nat>, live: bool, un: bool, honest: bool, mirrored: bool)
    requires CopyState(g, d0, n0, past, d, row, x, f, t, stays, u, live, un, honest, mirrored)
    ensures Fits(g, d) && StaysOf(g, d) == stays && UpperSame(g, d0, d) && OthersStay(g, d0, d, row) && |d| == |d0|
    ensures KeptFrom(g, d0, n0, past, d, u) && HistoryOk(g, past, |d|, stays, honest, mirrored)
    ensures (f == 0 ==> d == d0) && (Table(g, d) == t || Table(g, d) == Table(g, d0))
    ensures live ==> RowInHand(g, d, row, x, f, t, stays, un, mirrored)
    ensures (!live ==> f > 0 && !honest && !mirrored) && (honest ==> un)
  {
    hide HistoryOk;
    hide KeptFrom;
    hide RowInHand;
    hide OthersStay;
  }

  lemma CopyMake(g: Geo, d0: Disk, n0: nat, past: seq<Disk>, d: Disk, row: nat, x: Sector, f: nat, t: seq<nat>,
                 stays: Stays, u: set<nat>, live: bool, un: bool, honest: bool, mirrored: bool)
    requires Fits(g, d) && StaysOf(g, d) == stays && UpperSame(g, d0, d) && OthersStay(g, d0, d, row)
    requires KeptFrom(g, d0, n0, past, d, u) && HistoryOk(g, past, |d|, stays, honest, mirrored)
    requires f > 0 && (Table(g, d) == t || Table(g, d) == Table(g, d0))
    requires live ==> RowInHand(g, d, row, x, f, t, stays, un, mirrored)
    requires (!live ==> !honest && !mirrored) && (honest ==> un)
    ensures CopyState(g, d0, n0, past, d, row, x, f, t, stays, u, live, un, honest, mirrored)
  {
    hide HistoryOk;
    hide KeptFrom;
    hide RowInHand;
    hide OthersStay;
  }

  lemma UpperStep(g: Geo, d0: Disk, d: Disk, l: nat, x: Sector)
    requires UpperSame(g, d0, d) && l < |d| && l < g.RootStart()
    ensures UpperSame(g, d0, d[l := x])
  {
    hide Geo.RootStart;
  }

  /** A copy of the row is written. */
  lemma CopyWritten(g: Geo, d0: Disk, n0: nat, past: seq<Disk>, d: Disk, row: nat, x: Sector, f: nat, t: seq<nat>,
                    stays: Stays, u: set<nat>, live: bool, un: bool, honest: bool, mirrored: bool)
    requires CopyState(g, d0, n0, past, d, row, x, f, t, stays, u, live, un, honest, mirrored)
    requires GeoOk(g) && f < g.nfats && row < g.Rows() && InTables(g, u) && g.CopyLba(f, row) < |d|
    requires var d1 := d[g.CopyLba(f, row) := x];
             f == 0 ==>
               (forall c | c in u :: FatGet(g, d1, c) == FatGet(g, d, c)) && Table(g, d1) == t
               && StaysOf(g, d1) == stays
    ensures var d1 := d[g.CopyLba(f, row) := x];
            CopyState(g, d0, n0, past + [d1], d1, row, x, f + 1, t, stays, u, live, un, honest, mirrored)
  {
    hide *;
    hide CopyState;
    CopyParts(g, d0, n0, past, d, row, x, f, t, stays, u, live, un, honest, mirrored);
    var d1 := d[g.CopyLba(f, row) := x];
    CopyPlace(g, d, f, row);
    if live {
      CopyStep(g, d, row, x, f, t, stays, un, mirrored, u);
      RowInHandParts(g, d1, row, x, f + 1, t, stays, un, mirrored);
      StateWeaker(g, d1, |d|, stays, un, mirrored, honest, mirrored);
    } else {
      CopyWrite(g, d, f, row, x, u);
      FitsSame(g, d, d1);
      StateMake(g, d1, |d|, stays, honest, mirrored);
    }
    OthersStep(g, d0, d, f, row, x);
    UpperStep(g, d0, d, g.CopyLba(f, row), x);
    HistoryMore(g, past, d1, |d|, stays, honest, mirrored);
    KeptOne(g, d0, n0, past, d, d1, u);
    CopyMake(g, d0, n0, past + [d1], d1, row, x, f + 1, t, stays, u, live, un, honest, mirrored);
  }

  lemma StateWeaker(g: Geo, d: Disk, size: nat, stays: Stays, h0: bool, r0: bool, h1: bool, r1: bool)
    requires StateOk(g, d, size, stays, h0, r0) && (h1 ==> h0) && (r1 ==> r0)
    ensures StateOk(g, d, size, stays, h1, r1)
  {
  }

  /** The device refuses a copy. */
  lemma CopyRefused(g: Geo, d0: Disk, n0: nat, past: seq<Disk>, d: Disk, row: nat, x: Sector, f: nat, t: seq<nat>,
                    stays: Stays, u: set<nat>, live: bool, un: bool, honest: bool, mirrored: bool)
    requires CopyState(g, d0, n0, past, d, row, x, f, t, stays, u, live, un, honest, mirrored)
    ensures CopyState(g, d0, n0, past, d, row, x, f + 1, t, stays, u, false, un, false, false)
  {
    hide *;
    hide CopyState;
    CopyParts(g, d0, n0, past, d, row, x, f, t, stays, u, live, un, honest, mirrored);
    HistoryWeaker(g, past, |d|, stays, honest, mirrored, false, false);
    CopyMake(g, d0, n0, past, d, row, x, f + 1, t, stays, u, false, un, false, false);
  }

  lemma CopyEnd(g: Geo, d0: Disk, n0: nat, past: seq<Disk>, d: Disk, row: nat, x: Sector, t: seq<nat>,
                stays: Stays, u: set<nat>, un: bool, honest: bool, mirrored: bool)
    requires GeoOk(g) && CopyState(g, d0, n0, past, d, row, x, g.nfats, t, stays, u, true, un, honest, mirrored)
    ensures Table(g, d) == t && RowAgrees(g, d, row) && (un ==> FsUnknown(g, d) && FsHonest(g, d))
            && (mirrored ==> Mirrored(g, d))
    ensures RowIs(g, d, row, g.nfats, x)
  {
    hide *;
    CopyParts(g, d0, n0, past, d, row, x, g.nfats, t, stays, u, true, un, honest, mirrored);
    RowInHandParts(g, d, row, x, g.nfats, t, stays, un, mirrored);
    RowDone(g, d, row, x, t, stays, un, mirrored);
    assert g.nfats > 0 by { RootAbove(g); CopiesExist(g); }
    RowAllAgree(g, d, row, x);
  }

  // ----- which sectors a FAT write touches

  /** Sector l is this row in some copy. */
  ghost predicate InRow(g: Geo, row: nat, l: nat) {
    && g.fatSectors > 0 && g.reserved + row <= l
    && Rem(l - g.reserved - row, g.fatSectors) == 0 && Quot(l - g.reserved - row, g.fatSectors) < g.nfats
  }

  lemma InRowIs(g: Geo, row: nat, l: nat)
    ensures InRow(g, row, l) <==>
            && g.fatSectors > 0 && g.reserved + row <= l
            && Rem(l - g.reserved - row, g.fatSectors) == 0 && Quot(l - g.reserved - row, g.fatSectors) < g.nfats
  {
    hide Quot;
    hide Rem;
  }

  lemma CopyInRow(g: Geo, f: nat, row: nat)
    requires GeoOk(g) && f < g.nfats
    ensures g.CopyLba(f, row) >= 0 && InRow(g, row, g.CopyLba(f, row))
  {
    hide Quot;
    hide Rem;
    var k: int, n: int := g.fatSectors, f;
    NonNeg(f, g.fatSectors);
    DivUnique(f * g.fatSectors, f, 0, g.fatSectors);
    assert (g.CopyLba(f, row) - g.reserved - row) == n * k;
  }

  /** d is d0 but for this row of some copies. */
  ghost predicate RowOnly(g: Geo, d0: Disk, d: Disk, row: nat) {
    |d| == |d0| && forall l: nat | l < |d0| && d[l] != d0[l] :: InRow(g, row, l)
  }

  lemma RowOnlySelf(g: Geo, d: Disk, row: nat)
    ensures RowOnly(g, d, d, row)
  {
  }

  lemma RowOnlyMore(g: Geo, d0: Disk, d: Disk, row: nat, f: nat, x: Sector)
    requires GeoOk(g) && RowOnly(g, d0, d, row) && f < g.nfats && g.CopyLba(f, row) < |d|
    ensures RowOnly(g, d0, d[g.CopyLba(f, row) := x], row)
  {
    CopyInRow(g, f, row);
    hide InRow;
    hide GeoOk;
    hide Geo.CopyLba;
  }

  lemma RowOnlyPlain(g: Geo, d0: Disk, d: Disk, row: nat)
    requires RowOnly(g, d0, d, row)
    ensures |d| == |d0| && forall l: nat | l < |d| && d[l] != d0[l] ::
            && g.fatSectors > 0 && g.reserved + row <= l
            && Rem(l - g.reserved - row, g.fatSectors) == 0 && Quot(l - g.reserved - row, g.fatSectors) < g.nfats
  {
    hide Quot;
    hide Rem;
    forall l: nat | l < |d| && d[l] != d0[l]
      ensures InRow(g, row, l)
    {
    }
  }

  /** d is d0 but for FSInfo's sector. */
  ghost predicate FsOnly(g: Geo, d0: Disk, d: Disk) {
    |d| == |d0| && forall l: nat | l < |d0| && d[l] != d0[l] :: g.fat32 && l == g.fsinfoLba
  }

  lemma FsOnlySelf(g: Geo, d: Disk)
    ensures FsOnly(g, d, d)
  {
  }

  lemma FsOnlyOne(g: Geo, d: Disk, x: Sector)
    requires g.fat32 && g.fsinfoLba < |d|
    ensures FsOnly(g, d, d[g.fsinfoLba := x])
  {
  }

  /** Sector l holds entries of real clusters, in some copy. */
  ghost predicate InFat(g: Geo, l: nat) {
    && g.fatSectors > 0 && g.reserved <= l && Quot(l - g.reserved, g.fatSectors) < g.nfats
    && Rem(l - g.reserved, g.fatSectors) < g.Rows()
  }

  lemma InRowInFat(g: Geo, row: nat, l: nat)
    requires GeoOk(g) && InRow(g, row, l) && row < g.Rows() && row < g.fatSectors
    ensures InFat(g, l)
  {
    hide *;
    InRowIs(g, row, l);
    FatNonEmpty(g);
    var k := l - g.reserved - row;
    DivMod(k, g.fatSectors);
    DivUnique(k + row, Quot(k, g.fatSectors), row, g.fatSectors);
    InFatMake(g, l);
  }

  lemma InFatMake(g: Geo, l: nat)
    requires g.fatSectors > 0 && g.reserved <= l && Quot(l - g.reserved, g.fatSectors) < g.nfats
    requires Rem(l - g.reserved, g.fatSectors) < g.Rows()
    ensures InFat(g, l)
  {
    hide Quot;
    hide Rem;
    hide Geo.Rows;
  }

  /** d is d0 but for FSInfo and sectors that hold FAT entries. */
  ghost predicate FatOnly(g: Geo, d0: Disk, d: Disk) {
    |d| == |d0| && forall l: nat | l < |d0| && d[l] != d0[l] :: (g.fat32 && l == g.fsinfoLba) || InFat(g, l)
  }

  lemma FatOnlySelf(g: Geo, d: Disk)
    ensures FatOnly(g, d, d)
  {
  }

  lemma FatOnlyFs(g: Geo, d0: Disk, d: Disk)
    requires FsOnly(g, d0, d)
    ensures FatOnly(g, d0, d)
  {
    hide InFat;
  }

  lemma FatOnlyRow(g: Geo, d0: Disk, d: Disk, row: nat)
    requires GeoOk(g) && row < g.Rows() && row < g.fatSectors && RowOnly(g, d0, d, row)
    ensures FatOnly(g, d0, d)
  {
    hide InRow;
    hide InFat;
    hide GeoOk;
    hide Geo.Rows;
    forall l: nat | l < |d0| && d[l] != d0[l]
      ensures InFat(g, l)
    {
      InRowInFat(g, row, l);
    }
  }

  lemma FatOnlyThen(g: Geo, d0: Disk, d1: Disk, d2: Disk)
    requires FatOnly(g, d0, d1) && FatOnly(g, d1, d2)
    ensures FatOnly(g, d0, d2)
  {
    hide InFat;
  }

  lemma FatOnlyPlain(g: Geo, d0: Disk, d: Disk)
    requires FatOnly(g, d0, d)
    ensures |d| == |d0| && forall l: nat | l < |d| && d[l] != d0[l] ::
            || (g.fat32 && l == g.fsinfoLba)
            || (&& g.fatSectors > 0 && g.reserved <= l && Quot(l - g.reserved, g.fatSectors) < g.nfats
                && Rem(l - g.reserved, g.fatSectors) < (if g.fat32 then (g.total + 129) / 128
                   else (g.total + 257) / 256))
  {
    hide Quot;
    hide Rem;
    RowsPlain(g);
    hide Geo.Rows;
  }

  /** A FAT row and FSInfo. */
  ghost predicate RowAndFs(g: Geo, d0: Disk, d: Disk, row: nat) {
    |d| == |d0| && forall l: nat | l < |d0| && d[l] != d0[l] :: (g.fat32 && l == g.fsinfoLba) || InRow(g, row, l)
  }

  lemma RowAndFsMake(g: Geo, d0: Disk, d1: Disk, d2: Disk, row: nat)
    requires FsOnly(g, d0, d1) && RowOnly(g, d1, d2, row)
    ensures RowAndFs(g, d0, d2, row)
  {
    hide InRow;
  }

  lemma RowAndFsPlain(g: Geo, d0: Disk, d: Disk, row: nat)
    requires RowAndFs(g, d0, d, row)
    ensures |d| == |d0| && forall l: nat | l < |d| && d[l] != d0[l] ::
            || (g.fat32 && l == g.fsinfoLba)
            || (&& g.fatSectors > 0 && g.reserved + row <= l
                && Rem(l - g.reserved - row, g.fatSectors) == 0 && Quot(l - g.reserved - row, g.fatSectors) < g.nfats)
  {
    hide Quot;
    hide Rem;
  }

  /** Equal copies of a row, in numbers. */
  lemma RowAgreesPlain(g: Geo, d: Disk, row: nat)
    requires GeoOk(g) && Fits(g, d) && row < g.Rows() && RowAgrees(g, d, row)
    ensures 0 <= g.reserved + row < |d|
    ensures forall f: nat | f < g.nfats ::
            && 0 <= g.reserved + f * g.fatSectors + row < |d|
            && d[g.reserved + f * g.fatSectors + row] == d[g.reserved + row]
  {
    CopiesExist(g);
    CopyPlace(g, d, 0, row);
    forall f: nat | f < g.nfats
      ensures 0 <= g.reserved + f * g.fatSectors + row < |d|
      ensures d[g.reserved + f * g.fatSectors + row] == d[g.reserved + row]
    {
      CopyPlace(g, d, f, row);
      CopyNumber(g, f, row);
    }
  }

  /** All copies of the row hold x: where they are, in numbers. */
  lemma CopiesHold(g: Geo, d: Disk, row: nat, x: Sector)
    requires GeoOk(g) && Fits(g, d) && row < g.Rows() && RowIs(g, d, row, g.nfats, x)
    ensures forall f: nat | f < g.nfats ::
            0 <= g.reserved + f * g.fatSectors + row < |d| && d[g.reserved + f * g.fatSectors + row] == x
  {
    forall f: nat | f < g.nfats
      ensures 0 <= g.reserved + f * g.fatSectors + row < |d| && d[g.reserved + f * g.fatSectors + row] == x
    {
      CopyPlace(g, d, f, row);
      CopyNumber(g, f, row);
    }
  }

  lemma CopyNumber(g: Geo, f: nat, row: nat)
    ensures g.CopyLba(f, row) == g.reserved + f * g.fatSectors + row
  {
  }

  /** Sector l of the FAT area, when it holds entries of real clusters, is that
      of the first copy. */
  ghost predicate LikeFirst(g: Geo, d: Disk, rows: nat, l: nat) {
    l < |d| && g.reserved <= l < g.reserved + g.nfats * g.fatSectors && g.fatSectors > 0
      && Rem(l - g.reserved, g.fatSectors) < rows ==>
      && g.reserved + Rem(l - g.reserved, g.fatSectors) < |d|
      && d[l] == d[g.reserved + Rem(l - g.reserved, g.fatSectors)]
  }

  lemma LikeFirstAt(g: Geo, d: Disk, rows: nat, l: nat)
    requires g.fatSectors > 0
    ensures LikeFirst(g, d, rows, l) <==>
            (l < |d| && g.reserved <= l < g.reserved + g.nfats * g.fatSectors
               && Rem(l - g.reserved, g.fatSectors) < rows ==>
               && g.reserved + Rem(l - g.reserved, g.fatSectors) < |d|
               && d[l] == d[g.reserved + Rem(l - g.reserved, g.fatSectors)])
  {
    hide Quot;
    hide Rem;
  }

  lemma MirroredLike(g: Geo, d: Disk)
    requires GeoOk(g) && Fits(g, d)
    ensures Mirrored(g, d) <==> forall l: nat | l < |d| :: LikeFirst(g, d, g.Rows(), l)
  {
    hide *;
    FatNonEmpty(g);
    if Mirrored(g, d) {
      forall l: nat | l < |d|
        ensures LikeFirst(g, d, g.Rows(), l)
      {
        LikeFirstAt(g, d, g.Rows(), l);
        if g.reserved <= l < g.reserved + g.nfats * g.fatSectors && Rem(l - g.reserved, g.fatSectors) < g.Rows() {
          CopySector(g, d, l);
          SameCopies(g, d, Quot(l - g.reserved, g.fatSectors), Rem(l - g.reserved, g.fatSectors));
        }
      }
    }
    if forall l: nat | l < |d| :: LikeFirst(g, d, g.Rows(), l) {
      forall f: nat, row: nat | f < g.nfats && row < g.Rows()
        ensures g.CopyLba(f, row) < |d| && g.CopyLba(0, row) < |d| && d[g.CopyLba(f, row)] == d[g.CopyLba(0, row)]
      {
        CopyRemainder(g, d, f, row);
        assert LikeFirst(g, d, g.Rows(), g.CopyLba(f, row));
        LikeFirstAt(g, d, g.Rows(), g.CopyLba(f, row));
      }
      MirroredMake(g, d);
    }
  }

  /** Copies are equal, in numbers: sector k of the FAT area, when it holds entries
      of real clusters, is that of the first copy. */
  lemma MirroredPlain(g: Geo, d: Disk)
    requires g.fatSectors > 0 && GeoOk(g) && Fits(g, d)
    ensures g.reserved + g.nfats * g.fatSectors <= |d|
    ensures Mirrored(g, d) <==>
            forall k: nat | k < g.nfats * g.fatSectors
              && Rem(k, g.fatSectors) < (if g.fat32 then (g.total + 129) / 128 else (g.total + 257) / 256) ::
              && g.reserved + Rem(k, g.fatSectors) < |d|
              && d[g.reserved + k] == d[g.reserved + Rem(k, g.fatSectors)]
  {
    hide *;
    MirroredLike(g, d);
    RowsPlain(g);
    RootNumber(g);
    FitsRoot(g, d);
    if forall l: nat | l < |d| :: LikeFirst(g, d, g.Rows(), l) {
      forall k: nat | k < g.nfats * g.fatSectors && Rem(k, g.fatSectors) < g.Rows()
        ensures g.reserved + Rem(k, g.fatSectors) < |d|
        ensures d[g.reserved + k] == d[g.reserved + Rem(k, g.fatSectors)]
      {
        assert LikeFirst(g, d, g.Rows(), g.reserved + k);
        LikeFirstAt(g, d, g.Rows(), g.reserved + k);
        assert g.reserved + k - g.reserved == k;
      }
    }
    if forall k: nat | k < g.nfats * g.fatSectors && Rem(k, g.fatSectors) < g.Rows() ::
         g.reserved + Rem(k, g.fatSectors) < |d| && d[g.reserved + k] == d[g.reserved + Rem(k, g.fatSectors)]
    {
      forall l: nat | l < |d|
        ensures LikeFirst(g, d, g.Rows(), l)
      {
        LikeFirstAt(g, d, g.Rows(), l);
        if l >= g.reserved {
          var k: nat := l - g.reserved;
          assert Rem(k, g.fatSectors) < g.Rows() || Rem(k, g.fatSectors) >= g.Rows();
        }
      }
    }
  }

  lemma FatNonEmpty(g: Geo)
    requires GeoOk(g)
    ensures g.fatSectors > 0
  {
  }

  lemma RowsPlain(g: Geo)
    ensures g.Rows() == (if g.fat32 then (g.total + 129) / 128 else (g.total + 257) / 256)
  {
  }

  /** A sector of the FAT area, as row of a copy. */
  lemma CopySector(g: Geo, d: Disk, l: nat)
    requires GeoOk(g) && Fits(g, d) && g.reserved <= l < g.reserved + g.nfats * g.fatSectors
    requires g.fatSectors > 0 && Rem(l - g.reserved, g.fatSectors) < g.Rows()
    ensures var f, row := Quot(l - g.reserved, g.fatSectors), Rem(l - g.reserved, g.fatSectors);
            && f < g.nfats && g.CopyLba(f, row) == l < |d| && g.CopyLba(0, row) == g.reserved + row < |d|
  {
    hide *;
    var f, row := Quot(l - g.reserved, g.fatSectors), Rem(l - g.reserved, g.fatSectors);
    DivMod(l - g.reserved, g.fatSectors);
    DivBelow(l - g.reserved, g.nfats, g.fatSectors);
    CopiesExist(g);
    CopyPlace(g, d, f, row);
    CopyPlace(g, d, 0, row);
    CopyNumber(g, f, row);
  }

  lemma CopyRemainder(g: Geo, d: Disk, f: nat, row: nat)
    requires GeoOk(g) && Fits(g, d) && f < g.nfats && row < g.Rows()
    ensures g.fatSectors > 0
    ensures var l := g.CopyLba(f, row);
            && g.reserved <= l < g.reserved + g.nfats * g.fatSectors && Rem(l - g.reserved, g.fatSectors) == row
            && l < |d| && g.CopyLba(0, row) == g.reserved + row
  {
    hide *;
    CopiesExist(g);
    CopyPlace(g, d, f, row);
    CopyPlace(g, d, 0, row);
    CopyNumber(g, f, row);
    DivUnique(g.CopyLba(f, row) - g.reserved, f, row, g.fatSectors);
    RootNumber(g);
  }

  lemma RootNumber(g: Geo)
    ensures g.RootStart() == g.reserved + g.nfats * g.fatSectors
  {
  }

  lemma SameCopies(g: Geo, d: Disk, f: nat, row: nat)
    requires Mirrored(g, d) && f < g.nfats && row < g.Rows() && g.CopyLba(f, row) < |d| && g.CopyLba(0, row) < |d|
    ensures d[g.CopyLba(f, row)] == d[g.CopyLba(0, row)]
  {
    hide Geo.CopyLba;
    hide Geo.Rows;
    assert RowAgrees(g, d, row);
  }

  lemma MirroredMake(g: Geo, d: Disk)
    requires forall f: nat, row: nat | f < g.nfats && row < g.Rows() ::
      g.CopyLba(f, row) < |d| && g.CopyLba(0, row) < |d| && d[g.CopyLba(f, row)] == d[g.CopyLba(0, row)]
    ensures Mirrored(g, d)
  {
    hide Geo.CopyLba;
    hide Geo.Rows;
  }

  /** At every state from n0 on the table is the old or the new one, and the
      copies of rows but this one are to each other as they were. */
  ghost predicate RowSteps(g: Geo, d0: Disk, n0: nat, past: seq<Disk>, row: nat, t: seq<nat>) {
    forall i | n0 <= i < |past| ::
      (Table(g, past[i]) == t || Table(g, past[i]) == Table(g, d0)) && OthersStay(g, d0, past[i], row)
  }

  lemma RowStepsNone(g: Geo, d0: Disk, past: seq<Disk>, row: nat, t: seq<nat>)
    ensures RowSteps(g, d0, |past|, past, row, t)
  {
  }

  lemma RowStepsMore(g: Geo, d0: Disk, n0: nat, past: seq<Disk>, d: Disk, row: nat, t: seq<nat>)
    requires RowSteps(g, d0, n0, past, row, t) && (Table(g, d) == t || Table(g, d) == Table(g, d0))
             && OthersStay(g, d0, d, row)
    ensures RowSteps(g, d0, n0, past + [d], row, t)
  {
    hide Table;
    hide OthersStay;
  }

  lemma UpperTrans(g: Geo, d0: Disk, d1: Disk, d2: Disk)
    requires UpperSame(g, d0, d1) && UpperSame(g, d1, d2)
    ensures UpperSame(g, d0, d2)
  {
    hide Geo.RootStart;
  }

  lemma Width(g: Geo)
    ensures g.W() == if g.fat32 then 4 else 2
  {
  }

  /** When one entry changes, the others' entries read as before. */
  lemma EntryOnly(g: Geo, d: Disk, l: nat, x: Sector, c: nat, v: nat, u: set<nat>)
    requires l < |d| && InTables(g, u) && c !in u && c < g.Limit()
    requires Table(g, d[l := x]) == Table(g, d)[c := v % g.Modulus()]
    ensures forall b | b in u :: FatGet(g, d[l := x], b) == FatGet(g, d, b)
  {
    forall b | b in u
      ensures FatGet(g, d[l := x], b) == FatGet(g, d, b)
    {
      assert Table(g, d[l := x])[b] == Table(g, d)[b];
    }
  }

  lemma TableBound(g: Geo, c: nat)
    requires InTable(g, c)
    ensures 2 <= c < g.Limit()
  {
  }

  lemma UpperSelf(g: Geo, d: Disk)
    ensures UpperSame(g, d, d)
  {
  }

  lemma ReservedUpper(g: Geo, d: Disk, l: nat, x: Sector)
    requires GeoOk(g) && l < g.reserved && l < |d|
    ensures UpperSame(g, d, d[l := x])
  {
    RootAbove(g);
    hide Geo.RootStart;
  }

  /** The cases in which fsinfo_unknown has nothing to write, and the one in
      which it has. */
  lemma FsSettled(g: Geo, d: Disk)
    ensures !g.fat32 || g.fsinfoLba < 1 || g.fsinfoLba >= g.reserved || g.fsinfoLba >= |d| ==> FsUnknown(g, d)
    ensures g.fsinfoLba < |d| ==>
      var b := d[g.fsinfoLba];
      if Rd32(b, 0) != 0x4161_5252 || Rd32(b, 484) != 0x6141_7272 then FsUnknown(g, d)
      else (Rd32(b, 488) == UNKNOWN ==> FsUnknown(g, d)) && (g.fat32 && 1 <= g.fsinfoLba < g.reserved ==>
        FsPresent(g, d))
  {
  }

  lemma RowSmall(g: Geo, row: nat)
    requires GeoOk(g) && row < g.Rows()
    ensures row < 0xFFFF_FFFF
  {
  }

  // ----- the allocator's search

  /** The k-th cluster the search looks at. */
  function Candidate(hint: nat, total: nat, k: nat): nat
    requires total > 0
  {
    2 + Rem(hint + k, total)
  }

  lemma CandidateIn(g: Geo, hint: nat, k: nat)
    requires GeoOk(g) && g.total > 0
    ensures InTable(g, Candidate(hint, g.total, k)) && Candidate(hint, g.total, k) < g.Limit()
    ensures Candidate(hint, g.total, k) < 0x1000_0000
  {
  }

  /** Over total steps the search looks at every cluster, whatever the hint. */
  lemma CandidatesCover(g: Geo, hint: nat, t: seq<nat>)
    requires |t| == g.Limit()
    requires g.total > 0 ==> forall k: nat | k < g.total :: Candidate(hint, g.total, k) < |t| ==>
             t[Candidate(hint, g.total, k)] != 0
    ensures Free(t) == {}
  {
    forall c: nat | 2 <= c < |t|
      ensures t[c] != 0
    {
      var k := Rotation(hint, g.total, c - 2);
      assert Candidate(hint, g.total, k) == c;
    }
  }

  /** and looks at none of them twice. */
  lemma CandidatesDiffer(g: Geo, hint: nat, i: nat, j: nat)
    requires g.total > 0 && i < j < g.total
    ensures Candidate(hint, g.total, i) != Candidate(hint, g.total, j)
  {
    DivMod(hint + i, g.total);
    DivMod(hint + j, g.total);
    var a: int, b: int := Quot(hint + i, g.total), Quot(hint + j, g.total);
    Dist(b, -a, g.total);
    Dist(a, -a, g.total);
    NoneBetween(b - a, g.total);
  }

  lemma MarkIs(g: Geo)
    ensures g.EocMark() == if g.fat32 then 0x0FFF_FFFF else 0xFFFF
  {
  }

  /** No free cluster is met before c, counted up from the hint and round. */
  ghost predicate NearestFree(t: seq<nat>, hint: nat, total: nat, c: nat) {
    forall x | 2 <= x < |t| && t[x] == 0 :: total > 0 && (c - 2 - hint) % total <= (x - 2 - hint) % total
  }

  lemma FirstFree(g: Geo, t: seq<nat>, hint: nat, k: nat)
    requires k < g.total && |t| == g.Limit()
    requires forall j: nat | j < k :: Candidate(hint, g.total, j) < |t| ==> t[Candidate(hint, g.total, j)] != 0
    ensures NearestFree(t, hint, g.total, Candidate(hint, g.total, k))
  {
    forall x | 2 <= x < |t| && t[x] == 0
      ensures (Candidate(hint, g.total, k) - 2 - hint) % g.total <= (x - 2 - hint) % g.total
    {
      var j := Rotation(hint, g.total, x - 2);
      assert Candidate(hint, g.total, j) == x;
      Steps(hint, g.total, j);
      Steps(hint, g.total, k);
    }
  }

  /** A candidate is as many steps from the hint as its number says. */
  lemma Steps(hint: nat, total: nat, k: nat)
    requires k < total
    ensures (Candidate(hint, total, k) - 2 - hint) % total == k
  {
    DivMod(hint + k, total);
    hide Rem;
    var q := Quot(hint + k, total);
    assert -q * total == -(q * total);
    ModUnique(Rem(hint + k, total) - hint, -q, k, total);
  }

  lemma ModUnique(x: int, q: int, r: nat, n: nat)
    requires r < n && x == q * n + r
    ensures x % n == r
  {
    if x % n != r || x / n != q { Apart(x / n, x % n, q, r, n); }
  }

  lemma FreeMember(t: seq<nat>, c: nat)
    requires 2 <= c < |t| && t[c] == 0
    ensures c in Free(t)
  {
  }

  /** Taking a free cluster removes it, and just it, from the free ones. */
  lemma FreeTaken(t: seq<nat>, c: nat, v: nat)
    requires c in Free(t) && v != 0
    ensures c < |t| && Free(t[c := v]) == Free(t) - {c}
  {
  }

  lemma MarkStored(g: Geo)
    ensures g.EocMark() % g.Modulus() == g.EocMark() && g.EocMark() >= g.Eoc() && g.EocMark() > 0
  {
  }

  // ----- releasing a chain

  /** release_chain after count steps: the first count clusters of the orbit
      are cleared and cluster is the next one to look at. */
  ghost predicate Releasing(t0: seq<nat>, t: seq<nat>, o: seq<nat>, count: nat, cluster: nat) {
    if count < |o| then t == Cleared(t0, Elems(o[..count])) && cluster == o[count]
    else t == Cleared(t0, Elems(o)) && (2 <= cluster < |t| ==> count == |o| && cluster in Elems(o))
  }

  lemma ReleaseBegin(t: seq<nat>, c: nat)
    ensures Releasing(t, t, Orbit(t, c, {}), 0, c)
  {
    var o := Orbit(t, c, {});
    OrbitEmpty(t, c);
    assert Elems([]) == {};
    assert Cleared(t, {}) == t;
    if |o| > 0 { OrbitLinks(t, c, {}, 0); assert o[..0] == []; }
  }

  lemma ReleaseStep(t0: seq<nat>, t: seq<nat>, c0: nat, count: nat, c: nat)
    requires 2 <= c < |t| && Releasing(t0, t, Orbit(t0, c0, {}), count, c)
    ensures c in Elems(Orbit(t0, c0, {}))
    ensures Releasing(t0, t[c := 0], Orbit(t0, c0, {}), count + 1, t[c])
  {
    var o := Orbit(t0, c0, {});
    if count < |o| {
      OrbitFacts(t0, c0, {});
      OrbitLinks(t0, c0, {}, count);
      PrefixElems(o, count);
      ClearedMore(t0, Elems(o[..count]), c);
      assert c !in o[..count];
      if count + 1 == |o| { assert o[..count + 1] == o; }
    } else {
      ClearedMore(t0, Elems(o), c);
      assert Elems(o) + {c} == Elems(o);
    }
  }

  lemma ReleaseEnd(g: Geo, t0: seq<nat>, t: seq<nat>, c0: nat, count: nat, c: nat)
    requires |t0| == g.Limit() <= g.Eoc() && Releasing(t0, t, Orbit(t0, c0, {}), count, c)
    requires c < 2 || c >= g.Eoc() || count >= g.total || c >= g.Limit()
    ensures t == Cleared(t0, Elems(Orbit(t0, c0, {})))
  {
    var o := Orbit(t0, c0, {});
    OrbitFacts(t0, c0, {});
    InjectiveShort(t0, o);
    if count < |o| { OrbitLinks(t0, c0, {}, count); }
  }

  /** Part of the orbit cleared, when a write failed on the way. */
  ghost predicate PartCleared(t0: seq<nat>, t: seq<nat>, s: set<nat>) {
    |t| == |t0| && forall x | 0 <= x < |t0| :: t[x] == t0[x] || (x in s && t[x] == 0)
  }

  lemma ReleasingPart(t0: seq<nat>, t: seq<nat>, c0: nat, count: nat, c: nat)
    requires Releasing(t0, t, Orbit(t0, c0, {}), count, c)
    ensures PartCleared(t0, t, Elems(Orbit(t0, c0, {})))
  {
  }

  lemma EocAbove(g: Geo)
    requires GeoOk(g)
    ensures g.Limit() < g.Eoc()
  {
  }

  lemma ReleaseMember(g: Geo, t0: seq<nat>, t: seq<nat>, c0: nat, count: nat, c: nat, u: set<nat>)
    requires Releasing(t0, t, Orbit(t0, c0, {}), count, c) && |t| == g.Limit() == |t0|
    requires InTables(g, u) && Elems(Orbit(t0, c0, {})) !! u
    ensures c !in u && 0 % g.Modulus() == 0
    ensures InTable(g, c) <==> 2 <= c < |t|
  {
    if 2 <= c < |t| { ReleaseStep(t0, t, c0, count, c); }
  }

  lemma ReleaseCut(g: Geo, t0: seq<nat>, t: seq<nat>, t1: seq<nat>, c0: nat, count: nat, c: nat)
    requires Releasing(t0, t, Orbit(t0, c0, {}), count, c) && |t| == g.Limit() == |t0| && g.Limit() < g.Eoc() && c >= 2
    requires t1 == t || (InTable(g, c) && t1 == t[c := 0])
    ensures PartCleared(t0, t1, Elems(Orbit(t0, c0, {})))
    ensures !InTable(g, c) ==> t == Cleared(t0, Elems(Orbit(t0, c0, {})))
  {
    ReleasingPart(t0, t, c0, count, c);
    if InTable(g, c) {
      ReleaseStep(t0, t, c0, count, c);
    } else {
      ReleaseEnd(g, t0, t, c0, count, c);
    }
    hide Releasing;
  }

  lemma NotWalked(g: Geo, c: nat)
    requires GeoOk(g) && (c < 2 || c >= g.Eoc() || g.total == 0)
    ensures !InTable(g, c)
  {
  }

  /** Writing above the FAT leaves the volume as honest and mirrored as it was. */
  lemma AboveState(g: Geo, d: Disk, l: nat, x: Sector, stays: Stays, honest: bool, mirrored: bool)
    requires GeoOk(g) && Fits(g, d) && g.RootStart() <= l < |d| && StaysOf(g, d) == stays
    requires (honest ==> FsHonest(g, d)) && (mirrored ==> Mirrored(g, d))
    ensures var d1 := d[l := x];
            && Fits(g, d1) && Table(g, d1) == Table(g, d) && StaysOf(g, d1) == stays
               && StateOk(g, d1, |d|, stays, honest, mirrored)
            && (honest ==> FsHonest(g, d1)) && (mirrored ==> Mirrored(g, d1)) && (FsUnknown(g, d) ==> FsUnknown(g, d1))
  {
    hide *;
    AboveFat(g, d, l, x);
    FitsSame(g, d, d[l := x]);
    RowsStayMake(g, d, d[l := x]);
    if mirrored { MirroredStays(g, d, d[l := x]); }
    StateMake(g, d[l := x], |d|, stays, honest, mirrored);
  }

  lemma KeptKeeps(g: Geo, d0: Disk, n0: nat, past: seq<Disk>, d: Disk, u: set<nat>)
    requires KeptFrom(g, d0, n0, past, d, u)
    ensures Keeps(g, d0, d, u)
  {
    hide Keeps;
  }

  lemma KeepsSize(g: Geo, d0: Disk, d1: Disk, u: set<nat>)
    requires Keeps(g, d0, d1, u)
    ensures |d1| == |d0|
  {
  }

  lemma UpperSize(g: Geo, d0: Disk, d1: Disk)
    requires UpperSame(g, d0, d1)
    ensures |d1| == |d0|
  {
  }
}
