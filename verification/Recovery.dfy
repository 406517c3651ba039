/** The sweep of fat_recover: entries nothing reaches are freed, row by row, and
    the copies and FSInfo made to agree. */
module Recovery {
  import opened Arith
  import opened Bytes
  import opened Layout
  import opened FatTable
  import opened Chains
  import opened Volume
  import opened FatWrites
  import opened Scanner

  /** The entry of cluster c once swept: zero unless it was marked bad or the
      cluster is one of marks. */
  function SweptEntry(g: Geo, marks: set<nat>, c: nat, v: nat): nat {
    if c < 2 || v == g.BadMark() || c in marks then v else 0
  }

  function Swept(g: Geo, t: seq<nat>, marks: set<nat>): (r: seq<nat>)
    ensures |r| == |t|
  {
    seq(|t|, (c: nat) requires c < |t| => SweptEntry(g, marks, c, t[c]))
  }

  /** The table with one row of it swept. */
  function RowSwept(g: Geo, t: seq<nat>, marks: set<nat>, row: nat): (r: seq<nat>)
    ensures |r| == |t|
  {
    seq(|t|, (c: nat) requires c < |t| => if c / g.Per() == row then SweptEntry(g, marks, c, t[c]) else t[c])
  }

  /** The free clusters below n. */
  function FreeBelow(t: seq<nat>, n: nat): set<nat> {
    set c | 2 <= c < n && c < |t| && t[c] == 0
  }

  lemma FreeBelowNext(t: seq<nat>, n: nat)
    ensures |FreeBelow(t, n + 1)| == |FreeBelow(t, n)| + if 2 <= n < |t| && t[n] == 0 then 1 else 0
  {
    var more := if 2 <= n < |t| && t[n] == 0 then {n} else {};
    assert FreeBelow(t, n + 1) == FreeBelow(t, n) + more;
  }

  lemma FreeBelowAll(t: seq<nat>, n: nat)
    requires n >= |t|
    ensures FreeBelow(t, n) == Free(t)
  {
  }

  lemma FreeBelowNone(t: seq<nat>)
    ensures FreeBelow(t, 0) == {}
  {
  }

  /** Where entry k of a FAT sector is. */
  function EntryOff(g: Geo, k: nat): nat { k * g.W() }

  lemma EntryOffs(g: Geo, k: nat, j: nat)
    requires k < g.Per() && j < g.Per()
    ensures EntryOff(g, k) + g.W() <= 512 && EntryOff(g, j) + g.W() <= 512
    ensures k != j ==> EntryOff(g, k) + g.W() <= EntryOff(g, j) || EntryOff(g, j) + g.W() <= EntryOff(g, k)
    ensures EntryOff(g, k) == EntryOff(g, j) ==> k == j
  {
  }

  /** Zeroes an entry; on FAT32 the top four bits of its last byte stay. */
  method ZeroEntry(g: Geo, a: Sector, k: nat) returns (r: Sector)
    requires k < g.Per()
    ensures EntryOff(g, k) + g.W() <= 512 && r == Put(g, a, EntryOff(g, k), 0)
  {
    var w := g.W();
    r := a;
    var i := 0;
    while i < w
      invariant i <= w && k * w + w <= 512
      invariant forall j | 0 <= j < 512 :: r[j] == if k * w <= j < k * w + i && (j < k * w + 3 || !g.fat32) then 0
                else a[j]
    {
      if i < 3 || !g.fat32 { r := r[k * w + i := 0]; }
      i := i + 1;
    }
    if g.fat32 { r := r[k * 4 + 3 := r[k * 4 + 3] / 16 * 16]; }
    ZeroedIsPut(g, a, k, r);
  }

  lemma WordSize(n: nat)
    requires n < UNKNOWN
    ensures n < U32
  {
  }

  lemma TopNibble(s: seq<byte>, o: nat)
    requires o + 4 <= |s|
    ensures Rd32(s, o) / 0x1000_0000 == s[o + 3] / 16 < 16
  {
    var b0: int, b1: int, b2: int, high: int := s[o], s[o + 1], s[o + 2], s[o + 3];
    var low := b0 + 0x100 * b1 + 0x1_0000 * b2;
    assert Rd32(s, o) == low + 0x100_0000 * high && 0 <= low < 0x100_0000;
  }

  lemma TopBytes(top: nat)
    requires top < 16
    ensures var v := top * 0x1000_0000;
            ByteOf(v, 0) == 0 && ByteOf(v, 1) == 0 && ByteOf(v, 2) == 0 && ByteOf(v, 3) == top * 16
  {
  }

  lemma NoBytes()
    ensures ByteOf(0, 0) == 0 && ByteOf(0, 1) == 0
  {
  }

  lemma ZeroedIsPut(g: Geo, a: Sector, k: nat, r: Sector)
    requires k < g.Per()
    requires k * g.W() + g.W() <= 512
    requires var o := k * g.W();
             if g.fat32 then r == a[o := 0][o + 1 := 0][o + 2 := 0][o + 3 := a[o + 3] / 16 * 16]
               else r == a[o := 0][o + 1 := 0]
    ensures EntryOff(g, k) + g.W() <= 512 && r == Put(g, a, EntryOff(g, k), 0)
  {
    hide Rd32;
    hide ByteOf;
    if g.fat32 {
      TopNibble(a, k * 4);
      TopBytes(a[k * 4 + 3] / 16);
    } else {
      NoBytes();
    }
  }

  /** Entries of the row below k hold what t says after the sweep, the others
      what t says now; a0 is the row as it was. */
  ghost predicate RowTo(g: Geo, a0: Sector, a: Sector, t: seq<nat>, marks: set<nat>, row: nat, k: nat) {
    forall j: nat | j < g.Per() ::
      && EntryOff(g, j) + g.W() <= 512
      && Top(g, a, EntryOff(g, j)) == Top(g, a0, EntryOff(g, j))
      && (row * g.Per() + j < |t| ==>
            Rd(g, a, EntryOff(g, j)) == if j < k then Swept(g, t, marks)[row * g.Per() + j] else t[row * g.Per() + j])
  }

  lemma RowToBegin(g: Geo, a: Sector, t: seq<nat>, marks: set<nat>, row: nat)
    requires forall j: nat | j < g.Per()
             && row * g.Per() + j < |t| ::
             EntryOff(g, j) + g.W() <= 512 && Rd(g, a, EntryOff(g, j)) == t[row * g.Per() + j]
    ensures RowTo(g, a, a, t, marks, row, 0)
  {
    hide Rd;
    hide Top;
    forall j: nat | j < g.Per()
      ensures EntryOff(g, j) + g.W() <= 512
    {
      EntryOffs(g, j, j);
    }
    hide EntryOff;
  }

  lemma RowToAt(g: Geo, a0: Sector, a: Sector, t: seq<nat>, marks: set<nat>, row: nat, k: nat, j: nat)
    requires RowTo(g, a0, a, t, marks, row, k) && j < g.Per()
    ensures EntryOff(g, j) + g.W() <= 512 && Top(g, a, EntryOff(g, j)) == Top(g, a0, EntryOff(g, j))
    ensures row * g.Per() + j < |t| ==>
            Rd(g, a, EntryOff(g, j)) == if j < k then Swept(g, t, marks)[row * g.Per() + j] else t[row * g.Per() + j]
  {
    hide Rd;
    hide Top;
    hide EntryOff;
    hide Swept;
  }

  lemma RowToMake(g: Geo, a0: Sector, a: Sector, t: seq<nat>, marks: set<nat>, row: nat, k: nat)
    requires forall j: nat | j < g.Per() ::
      && EntryOff(g, j) + g.W() <= 512
      && Top(g, a, EntryOff(g, j)) == Top(g, a0, EntryOff(g, j))
      && (row * g.Per() + j < |t| ==>
            Rd(g, a, EntryOff(g, j)) == if j < k then Swept(g, t, marks)[row * g.Per() + j] else t[row * g.Per() + j])
    ensures RowTo(g, a0, a, t, marks, row, k)
  {
    hide Rd;
    hide Top;
    hide EntryOff;
    hide Swept;
  }

  /** Entry k of the row keeps its value, or is zeroed. */
  lemma RowToStep(g: Geo, a0: Sector, a: Sector, t: seq<nat>, marks: set<nat>, row: nat, k: nat, zero: bool)
    requires RowTo(g, a0, a, t, marks, row, k) && k < g.Per() && EntryOff(g, k) + g.W() <= 512
    requires row * g.Per() + k < |t| ==> Swept(g, t, marks)[row * g.Per() + k] == if zero then 0
             else t[row * g.Per() + k]
    ensures RowTo(g, a0, if zero then Put(g, a, EntryOff(g, k), 0) else a, t, marks, row, k + 1)
  {
    hide *;
    var a1 := if zero then Put(g, a, EntryOff(g, k), 0) else a;
    forall j: nat | j < g.Per()
      ensures EntryOff(g, j) + g.W() <= 512 && Top(g, a1, EntryOff(g, j)) == Top(g, a0, EntryOff(g, j))
      ensures row * g.Per() + j < |t| ==>
              Rd(g, a1, EntryOff(g, j)) == if j < k + 1 then Swept(g, t, marks)[row * g.Per() + j]
                else t[row * g.Per() + j]
    {
      RowToAt(g, a0, a, t, marks, row, k, j);
      EntryOffs(g, k, j);
      if zero { PutGet(g, a, EntryOff(g, k), 0, EntryOff(g, j)); }
      ZeroMod(g);
    }
    RowToMake(g, a0, a1, t, marks, row, k + 1);
  }

  lemma ZeroMod(g: Geo)
    ensures 0 % g.Modulus() == 0
  {
  }

  lemma SweptAt(g: Geo, t: seq<nat>, marks: set<nat>, c: nat)
    requires c < |t|
    ensures Swept(g, t, marks)[c] == if c < 2 || t[c] == g.BadMark() || c in marks then t[c] else 0
  {
  }

  /** The bits of live are the clusters of marks. */
  ghost predicate Bits(g: Geo, live: seq<bool>, marks: set<nat>) {
    forall c: nat | InTable(g, c) :: IsLive(live, c) <==> c in marks
  }

  lemma BitIs(g: Geo, live: seq<bool>, marks: set<nat>, c: nat)
    requires Bits(g, live, marks) && 2 <= c < g.Limit()
    ensures IsLive(live, c) <==> c in marks
  {
  }

  /** One row of the sweep, in memory: lost entries zeroed, free ones counted. */
  method SweepRow(g: Geo, row: nat, a0: Sector, live: seq<bool>, nfree0: nat, ghost t: seq<nat>, ghost marks: set<nat>)
    returns (a: Sector, changed: bool, nfree: nat)
    requires |t| == g.Limit() && Bits(g, live, marks) && RowTo(g, a0, a0, t, marks, row, 0)
    requires nfree0 == |FreeBelow(Swept(g, t, marks), row * g.Per())|
    ensures RowTo(g, a0, a, t, marks, row, g.Per()) && (!changed ==> a == a0)
    ensures Swept(g, t, marks) == t ==> !changed
    ensures nfree == |FreeBelow(Swept(g, t, marks), row * g.Per() + g.Per())|
  {
    hide *;
    a, changed, nfree := a0, false, nfree0;
    var k: nat := 0;
    while k < g.Per()
      invariant k <= g.Per() && RowTo(g, a0, a, t, marks, row, k) && (!changed ==> a == a0)
      invariant Swept(g, t, marks) == t ==> !changed
      invariant nfree == |FreeBelow(Swept(g, t, marks), row * g.Per() + k)|
    {
      var c := row * g.Per() + k;
      RowToAt(g, a0, a, t, marks, row, k, k);
      FreeBelowNext(Swept(g, t, marks), c);
      EntryOffs(g, k, k);
      var zero := false;
      if 2 <= c && c < g.total + 2 {
        LimitIs(g);
        SweptAt(g, t, marks, c);
        BitIs(g, live, marks, c);
        var v := Rd(g, a, EntryOff(g, k));
        zero := v != 0 && v != g.BadMark() && !IsLive(live, c);
        if zero || v == 0 { nfree := nfree + 1; }
      } else {
        LimitIs(g);
        if c < |t| { SweptAt(g, t, marks, c); }
      }
      RowToStep(g, a0, a, t, marks, row, k, zero);
      if zero {
        a := ZeroEntry(g, a, k);
        changed := true;
      }
      k := k + 1;
    }
  }

  lemma LimitIs(g: Geo)
    ensures g.Limit() == g.total + 2
  {
  }

  // ----- the sweep on the disk

  /** t is t0 with the rows below row swept; with whole unset, some of their
      entries may still be as in t0. */
  ghost predicate SweptTo(g: Geo, t0: seq<nat>, t: seq<nat>, marks: set<nat>, row: nat, whole: bool) {
    |t| == |t0| && forall c: nat | c < |t| ::
      if Quot(c, g.Per()) >= row then t[c] == t0[c] else t[c] == Swept(g, t0, marks)[c] || (!whole && t[c] == t0[c])
  }

  lemma SweptToBegin(g: Geo, t: seq<nat>, marks: set<nat>)
    ensures SweptTo(g, t, t, marks, 0, true)
  {
    hide Swept;
    hide Quot;
  }

  lemma SweptToStep(g: Geo, t0: seq<nat>, t: seq<nat>, marks: set<nat>, row: nat, whole: bool)
    requires SweptTo(g, t0, t, marks, row, whole)
    ensures SweptTo(g, t0, RowSwept(g, t, marks, row), marks, row + 1, whole)
    ensures SweptTo(g, t0, RowSwept(g, t, marks, row), marks, row + 1, false)
    ensures SweptTo(g, t0, t, marks, row + 1, false)
    ensures SweptTo(g, t0, t, marks, row, false)
  {
    var r := RowSwept(g, t, marks, row);
    forall c: nat | c < |t|
      ensures r[c] == if Quot(c, g.Per()) == row then SweptEntry(g, marks, c, t[c]) else t[c]
    {
    }
  }

  lemma SweptToEnd(g: Geo, t0: seq<nat>, t: seq<nat>, marks: set<nat>, row: nat)
    requires SweptTo(g, t0, t, marks, row, true) && |t0| == g.Limit() && row >= g.Rows()
    ensures t == Swept(g, t0, marks) && row * g.Per() >= |t0|
  {
    RowsHold(g);
    forall c: nat | c < |t|
      ensures t[c] == Swept(g, t0, marks)[c]
    {
      assert Quot(c, g.Per()) < row;
    }
  }

  lemma RowsHold(g: Geo)
    ensures g.Rows() * g.Per() >= g.Limit()
  {
  }

  lemma RowPlace(g: Geo, row: nat, j: nat)
    requires j < g.Per()
    ensures (row * g.Per() + j) / g.Per() == row && (row * g.Per() + j) % g.Per() == j
    ensures Quot(row * g.Per() + j, g.Per()) == row
  {
    DivUnique(row * g.Per() + j, row, j, g.Per());
  }

  /** The row on the disk, not yet swept, as entries. */
  lemma RowNow(g: Geo, d: Disk, row: nat, t0: seq<nat>, marks: set<nat>, whole: bool)
    requires GeoOk(g) && Fits(g, d) && row < g.Rows() && SweptTo(g, t0, Table(g, d), marks, row, whole)
    ensures g.CopyLba(0, row) < |d| && RowTo(g, d[g.CopyLba(0, row)], d[g.CopyLba(0, row)], t0, marks, row, 0)
  {
    hide *;
    CopiesExist(g);
    CopyPlace(g, d, 0, row);
    TableSize(g, d, t0, marks, row, whole);
    forall j: nat | j < g.Per() && row * g.Per() + j < |t0|
      ensures EntryOff(g, j) + g.W() <= 512 && Rd(g, d[g.CopyLba(0, row)], EntryOff(g, j)) == t0[row * g.Per() + j]
    {
      EntryNow(g, d, row, j, t0, marks, whole);
    }
    RowToBegin(g, d[g.CopyLba(0, row)], t0, marks, row);
  }

  lemma TableSize(g: Geo, d: Disk, t0: seq<nat>, marks: set<nat>, row: nat, whole: bool)
    requires SweptTo(g, t0, Table(g, d), marks, row, whole)
    ensures |t0| == g.Limit()
  {
  }

  lemma EntryNow(g: Geo, d: Disk, row: nat, j: nat, t0: seq<nat>, marks: set<nat>, whole: bool)
    requires GeoOk(g) && Fits(g, d) && row < g.Rows() && SweptTo(g, t0, Table(g, d), marks, row, whole)
    requires j < g.Per() && row * g.Per() + j < |t0| == g.Limit() && g.CopyLba(0, row) < |d|
    ensures EntryOff(g, j) + g.W() <= 512 && Rd(g, d[g.CopyLba(0, row)], EntryOff(g, j)) == t0[row * g.Per() + j]
  {
    hide *;
    var c := row * g.Per() + j;
    RowPlace(g, row, j);
    EntryOffs(g, j, j);
    EntryAt(g, d, c);
    TableAt(g, d, c);
    CopiesExist(g);
    CopyPlace(g, d, 0, row);
    RowUntouched(g, t0, Table(g, d), marks, row, whole, c);
    OffIs(g, j);
  }

  lemma OffIs(g: Geo, j: nat)
    ensures EntryOff(g, j) == j * g.W()
  {
  }

  lemma RowUntouched(g: Geo, t0: seq<nat>, t: seq<nat>, marks: set<nat>, row: nat, whole: bool, c: nat)
    requires SweptTo(g, t0, t, marks, row, whole) && c < |t0| && Quot(c, g.Per()) >= row
    ensures t[c] == t0[c]
  {
    hide Swept;
    hide Quot;
  }

  /** The swept row, written to the first copy. */
  lemma RowSweptOut(g: Geo, d: Disk, row: nat, a: Sector, t0: seq<nat>, marks: set<nat>, whole: bool)
    requires GeoOk(g) && Fits(g, d) && row < g.Rows() && SweptTo(g, t0, Table(g, d), marks, row, whole)
             && g.CopyLba(0, row) < |d|
    requires RowTo(g, d[g.CopyLba(0, row)], a, t0, marks, row, g.Per())
    ensures var d1 := d[g.CopyLba(0, row) := a];
            && Table(g, d1) == RowSwept(g, Table(g, d), marks, row) && StaysOf(g, d1) == StaysOf(g, d)
            && forall c | c in marks && c < g.Limit() :: FatGet(g, d1, c) == FatGet(g, d, c)
  {
    hide *;
    TableSize(g, d, t0, marks, row, whole);
    CopiesExist(g);
    CopyPlace(g, d, 0, row);
    RootAbove(g);
    var d1 := d[g.CopyLba(0, row) := a];
    forall c: nat | c < g.Limit()
      ensures FatGet(g, d1, c) == (if c / g.Per() == row then SweptEntry(g, marks, c, FatGet(g, d, c))
              else FatGet(g, d, c))
      ensures TopAt(g, d1, c) == TopAt(g, d, c) && (c in marks ==> FatGet(g, d1, c) == FatGet(g, d, c))
    {
      EntrySweptOut(g, d, row, a, t0, marks, whole, c);
    }
    TablesSwept(g, d, d1, marks, row);
  }

  lemma TablesSwept(g: Geo, d: Disk, d1: Disk, marks: set<nat>, row: nat)
    requires forall c: nat | c < g.Limit() ::
      FatGet(g, d1, c) == (if c / g.Per() == row then SweptEntry(g, marks, c, FatGet(g, d, c)) else FatGet(g, d, c))
    requires forall c: nat | c < g.Limit() :: TopAt(g, d1, c) == TopAt(g, d, c)
    requires 0 < |d| == |d1| && d1[0] == d[0]
    ensures Table(g, d1) == RowSwept(g, Table(g, d), marks, row) && StaysOf(g, d1) == StaysOf(g, d)
  {
    hide FatGet;
    hide TopAt;
    hide SweptEntry;
  }

  lemma EntrySweptOut(g: Geo, d: Disk, row: nat, a: Sector, t0: seq<nat>, marks: set<nat>, whole: bool, c: nat)
    requires GeoOk(g) && Fits(g, d) && row < g.Rows() && SweptTo(g, t0, Table(g, d), marks, row, whole)
             && g.CopyLba(0, row) < |d|
    requires RowTo(g, d[g.CopyLba(0, row)], a, t0, marks, row, g.Per()) && c < g.Limit() == |t0|
    ensures var d1 := d[g.CopyLba(0, row) := a];
            && FatGet(g, d1, c) == (if c / g.Per() == row then SweptEntry(g, marks, c, FatGet(g, d, c))
               else FatGet(g, d, c))
            && TopAt(g, d1, c) == TopAt(g, d, c) && (c in marks ==> FatGet(g, d1, c) == FatGet(g, d, c))
  {
    hide *;
    CopiesExist(g);
    CopyPlace(g, d, 0, row);
    RowWritten(g, d, row, a, c);
    if c / g.Per() == row {
      var j := c % g.Per();
      Places(g, c, row, j);
      RowToAt(g, d[g.CopyLba(0, row)], a, t0, marks, row, g.Per(), j);
      OffIs(g, j);
      EntryNow(g, d, row, j, t0, marks, whole);
      EntryAt(g, d, c);
      TopIs(g, d, c);
      SweptAt(g, t0, marks, c);
      SweptEntryIs(g, marks, c, t0[c]);
    }
  }

  lemma Places(g: Geo, c: nat, row: nat, j: nat)
    requires c / g.Per() == row && c % g.Per() == j
    ensures c == row * g.Per() + j && j < g.Per() && j * g.W() == EntryOff(g, j)
  {
  }

  lemma TopIs(g: Geo, d: Disk, c: nat)
    requires g.reserved + c / g.Per() < |d| && c % g.Per() * g.W() + g.W() <= 512
    ensures TopAt(g, d, c) == Top(g, d[g.reserved + c / g.Per()], c % g.Per() * g.W())
  {
    hide Top;
  }

  lemma SweptEntryIs(g: Geo, marks: set<nat>, c: nat, v: nat)
    ensures SweptEntry(g, marks, c, v) == if c < 2 || v == g.BadMark() || c in marks then v else 0
  {
  }

  // ----- FSInfo and the whole of it

  /** FSInfo's free count, when the volume has one, is exact. */
  ghost predicate FsExact(g: Geo, d: Disk) {
    FsPresent(g, d) ==> Rd32(d[g.fsinfoLba], 488) == |Free(Table(g, d))|
  }

  /** There is nothing to recover. */
  ghost predicate Settled(g: Geo, d: Disk, marks: set<nat>) {
    Swept(g, Table(g, d), marks) == Table(g, d) && Mirrored(g, d) && FsExact(g, d)
  }

  lemma SweptTwice(g: Geo, t: seq<nat>, marks: set<nat>)
    ensures Swept(g, Swept(g, t, marks), marks) == Swept(g, t, marks)
  {
  }

  /** Rows below n are equal in all copies. */
  ghost predicate RowsAgree(g: Geo, d: Disk, n: nat) {
    forall r: nat | r < n && r < g.Rows() :: RowAgrees(g, d, r)
  }

  lemma RowsAgreeNone(g: Geo, d: Disk)
    ensures RowsAgree(g, d, 0)
  {
    hide RowAgrees;
  }

  lemma RowsAgreeStep(g: Geo, d: Disk, d1: Disk, row: nat)
    requires RowsAgree(g, d, row) && OthersStay(g, d, d1, row) && RowAgrees(g, d1, row)
    ensures RowsAgree(g, d1, row + 1)
  {
    hide RowAgrees;
  }

  lemma RowsAgreeAt(g: Geo, d: Disk, n: nat, row: nat)
    requires RowsAgree(g, d, n) && row < n && row < g.Rows()
    ensures RowAgrees(g, d, row)
  {
    hide RowAgrees;
  }

  lemma FsHere(g: Geo, d: Disk)
    requires FsPresent(g, d)
    ensures g.fat32 && g.fsinfoLba < |d|
  {
    hide Rd32;
  }

  /** The swept table, entry by entry: what is marked, and the bad mark, stays. */
  lemma SweptPlain(g: Geo, d0: Disk, d: Disk, marks: set<nat>)
    ensures Table(g, d) == Swept(g, Table(g, d0), marks) ==> forall x: nat | 2 <= x < g.total + 2 ::
            FatGet(g, d, x) ==
            if x in marks || FatGet(g, d0, x) == (if g.fat32 then 0x0FFF_FFF7 else 0xFFF7) then FatGet(g, d0, x) else 0
  {
    if Table(g, d) == Swept(g, Table(g, d0), marks) {
      forall x: nat | 2 <= x < g.total + 2
        ensures FatGet(g, d, x) ==
                if x in marks || FatGet(g, d0, x) == (if g.fat32 then 0x0FFF_FFF7 else 0xFFF7)
                then FatGet(g, d0, x) else 0
      {
        TableAt(g, d, x);
        TableAt(g, d0, x);
        assert Swept(g, Table(g, d0), marks)[x] == SweptEntry(g, marks, x, Table(g, d0)[x]);
      }
    }
  }

  lemma RowsAgreeAll(g: Geo, d: Disk, n: nat)
    requires RowsAgree(g, d, n) && n >= g.Rows()
    ensures Mirrored(g, d)
  {
    hide RowAgrees;
  }

  /** Rows do not notice writes to the reserved sectors. */
  lemma RowsAgreeAbove(g: Geo, d: Disk, d1: Disk, n: nat)
    requires GeoOk(g) && RowsAgree(g, d, n) && |d1| == |d| && forall l | g.reserved <= l < |d| :: d1[l] == d[l]
    ensures RowsAgree(g, d1, n)
  {
    forall r: nat | r < n && r < g.Rows()
      ensures RowAgrees(g, d1, r)
    {
      assert RowAgrees(g, d, r);
      forall f: nat | f < g.nfats
        ensures g.CopyLba(f, r) >= g.reserved
      {
        NonNeg(f, g.fatSectors);
      }
    }
  }

  lemma MirroredRow(g: Geo, d: Disk, row: nat)
    requires Mirrored(g, d) && row < g.Rows()
    ensures RowAgrees(g, d, row)
  {
    hide RowAgrees;
  }

  lemma OthersStaySelf(g: Geo, d: Disk, row: nat)
    ensures OthersStay(g, d, d, row)
  {
    hide RowAgrees;
  }

  /** The copies of a row before f are the first one's. */
  ghost predicate CopiesLike(g: Geo, d: Disk, row: nat, a: Sector, f: nat) {
    forall i: nat | i < f && g.CopyLba(i, row) < |d| :: d[g.CopyLba(i, row)] == a
  }

  lemma CopiesLikeOne(g: Geo, d: Disk, row: nat, a: Sector)
    requires g.CopyLba(0, row) < |d| && d[g.CopyLba(0, row)] == a
    ensures CopiesLike(g, d, row, a, 1)
  {
  }

  lemma CopiesLikeMore(g: Geo, d: Disk, row: nat, a: Sector, f: nat)
    requires CopiesLike(g, d, row, a, f) && g.CopyLba(f, row) < |d| && d[g.CopyLba(f, row)] == a
    ensures CopiesLike(g, d, row, a, f + 1)
  {
    hide Geo.CopyLba;
  }

  lemma CopiesLikeAll(g: Geo, d: Disk, row: nat, a: Sector)
    requires CopiesLike(g, d, row, a, g.nfats) && g.CopyLba(0, row) < |d| && d[g.CopyLba(0, row)] == a
    ensures RowAgrees(g, d, row)
  {
    hide Geo.CopyLba;
  }

  lemma CopyOff(g: Geo, d: Disk, row: nat, f: nat)
    requires f < g.nfats && g.CopyLba(f, row) < |d| && g.CopyLba(0, row) < |d|
             && d[g.CopyLba(f, row)] != d[g.CopyLba(0, row)]
    ensures !RowAgrees(g, d, row)
  {
    hide Geo.CopyLba;
  }

  lemma MarksBelow(g: Geo, marks: set<nat>)
    requires InTables(g, marks)
    ensures forall c | c in marks :: c < g.Limit()
  {
  }

  lemma FreeBelowBound(g: Geo, t: seq<nat>, n: nat)
    requires GeoOk(g) && |t| == g.Limit()
    ensures |FreeBelow(t, n)| < UNKNOWN
  {
    SubsetSize(FreeBelow(t, n), Range(2, |t|));
  }

  function FsCounted(b: Sector, n: nat): Sector { Wr32(b, 488, n) }

  /** Four bytes of it change. */
  lemma FsCountedBytes(b: Sector, n: nat)
    ensures forall i | 0 <= i < 512 && !(488 <= i < 492) :: FsCounted(b, n)[i] == b[i]
  {
  }

  lemma FsCountedFields(b: Sector, n: nat)
    requires n < U32
    ensures Rd32(FsCounted(b, n), 0) == Rd32(b, 0) && Rd32(FsCounted(b, n), 484) == Rd32(b, 484)
    ensures Rd32(FsCounted(b, n), 488) == n
  {
    RdWr32(b, 488, n);
    var c := FsCounted(b, n);
    assert c[0] == b[0] && c[1] == b[1] && c[2] == b[2] && c[3] == b[3];
    assert c[484] == b[484] && c[485] == b[485] && c[486] == b[486] && c[487] == b[487];
    hide FsCounted;
  }

  /** The exact count, written to FSInfo. */
  lemma FsCountState(g: Geo, d: Disk, u: set<nat>, n: nat, stays: Stays, honest: bool, mirrored: bool)
    requires GeoOk(g) && Fits(g, d) && InTables(g, u) && FsPresent(g, d) && n < UNKNOWN
    requires StaysOf(g, d) == stays && (mirrored ==> Mirrored(g, d)) && (honest ==> n == |Free(Table(g, d))|)
    ensures var d1 := d[g.fsinfoLba := FsCounted(d[g.fsinfoLba], n)];
            && Keeps(g, d, d1, u) && Table(g, d1) == Table(g, d)
               && (n == |Free(Table(g, d))| ==> FsExact(g, d1) && FsHonest(g, d1))
            && StateOk(g, d1, |d|, stays, honest, mirrored) && (mirrored ==> Mirrored(g, d1)) && StaysOf(g, d1) == stays
  {
    hide *;
    hide FsPresent;
    FsPlace(g, d);
    WordSize(n);
    var x := FsCounted(d[g.fsinfoLba], n);
    var d1 := d[g.fsinfoLba := x];
    ReservedWrite(g, d, g.fsinfoLba, x, u);
    FsCountedFields(d[g.fsinfoLba], n);
    ExactMake(g, d1, n);
    RowsStayMake(g, d, d1);
    if mirrored { MirroredStays(g, d, d1); }
    StateMake(g, d1, |d|, stays, honest, mirrored);
  }

  lemma ExactMake(g: Geo, d: Disk, n: nat)
    requires g.fsinfoLba < |d| && Rd32(d[g.fsinfoLba], 488) == n
    ensures n == |Free(Table(g, d))| ==> FsExact(g, d) && FsHonest(g, d)
  {
    hide Rd32;
    hide Table;
    hide Free;
  }

  /** When FSInfo needs its count written, and when not. */
  lemma FsCases(g: Geo, d: Disk, n: nat)
    ensures !(g.fat32 && 1 <= g.fsinfoLba < g.reserved && g.fsinfoLba < |d|) ==> FsExact(g, d)
    ensures g.fsinfoLba < |d| ==>
      var b := d[g.fsinfoLba];
      if Rd32(b, 0) == 0x4161_5252 && Rd32(b, 484) == 0x6141_7272 && g.fat32 && 1 <= g.fsinfoLba < g.reserved
      then FsPresent(g, d) && (Rd32(b, 488) == n && n == |Free(Table(g, d))| ==> FsExact(g, d))
           && (FsExact(g, d) && n == |Free(Table(g, d))| ==> Rd32(b, 488) == n)
      else FsExact(g, d)
  {
    hide Rd32;
    hide Table;
    hide Free;
  }

  lemma SweptToWeaker(g: Geo, t0: seq<nat>, t: seq<nat>, marks: set<nat>, row: nat)
    requires SweptTo(g, t0, t, marks, row, true)
    ensures SweptTo(g, t0, t, marks, row, false)
  {
    hide Swept;
    hide Quot;
  }

  lemma SettledParts(g: Geo, d: Disk, marks: set<nat>)
    requires Settled(g, d, marks)
    ensures Swept(g, Table(g, d), marks) == Table(g, d) && Mirrored(g, d) && FsExact(g, d)
  {
  }

  lemma NextRow(g: Geo, row: nat)
    ensures (row + 1) * g.Per() == row * g.Per() + g.Per() && 0 * g.Per() == 0
  {
    Dist(row, 1, g.Per());
  }

  /** All rows done: the table is swept and the free clusters counted. */
  lemma CountDone(g: Geo, t0: seq<nat>, t: seq<nat>, marks: set<nat>, row: nat, whole: bool)
    requires GeoOk(g) && SweptTo(g, t0, t, marks, row, whole) && |t0| == g.Limit() && row >= g.Rows()
    ensures FreeBelow(Swept(g, t0, marks), row * g.Per()) == Free(Swept(g, t0, marks))
    ensures |Free(Swept(g, t0, marks))| < UNKNOWN
    ensures whole ==> t == Swept(g, t0, marks)
  {
    SweptToBegin(g, t0, marks);
    RowsHold(g);
    Dist(g.Rows(), row - g.Rows(), g.Per());
    NonNeg(row - g.Rows(), g.Per());
    FreeBelowAll(Swept(g, t0, marks), row * g.Per());
    FreeBelowBound(g, Swept(g, t0, marks), row * g.Per());
    if whole { SweptToEnd(g, t0, t, marks, row); }
  }

  lemma MirroredAbove(g: Geo, d: Disk, d1: Disk)
    requires GeoOk(g) && Mirrored(g, d) && |d1| == |d| && forall l | g.reserved <= l < |d| :: d1[l] == d[l]
    ensures Mirrored(g, d1)
  {
    assert RowsAgree(g, d, g.Rows());
    RowsAgreeAbove(g, d, d1, g.Rows());
    hide RowAgrees;
  }

  lemma InTablesMake(g: Geo, marks: set<nat>)
    requires forall c | c in marks :: InTable(g, c)
    ensures InTables(g, marks)
  {
  }

  lemma BitsMake(g: Geo, live: seq<bool>, marks: set<nat>)
    requires forall c: nat | InTable(g, c) :: IsLive(live, c) <==> c in marks
    ensures Bits(g, live, marks)
  {
  }

  lemma NoHistory(g: Geo, size: nat, stays: Stays, honest: bool, mirrored: bool)
    ensures HistoryOk(g, [], size, stays, honest, mirrored)
  {
  }

  lemma SettledMake(g: Geo, d: Disk, marks: set<nat>)
    requires Mirrored(g, d) && FsExact(g, d) && Swept(g, Table(g, d), marks) == Table(g, d)
    ensures Settled(g, d, marks)
  {
  }
}
