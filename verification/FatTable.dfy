/** The file allocation table: entries as fat_entry_read decodes them from the
    first copy, what one row write does to them, the other copies and FSInfo. */
module FatTable {
  import opened Arith
  import opened Bytes
  import opened Layout

  /** One entry at byte o of a FAT sector; FAT32 entries are the low 28 bits. */
  function Rd(g: Geo, s: Sector, o: nat): nat
    requires o + g.W() <= 512
  {
    if g.fat32 then Rd32(s, o) % 0x1000_0000 else Rd16(s, o)
  }

  /** The four bits of a FAT32 entry that belong to the volume. */
  function Top(g: Geo, s: Sector, o: nat): nat
    requires o + g.W() <= 512
  {
    if g.fat32 then Rd32(s, o) / 0x1000_0000 else 0
  }

  /** The sector with the entry at byte o replaced, its top four bits kept. */
  function Put(g: Geo, s: Sector, o: nat, v: nat): Sector
    requires o + g.W() <= 512
  {
    if g.fat32 then Wr32(s, o, v % 0x1000_0000 + Rd32(s, o) / 0x1000_0000 * 0x1000_0000) else Wr16(s, o, v)
  }

  /** What fat_entry_read answers for any 32-bit cluster number, in the table or not. */
  function FatGet(g: Geo, d: Disk, c: nat): nat {
    var off := Wrap(c * g.W());
    var lba := Wrap(g.reserved + off / 512);
    if lba < |d| && off % 512 + g.W() <= 512 then Rd(g, d[lba], off % 512) else UNKNOWN
  }

  function Table(g: Geo, d: Disk): (t: seq<nat>)
    ensures |t| == g.Limit()
  {
    seq(g.Limit(), (c: nat) => FatGet(g, d, c))
  }

  function TopAt(g: Geo, d: Disk, c: nat): nat {
    var lba := g.reserved + c / g.Per();
    if lba < |d| then Top(g, d[lba], c % g.Per() * g.W()) else 0
  }

  /** The top four bits of every entry in the first copy. */
  function TopBits(g: Geo, d: Disk): (t: seq<nat>)
    ensures |t| == g.Limit()
  {
    seq(g.Limit(), (c: nat) => TopAt(g, d, c))
  }

  /** What no write ever changes: the top four bits of every entry in the first
      copy, and the boot sector. */
  datatype Stays = Stays(tops: seq<nat>, boot: Sector)

  function StaysOf(g: Geo, d: Disk): Stays {
    Stays(TopBits(g, d), if |d| > 0 then d[0] else ZeroSector())
  }

  lemma TableAt(g: Geo, d: Disk, c: nat)
    requires c < g.Limit()
    ensures Table(g, d)[c] == FatGet(g, d, c)
  {
  }

  /** No entry straddles two FAT sectors, whatever the cluster number. */
  lemma EntryFits(g: Geo, c: nat)
    ensures Wrap(c * g.W()) % 512 + g.W() <= 512
  {
    var x := c * g.W();
    assert x == Wrap(x) + x / U32 * U32;
    assert Wrap(x) % g.W() == 0;
  }

  lemma EntryAt(g: Geo, d: Disk, c: nat)
    requires GeoOk(g) && Fits(g, d) && c < g.Limit()
    ensures g.reserved + c / g.Per() < g.RootStart() <= |d|
    ensures FatGet(g, d, c) == Rd(g, d[g.reserved + c / g.Per()], c % g.Per() * g.W())
    ensures FatGet(g, d, c) < g.Modulus()
  {
    hide *;
    EntryPlace(g, c);
    CopiesExist(g);
    CopyInside(g, 0, c / g.Per());
    FitsRoot(g, d);
    WrapOver(g, c);
    FatGetIs(g, d, c);
    EntryBound(g, d[g.reserved + c / g.Per()], c % g.Per() * g.W());
  }

  lemma FitsRoot(g: Geo, d: Disk)
    requires Fits(g, d)
    ensures g.RootStart() <= |d|
  {
    NonNeg(g.total, g.spc);
  }

  lemma WrapOver(g: Geo, c: nat)
    requires Wrap(c * g.W()) == c * g.W()
    ensures c % g.Per() * g.W() + g.W() <= 512
  {
  }

  lemma FatGetIs(g: Geo, d: Disk, c: nat)
    requires var off := Wrap(c * g.W());
             && Wrap(g.reserved + off / 512) == g.reserved + c / g.Per() < |d| && off % 512 == c % g.Per() * g.W()
    requires c % g.Per() * g.W() + g.W() <= 512
    ensures FatGet(g, d, c) == Rd(g, d[g.reserved + c / g.Per()], c % g.Per() * g.W())
  {
    hide Rd;
    hide Wrap;
  }

  lemma EntryBound(g: Geo, s: Sector, o: nat)
    requires o + g.W() <= 512
    ensures Rd(g, s, o) < g.Modulus()
  {
    hide Rd32;
  }

  /** A 32-bit word put together from 28 low and 4 high bits. */
  lemma Nibble(low: nat, top: nat)
    requires low < 0x1000_0000 && top < 16
    ensures var w := low + top * 0x1000_0000; w < U32 && w % 0x1000_0000 == low && w / 0x1000_0000 == top
  {
  }

  lemma PutSelf(g: Geo, s: Sector, o: nat, v: nat)
    requires o + g.W() <= 512
    ensures Rd(g, Put(g, s, o, v), o) == v % g.Modulus() && Top(g, Put(g, s, o, v), o) == Top(g, s, o)
  {
    hide Rd32;
    hide Wr32;
    hide Rd16;
    hide Wr16;
    if g.fat32 {
      var low, top: nat := v % 0x1000_0000, Rd32(s, o) / 0x1000_0000;
      Nibble(low, top);
      RdWr32(s, o, low + top * 0x1000_0000);
    } else {
      StoredLow(s, o, v);
    }
  }

  lemma StoredLow(s: Sector, o: nat, v: nat)
    requires o + 2 <= 512
    ensures Rd16(Wr16(s, o, v), o) == v % 0x1_0000
  {
  }

  lemma PutOther(g: Geo, s: Sector, o: nat, v: nat, p: nat)
    requires o + g.W() <= 512 && p + g.W() <= 512 && (o + g.W() <= p || p + g.W() <= o)
    ensures Rd(g, Put(g, s, o, v), p) == Rd(g, s, p) && Top(g, Put(g, s, o, v), p) == Top(g, s, p)
  {
    var t := Put(g, s, o, v);
    assert t[p] == s[p] && t[p + 1] == s[p + 1];
    if g.fat32 { assert t[p + 2] == s[p + 2] && t[p + 3] == s[p + 3]; }
    hide Put;
  }

  lemma PutGet(g: Geo, s: Sector, o: nat, v: nat, p: nat)
    requires o + g.W() <= 512 && p + g.W() <= 512
    requires o == p || o + g.W() <= p || p + g.W() <= o
    ensures Rd(g, Put(g, s, o, v), p) == if p == o then v % g.Modulus() else Rd(g, s, p)
    ensures Top(g, Put(g, s, o, v), p) == Top(g, s, p)
  {
    hide Rd;
    hide Top;
    hide Put;
    if p == o { PutSelf(g, s, o, v); } else { PutOther(g, s, o, v, p); }
  }

  /** Replacing one row of the first copy changes just the entries of that row. */
  lemma RowWritten(g: Geo, d: Disk, row: nat, s: Sector, c: nat)
    requires GeoOk(g) && Fits(g, d) && row < g.fatSectors && c < g.Limit()
    ensures g.reserved + row < |d|
    ensures FatGet(g, d[g.reserved + row := s], c) ==
            if c / g.Per() == row then Rd(g, s, c % g.Per() * g.W()) else FatGet(g, d, c)
    ensures TopAt(g, d[g.reserved + row := s], c) ==
            if c / g.Per() == row then Top(g, s, c % g.Per() * g.W()) else TopAt(g, d, c)
  {
    CopyInside(g, 0, row);
    EntryAt(g, d, c);
    EntryAt(g, d[g.reserved + row := s], c);
  }

  lemma SameRow(g: Geo, b: nat, c: nat)
    requires b / g.Per() == c / g.Per() && b != c
    ensures b % g.Per() * g.W() + g.W() <= c % g.Per() * g.W() || c % g.Per() * g.W() + g.W() <= b % g.Per() * g.W()
  {
  }

  lemma EntryWrittenAt(g: Geo, d: Disk, c: nat, v: nat, lba: nat, o: nat, s: Sector, b: nat)
    requires GeoOk(g) && Fits(g, d) && InTable(g, c) && b < g.Limit()
    requires lba == g.reserved + c / g.Per() < |d| && o == c % g.Per() * g.W()
    requires o + g.W() <= 512 && s == Put(g, d[lba], o, v)
    ensures FatGet(g, d[lba := s], b) == if b == c then v % g.Modulus() else FatGet(g, d, b)
    ensures TopAt(g, d[lba := s], b) == TopAt(g, d, b)
  {
    EntryPlace(g, c);
    RowWritten(g, d, c / g.Per(), s, b);
    EntryAt(g, d, b);
    if b / g.Per() == c / g.Per() {
      if b != c { SameRow(g, b, c); }
      PutGet(g, d[lba], o, v, b % g.Per() * g.W());
    }
  }

  /** Storing one entry changes just that entry, and no top bits. */
  lemma EntryWritten(g: Geo, d: Disk, c: nat, v: nat)
    requires GeoOk(g) && Fits(g, d) && InTable(g, c)
    ensures g.reserved + c / g.Per() < |d| && c % g.Per() * g.W() + g.W() <= 512
    ensures var lba, o := g.reserved + c / g.Per(), c % g.Per() * g.W();
            && Table(g, d[lba := Put(g, d[lba], o, v)]) == Table(g, d)[c := v % g.Modulus()]
            && StaysOf(g, d[lba := Put(g, d[lba], o, v)]) == StaysOf(g, d)
  {
    EntryAt(g, d, c);
    EntryFits(g, c);
    EntryPlace(g, c);
    var lba, o := g.reserved + c / g.Per(), c % g.Per() * g.W();
    var s := Put(g, d[lba], o, v);
    hide *;
    forall b: nat | b < g.Limit()
      ensures FatGet(g, d[lba := s], b) == if b == c then v % g.Modulus() else FatGet(g, d, b)
      ensures TopAt(g, d[lba := s], b) == TopAt(g, d, b)
    {
      EntryWrittenAt(g, d, c, v, lba, o, s, b);
    }
    EntriesWritten(g, d, d[lba := s], c, v);
  }

  lemma EntriesWritten(g: Geo, d: Disk, d1: Disk, c: nat, v: nat)
    requires c < g.Limit() && 0 < |d| == |d1| && d1[0] == d[0]
    requires forall b: nat | b < g.Limit() :: FatGet(g, d1, b) == if b == c then v % g.Modulus() else FatGet(g, d, b)
    requires forall b: nat | b < g.Limit() :: TopAt(g, d1, b) == TopAt(g, d, b)
    ensures Table(g, d1) == Table(g, d)[c := v % g.Modulus()] && StaysOf(g, d1) == StaysOf(g, d)
  {
    hide FatGet;
    hide TopAt;
    hide Geo.Modulus;
  }

  /** A write outside the first copy leaves every entry alone. */
  lemma OutsideFirstCopy(g: Geo, d: Disk, l: nat, s: Sector)
    requires GeoOk(g) && Fits(g, d) && 1 <= l < |d|
    requires l < g.reserved || g.reserved + g.fatSectors <= l
    ensures Table(g, d[l := s]) == Table(g, d) && StaysOf(g, d[l := s]) == StaysOf(g, d)
    ensures forall c: nat | c < g.Limit() :: FatGet(g, d[l := s], c) == FatGet(g, d, c)
  {
    forall c: nat | c < g.Limit()
      ensures FatGet(g, d[l := s], c) == FatGet(g, d, c) && TopAt(g, d[l := s], c) == TopAt(g, d, c)
    {
      EntryPlace(g, c);
      EntryAt(g, d, c);
      EntryAt(g, d[l := s], c);
    }
  }

  /** The clusters an allocation may still take. */
  function Free(t: seq<nat>): set<nat> {
    set c | 2 <= c < |t| && t[c] == 0
  }

  // ----- the other copies

  ghost predicate RowAgrees(g: Geo, d: Disk, row: nat) {
    forall f: nat | f < g.nfats && g.CopyLba(f, row) < |d| && g.CopyLba(0, row) < |d| ::
      d[g.CopyLba(f, row)] == d[g.CopyLba(0, row)]
  }

  /** All FAT copies are equal on every row that holds a real cluster. */
  ghost predicate Mirrored(g: Geo, d: Disk) {
    forall row: nat | row < g.Rows() :: RowAgrees(g, d, row)
  }

  /** ... on every row but at most this one. */
  ghost predicate MirroredBut(g: Geo, d: Disk, r: nat) {
    forall row: nat | row < g.Rows() && row != r :: RowAgrees(g, d, row)
  }

  ghost predicate OneRowOff(g: Geo, d: Disk) {
    exists r: nat :: MirroredBut(g, d, r)
  }

  // ----- FSInfo

  /** fsinfo_lba names a reserved sector holding both FSInfo signatures. */
  predicate FsPresent(g: Geo, d: Disk) {
    && g.fat32 && 1 <= g.fsinfoLba < g.reserved && g.fsinfoLba < |d|
    && Rd32(d[g.fsinfoLba], 0) == 0x4161_5252 && Rd32(d[g.fsinfoLba], 484) == 0x6141_7272
  }

  /** The free count is unknown or the exact number of zero entries. */
  ghost predicate FsHonest(g: Geo, d: Disk) {
    FsPresent(g, d) ==>
      Rd32(d[g.fsinfoLba], 488) == UNKNOWN || Rd32(d[g.fsinfoLba], 488) == |Free(Table(g, d))|
  }

  ghost predicate FsUnknown(g: Geo, d: Disk) {
    FsPresent(g, d) ==> Rd32(d[g.fsinfoLba], 488) == UNKNOWN
  }
}
