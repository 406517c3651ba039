/** Little-endian numbers in byte sequences, and the 512-byte sectors the block
    device deals in.  The C code's unsigned arithmetic is written out with Wrap. */
module Bytes {
  type byte = x: int | 0 <= x < 256

  type Sector = s: seq<byte> | |s| == 512 witness seq(512, i => 0)

  type Disk = seq<Sector>

  const U32: int := 0x1_0000_0000
  const UNKNOWN: int := 0xFFFF_FFFF
  function ZeroSector(): Sector { seq(512, i => 0) }

  /** A value as a 32-bit unsigned variable holds it. */
  function Wrap(x: int): nat { x % U32 }

  function Rd16(s: seq<byte>, o: nat): (r: nat)
    requires o + 2 <= |s|
    ensures r < 0x1_0000
  {
    var lo: int, hi: int := s[o], s[o + 1];
    lo + 0x100 * hi
  }

  function Rd32(s: seq<byte>, o: nat): (r: nat)
    requires o + 4 <= |s|
    ensures r < U32
  {
    Rd16(s, o) + 0x1_0000 * Rd16(s, o + 2)
  }

  /** Byte i of v, the lowest first: (u8)(v >> (8 * i)). */
  function ByteOf(v: nat, i: nat): byte
    requires i < 4
  {
    (if i == 0 then v else if i == 1 then v / 0x100 else if i == 2 then v / 0x1_0000 else v / 0x100_0000) % 0x100
  }

  function Wr16(s: seq<byte>, o: nat, v: nat): (r: seq<byte>)
    requires o + 2 <= |s|
    ensures |r| == |s|
  {
    s[o := ByteOf(v, 0)][o + 1 := ByteOf(v, 1)]
  }

  function Wr32(s: seq<byte>, o: nat, v: nat): (r: seq<byte>)
    requires o + 4 <= |s|
    ensures |r| == |s|
  {
    s[o := ByteOf(v, 0)][o + 1 := ByteOf(v, 1)][o + 2 := ByteOf(v, 2)][o + 3 := ByteOf(v, 3)]
  }

  /** Numbers of two and four bytes, the lowest first. */
  lemma Words(s: seq<byte>, o: nat)
    requires o + 4 <= |s|
    ensures Rd16(s, o) == (s[o] as int) + 0x100 * (s[o + 1] as int)
    ensures Rd32(s, o) == (s[o] as int) + 0x100 * (s[o + 1] as int) + 0x1_0000 * (s[o + 2] as int)
                          + 0x100_0000 * (s[o + 3] as int)
  {
  }

  /** The two bytes of the low half of a word, and of the high half. */
  lemma HalfWord(v: nat)
    ensures var lo: int, hi: int := ByteOf(v, 0), ByteOf(v, 1); lo + 0x100 * hi == v % 0x1_0000
  {
  }

  lemma HighHalf(v: nat)
    ensures ByteOf(v, 2) == ByteOf(v / 0x1_0000, 0) && ByteOf(v, 3) == ByteOf(v / 0x1_0000, 1)
    ensures v < U32 ==> v / 0x1_0000 % 0x1_0000 == v / 0x1_0000
    ensures v == v % 0x1_0000 + 0x1_0000 * (v / 0x1_0000)
  {
  }

  lemma RdWr32(s: seq<byte>, o: nat, v: nat)
    requires o + 4 <= |s| && v < U32
    ensures Rd32(Wr32(s, o, v), o) == v
  {
    hide ByteOf;
    var r := Wr32(s, o, v);
    assert r[o] == ByteOf(v, 0) && r[o + 1] == ByteOf(v, 1) && r[o + 2] == ByteOf(v, 2) && r[o + 3] == ByteOf(v, 3);
    hide Wr32;
    HalfWord(v);
    HighHalf(v);
    HalfWord(v / 0x1_0000);
  }

  /** The loop fat_entry_write stores an entry with: w bytes, the lowest first. */
  method Store(s: Sector, o: nat, v: nat, w: nat) returns (r: Sector)
    requires w == 2 || w == 4
    requires o + w <= 512
    ensures r == if w == 2 then Wr16(s, o, v) else Wr32(s, o, v)
  {
    r := s;
    var i := 0;
    while i < w
      invariant 0 <= i <= w
      invariant forall j :: 0 <= j < 512 ==> r[j] == if o <= j < o + i then ByteOf(v, j - o) else s[j]
    {
      r := r[o + i := ByteOf(v, i)];
      i := i + 1;
    }
    assert r == if w == 2 then Wr16(s, o, v) else Wr32(s, o, v);
  }
}
