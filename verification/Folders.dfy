/** Folder entries and file bytes in the sectors of a chain: decoding, encoding,
    8.3 names, and the searches the driver makes through a folder. */
module Folders {
  import opened Bytes

  type Name = n: seq<byte> | |n| == 11 witness seq(11, i => 32)

  /** A C string: no byte of it is zero. */
  type CString = s: seq<byte> | forall i | 0 <= i < |s| :: s[i] != 0 witness []

  datatype Ent = Ent(name: Name, attr: byte, cluster: nat, size: nat)

  const END: byte := 0x00
  const DELETED: byte := 0xE5
  const DOTCHAR: byte := 0x2E
  const SPACE: byte := 0x20
  const ATTR_DIR: byte := 0x10
  const DOT: Name := [46, 32, 32, 32, 32, 32, 32, 32, 32, 32, 32]
  const DOTDOT: Name := [46, 46, 32, 32, 32, 32, 32, 32, 32, 32, 32]
  /** The entry an untouched, zero-filled slot decodes to. */
  const BLANK: Ent := Ent([0, 0, 0, 0, 0, 0, 0, 0, 0, 0, 0], 0, 0, 0)

  predicate IsVolumeId(e: Ent) { e.attr / 8 % 2 == 1 }
  predicate IsDir(e: Ent) { e.attr / 16 % 2 == 1 }
  predicate IsFree(e: Ent) { e.name[0] == END || e.name[0] == DELETED }
  predicate IsDot(n: Name) { n == DOT || n == DOTDOT }
  predicate Live(e: Ent) { !IsFree(e) && !IsVolumeId(e) }
  /** A live entry that leads to something of its own: not "." or "..". */
  predicate Child(e: Ent) { Live(e) && !IsDot(e.name) }

  function DecodeBytes(f32: bool, b: seq<byte>): Ent
    requires |b| == 32
  {
    Ent(b[..11], b[11], Rd16(b, 26) + (if f32 then 0x1_0000 * Rd16(b, 20) else 0), Rd32(b, 28))
  }

  /** Entry i of a folder sector. */
  function Decode(f32: bool, s: Sector, i: nat): Ent
    requires i < 16
  {
    DecodeBytes(f32, s[32 * i..32 * i + 32])
  }

  /** The 32 bytes write_file and fat_mkdir store for an entry. */
  function EntBytes(f32: bool, name: Name, attr: byte, cluster: nat, size: nat): (r: seq<byte>)
    ensures |r| == 32
  {
    var hi: nat := if f32 then cluster / 0x1_0000 else 0;
    name + [attr] + [0, 0, 0, 0, 0, 0, 0, 0] + [ByteOf(hi, 0), ByteOf(hi, 1)] + [0, 0, 0, 0]
    + [ByteOf(cluster, 0), ByteOf(cluster, 1)]
    + [ByteOf(size, 0), ByteOf(size, 1), ByteOf(size, 2), ByteOf(size, 3)]
  }

  function PutEnt(s: Sector, i: nat, e: seq<byte>): Sector
    requires i < 16 && |e| == 32
  {
    s[..32 * i] + e + s[32 * i + 32..]
  }

  /** Where the fields of an entry are. */
  lemma EntFields(f32: bool, name: Name, attr: byte, cluster: nat, size: nat)
    ensures var b, hi := EntBytes(f32, name, attr, cluster, size), if f32 then cluster / 0x1_0000 else 0;
            && b[..11] == name && b[11] == attr && b[20] == ByteOf(hi, 0) && b[21] == ByteOf(hi, 1)
            && b[26] == ByteOf(cluster, 0) && b[27] == ByteOf(cluster, 1)
            && Wr32(b, 28, size) == b
  {
    hide ByteOf;
    var b := EntBytes(f32, name, attr, cluster, size);
    assert b[..11] == name;
  }

  lemma Halves(v: nat)
    ensures v < U32 ==> v / 0x1_0000 % 0x1_0000 == v / 0x1_0000
    ensures v == v % 0x1_0000 + 0x1_0000 * (v / 0x1_0000) && (v < 0x1_0000 ==> v % 0x1_0000 == v)
  {
  }

  lemma DecodeEncoded(f32: bool, name: Name, attr: byte, cluster: nat, size: nat)
    requires size < U32 && cluster < if f32 then U32 else 0x1_0000
    ensures DecodeBytes(f32, EntBytes(f32, name, attr, cluster, size)) == Ent(name, attr, cluster, size)
  {
    hide EntBytes;
    hide ByteOf;
    hide Rd32;
    hide Wr32;
    EntFields(f32, name, attr, cluster, size);
    HalfWord(cluster);
    HalfWord(cluster / 0x1_0000);
    Halves(cluster);
    var b := EntBytes(f32, name, attr, cluster, size);
    assert Rd16(b, 26) == cluster % 0x1_0000;
    assert f32 ==> Rd16(b, 20) == cluster / 0x1_0000 % 0x1_0000;
    hide Rd16;
    RdWr32(EntBytes(f32, name, attr, cluster, size), 28, size);
  }

  lemma DecodePut(f32: bool, s: Sector, i: nat, e: seq<byte>, j: nat)
    requires i < 16 && j < 16 && |e| == 32
    ensures Decode(f32, PutEnt(s, i, e), j) == if j == i then DecodeBytes(f32, e) else Decode(f32, s, j)
  {
    var t := PutEnt(s, i, e);
    if j == i {
      assert t[32 * j..32 * j + 32] == e;
    } else {
      assert t[32 * j..32 * j + 32] == s[32 * j..32 * j + 32];
    }
  }

  lemma DecodeDeleted(f32: bool, s: Sector, i: nat, j: nat)
    requires i < 16 && j < 16
    ensures Decode(f32, s[32 * i := DELETED], j) ==
            var e := Decode(f32, s, j); if j == i then e.(name := e.name[0 := DELETED]) else e
  {
    var t: Sector, b := s[32 * i := DELETED], s[32 * j..32 * j + 32];
    if j == i {
      assert t[32 * j..32 * j + 32] == b[0 := DELETED];
      assert b[0 := DELETED][..11] == b[..11][0 := DELETED];
    } else {
      assert t[32 * j..32 * j + 32] == b;
    }
  }

  lemma DecodeBlank(f32: bool, i: nat)
    requires i < 16
    ensures Decode(f32, ZeroSector(), i) == BLANK
  {
    var b := ZeroSector()[32 * i..32 * i + 32];
    assert forall k | 0 <= k < 32 :: b[k] == 0;
    assert b[..11] == BLANK.name;
  }

  /** All the slots of a folder whose sectors are body. */
  function Slots(f32: bool, body: seq<Sector>): (r: seq<Ent>)
    ensures |r| == 16 * |body|
  {
    seq(16 * |body|, (k: nat) requires k < 16 * |body| => Decode(f32, body[k / 16], k % 16))
  }

  lemma SlotWritten(f32: bool, body: seq<Sector>, q: nat, i: nat, s: Sector, e: Ent)
    requires q < |body| && i < 16
    requires forall j: nat | j < 16 :: Decode(f32, s, j) == if j == i then e else Decode(f32, body[q], j)
    ensures Slots(f32, body[q := s]) == Slots(f32, body)[16 * q + i := e]
  {
    var a, b := Slots(f32, body[q := s]), Slots(f32, body)[16 * q + i := e];
    forall k | 0 <= k < |a|
      ensures a[k] == b[k]
    {
      assert k == 16 * (k / 16) + k % 16;
    }
  }

  function Least(a: nat, b: nat): nat { if a <= b then a else b }

  /** The first size bytes of the sectors of a file. */
  function FileBytes(body: seq<Sector>, size: nat): (r: seq<byte>)
    ensures |r| == Least(size, 512 * |body|)
  {
    seq(Least(size, 512 * |body|), (i: nat) requires i < 512 * |body| => body[i / 512][i % 512])
  }

  // ----- 8.3 names

  function Upper(b: byte): byte { if 97 <= b <= 122 then b - 32 else b }

  function FirstDot(s: seq<byte>): (r: nat)
    ensures r <= |s| && (forall i | 0 <= i < r :: s[i] != DOTCHAR) && (r < |s| ==> s[r] == DOTCHAR)
  {
    if |s| == 0 || s[0] == DOTCHAR then 0 else 1 + FirstDot(s[1..])
  }

  /** s in upper case, cut or padded with spaces to n bytes. */
  function Field(s: seq<byte>, n: nat): (r: seq<byte>)
    ensures |r| == n
  {
    seq(n, (i: nat) => if i < |s| then Upper(s[i]) else SPACE)
  }

  /** The 11 bytes an 8.3 name is stored as: what comes before the first dot
      and what comes after it, each cut and padded to its own field. */
  function FatName(s: CString): Name {
    var dot := FirstDot(s);
    Field(s[..dot], 8) + Field(if dot < |s| then s[dot + 1..] else [], 3)
  }

  lemma FirstDotAt(s: seq<byte>, i: nat)
    requires i <= |s| && forall j | 0 <= j < i :: s[j] != DOTCHAR
    requires i == |s| || s[i] == DOTCHAR
    ensures FirstDot(s) == i
  {
    assert FirstDot(s) >= i;
  }

  /** to_fat_name. */
  method ToFatName(s: CString) returns (out: Name)
    ensures out == FatName(s)
  {
    out := seq(11, i => SPACE);
    var i, j := 0, 0;
    while i < |s| && s[i] != DOTCHAR && j < 8
      invariant i == j <= 8 && i <= |s|
      invariant forall k | 0 <= k < i :: s[k] != DOTCHAR
      invariant forall k | 0 <= k < 11 :: out[k] == if k < i then Upper(s[k]) else SPACE
    {
      out := out[j := Upper(s[i])];
      i, j := i + 1, j + 1;
    }
    while i < |s| && s[i] != DOTCHAR
      invariant j <= i <= |s| && (j < 8 ==> i == j)
      invariant j < 8 ==> i == |s| || s[i] == DOTCHAR
      invariant forall k | 0 <= k < i :: s[k] != DOTCHAR
    {
      i := i + 1;
    }
    FirstDotAt(s, i);
    assert forall n | 0 <= n < 8 :: out[n] == Field(s[..i], 8)[n];
    ghost var dot := i;
    if i < |s| && s[i] == DOTCHAR {
      out := ExtensionInto(s, i + 1, out);
    }
    assert out[..8] == Field(s[..dot], 8);
    assert out[8..] == Field(if dot < |s| then s[dot + 1..] else [], 3);
    assert out == out[..8] + out[8..];
  }

  /** The tail of to_fat_name: what follows the dot goes to the last three bytes. */
  method ExtensionInto(s: CString, start: nat, base: Name) returns (out: Name)
    requires start <= |s| && forall n | 8 <= n < 11 :: base[n] == SPACE
    ensures out == base[..8] + Field(s[start..], 3)
  {
    out := base;
    var i, k := start, 8;
    while i < |s| && k < 11
      invariant 8 <= k <= 11 && i == start + (k - 8) <= |s|
      invariant forall n | 0 <= n < 11 ::
        out[n] == if 8 <= n < k then Upper(s[start + (n - 8)]) else base[n]
    {
      out := out[k := Upper(s[i])];
      i, k := i + 1, k + 1;
    }
    assert forall n | 0 <= n < 3 :: out[8 + n] == Field(s[start..], 3)[n];
  }

  /** No name a caller can spell starts with the end marker or a dot. */
  lemma FatNameFirst(s: CString)
    ensures FatName(s)[0] != END && FatName(s)[0] != DOTCHAR && !IsDot(FatName(s))
    ensures FatName(s)[0] == DELETED <==> |s| > 0 && s[0] == DELETED
  {
    var dot := FirstDot(s);
    if |s| > 0 && dot > 0 { assert FatName(s)[0] == Upper(s[0]); }
  }

  /** The 11 bytes of the stored name, one by one: dot is where s has its first
      dot, or its end.  Lower-case letters become their upper-case ones. */
  lemma StoredName(s: CString, dot: nat)
    requires dot <= |s| && (forall i | 0 <= i < dot :: s[i] != 0x2E) && (dot < |s| ==> s[dot] == 0x2E)
    ensures forall k | 0 <= k < 11 ::
              var i := if k < 8 then k else dot + 1 + (k - 8);
              FatName(s)[k] == if i < (if k < 8 then dot else |s|)
                               then (if 97 <= s[i] <= 122 then s[i] - 32 else s[i]) else 0x20
  {
    FirstDotAt(s, dot);
  }

  lemma DeletedMark()
    ensures DELETED == 0xE5
  {
  }

  // ----- searches

  predicate Matches(e: Ent, want: Name, filesOnly: bool) {
    Live(e) && !(filesOnly && IsDir(e)) && e.name == want
  }

  /** The first matching slot at or after i, before the end marker, else |s|. */
  function FindFrom(s: seq<Ent>, want: Name, filesOnly: bool, i: nat): (r: nat)
    requires i <= |s|
    ensures r <= |s|
    decreases |s| - i
  {
    if i == |s| || s[i].name[0] == END then |s|
    else if Matches(s[i], want, filesOnly) then i
    else FindFrom(s, want, filesOnly, i + 1)
  }

  function Find(s: seq<Ent>, want: Name): (r: nat)
    ensures r <= |s|
  {
    FindFrom(s, want, false, 0)
  }

  /** The first slot at or after i that is deleted or never used, else |s|. */
  function FreeFrom(s: seq<Ent>, i: nat): (r: nat)
    requires i <= |s|
    ensures i <= r <= |s| && (r < |s| ==> IsFree(s[r])) && (forall j | i <= j < r :: !IsFree(s[j]))
    decreases |s| - i
  {
    if i == |s| || IsFree(s[i]) then i else FreeFrom(s, i + 1)
  }

  /** The first slot at or after i named "..", whatever comes before it. */
  function DotDotFrom(s: seq<Ent>, i: nat): (r: nat)
    requires i <= |s|
    ensures i <= r <= |s| && (r < |s| ==> s[r].name == DOTDOT) && (forall j | i <= j < r :: s[j].name != DOTDOT)
    decreases |s| - i
  {
    if i == |s| || s[i].name == DOTDOT then i else DotDotFrom(s, i + 1)
  }

  /** Every slot after the first end marker is an end marker too. */
  ghost predicate Ended(s: seq<Ent>) {
    forall i, j | 0 <= i < j < |s| && s[i].name[0] == END :: s[j].name[0] == END
  }

  ghost predicate UniqueNames(s: seq<Ent>) {
    forall i, j | 0 <= i < j < |s| && Live(s[i]) && Live(s[j]) :: s[i].name != s[j].name
  }

  lemma {:induction false} FindFromSpec(s: seq<Ent>, want: Name, filesOnly: bool, i: nat)
    requires i <= |s| && Ended(s)
    ensures var r := FindFrom(s, want, filesOnly, i);
            && (r < |s| ==> i <= r && Matches(s[r], want, filesOnly))
            && (r == |s| ==> forall j | i <= j < |s| :: !Matches(s[j], want, filesOnly))
    decreases |s| - i
  {
    if i == |s| || s[i].name[0] == END {
    } else if !Matches(s[i], want, filesOnly) {
      FindFromSpec(s, want, filesOnly, i + 1);
    }
  }

  /** In a folder that keeps the discipline, a search finds the one live entry
      of that name, and misses only when there is none. */
  lemma FindUnique(s: seq<Ent>, want: Name, filesOnly: bool, k: nat)
    requires Ended(s) && UniqueNames(s) && k < |s| && Matches(s[k], want, filesOnly)
    ensures FindFrom(s, want, filesOnly, 0) == k
  {
    FindFromSpec(s, want, filesOnly, 0);
  }

  /** A slot a search goes past: in use or deleted, and not what it wants. */
  predicate Passed(e: Ent, want: Name, filesOnly: bool) {
    e.name[0] != END && !Matches(e, want, filesOnly)
  }

  lemma {:induction false} FindPast(s: seq<Ent>, want: Name, filesOnly: bool, a: nat, b: nat)
    requires a <= b <= |s| && forall j | a <= j < b :: Passed(s[j], want, filesOnly)
    ensures FindFrom(s, want, filesOnly, a) == FindFrom(s, want, filesOnly, b)
    decreases b - a
  {
    if a < b { FindPast(s, want, filesOnly, a + 1, b); }
  }

  lemma FindHere(s: seq<Ent>, want: Name, filesOnly: bool, a: nat)
    requires a <= |s|
    ensures a < |s| && Matches(s[a], want, filesOnly) ==> FindFrom(s, want, filesOnly, a) == a
    ensures a == |s| || s[a].name[0] == END ==> FindFrom(s, want, filesOnly, a) == |s|
  {
  }

  lemma FreeUnique(s: seq<Ent>, k: nat)
    requires k <= |s| && (forall j | 0 <= j < k :: !IsFree(s[j])) && (k < |s| ==> IsFree(s[k]))
    ensures FreeFrom(s, 0) == k
  {
    var r := FreeFrom(s, 0);
  }

  /** One sector's part of a folder search: hit with the entry, end at an end
      marker, or neither after all sixteen. */
  method SearchSector(f32: bool, sec: Sector, want: Name, filesOnly: bool) returns (hit: bool, end: bool, i: nat)
    ensures !(hit && end) && i <= 16 && (hit || end ==> i < 16) && (!hit && !end ==> i == 16)
    ensures hit ==> Matches(Decode(f32, sec, i), want, filesOnly)
    ensures end ==> Decode(f32, sec, i).name[0] == END
    ensures forall j: nat | j < i :: Passed(Decode(f32, sec, j), want, filesOnly)
  {
    hit, end, i := false, false, 0;
    while i < 16
      invariant i <= 16 && !hit && !end
      invariant forall j: nat | j < i :: Passed(Decode(f32, sec, j), want, filesOnly)
    {
      var e := Decode(f32, sec, i);
      if e.name[0] == END { end := true; return; }
      if e.name[0] != DELETED && !IsVolumeId(e) && !(filesOnly && IsDir(e)) && e.name == want { hit := true; return; }
      i := i + 1;
    }
  }

  /** One sector's part of the search for a free slot. */
  method FreeInSector(f32: bool, sec: Sector) returns (hit: bool, i: nat)
    ensures i <= 16 && (hit ==> i < 16 && IsFree(Decode(f32, sec, i))) && (!hit ==> i == 16)
    ensures forall j: nat | j < i :: !IsFree(Decode(f32, sec, j))
  {
    hit, i := false, 0;
    while i < 16
      invariant i <= 16 && !hit
      invariant forall j: nat | j < i :: !IsFree(Decode(f32, sec, j))
    {
      var e := Decode(f32, sec, i);
      if e.name[0] == END || e.name[0] == DELETED { hit := true; return; }
      i := i + 1;
    }
  }

  lemma PassedSector(f32: bool, s: seq<Ent>, sec: Sector, q: nat, n: nat, want: Name, filesOnly: bool)
    requires n <= 16 && 16 * q + 16 <= |s| && forall i: nat | i < 16 :: s[16 * q + i] == Decode(f32, sec, i)
    requires forall j: nat | j < n :: Passed(Decode(f32, sec, j), want, filesOnly)
    ensures forall j | 16 * q <= j < 16 * q + n :: Passed(s[j], want, filesOnly)
  {
    hide Passed;
    hide Decode;
    forall j | 16 * q <= j < 16 * q + n
      ensures Passed(s[j], want, filesOnly)
    {
      assert s[16 * q + (j - 16 * q)] == Decode(f32, sec, j - 16 * q);
    }
  }

  /** A search that has gone past sector q up to entry i of it. */
  lemma FindInSector(f32: bool, s: seq<Ent>, sec: Sector, q: nat, i: nat, want: Name, filesOnly: bool)
    requires i <= 16 && 16 * q + 16 <= |s| && forall i: nat | i < 16 :: s[16 * q + i] == Decode(f32, sec, i)
    requires forall j: nat | j < i :: Passed(Decode(f32, sec, j), want, filesOnly)
    ensures FindFrom(s, want, filesOnly, 16 * q) == FindFrom(s, want, filesOnly, 16 * q + i)
    ensures i < 16 && Matches(Decode(f32, sec, i), want, filesOnly) ==>
            FindFrom(s, want, filesOnly, 16 * q) == 16 * q + i
    ensures i < 16 && Decode(f32, sec, i).name[0] == END ==> FindFrom(s, want, filesOnly, 16 * q) == |s|
  {
    hide Passed;
    hide Decode;
    hide Matches;
    hide FindFrom;
    PassedSector(f32, s, sec, q, i, want, filesOnly);
    FindPast(s, want, filesOnly, 16 * q, 16 * q + i);
    FindHere(s, want, filesOnly, 16 * q + i);
  }

  lemma UsedSector(f32: bool, s: seq<Ent>, sec: Sector, q: nat, n: nat)
    requires n <= 16 && 16 * q + 16 <= |s| && forall i: nat | i < 16 :: s[16 * q + i] == Decode(f32, sec, i)
    requires (forall j: nat | j < n :: !IsFree(Decode(f32, sec, j))) && forall j | 0 <= j < 16 * q :: !IsFree(s[j])
    ensures forall j | 0 <= j < 16 * q + n :: !IsFree(s[j])
  {
    hide IsFree;
    hide Decode;
    forall j | 16 * q <= j < 16 * q + n
      ensures !IsFree(s[j])
    {
      assert s[16 * q + (j - 16 * q)] == Decode(f32, sec, j - 16 * q);
    }
  }

  /** A slot fat_rmdir goes past: deleted, or with a name that starts with a dot. */
  predicate DotOrDeleted(e: Ent) { e.name[0] == DELETED || e.name[0] == DOTCHAR }

  /** Nothing but end marks, deleted entries and dot names. */
  predicate OnlyDots(s: seq<Ent>) {
    forall j | 0 <= j < |s| :: s[j].name[0] == END || DotOrDeleted(s[j])
  }

  /** One sector's part of fat_rmdir's check: end at an end marker, full at an
      entry that keeps the folder, or neither. */
  method DotsInSector(f32: bool, sec: Sector) returns (end: bool, full: bool, i: nat)
    ensures !(end && full) && i <= 16 && (end || full ==> i < 16) && (!end && !full ==> i == 16)
    ensures end ==> Decode(f32, sec, i).name[0] == END
    ensures full ==> Decode(f32, sec, i).name[0] != END && !DotOrDeleted(Decode(f32, sec, i))
    ensures forall j: nat | j < i :: DotOrDeleted(Decode(f32, sec, j))
  {
    end, full, i := false, false, 0;
    while i < 16
      invariant i <= 16 && !end && !full
      invariant forall j: nat | j < i :: DotOrDeleted(Decode(f32, sec, j))
    {
      var e := Decode(f32, sec, i);
      if e.name[0] == END { end := true; return; }
      if !(e.name[0] == DELETED || e.name[0] == DOTCHAR) { full := true; return; }
      i := i + 1;
    }
  }

  lemma DotsSoFar(f32: bool, s: seq<Ent>, sec: Sector, q: nat, n: nat)
    requires n <= 16 && 16 * q + 16 <= |s| && forall i: nat | i < 16 :: s[16 * q + i] == Decode(f32, sec, i)
    requires (forall j: nat | j < n :: DotOrDeleted(Decode(f32, sec, j)))
             && forall j | 0 <= j < 16 * q :: DotOrDeleted(s[j])
    ensures forall j | 0 <= j < 16 * q + n :: DotOrDeleted(s[j])
  {
    hide DotOrDeleted;
    hide Decode;
    forall j | 16 * q <= j < 16 * q + n
      ensures DotOrDeleted(s[j])
    {
      assert s[16 * q + (j - 16 * q)] == Decode(f32, sec, j - 16 * q);
    }
  }

  /** The first slot at or after i that is not deleted and has no dot name. */
  function DotsFrom(s: seq<Ent>, i: nat): (r: nat)
    requires i <= |s|
    ensures i <= r <= |s| && (r < |s| ==> !DotOrDeleted(s[r])) && (forall j | i <= j < r :: DotOrDeleted(s[j]))
    decreases |s| - i
  {
    if i == |s| || !DotOrDeleted(s[i]) then i else DotsFrom(s, i + 1)
  }

  lemma DotsUnique(s: seq<Ent>, n: nat)
    requires n <= |s| && (n < |s| ==> !DotOrDeleted(s[n])) && forall j | 0 <= j < n :: DotOrDeleted(s[j])
    ensures DotsFrom(s, 0) == n
  {
    var r := DotsFrom(s, 0);
  }

  lemma EndNoDot(e: Ent)
    ensures e.name[0] == END ==> !DotOrDeleted(e)
  {
  }

  /** With end markers last, that slot is an end marker exactly when there are
      only dot names. */
  lemma DotsAll(s: seq<Ent>)
    requires Ended(s)
    ensures OnlyDots(s) <==> DotsFrom(s, 0) == |s| || s[DotsFrom(s, 0)].name[0] == END
  {
    var n := DotsFrom(s, 0);
  }

  /** In bytes: the slot that keeps a folder is one that starts with neither 0xE5
      nor a dot, nor comes after a zero byte. */
  lemma DotsBytes(s: seq<Ent>)
    ensures (DotsFrom(s, 0) < |s| && s[DotsFrom(s, 0)].name[0] != END) <==>
            exists k | 0 <= k < |s| :: s[k].name[0] != 0 && s[k].name[0] != 0xE5 && s[k].name[0] != 0x2E
                                       && forall j | 0 <= j < k :: s[j].name[0] != 0
    ensures DotsFrom(s, 0) == |s| <==> forall k | 0 <= k < |s| :: s[k].name[0] == 0xE5 || s[k].name[0] == 0x2E
  {
    var n := DotsFrom(s, 0);
    if n < |s| && s[n].name[0] != END {
      assert s[n].name[0] != 0 && s[n].name[0] != 0xE5 && s[n].name[0] != 0x2E;
    }
  }

  /** With end markers last the slots of a folder are OnlyDots exactly when there
      is no such slot. */
  lemma OnlyDotsBytes(s: seq<Ent>)
    requires Ended(s)
    ensures OnlyDots(s) <==>
            !exists k | 0 <= k < |s| :: s[k].name[0] != 0 && s[k].name[0] != 0xE5 && s[k].name[0] != 0x2E
                                        && forall j | 0 <= j < k :: s[j].name[0] != 0
  {
    DotsAll(s);
    DotsBytes(s);
  }

  /** One sector's part of the search of fat_chdir for "..". */
  method DotDotInSector(f32: bool, sec: Sector) returns (hit: bool, i: nat)
    ensures i <= 16 && (hit ==> i < 16 && Decode(f32, sec, i).name == DOTDOT) && (!hit ==> i == 16)
    ensures forall j: nat | j < i :: Decode(f32, sec, j).name != DOTDOT
  {
    hit, i := false, 0;
    while i < 16
      invariant i <= 16 && !hit
      invariant forall j: nat | j < i :: Decode(f32, sec, j).name != DOTDOT
    {
      if Decode(f32, sec, i).name == DOTDOT { hit := true; return; }
      i := i + 1;
    }
  }

  lemma NoDotDot(f32: bool, s: seq<Ent>, sec: Sector, q: nat, n: nat)
    requires n <= 16 && 16 * q + 16 <= |s| && forall i: nat | i < 16 :: s[16 * q + i] == Decode(f32, sec, i)
    requires (forall j: nat | j < n :: Decode(f32, sec, j).name != DOTDOT)
             && forall j | 0 <= j < 16 * q :: s[j].name != DOTDOT
    ensures forall j | 0 <= j < 16 * q + n :: s[j].name != DOTDOT
  {
    hide Decode;
    forall j | 16 * q <= j < 16 * q + n
      ensures s[j].name != DOTDOT
    {
      assert s[16 * q + (j - 16 * q)] == Decode(f32, sec, j - 16 * q);
    }
  }

  lemma DotDotUnique(s: seq<Ent>, k: nat)
    requires k <= |s| && (forall j | 0 <= j < k :: s[j].name != DOTDOT) && (k < |s| ==> s[k].name == DOTDOT)
    ensures DotDotFrom(s, 0) == k
  {
    var r := DotDotFrom(s, 0);
  }
}
