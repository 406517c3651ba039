/** Whole runs of the driver: operations in any order, the power cut at any
    sector write, and the mount that follows. */
module Session {
  import opened Bytes
  import opened Layout
  import opened FatTable
  import opened Chains
  import opened Folders
  import opened Tree
  import opened Volume
  import opened Paths
  import opened SectorWrites
  import opened FatWrites
  import opened Commits
  import opened Atomicity
  import opened Fresh
  import opened FileData
  import opened Ranges
  import opened InPlace
  import opened Marking
  import opened Recovery
  import opened Steady
  import opened Boot
  import opened Outcomes
  import opened Readings
  import opened Driver

  /** One step of a run; Cut(k) is a power cut that leaves the device at state k
      since power came on - the mount's recovery included - and the next mount. */
  datatype Op =
    | Write(name: CString, src: Source, replace: bool)
    | WriteAt(name: CString, off: nat, data: seq<byte>)
    | Read(name: CString, off: nat, len: nat)
    | Delete(name: CString)
    | Mkdir(name: CString)
    | Rmdir(name: CString)
    | Chdir(name: CString)
    | Cut(k: nat)

  /** Lengths and positions are 32-bit values. */
  predicate Sized(op: Op) {
    match op
    case Write(_, src, _) => src.Len() < U32
    case WriteAt(_, off, data) => off < U32 && |data| < U32
    case Read(_, off, len) => off < U32 && len < U32
    case _ => true
  }

  /** The disk holds a well-formed volume: every reachable chain in range,
      linked, ended and apart from the others, its FAT entries not zero. */
  ghost predicate Sound(g: Geo, d: Disk) {
    exists m: Model :: WF(g, d, m)
  }

  ghost predicate AllSound(g: Geo, past: seq<Disk>) {
    forall i | 0 <= i < |past| :: Sound(g, past[i])
  }

  lemma SoundMake(g: Geo, d: Disk, m: Model)
    requires WF(g, d, m)
    ensures Sound(g, d)
  {
    hide WF;
  }

  lemma SoundModel(g: Geo, d: Disk) returns (m: Model)
    requires Sound(g, d)
    ensures WF(g, d, m)
  {
    hide WF;
    m :| WF(g, d, m);
  }

  /** States before n0 are sound, and so is each one from n0 on. */
  lemma SoundMore(g: Geo, p0: seq<Disk>, past: seq<Disk>)
    requires AllSound(g, p0) && p0 <= past && forall i | |p0| <= i < |past| :: Sound(g, past[i])
    ensures AllSound(g, past)
  {
    hide Sound;
  }

  lemma StayedSound(g: Geo, d0: Disk, m0: Model, p0: seq<Disk>, past: seq<Disk>, d: Disk)
    requires AllSound(g, p0) && p0 <= past && Stayed(g, d0, m0, past, |p0|, d)
    ensures AllSound(g, past)
  {
    hide WF;
    hide SameTree;
    hide Sound;
    forall i | |p0| <= i < |past|
      ensures Sound(g, past[i])
    {
      assert ShowsBefore(g, d0, m0, past[i]);
      SoundMake(g, past[i], m0);
    }
    SoundMore(g, p0, past);
  }

  lemma ChangedSound(g: Geo, d0: Disk, m0: Model, p0: seq<Disk>, past: seq<Disk>, d: Disk, m1: Model, f: nat,
                     name: Name, node: Node)
    requires AllSound(g, p0) && p0 <= past && Changed(g, d0, m0, past, |p0|, d, m1, f, name, node)
    ensures AllSound(g, past)
  {
    hide WF;
    hide SameTree;
    hide EditedTree;
    hide Sound;
    forall i | |p0| <= i < |past|
      ensures Sound(g, past[i])
    {
      if ShowsBefore(g, d0, m0, past[i]) { SoundMake(g, past[i], m0); } else { SoundMake(g, past[i], m1); }
    }
    SoundMore(g, p0, past);
  }

  lemma SameSound(g: Geo, p0: seq<Disk>, past: seq<Disk>)
    requires AllSound(g, p0) && past == p0
    ensures AllSound(g, past)
  {
    hide Sound;
  }

  lemma OverwrittenSound(g: Geo, d0: Disk, m: Model, p0: seq<Disk>, past: seq<Disk>, f: nat, name: Name, off: nat,
                         data: seq<byte>)
    requires AllSound(g, p0) && p0 <= past && OverwrittenAll(g, d0, m, past, |p0|, f, name, off, data)
    ensures AllSound(g, past)
  {
    hide WF;
    hide EditedTree;
    hide Sound;
    hide Lookup;
    forall i | |p0| <= i < |past|
      ensures Sound(g, past[i])
    {
      assert OverwrittenPart(g, d0, m, past[i], f, name, off, data);
      var n: nat :| Overwritten(g, d0, m, past[i], f, name, off, data, n);
      SoundMake(g, past[i], m);
    }
    SoundMore(g, p0, past);
  }

  /** Mounted on a well-formed volume of the boot sector's own layout, and so at
      every state since the mount. */
  ghost predicate Ready(dr: FatDriver)
    reads dr
  {
    dr.Valid() && Accepted(dr.stays.boot) && dr.g == BootGeo(dr.stays.boot) && AllSound(dr.g, dr.past)
  }

  lemma ReadyParts(dr: FatDriver)
    requires Ready(dr)
    ensures dr.Valid() && Accepted(dr.stays.boot) && dr.g == BootGeo(dr.stays.boot) && AllSound(dr.g, dr.past)
    ensures dr.mounted && WF(dr.g, dr.disk, dr.m) && dr.Base() && dr.cwd in dr.m.depth
  {
    hide *;
    hide Ready;
    ReadyAre(dr);
    dr.ValidParts();
  }

  lemma ReadyAre(dr: FatDriver)
    requires Ready(dr)
    ensures dr.Valid() && Accepted(dr.stays.boot) && dr.g == BootGeo(dr.stays.boot) && AllSound(dr.g, dr.past)
  {
    hide FatDriver.Valid;
    hide AllSound;
    hide BootGeo;
  }

  lemma ReadyMake(dr: FatDriver)
    requires dr.Valid() && Accepted(dr.stays.boot) && dr.g == BootGeo(dr.stays.boot) && AllSound(dr.g, dr.past)
    ensures Ready(dr)
  {
    hide FatDriver.Valid;
    hide AllSound;
    hide BootGeo;
  }

  // ----- the operations, one at a time

  method DoWrite(dr: FatDriver, name: CString, src: Source, replace: bool)
    requires Ready(dr) && src.Len() < U32
    modifies dr
    ensures Ready(dr) && dr.g == old(dr.g) && dr.stays == old(dr.stays) && dr.honest == old(dr.honest)
    ensures old(dr.past) <= dr.past
  {
    hide *;
    ReadyParts(dr);
    ghost var d0, m0, p0 := dr.disk, dr.m, dr.past;
    ghost var f, n, w := dr.cwd, FatName(name), src.Content();
    var ok, nc := dr.WriteFile(name, src, replace);
    if name == [] {
      SameSound(dr.g, p0, dr.past);
    } else {
      WriteParts(dr.g, d0, p0, m0, dr.disk, dr.past, dr.m, f, n, w, nc, replace, ok, dr.reliable);
      if ok {
        StoredParts(dr.g, d0, m0, dr.past, |p0|, dr.disk, dr.m, f, n, FileNode(w));
        ChangedSound(dr.g, d0, m0, p0, dr.past, dr.disk, dr.m, f, n, Shown(n, FileNode(w)));
      } else {
        StayedSound(dr.g, d0, m0, p0, dr.past, dr.disk);
      }
    }
    ReadyMake(dr);
  }

  method DoWriteAt(dr: FatDriver, name: CString, off: nat, data: seq<byte>)
    requires Ready(dr) && off < U32 && |data| < U32
    modifies dr
    ensures Ready(dr) && dr.g == old(dr.g) && dr.stays == old(dr.stays) && dr.honest == old(dr.honest)
    ensures old(dr.past) <= dr.past
  {
    hide *;
    ReadyParts(dr);
    ghost var d0, m0, p0 := dr.disk, dr.m, dr.past;
    ghost var node := Lookup(dr.g, d0, dr.cwd, FatName(name));
    var r, done := dr.FatWriteAt(name, off, data);
    if node.FileNode? && off + |data| <= |node.bytes| {
      OverwrittenSound(dr.g, d0, m0, p0, dr.past, dr.cwd, FatName(name), off, data);
    }
    ReadyMake(dr);
  }

  method DoRead(dr: FatDriver, name: CString, off: nat, len: nat)
    requires Ready(dr) && off < U32 && len < U32
    modifies dr
    ensures Ready(dr) && dr.g == old(dr.g) && dr.stays == old(dr.stays) && dr.honest == old(dr.honest)
    ensures old(dr.past) <= dr.past
  {
    hide *;
    ReadyParts(dr);
    var r, out := dr.FatReadAt(name, off, len);
    ReadyMake(dr);
  }

  method DoDelete(dr: FatDriver, name: CString)
    requires Ready(dr)
    modifies dr
    ensures Ready(dr) && dr.g == old(dr.g) && dr.stays == old(dr.stays) && dr.honest == old(dr.honest)
    ensures old(dr.past) <= dr.past
  {
    hide *;
    ReadyParts(dr);
    ghost var d0, m0, p0 := dr.disk, dr.m, dr.past;
    ghost var f, n := dr.cwd, FatName(name);
    var ok := dr.FatDelete(name);
    DeleteParts(dr.g, d0, p0, m0, dr.disk, dr.past, dr.m, f, n, ok, dr.reliable);
    if ok {
      ChangedSound(dr.g, d0, m0, p0, dr.past, dr.disk, dr.m, f, n, Absent);
    } else {
      SameSound(dr.g, p0, dr.past);
    }
    ReadyMake(dr);
  }

  method DoRmdir(dr: FatDriver, name: CString)
    requires Ready(dr)
    modifies dr
    ensures Ready(dr) && dr.g == old(dr.g) && dr.stays == old(dr.stays) && dr.honest == old(dr.honest)
    ensures old(dr.past) <= dr.past
  {
    hide *;
    ReadyParts(dr);
    ghost var d0, m0, p0 := dr.disk, dr.m, dr.past;
    ghost var f, n := dr.cwd, FatName(name);
    var ok := dr.FatRmdir(name);
    if name != [] { RmdirParts(dr.g, d0, p0, m0, dr.disk, dr.past, dr.m, f, n, ok, dr.reliable); }
    if ok {
      ChangedSound(dr.g, d0, m0, p0, dr.past, dr.disk, dr.m, f, n, Absent);
    } else {
      SameSound(dr.g, p0, dr.past);
    }
    ReadyMake(dr);
  }

  method DoMkdir(dr: FatDriver, name: CString)
    requires Ready(dr)
    modifies dr
    ensures Ready(dr) && dr.g == old(dr.g) && dr.stays == old(dr.stays) && dr.honest == old(dr.honest)
    ensures old(dr.past) <= dr.past
  {
    hide *;
    ReadyParts(dr);
    ghost var d0, m0, p0 := dr.disk, dr.m, dr.past;
    ghost var f, n := dr.cwd, FatName(name);
    var ok, c := dr.FatMkdir(name);
    if name == [] {
      SameSound(dr.g, p0, dr.past);
    } else {
      MkdirParts(dr.g, d0, p0, m0, dr.disk, dr.past, dr.m, f, n, c, ok, dr.reliable);
      if ok {
        StoredParts(dr.g, d0, m0, dr.past, |p0|, dr.disk, dr.m, f, n, FolderNode(c));
        ChangedSound(dr.g, d0, m0, p0, dr.past, dr.disk, dr.m, f, n, Shown(n, FolderNode(c)));
      } else {
        StayedSound(dr.g, d0, m0, p0, dr.past, dr.disk);
      }
    }
    ReadyMake(dr);
  }

  method DoChdir(dr: FatDriver, name: CString)
    requires Ready(dr)
    modifies dr
    ensures Ready(dr) && dr.g == old(dr.g) && dr.stays == old(dr.stays) && dr.honest == old(dr.honest)
    ensures old(dr.past) <= dr.past
  {
    hide *;
    ReadyParts(dr);
    var ok := dr.FatChdir(name);
    ReadyMake(dr);
  }

  // ----- power cuts

  ghost predicate AllHonest(g: Geo, s: seq<Disk>) {
    forall i | 0 <= i < |s| :: FsHonest(g, s[i])
  }

  ghost predicate AllStay(g: Geo, stays: Stays, s: seq<Disk>) {
    forall i | 0 <= i < |s| :: StaysOf(g, s[i]) == stays
  }

  lemma HistoryHonest(g: Geo, past: seq<Disk>, size: nat, stays: Stays, honest: bool, mirrored: bool)
    requires HistoryOk(g, past, size, stays, honest, mirrored)
    ensures AllStay(g, stays, past) && (honest ==> AllHonest(g, past))
  {
    hide FsHonest;
    hide StaysOf;
    hide OneRowOff;
  }

  lemma BootIs(g: Geo, d: Disk)
    requires |d| > 0
    ensures StaysOf(g, d).boot == d[0]
  {
    hide TopBits;
  }

  lemma DeviceHolds(g: Geo, d: Disk)
    requires GeoOk(g) && Fits(g, d)
    ensures |d| > 0
  {
    RootAbove(g);
    CopiesExist(g);
    CopyPlace(g, d, 0, 0);
  }

  ghost predicate AllSame(g: Geo, d0: Disk, s: seq<Disk>) {
    forall i | 0 <= i < |s| :: SameTree(g, d0, s[i])
  }

  /** The states s can be what a power cut leaves. */
  ghost predicate Cuttable(g: Geo, stays: Stays, s: seq<Disk>, honest: bool) {
    AllSound(g, s) && AllStay(g, stays, s) && (honest ==> AllHonest(g, s))
  }

  lemma CuttableParts(g: Geo, stays: Stays, s: seq<Disk>, honest: bool)
    requires Cuttable(g, stays, s, honest)
    ensures AllSound(g, s) && AllStay(g, stays, s) && (honest ==> AllHonest(g, s))
  {
    hide AllSound;
    hide AllStay;
    hide AllHonest;
  }

  lemma CuttableMake(g: Geo, stays: Stays, s: seq<Disk>, honest: bool)
    requires AllSound(g, s) && AllStay(g, stays, s) && (honest ==> AllHonest(g, s))
    ensures Cuttable(g, stays, s, honest)
  {
    hide AllSound;
    hide AllStay;
    hide AllHonest;
  }

  lemma CuttableNone(g: Geo, stays: Stays, honest: bool)
    ensures Cuttable(g, stays, [], honest)
  {
  }

  lemma CuttableAt(g: Geo, stays: Stays, s: seq<Disk>, honest: bool, k: nat)
    requires Cuttable(g, stays, s, honest) && k < |s|
    ensures Sound(g, s[k]) && StaysOf(g, s[k]) == stays && (honest ==> FsHonest(g, s[k]))
  {
    hide Sound;
    hide StaysOf;
    hide FsHonest;
  }

  lemma CuttableOne(g: Geo, stays: Stays, d: Disk, honest: bool)
    requires Sound(g, d) && StaysOf(g, d) == stays && (honest ==> FsHonest(g, d))
    ensures Cuttable(g, stays, [d], honest)
  {
    hide Sound;
    hide StaysOf;
    hide FsHonest;
  }

  lemma CuttableJoin(g: Geo, stays: Stays, a: seq<Disk>, b: seq<Disk>, honest: bool)
    requires Cuttable(g, stays, a, honest) && Cuttable(g, stays, b, honest)
    ensures Cuttable(g, stays, a + b, honest)
  {
    hide Sound;
    hide StaysOf;
    hide FsHonest;
  }

  /** The states of a mount: what it finds, and its recovery. */
  lemma MountStates(g: Geo, stays: Stays, d0: Disk, m: Model, d: Disk, during: seq<Disk>, honest: bool, mirrored: bool)
    requires StaysOf(g, d0) == stays && (honest ==> FsHonest(g, d0))
             && HistoryOk(g, during, |d0|, stays, honest, mirrored)
    requires Stayed(g, d0, m, during, 0, d) && WF(g, d0, m)
    ensures Cuttable(g, stays, [d0] + during, honest) && AllSame(g, d0, [d0] + during) && SameTree(g, d0, d)
  {
    hide *;
    MountSafe(g, d0, m, d, during);
    HistoryHonest(g, during, |d0|, stays, honest, mirrored);
    CuttableMake(g, stays, during, honest);
    SoundMake(g, d0, m);
    CuttableOne(g, stays, d0, honest);
    CuttableJoin(g, stays, [d0], during, honest);
    SameFirst(g, d0, during);
  }

  lemma SameFirst(g: Geo, d0: Disk, s: seq<Disk>)
    requires AllSame(g, d0, s)
    ensures AllSame(g, d0, [d0] + s)
  {
    hide Resolve;
    assert SameTree(g, d0, d0);
    hide SameTree;
  }

  lemma MountSafe(g: Geo, d0: Disk, m: Model, d: Disk, during: seq<Disk>)
    requires Stayed(g, d0, m, during, 0, d)
    ensures AllSound(g, during) && SameTree(g, d0, d) && AllSame(g, d0, during)
  {
    hide WF;
    hide SameTree;
    hide Sound;
    forall i | 0 <= i < |during|
      ensures Sound(g, during[i]) && SameTree(g, d0, during[i])
    {
      assert ShowsBefore(g, d0, m, during[i]);
      SoundMake(g, during[i], m);
    }
  }

  /** Since power came on, since by the mount and then dr.past, all is sound; and
      honest when it was to begin with and the device is reliable. */
  ghost predicate Going(dr: FatDriver, since: seq<Disk>, honest: bool)
    reads dr
  {
    Ready(dr) && Cuttable(dr.g, dr.stays, since, honest && dr.reliable) && (honest && dr.reliable ==> dr.honest)
  }

  lemma GoingParts(dr: FatDriver, since: seq<Disk>, honest: bool)
    requires Going(dr, since, honest)
    ensures Ready(dr) && Cuttable(dr.g, dr.stays, since, honest && dr.reliable) && (honest && dr.reliable ==> dr.honest)
  {
    hide Ready;
    hide Cuttable;
  }

  lemma GoingMake(dr: FatDriver, since: seq<Disk>, honest: bool)
    requires Ready(dr) && Cuttable(dr.g, dr.stays, since, honest && dr.reliable)
             && (honest && dr.reliable ==> dr.honest)
    ensures Going(dr, since, honest)
  {
    hide Ready;
    hide Cuttable;
  }

  /** State k of s, or the last one. */
  function CutAt(s: seq<Disk>, d: Disk, k: nat): Disk { if k < |s| then s[k] else d }

  /** Everything since power came on can be what a cut leaves. */
  lemma AllCuttable(dr: FatDriver, since: seq<Disk>, honest: bool)
    requires Going(dr, since, honest)
    ensures Cuttable(dr.g, dr.stays, since + dr.past, honest && dr.reliable)
    ensures Sound(dr.g, dr.disk) && StaysOf(dr.g, dr.disk) == dr.stays
            && (honest && dr.reliable ==> FsHonest(dr.g, dr.disk))
  {
    hide *;
    GoingParts(dr, since, honest);
    ReadyParts(dr);
    dr.BaseParts();
    HistoryHonest(dr.g, dr.past, |dr.disk|, dr.stays, dr.honest && dr.reliable, dr.mirrored && dr.reliable);
    CuttableMake(dr.g, dr.stays, dr.past, honest && dr.reliable);
    CuttableJoin(dr.g, dr.stays, since, dr.past, honest && dr.reliable);
    SoundMake(dr.g, dr.disk, dr.m);
  }

  lemma CutState(dr: FatDriver, since: seq<Disk>, honest: bool, k: nat)
    requires Going(dr, since, honest)
    ensures var cut := CutAt(since + dr.past, dr.disk, k);
            Sound(dr.g, cut) && StaysOf(dr.g, cut) == dr.stays && (honest && dr.reliable ==> FsHonest(dr.g, cut))
  {
    hide *;
    AllCuttable(dr, since, honest);
    var s := since + dr.past;
    CutIs(s, dr.disk, k);
    if k < |s| { CuttableAt(dr.g, dr.stays, s, honest && dr.reliable, k); }
  }

  lemma CutIs(s: seq<Disk>, d: Disk, k: nat)
    ensures CutAt(s, d, k) == if k < |s| then s[k] else d
  {
  }

  /** The power is cut with the device at any state it has been in since power
      came on, and the volume mounted again: every state of the recovery shows
      the tree it found.  since and since1 are the states of a mount, the one it
      finds the first, so the next cut may be inside this recovery. */
  method PowerCut(dr: FatDriver, since: seq<Disk>, k: nat, scanMax: nat, ghost honest: bool)
    returns (ghost cut: Disk, since1: seq<Disk>)
    requires Going(dr, since, honest)
    modifies dr
    ensures Going(dr, since1, honest) && dr.g == old(dr.g) && dr.stays == old(dr.stays) && dr.past == [] && dr.cwd == 0
    ensures cut == CutAt(since + old(dr.past), old(dr.disk), k) && |since1| > 0 && since1[0] == cut
    ensures AllSame(dr.g, cut, since1) && SameTree(dr.g, cut, dr.disk)
    ensures cut == if k < |since + old(dr.past)| then (since + old(dr.past))[k] else old(dr.disk)
    ensures forall i | 0 <= i < |since1| ::
            forall path: seq<Name> :: Resolve(dr.g, since1[i], 0, path) == Resolve(dr.g, cut, 0, path)
    ensures forall path: seq<Name> :: Resolve(dr.g, dr.disk, 0, path) == Resolve(dr.g, cut, 0, path)
    ensures 0 < dr.g.total <= scanMax && NestsWithin(dr.m) && dr.reliable ==> Settled(dr.g, dr.disk, Used(dr.m))
  {
    hide *;
    CutState(dr, since, honest, k);
    CutIs(since + dr.past, dr.disk, k);
    GoingParts(dr, since, honest);
    ReadyParts(dr);
    var s := since + dr.past;
    cut := CutAt(s, dr.disk, k);
    ghost var mm := SoundModel(dr.g, cut);
    WFParts(dr.g, cut, mm);
    DeviceHolds(dr.g, cut);
    BootIs(dr.g, cut);
    var at := if k < |s| then s[k] else dr.disk;
    dr.disk := at;
    var ok, during;
    ghost var done;
    ok, done, during := dr.FatMount(scanMax, mm);
    since1 := [at] + during;
    HistoryLess(dr.g, during, |cut|, dr.stays, FsHonest(dr.g, cut) && dr.reliable, honest
      && dr.reliable, Mirrored(dr.g, cut) && dr.reliable);
    MountStates(dr.g, dr.stays, cut, mm, dr.disk, during, honest && dr.reliable, Mirrored(dr.g, cut) && dr.reliable);
    SoundNone(dr.g);
    ReadyMake(dr);
    GoingMake(dr, since1, honest);
    SameRead(dr.g, cut, since1, dr.disk);
    NestsIs(dr.m);
  }

  lemma SameRead(g: Geo, d0: Disk, s: seq<Disk>, d: Disk)
    requires AllSame(g, d0, s) && SameTree(g, d0, d)
    ensures forall i | 0 <= i < |s| :: forall path: seq<Name> :: Resolve(g, s[i], 0, path) == Resolve(g, d0, 0, path)
    ensures forall path: seq<Name> :: Resolve(g, d, 0, path) == Resolve(g, d0, 0, path)
  {
    hide Resolve;
  }

  lemma HistoryLess(g: Geo, past: seq<Disk>, size: nat, stays: Stays, h0: bool, h1: bool, mirrored: bool)
    requires HistoryOk(g, past, size, stays, h0, mirrored) && (h1 ==> h0)
    ensures HistoryOk(g, past, size, stays, h1, mirrored)
  {
    hide *;
    HistoryWeaker(g, past, size, stays, h0, mirrored, h1, mirrored);
  }

  lemma SoundNone(g: Geo)
    ensures AllSound(g, [])
  {
  }

  // ----- whole runs

  /** All states before the last mount, all, fit those since. */
  ghost predicate Sofar(dr: FatDriver, g: Geo, stays: Stays, all: seq<Disk>, since: seq<Disk>, honest: bool)
    reads dr
  {
    Going(dr, since, honest) && dr.g == g && dr.stays == stays && Cuttable(g, stays, all, honest && dr.reliable)
  }

  lemma SofarParts(dr: FatDriver, g: Geo, stays: Stays, all: seq<Disk>, since: seq<Disk>, honest: bool)
    requires Sofar(dr, g, stays, all, since, honest)
    ensures Going(dr, since, honest) && dr.g == g && dr.stays == stays && Cuttable(g, stays, all, honest && dr.reliable)
  {
    hide Going;
    hide Cuttable;
  }

  lemma SofarMake(dr: FatDriver, g: Geo, stays: Stays, all: seq<Disk>, since: seq<Disk>, honest: bool)
    requires Going(dr, since, honest) && dr.g == g && dr.stays == stays
             && Cuttable(g, stays, all, honest && dr.reliable)
    ensures Sofar(dr, g, stays, all, since, honest)
  {
    hide Going;
    hide Cuttable;
  }

  /** One step of a run; all ends up with every state of the device before the
      last mount, and since1 those from that mount's beginning to its end. */
  method Step(dr: FatDriver, op: Op, since: seq<Disk>, scanMax: nat, ghost g: Geo, ghost stays: Stays,
              ghost all: seq<Disk>, ghost honest: bool)
    returns (since1: seq<Disk>, ghost all1: seq<Disk>)
    requires Sofar(dr, g, stays, all, since, honest) && Sized(op)
    modifies dr
    ensures Sofar(dr, g, stays, all1, since1, honest)
    ensures all + since + old(dr.past) <= all1 + since1 + dr.past
    ensures |since| > 0 ==> |since1| > 0
    ensures op.Cut? ==> |since1| > 0 && since1[0] == CutAt(since + old(dr.past), old(dr.disk), op.k)
    ensures !op.Cut? ==> since1 == since && all1 == all && old(dr.past) <= dr.past
  {
    hide *;
    all1, since1 := all, since;
    SofarParts(dr, g, stays, all, since, honest);
    GoingParts(dr, since, honest);
    if op.Cut? {
      AllCuttable(dr, since, honest);
      CuttableJoin(g, stays, all, since + dr.past, honest && dr.reliable);
      all1 := all + (since + dr.past);
      ghost var cut;
      cut, since1 := PowerCut(dr, since, op.k, scanMax, honest);
    } else {
      SizedIs(op);
      match op {
        case Write(name, src, replace) => DoWrite(dr, name, src, replace);
        case WriteAt(name, off, data) => DoWriteAt(dr, name, off, data);
        case Read(name, off, len) => DoRead(dr, name, off, len);
        case Delete(name) => DoDelete(dr, name);
        case Mkdir(name) => DoMkdir(dr, name);
        case Rmdir(name) => DoRmdir(dr, name);
        case Chdir(name) => DoChdir(dr, name);
        case Cut(_) =>
      }
      GoingMake(dr, since, honest);
    }
    SofarMake(dr, g, stays, all1, since1, honest);
  }

  lemma SizedIs(op: Op)
    requires Sized(op)
    ensures op.Write? ==> op.src.Len() < U32
    ensures op.WriteAt? ==> op.off < U32 && |op.data| < U32
    ensures op.Read? ==> op.off < U32 && op.len < U32
  {
  }

  /** A mount and any run of operations and power cuts after it, cuts inside a
      mount's recovery included: every state the device passes through holds a
      well-formed volume, with the boot sector and the top bits of every FAT
      entry it had; and FSInfo's free count, if it was honest to begin with and
      the device is reliable, is honest at all of them. */
  method Run(dr: FatDriver, ops: seq<Op>, scanMax: nat, ghost m0: Model) returns (ok: bool, ghost all: seq<Disk>)
    requires |dr.disk| > 0 && Accepted(dr.disk[0]) ==> WF(BootGeo(dr.disk[0]), dr.disk, m0)
    requires forall i | 0 <= i < |ops| :: Sized(ops[i])
    modifies dr
    ensures ok == (|old(dr.disk)| > 0 && Accepted(old(dr.disk)[0]))
    ensures ok ==>
            dr.g == BootGeo(old(dr.disk)[0]) && |dr.past| < |all| && dr.past == all[|all| - |dr.past|..] && Ready(dr)
    ensures ok ==> all[0] == old(dr.disk) && AllSound(dr.g, all) && AllStay(dr.g, StaysOf(dr.g, old(dr.disk)), all)
    ensures ok && FsHonest(dr.g, old(dr.disk)) && dr.reliable ==> AllHonest(dr.g, all)
  {
    hide *;
    ghost var d0 := dr.disk;
    all := [];
    if |d0| > 0 && Accepted(d0[0]) {
      SpcPositive(d0[0]);
      WFParts(BootGeo(d0[0]), d0, m0);
    }
    var at, during := dr.disk, [];
    ghost var done;
    ok, done, during := dr.FatMount(scanMax, m0);
    if !ok { return; }
    ghost var g, stays, honest := dr.g, dr.stays, FsHonest(dr.g, d0);
    BootIs(g, d0);
    SoundNone(g);
    ReadyMake(dr);
    MountStates(g, stays, d0, m0, dr.disk, during, honest && dr.reliable, Mirrored(g, d0) && dr.reliable);
    var since := [at] + during;
    GoingMake(dr, since, honest);
    CuttableNone(g, stays, honest && dr.reliable);
    SofarMake(dr, g, stays, all, since, honest);
    var i: nat := 0;
    while i < |ops|
      invariant i <= |ops| && Sofar(dr, g, stays, all, since, honest)
      invariant |since| > 0 && (all + since + dr.past)[0] == d0
    {
      ghost var s := all + since + dr.past;
      since, all := Step(dr, ops[i], since, scanMax, g, stays, all, honest);
      FirstKept(s, all + since + dr.past);
      i := i + 1;
    }
    SofarParts(dr, g, stays, all, since, honest);
    GoingParts(dr, since, honest);
    AllCuttable(dr, since, honest);
    CuttableJoin(g, stays, all, since + dr.past, honest && dr.reliable);
    assert all + (since + dr.past) == all + since + dr.past;
    all := all + (since + dr.past);
    CuttableParts(g, stays, all, honest && dr.reliable);
  }

  lemma FirstKept(a: seq<Disk>, b: seq<Disk>)
    requires a <= b && |a| > 0
    ensures b[0] == a[0]
  {
  }

  // ----- round trips

  /** The first byte of the name is the mark of a deleted entry. */
  predicate LooksDeleted(name: CString) { |name| > 0 && name[0] == DELETED }

  lemma LooksDeletedIs(name: CString)
    ensures LooksDeleted(name) <==> |name| > 0 && name[0] == 0xE5
  {
  }

  /** What a write stored, a read gives back - unless the name looks deleted:
      then the write is answered with success and there is no file. */
  method WriteThenRead(dr: FatDriver, name: CString, src: Source, replace: bool)
    returns (ok: bool, r: int, out: seq<byte>)
    requires src.Len() < U32 && Ready(dr)
    modifies dr
    ensures ok ==> name != []
    ensures ok && name[0] != 0xE5 && src.Given? ==> out == src.bytes
    ensures ok && name[0] != 0xE5 && src.Zeros? ==> |out| == src.n && forall i | 0 <= i < |out| :: out[i] == 0
    ensures ok && name[0] != 0xE5 ==> r == (if |out| < 0x8000_0000 then |out| else |out| - 0x1_0000_0000)
    ensures ok && name[0] == 0xE5 ==> out == [] && r == -1
  {
    hide *;
    ReadyParts(dr);
    ContentIsGiven(src);
    LooksDeletedIs(name);
    r, out := 0, [];
    ghost var d0, m0, p0, f, w, nc := dr.disk, dr.m, dr.past, dr.cwd, src.Content(), [];
    ok, nc := dr.WriteFile(name, src, replace);
    if !ok { return; }
    WriteParts(dr.g, d0, p0, m0, dr.disk, dr.past, dr.m, f, FatName(name), w, nc, replace, ok, dr.reliable);
    StoredParts(dr.g, d0, m0, dr.past, |p0|, dr.disk, dr.m, f, FatName(name), FileNode(w));
    NameShown(name, FileNode(w));
    WholeSlice(w);
    r, out := dr.FatReadAt(name, 0, src.Len());
  }

  lemma NameShown(name: CString, node: Node)
    ensures Shown(FatName(name), node) == if LooksDeleted(name) then Absent else node
  {
    FatNameFirst(name);
    hide FatName;
  }

  /** A new entry e of this name, stored where the driver stores it, is the one a
      search for the name finds, unless the name looks deleted: then a search
      finds nothing. */
  lemma NameFound(s: seq<Ent>, k: nat, e: Ent, name: CString)
    requires k < |s| && Placeable(s, k) && NotAmong(s, FatName(name)) && e.name == FatName(name) && !IsVolumeId(e)
    ensures Find(s[k := e], FatName(name)) == if LooksDeleted(name) then |s| else k
  {
    FatNameFirst(name);
    var n, r := FatName(name), s[k := e];
    hide FatName;
    if LooksDeleted(name) {
      if Find(r, n) < |r| { FindStops(r, n, 0); }
    } else {
      FindPast(r, n, false, 0, k);
      FindHere(r, n, false, k);
    }
  }

  lemma DotIsAByte()
    ensures DOTCHAR != 0
  {
  }

  lemma WholeSlice(w: seq<byte>)
    ensures Slice(w, 0, |w|) == w
  {
  }

  /** A folder made under this name can be entered by it: chdir takes "." and
      ".." for the folder it is in and the one above. */
  predicate Enterable(name: CString) { !LooksDeleted(name) && name != [DOTCHAR] && name != [DOTCHAR, DOTCHAR] }

  /** The folder that holds the entry of folder f; the root is above itself. */
  ghost function Above(m: Model, f: nat): nat { if f in m.loc then m.loc[f].0 else 0 }

  /** mkdir, chdir into it and chdir(".."), for any name: the new folder c is
      entered exactly when the name is Enterable, and the two steps lead back
      exactly then or when they start at the root. */
  method ThereAndBack(dr: FatDriver, name: CString)
    returns (made: bool, there: bool, back: bool, ghost c: nat, ghost mid: nat)
    requires Ready(dr)
    modifies dr
    ensures Ready(dr) && dr.g == old(dr.g)
    ensures made ==> Lookup(dr.g, dr.disk, old(dr.cwd), FatName(name)) == Shown(FatName(name), FolderNode(c))
    ensures made ==> name != [] && (there && mid == c <==> name[0] != 0xE5 && name != [0x2E] && name != [0x2E, 0x2E])
    ensures made && name == [DOTCHAR] ==> there && mid == old(dr.cwd)
    ensures made && name == [DOTCHAR, DOTCHAR] ==> there && mid == Above(dr.m, old(dr.cwd))
    ensures made && dr.reliable ==> !NoFolder(dr.g, old(dr.disk), old(dr.cwd), FatName(name))
    ensures !made && dr.reliable ==> name == [] || NoFolder(dr.g, old(dr.disk), old(dr.cwd), FatName(name))
    ensures there ==> made && back && dr.cwd == Above(dr.m, mid)
    ensures there ==> name != [] && (dr.cwd == old(dr.cwd) <==>
                                     (name[0] != 0xE5 && name != [0x2E] && name != [0x2E, 0x2E]) || old(dr.cwd) == 0)
  {
    hide *;
    ReadyParts(dr);
    ghost var d0, m0, p0, f := dr.disk, dr.m, dr.past, dr.cwd;
    there, back, c, mid := false, false, 0, 0;
    made, c := MakeFolder(dr, name);
    if !made { return; }
    ReadyParts(dr);
    NameShown(name, FolderNode(c));
    EnterableIs(name);
    DotIsAByte();
    AboveDepth(dr.g, dr.disk, dr.m, f);
    if Lookup(dr.g, dr.disk, f, FatName(name)) == FolderNode(c) {
      ChildDepth(dr.g, dr.disk, dr.m, f, FatName(name), c);
    }
    there := Enter(dr, name);
    mid := dr.cwd;
    if !there { return; }
    ReadyParts(dr);
    AboveDepth(dr.g, dr.disk, dr.m, mid);
    back := Enter(dr, [DOTCHAR, DOTCHAR]);
  }

  lemma TreeRead(g: Geo, d0: Disk, d: Disk)
    requires SameTree(g, d0, d)
    ensures forall path: seq<Name> :: Resolve(g, d, 0, path) == Resolve(g, d0, 0, path)
  {
    hide Resolve;
  }

  /** A folder just made is empty: rmdir takes it away again, and the tree and the
      free clusters are those of before. */
  method MkdirThenRmdir(dr: FatDriver, name: CString) returns (made: bool, gone: bool)
    requires dr.reliable && Ready(dr)
    modifies dr
    ensures Ready(dr) && dr.g == old(dr.g)
    ensures made ==> name != [] && gone == (name[0] != 0xE5)
    ensures gone ==> made && forall path: seq<Name> ::
            Resolve(dr.g, dr.disk, 0, path) == Resolve(dr.g, old(dr.disk), 0, path)
    ensures gone ==> forall x: nat | 2 <= x < dr.g.total + 2 ::
            FatGet(dr.g, dr.disk, x) == 0 <==> FatGet(dr.g, old(dr.disk), x) == 0
  {
    hide *;
    LooksDeletedIs(name);
    ghost var g, d0, f, n := dr.g, dr.disk, dr.cwd, FatName(name);
    gone := false;
    ghost var c;
    made, c := MakeFolder(dr, name);
    if !made { return; }
    ghost var d1 := dr.disk;
    NameShown(name, FolderNode(c));
    gone := RemoveFolder(dr, name, c);
    if gone {
      EditUndone(g, d0, d1, dr.disk, f, n, FolderNode(c));
      TreeRead(g, d0, dr.disk);
      FreePlain(g, d0);
      FreePlain(g, dr.disk);
      SameFree(g, d0, dr.disk);
    }
  }

  lemma SameFree(g: Geo, d0: Disk, d: Disk)
    requires Free(Table(g, d)) == Free(Table(g, d0))
    requires Free(Table(g, d0)) == set x: nat | 2 <= x < g.total + 2 && FatGet(g, d0, x) == 0
    requires Free(Table(g, d)) == set x: nat | 2 <= x < g.total + 2 && FatGet(g, d, x) == 0
    ensures forall x: nat | 2 <= x < g.total + 2 :: FatGet(g, d, x) == 0 <==> FatGet(g, d0, x) == 0
  {
    hide FatGet;
    hide Table;
    hide Free;
    forall x: nat | 2 <= x < g.total + 2
      ensures FatGet(g, d, x) == 0 <==> FatGet(g, d0, x) == 0
    {
      assert FatGet(g, d, x) == 0 <==> x in Free(Table(g, d));
      assert FatGet(g, d0, x) == 0 <==> x in Free(Table(g, d0));
    }
  }

  /** rmdir on a reliable device, of a folder of dot names on the one cluster c
      when one shows. */
  method RemoveFolder(dr: FatDriver, name: CString, ghost c: nat) returns (ok: bool)
    requires dr.reliable && name != [] && Ready(dr)
    requires var node := Lookup(dr.g, dr.disk, dr.cwd, FatName(name));
             || node == Absent
             || (node == FolderNode(c) && OnlyDots(DiskSlots(dr.g, dr.disk, c)) && DiskChain(dr.g, dr.disk, c) == [c])
    modifies dr
    ensures Ready(dr) && dr.g == old(dr.g) && dr.cwd == old(dr.cwd)
    ensures ok <==> Lookup(dr.g, old(dr.disk), old(dr.cwd), FatName(name)).FolderNode?
    ensures ok ==> EditedTree(dr.g, old(dr.disk), dr.disk, old(dr.cwd), FatName(name), Absent)
    ensures ok ==> Free(Table(dr.g, dr.disk)) == Free(Table(dr.g, old(dr.disk))) + {c}
  {
    hide *;
    ReadyParts(dr);
    ghost var g, d0, m0, p0, f, n := dr.g, dr.disk, dr.m, dr.past, dr.cwd, FatName(name);
    ok := dr.FatRmdir(name);
    RmdirParts(g, d0, p0, m0, dr.disk, dr.past, dr.m, f, n, ok, dr.reliable);
    RmdirWhen(g, d0, p0, m0, dr.disk, dr.past, dr.m, f, n, ok, dr.reliable);
    if ok {
      ChangedSound(g, d0, m0, p0, dr.past, dr.disk, dr.m, f, n, Absent);
      ChangedTree(g, d0, m0, dr.past, |p0|, dr.disk, dr.m, f, n, Absent);
      GrewBy(Table(g, d0), Table(g, dr.disk), c);
    } else {
      SameSound(g, p0, dr.past);
    }
    ReadyMake(dr);
  }

  lemma ChangedTree(g: Geo, d0: Disk, m0: Model, past: seq<Disk>, n0: nat, d: Disk, m1: Model, f: nat, name: Name,
                    node: Node)
    requires Changed(g, d0, m0, past, n0, d, m1, f, name, node)
    ensures EditedTree(g, d0, d, f, name, node)
  {
    hide WF;
    hide EditedTree;
    hide Atomic;
  }

  lemma GrewBy(t0: seq<nat>, t1: seq<nat>, c: nat)
    ensures FreeGrew(t0, t1, [c]) ==> Free(t1) == Free(t0) + {c}
  {
    hide Free;
    assert Elems([c]) == {c};
  }

  /** chdir, which writes nothing. */
  method Enter(dr: FatDriver, name: CString) returns (ok: bool)
    requires Ready(dr)
    modifies dr
    ensures Ready(dr) && dr.g == old(dr.g) && dr.disk == old(dr.disk) && dr.m == old(dr.m)
    ensures !ok ==> dr.cwd == old(dr.cwd)
    ensures if name == [DOTCHAR] then ok && dr.cwd == old(dr.cwd)
            else if name == [DOTCHAR, DOTCHAR] then ok && dr.cwd == Above(dr.m, old(dr.cwd))
            else ok == Lookup(dr.g, dr.disk, old(dr.cwd), FatName(name)).FolderNode?
    ensures ok && name != [DOTCHAR] && name != [DOTCHAR, DOTCHAR] ==>
            dr.cwd == Lookup(dr.g, dr.disk, old(dr.cwd), FatName(name)).cluster
  {
    hide *;
    ReadyParts(dr);
    AboveIs(dr.m, dr.cwd);
    RootNowhere(dr.g, dr.disk, dr.m);
    ok := dr.FatChdir(name);
    ReadyMake(dr);
  }

  /** mkdir, and the folder it shows. */
  method MakeFolder(dr: FatDriver, name: CString) returns (ok: bool, ghost c: nat)
    requires Ready(dr)
    modifies dr
    ensures Ready(dr) && dr.g == old(dr.g) && dr.cwd == old(dr.cwd)
    ensures ok ==> name != [] && Lookup(dr.g, old(dr.disk), dr.cwd, FatName(name)) == Absent
    ensures ok ==> Lookup(dr.g, dr.disk, dr.cwd, FatName(name)) == Shown(FatName(name), FolderNode(c))
    ensures ok ==> EditedTree(dr.g, old(dr.disk), dr.disk, dr.cwd, FatName(name), Shown(FatName(name), FolderNode(c)))
    ensures ok ==> OnlyDots(DiskSlots(dr.g, dr.disk, c)) && DiskChain(dr.g, dr.disk, c) == [c]
    ensures ok ==> c in Free(Table(dr.g, old(dr.disk)))
    ensures ok ==> Free(Table(dr.g, dr.disk)) == Free(Table(dr.g, old(dr.disk))) - {c}
    ensures dr.reliable ==> (ok <==> name != [] && !NoFolder(dr.g, old(dr.disk), dr.cwd, FatName(name)))
  {
    hide *;
    ReadyParts(dr);
    ghost var d0, m0, p0, f, n := dr.disk, dr.m, dr.past, dr.cwd, FatName(name);
    ok, c := dr.FatMkdir(name);
    if name == [] {
      SameSound(dr.g, p0, dr.past);
    } else {
      MkdirWhen(dr.g, d0, p0, m0, dr.disk, dr.past, dr.m, f, n, c, ok, dr.reliable);
      MkdirParts(dr.g, d0, p0, m0, dr.disk, dr.past, dr.m, f, n, c, ok, dr.reliable);
      if ok {
        StoredParts(dr.g, d0, m0, dr.past, |p0|, dr.disk, dr.m, f, n, FolderNode(c));
        ChangedSound(dr.g, d0, m0, p0, dr.past, dr.disk, dr.m, f, n, Shown(n, FolderNode(c)));
        ChangedTree(dr.g, d0, m0, dr.past, |p0|, dr.disk, dr.m, f, n, Shown(n, FolderNode(c)));
        MkdirTook(dr.g, d0, p0, m0, dr.disk, dr.past, dr.m, f, n, c, dr.reliable);
      } else {
        StayedSound(dr.g, d0, m0, p0, dr.past, dr.disk);
      }
    }
    ReadyMake(dr);
  }

  lemma EnterableIs(name: CString)
    ensures Enterable(name) <==> !LooksDeleted(name) && name != [DOTCHAR] && name != [DOTCHAR, DOTCHAR]
    ensures name != [] ==> (Enterable(name) <==> name[0] != 0xE5 && name != [0x2E] && name != [0x2E, 0x2E])
    ensures LooksDeleted(name) ==> name != [DOTCHAR] && name != [DOTCHAR, DOTCHAR]
  {
  }

  lemma AboveIs(m: Model, f: nat)
    ensures Above(m, f) == if f in m.loc then m.loc[f].0 else 0
  {
  }

  lemma RootNowhere(g: Geo, d: Disk, m: Model)
    requires WF(g, d, m)
    ensures 0 !in m.loc
  {
    hide *;
    WFParts(g, d, m);
    if 0 in m.loc { HeadPlace(g, m, DirsOf(g, d, m), 0); }
  }

  lemma AboveDepth(g: Geo, d: Disk, m: Model, f: nat)
    requires f in m.depth && WF(g, d, m)
    ensures Above(m, f) in m.depth && if f == 0 then Above(m, f) == 0 else m.depth[Above(m, f)] + 1 == m.depth[f]
  {
    hide *;
    AboveIs(m, f);
    RootNowhere(g, d, m);
    WFParts(g, d, m);
    if f != 0 {
      ParentFolder(g, d, m, f);
      HeadPlace(g, m, DirsOf(g, d, m), f);
    }
  }

  lemma ChildDepth(g: Geo, d: Disk, m: Model, f: nat, n: Name, c: nat)
    requires f in m.depth && Lookup(g, d, f, n) == FolderNode(c) && WF(g, d, m)
    ensures c != 0 && Above(m, c) == f && c in m.depth && m.depth[c] == m.depth[f] + 1
  {
    hide *;
    LookupIs(g, d, f, n);
    LookupEntry(g, d, m, f, n);
    NodeKind(g, d, DiskSlots(g, d, f)[Find(DiskSlots(g, d, f), n)]);
    KidHome(g, d, m, f, Find(DiskSlots(g, d, f), n));
    WFParts(g, d, m);
    HeadPlace(g, m, DirsOf(g, d, m), c);
    AboveIs(m, c);
  }

  const HERE: CString := [DOTCHAR]

  /** mkdir(".") in a folder below the root: it succeeds, under a name of eleven
      spaces, and chdir(".") and chdir("..") then end one folder further up. */
  method DotFolder(dr: FatDriver) returns (made: bool, there: bool, back: bool)
    requires dr.reliable && dr.cwd != 0 && !NoFolder(dr.g, dr.disk, dr.cwd, FatName(HERE)) && Ready(dr)
    modifies dr
    ensures made && there && back && dr.cwd != old(dr.cwd)
    ensures Lookup(dr.g, dr.disk, old(dr.cwd), FatName(HERE)).FolderNode?
  {
    hide *;
    ghost var c, mid;
    DotName();
    ShownFolder(FatName(HERE));
    made, there, back, c, mid := ThereAndBack(dr, HERE);
  }

  /** A name whose folder chdir never enters. */
  lemma DotName()
    ensures HERE == [DOTCHAR] == [0x2E]
    ensures FatName(HERE)[0] != DELETED && forall i: nat | i < 11 :: FatName(HERE)[i] == 0x20
  {
  }

  lemma ShownFolder(n: Name)
    ensures n[0] != DELETED ==> forall c: nat :: Shown(n, FolderNode(c)).FolderNode?
  {
  }

  /** The tree of d0, or (when done) that tree with one name changed. */
  ghost predicate OldOrNew(g: Geo, d0: Disk, d: Disk, done: bool, f: nat, name: Name, node: Node) {
    SameTree(g, d0, d) || (done && EditedTree(g, d0, d, f, name, node))
  }

  ghost predicate AllOldOrNew(g: Geo, d0: Disk, s: seq<Disk>, done: bool, f: nat, name: Name, node: Node) {
    forall i | 0 <= i < |s| :: OldOrNew(g, d0, s[i], done, f, name, node)
  }

  /** The power cut anywhere in a write, and then, again and again, anywhere in
      the mounts that follow: the tree is the one before or the one after, and
      no cluster is lost once a mount gets to its end. */
  method CutDuringWrite(dr: FatDriver, name: CString, src: Source, replace: bool, k: nat, again: seq<nat>, scanMax: nat)
    returns (ok: bool, since: seq<Disk>)
    requires Ready(dr) && src.Len() < U32 && |dr.past| <= k
    modifies dr
    ensures Going(dr, since, false) && dr.g == old(dr.g)
    ensures var n, node := FatName(name), Shown(FatName(name), FileNode(src.Content()));
            && OldOrNew(dr.g, old(dr.disk), dr.disk, ok, old(dr.cwd), n, node)
            && AllOldOrNew(dr.g, old(dr.disk), since, ok, old(dr.cwd), n, node)
    ensures var n, w := FatName(name), src.Content();
            var node := if n[0] == 0xE5 then Absent else FileNode(w);
            && (|| (forall path: seq<Name> :: Resolve(dr.g, dr.disk, 0, path) == Resolve(dr.g, old(dr.disk), 0, path))
                || (ok && forall path: seq<Name> :: Resolve(dr.g, dr.disk, 0, path) ==
                                                   ResolveEdited(dr.g, old(dr.disk), 0, path, old(dr.cwd), n, node)))
            && forall i | 0 <= i < |since| ::
                 || (forall path: seq<Name> :: Resolve(dr.g, since[i], 0, path) == Resolve(dr.g, old(dr.disk), 0, path))
                 || (ok && forall path: seq<Name> :: Resolve(dr.g, since[i], 0, path) ==
                                                    ResolveEdited(dr.g, old(dr.disk), 0, path, old(dr.cwd), n, node))
    ensures 0 < dr.g.total <= scanMax && NestsWithin(dr.m) && dr.reliable ==> Settled(dr.g, dr.disk, Used(dr.m))
  {
    hide *;
    ghost var g, d0, f, n := dr.g, dr.disk, dr.cwd, FatName(name);
    ghost var node := Shown(n, FileNode(src.Content()));
    ok := WriteOnce(dr, name, src, replace, k);
    ghost var cut;
    assert [] + dr.past == dr.past;
    cut, since := PowerCut(dr, [], k, scanMax, false);
    ThenSame(g, d0, cut, since, dr.disk, ok, f, n, node);
    var i: nat := 0;
    while i < |again|
      invariant i <= |again| && Going(dr, since, false) && dr.g == g && dr.past == []
      invariant OldOrNew(g, d0, dr.disk, ok, f, n, node) && AllOldOrNew(g, d0, since, ok, f, n, node)
      invariant 0 < g.total <= scanMax && NestsWithin(dr.m) && dr.reliable ==> Settled(g, dr.disk, Used(dr.m))
    {
      ghost var d, s := dr.disk, since;
      assert since + dr.past == since;
      cut, since := PowerCut(dr, since, again[i], scanMax, false);
      CutIs(s, d, again[i]);
      if again[i] < |s| { OldOrNewAt(g, d0, s, ok, f, n, node, again[i]); }
      ThenSame(g, d0, cut, since, dr.disk, ok, f, n, node);
      i := i + 1;
    }
    ShownRead(n, FileNode(src.Content()));
    EitherRead(g, d0, since, dr.disk, ok, f, n, node);
  }

  lemma EitherRead(g: Geo, d0: Disk, s: seq<Disk>, d: Disk, done: bool, f: nat, name: Name, node: Node)
    requires OldOrNew(g, d0, d, done, f, name, node) && AllOldOrNew(g, d0, s, done, f, name, node)
    ensures || (forall path: seq<Name> :: Resolve(g, d, 0, path) == Resolve(g, d0, 0, path))
            || (done && forall path: seq<Name> ::
               Resolve(g, d, 0, path) == ResolveEdited(g, d0, 0, path, f, name, node))
    ensures forall i | 0 <= i < |s| ::
            || (forall path: seq<Name> :: Resolve(g, s[i], 0, path) == Resolve(g, d0, 0, path))
            || (done && forall path: seq<Name> ::
               Resolve(g, s[i], 0, path) == ResolveEdited(g, d0, 0, path, f, name, node))
  {
    hide Resolve;
    hide ResolveEdited;
  }

  lemma OldOrNewAt(g: Geo, d0: Disk, s: seq<Disk>, done: bool, f: nat, name: Name, node: Node, k: nat)
    requires AllOldOrNew(g, d0, s, done, f, name, node) && k < |s|
    ensures OldOrNew(g, d0, s[k], done, f, name, node)
  {
    hide OldOrNew;
  }

  lemma ThenSame(g: Geo, d0: Disk, cut: Disk, s: seq<Disk>, d: Disk, done: bool, f: nat, name: Name, node: Node)
    requires OldOrNew(g, d0, cut, done, f, name, node) && AllSame(g, cut, s) && SameTree(g, cut, d)
    ensures OldOrNew(g, d0, d, done, f, name, node) && AllOldOrNew(g, d0, s, done, f, name, node)
  {
    hide SameTree;
    hide EditedTree;
    ThenSameOne(g, d0, cut, d, done, f, name, node);
    forall i | 0 <= i < |s|
      ensures OldOrNew(g, d0, s[i], done, f, name, node)
    {
      ThenSameOne(g, d0, cut, s[i], done, f, name, node);
    }
  }

  lemma ThenSameOne(g: Geo, d0: Disk, cut: Disk, d: Disk, done: bool, f: nat, name: Name, node: Node)
    requires OldOrNew(g, d0, cut, done, f, name, node) && SameTree(g, cut, d)
    ensures OldOrNew(g, d0, d, done, f, name, node)
  {
    hide SameTree;
    hide EditedTree;
    if SameTree(g, d0, cut) { SameThen(g, d0, cut, d); } else { EditedThenSame(g, d0, cut, d, f, name, node); }
  }

  /** The write itself, and what a cut from its beginning on may leave. */
  method WriteOnce(dr: FatDriver, name: CString, src: Source, replace: bool, k: nat) returns (ok: bool)
    requires Ready(dr) && src.Len() < U32 && |dr.past| <= k
    modifies dr
    ensures Going(dr, [], false) && dr.g == old(dr.g) && dr.stays == old(dr.stays)
    ensures OldOrNew(dr.g, old(dr.disk), CutAt(dr.past, dr.disk, k), ok, old(dr.cwd),
                     FatName(name), Shown(FatName(name), FileNode(src.Content())))
  {
    hide *;
    ReadyParts(dr);
    ghost var g, d0, m0, p0, f, n, w := dr.g, dr.disk, dr.m, dr.past, dr.cwd, FatName(name), src.Content();
    ghost var nc;
    ok, nc := dr.WriteFile(name, src, replace);
    if name == [] {
      SameSound(g, p0, dr.past);
      SameSelf(g, d0);
      OldMake(g, d0, d0, ok, f, n, Shown(n, FileNode(w)));
      CutIs(dr.past, dr.disk, k);
    } else {
      WriteParts(g, d0, p0, m0, dr.disk, dr.past, dr.m, f, n, w, nc, replace, ok, dr.reliable);
      if ok {
        StoredParts(g, d0, m0, dr.past, |p0|, dr.disk, dr.m, f, n, FileNode(w));
        ChangedSound(g, d0, m0, p0, dr.past, dr.disk, dr.m, f, n, Shown(n, FileNode(w)));
        AfterCut(g, d0, m0, dr.m, dr.past, |p0|, dr.disk, f, n, Shown(n, FileNode(w)), k);
      } else {
        StayedSound(g, d0, m0, p0, dr.past, dr.disk);
        BeforeCut(g, d0, m0, dr.past, |p0|, dr.disk, f, n, Shown(n, FileNode(w)), k);
      }
    }
    ReadyMake(dr);
    CuttableNone(g, dr.stays, false);
    GoingMake(dr, [], false);
  }

  lemma SameSelf(g: Geo, d: Disk)
    ensures SameTree(g, d, d)
  {
    hide Resolve;
  }

  lemma OldMake(g: Geo, d0: Disk, d: Disk, done: bool, f: nat, name: Name, node: Node)
    requires SameTree(g, d0, d)
    ensures OldOrNew(g, d0, d, done, f, name, node)
  {
    hide SameTree;
    hide EditedTree;
  }

  lemma SameThen(g: Geo, d0: Disk, d1: Disk, d: Disk)
    requires SameTree(g, d0, d1) && SameTree(g, d1, d)
    ensures SameTree(g, d0, d)
  {
    hide Resolve;
  }

  lemma AfterCut(g: Geo, d0: Disk, m0: Model, m1: Model, past: seq<Disk>, n0: nat, d: Disk, f: nat, name: Name,
                 node: Node, k: nat)
    requires Changed(g, d0, m0, past, n0, d, m1, f, name, node) && n0 <= k
    ensures OldOrNew(g, d0, CutAt(past, d, k), true, f, name, node)
  {
    hide WF;
    hide SameTree;
    hide EditedTree;
  }

  lemma BeforeCut(g: Geo, d0: Disk, m0: Model, past: seq<Disk>, n0: nat, d: Disk, f: nat, name: Name, node: Node,
                  k: nat)
    requires Stayed(g, d0, m0, past, n0, d) && n0 <= k
    ensures OldOrNew(g, d0, CutAt(past, d, k), false, f, name, node)
  {
    hide WF;
    hide SameTree;
    hide EditedTree;
  }

  /** The name of one such byte: a write of it answers success and stores nothing
      anyone can find. */
  lemma LostName()
    ensures LooksDeleted([0xE5]) && forall node: Node :: Shown(FatName([0xE5]), node) == Absent
  {
    forall node: Node
      ensures Shown(FatName([0xE5]), node) == Absent
    {
      NameShown([0xE5], node);
    }
  }
}
