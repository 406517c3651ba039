/** Names past the reach of searches: a search of a chain folder looks at its
    first MAX_DIR_SECTORS sectors only, whatever else its chain holds. */
module Hidden {
  import opened Bytes
  import opened Layout
  import opened Folders
  import opened Tree
  import opened Volume
  import opened SectorWrites
  import opened Commits
  import opened Fresh
  import opened Reach
  import opened Marking

  /** The slots searches do not get to. */
  function PastSeen(g: Geo, f: nat, s: seq<Ent>): seq<Ent> { s[|Seen(g, f, s)|..] }

  /** Storing a name no search finds keeps the names of the whole folder unique
      exactly when no live entry past the searches has the name. */
  lemma StoredOnce(g: Geo, f: nat, s: seq<Ent>, k: nat, e: Ent)
    requires UniqueNames(s) && k < |Seen(g, f, s)| && IsFree(s[k]) && Live(e) && NotAmong(Seen(g, f, s), e.name)
    ensures UniqueNames(s[k := e]) <==> NotAmong(PastSeen(g, f, s), e.name)
  {
    var n, r := |Seen(g, f, s)|, s[k := e];
    if NotAmong(PastSeen(g, f, s), e.name) {
      forall j | 0 <= j < |s| && Live(s[j])
        ensures s[j].name != e.name
      {
        if j < n { assert Seen(g, f, s)[j] == s[j]; } else { assert PastSeen(g, f, s)[j - n] == s[j]; }
      }
    } else {
      var j :| 0 <= j < |PastSeen(g, f, s)| && Live(PastSeen(g, f, s)[j]) && PastSeen(g, f, s)[j].name == e.name;
      assert r[n + j] == s[n + j] == PastSeen(g, f, s)[j] && r[k] == e;
    }
  }

  /** A new entry under the name of the one it replaces. */
  lemma ReplacedOnce(g: Geo, f: nat, s: seq<Ent>, k: nat, e: Ent)
    requires UniqueNames(s) && k < |Seen(g, f, s)| && Live(s[k]) && Live(e) && e.name == s[k].name
    ensures UniqueNames(s[k := e]) && NotAmong(PastSeen(g, f, s), e.name)
  {
    var n := |Seen(g, f, s)|;
    forall j | 0 <= j < |PastSeen(g, f, s)| && Live(PastSeen(g, f, s)[j])
      ensures PastSeen(g, f, s)[j].name != e.name
    {
      assert PastSeen(g, f, s)[j] == s[n + j] && s[k].name != s[n + j].name;
    }
  }

  lemma DeadOnce(s: seq<Ent>, k: nat, e: Ent)
    requires UniqueNames(s) && k < |s| && !Live(e)
    ensures UniqueNames(s[k := e])
  {
  }

  /** A folder of at most MAX_DIR_SECTORS sectors, or a fixed root, hides nothing. */
  lemma NothingHidden(g: Geo, f: nat, s: seq<Ent>, n: Name)
    requires FixedRoot(g, f) || |s| <= 16 * MAX_DIR_SECTORS
    ensures NotAmong(PastSeen(g, f, s), n)
  {
  }

  /** What a store of name n in folder f does to the names of the whole folder. */
  ghost predicate OneName(g: Geo, d0: Disk, d1: Disk, f: nat, n: Name) {
    var s := Listing(g, d0, HeadOf(g, f));
    UniqueNames(s) ==>
      (UniqueNames(Listing(g, d1, HeadOf(g, f))) <==> n[0] == DELETED || NotAmong(PastSeen(g, f, s), n))
  }

  /** Entry e was stored in slot k: one no search finds a name in, or one of a
      file of that name. */
  lemma OneNameStored(g: Geo, d0: Disk, m0: Model, d1: Disk, m1: Model, f: nat, k: nat, e: Ent)
    requires WF(g, d0, m0) && WF(g, d1, m1) && f in m0.depth && f in m1.depth
    requires k < |DiskSlots(g, d0, f)| && e.name[0] != END && !IsVolumeId(e)
    requires f in DirsOf(g, d0, m0) && k < |DirsOf(g, d0, m0)[f]|
    requires f in DirsOf(g, d1, m1) && DirsOf(g, d1, m1)[f] == DirsOf(g, d0, m0)[f][k := e]
    requires var s := DiskSlots(g, d0, f);
             if IsFree(s[k]) then NotAmong(s, e.name) else Live(s[k]) && s[k].name == e.name
    ensures OneName(g, d0, d1, f, e.name)
  {
    hide *;
    DiskSlotsOf(g, d0, m0, f);
    SeenFolder(g, d0, m0, f);
    ListingOf(g, d0, m0, f);
    ListingOf(g, d1, m1, f);
    var s := DirsOf(g, d0, m0)[f];
    LiveIs(e);
    LiveIs(s[k]);
    if UniqueNames(s) {
      if e.name[0] == DELETED {
        DeadOnce(s, k, e);
      } else if IsFree(s[k]) {
        StoredOnce(g, f, s, k, e);
      } else {
        ReplacedOnce(g, f, s, k, e);
      }
    }
    OneNameMake(g, d0, d1, f, e.name);
  }

  /** The same, once the operation is over. */
  lemma OneNameAfter(g: Geo, d0: Disk, m0: Model, d1: Disk, d: Disk, m1: Model, f: nat, k: nat, e: Ent)
    requires f in m0.depth && f in m1.depth && k < |DiskSlots(g, d0, f)| && e.name[0] != END && !IsVolumeId(e)
    requires var s := DiskSlots(g, d0, f);
             if IsFree(s[k]) then forall j | 0 <= j < |s| :: !Matches(s[j], e.name, false)
               else Live(s[k]) && s[k].name == e.name
    requires StoredIn(g, d0, m0, d1, m1, f, k, e) && Keeps(g, d1, d, Used(m1)) && WF(g, d0, m0) && WF(g, d1, m1)
    ensures OneName(g, d0, d, f, e.name)
  {
    hide *;
    KeepsWF(g, d1, d, m1);
    StoredFrom(g, d0, d0, m0, d1, d, m1, f, k, e);
    StoredInParts(g, d0, m0, d, m1, f, k, e);
    if IsFree(DiskSlots(g, d0, f)[k]) { NameFree(DiskSlots(g, d0, f), e.name); }
    OneNameStored(g, d0, m0, d, m1, f, k, e);
  }

  lemma PlainEntry(name: Name, attr: byte, c: nat, size: nat)
    requires attr == 0 || attr == ATTR_DIR
    ensures !IsVolumeId(Ent(name, attr, c, size))
  {
  }

  lemma LiveIs(e: Ent)
    ensures Live(e) <==> e.name[0] != END && e.name[0] != DELETED && !IsVolumeId(e)
  {
  }

  lemma OneNameMake(g: Geo, d0: Disk, d1: Disk, f: nat, n: Name)
    requires var s := Listing(g, d0, HeadOf(g, f));
             UniqueNames(s) ==>
               (UniqueNames(Listing(g, d1, HeadOf(g, f))) <==> n[0] == DELETED || NotAmong(PastSeen(g, f, s), n))
    ensures OneName(g, d0, d1, f, n)
  {
    hide Listing;
    hide UniqueNames;
    hide NotAmong;
    hide PastSeen;
  }

  // ----- fat_rmdir

  /** Nothing in the folder leads to a chain. */
  ghost predicate NoChains(s: seq<Ent>) {
    forall k | 0 <= k < |s| && Child(s[k]) :: s[k].cluster < 2
  }

  /** Removing a folder that looks empty takes more than the folder exactly when
      an entry in it, past the searches, leads to a chain. */
  lemma RemovedToo(g: Geo, d: Disk, m: Model, o: nat)
    requires o in m.depth && o in m.loc && o in m.ch && WF(g, d, m)
    ensures Gone(m, o) == {o} <==> NoChains(Listing(g, d, HeadOf(g, o)))
  {
    hide *;
    WFParts(g, d, m);
    KidsThere(g, d, m, o);
    ListingOf(g, d, m, o);
    RemovedHeads(g, m, DirsOf(g, d, m), o);
  }

  lemma RemovedHeads(g: Geo, m: Model, s: Dirs, o: nat)
    requires HeadsOk(g, m, s) && o in m.depth && o in m.loc && o in m.ch && o in s
    requires forall k | 0 <= k < |s[o]| && Child(s[o][k]) :: KidOk(g, m, o, k, s[o][k])
    ensures Gone(m, o) == {o} <==> NoChains(s[o])
  {
    hide Sectors;
    hide LocOk;
    hide Child;
    LocFacts(m, s, o);
    assert Up(m, o, 0) == o;
    assert m.loc[o].0 != o;
    if Gone(m, o) == {o} {
      forall k | 0 <= k < |s[o]| && Child(s[o][k])
        ensures s[o][k].cluster < 2
      {
        var c := s[o][k].cluster;
        assert KidOk(g, m, o, k, s[o][k]);
        if c >= 2 { GoneInside(m, o, c); }
      }
    }
    if NoChains(s[o]) {
      forall h | h in m.loc
        ensures m.loc[h].0 != o
      {
        LocFacts(m, s, h);
      }
      forall h | h in Gone(m, o)
        ensures h == o
      {
        OnlyTop(m, h, o);
      }
    }
  }

  /** With nothing named directly from inside o, nothing is further down. */
  lemma OnlyTop(m: Model, h: nat, o: nat)
    requires o in m.loc && o in m.ch && h in Gone(m, o) && forall x | x in m.loc :: m.loc[x].0 != o
    ensures h == o
  {
    var n: nat :| Up(m, h, n) == o;
  }
}
