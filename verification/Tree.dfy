/** The shape of a well-formed volume, free of any disk: a FAT table, the slots
    of every folder, and a ghost model that says which chain and which entry
    each cluster belongs to.  Entries are added and removed one slot at a time,
    which is all one directory-sector write ever does. */
module Tree {
  import opened Layout
  import opened Chains
  import opened Folders

  /** ch: the chain of each head; owner: the head of each cluster in a chain;
      loc: folder and slot of the entry that names a head; depth: nesting of
      each folder (the folders are depth's keys, and 0 is the root). */
  datatype Model = Model(ch: map<nat, seq<nat>>, owner: map<nat, nat>, loc: map<nat, (nat, nat)>, depth: map<nat, nat>)

  type Dirs = map<nat, seq<Ent>>

  const MAX_DIR_SECTORS: nat := 256

  predicate FixedRoot(g: Geo, f: nat) { f == 0 && !g.fat32 }

  /** The slots of folder f that searches look at: of a chain folder those of
      its first MAX_DIR_SECTORS sectors. */
  function Seen(g: Geo, f: nat, s: seq<Ent>): (r: seq<Ent>)
    ensures r <= s
  {
    if FixedRoot(g, f) || |s| <= 16 * MAX_DIR_SECTORS then s else s[..16 * MAX_DIR_SECTORS]
  }

  lemma SeenUpdated(g: Geo, f: nat, s: seq<Ent>, k: nat, e: Ent)
    requires k < |s|
    ensures Seen(g, f, s[k := e]) == if k < |Seen(g, f, s)| then Seen(g, f, s)[k := e] else Seen(g, f, s)
  {
  }

  /** Sectors of a chain of n clusters. */
  function Sectors(g: Geo, n: nat): nat { n * g.spc }

  /** First cluster of a folder's chain; 0 is the root. */
  function HeadOf(g: Geo, f: nat): nat { if f == 0 && g.fat32 then g.rootCluster else f }

  function ChainOf(g: Geo, m: Model, f: nat): seq<nat> {
    if HeadOf(g, f) in m.ch then m.ch[HeadOf(g, f)] else []
  }

  ghost predicate Owns(m: Model, h: nat) {
    h in m.ch && forall i | 0 <= i < |m.ch[h]| :: m.ch[h][i] in m.owner && m.owner[m.ch[h][i]] == h
  }

  /** Every chain is in range, linked and ended, and no cluster is in two. */
  ghost predicate ChainsOk(g: Geo, t: seq<nat>, m: Model) {
    && |t| == g.Limit()
    && (forall h | h in m.ch :: IsChain(t, g.Eoc(), m.ch[h]) && m.ch[h][0] == h && Owns(m, h))
    && (forall c | c in m.owner :: m.owner[c] in m.ch && c in m.ch[m.owner[c]])
  }

  /** The entry that names head h is where the model says. */
  ghost predicate LocOk(m: Model, s: Dirs, h: nat) {
    && h >= 2 && h in m.loc && h in m.ch && m.loc[h].0 in s && m.loc[h].0 in m.depth && m.loc[h].1 < |s[m.loc[h].0]|
    && var e := s[m.loc[h].0][m.loc[h].1];
    && Child(e) && e.cluster == h && (IsDir(e) <==> h in m.depth)
    && (h in m.depth ==> m.depth[h] == m.depth[m.loc[h].0] + 1)
  }

  ghost predicate HeadsOk(g: Geo, m: Model, s: Dirs) {
    && s.Keys == m.depth.Keys && 0 in m.depth && m.depth[0] == 0
    && (forall h | h in m.loc :: LocOk(m, s, h))
    && (forall h | h in m.ch :: h in m.loc || (g.fat32 && h == g.rootCluster))
    && (g.fat32 ==> g.rootCluster in m.ch && g.rootCluster !in m.loc)
    && (forall f | f in m.depth && f != 0 :: f in m.loc)
  }

  /** What a live entry at slot k of folder f names is its own chain, and a
      file's chain holds all its bytes. */
  ghost predicate KidOk(g: Geo, m: Model, f: nat, k: nat, e: Ent) {
    && (IsDir(e) ==> e.cluster >= 2)
    && (e.cluster >= 2 ==> e.cluster in m.loc && m.loc[e.cluster] == (f, k) && e.cluster in m.ch)
    && (!IsDir(e) && e.size > 0 ==> e.cluster >= 2 && e.size <= Sectors(g, |m.ch[e.cluster]|) * 512)
  }

  ghost predicate DotDotOk(s: seq<Ent>, parent: nat) {
    DotDotFrom(s, 0) < |s| && s[DotDotFrom(s, 0)].cluster == parent
  }

  /** End markers come last, live names are unique, and only "." and ".."
      start with a dot. */
  ghost predicate NamesOk(s: seq<Ent>) {
    && Ended(s) && UniqueNames(s)
    && forall k | 0 <= k < |s| && Live(s[k]) && s[k].name[0] == DOTCHAR :: IsDot(s[k].name)
  }

  ghost predicate KidsOk(g: Geo, m: Model, f: nat, s: seq<Ent>) {
    forall k | 0 <= k < |s| && Child(s[k]) :: KidOk(g, m, f, k, s[k])
  }

  /** All entries lead to chains of their own; names and ".." are in order among
      the slots that searches look at. */
  ghost predicate FolderOk(g: Geo, m: Model, f: nat, s: seq<Ent>) {
    && Ended(s) && NamesOk(Seen(g, f, s)) && KidsOk(g, m, f, s)
    && (f != 0 ==> f in m.loc && DotDotOk(Seen(g, f, s), m.loc[f].0))
  }

  ghost predicate WellFormed(g: Geo, t: seq<nat>, m: Model, s: Dirs) {
    && ChainsOk(g, t, m) && HeadsOk(g, m, s)
    && forall f | f in s :: FolderOk(g, m, f, s[f])
  }

  /** What LocOk says of one head.  Proofs about all heads hide LocOk, which
      would otherwise climb from folder to folder, and use this. */
  lemma LocFacts(m: Model, s: Dirs, h: nat)
    requires LocOk(m, s, h)
    ensures h >= 2 && h in m.loc && h in m.ch && m.loc[h].0 in s && m.loc[h].0 in m.depth
            && m.loc[h].1 < |s[m.loc[h].0]|
    ensures var e := s[m.loc[h].0][m.loc[h].1]; Child(e) && e.cluster == h && (IsDir(e) <==> h in m.depth)
    ensures h in m.depth ==> m.depth[h] == m.depth[m.loc[h].0] + 1
  {
  }

  // ----- removing an entry

  /** n times from a head to the folder that holds its entry. */
  function Up(m: Model, h: nat, n: nat): nat {
    if n == 0 then h else if Up(m, h, n - 1) in m.loc then m.loc[Up(m, h, n - 1)].0 else Up(m, h, n - 1)
  }

  ghost predicate Under(m: Model, h: nat, o: nat) {
    exists n: nat :: Up(m, h, n) == o
  }

  /** Head o and every head named from inside it, as far as o is one. */
  ghost function Gone(m: Model, o: nat): set<nat> {
    if o in m.loc && o in m.ch then set h | h in m.loc && Under(m, h, o) else {}
  }

  /** The model without a set of heads. */
  function Pruned(m: Model, r: set<nat>): Model {
    Model(m.ch - r, map c | c in m.owner && m.owner[c] !in r :: m.owner[c], m.loc - r, m.depth - r)
  }

  /** The model without head o and what it leads to. */
  ghost function Without(m: Model, o: nat): Model {
    if o in m.loc && o in m.ch then Pruned(m, Gone(m, o)) else m
  }

  function SlotsWithout(s: Dirs, r: set<nat>, f: nat, k: nat): Dirs
    requires f in s && k < |s[f]|
  {
    (s - r)[f := s[f][k := s[f][k].(name := s[f][k].name[0 := DELETED])]]
  }

  /** A folder with nothing in it but deleted and dot entries. */
  ghost predicate NoChildren(s: seq<Ent>) {
    forall k | 0 <= k < |s| :: !Child(s[k])
  }

  lemma {:induction false} UpShift(m: Model, h: nat, n: nat)
    requires h in m.loc
    ensures Up(m, h, n + 1) == Up(m, m.loc[h].0, n)
  {
    if n > 0 { UpShift(m, h, n - 1); }
  }

  lemma {:induction false} UpStays(m: Model, h: nat, n: nat)
    requires h !in m.loc
    ensures Up(m, h, n) == h
  {
    if n > 0 { UpStays(m, h, n - 1); }
  }

  lemma {:induction false} UpDepth(g: Geo, m: Model, s: Dirs, f: nat, n: nat)
    requires HeadsOk(g, m, s) && f in m.depth
    ensures Up(m, f, n) in m.depth && m.depth[Up(m, f, n)] <= m.depth[f]
  {
    hide LocOk;
    if n > 0 {
      UpDepth(g, m, s, f, n - 1);
      if Up(m, f, n - 1) in m.loc { LocFacts(m, s, Up(m, f, n - 1)); }
    }
  }

  /** r is o with all the heads named from inside it: what removing slot k of
      folder f, which names o, takes out of the model. */
  ghost predicate Branch(m: Model, r: set<nat>, f: nat, k: nat, o: nat) {
    if o in m.loc then
      && o >= 2 && o in m.ch && m.loc[o] == (f, k) && o in r && r <= m.loc.Keys && f !in r
      && (forall h | h in r && h != o :: m.loc[h].0 in r) && (forall h | h in m.loc && m.loc[h].0 in r :: h in r)
    else o < 2 && r == {}
  }

  lemma GoneInside(m: Model, o: nat, h: nat)
    requires o in m.loc && o in m.ch && h in m.loc
    ensures h in Gone(m, o) && h != o ==> m.loc[h].0 in Gone(m, o)
    ensures m.loc[h].0 in Gone(m, o) ==> h in Gone(m, o)
  {
    var p := m.loc[h].0;
    if h in Gone(m, o) && h != o {
      var n: nat :| Up(m, h, n) == o;
      UpShift(m, h, n - 1);
      if p !in m.loc { UpStays(m, p, n - 1); }
      assert Up(m, p, n - 1) == o;
    }
    if p in Gone(m, o) {
      var n: nat :| Up(m, p, n) == o;
      UpShift(m, h, n);
      assert Up(m, h, n + 1) == o;
    }
  }

  lemma GoneBranch(g: Geo, m: Model, s: Dirs, f: nat, k: nat, o: nat)
    requires HeadsOk(g, m, s) && (if o >= 2 then o in m.loc && o in m.ch && m.loc[o] == (f, k) else o !in m.loc)
    ensures Branch(m, Gone(m, o), f, k, o)
  {
    hide LocOk;
    if o >= 2 {
      assert Up(m, o, 0) == o;
      LocFacts(m, s, o);
      if f in Gone(m, o) {
        var n: nat :| Up(m, f, n) == o;
        UpDepth(g, m, s, f, n);
      }
      forall h | h in m.loc
        ensures h in Gone(m, o) && h != o ==> m.loc[h].0 in Gone(m, o)
        ensures m.loc[h].0 in Gone(m, o) ==> h in Gone(m, o)
      {
        GoneInside(m, o, h);
      }
    }
  }

  lemma PrunedChains(g: Geo, t: seq<nat>, m: Model, r: set<nat>)
    requires ChainsOk(g, t, m)
    ensures ChainsOk(g, t, Pruned(m, r))
  {
    var n := Pruned(m, r);
    forall h | h in n.ch
      ensures Owns(n, h)
    {
      assert Owns(m, h);
    }
  }

  /** Slot k of folder f, one that searches look at, names o, and o, if a
      folder, looks empty. */
  ghost predicate Removable(g: Geo, m: Model, s: Dirs, f: nat, k: nat, o: nat) {
    && f in s && k < |Seen(g, f, s[f])| && Child(s[f][k]) && s[f][k].cluster == o
    && (IsDir(s[f][k]) ==> o in s && NoChildren(Seen(g, o, s[o])))
  }

  lemma RemovedHead(g: Geo, m: Model, s: Dirs, f: nat, k: nat, o: nat)
    requires HeadsOk(g, m, s) && f in s && FolderOk(g, m, f, s[f]) && Removable(g, m, s, f, k, o)
    ensures o >= 2 ==> f != o && o in m.loc && o in m.ch && m.loc[o] == (f, k) && (o in m.depth <==> IsDir(s[f][k]))
    ensures o < 2 ==> o !in m.loc && !IsDir(s[f][k])
    ensures Branch(m, Gone(m, o), f, k, o)
  {
    hide Sectors;
    hide LocOk;
    hide Seen;
    assert KidOk(g, m, f, k, s[f][k]);
    if o >= 2 || o in m.loc { LocFacts(m, s, o); }
    hide FolderOk;
    hide HeadsOk;
    GoneBranch(g, m, s, f, k, o);
  }

  lemma PrunedLoc(g: Geo, m: Model, s: Dirs, r: set<nat>, f: nat, k: nat, o: nat, h: nat)
    requires f in s && k < |s[f]| && s[f][k].cluster == o && Branch(m, r, f, k, o)
    requires h in m.loc && h !in r && LocOk(m, s, h)
    ensures LocOk(Pruned(m, r), SlotsWithout(s, r, f, k), h)
  {
  }

  lemma PrunedHeads(g: Geo, m: Model, s: Dirs, r: set<nat>, f: nat, k: nat, o: nat)
    requires HeadsOk(g, m, s) && f in s && k < |s[f]| && s[f][k].cluster == o && Branch(m, r, f, k, o)
    ensures HeadsOk(g, Pruned(m, r), SlotsWithout(s, r, f, k))
  {
    hide LocOk;
    var n, q := Pruned(m, r), SlotsWithout(s, r, f, k);
    forall h | h in n.loc
      ensures LocOk(n, q, h)
    {
      assert LocOk(m, s, h);
      PrunedLoc(g, m, s, r, f, k, o, h);
    }
    assert 0 !in m.loc by { if 0 in m.loc { LocFacts(m, s, 0); } }
    assert q.Keys == n.depth.Keys;
  }

  lemma {:induction false} DotDotUnmoved(s: seq<Ent>, k: nat, e: Ent, i: nat)
    requires i <= |s| && k < |s| && s[k].name != DOTDOT && e.name != DOTDOT
    ensures DotDotFrom(s[k := e], i) == DotDotFrom(s, i)
    decreases |s| - i
  {
    if i < |s| && s[i].name != DOTDOT { DotDotUnmoved(s, k, e, i + 1); }
  }

  /** Slot k of s, deleted: the names stay in order. */
  lemma NamesWithout(s: seq<Ent>, k: nat)
    requires NamesOk(s) && k < |s| && Live(s[k])
    ensures NamesOk(s[k := s[k].(name := s[k].name[0 := DELETED])])
  {
    hide IsDot;
    hide IsVolumeId;
  }

  lemma KidsPruned(g: Geo, m: Model, s: Dirs, r: set<nat>, f: nat, k: nat, o: nat, x: nat)
    requires f in s && k < |s[f]| && x in s && x !in r && KidsOk(g, m, x, s[x]) && Branch(m, r, f, k, o)
    ensures KidsOk(g, Pruned(m, r), x, SlotsWithout(s, r, f, k)[x])
  {
    hide Sectors;
    hide IsDot;
    var n, q := Pruned(m, r), SlotsWithout(s, r, f, k);
    forall i | 0 <= i < |q[x]| && Child(q[x][i])
      ensures KidOk(g, n, x, i, q[x][i])
    {
      assert q[x][i] == s[x][i];
      assert KidOk(g, m, x, i, s[x][i]);
    }
  }

  lemma FolderPruned(g: Geo, m: Model, s: Dirs, r: set<nat>, f: nat, k: nat, o: nat, x: nat)
    requires f in s && k < |Seen(g, f, s[f])| && Child(s[f][k]) && Branch(m, r, f, k, o)
    requires x in s && x !in r && FolderOk(g, m, x, s[x])
    ensures FolderOk(g, Pruned(m, r), x, SlotsWithout(s, r, f, k)[x])
  {
    KidsPruned(g, m, s, r, f, k, o, x);
    if x == f {
      var e := SlotsWithout(s, r, f, k)[f][k];
      SeenUpdated(g, f, s[f], k, e);
      DotDotUnmoved(Seen(g, f, s[f]), k, e, 0);
      NamesWithout(Seen(g, f, s[f]), k);
      EndedWithout(s[f], k);
    }
    hide NamesOk;
    hide KidsOk;
    hide IsVolumeId;
    hide Seen;
  }

  lemma EndedWithout(s: seq<Ent>, k: nat)
    requires Ended(s) && k < |s| && Live(s[k])
    ensures Ended(s[k := s[k].(name := s[k].name[0 := DELETED])])
  {
    hide IsVolumeId;
  }

  /** Deleting a file, or a folder that looks empty, by overwriting the first
      byte of its entry leaves a well-formed volume without that entry's chain. */
  lemma RemoveEntry(g: Geo, t: seq<nat>, m: Model, s: Dirs, f: nat, k: nat, o: nat)
    requires WellFormed(g, t, m, s) && Removable(g, m, s, f, k, o)
    ensures WellFormed(g, t, Without(m, o), SlotsWithout(s, Gone(m, o), f, k))
  {
    RemovedHead(g, m, s, f, k, o);
    var r := Gone(m, o);
    WithoutIs(m, o);
    hide Gone;
    hide Without;
    hide Branch;
    hide FolderOk;
    PrunedChains(g, t, m, r);
    PrunedHeads(g, m, s, r, f, k, o);
    FolderNotGone(m, r, f, k, o);
    forall x | x in SlotsWithout(s, r, f, k)
      ensures FolderOk(g, Pruned(m, r), x, SlotsWithout(s, r, f, k)[x])
    {
      FolderPruned(g, m, s, r, f, k, o, x);
    }
    hide HeadsOk;
    hide ChainsOk;
  }

  lemma FolderNotGone(m: Model, r: set<nat>, f: nat, k: nat, o: nat)
    requires Branch(m, r, f, k, o)
    ensures f !in r
  {
  }

  lemma WithoutIs(m: Model, o: nat)
    ensures Without(m, o) == Pruned(m, Gone(m, o))
  {
    if !(o in m.loc && o in m.ch) {
      var n := Pruned(m, {});
      assert n.ch == m.ch && n.owner == m.owner && n.loc == m.loc && n.depth == m.depth;
    }
  }

  // ----- adding an entry

  /** The model with head c, named by slot k of folder f, on chain nc. */
  function With(m: Model, f: nat, k: nat, c: nat, nc: seq<nat>, dir: bool): Model
    requires f in m.depth
  {
    if c >= 2 then
      Model(m.ch[c := nc], m.owner + (map x | x in nc :: c), m.loc[c := (f, k)],
            if dir then m.depth[c := m.depth[f] + 1] else m.depth)
    else m
  }

  function SlotsWith(s: Dirs, f: nat, k: nat, e: Ent, ns: seq<Ent>): Dirs
    requires f in s && k < |s[f]|
  {
    var r := s[f := s[f][k := e]];
    if IsDir(e) then r[e.cluster := ns] else r
  }

  /** Slot k may take an entry: it is free, and no end marker comes before it. */
  ghost predicate Placeable(s: seq<Ent>, k: nat) {
    k < |s| && IsFree(s[k]) && forall j | 0 <= j < k :: s[j].name[0] != END
  }

  /** e is a new live entry for slot k, and nc, when it has a cluster, a chain
      nothing uses; ns is what a new folder holds. */
  ghost predicate Insertable(g: Geo, t: seq<nat>, m: Model, s: Dirs, f: nat, k: nat, e: Ent, nc: seq<nat>,
                             ns: seq<Ent>) {
    && f in s && k < |Seen(g, f, s[f])| && Placeable(s[f], k)
    && Child(e) && e.name[0] != DOTCHAR && NotAmong(Seen(g, f, s[f]), e.name)
    && (e.cluster >= 2 ==>
          IsChain(t, g.Eoc(), nc) && nc[0] == e.cluster && Injective(nc)
            && forall i | 0 <= i < |nc| :: nc[i] !in m.owner)
    && (e.cluster < 2 ==> e.size == 0 && !IsDir(e))
    && (!IsDir(e) && e.cluster >= 2 ==> e.size <= Sectors(g, |nc|) * 512)
    && (IsDir(e) ==> EmptyFolder(ns, f))
  }

  /** No live entry has the name. */
  ghost predicate NotAmong(s: seq<Ent>, n: Name) {
    forall j | 0 <= j < |s| && Live(s[j]) :: s[j].name != n
  }

  /** A folder that holds no child, with its parent in "..". */
  ghost predicate EmptyFolder(ns: seq<Ent>, parent: nat) {
    |ns| <= 16 * MAX_DIR_SECTORS && NamesOk(ns) && NoChildren(ns) && DotDotOk(ns, parent)
  }

  lemma HeadOwned(g: Geo, t: seq<nat>, m: Model, h: nat)
    requires ChainsOk(g, t, m) && h in m.ch
    ensures h in m.owner && m.owner[h] == h
  {
    assert Owns(m, h) && m.ch[h][0] == h;
  }

  lemma WithChains(g: Geo, t: seq<nat>, m: Model, f: nat, k: nat, c: nat, nc: seq<nat>, dir: bool)
    requires ChainsOk(g, t, m) && f in m.depth && c >= 2
    requires IsChain(t, g.Eoc(), nc) && nc[0] == c && forall i | 0 <= i < |nc| :: nc[i] !in m.owner
    ensures c !in m.ch && ChainsOk(g, t, With(m, f, k, c, nc, dir))
  {
    var n := With(m, f, k, c, nc, dir);
    hide IsChain;
    hide Owns;
    if c in m.ch { HeadOwned(g, t, m, c); }
    forall h | h in n.ch
      ensures Owns(n, h)
    {
      OwnsWith(m, f, k, c, nc, dir, h);
    }
    forall x | x in n.owner
      ensures n.owner[x] in n.ch && x in n.ch[n.owner[x]]
    {
      OwnerWith(m, f, k, c, nc, dir, x);
    }
  }

  lemma OwnsWith(m: Model, f: nat, k: nat, c: nat, nc: seq<nat>, dir: bool, h: nat)
    requires f in m.depth && c >= 2 && c !in m.ch && forall i | 0 <= i < |nc| :: nc[i] !in m.owner
    requires h in With(m, f, k, c, nc, dir).ch && (h != c ==> Owns(m, h))
    ensures Owns(With(m, f, k, c, nc, dir), h)
  {
  }

  lemma OwnerWith(m: Model, f: nat, k: nat, c: nat, nc: seq<nat>, dir: bool, x: nat)
    requires f in m.depth && c >= 2 && c !in m.ch && forall i | 0 <= i < |nc| :: nc[i] !in m.owner
    requires forall x | x in m.owner :: m.owner[x] in m.ch && x in m.ch[m.owner[x]]
    requires x in With(m, f, k, c, nc, dir).owner
    ensures var n := With(m, f, k, c, nc, dir); n.owner[x] in n.ch && x in n.ch[n.owner[x]]
  {
  }

  lemma WithLoc(g: Geo, m: Model, s: Dirs, f: nat, k: nat, e: Ent, nc: seq<nat>, ns: seq<Ent>, h: nat)
    requires f in s && f in m.depth && Placeable(s[f], k) && e.cluster !in m.ch && Child(e)
    requires e.cluster >= 2 && e.cluster !in s && e.cluster !in m.loc && e.cluster !in m.depth
    requires LocOk(m, s, h) || h == e.cluster
    ensures LocOk(With(m, f, k, e.cluster, nc, IsDir(e)), SlotsWith(s, f, k, e, ns), h)
  {
  }

  lemma WithLocNone(m: Model, s: Dirs, f: nat, k: nat, e: Ent, h: nat)
    requires f in s && Placeable(s[f], k) && LocOk(m, s, h)
    ensures LocOk(m, s[f := s[f][k := e]], h)
  {
  }

  /** A cluster no chain uses heads nothing. */
  lemma FreshHead(g: Geo, t: seq<nat>, m: Model, s: Dirs, c: nat)
    requires ChainsOk(g, t, m) && HeadsOk(g, m, s) && c >= 2 && c !in m.owner
    ensures c !in m.ch && c !in m.loc && c !in m.depth && c !in s
  {
    hide LocOk;
    hide Sectors;
    if c in m.ch { HeadOwned(g, t, m, c); }
    if c in m.loc { LocFacts(m, s, c); }
  }

  lemma WithHeadsNone(g: Geo, m: Model, s: Dirs, f: nat, k: nat, e: Ent)
    requires HeadsOk(g, m, s) && f in s && k < |s[f]| && Placeable(s[f], k)
    ensures HeadsOk(g, m, s[f := s[f][k := e]])
  {
    hide Sectors;
    hide LocOk;
    hide Placeable;
    var r := s[f := s[f][k := e]];
    forall h | h in m.loc
      ensures LocOk(m, r, h)
    {
      WithLocNone(m, s, f, k, e, h);
    }
  }

  lemma WithHeads(g: Geo, m: Model, s: Dirs, f: nat, k: nat, e: Ent, nc: seq<nat>, ns: seq<Ent>)
    requires HeadsOk(g, m, s) && f in s && k < |s[f]| && Placeable(s[f], k) && Child(e)
    requires e.cluster >= 2 && e.cluster !in m.ch && e.cluster !in m.loc && e.cluster !in m.depth && e.cluster !in s
    ensures HeadsOk(g, With(m, f, k, e.cluster, nc, IsDir(e)), SlotsWith(s, f, k, e, ns))
  {
    hide Sectors;
    hide LocOk;
    hide Placeable;
    hide Child;
    hide IsDir;
    hide ChainOf;
    var n, r := With(m, f, k, e.cluster, nc, IsDir(e)), SlotsWith(s, f, k, e, ns);
    forall h | h in n.loc
      ensures LocOk(n, r, h)
    {
      WithLoc(g, m, s, f, k, e, nc, ns, h);
    }
  }

  lemma EndedKept(s: seq<Ent>, k: nat, e: Ent)
    requires Ended(s) && Placeable(s, k) && e.name[0] != END
    ensures Ended(s[k := e])
  {
  }

  lemma UniqueKept(s: seq<Ent>, k: nat, e: Ent)
    requires UniqueNames(s) && k < |s| && NotAmong(s, e.name)
    ensures UniqueNames(s[k := e])
  {
  }

  lemma WithKid(g: Geo, m: Model, s: seq<Ent>, f: nat, k: nat, e: Ent, nc: seq<nat>, x: nat, i: nat)
    requires f in m.depth && (x == f ==> k < |s|)
    requires e.cluster >= 2 ==> e.cluster !in m.ch && e.cluster !in m.loc
    requires e.cluster < 2 ==> e.size == 0 && !IsDir(e)
    requires !IsDir(e) && e.cluster >= 2 ==> e.size <= Sectors(g, |nc|) * 512
    requires i < |s| && ((x == f && i == k) || KidOk(g, m, x, i, s[i]))
    ensures KidOk(g, With(m, f, k, e.cluster, nc, IsDir(e)), x, i, if x == f && i == k then e else s[i])
  {
    hide Sectors;
  }

  lemma NamesKept(s: seq<Ent>, k: nat, e: Ent)
    requires NamesOk(s) && k < |s| && Placeable(s, k) && Live(e) && e.name[0] != DOTCHAR && NotAmong(s, e.name)
    ensures NamesOk(s[k := e])
  {
    EndedKept(s, k, e);
    UniqueKept(s, k, e);
    hide Ended;
    hide UniqueNames;
    hide Placeable;
    hide IsDot;
  }

  lemma WithKids(g: Geo, m: Model, s: seq<Ent>, f: nat, k: nat, e: Ent, nc: seq<nat>, x: nat)
    requires f in m.depth && (x == f ==> k < |s|)
    requires e.cluster >= 2 ==> e.cluster !in m.ch && e.cluster !in m.loc
    requires e.cluster < 2 ==> e.size == 0 && !IsDir(e)
    requires !IsDir(e) && e.cluster >= 2 ==> e.size <= Sectors(g, |nc|) * 512
    requires KidsOk(g, m, x, s)
    ensures KidsOk(g, With(m, f, k, e.cluster, nc, IsDir(e)), x, if x == f then s[k := e] else s)
  {
    var n := With(m, f, k, e.cluster, nc, IsDir(e));
    var r := if x == f then s[k := e] else s;
    forall i | 0 <= i < |r| && Child(r[i])
      ensures KidOk(g, n, x, i, r[i])
    {
      WithKid(g, m, s, f, k, e, nc, x, i);
    }
  }

  lemma WithFolder(g: Geo, m: Model, s: seq<Ent>, f: nat, k: nat, e: Ent, nc: seq<nat>, x: nat)
    requires f in m.depth && Live(e) && e.name[0] != DOTCHAR
    requires x == f ==> k < |Seen(g, f, s)| && Placeable(s, k) && NotAmong(Seen(g, f, s), e.name)
    requires e.cluster >= 2 ==> e.cluster !in m.ch && e.cluster !in m.loc
    requires e.cluster < 2 ==> e.size == 0 && !IsDir(e)
    requires !IsDir(e) && e.cluster >= 2 ==> e.size <= Sectors(g, |nc|) * 512
    requires FolderOk(g, m, x, s)
    ensures FolderOk(g, With(m, f, k, e.cluster, nc, IsDir(e)), x, if x == f then s[k := e] else s)
  {
    WithKids(g, m, s, f, k, e, nc, x);
    if x == f {
      SeenUpdated(g, f, s, k, e);
      SeenPlace(g, f, s, k);
      DotDotUnmoved(Seen(g, f, s), k, e, 0);
      NamesKept(Seen(g, f, s), k, e);
      EndedKept(s, k, e);
    }
    hide NamesOk;
    hide KidsOk;
    hide Seen;
    hide Placeable;
  }

  lemma SeenPlace(g: Geo, f: nat, s: seq<Ent>, k: nat)
    requires k < |Seen(g, f, s)|
    ensures Placeable(s, k) <==> Placeable(Seen(g, f, s), k)
    ensures Seen(g, f, s)[k] == s[k]
  {
    hide IsFree;
  }

  lemma WithNewFolder(g: Geo, m: Model, f: nat, k: nat, c: nat, nc: seq<nat>, ns: seq<Ent>)
    requires f in m.depth && c >= 2 && EmptyFolder(ns, f)
    ensures FolderOk(g, With(m, f, k, c, nc, true), c, ns)
  {
  }

  lemma InsertFolders(g: Geo, m: Model, s: Dirs, f: nat, k: nat, e: Ent, nc: seq<nat>, ns: seq<Ent>)
    requires f in m.depth && f in s && k < |Seen(g, f, s[f])| && Placeable(s[f], k) && Live(e) && e.name[0] != DOTCHAR
    requires NotAmong(Seen(g, f, s[f]), e.name)
    requires e.cluster >= 2 ==> e.cluster !in m.ch && e.cluster !in m.loc
    requires e.cluster < 2 ==> e.size == 0 && !IsDir(e)
    requires !IsDir(e) && e.cluster >= 2 ==> e.size <= Sectors(g, |nc|) * 512
    requires IsDir(e) ==> EmptyFolder(ns, f)
    requires forall x | x in s :: FolderOk(g, m, x, s[x])
    ensures var r := SlotsWith(s, f, k, e, ns);
            forall x | x in r :: FolderOk(g, With(m, f, k, e.cluster, nc, IsDir(e)), x, r[x])
  {
    hide FolderOk;
    hide Placeable;
    hide EmptyFolder;
    hide IsDir;
    hide Live;
    hide Sectors;
    hide Seen;
    hide NotAmong;
    var n, r := With(m, f, k, e.cluster, nc, IsDir(e)), SlotsWith(s, f, k, e, ns);
    if IsDir(e) { WithNewFolder(g, m, f, k, e.cluster, nc, ns); }
    forall x | x in r
      ensures FolderOk(g, n, x, r[x])
    {
      if x in s { WithFolder(g, m, s[x], f, k, e, nc, x); }
    }
  }

  /** Storing a new live entry in a free slot, once its chain is on the disk,
      leaves a well-formed volume with that chain added. */
  lemma InsertEntry(g: Geo, t: seq<nat>, m: Model, s: Dirs, f: nat, k: nat, e: Ent, nc: seq<nat>, ns: seq<Ent>)
    requires WellFormed(g, t, m, s) && Insertable(g, t, m, s, f, k, e, nc, ns)
    ensures f in m.depth && WellFormed(g, t, With(m, f, k, e.cluster, nc, IsDir(e)), SlotsWith(s, f, k, e, ns))
  {
    hide LocOk;
    hide Placeable;
    hide EmptyFolder;
    hide FolderOk;
    hide Sectors;
    hide IsFree;
    hide IsVolumeId;
    hide IsDot;
    if e.cluster >= 2 {
      assert nc[0] !in m.owner;
      FreshHead(g, t, m, s, e.cluster);
      WithChains(g, t, m, f, k, e.cluster, nc, IsDir(e));
      WithHeads(g, m, s, f, k, e, nc, ns);
    } else {
      assert e.cluster !in m.loc by { if e.cluster in m.loc { LocFacts(m, s, e.cluster); } }
      WithHeadsNone(g, m, s, f, k, e);
    }
    InsertFolders(g, m, s, f, k, e, nc, ns);
    hide ChainsOk;
    hide HeadsOk;
  }

  lemma DeadNames(s: seq<Ent>, k: nat, e: Ent)
    requires NamesOk(s) && k < |s| && Placeable(s, k) && e.name[0] == DELETED
    ensures NamesOk(s[k := e])
  {
    EndedKept(s, k, e);
    hide Ended;
  }

  lemma DeadKids(g: Geo, m: Model, x: nat, s: seq<Ent>, k: nat, e: Ent)
    requires KidsOk(g, m, x, s) && k < |s| && e.name[0] == DELETED
    ensures KidsOk(g, m, x, s[k := e])
  {
    hide KidOk;
  }

  lemma DeadFolder(g: Geo, m: Model, s: seq<Ent>, x: nat, k: nat, e: Ent)
    requires FolderOk(g, m, x, s) && k < |s| && Placeable(s, k) && e.name[0] == DELETED
    ensures FolderOk(g, m, x, s[k := e])
  {
    EndedKept(s, k, e);
    SeenUpdated(g, x, s, k, e);
    DeadKids(g, m, x, s, k, e);
    if k < |Seen(g, x, s)| {
      SeenPlace(g, x, s, k);
      DeadNames(Seen(g, x, s), k, e);
      DotDotUnmoved(Seen(g, x, s), k, e, 0);
    }
    hide Seen;
    hide NamesOk;
    hide KidsOk;
    hide Ended;
    hide Placeable;
  }

  /** A deleted-looking entry in a free slot changes nothing but that slot. */
  lemma InsertDead(g: Geo, t: seq<nat>, m: Model, s: Dirs, f: nat, k: nat, e: Ent)
    requires WellFormed(g, t, m, s) && f in s && k < |s[f]| && Placeable(s[f], k) && e.name[0] == DELETED
    ensures WellFormed(g, t, m, s[f := s[f][k := e]])
  {
    hide LocOk;
    hide Sectors;
    hide FolderOk;
    hide Placeable;
    hide ChainsOk;
    WithHeadsNone(g, m, s, f, k, e);
    DeadFolder(g, m, s[f], f, k, e);
  }
}
