/** What the entries of a disk, well-formed or not, lead to from the root, and
    the bookkeeping of a search that marks it. */
module Reach {
  import opened Arith
  import opened Bytes
  import opened Layout
  import opened FatTable
  import opened Chains
  import opened Folders
  import opened Tree
  import opened Volume
  import opened SectorWrites
  import opened Walks
  import opened Ranges

  const SCAN_DEPTH: nat := 12

  /** All the slots of the folder whose first cluster is f; 0 is a fixed root. */
  function Listing(g: Geo, d: Disk, f: nat): seq<Ent> {
    Slots(g.fat32, FolderBody(g, d, DiskChain(g, d, f), f))
  }

  /** No end marker among the first k slots. */
  ghost predicate Before(s: seq<Ent>, k: nat) {
    k <= |s| && forall j | 0 <= j < k :: s[j].name[0] != END
  }

  /** Slot k of folder f, before its end marker, names the chain at c. */
  ghost predicate NamedAt(g: Geo, d: Disk, f: nat, k: nat, c: nat, dir: bool) {
    var s := Listing(g, d, f);
    k < |s| && Before(s, k) && Child(s[k]) && s[k].cluster == c && c >= 2 && IsDir(s[k]) == dir
  }

  ghost predicate Named(g: Geo, d: Disk, f: nat, c: nat, dir: bool) {
    exists k: nat :: NamedAt(g, d, f, k, c, dir)
  }

  /** A path of n folders below the root leads to the chain at h. */
  ghost predicate Reached(g: Geo, d: Disk, h: nat, dir: bool, n: nat)
    decreases n
  {
    if n == 0 then dir && h == HeadOf(g, 0)
    else exists p: nat :: Reached(g, d, p, true, n - 1) && Named(g, d, p, h, dir)
  }

  /** x is a cluster of a chain some path leads to. */
  ghost predicate Reachable(g: Geo, d: Disk, x: nat) {
    exists h: nat, dir: bool, n: nat :: Reached(g, d, h, dir, n) && x in Elems(DiskChain(g, d, h))
  }

  /** No folder's chain shares a cluster with another chain. */
  ghost predicate FoldersApart(g: Geo, d: Disk) {
    forall f: nat, n: nat, h: nat, dir: bool, k: nat | Reached(g, d, f, true, n) && Reached(g, d, h, dir, k)
      && (h != f || !dir) ::
      Elems(DiskChain(g, d, f)) !! Elems(DiskChain(g, d, h))
  }

  /** Every chain a path leads to stays on the table until it ends, and folders
      nest less than SCAN_DEPTH deep. */
  ghost predicate Readable(g: Geo, d: Disk) {
    forall h: nat, dir: bool, n: nat | Reached(g, d, h, dir, n) ::
      && !(g.Limit() <= h < g.Eoc())
      && (forall x | x in Elems(DiskChain(g, d, h)) :: !(g.Limit() <= FatGet(g, d, x) < g.Eoc()))
      && (dir && (InTable(g, h) || n == 0) ==> n < SCAN_DEPTH)
  }

  // ----- the marks of a search

  /** Where a mark made since the marks were l came from: a chain whose head
      was not marked then and is now. */
  ghost predicate Origin(g: Geo, d: Disk, l: set<nat>, l1: set<nat>, x: nat, h: nat, dir: bool, n: nat) {
    Reached(g, d, h, dir, n) && h !in l && h in l1 && x in Elems(DiskChain(g, d, h))
  }

  ghost predicate HasOrigin(g: Geo, d: Disk, l: set<nat>, l1: set<nat>, x: nat) {
    exists h: nat, dir: bool, n: nat :: Origin(g, d, l, l1, x, h, dir, n)
  }

  /** The marks grew from l to l1, by clusters of chains some path leads to. */
  ghost predicate Grew(g: Geo, d: Disk, l: set<nat>, l1: set<nat>) {
    l <= l1 && forall x | x in l1 && x !in l :: HasOrigin(g, d, l, l1, x)
  }

  lemma GrewSelf(g: Geo, d: Disk, l: set<nat>)
    ensures Grew(g, d, l, l)
  {
  }

  lemma OriginWider(g: Geo, d: Disk, l: set<nat>, l1: set<nat>, k: set<nat>, k1: set<nat>, x: nat)
    requires HasOrigin(g, d, l, l1, x) && k <= l && l1 <= k1
    ensures HasOrigin(g, d, k, k1, x)
  {
    hide Reached;
    hide DiskChain;
    var h: nat, dir: bool, n: nat :| Origin(g, d, l, l1, x, h, dir, n);
    assert Origin(g, d, k, k1, x, h, dir, n);
  }

  lemma GrewThen(g: Geo, d: Disk, l: set<nat>, l1: set<nat>, l2: set<nat>)
    requires Grew(g, d, l, l1) && Grew(g, d, l1, l2)
    ensures Grew(g, d, l, l2)
  {
    hide HasOrigin;
    forall x | x in l2 && x !in l
      ensures HasOrigin(g, d, l, l2, x)
    {
      if x in l1 { OriginWider(g, d, l, l1, l, l2, x); } else { OriginWider(g, d, l1, l2, l, l2, x); }
    }
  }

  /** One more cluster of the chain at h is marked, the head the first. */
  lemma GrewMark(g: Geo, d: Disk, l: set<nat>, l1: set<nat>, x: nat, h: nat, dir: bool, n: nat)
    requires Grew(g, d, l, l1) && Reached(g, d, h, dir, n) && h !in l && x in Elems(DiskChain(g, d, h))
             && (x == h || h in l1)
    ensures Grew(g, d, l, l1 + {x})
  {
    hide Reached;
    hide DiskChain;
    var l2 := l1 + {x};
    assert Origin(g, d, l, l2, x, h, dir, n);
    assert HasOrigin(g, d, l, l2, x);
    forall y | y in l1 && y !in l
      ensures HasOrigin(g, d, l, l2, y)
    {
      OriginWider(g, d, l, l1, l, l2, y);
    }
    hide HasOrigin;
  }

  /** Everything marked is reachable, on any disk. */
  lemma MarksReachable(g: Geo, d: Disk, l: set<nat>)
    requires Grew(g, d, {}, l)
    ensures forall x | x in l :: Reachable(g, d, x)
  {
    forall x | x in l
      ensures Reachable(g, d, x)
    {
      assert HasOrigin(g, d, {}, l, x);
      MarkReachable(g, d, l, x);
    }
  }

  lemma MarkReachable(g: Geo, d: Disk, l: set<nat>, x: nat)
    requires HasOrigin(g, d, {}, l, x)
    ensures Reachable(g, d, x)
  {
    hide Reached;
    hide DiskChain;
    var h: nat, dir: bool, n: nat :| Origin(g, d, {}, l, x, h, dir, n);
    assert Reached(g, d, h, dir, n) && x in Elems(DiskChain(g, d, h));
  }

  /** A folder's chain is marked only by its own visit. */
  lemma FolderUntouched(g: Geo, d: Disk, l: set<nat>, l1: set<nat>, f: nat, n: nat, x: nat)
    requires FoldersApart(g, d) && Reached(g, d, f, true, n) && Grew(g, d, l, l1) && x in l1 && x !in l
             && x in Elems(DiskChain(g, d, f))
    ensures f !in l && f in l1
  {
    hide Reached;
    hide DiskChain;
    assert HasOrigin(g, d, l, l1, x);
    var h: nat, dir: bool, k: nat :| Origin(g, d, l, l1, x, h, dir, k);
    if h != f || !dir { assert Elems(DiskChain(g, d, f)) !! Elems(DiskChain(g, d, h)); }
  }

  /** Links out of marked clusters lead to marked ones, but for those of the
      clusters a walk is at. */
  ghost predicate Linked(t: seq<nat>, l: set<nat>, gray: set<nat>) {
    forall x | x in l && x !in gray && x < |t| && 2 <= t[x] < |t| :: t[x] in l
  }

  /** What e names is marked, and visited when it is a folder. */
  ghost predicate Handled(t: seq<nat>, l: set<nat>, seen: set<nat>, e: Ent) {
    Child(e) && 2 <= e.cluster < |t| ==> e.cluster in l && (IsDir(e) ==> e.cluster in seen)
  }

  ghost predicate HandledTo(t: seq<nat>, l: set<nat>, seen: set<nat>, s: seq<Ent>, k: nat) {
    k <= |s| && forall j | 0 <= j < k :: Handled(t, l, seen, s[j])
  }

  /** Every entry before the folder's end marker is handled. */
  ghost predicate Complete(t: seq<nat>, l: set<nat>, seen: set<nat>, s: seq<Ent>) {
    forall k: nat | k < |s| && Before(s, k) :: Handled(t, l, seen, s[k])
  }

  /** Every folder visited is complete, but for those still open. */
  ghost predicate Listed(g: Geo, d: Disk, l: set<nat>, seen: set<nat>, open: set<nat>) {
    forall f | f in seen && f !in open :: Complete(Table(g, d), l, seen, Listing(g, d, f))
  }

  ghost predicate Shallow(g: Geo, d: Disk, seen: set<nat>) {
    forall f | f in seen :: exists n: nat :: n < SCAN_DEPTH && Reached(g, d, f, true, n)
  }

  /** A marked folder head has been visited. */
  ghost predicate HeadsSeen(g: Geo, d: Disk, l: set<nat>, seen: set<nat>) {
    forall f: nat, n: nat | f in l && Reached(g, d, f, true, n) :: f in seen
  }

  /** Where a search stands on a disk whose folders are apart. */
  ghost predicate Standing(g: Geo, d: Disk, l: set<nat>, seen: set<nat>, gray: set<nat>, open: set<nat>) {
    FoldersApart(g, d) ==> Linked(Table(g, d), l, gray) && Listed(g, d, l, seen, open) && HeadsSeen(g, d, l, seen)
  }

  /** How far the scan of folder f's listing is: past k slots, or past its end. */
  ghost predicate Progress(g: Geo, d: Disk, l: set<nat>, seen: set<nat>, f: nat, k: nat, end: bool) {
    && (!end ==> Before(Listing(g, d, f), k))
    && (FoldersApart(g, d) ==>
          if end then Complete(Table(g, d), l, seen, Listing(g, d, f))
            else HandledTo(Table(g, d), l, seen, Listing(g, d, f), k))
  }

  lemma HandledMore(t: seq<nat>, l: set<nat>, seen: set<nat>, l1: set<nat>, seen1: set<nat>, s: seq<Ent>)
    requires l <= l1 && seen <= seen1
    ensures Complete(t, l, seen, s) ==> Complete(t, l1, seen1, s)
    ensures forall k: nat :: HandledTo(t, l, seen, s, k) ==> HandledTo(t, l1, seen1, s, k)
  {
    hide Before;
    hide Child;
  }

  /** A walk goes on from cluster y to x, an unmarked one: x is marked, and its
      link is what is left to follow. */
  lemma LinkedMark(t: seq<nat>, l: set<nat>, gray: set<nat>, x: nat, y: nat, first: bool)
    requires x !in l && (if first then Linked(t, l, gray) else y < |t| && t[y] == x && Linked(t, l, gray + {y}))
    ensures Linked(t, l + {x}, gray + {x})
  {
  }

  /** A walk stops: what its last cluster links to is marked or no cluster. */
  lemma LinkedStop(t: seq<nat>, l: set<nat>, gray: set<nat>, y: nat)
    requires Linked(t, l, gray + {y}) && y < |t| && (2 <= t[y] < |t| ==> t[y] in l)
    ensures Linked(t, l, gray)
  {
  }

  /** A search that has stopped has marked all there is. */
  lemma {:induction false} AllMarked(g: Geo, d: Disk, l: set<nat>, seen: set<nat>, h: nat, dir: bool, n: nat)
    requires Linked(Table(g, d), l, {}) && Listed(g, d, l, seen, {}) && Reached(g, d, h, dir, n)
    requires (InTable(g, HeadOf(g, 0)) ==> HeadOf(g, 0) in seen && HeadOf(g, 0) in l)
             && (HeadOf(g, 0) == 0 ==> 0 in seen)
    ensures InTable(g, h) ==> h in l && (dir ==> h in seen)
    ensures Elems(DiskChain(g, d, h)) <= l
    decreases n
  {
    hide *;
    if n > 0 {
      var p: nat, k: nat := ReachedParent(g, d, h, dir, n);
      AllMarked(g, d, l, seen, p, true, n - 1);
      ParentSeen(g, d, p, k, h, dir, n - 1);
      RootSeen(g, p, seen);
      NamedHandled(g, d, l, seen, p, k, h, dir);
    } else {
      ReachedRoot(g, d, h, dir);
      RootHead(g);
    }
    ChainMarked(g, d, l, h);
  }

  lemma RootSeen(g: Geo, p: nat, seen: set<nat>)
    requires (HeadOf(g, 0) == 0 ==> 0 in seen) && (InTable(g, p) ==> p in seen)
             && (InTable(g, p) || (p == 0 && !g.fat32))
    ensures p in seen
  {
  }

  lemma RootHead(g: Geo)
    ensures HeadOf(g, 0) == 0 ==> !InTable(g, 0)
  {
  }

  lemma ReachedRoot(g: Geo, d: Disk, h: nat, dir: bool)
    requires Reached(g, d, h, dir, 0)
    ensures h == HeadOf(g, 0) && dir
  {
  }

  lemma NamedHandled(g: Geo, d: Disk, l: set<nat>, seen: set<nat>, p: nat, k: nat, h: nat, dir: bool)
    requires Listed(g, d, l, seen, {}) && p in seen && NamedAt(g, d, p, k, h, dir)
    ensures InTable(g, h) ==> h in l && (dir ==> h in seen)
  {
    assert Complete(Table(g, d), l, seen, Listing(g, d, p));
    hide Child;
    hide Listing;
    hide Before;
  }

  lemma ChainMarked(g: Geo, d: Disk, l: set<nat>, h: nat)
    requires Linked(Table(g, d), l, {}) && (InTable(g, h) ==> h in l)
    ensures Elems(DiskChain(g, d, h)) <= l
  {
    OrbitClosed(Table(g, d), h, {}, l);
  }

  lemma ReachedFrom(g: Geo, d: Disk, h: nat, dir: bool, n: nat)
    requires Reached(g, d, h, dir, n) && n > 0
    ensures exists p: nat :: Reached(g, d, p, true, n - 1) && Named(g, d, p, h, dir)
  {
    hide Named;
  }

  lemma ReachedParent(g: Geo, d: Disk, h: nat, dir: bool, n: nat) returns (p: nat, k: nat)
    requires Reached(g, d, h, dir, n) && n > 0
    ensures Reached(g, d, p, true, n - 1) && NamedAt(g, d, p, k, h, dir)
  {
    ReachedFrom(g, d, h, dir, n);
    hide Reached;
    hide NamedAt;
    p :| Reached(g, d, p, true, n - 1) && Named(g, d, p, h, dir);
    k :| NamedAt(g, d, p, k, h, dir);
  }

  lemma ReachedChild(g: Geo, d: Disk, p: nat, k: nat, h: nat, dir: bool, n: nat)
    requires Reached(g, d, p, true, n) && NamedAt(g, d, p, k, h, dir)
    ensures Reached(g, d, h, dir, n + 1)
  {
    assert Named(g, d, p, h, dir);
    hide Named;
    hide NamedAt;
  }

  /** Only a folder with sectors names anything. */
  lemma ParentSeen(g: Geo, d: Disk, p: nat, k: nat, h: nat, dir: bool, n: nat)
    requires NamedAt(g, d, p, k, h, dir)
    ensures InTable(g, p) || (p == 0 && !g.fat32)
  {
    OrbitEmpty(Table(g, d), p);
  }

  // ----- one sector of a folder

  lemma ProgressMore(g: Geo, d: Disk, l: set<nat>, seen: set<nat>, l1: set<nat>, seen1: set<nat>, f: nat, k: nat,
                     end: bool)
    requires Progress(g, d, l, seen, f, k, end) && l <= l1 && seen <= seen1
    ensures Progress(g, d, l1, seen1, f, k, end)
  {
    hide Before;
    hide Listing;
    hide FoldersApart;
    hide Complete;
    hide HandledTo;
    HandledMore(Table(g, d), l, seen, l1, seen1, Listing(g, d, f));
  }

  /** The next slot is an end marker: the listing is complete. */
  lemma ProgressEnd(g: Geo, d: Disk, l: set<nat>, seen: set<nat>, f: nat, k: nat, k1: nat)
    requires Progress(g, d, l, seen, f, k, false) && k < |Listing(g, d, f)| && Listing(g, d, f)[k].name[0] == END
    ensures Progress(g, d, l, seen, f, k1, true)
  {
    hide Listing;
    hide FoldersApart;
    var s := Listing(g, d, f);
    forall j: nat | j < |s| && Before(s, j)
      ensures j <= k
    {
    }
  }

  /** The next slot is handled, or names nothing. */
  lemma ProgressStep(g: Geo, d: Disk, l: set<nat>, seen: set<nat>, f: nat, k: nat)
    requires Progress(g, d, l, seen, f, k, false) && k < |Listing(g, d, f)| && Listing(g, d, f)[k].name[0] != END
    requires FoldersApart(g, d) ==> Handled(Table(g, d), l, seen, Listing(g, d, f)[k])
    ensures Progress(g, d, l, seen, f, k + 1, false)
  {
    hide Listing;
    hide FoldersApart;
    hide Handled;
  }

  lemma ProgressNamed(g: Geo, d: Disk, l: set<nat>, seen: set<nat>, f: nat, k: nat, n: nat)
    requires Progress(g, d, l, seen, f, k, false) && k < |Listing(g, d, f)| && Child(Listing(g, d, f)[k])
    requires Listing(g, d, f)[k].cluster >= 2 && Reached(g, d, f, true, n)
    ensures Reached(g, d, Listing(g, d, f)[k].cluster, IsDir(Listing(g, d, f)[k]), n + 1)
  {
    hide Listing;
    hide FoldersApart;
    hide Child;
    hide IsDir;
    hide Reached;
    var e := Listing(g, d, f)[k];
    assert NamedAt(g, d, f, k, e.cluster, IsDir(e));
    ReachedChild(g, d, f, k, e.cluster, IsDir(e), n);
  }

  /** All of a listing passed: it is complete. */
  lemma ProgressAll(g: Geo, d: Disk, l: set<nat>, seen: set<nat>, f: nat, k: nat, end: bool)
    requires Progress(g, d, l, seen, f, k, end) && (end || k == |Listing(g, d, f)|) && FoldersApart(g, d)
    ensures Complete(Table(g, d), l, seen, Listing(g, d, f))
  {
    hide Listing;
    hide FoldersApart;
    hide Handled;
  }

  // ----- one chain

  function Upto(o: seq<nat>, i: nat): set<nat>
    requires i <= |o|
  {
    Elems(o[..i])
  }

  function LastOne(o: seq<nat>, i: nat): set<nat>
    requires i <= |o|
  {
    if i == 0 then {} else {o[i - 1]}
  }

  function Opened(c: nat, dir: bool, i: nat): set<nat> { if dir && i > 0 then {c} else {} }

  /** A visit of the chain at c: i clusters of it are marked, the links out of
      the last of them not yet followed, k slots of its listing passed. */
  ghost predicate Visit(g: Geo, d: Disk, l0: set<nat>, l: set<nat>, seen: set<nat>, gray: set<nat>, open: set<nat>,
                        c: nat, dir: bool, n: nat, i: nat, k: nat, end: bool) {
    var o := DiskChain(g, d, c);
    && i <= |o| && Reached(g, d, c, dir, n) && Grew(g, d, {}, l) && Grew(g, d, l0, l) && Upto(o, i) <= l
       && (i > 0 ==> c !in l0)
    && (i == 0 ==> l == l0) && gray <= l
    && Standing(g, d, l, seen, gray + LastOne(o, i), open + Opened(c, dir, i))
    && (dir && i > 0 ==>
       c in seen && Progress(g, d, l, seen, c, k, end) && (FoldersApart(g, d) ==> l * Elems(o) <= Upto(o, i)))
  }

  lemma VisitParts(g: Geo, d: Disk, l0: set<nat>, l: set<nat>, seen: set<nat>, gray: set<nat>, open: set<nat>,
                   c: nat, dir: bool, n: nat, i: nat, k: nat, end: bool)
    requires Visit(g, d, l0, l, seen, gray, open, c, dir, n, i, k, end)
    ensures var o := DiskChain(g, d, c);
            && i <= |o| && Reached(g, d, c, dir, n) && Grew(g, d, {}, l) && Grew(g, d, l0, l) && Upto(o, i) <= l
               && (i > 0 ==> c !in l0)
            && (i == 0 ==> l == l0) && gray <= l
            && Standing(g, d, l, seen, gray + LastOne(o, i), open + Opened(c, dir, i))
            && (dir && i > 0 ==>
               c in seen && Progress(g, d, l, seen, c, k, end) && (FoldersApart(g, d) ==> l * Elems(o) <= Upto(o, i)))
  {
    hide DiskChain;
    hide Reached;
    hide Grew;
    hide Standing;
    hide Progress;
    hide FoldersApart;
  }

  lemma VisitMake(g: Geo, d: Disk, l0: set<nat>, l: set<nat>, seen: set<nat>, gray: set<nat>, open: set<nat>,
                  c: nat, dir: bool, n: nat, i: nat, k: nat, end: bool)
    requires var o := DiskChain(g, d, c);
             && i <= |o| && Reached(g, d, c, dir, n) && Grew(g, d, {}, l) && Grew(g, d, l0, l) && Upto(o, i) <= l
                && (i > 0 ==> c !in l0)
             && (i == 0 ==> l == l0) && gray <= l
             && Standing(g, d, l, seen, gray + LastOne(o, i), open + Opened(c, dir, i))
             && (dir && i > 0 ==>
                c in seen && Progress(g, d, l, seen, c, k, end) && (FoldersApart(g, d) ==> l * Elems(o) <= Upto(o, i)))
    ensures Visit(g, d, l0, l, seen, gray, open, c, dir, n, i, k, end)
  {
    hide DiskChain;
    hide Reached;
    hide Grew;
    hide Standing;
    hide Progress;
    hide FoldersApart;
  }

  lemma VisitBegin(g: Geo, d: Disk, l: set<nat>, seen: set<nat>, gray: set<nat>, open: set<nat>, c: nat, dir: bool,
                   n: nat)
    requires Reached(g, d, c, dir, n) && Grew(g, d, {}, l) && gray <= l && Standing(g, d, l, seen, gray, open)
    ensures Visit(g, d, l, l, seen, gray, open, c, dir, n, 0, 0, false)
  {
    hide *;
    var o := DiskChain(g, d, c);
    NothingOpen(o, c, dir, gray, open);
    UptoNone(o, l);
    GrewSelf(g, d, l);
    VisitMake(g, d, l, l, seen, gray, open, c, dir, n, 0, 0, false);
  }

  lemma UptoNone(o: seq<nat>, l: set<nat>)
    ensures Upto(o, 0) <= l
  {
  }

  lemma StandingParts(g: Geo, d: Disk, l: set<nat>, seen: set<nat>, gray: set<nat>, open: set<nat>)
    requires Standing(g, d, l, seen, gray, open) && FoldersApart(g, d)
    ensures Linked(Table(g, d), l, gray) && Listed(g, d, l, seen, open) && HeadsSeen(g, d, l, seen)
  {
    hide Linked;
    hide Listed;
    hide HeadsSeen;
    hide FoldersApart;
  }

  lemma StandingMake(g: Geo, d: Disk, l: set<nat>, seen: set<nat>, gray: set<nat>, open: set<nat>)
    requires FoldersApart(g, d) ==>
             Linked(Table(g, d), l, gray) && Listed(g, d, l, seen, open) && HeadsSeen(g, d, l, seen)
    ensures Standing(g, d, l, seen, gray, open)
  {
    hide Linked;
    hide Listed;
    hide HeadsSeen;
    hide FoldersApart;
  }

  lemma ListedMore(g: Geo, d: Disk, l: set<nat>, seen: set<nat>, open: set<nat>, l1: set<nat>, seen1: set<nat>,
                   open1: set<nat>)
    requires Listed(g, d, l, seen, open) && l <= l1 && seen <= seen1 && seen1 <= seen + open1 && open <= open1
    ensures Listed(g, d, l1, seen1, open1)
  {
    hide Complete;
    hide HandledTo;
    hide Listing;
    forall f | f in seen1 && f !in open1
      ensures Complete(Table(g, d), l1, seen1, Listing(g, d, f))
    {
      HandledMore(Table(g, d), l, seen, l1, seen1, Listing(g, d, f));
    }
  }

  /** A folder head met on a chain is that chain's own head, as a folder. */
  lemma HeadMet(g: Geo, d: Disk, c: nat, dir: bool, n: nat, x: nat, k: nat)
    requires FoldersApart(g, d) && Reached(g, d, c, dir, n) && Reached(g, d, x, true, k)
             && x in Elems(DiskChain(g, d, c))
    ensures x == c && dir
  {
    hide Reached;
    OrbitFacts(Table(g, d), c, {});
    OrbitEmpty(Table(g, d), x);
    OrbitLinks(Table(g, d), x, {}, 0);
    assert x in Elems(DiskChain(g, d, x));
  }

  lemma HeadsMore(g: Geo, d: Disk, l: set<nat>, seen: set<nat>, c: nat, dir: bool, n: nat, x: nat)
    requires FoldersApart(g, d) && HeadsSeen(g, d, l, seen) && Reached(g, d, c, dir, n)
             && x in Elems(DiskChain(g, d, c))
    ensures HeadsSeen(g, d, l + {x}, if dir then seen + {c} else seen)
  {
    hide Reached;
    hide DiskChain;
    hide FoldersApart;
    forall f: nat, k: nat | f in l + {x} && Reached(g, d, f, true, k)
      ensures f in if dir then seen + {c} else seen
    {
      if f == x { HeadMet(g, d, c, dir, n, x, k); }
    }
  }

  /** Nothing of a chain is marked before its head is. */
  lemma ChainClean(g: Geo, d: Disk, l: set<nat>, c: nat, n: nat)
    requires FoldersApart(g, d) && Reached(g, d, c, true, n) && Grew(g, d, {}, l) && c !in l
    ensures l * Elems(DiskChain(g, d, c)) == {}
  {
    hide Reached;
    hide DiskChain;
    hide FoldersApart;
    hide Grew;
    forall y | y in l && y in Elems(DiskChain(g, d, c))
      ensures false
    {
      FolderUntouched(g, d, {}, l, c, n, y);
    }
  }

  /** Scanning elsewhere marks nothing of a chain whose head is marked. */
  lemma ChainSame(g: Geo, d: Disk, l: set<nat>, l1: set<nat>, c: nat, n: nat)
    requires FoldersApart(g, d) && Reached(g, d, c, true, n) && Grew(g, d, l, l1) && c in l
    ensures l1 * Elems(DiskChain(g, d, c)) <= l
  {
    hide Reached;
    hide DiskChain;
    hide FoldersApart;
    hide Grew;
    forall y | y in l1 && y in Elems(DiskChain(g, d, c))
      ensures y in l
    {
      if y !in l { FolderUntouched(g, d, l, l1, c, n, y); }
    }
  }

  /** Positions along a chain. */
  lemma ChainAt(g: Geo, d: Disk, c: nat, i: nat)
    requires i < |DiskChain(g, d, c)|
    ensures var o := DiskChain(g, d, c);
            && o[0] == c && InTable(g, o[i]) && o[i] in Elems(o) && Upto(o, i + 1) == Upto(o, i) + {o[i]}
               && o[i] !in Upto(o, i)
            && (i + 1 < |o| ==> FatGet(g, d, o[i]) == o[i + 1])
            && (i + 1 == |o| && InTable(g, FatGet(g, d, o[i])) ==> FatGet(g, d, o[i]) in Elems(o))
               && Upto(o, |o|) == Elems(o)
            && (i > 0 ==> c in Upto(o, i))
            && o[i] < |Table(g, d)| && Table(g, d)[o[i]] == FatGet(g, d, o[i])
  {
    var o := DiskChain(g, d, c);
    OrbitFacts(Table(g, d), c, {});
    OrbitLinks(Table(g, d), c, {}, i);
    PrefixElems(o, i);
    assert o[..|o|] == o;
    if i > 0 { assert o[0] in o[..i]; }
    TableAt(g, d, o[i]);
  }

  lemma StandingMark(g: Geo, d: Disk, l: set<nat>, seen: set<nat>, gray: set<nat>, open: set<nat>, c: nat, dir: bool,
                     n: nat, i: nat)
    requires var o := DiskChain(g, d, c);
             && i < |o| && o[i] !in l && Reached(g, d, c, dir, n) && (dir && i > 0 ==> c in seen)
             && Standing(g, d, l, seen, gray + LastOne(o, i), open + Opened(c, dir, i))
    ensures var o := DiskChain(g, d, c);
            Standing(g, d, l + {o[i]}, if dir then seen + {c}
              else seen, gray + LastOne(o, i + 1), open + Opened(c, dir, i + 1))
  {
    hide *;
    var o := DiskChain(g, d, c);
    var l1, seen1 := l + {o[i]}, if dir then seen + {c} else seen;
    LastOpened(o, c, dir, i);
    if FoldersApart(g, d) {
      StandingParts(g, d, l, seen, gray + LastOne(o, i), open + Opened(c, dir, i));
      ChainAt(g, d, c, i);
      NothingOpen(o, c, dir, gray, open);
      if i > 0 { ChainAt(g, d, c, i - 1); }
      LinkedMark(Table(g, d), l, gray, o[i], if i > 0 then o[i - 1] else 0, i == 0);
      ListedMore(g, d, l, seen, open + Opened(c, dir, i), l1, seen1, open + Opened(c, dir, i + 1));
      HeadsMore(g, d, l, seen, c, dir, n, o[i]);
    }
    StandingMake(g, d, l1, seen1, gray + LastOne(o, i + 1), open + Opened(c, dir, i + 1));
  }

  lemma LastOpened(o: seq<nat>, c: nat, dir: bool, i: nat)
    requires i < |o|
    ensures LastOne(o, i) == (if i == 0 then {} else {o[i - 1]}) && LastOne(o, i + 1) == {o[i]}
    ensures Opened(c, dir, i) == (if dir && i > 0 then {c} else {})
            && Opened(c, dir, i + 1) == (if dir then {c} else {})
  {
  }

  lemma ProgressNone(g: Geo, d: Disk, l: set<nat>, seen: set<nat>, f: nat)
    ensures Progress(g, d, l, seen, f, 0, false)
  {
    hide Listing;
    hide FoldersApart;
  }

  /** The visit marks its next cluster. */
  lemma VisitMark(g: Geo, d: Disk, l0: set<nat>, l: set<nat>, seen: set<nat>, gray: set<nat>, open: set<nat>,
                  c: nat, dir: bool, n: nat, i: nat, k: nat, end: bool)
    requires Visit(g, d, l0, l, seen, gray, open, c, dir, n, i, k, end) && i < |DiskChain(g, d, c)|
             && DiskChain(g, d, c)[i] !in l
    requires i == 0 ==> k == 0 && !end
    ensures Visit(g, d, l0, l + {DiskChain(g, d, c)[i]}, if dir then seen + {c}
            else seen, gray, open, c, dir, n, i + 1, k, end)
  {
    hide *;
    var o := DiskChain(g, d, c);
    var l1, seen1 := l + {o[i]}, if dir then seen + {c} else seen;
    VisitParts(g, d, l0, l, seen, gray, open, c, dir, n, i, k, end);
    ChainAt(g, d, c, i);
    GrewMark(g, d, l0, l, o[i], c, dir, n);
    GrewMark(g, d, {}, l, o[i], c, dir, n);
    StandingMark(g, d, l, seen, gray, open, c, dir, n, i);
    if dir {
      if i == 0 { ProgressNone(g, d, l, seen, c); }
      ProgressMore(g, d, l, seen, l1, seen1, c, k, end);
      if FoldersApart(g, d) && i == 0 { ChainClean(g, d, l, c, n); }
    }
    VisitMake(g, d, l0, l1, seen1, gray, open, c, dir, n, i + 1, k, end);
  }

  /** Other chains are visited, and some of the folder's slots handled. */
  lemma VisitNested(g: Geo, d: Disk, l0: set<nat>, l: set<nat>, seen: set<nat>, gray: set<nat>, open: set<nat>,
                    c: nat, n: nat, i: nat, k: nat, end: bool, l1: set<nat>, seen1: set<nat>, k1: nat, end1: bool)
    requires Visit(g, d, l0, l, seen, gray, open, c, true, n, i, k, end) && i > 0 && Grew(g, d, l, l1) && seen <= seen1
    requires i <= |DiskChain(g, d, c)|
             && Standing(g, d, l1, seen1, gray + LastOne(DiskChain(g, d, c), i), open + Opened(c, true, i))
    requires Progress(g, d, l1, seen1, c, k1, end1)
    ensures Visit(g, d, l0, l1, seen1, gray, open, c, true, n, i, k1, end1)
  {
    hide *;
    var o := DiskChain(g, d, c);
    VisitParts(g, d, l0, l, seen, gray, open, c, true, n, i, k, end);
    ChainAt(g, d, c, i - 1);
    GrewThen(g, d, {}, l, l1);
    GrewThen(g, d, l0, l, l1);
    GrewSuperset(g, d, l, l1);
    if FoldersApart(g, d) { ChainSame(g, d, l, l1, c, n); }
    VisitMake(g, d, l0, l1, seen1, gray, open, c, true, n, i, k1, end1);
  }

  lemma GrewSuperset(g: Geo, d: Disk, l: set<nat>, l1: set<nat>)
    requires Grew(g, d, l, l1)
    ensures l <= l1
  {
    hide HasOrigin;
  }

  /** The visit is over: its chain is marked and, for a folder, its listing complete. */
  lemma VisitStop(g: Geo, d: Disk, l0: set<nat>, l: set<nat>, seen: set<nat>, gray: set<nat>, open: set<nat>,
                  c: nat, dir: bool, n: nat, i: nat, k: nat, end: bool, next: nat)
    requires Visit(g, d, l0, l, seen, gray, open, c, dir, n, i, k, end) && (InTable(g, next) ==> next in l)
    requires i <= |DiskChain(g, d, c)|
             && (if i == 0 then next == c else next == FatGet(g, d, DiskChain(g, d, c)[i - 1]))
    requires dir && i == |DiskChain(g, d, c)| && i > 0 ==> end || k == |Listing(g, d, c)|
    ensures Standing(g, d, l, seen, gray, open)
    ensures FoldersApart(g, d) && InTable(g, c) ==> c in l && (dir ==> c in seen)
  {
    hide *;
    var o := DiskChain(g, d, c);
    VisitParts(g, d, l0, l, seen, gray, open, c, dir, n, i, k, end);
    if FoldersApart(g, d) {
      StandingParts(g, d, l, seen, gray + LastOne(o, i), open + Opened(c, dir, i));
      if i == 0 {
        NothingOpen(o, c, dir, gray, open);
        if InTable(g, c) && dir { SeenHead(g, d, l, seen, c, n); }
      } else {
        LastOpened(o, c, dir, i - 1);
        ChainAt(g, d, c, i - 1);
        InTableIs(g, next);
        LinkedStop(Table(g, d), l, gray, o[i - 1]);
        assert open + {} == open;
        if dir {
          if i < |o| { ChainAt(g, d, c, i); }
          ProgressAll(g, d, l, seen, c, k, end);
          ListedClose(g, d, l, seen, open, c);
        }
      }
    }
    StandingMake(g, d, l, seen, gray, open);
  }

  lemma NothingOpen(o: seq<nat>, c: nat, dir: bool, gray: set<nat>, open: set<nat>)
    ensures gray + LastOne(o, 0) == gray && open + Opened(c, dir, 0) == open
  {
  }

  lemma InTableIs(g: Geo, c: nat)
    ensures InTable(g, c) <==> 2 <= c < g.Limit()
  {
  }

  lemma SeenHead(g: Geo, d: Disk, l: set<nat>, seen: set<nat>, c: nat, n: nat)
    requires HeadsSeen(g, d, l, seen) && c in l && Reached(g, d, c, true, n)
    ensures c in seen
  {
    hide Reached;
  }

  lemma ListedClose(g: Geo, d: Disk, l: set<nat>, seen: set<nat>, open: set<nat>, c: nat)
    requires Listed(g, d, l, seen, open + {c}) && Complete(Table(g, d), l, seen, Listing(g, d, c))
    ensures Listed(g, d, l, seen, open)
  {
    hide Complete;
    hide Listing;
  }

  lemma ChainShort(g: Geo, d: Disk, c: nat)
    ensures |DiskChain(g, d, c)| <= g.total
  {
    OrbitFacts(Table(g, d), c, {});
    InjectiveShort(Table(g, d), DiskChain(g, d, c));
  }

  lemma ListingSize(g: Geo, d: Disk, c: nat)
    requires c >= 2
    ensures |Listing(g, d, c)| == 16 * Sectors(g, |DiskChain(g, d, c)|) && Sectors(g, 0) == 0
  {
    hide DiskChain;
  }

  /** An unmarked cluster a walk comes to is the next one of its chain. */
  lemma OnChain(g: Geo, d: Disk, c0: nat, i: nat, c: nat, l: set<nat>)
    requires var o := DiskChain(g, d, c0);
             i <= |o| && InTable(g, c) && c !in l && Upto(o, i) <= l
               && (if i == 0 then c == c0 else c == FatGet(g, d, o[i - 1]))
    ensures i < |DiskChain(g, d, c0)| && DiskChain(g, d, c0)[i] == c
  {
    var o := DiskChain(g, d, c0);
    if i == 0 {
      OrbitEmpty(Table(g, d), c0);
      OrbitLinks(Table(g, d), c0, {}, 0);
    } else {
      ChainAt(g, d, c0, i - 1);
    }
  }

  /** Leaving the table means the disk is not readable. */
  lemma OffTable(g: Geo, d: Disk, c0: nat, dir: bool, n: nat, i: nat, c: nat)
    requires Reached(g, d, c0, dir, n) && g.Limit() <= c < g.Eoc()
    requires i <= |DiskChain(g, d, c0)| && (if i == 0 then c == c0 else c == FatGet(g, d, DiskChain(g, d, c0)[i - 1]))
    ensures !Readable(g, d)
  {
    hide Reached;
    hide FatGet;
    if i > 0 { ChainAt(g, d, c0, i - 1); }
    hide DiskChain;
  }

  lemma TooDeep(g: Geo, d: Disk, c: nat, n: nat, i: nat)
    requires Reached(g, d, c, true, n) && n >= SCAN_DEPTH && i < |DiskChain(g, d, c)|
    ensures !Readable(g, d)
  {
    hide Reached;
    ChainAt(g, d, c, i);
    ChainAt(g, d, c, 0);
    hide DiskChain;
  }

  lemma ShallowMore(g: Geo, d: Disk, seen: set<nat>, c: nat, n: nat)
    requires Reached(g, d, c, true, n) && n < SCAN_DEPTH && Shallow(g, d, seen)
    ensures Shallow(g, d, seen + {c})
  {
    hide Reached;
  }

  lemma SectorsNext(g: Geo, n: nat)
    ensures Sectors(g, n + 1) == Sectors(g, n) + g.spc
  {
    Dist(n, 1, g.spc);
  }

  lemma GrayMarked(gray: set<nat>, o: seq<nat>, n: nat, l: set<nat>)
    requires n < |o| && gray <= l && Upto(o, n + 1) <= l
    ensures gray + LastOne(o, n + 1) <= l
  {
    assert o[n] in o[..n + 1];
  }

  /** Sector s of the cluster at index n of a folder's chain holds sixteen slots
      of its listing. */
  lemma ListedSector(g: Geo, d: Disk, f: nat, n: nat, s: nat)
    requires GeoOk(g) && Fits(g, d) && f >= 2 && n < |DiskChain(g, d, f)| && s < g.spc
    ensures var lba, k := Wrap(ClusterToLba(g, DiskChain(g, d, f)[n]) + s), 16 * (Sectors(g, n) + s);
            && lba < |d| && k + 16 <= |Listing(g, d, f)|
            && forall i: nat | i < 16 :: Listing(g, d, f)[k + i] == Decode(g.fat32, d[lba], i)
  {
    hide *;
    var o := DiskChain(g, d, f);
    ChainClusters(g, d, f);
    PlaceInFile(g, d, o, n, s);
    ListingSize(g, d, f);
    ListingBody(g, d, f);
    SectorEntries(g.fat32, Body(g, d, o), Sectors(g, n) + s);
  }

  lemma ChainClusters(g: Geo, d: Disk, f: nat)
    ensures Clusters(g, DiskChain(g, d, f))
  {
    OrbitFacts(Table(g, d), f, {});
  }

  lemma ListingBody(g: Geo, d: Disk, f: nat)
    requires f >= 2
    ensures Listing(g, d, f) == Slots(g.fat32, Body(g, d, DiskChain(g, d, f)))
    ensures |Body(g, d, DiskChain(g, d, f))| == Sectors(g, |DiskChain(g, d, f)|)
  {
    hide DiskChain;
  }

  lemma SectorEntries(f32: bool, body: seq<Sector>, q: nat)
    requires q < |body|
    ensures 16 * q + 16 <= |Slots(f32, body)|
    ensures forall i: nat | i < 16 :: Slots(f32, body)[16 * q + i] == Decode(f32, body[q], i)
  {
    hide Decode;
    forall i: nat | i < 16
      ensures Slots(f32, body)[16 * q + i] == Decode(f32, body[q], i)
    {
      assert (16 * q + i) / 16 == q && (16 * q + i) % 16 == i;
    }
  }

  lemma ChildIs(e: Ent)
    ensures Child(e) <==>
            e.name[0] != END && !(e.name[0] == DELETED || e.name == DOT || e.name == DOTDOT || IsVolumeId(e))
  {
  }

  lemma HandledNow(g: Geo, d: Disk, l: set<nat>, seen: set<nat>, e: Ent)
    ensures (InTable(g, e.cluster) ==> e.cluster in l && (IsDir(e) ==> e.cluster in seen)) ==>
            Handled(Table(g, d), l, seen, e)
  {
  }

  lemma NothingNamed(g: Geo, d: Disk, l: set<nat>, seen: set<nat>, e: Ent)
    requires !Child(e) || e.cluster < 2
    ensures Handled(Table(g, d), l, seen, e)
  {
  }

  // ----- the whole search

  lemma ScanStart(g: Geo, d: Disk)
    ensures Standing(g, d, {}, {}, {}, {}) && Shallow(g, d, {})
  {
    hide Reached;
    hide FoldersApart;
  }

  lemma ReachedStart(g: Geo, d: Disk)
    ensures Reached(g, d, HeadOf(g, 0), true, 0) && Shallow(g, d, {HeadOf(g, 0)})
            && (g.fat32 ==> HeadOf(g, 0) == g.rootCluster)
    ensures !g.fat32 ==> HeadOf(g, 0) == 0
    ensures GeoOk(g) && g.fat32 ==> g.rootCluster >= 2
    ensures NotDeep(g, d, HeadOf(g, 0)) && 0 < SCAN_DEPTH
  {
    assert Reached(g, d, HeadOf(g, 0), true, 0);
    assert 0 < SCAN_DEPTH && Reached(g, d, HeadOf(g, 0), true, 0);
  }

  /** Some path of less than SCAN_DEPTH folders leads to f. */
  ghost predicate NotDeep(g: Geo, d: Disk, f: nat) {
    exists n: nat :: n < SCAN_DEPTH && Reached(g, d, f, true, n)
  }

  lemma ScanComplete(g: Geo, d: Disk, l: set<nat>, seen: set<nat>)
    requires FoldersApart(g, d) && Standing(g, d, l, seen, {}, {}) && Shallow(g, d, seen)
    requires InTable(g, HeadOf(g, 0)) ==> HeadOf(g, 0) in seen && HeadOf(g, 0) in l
    requires HeadOf(g, 0) == 0 ==> 0 in seen
    ensures forall x: nat | Reachable(g, d, x) :: x in l
    ensures forall f: nat, n: nat | Reached(g, d, f, true, n) && (InTable(g, f) || n == 0) :: NotDeep(g, d, f)
  {
    hide *;
    StandingParts(g, d, l, seen, {}, {});
    forall x: nat | Reachable(g, d, x)
      ensures x in l
    {
      var h: nat, dir: bool, n: nat := ReachableBy(g, d, x);
      AllMarked(g, d, l, seen, h, dir, n);
    }
    forall f: nat, n: nat | Reached(g, d, f, true, n) && (InTable(g, f) || n == 0)
      ensures NotDeep(g, d, f)
    {
      if n == 0 {
        ReachedRoot(g, d, f, true);
        ReachedStart(g, d);
      } else {
        AllMarked(g, d, l, seen, f, true, n);
        ShallowAt(g, d, seen, f);
      }
    }
  }

  lemma ReachableBy(g: Geo, d: Disk, x: nat) returns (h: nat, dir: bool, n: nat)
    requires Reachable(g, d, x)
    ensures Reached(g, d, h, dir, n) && x in Elems(DiskChain(g, d, h))
  {
    hide Reached;
    hide DiskChain;
    h, dir, n :| Reached(g, d, h, dir, n) && x in Elems(DiskChain(g, d, h));
  }

  lemma ShallowAt(g: Geo, d: Disk, seen: set<nat>, f: nat)
    requires Shallow(g, d, seen) && f in seen
    ensures NotDeep(g, d, f)
  {
    hide Reached;
  }

  lemma StandingRoot(g: Geo, d: Disk)
    requires !g.fat32
    ensures Standing(g, d, {}, {0}, {}, {0})
  {
    hide Reached;
    hide FoldersApart;
    hide Complete;
  }

  lemma RootListing(g: Geo, d: Disk)
    requires GeoOk(g) && Fits(g, d) && !g.fat32
    ensures |Listing(g, d, 0)| == 16 * g.rootSectors
  {
    hide DiskChain;
    NonNeg(g.total, g.spc);
  }

  lemma RootSector(g: Geo, d: Disk, s: nat, k: nat, lba: nat)
    requires GeoOk(g) && Fits(g, d) && !g.fat32 && s < g.rootSectors && k == 16 * s && lba == g.RootStart() + s
    ensures lba < |d| && k + 16 <= |Listing(g, d, 0)|
    ensures forall i: nat | i < 16 :: Listing(g, d, 0)[k + i] == Decode(g.fat32, d[lba], i)
  {
    RootListing(g, d);
    NonNeg(g.total, g.spc);
    var body := d[g.RootStart()..g.DataStart()];
    assert body[s] == d[lba];
    assert Listing(g, d, 0) == Slots(g.fat32, body);
    hide Listing;
    hide Slots;
    hide Decode;
    SectorEntries(g.fat32, body, s);
  }

  lemma RootClose(g: Geo, d: Disk, l: set<nat>, seen: set<nat>, k: nat, end: bool)
    requires Standing(g, d, l, seen, {}, {0}) && Progress(g, d, l, seen, 0, k, end) && (end || k == |Listing(g, d, 0)|)
    ensures Standing(g, d, l, seen, {}, {})
  {
    hide *;
    if FoldersApart(g, d) {
      StandingParts(g, d, l, seen, {}, {0});
      ProgressAll(g, d, l, seen, 0, k, end);
      assert {} + {0} == {0};
      ListedClose(g, d, l, seen, {}, 0);
    }
    StandingMake(g, d, l, seen, {}, {});
  }
}
