/** A file's bytes on their way to fresh clusters. */
module FileData {
  import opened Arith
  import opened Bytes
  import opened Layout
  import opened FatTable
  import opened Chains
  import opened Folders
  import opened Tree
  import opened Volume
  import opened SectorWrites
  import opened FatWrites
  import opened Walks
  import opened Commits

  /** What a caller gives to be written: bytes, or a length of zeros. */
  datatype Source = Given(bytes: seq<byte>) | Zeros(n: nat)
  {
    function Len(): nat { if Given? then |bytes| else n }
    function At(i: nat): byte
      requires i < Len()
    {
      if Given? then bytes[i] else 0
    }
    /** The bytes the file is to hold. */
    function Content(): (r: seq<byte>)
      ensures |r| == Len()
    {
      seq(Len(), (i: nat) requires i < Len() => At(i))
    }
  }

  /** The content is the caller's bytes, or zeros of the length asked for. */
  lemma ContentIsGiven(src: Source)
    ensures src.Given? ==> src.Content() == src.bytes && src.Len() == |src.bytes|
    ensures src.Zeros? ==> |src.Content()| == src.n == src.Len() && forall i | 0 <= i < src.n :: src.Content()[i] == 0
  {
  }

  /** Sector q of the content, padded with zeros. */
  function DataSector(w: seq<byte>, q: nat): Sector {
    seq(512, (i: nat) => if 512 * q + i < |w| then w[512 * q + i] else 0)
  }

  /** One sector's buffer: zeroed, then filled from the source as far as it goes. */
  method FillBuffer(src: Source, q: nat, chunk: nat) returns (buf: Sector)
    requires chunk <= 512 && 512 * q + chunk <= src.Len() && (chunk < 512 ==> 512 * q + chunk == src.Len())
    ensures buf == DataSector(src.Content(), q)
  {
    buf := ZeroSector();
    if src.Given? {
      var i := 0;
      while i < chunk
        invariant i <= chunk && forall j: nat | j < 512 :: buf[j] == if j < i then src.bytes[512 * q + j] else 0
      {
        buf := buf[i := src.bytes[512 * q + i]];
        i := i + 1;
      }
    }
    assert buf == DataSector(src.Content(), q);
  }

  /** The first done sectors of a body are the content's. */
  ghost predicate Written(body: seq<Sector>, w: seq<byte>, done: nat) {
    done <= |body| && forall q: nat | q < done :: body[q] == DataSector(w, q)
  }

  /** The content, read back from its sectors. */
  lemma ReadBack(body: seq<Sector>, w: seq<byte>, done: nat)
    requires Written(body, w, done) && |w| <= 512 * done
    ensures FileBytes(body, |w|) == w
  {
    var r := FileBytes(body, |w|);
    forall i: nat | i < |w|
      ensures r[i] == w[i]
    {
      assert body[i / 512] == DataSector(w, i / 512);
      assert i == 512 * (i / 512) + i % 512;
    }
  }

  /** nc is a chain of clusters that were free on d0, every other entry is as on
      d0, and the first done sectors of the content are in place. */
  ghost predicate Fill(g: Geo, d0: Disk, d: Disk, u: set<nat>, nc: seq<nat>, w: seq<byte>, done: nat) {
    && FillTable(g, Table(g, d0), Table(g, d), u, nc)
    && done <= Sectors(g, |nc|) && Written(Body(g, d, nc), w, done)
  }

  ghost predicate FillTable(g: Geo, t0: seq<nat>, t: seq<nat>, u: set<nat>, nc: seq<nat>) {
    && |t0| == |t| == g.Limit() && Injective(nc)
    && (forall i | 0 <= i < |nc| :: 2 <= nc[i] < |t| && nc[i] !in u && t0[nc[i]] == 0)
    && (forall i | 0 <= i < |nc| - 1 :: t[nc[i]] == nc[i + 1])
    && (|nc| > 0 ==> t[nc[|nc| - 1]] == g.EocMark())
    && (forall c | 0 <= c < |t| && c !in nc :: t[c] == t0[c])
  }

  lemma FillParts(g: Geo, d0: Disk, d: Disk, u: set<nat>, nc: seq<nat>, w: seq<byte>, done: nat)
    requires Fill(g, d0, d, u, nc, w, done)
    ensures FillTable(g, Table(g, d0), Table(g, d), u, nc) && done <= Sectors(g, |nc|) == |Body(g, d, nc)|
    ensures Written(Body(g, d, nc), w, done)
  {
    hide FillTable;
    hide Sectors;
    hide DataSector;
  }

  lemma FillMake(g: Geo, d0: Disk, d: Disk, u: set<nat>, nc: seq<nat>, w: seq<byte>, done: nat)
    requires FillTable(g, Table(g, d0), Table(g, d), u, nc) && done <= Sectors(g, |nc|)
    requires Written(Body(g, d, nc), w, done)
    ensures Fill(g, d0, d, u, nc, w, done)
  {
    hide FillTable;
    hide Sectors;
    hide DataSector;
  }

  lemma FillBegin(g: Geo, d: Disk, u: set<nat>, w: seq<byte>)
    ensures Fill(g, d, d, u, [], w, 0)
  {
  }

  lemma FillChain(g: Geo, t0: seq<nat>, t: seq<nat>, u: set<nat>, nc: seq<nat>)
    requires FillTable(g, t0, t, u, nc) && |nc| > 0
    ensures IsChain(t, g.Eoc(), nc) && Clusters(g, nc) && Injective(nc)
    ensures forall i | 0 <= i < |nc| :: nc[i] !in u
    ensures forall i | 0 <= i < |nc| :: t[nc[i]] != 0
  {
    forall i | 0 <= i < |nc|
      ensures t[nc[i]] != 0
    {
      if i < |nc| - 1 { assert t[nc[i]] == nc[i + 1]; }
    }
  }

  /** A free cluster joins the chain: marked as its end, then linked to. */
  lemma FillTableGrow(g: Geo, t0: seq<nat>, t: seq<nat>, u: set<nat>, nc: seq<nat>, c: nat)
    requires FillTable(g, t0, t, u, nc) && 2 <= c < |t| && t[c] == 0 && c !in u
    ensures |nc| > 0 ==> nc[|nc| - 1] < |t|
    ensures c !in nc && t0[c] == 0
    ensures FillTable(g, t0, if |nc| == 0 then t[c := g.EocMark()]
            else t[c := g.EocMark()][nc[|nc| - 1] := c], u, nc + [c])
  {
    if |nc| > 0 { FillChain(g, t0, t, u, nc); }
    assert c !in nc;
    var e := nc + [c];
    var r := if |nc| == 0 then t[c := g.EocMark()] else t[c := g.EocMark()][nc[|nc| - 1] := c];
    forall i | 0 <= i < |e| - 1
      ensures r[e[i]] == e[i + 1]
    {
    }
  }

  lemma BodyUpper(g: Geo, d: Disk, d1: Disk, nc: seq<nat>)
    requires GeoOk(g) && UpperSame(g, d, d1) && Clusters(g, nc)
    ensures Body(g, d1, nc) == Body(g, d, nc)
  {
    RootAbove(g);
    forall i: nat | i < Sectors(g, |nc|)
      ensures SecAt(g, d1, nc, i) == SecAt(g, d, nc, i)
    {
      InChain(g, nc, i);
      hide Geo.Lba;
      hide Quot;
      hide Rem;
      hide Sectors;
      hide GeoOk;
    }
  }

  lemma BodyPrefix(g: Geo, d: Disk, nc: seq<nat>, c: nat, q: nat)
    requires g.spc > 0 && q < Sectors(g, |nc|)
    ensures q < |Body(g, d, nc + [c])| && q < |Body(g, d, nc)| && Body(g, d, nc + [c])[q] == Body(g, d, nc)[q]
  {
    DivBelow(q, |nc|, g.spc);
    Dist(|nc|, 1, g.spc);
    hide Quot;
    hide Rem;
    hide Sec;
  }

  lemma WrittenOn(a: seq<Sector>, b: seq<Sector>, w: seq<byte>, done: nat)
    requires Written(a, w, done) && done <= |b| && forall q: nat | q < done :: b[q] == a[q]
    ensures Written(b, w, done)
  {
    hide DataSector;
  }

  /** The next sector of the content is stored. */
  lemma WrittenNext(body: seq<Sector>, w: seq<byte>, done: nat)
    requires Written(body, w, done) && done < |body|
    ensures Written(body[done := DataSector(w, done)], w, done + 1)
  {
    hide DataSector;
  }

  lemma LongerBody(g: Geo, d: Disk, nc: seq<nat>, c: nat, w: seq<byte>, done: nat)
    requires g.spc > 0 && done <= Sectors(g, |nc|) <= Sectors(g, |nc| + 1) && Written(Body(g, d, nc), w, done)
    ensures Written(Body(g, d, nc + [c]), w, done)
  {
    hide Written;
    var a, b := Body(g, d, nc), Body(g, d, nc + [c]);
    hide Sectors;
    assert |nc + [c]| == |nc| + 1;
    forall q: nat | q < done
      ensures b[q] == a[q]
    {
      BodyPrefix(g, d, nc, c, q);
    }
    hide Body;
    WrittenOn(a, b, w, done);
  }

  lemma FillGrow(g: Geo, d0: Disk, d: Disk, d1: Disk, u: set<nat>, nc: seq<nat>, c: nat, w: seq<byte>, done: nat)
    requires GeoOk(g) && Fill(g, d0, d, u, nc, w, done) && UpperSame(g, d, d1)
    requires 2 <= c < g.Limit() && Table(g, d)[c] == 0 && c !in u
    requires var t := Table(g, d);
             if |nc| == 0 then Table(g, d1) == t[c := g.EocMark()]
             else nc[|nc| - 1] < |t| && Table(g, d1) == t[c := g.EocMark()][nc[|nc| - 1] := c]
    ensures Fill(g, d0, d1, u, nc + [c], w, done)
  {
    hide *;
    FillParts(g, d0, d, u, nc, w, done);
    FillTableGrow(g, Table(g, d0), Table(g, d), u, nc, c);
    NcClusters(g, Table(g, d0), Table(g, d), u, nc);
    BodyUpper(g, d, d1, nc);
    GeoPositive(g);
    SectorsMore(g, |nc|);
    assert |nc + [c]| == |nc| + 1;
    LongerBody(g, d1, nc, c, w, done);
    FillMake(g, d0, d1, u, nc + [c], w, done);
  }

  lemma NcClusters(g: Geo, t0: seq<nat>, t: seq<nat>, u: set<nat>, nc: seq<nat>)
    requires FillTable(g, t0, t, u, nc)
    ensures Clusters(g, nc) && Injective(nc)
    ensures forall i | 0 <= i < |nc| :: InTable(g, nc[i]) && nc[i] !in u
  {
  }

  lemma SectorsMore(g: Geo, n: nat)
    ensures Sectors(g, n + 1) == Sectors(g, n) + g.spc && Sectors(g, 0) == 0
  {
    Dist(n, 1, g.spc);
  }

  /** The next sector of the content goes to the last cluster. */
  lemma FillSector(g: Geo, d0: Disk, d: Disk, u: set<nat>, nc: seq<nat>, w: seq<byte>, done: nat, s: nat)
    requires GeoOk(g) && Fits(g, d) && Fill(g, d0, d, u, nc, w, done)
    requires |nc| > 0 && s < g.spc && done == Sectors(g, |nc| - 1) + s
    ensures InTable(g, nc[|nc| - 1]) && nc[|nc| - 1] !in u && g.RootStart() <= g.Lba(nc[|nc| - 1]) + s < |d|
    ensures Fill(g, d0, d[g.Lba(nc[|nc| - 1]) + s := DataSector(w, done)], u, nc, w, done + 1)
  {
    hide *;
    var c := nc[|nc| - 1];
    var x := DataSector(w, done);
    FillParts(g, d0, d, u, nc, w, done);
    NcClusters(g, Table(g, d0), Table(g, d), u, nc);
    KeepsPlace(g, d, c, s);
    SectorPlace(g, nc, done, s);
    BodyWritten(g, d, nc, done, x);
    WrittenNext(Body(g, d, nc), w, done);
    AboveFat(g, d, g.Lba(c) + s, x);
    FillMake(g, d0, d[g.Lba(c) + s := x], u, nc, w, done + 1);
  }

  lemma KeepsPlace(g: Geo, d: Disk, c: nat, s: nat)
    requires GeoOk(g) && Fits(g, d) && InTable(g, c) && s < g.spc
    ensures g.RootStart() <= g.Lba(c) + s < |d|
  {
    ClusterInside(g, c, s);
    RootAbove(g);
    hide Geo.Lba;
    hide Geo.RootStart;
  }

  lemma SectorPlace(g: Geo, nc: seq<nat>, done: nat, s: nat)
    requires |nc| > 0 && s < g.spc && done == Sectors(g, |nc| - 1) + s
    ensures Quot(done, g.spc) == |nc| - 1 && Rem(done, g.spc) == s
    ensures LbaAt(g, nc, done) == g.Lba(nc[|nc| - 1]) + s && done < Sectors(g, |nc|)
  {
    DivUnique(done, |nc| - 1, s, g.spc);
    SectorsMore(g, |nc| - 1);
    hide Geo.Lba;
    hide Quot;
    hide Rem;
  }

  // ----- giving up

  /** Releasing the chain at first touches none of u. */
  ghost predicate Loose(t: seq<nat>, first: nat, u: set<nat>) {
    Elems(Orbit(t, first, {})) !! u
  }

  lemma LooseNone(t: seq<nat>, u: set<nat>)
    ensures Loose(t, 0, u) && Orbit(t, 0, {}) == []
  {
    OrbitEmpty(t, 0);
  }

  function FirstOf(nc: seq<nat>): nat { if |nc| == 0 then 0 else nc[0] }
  function LastOf(nc: seq<nat>): nat { if |nc| == 0 then 0 else nc[|nc| - 1] }

  /** The prepared chain is loose, and releasing it puts every entry back. */
  lemma LooseFill(g: Geo, t0: seq<nat>, t: seq<nat>, u: set<nat>, nc: seq<nat>)
    requires FillTable(g, t0, t, u, nc) && g.Limit() < g.Eoc()
    ensures Loose(t, FirstOf(nc), u) && Cleared(t, Elems(Orbit(t, FirstOf(nc), {}))) == t0
  {
    if |nc| == 0 {
      OrbitEmpty(t, 0);
      assert Elems([]) == {};
    } else {
      FillChain(g, t0, t, u, nc);
      OrbitOfChain(t, g.Eoc(), nc);
    }
  }

  /** A link that was, or was not, stored before the new cluster went back. */
  lemma LooseCut(g: Geo, t0: seq<nat>, t: seq<nat>, t3: seq<nat>, u: set<nat>, nc: seq<nat>, c: nat)
    requires FillTable(g, t0, t, u, nc) && |nc| > 0 && |t3| == |t| && 2 <= c < |t| && c !in u && c !in nc
    requires t3[c] == 0 || t3[c] >= |t|
    requires g.Limit() < g.Eoc()
    requires forall x | 0 <= x < |t| && x != c :: t3[x] == t[x] || (x == nc[|nc| - 1] && t3[x] == c)
    ensures Loose(t3, nc[0], u)
  {
    var s := Elems(nc) + {c};
    FillChain(g, t0, t, u, nc);
    forall x | x in s && x < |t3| && 2 <= t3[x] < |t3|
      ensures t3[x] in s
    {
      if x != c && t3[x] == t[x] {
        var i :| 0 <= i < |nc| && nc[i] == x;
        if i < |nc| - 1 { assert t[nc[i]] == nc[i + 1]; }
      }
    }
    OrbitClosed(t3, nc[0], {}, s);
  }

  lemma FillFree(g: Geo, t0: seq<nat>, t: seq<nat>, u: set<nat>, nc: seq<nat>)
    requires FillTable(g, t0, t, u, nc)
    ensures Elems(nc) <= Free(t0) && Free(t) == Free(t0) - Elems(nc) && |Elems(nc)| == |nc|
    ensures |Free(t)| == |Free(t0)| - |nc|
  {
    InjectiveSize(nc);
    if |nc| > 0 { FillChain(g, t0, t, u, nc); }
    forall c | c in Free(t)
      ensures c in Free(t0) && c !in Elems(nc)
    {
      assert forall i | 0 <= i < |nc| :: t[nc[i]] != 0;
    }
    assert Free(t) == Free(t0) - Elems(nc);
    SplitSize(Free(t0), Elems(nc));
  }

  lemma SplitSize(a: set<nat>, b: set<nat>)
    requires b <= a
    ensures |a - b| == |a| - |b|
  {
    assert a == (a - b) + b;
  }

  lemma FillRefl(g: Geo, d0: Disk, d: Disk, u: set<nat>, nc: seq<nat>, w: seq<byte>, done: nat, d1: Disk)
    requires GeoOk(g) && Fill(g, d0, d, u, nc, w, done) && UpperSame(g, d, d1) && Table(g, d1) == Table(g, d)
    ensures Fill(g, d0, d1, u, nc, w, done)
  {
    hide *;
    FillParts(g, d0, d, u, nc, w, done);
    NcClusters(g, Table(g, d0), Table(g, d), u, nc);
    BodyUpper(g, d, d1, nc);
    FillMake(g, d0, d1, u, nc, w, done);
  }

  lemma StillLoose(g: Geo, t0: seq<nat>, t1: seq<nat>, t: seq<nat>, u: set<nat>, nc: seq<nat>)
    requires FillTable(g, t0, t1, u, nc) && g.Limit() < g.Eoc()
    requires t == t1 || exists x | x in Free(t1) :: t == t1[x := g.EocMark()]
    ensures Loose(t, FirstOf(nc), u)
  {
    if |nc| == 0 {
      LooseNone(t, u);
    } else {
      FillChain(g, t0, t1, u, nc);
      assert forall c | c in nc :: t[c] == t1[c];
      forall x | x in Elems(nc) && x < |t| && 2 <= t[x] < |t|
        ensures t[x] in Elems(nc)
      {
        var i :| 0 <= i < |nc| && nc[i] == x;
        if i < |nc| - 1 { assert t1[nc[i]] == nc[i + 1]; }
      }
      OrbitClosed(t, nc[0], {}, Elems(nc));
    }
  }

  lemma FreeIs(t: seq<nat>, c: nat)
    requires c in Free(t)
    ensures 2 <= c < |t| && t[c] == 0
  {
  }

  lemma NoneYet(g: Geo, t0: seq<nat>, t: seq<nat>, u: set<nat>, nc: seq<nat>)
    requires FillTable(g, t0, t, u, nc) && FirstOf(nc) == 0
    ensures nc == []
  {
  }

  lemma SomeYet(nc: seq<nat>)
    requires FirstOf(nc) != 0
    ensures |nc| > 0 && FirstOf(nc) == nc[0] && LastOf(nc) == nc[|nc| - 1]
  {
  }

  lemma ClusterStored(g: Geo, c: nat)
    requires GeoOk(g) && InTable(g, c)
    ensures c % g.Modulus() == c
  {
  }

  lemma CutLoose(g: Geo, t0: seq<nat>, t1: seq<nat>, t3: seq<nat>, t4: seq<nat>, u: set<nat>, nc: seq<nat>, c: nat)
    requires FillTable(g, t0, t1, u, nc) && |nc| > 0 && 2 <= c < |t1| && c !in u && c !in nc && g.Limit() < g.Eoc()
    requires t3 == t1[c := g.EocMark()] || t3 == t1[c := g.EocMark()][nc[|nc| - 1] := c]
    requires Orbit(t3, c, {}) == [c] && PartCleared(t3, t4, Elems(Orbit(t3, c, {})))
    ensures Loose(t4, nc[0], u)
  {
    MarkStored(g);
    LooseCut(g, t0, t1, t4, u, nc, c);
  }

  lemma FirstLast(nc: seq<nat>)
    ensures nc == [] ==> FirstOf(nc) == 0 && LastOf(nc) == 0
    ensures |nc| == 1 ==> FirstOf(nc) == nc[0]
    ensures |nc| > 0 ==> FirstOf(nc) == nc[0] && LastOf(nc) == nc[|nc| - 1]
    ensures |nc| > 1 ==> FirstOf(nc[..|nc| - 1]) == nc[0]
  {
  }

  lemma FillLoose(g: Geo, d0: Disk, d: Disk, u: set<nat>, nc: seq<nat>, w: seq<byte>, done: nat)
    requires GeoOk(g) && Fill(g, d0, d, u, nc, w, done)
    ensures Loose(Table(g, d), FirstOf(nc), u)
    ensures Cleared(Table(g, d), Elems(Orbit(Table(g, d), FirstOf(nc), {}))) == Table(g, d0)
  {
    hide *;
    FillParts(g, d0, d, u, nc, w, done);
    LimitBelow(g);
    LooseFill(g, Table(g, d0), Table(g, d), u, nc);
  }

  /** With no cluster left, what was free is on the chain, and was not enough. */
  lemma NoRoom(g: Geo, d0: Disk, d: Disk, u: set<nat>, nc: seq<nat>, w: seq<byte>, done: nat)
    requires GeoOk(g) && Fill(g, d0, d, u, nc, w, done) && Free(Table(g, d)) == {}
    ensures |Free(Table(g, d0))| == |nc|
    ensures Cleared(Table(g, d), Elems(Orbit(Table(g, d), FirstOf(nc), {}))) == Table(g, d0)
  {
    hide *;
    FillLoose(g, d0, d, u, nc, w, done);
    FillParts(g, d0, d, u, nc, w, done);
    FillFree(g, Table(g, d0), Table(g, d), u, nc);
  }

  /** The chain's last entry already holds the end mark. */
  lemma LastMarked(g: Geo, t0: seq<nat>, t: seq<nat>, u: set<nat>, nc: seq<nat>)
    requires FillTable(g, t0, t, u, nc) && |nc| > 0
    ensures 2 <= nc[|nc| - 1] < |t| && t[nc[|nc| - 1] := g.EocMark()] == t && InTable(g, nc[|nc| - 1])
            && nc[|nc| - 1] !in u
  {
  }

  lemma FirstGrow(g: Geo, d0: Disk, d: Disk, u: set<nat>, nc: seq<nat>, c: nat, w: seq<byte>, done: nat)
    requires Fill(g, d0, d, u, nc + [c], w, done)
    ensures FirstOf(nc + [c]) == (if FirstOf(nc) == 0 then c else FirstOf(nc)) && LastOf(nc + [c]) == c
  {
    FillParts(g, d0, d, u, nc + [c], w, done);
    assert |nc| > 0 ==> (nc + [c])[0] == nc[0];
    hide Fill;
  }
}
