/** Ranged reads and in-place writes: the bytes of a file by position, sector by
    sector of its chain. */
module Ranges {
  import opened Arith
  import opened Bytes
  import opened Layout
  import opened FatTable
  import opened Folders
  import opened Tree
  import opened Volume
  import opened SectorWrites
  import opened FatWrites
  import opened Commits
  import opened Walks
  import opened FileData

  /** What a read of len bytes at off of a file answers. */
  function Slice(w: seq<byte>, off: nat, len: nat): seq<byte> {
    if off >= |w| then [] else w[off..Least(off + len, |w|)]
  }

  /** Adjacent reads put together are one larger read. */
  lemma SlicesJoin(w: seq<byte>, off: nat, n: nat, k: nat)
    ensures Slice(w, off, n) + Slice(w, off + n, k) == Slice(w, off, n + k)
  {
  }

  lemma SliceGrows(w: seq<byte>, p: nat, a: seq<byte>, b: seq<byte>)
    requires p + |a| + |b| <= |w| && a == Slice(w, p, |a|) && b == w[p + |a|..p + |a| + |b|]
    ensures a + b == Slice(w, p, |a + b|)
  {
  }

  /** A 32-bit count returned as a C int. */
  function AsInt(x: nat): int { if x < 0x8000_0000 then x else x - U32 }

  lemma AsIntIs(x: nat)
    ensures AsInt(x) == if x < 0x8000_0000 then x else x - 0x1_0000_0000
  {
  }

  /** The bytes of a file on the chain nc. */
  function Content(g: Geo, d: Disk, chain: seq<nat>, size: nat): (r: seq<byte>)
    ensures |r| == Least(size, 512 * Sectors(g, |chain|))
  {
    FileBytes(Body(g, d, chain), size)
  }

  lemma SectorBytes(body: seq<Sector>, size: nat, q: nat, skip: nat, chunk: nat)
    requires q < |body| && skip + chunk <= 512 && 512 * q + skip + chunk <= |FileBytes(body, size)|
    ensures FileBytes(body, size)[512 * q + skip..512 * q + skip + chunk] == body[q][skip..skip + chunk]
  {
    var w := FileBytes(body, size);
    forall k | 512 * q + skip <= k < 512 * q + skip + chunk
      ensures w[k] == body[q][k - 512 * q]
    {
      assert k / 512 == q;
    }
  }

  /** Sector s of the cluster at index of a chain, by its place in the file. */
  lemma PlaceInFile(g: Geo, d: Disk, chain: seq<nat>, index: nat, s: nat)
    requires GeoOk(g) && Fits(g, d) && Clusters(g, chain) && index < |chain| && s < g.spc
    ensures InTable(g, chain[index]) && Wrap(ClusterToLba(g, chain[index]) + s) == g.Lba(chain[index]) + s
    ensures g.RootStart() <= g.Lba(chain[index]) + s < |d|
    ensures var q := Sectors(g, index) + s;
            && q < Sectors(g, |chain|) && Quot(q, g.spc) == index && Rem(q, g.spc) == s
            && Body(g, d, chain)[q] == d[g.Lba(chain[index]) + s]
  {
    var q := Sectors(g, index) + s;
    DivUnique(q, index, s, g.spc);
    Scale(index, s, |chain|, g.spc);
    LbaExact(g, chain[index], s);
    ClusterInside(g, chain[index], s);
    RootAbove(g);
    hide Geo.Lba;
    hide Geo.RootStart;
    hide Quot;
    hide Rem;
    hide GeoOk;
    hide ClusterToLba;
    hide Wrap;
  }

  /** One sector's share of a ranged read. */
  lemma ReadShare(g: Geo, d: Disk, chain: seq<nat>, size: nat, index: nat, s: nat, skip: nat, chunk: nat)
    requires GeoOk(g) && Fits(g, d) && Clusters(g, chain) && index < |chain| && s < g.spc && skip + chunk <= 512
    requires 512 * (Sectors(g, index) + s) + skip + chunk <= |Content(g, d, chain, size)|
    ensures g.Lba(chain[index]) + s < |d| && 0 <= g.Lba(chain[index]) + s
    ensures Wrap(ClusterToLba(g, chain[index]) + s) == g.Lba(chain[index]) + s
    ensures var p := 512 * (Sectors(g, index) + s) + skip;
            Content(g, d, chain, size)[p..p + chunk] == d[g.Lba(chain[index]) + s][skip..skip + chunk]
  {
    hide *;
    hide Content;
    PlaceInFile(g, d, chain, index, s);
    ContentIs(g, d, chain, size);
    SectorBytes(Body(g, d, chain), size, Sectors(g, index) + s, skip, chunk);
  }

  lemma ContentIs(g: Geo, d: Disk, chain: seq<nat>, size: nat)
    ensures Content(g, d, chain, size) == FileBytes(Body(g, d, chain), size)
    ensures |Body(g, d, chain)| == Sectors(g, |chain|)
    ensures size <= 512 * Sectors(g, |chain|) ==> |Content(g, d, chain, size)| == size
    ensures |Content(g, d, chain, size)| <= 512 * Sectors(g, |chain|)
  {
    hide FileBytes;
    hide Body;
  }

  /** The content of a file of the volume. */
  lemma FileAt(g: Geo, d: Disk, m: Model, f: nat, k: nat, e: Ent)
    requires WF(g, d, m) && KidOk(g, m, f, k, e) && !IsDir(e)
    ensures FileOn(g, d, m, f, k, e)
  {
    hide *;
    hide Content;
    FileHead(g, m, f, k, e);
    NodeIs(g, d, e);
    if e.size > 0 {
      KidFile(g, m, f, k, e);
      DiskChainOf(g, d, m, e.cluster);
      ContentIs(g, d, m.ch[e.cluster], e.size);
    }
    FileOnMake(g, d, m, f, k, e);
  }

  /** e is a file, all its bytes on the chain it names. */
  ghost predicate FileOn(g: Geo, d: Disk, m: Model, f: nat, k: nat, e: Ent) {
    && NodeOf(g, d, e).FileNode? && |NodeOf(g, d, e).bytes| == e.size
    && (e.size > 0 ==>
          && e.cluster >= 2 && e.cluster in m.ch && e.cluster in m.loc && m.loc[e.cluster] == (f, k)
          && NodeOf(g, d, e).bytes == Content(g, d, m.ch[e.cluster], e.size)
          && e.size <= 512 * Sectors(g, |m.ch[e.cluster]|))
  }

  lemma FileParts(g: Geo, d: Disk, m: Model, f: nat, k: nat, e: Ent)
    requires FileOn(g, d, m, f, k, e)
    ensures NodeOf(g, d, e).FileNode? && |NodeOf(g, d, e).bytes| == e.size
    ensures e.size > 0 ==> e.cluster >= 2 && e.cluster in m.ch && e.cluster in m.loc && m.loc[e.cluster] == (f, k)
    ensures e.size > 0 ==> NodeOf(g, d, e).bytes == Content(g, d, m.ch[e.cluster], e.size)
    ensures e.size > 0 ==> e.size <= 512 * Sectors(g, |m.ch[e.cluster]|)
  {
    hide NodeOf;
    hide Content;
    hide Sectors;
  }

  lemma FileOnMake(g: Geo, d: Disk, m: Model, f: nat, k: nat, e: Ent)
    requires NodeOf(g, d, e).FileNode? && |NodeOf(g, d, e).bytes| == e.size
    requires e.size > 0 ==> e.cluster >= 2 && e.cluster in m.ch && e.cluster in m.loc && m.loc[e.cluster] == (f, k)
    requires e.size > 0 ==> NodeOf(g, d, e).bytes == Content(g, d, m.ch[e.cluster], e.size)
    requires e.size > 0 ==> e.size <= 512 * Sectors(g, |m.ch[e.cluster]|)
    ensures FileOn(g, d, m, f, k, e)
  {
    hide NodeOf;
    hide Content;
    hide Sectors;
  }

  lemma FileHead(g: Geo, m: Model, f: nat, k: nat, e: Ent)
    requires KidOk(g, m, f, k, e) && !IsDir(e)
    ensures e.size > 0 ==> e.cluster >= 2
  {
    hide Sectors;
  }

  lemma NodeIs(g: Geo, d: Disk, e: Ent)
    requires !IsDir(e)
    ensures NodeOf(g, d, e) == FileNode(FileBytes(Body(g, d, DiskChain(g, d, e.cluster)), e.size))
    ensures e.size == 0 ==> NodeOf(g, d, e) == FileNode([])
  {
    hide Body;
    hide DiskChain;
  }

  function ClusterBytes(g: Geo): nat { g.spc * 512 }

  /** Position off of a file is in cluster off / per of its chain, and what is
      left over is its offset there. */
  lemma StartPlace(g: Geo, off: nat, n: nat)
    requires g.spc > 0 && off < 512 * Sectors(g, n)
    ensures ClusterBytes(g) > 0 && Quot(off, ClusterBytes(g)) < n
    ensures off == 512 * Sectors(g, Quot(off, ClusterBytes(g))) + Rem(off, ClusterBytes(g))
            && Rem(off, ClusterBytes(g)) < 512 * g.spc
  {
    var i := Quot(off, ClusterBytes(g));
    DivMod(off, ClusterBytes(g));
    Regroup(g, i);
    Regroup(g, n);
    DivBelow(off, n, ClusterBytes(g));
    hide *;
  }

  lemma Regroup(g: Geo, i: nat)
    ensures i * ClusterBytes(g) == 512 * Sectors(g, i)
  {
    assert i * (g.spc * 512) == (i * g.spc) * 512;
  }

  /** Past the last byte of cluster index lies the next cluster, if any bytes do. */
  lemma NextCluster(g: Geo, d: Disk, m: Model, h: nat, index: nat)
    requires WF(g, d, m) && h in m.ch && index + 1 < |m.ch[h]|
    ensures FatGet(g, d, m.ch[h][index]) == m.ch[h][index + 1]
  {
    hide *;
    ModelWalk(g, d, m, h, m.ch[h], index);
    ModelWalk(g, d, m, h, m.ch[h], index + 1);
    NthIs(m.ch[h], index);
    NthIs(m.ch[h], index + 1);
    WFParts(g, d, m);
    LimitBelow(g);
    WalkNext(g, d, h, index);
    FollowIs(g, FatGet(g, d, m.ch[h][index]));
    TableBound(g, m.ch[h][index + 1]);
  }

  lemma FollowIs(g: Geo, next: nat)
    ensures Follow(g, next) == if 2 <= next < g.Eoc() then next else 0
  {
  }

  lemma PlaceMake(m: Model, h: nat, i: nat, c: nat)
    requires h in m.ch && i < |m.ch[h]| && m.ch[h][i] == c
    ensures PlaceOk(m, h, i, c)
  {
  }

  lemma ClusterHere(g: Geo, chain: seq<nat>, n: nat)
    requires Clusters(g, chain) && n < |chain| && g.Limit() < g.Eoc()
    ensures InTable(g, chain[n]) && 2 <= chain[n] < g.Eoc()
  {
  }

  /** total bytes of w from p on: out is read, remaining are left, the next of
      them skip bytes into cluster index. */
  ghost predicate Reading(g: Geo, chain: seq<nat>, w: seq<byte>, p: nat, total: nat, out: seq<byte>, remaining: nat,
                          index: nat, skip: nat) {
    && p + total <= |w| <= 512 * Sectors(g, |chain|) && |out| + remaining == total && out == Slice(w, p, |out|)
    && (remaining > 0 ==> p + |out| == 512 * Sectors(g, index) + skip && skip < 512 * g.spc)
    && (remaining == 0 ==> 512 * Sectors(g, index) < p + total <= 512 * Sectors(g, index + 1))
  }

  lemma ReadingBegin(g: Geo, chain: seq<nat>, w: seq<byte>, p: nat, total: nat, index: nat, skip: nat)
    requires 0 < total && p + total <= |w| <= 512 * Sectors(g, |chain|)
    requires p == 512 * Sectors(g, index) + skip && skip < 512 * g.spc
    ensures Reading(g, chain, w, p, total, [], total, index, skip)
  {
    SliceNone(w, p);
    hide Sectors;
    hide Slice;
  }

  lemma ReadingParts(g: Geo, chain: seq<nat>, w: seq<byte>, p: nat, total: nat, out: seq<byte>, remaining: nat,
                     index: nat, skip: nat)
    requires Reading(g, chain, w, p, total, out, remaining, index, skip)
    ensures p + total <= |w| && |out| + remaining == total && out == Slice(w, p, |out|)
    ensures remaining > 0 ==> p + |out| == 512 * Sectors(g, index) + skip && skip < 512 * g.spc
    ensures remaining == 0 ==>
            out == Slice(w, p, total) && 512 * Sectors(g, index) < p + total <= 512 * Sectors(g, index + 1)
  {
    hide Sectors;
  }

  lemma ReadingMore(g: Geo, chain: seq<nat>, w: seq<byte>, p: nat, total: nat, out: seq<byte>, remaining: nat,
                    index: nat, skip: nat,
                    part: seq<byte>, left: nat)
    requires Reading(g, chain, w, p, total, out, remaining, index, skip) && remaining > 0 && g.spc > 0
             && index < |chain|
    requires |part| + left == remaining && p + |out| + |part| <= |w| && part == Slice(w, p + |out|, |part|)
    requires p + |out| + |part| <= 512 * Sectors(g, index + 1)
    requires left > 0 ==> p + |out| + |part| == 512 * Sectors(g, index + 1)
    ensures left == 0 ==> Reading(g, chain, w, p, total, out + part, left, index, 0)
    ensures left > 0 ==> index + 1 < |chain| && Reading(g, chain, w, p, total, out + part, left, index + 1, 0)
  {
    hide Sectors;
    hide Slice;
    SectorsMore(g, index);
    SlicesJoin(w, p, |out|, |part|);
  }

  lemma SliceCut(w: seq<byte>, off: nat, len: nat)
    requires off < |w|
    ensures Slice(w, off, len) == Slice(w, off, if |w| - off < len then |w| - off else len)
  {
  }

  lemma SliceSize(w: seq<byte>, off: nat, len: nat)
    requires off + len <= |w|
    ensures |Slice(w, off, len)| == len
  {
  }

  lemma SliceBytes(w: seq<byte>, off: nat, len: nat)
    ensures var s := Slice(w, off, len);
            && |s| == (if off >= |w| then 0 else if |w| - off < len then |w| - off else len)
            && forall i | 0 <= i < |s| :: s[i] == w[off + i]
  {
  }

  /** The bytes and the count of a ranged read. */
  lemma ReadAnswers(w: seq<byte>, off: nat, len: nat)
    ensures var s := Slice(w, off, len);
            && |s| == (if off >= |w| then 0 else if |w| - off < len then |w| - off else len)
            && (forall i | 0 <= i < |s| :: s[i] == w[off + i])
            && AsInt(|s|) == (if |s| < 0x8000_0000 then |s| else |s| - 0x1_0000_0000)
  {
    SliceBytes(w, off, len);
    AsIntIs(|Slice(w, off, len)|);
  }

  lemma SliceNone(w: seq<byte>, off: nat)
    ensures Slice(w, off, 0) == []
  {
  }

  lemma SliceIs(w: seq<byte>, off: nat, len: nat)
    ensures Slice(w, off, len) == if off >= |w| then [] else w[off..off + (if |w| - off < len then |w| - off else len)]
    ensures AsInt(0) == 0
  {
  }

  /** cluster is the one of the chain that position off of the file is in, if any is. */
  ghost predicate StartsAt(g: Geo, chain: seq<nat>, off: nat, cluster: nat) {
    && ClusterBytes(g) > 0
    && (Quot(off, ClusterBytes(g)) < |chain| ==> cluster == chain[Quot(off, ClusterBytes(g))])
  }

  lemma StartsAtIs(g: Geo, chain: seq<nat>, off: nat, cluster: nat)
    ensures StartsAt(g, chain, off, cluster) <==>
            && ClusterBytes(g) > 0
            && (Quot(off, ClusterBytes(g)) < |chain| ==> cluster == chain[Quot(off, ClusterBytes(g))])
  {
    hide ClusterBytes;
    hide Quot;
  }

  /** A cluster that starts at or before off is no later than off's own. */
  lemma SeekSooner(g: Geo, off: nat, i: nat)
    requires g.spc > 0
    ensures ClusterBytes(g) > 0 && (512 * Sectors(g, i) <= off ==> i <= Quot(off, ClusterBytes(g)))
  {
    var n := ClusterBytes(g);
    Regroup(g, i);
    DivMod(off, n);
    if i > Quot(off, n) { Scale(Quot(off, n), Rem(off, n), i, n); }
    hide *;
  }
}
