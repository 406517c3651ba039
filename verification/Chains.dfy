/** Cluster chains in a table of FAT entries.  Entries at or above eoc end a
    chain; the table is shorter than eoc, so no cluster number is one of them. */
module Chains {
  import opened FatTable

  ghost predicate InRange(t: seq<nat>, s: seq<nat>) {
    forall i | 0 <= i < |s| :: 2 <= s[i] < |t|
  }

  /** s is the whole chain that starts at s[0]: in range, linked, ended. */
  ghost predicate IsChain(t: seq<nat>, eoc: nat, s: seq<nat>) {
    && |s| >= 1 && InRange(t, s)
    && (forall i | 0 <= i < |s| - 1 :: t[s[i]] == s[i + 1])
    && t[s[|s| - 1]] >= eoc
  }

  ghost predicate Injective(s: seq<nat>) {
    forall i, j | 0 <= i < j < |s| :: s[i] != s[j]
  }

  function Elems(s: seq<nat>): set<nat> {
    set c | c in s
  }

  lemma {:induction false} Determined(t: seq<nat>, eoc: nat, s: seq<nat>, i: nat, j: nat, k: nat)
    requires IsChain(t, eoc, s) && i < j && j + k < |s| && s[i] == s[j]
    ensures s[i + k] == s[j + k]
  {
    if k > 0 {
      Determined(t, eoc, s, i, j, k - 1);
      assert t[s[i + (k - 1)]] == s[i + k];
      assert t[s[j + (k - 1)]] == s[j + k];
    }
  }

  /** A chain that ends never visits a cluster twice. */
  lemma ChainInjective(t: seq<nat>, eoc: nat, s: seq<nat>)
    requires IsChain(t, eoc, s) && |t| <= eoc
    ensures Injective(s)
  {
    forall i, j | 0 <= i < j < |s|
      ensures s[i] != s[j]
    {
      if s[i] == s[j] {
        var k := |s| - 1 - j;
        assert t[s[i + k]] == s[i + k + 1] < |t|;
        Determined(t, eoc, s, i, j, k);
      }
    }
  }

  lemma {:induction false} InjectiveSize(s: seq<nat>)
    requires Injective(s)
    ensures |Elems(s)| == |s|
  {
    if |s| == 0 {
      assert Elems(s) == {};
    } else {
      var r := s[..|s| - 1];
      InjectiveSize(r);
      assert s[|s| - 1] !in r;
      assert Elems(s) == Elems(r) + {s[|s| - 1]};
    }
  }

  /** The numbers lo up to, not including, hi. */
  function Range(lo: nat, hi: nat): (r: set<nat>)
    ensures forall c :: c in r <==> lo <= c < hi
    ensures |r| == if lo <= hi then hi - lo else 0
  {
    if hi <= lo then {} else Range(lo, hi - 1) + {hi - 1}
  }

  lemma SubsetSize(a: set<nat>, b: set<nat>)
    requires a <= b
    ensures |a| <= |b|
  {
    assert b == a + (b - a);
  }

  /** No injective list of table clusters is longer than the table. */
  lemma InjectiveShort(t: seq<nat>, s: seq<nat>)
    requires Injective(s) && InRange(t, s) && |t| >= 2
    ensures |s| <= |t| - 2
  {
    InjectiveSize(s);
    SubsetSize(Elems(s), Range(2, |t|));
  }

  /** The in-range clusters met from c before the walk leaves the table or
      meets one it has seen: total on any table, looping or not. */
  function Orbit(t: seq<nat>, c: nat, seen: set<nat>): seq<nat>
    decreases Range(2, |t|) - seen
  {
    if 2 <= c < |t| && c !in seen then
      assert c in Range(2, |t|);
      [c] + Orbit(t, t[c], seen + {c})
    else []
  }

  lemma {:induction false} OrbitFacts(t: seq<nat>, c: nat, seen: set<nat>)
    ensures InRange(t, Orbit(t, c, seen)) && Injective(Orbit(t, c, seen))
    ensures Elems(Orbit(t, c, seen)) !! seen
    decreases Range(2, |t|) - seen
  {
    if 2 <= c < |t| && c !in seen {
      assert c in Range(2, |t|);
      OrbitFacts(t, t[c], seen + {c});
      var r := Orbit(t, t[c], seen + {c});
      assert Orbit(t, c, seen) == [c] + r;
      hide Orbit;
      ConsFacts(t, c, r, seen);
    }
  }

  lemma ConsFacts(t: seq<nat>, c: nat, r: seq<nat>, seen: set<nat>)
    requires 2 <= c < |t| && c !in seen && InRange(t, r) && Injective(r) && Elems(r) !! seen + {c}
    ensures InRange(t, [c] + r) && Injective([c] + r) && Elems([c] + r) !! seen
  {
    assert forall i | 0 <= i < |r| :: r[i] in Elems(r);
  }

  /** An orbit follows the links, and what its last cluster links to is out of
      the table or already met. */
  lemma {:induction false} OrbitLinks(t: seq<nat>, c: nat, seen: set<nat>, i: nat)
    requires i < |Orbit(t, c, seen)|
    ensures var o := Orbit(t, c, seen);
            && o[0] == c && 2 <= o[i] < |t|
            && (i + 1 < |o| ==> t[o[i]] == o[i + 1])
            && (i + 1 == |o| && 2 <= t[o[i]] < |t| ==> t[o[i]] in seen + Elems(o))
    decreases Range(2, |t|) - seen
  {
    assert c in Range(2, |t|);
    var o, r := Orbit(t, c, seen), Orbit(t, t[c], seen + {c});
    assert o == [c] + r;
    if i > 0 {
      OrbitLinks(t, t[c], seen + {c}, i - 1);
      assert Elems(o) == {c} + Elems(r);
    } else if |r| > 0 {
      OrbitLinks(t, t[c], seen + {c}, 0);
    } else {
      assert c in Elems(o);
    }
  }

  lemma OrbitEmpty(t: seq<nat>, c: nat)
    ensures Orbit(t, c, {}) == [] <==> !(2 <= c < |t|)
  {
  }

  lemma PrefixElems(s: seq<nat>, i: nat)
    requires i < |s|
    ensures Elems(s[..i + 1]) == Elems(s[..i]) + {s[i]}
  {
  }

  lemma {:induction false} OrbitFrom(t: seq<nat>, eoc: nat, s: seq<nat>, i: nat)
    requires IsChain(t, eoc, s) && |t| <= eoc && i < |s|
    ensures Orbit(t, s[i], Elems(s[..i])) == s[i..]
    decreases |s| - i
  {
    ChainInjective(t, eoc, s);
    assert s[i] !in s[..i];
    assert Elems(s[..i + 1]) == Elems(s[..i]) + {s[i]};
    if i + 1 < |s| {
      OrbitFrom(t, eoc, s, i + 1);
      assert s[i..] == [s[i]] + s[i + 1..];
    } else {
      assert t[s[i]] >= eoc;
      assert s[i..] == [s[i]];
    }
  }

  /** On a chain that ends, the orbit is the chain. */
  lemma OrbitOfChain(t: seq<nat>, eoc: nat, s: seq<nat>)
    requires IsChain(t, eoc, s) && |t| <= eoc
    ensures Orbit(t, s[0], {}) == s
  {
    OrbitFrom(t, eoc, s, 0);
    assert s[..0] == [] && Elems(s[..0]) == {} && s[0..] == s;
  }

  /** An orbit stays inside any set the links never leave. */
  lemma {:induction false} OrbitClosed(t: seq<nat>, c: nat, seen: set<nat>, s: set<nat>)
    requires forall x | x in s && x < |t| && 2 <= t[x] < |t| :: t[x] in s
    requires 2 <= c < |t| ==> c in s
    ensures Elems(Orbit(t, c, seen)) <= s
    decreases Range(2, |t|) - seen
  {
    if 2 <= c < |t| && c !in seen {
      assert c in Range(2, |t|);
      OrbitClosed(t, t[c], seen + {c}, s);
    }
  }

  /** The table with the entries of a set of clusters set to zero. */
  function Cleared(t: seq<nat>, s: set<nat>): (r: seq<nat>)
    ensures |r| == |t|
  {
    seq(|t|, (c: nat) requires c < |t| => if c in s then 0 else t[c])
  }

  lemma ClearedFree(t: seq<nat>, s: set<nat>)
    requires forall c | c in s :: 2 <= c < |t|
    ensures Free(Cleared(t, s)) == Free(t) + s
  {
  }

  lemma ClearedMore(t: seq<nat>, s: set<nat>, c: nat)
    requires c < |t|
    ensures Cleared(t, s)[c := 0] == Cleared(t, s + {c})
  {
  }

  /** Links outside a set do not care what the set's entries become. */
  lemma ChainKept(t0: seq<nat>, t1: seq<nat>, eoc: nat, s: seq<nat>)
    requires IsChain(t0, eoc, s) && |t1| == |t0|
    requires forall c | c in s && c < |t0| :: t1[c] == t0[c]
    ensures IsChain(t1, eoc, s)
  {
  }
}
