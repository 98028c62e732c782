/** What an insert does to the recency lists of the other backends (gateway/radix_tree.py).

Only cutting an edge that another backend holds touches that backend's list: the head of the cut is new, and
it comes last.  So the backend's next evictions drop what they would have dropped, in the same order, except
the prefixes up to the cut, which now count as just used.
 */
module Recency {
  import opened Basics
  import opened PrefixSets
  import opened TreeShape
  import opened Holdings

  /** From list `s` of tree `t` to list `s'` of tree `t'`: every entry is still there in its place, at most one
      is new at the end, the new one covers prefixes of `h`, and the `k` oldest entries cover what they covered
      before, less what the new one covers now. */
  ghost predicate Kept(t: Tree, s: seq<nat>, t': Tree, s': seq<nat>, h: Path) {
    && s <= s' && |s'| <= |s| + 1 && Region(t', s'[|s|..]) <= Prefixes(h)
    && forall k {:trigger s[..k]} :: 0 <= k <= |s| ==> Region(t', s[..k]) == Region(t, s[..k]) - Region(t', s'[|s|..])
  }

  /** Nodes of `t` cover in `t'` what they cover in `t`. */
  ghost predicate SameRegions(t: Tree, t': Tree) {
    forall s {:trigger Region(t', s)} :: AllNodes(t, s) ==> Region(t', s) == Region(t, s)
  }

  lemma SameShapeRegions(t: Tree, t': Tree)
    requires SameShape(t, t')
    ensures SameRegions(t, t')
  {
  }

  lemma RegionsThen(t: Tree, t1: Tree, t2: Tree)
    requires SameRegions(t, t1) && SameRegions(t1, t2) && |t.nodes| <= |t1.nodes|
    ensures SameRegions(t, t2)
  {
    forall s | AllNodes(t, s) ensures Region(t2, s) == Region(t, s) {
      assert Region(t1, s) == Region(t, s);
    }
  }

  /** Nothing happened to the list. */
  lemma KeptSame(t: Tree, t': Tree, s: seq<nat>, h: Path)
    requires SameRegions(t, t') && AllNodes(t, s)
    ensures Kept(t, s, t', s, h)
  {
    assert s[|s|..] == [];
    forall k | 0 <= k <= |s| ensures Region(t', s[..k]) == Region(t, s[..k]) - Region(t', s[|s|..]) {
      assert AllNodes(t, s[..k]);
      assert Region(t', []) == {};
    }
  }

  /** Nothing more happens afterwards. */
  lemma KeptThen(t: Tree, s: seq<nat>, t1: Tree, s1: seq<nat>, t2: Tree, h: Path)
    requires Kept(t, s, t1, s1, h) && SameRegions(t1, t2) && AllNodes(t1, s1)
    ensures Kept(t, s, t2, s1, h)
  {
    assert AllNodes(t1, s1[|s|..]);
    assert Region(t2, s1[|s|..]) == Region(t1, s1[|s|..]);
    forall k | 0 <= k <= |s| ensures Region(t2, s[..k]) == Region(t, s[..k]) - Region(t2, s1[|s|..]) {
      assert s[..k] == s1[..k];
      assert AllNodes(t1, s[..k]);
    }
  }

  /** Nothing happened before. */
  lemma KeptAfter(t0: Tree, t: Tree, s: seq<nat>, t': Tree, s': seq<nat>, h: Path)
    requires SameRegions(t0, t) && AllNodes(t0, s) && Kept(t, s, t', s', h)
    ensures Kept(t0, s, t', s', h)
  {
    forall k | 0 <= k <= |s| ensures Region(t', s[..k]) == Region(t0, s[..k]) - Region(t', s'[|s|..]) {
      assert AllNodes(t0, s[..k]);
    }
  }

  /** The list of a holder of the cut edge gets the head at its end; other lists do not change. */
  lemma SplitKept(t: Tree, lru: Lru, c: nat, j: nat, a: Backend, h: Path)
    requires CanSplit(t, c, j) && LruOk(t, lru)
    requires t.parent[c] < |t.nodes| && |t.path[t.parent[c]]| + j <= |t.path[c]|
    requires |t.path[t.parent[c]]| + j <= |h|
    requires t.path[c][..|t.path[t.parent[c]]| + j] == h[..|t.path[t.parent[c]]| + j]
    ensures var m := |t.nodes|; var s' := ListOf(TrackAll(lru, t.nodes[c].holders.Keys, m), a);
      Kept(t, ListOf(lru, a), Split(t, c, j), s', h)
  {
    var m, t' := |t.nodes|, Split(t, c, j);
    var s := ListOf(lru, a);
    var s' := ListOf(TrackAll(lru, t.nodes[c].holders.Keys, m), a);
    assert Lists(t, s, a);
    assert c in s <==> Holds(t, c, a);
    CovInArena(t, s, a);
    if c in s {
      assert m !in s;
      WithoutAbsent(s, m);
      assert s' == s + [m] && s'[|s|..] == [m];
      HeadCovers(t, c, j, h);
      forall k | 0 <= k <= |s| ensures Region(t', s[..k]) == Region(t, s[..k]) - Region(t', [m]) {
        SplitRegion(t, c, j, s[..k]);
      }
    } else {
      assert s' == s && s'[|s|..] == [];
      forall k | 0 <= k <= |s| ensures Region(t', s[..k]) == Region(t, s[..k]) - Region(t', []) {
        assert c !in s[..k];
        SplitOthers(t, c, j, s[..k]);
        assert Region(t', []) == {};
      }
    }
  }

  lemma CovInArena(t: Tree, s: seq<nat>, a: Backend)
    requires Lists(t, s, a)
    ensures AllNodes(t, s) && forall k :: 0 <= k <= |s| ==> AllNodes(t, s[..k])
  {
    forall i | 0 <= i < |s| ensures 0 < s[i] < |t.nodes| {
      assert s[i] in s;
      assert Holds(t, s[i], a);
    }
  }

  lemma HeadCovers(t: Tree, c: nat, j: nat, h: Path)
    requires CanSplit(t, c, j) && t.parent[c] < |t.nodes| && |t.path[t.parent[c]]| + j <= |t.path[c]|
    requires |t.path[t.parent[c]]| + j <= |h|
    requires t.path[c][..|t.path[t.parent[c]]| + j] == h[..|t.path[t.parent[c]]| + j]
    ensures Region(Split(t, c, j), [|t.nodes|]) <= Prefixes(h)
  {
    SplitHead(t, c, j);
    var cut := |t.path[t.parent[c]]| + j;
    forall p | p in Region(Split(t, c, j), [|t.nodes|]) ensures p in Prefixes(h) {
      var k :| |t.path[t.parent[c]]| < k <= cut && p == t.path[c][..k];
      assert p == t.path[c][..cut][..k] == h[..cut][..k] == h[..k];
    }
  }

  /** Old nodes keep what does not go to the head. */
  lemma SplitRegion(t: Tree, c: nat, j: nat, s: seq<nat>)
    requires CanSplit(t, c, j) && AllNodes(t, s)
    requires t.parent[c] < |t.nodes| && |t.path[t.parent[c]]| + j <= |t.path[c]|
    ensures Region(Split(t, c, j), s) == Region(t, s) - Region(Split(t, c, j), [|t.nodes|])
  {
    var t', m := Split(t, c, j), |t.nodes|;
    forall p | p in t.locus ensures p in Region(t', s) <==> p in Region(t, s) && p !in Region(t', [m]) {
      assert LocusOk(t, p);
    }
  }

  /** Every backend but `b`. */
  ghost predicate OthersOrder(t: Tree, lru: Lru, t': Tree, lru': Lru, b: Backend, h: Path) {
    forall a {:trigger ListOf(lru', a)} :: a != b ==> Kept(t, ListOf(lru, a), t', ListOf(lru', a), h)
  }

  lemma OrderSame(t: Tree, lru: Lru, t': Tree, lru': Lru, b: Backend, h: Path)
    requires Sized(t) && LruOk(t, lru) && SameRegions(t, t') && forall a :: a != b ==> ListOf(lru', a) == ListOf(lru, a)
    ensures OthersOrder(t, lru, t', lru', b, h)
  {
    forall a | a != b ensures Kept(t, ListOf(lru, a), t', ListOf(lru', a), h) {
      assert Lists(t, ListOf(lru, a), a);
      CovInArena(t, ListOf(lru, a), a);
      KeptSame(t, t', ListOf(lru, a), h);
    }
  }

  lemma OrderThen(t: Tree, lru: Lru, t1: Tree, lru1: Lru, t2: Tree, lru2: Lru, b: Backend, h: Path)
    requires OthersOrder(t, lru, t1, lru1, b, h) && LruOk(t1, lru1) && SameRegions(t1, t2)
    requires forall a :: a != b ==> ListOf(lru2, a) == ListOf(lru1, a)
    ensures OthersOrder(t, lru, t2, lru2, b, h)
  {
    forall a | a != b ensures Kept(t, ListOf(lru, a), t2, ListOf(lru2, a), h) {
      assert ListOf(lru1, a) == ListOf(lru2, a);
      assert Lists(t1, ListOf(lru1, a), a);
      CovInArena(t1, ListOf(lru1, a), a);
      KeptThen(t, ListOf(lru, a), t1, ListOf(lru1, a), t2, h);
    }
  }

  lemma OrderAfter(t0: Tree, lru0: Lru, t: Tree, lru: Lru, t': Tree, lru': Lru, b: Backend, h: Path)
    requires LruOk(t0, lru0) && SameRegions(t0, t) && OthersOrder(t, lru, t', lru', b, h)
    requires forall a :: a != b ==> ListOf(lru, a) == ListOf(lru0, a)
    ensures OthersOrder(t0, lru0, t', lru', b, h)
  {
    forall a | a != b ensures Kept(t0, ListOf(lru0, a), t', ListOf(lru', a), h) {
      assert Kept(t, ListOf(lru, a), t', ListOf(lru', a), h) by { assert ListOf(lru', a) == ListOf(lru', a); }
      assert Lists(t0, ListOf(lru0, a), a);
      CovInArena(t0, ListOf(lru0, a), a);
      KeptAfter(t0, t, ListOf(lru0, a), t', ListOf(lru', a), h);
    }
  }

  lemma OrderSplit(t: Tree, lru: Lru, c: nat, j: nat, b: Backend, h: Path)
    requires CanSplit(t, c, j) && LruOk(t, lru)
    requires t.parent[c] < |t.nodes| && |t.path[t.parent[c]]| + j <= |t.path[c]|
    requires |t.path[t.parent[c]]| + j <= |h|
    requires t.path[c][..|t.path[t.parent[c]]| + j] == h[..|t.path[t.parent[c]]| + j]
    ensures OthersOrder(t, lru, Split(t, c, j), TrackAll(lru, t.nodes[c].holders.Keys, |t.nodes|), b, h)
  {
    forall a | a != b
      ensures Kept(t, ListOf(lru, a), Split(t, c, j), ListOf(TrackAll(lru, t.nodes[c].holders.Keys, |t.nodes|), a), h)
    {
      SplitKept(t, lru, c, j, a, h);
    }
  }

  /** What the next eviction of another backend drops: if it drops no more entries than there were before, it is
      what these entries covered before, less the prefixes up to the cut. */
  lemma NextEvictionDrops(t: Tree, s: seq<nat>, t': Tree, s': seq<nat>, h: Path, a: Backend, cap: int)
    requires Shape(t') && Lists(t', s', a) && Kept(t, s, t', s', h)
    ensures InArena(t'.nodes, s')
    ensures var r := Trim(t'.nodes, s', cap); var k := |s'| - |r|;
      k <= |s| ==>
        Region(t', r) == Cov(t', a) - (Region(t, s[..k]) - Region(t', s'[|s|..]))
  {
    hide Shape, Region, Trim, Cov;
    CovIsRegion(t', s', a);
    CovInArena(t', s', a);
    InArenaToo(t', s');
    var r := Trim(t'.nodes, s', cap);
    var k := |s'| - |r|;
    if k <= |s| {
      assert s'[..k] == s[..k];
      TailCovers(t', s', k);
    }
  }

  lemma InArenaToo(t: Tree, s: seq<nat>)
    requires AllNodes(t, s)
    ensures InArena(t.nodes, s)
  {
  }

  /** The tail of a list covers what its front does not. */
  lemma TailCovers(t: Tree, s: seq<nat>, k: nat)
    requires NoDup(s) && k <= |s|
    ensures Region(t, s[k..]) == Region(t, s) - Region(t, s[..k])
  {
    assert s == s[..k] + s[k..];
    assert forall n :: n in s[k..] <==> n in s && n !in s[..k];
  }
}
