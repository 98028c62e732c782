/** How small the compressed tree stays (gateway/radix_tree.py).

A node exists because lists part there or because a list that was inserted ends there; the edges together
are as long as there are distinct prefixes.
 */
module Compression {
  import opened Basics
  import opened PrefixSets
  import opened TreeShape
  import opened Holdings

  /** Node `n` is a branch point or spells one of the lists `sp`. */
  ghost predicate Justified(t: Tree, n: nat, sp: set<Path>)
    requires Sized(t) && n < |t.nodes|
  {
    |t.nodes[n].children| >= 2 || t.path[n] in sp
  }

  /** Every node but the root, and possibly `x`, is justified. */
  ghost predicate Packed(t: Tree, sp: set<Path>, x: nat) {
    && Sized(t)
    && forall n {:trigger Justified(t, n, sp)} :: 0 < n < |t.nodes| && n != x ==> Justified(t, n, sp)
  }

  lemma PackedSame(t: Tree, t': Tree, sp: set<Path>, x: nat)
    requires Packed(t, sp, x) && SameShape(t, t')
    ensures Packed(t', sp, x)
  {
    forall n | 0 < n < |t'.nodes| && n != x ensures Justified(t', n, sp) {
      assert Justified(t, n, sp);
    }
  }

  /** Spelling one more list justifies the node that spells it. */
  lemma PackedMore(t: Tree, sp: set<Path>, x: nat, h: Path)
    requires Packed(t, sp, x) && (x == 0 || (x < |t.nodes| && t.path[x] == h))
    ensures Packed(t, sp + {h}, 0)
  {
    forall n | 0 < n < |t.nodes| ensures Justified(t, n, sp + {h}) {
      if n != x { assert Justified(t, n, sp); }
    }
  }

  /** A new leaf spells the inserted list, and makes the node above it branch. */
  lemma PackedLeaf(t: Tree, u: nat, suffix: Path, sp: set<Path>, x: nat, h: Path)
    requires Packed(t, sp, x) && u < |t.nodes| && suffix != [] && suffix[0] !in t.nodes[u].children
    requires t.path[u] + suffix == h && (x == 0 || (x == u && t.nodes[u].children != map[]))
    ensures Packed(AddLeaf(t, u, suffix), sp + {h}, 0)
  {
    var t' := AddLeaf(t, u, suffix);
    assert t'.nodes[u].children.Keys == t.nodes[u].children.Keys + {suffix[0]};
    assert |t'.nodes[u].children| == |t'.nodes[u].children.Keys| && |t.nodes[u].children| == |t.nodes[u].children.Keys|;
    forall n | 0 < n < |t'.nodes| ensures Justified(t', n, sp + {h}) {
      if n < |t.nodes| && n != x { assert Justified(t, n, sp); }
    }
  }

  /** Cutting an edge justifies every node but the head, which has one child so far. */
  lemma PackedSplit(t: Tree, c: nat, j: nat, sp: set<Path>)
    requires CanSplit(t, c, j) && Packed(t, sp, 0)
    ensures t.parent[c] < |t.nodes| && |t.path[t.parent[c]]| + j <= |t.path[c]|
    ensures Packed(Split(t, c, j), sp, |t.nodes|) && Split(t, c, j).nodes[|t.nodes|].children != map[]
  {
    var t' := Split(t, c, j);
    var u, e := t.parent[c], t.nodes[c].edge;
    assert t'.nodes[u].children.Keys == t.nodes[u].children.Keys;
    assert |t'.nodes[u].children| == |t'.nodes[u].children.Keys| && |t.nodes[u].children| == |t.nodes[u].children.Keys|;
    assert e[j] in t'.nodes[|t.nodes|].children;
    forall n | 0 < n < |t'.nodes| && n != |t.nodes| ensures Justified(t', n, sp) {
      assert Justified(t, n, sp);
    }
  }

  /** What inserting `h` may do to the tree: at most `k` nodes more, all justified, and no path in the tree
      but those that were there and the prefixes of `h`. */
  ghost predicate Grew(t: Tree, t': Tree, h: Path, sp: set<Path>, k: nat) {
    && Packed(t', sp + {h}, 0) && h in t'.path && t.path <= t'.path && |t'.nodes| <= |t.nodes| + k
    && t.locus.Keys <= t'.locus.Keys <= t.locus.Keys + Prefixes(h)
  }

  lemma GrewSame(t: Tree, t1: Tree, t2: Tree, h: Path, sp: set<Path>, k: nat)
    requires Grew(t, t1, h, sp, k) && SameShape(t1, t2)
    ensures Grew(t, t2, h, sp, k)
  {
    PackedSame(t1, t2, sp + {h}, 0);
  }

  lemma GrewLeaf(t: Tree, u: nat, h: Path, i: nat, sp: set<Path>, x: nat)
    requires Packed(t, sp, x) && u < |t.nodes| && i < |h| && t.path[u] == h[..i] && h[i] !in t.nodes[u].children
    requires x == 0 || (x == u && t.nodes[u].children != map[])
    ensures Grew(t, AddLeaf(t, u, h[i..]), h, sp, 1)
  {
    assert h[..i] + h[i..] == h;
    PackedLeaf(t, u, h[i..], sp, x, h);
    var t' := AddLeaf(t, u, h[i..]);
    assert t'.path[|t.nodes|] == h;
    forall p | p in t'.locus && p !in t.locus ensures p in Prefixes(h) {
      var k :| |t.path[u]| < k <= |t.path[u] + h[i..]| && p == (t.path[u] + h[i..])[..k];
      assert p == h[..k];
    }
  }

  /** Nothing grew: the list has a node already. */
  lemma GrewNone(t: Tree, t': Tree, h: Path, sp: set<Path>, n: nat)
    requires SameShape(t, t') && Packed(t, sp, 0) && n < |t'.nodes| && t'.path[n] == h
    ensures Grew(t, t', h, sp, 0) && h in t.path
  {
    PackedSame(t, t', sp, 0);
    PackedMore(t', sp, 0, h);
  }

  /** Holders do not matter on the way there either. */
  lemma GrewFrom(t0: Tree, t: Tree, t': Tree, h: Path, sp: set<Path>, k: nat)
    requires SameShape(t0, t) && Grew(t, t', h, sp, k) && k <= 2 && h !in t.path
    ensures h !in t0.path && Grew(t0, t', h, sp, 2)
  {
  }

  lemma HoldSame(t0: Tree, t: Tree, n: nat, hs: map<Backend, nat>)
    requires SameShape(t0, t) && n < |t.nodes|
    ensures SameShape(t0, WithHolders(t, n, hs))
  {
  }

  /** The head of a cut edge may be all that is needed. */
  lemma GrewHead(t: Tree, c: nat, j: nat, h: Path, sp: set<Path>)
    requires CanSplit(t, c, j) && Packed(t, sp, 0) && t.parent[c] < |t.nodes|
    requires |t.path[t.parent[c]]| + j <= |t.path[c]| && t.path[c][..|t.path[t.parent[c]]| + j] == h
    ensures Grew(t, Split(t, c, j), h, sp, 2)
  {
    PackedSplit(t, c, j, sp);
    var t' := Split(t, c, j);
    assert t'.path[|t.nodes|] == h;
    PackedMore(t', sp, |t.nodes|, h);
  }

  lemma SplitGrows(t: Tree, c: nat, j: nat)
    requires Sized(t) && c < |t.nodes| && t.parent[c] < |t.nodes| && 0 < j < |t.nodes[c].edge|
    requires |t.path[t.parent[c]]| + j <= |t.path[c]|
    ensures var t' := Split(t, c, j);
      t'.locus.Keys == t.locus.Keys && t.path <= t'.path && |t'.nodes| == |t.nodes| + 1
  {
  }

  /** First a cut, then a leaf. */
  lemma GrewTwice(t: Tree, t1: Tree, t2: Tree, h: Path, sp: set<Path>)
    requires t1.locus.Keys == t.locus.Keys && t.path <= t1.path && |t1.nodes| == |t.nodes| + 1
    requires Grew(t1, t2, h, sp, 1)
    ensures Grew(t, t2, h, sp, 2)
  {
  }

  /** The size of the tree, by the number of lists it has been given. */
  ghost predicate Small(t: Tree, sp: set<Path>) {
    Packed(t, sp, 0) && (forall g :: g in sp ==> g in t.path) && |t.nodes| <= 1 + 2 * |sp|
  }

  lemma SmallGrew(t: Tree, t': Tree, h: Path, sp: set<Path>)
    requires Small(t, sp) && Grew(t, t', h, sp, if h in t.path then 0 else 2)
    ensures Small(t', sp + {h})
  {
    forall g | g in t.path ensures g in t'.path {
      var n: nat :| n < |t.path| && t.path[n] == g;
      assert t'.path[n] == g;
    }
    if h in sp {
      assert sp + {h} == sp;
    }
  }

  lemma SmallSame(t: Tree, t': Tree, sp: set<Path>)
    requires Small(t, sp) && SameShape(t, t')
    ensures Small(t', sp)
  {
    PackedSame(t, t', sp, 0);
  }

  /** A list that leaves the tree is the path of no node. */
  lemma LeavesTree(t: Tree, h: Path, k: nat)
    requires Shape(t) && k < |h| && h[..k + 1] !in t.locus
    ensures h !in t.path
  {
    if h in t.path {
      var n: nat :| n < |t.path| && t.path[n] == h;
      PathLocus(t, n);
      LocusPrefixClosed(t, h, k + 1);
    }
  }

  /** Nor is one that ends inside an edge. */
  lemma EndsInside(t: Tree, h: Path, c: nat)
    requires Shape(t) && h != [] && h in t.locus && t.locus[h] == c && c < |t.nodes| && |h| < |t.path[c]|
    ensures h !in t.path
  {
    if h in t.path {
      var n: nat :| n < |t.path| && t.path[n] == h;
      PathLocus(t, n);
    }
  }

  /** At node `u` the next block of `h` has no child. */
  lemma BranchIsNew(t: Tree, u: nat, h: Path, i: nat)
    requires Shape(t) && u < |t.nodes| && i < |h| && t.path[u] == h[..i] && h[i] !in t.nodes[u].children
    ensures h !in t.path
  {
    StepFromNode(t, u, h[i]);
    assert h[..i] + [h[i]] == h[..i + 1];
    LeavesTree(t, h, i);
  }

  /** On the edge into `c`, `h` ends or parts before the edge does. */
  lemma DivergeIsNew(t: Tree, u: nat, c: nat, h: Path, i: nat, j: nat)
    requires Shape(t) && u < |t.nodes| && i < |h| && t.path[u] == h[..i]
    requires h[i] in t.nodes[u].children && c == t.nodes[u].children[h[i]] && c < |t.nodes|
    requires 1 <= j < |t.nodes[c].edge| && i + j <= |h| && t.nodes[c].edge[..j] == h[i..i + j]
    requires i + j < |h| ==> t.nodes[c].edge[j] != h[i + j]
    ensures h !in t.path
  {
    RunOnEdge(t, u, c, h, i, j);
    if i + j < |h| {
      LeavesTree(t, h, i + j);
    } else {
      assert h[..i + j] == h;
      EndsInside(t, h, c);
    }
  }

  /** All nodes but the root. */
  function Below(n: nat): (s: seq<nat>)
    ensures |s| == n && forall i :: 0 <= i < n ==> s[i] == i + 1
  {
    seq(n, i requires 0 <= i < n => i + 1)
  }

  /** Edges do not overlap: together they are as long as there are paths in the tree. */
  lemma EdgesCountPaths(t: Tree)
    requires Shape(t)
    ensures AllNodes(t, Below(|t.nodes| - 1))
    ensures InArena(t.nodes, Below(|t.nodes| - 1)) && Blocks(t.nodes, Below(|t.nodes| - 1)) == |t.locus.Keys|
  {
    var s := Below(|t.nodes| - 1);
    assert NoDup(s);
    RegionSize(t, s);
    forall p | p in t.locus ensures p in Region(t, s) {
      assert LocusOk(t, p);
      assert s[t.locus[p] - 1] == t.locus[p];
    }
    assert Region(t, s) == t.locus.Keys;
  }
}
