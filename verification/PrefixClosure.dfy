/** When a holder of a node holds the entire prefix ending there (gateway/radix_tree.py).

The tree's documentation says that it always does.  Eviction drops the least recently used node of a
list, and a node is touched before the nodes below it, so a node can outlive its parent: the statement
holds exactly as long as no surviving entry of the list has lost its parent.
 */
module PrefixClosure {
  import opened Basics
  import opened PrefixSets
  import opened TreeShape
  import opened Holdings
  import opened InsertProof
  import opened RadixTree

  /** Every listed node hangs below the root or below a listed node. */
  ghost predicate ParentsListed(t: Tree, s: seq<nat>)
    requires Sized(t) && AllNodes(t, s)
  {
    forall i :: 0 <= i < |s| ==> t.parent[s[i]] == 0 || t.parent[s[i]] in s
  }

  /** The prefixes of the listed nodes contain all their prefixes if and only if the parents are listed. */
  lemma RegionClosedIff(t: Tree, s: seq<nat>)
    requires Shape(t) && AllNodes(t, s)
    ensures PrefixClosed(Region(t, s)) <==> ParentsListed(t, s)
  {
    hide Shape;
    ShapeSized(t);
    if PrefixClosed(Region(t, s)) {
      forall i | 0 <= i < |s| ensures t.parent[s[i]] == 0 || t.parent[s[i]] in s {
        ClosedListsParent(t, s, s[i]);
      }
    }
    if ParentsListed(t, s) {
      forall p, k | p in Region(t, s) && 1 <= k <= |p| ensures p[..k] in Region(t, s) {
        ListedClosed(t, s, p, k);
      }
    }
  }

  lemma ShapeSized(t: Tree)
    requires Shape(t)
    ensures Sized(t)
  {
  }

  lemma ClosedListsParent(t: Tree, s: seq<nat>, n: nat)
    requires Shape(t) && AllNodes(t, s) && PrefixClosed(Region(t, s)) && n in s && 0 < n < |t.nodes|
    ensures t.parent[n] == 0 || t.parent[n] in s
  {
    assert NodeOk(t, n);
    var u := t.parent[n];
    PathLocus(t, n);
    PathLocus(t, u);
    assert t.path[n] in Region(t, s);
    if u != 0 {
      assert t.path[n][..|t.path[u]|] == t.path[u];
      assert t.path[u] in Region(t, s);
    }
  }

  lemma {:induction false} ListedClosed(t: Tree, s: seq<nat>, p: Path, k: nat)
    requires Shape(t) && AllNodes(t, s) && ParentsListed(t, s) && p in Region(t, s) && 1 <= k <= |p|
    ensures p[..k] in Region(t, s)
    decreases |p|
  {
    if k == |p| {
      assert p[..k] == p;
    } else {
      var q := p[..|p| - 1];
      assert q + [p[|p| - 1]] == p;
      LocusShrinks(t, q, p[|p| - 1]);
      var u := t.parent[t.locus[p]];
      PathLocus(t, u);
      assert q in Region(t, s);
      ListedClosed(t, s, q, k);
      assert q[..k] == p[..k];
    }
  }

  /** A backend holds every prefix of what it holds if and only if the parents of its nodes are on its
      list. */
  lemma CoverageClosedIff(t: Tree, s: seq<nat>, b: Backend)
    requires Shape(t) && Lists(t, s, b)
    ensures AllNodes(t, s) && Sized(t)
    ensures PrefixClosed(Cov(t, b)) <==> ParentsListed(t, s)
  {
    hide PrefixClosed, ParentsListed;
    CovIsRegion(t, s, b);
    RegionClosedIff(t, s);
  }

  /** No entry that survives the cut of `full` to its tail `s` hangs below one that was dropped. */
  ghost predicate NoOrphan(t: Tree, full: seq<nat>, s: seq<nat>)
    requires Sized(t) && AllNodes(t, full) && |s| <= |full| && s == full[|full| - |s|..]
  {
    forall i :: 0 <= i < |s| ==> t.parent[s[i]] !in full[..|full| - |s|]
  }

  /** Cutting a closed list leaves it closed if and only if no survivor loses its parent. */
  lemma CutClosedIff(t: Tree, full: seq<nat>, s: seq<nat>)
    requires Shape(t) && AllNodes(t, full) && NoDup(full) && |s| <= |full| && s == full[|full| - |s|..]
    requires PrefixClosed(Region(t, full))
    ensures AllNodes(t, s) && Sized(t)
    ensures PrefixClosed(Region(t, s)) <==> NoOrphan(t, full, s)
  {
    hide Shape, PrefixClosed, Region;
    ShapeSized(t);
    var k := |full| - |s|;
    assert forall i :: 0 <= i < |s| ==> s[i] == full[k + i];
    RegionClosedIff(t, full);
    RegionClosedIff(t, s);
    assert full == full[..k] + s;
    forall i | 0 <= i < |s|
      ensures t.parent[s[i]] !in full[..k] <==> t.parent[s[i]] == 0 || t.parent[s[i]] in s
    {
      var u := t.parent[full[k + i]];
      assert u == 0 || u in full;
    }
  }

  /** How an insert leaves `b` with whole prefixes. */
  ghost predicate ClosedUnless(t: Tree, s0: seq<nat>, chain: seq<nat>, s: seq<nat>, cov: set<Path>) {
    var full := TouchAll(s0, chain);
    && Sized(t) && AllNodes(t, full) && |s| <= |full| && s == full[|full| - |s|..]
    && (PrefixClosed(cov) <==> NoOrphan(t, full, s))
  }

  /** Insert into a tree and see whether `b` still holds whole prefixes.  From a closed state it does if
      and only if no entry that survives eviction hangs below one that was evicted. */
  method InsertKeepsClosed(tree: RadixTree, h: Path, b: Backend) returns (ghost chain: seq<nat>)
    requires tree.Valid()
    modifies tree
    ensures tree.Valid()
    ensures h == [] ==> tree.Covered(b) == old(tree.Covered(b))
    ensures h != [] ==>
      Inserted(tree.View(), old(ListOf(tree.lru, b)), old(tree.Covered(b)), h, chain, ListOf(tree.lru, b), tree.cap)
    ensures h != [] && old(PrefixClosed(tree.Covered(b))) ==>
      ClosedUnless(tree.View(), old(ListOf(tree.lru, b)), chain, ListOf(tree.lru, b), tree.Covered(b))
  {
    hide RadixTree.Valid, Shape, Lists, PrefixClosed, Cov, Prefixes, Inserted, ClosedUnless, TouchAll;
    ghost var s0, c0 := ListOf(tree.lru, b), tree.Covered(b);
    chain := [];
    tree.Insert(h, b);
    if h != [] {
      chain :| Inserted(tree.View(), s0, c0, h, chain, ListOf(tree.lru, b), tree.cap);
      ValidTree(tree, b);
      if PrefixClosed(c0) {
        InsertedClosed(tree.View(), s0, c0, h, chain, ListOf(tree.lru, b), tree.cap, b);
      }
    }
  }

  lemma ValidTree(tree: RadixTree, b: Backend)
    requires tree.Valid()
    ensures Shape(tree.View()) && Lists(tree.View(), ListOf(tree.lru, b), b)
  {
  }

  lemma InsertedClosed(t: Tree, s0: seq<nat>, c0: set<Path>, h: Path, chain: seq<nat>, s: seq<nat>, cap: int,
                       b: Backend)
    requires Shape(t) && Lists(t, s, b) && PrefixClosed(c0) && Inserted(t, s0, c0, h, chain, s, cap)
    ensures ClosedUnless(t, s0, chain, s, Cov(t, b))
  {
    hide Shape, PrefixClosed, Region, NoOrphan, Cov, TouchAll, Downward, Prefixes, Blocks;
    PrefixesClosed(h);
    UnionClosed(c0, Prefixes(h));
    CutClosedIff(t, TouchAll(s0, chain), s);
    CovIsRegion(t, s, b);
  }

  // ------------------------------------------------------------------ a run that orphans a node

  lemma SmallPrefixes()
    ensures Prefixes([1, 2]) == {[1], [1, 2]} && Prefixes([1, 3]) == {[1], [1, 3]} && Prefixes([4]) == {[4]}
  {
    assert [1, 2][..1] == [1] && [1, 2][..2] == [1, 2];
    assert [1, 3][..1] == [1] && [1, 3][..2] == [1, 3];
    assert [4][..1] == [4];
  }

  /** A path present once stays present while nodes keep their paths. */
  lemma PathsStay(t: Tree, t': Tree, p: Path)
    requires Shape(t) && Shape(t') && t.path <= t'.path && p in t.locus && p != []
    ensures p in t'.locus
  {
    assert LocusOk(t, p);
    var n := t.locus[p];
    assert t'.path[n] == t.path[n];
    PathLocus(t', n);
    LocusPrefixClosed(t', t'.path[n], |p|);
  }

  /** Where two lists part there is a node. */
  lemma Fork(t: Tree)
    requires Shape(t) && [1, 2] in t.locus && [1, 3] in t.locus
    ensures [1] in t.locus && t.locus[[1]] < |t.path| && t.path[t.locus[[1]]] == [1] && t.locus[[1, 3]] != t.locus[[1]]
  {
    assert [1] + [2] == [1, 2] && [1] + [3] == [1, 3];
    LocusShrinks(t, [1], 2);
    LocusShrinks(t, [1], 3);
    PathLocus(t, t.parent[t.locus[[1, 2]]]);
    PathLocus(t, t.parent[t.locus[[1, 3]]]);
    assert LocusOk(t, [1, 3]);
  }

  lemma ListedPath(t: Tree, s: seq<nat>, n: nat)
    requires Shape(t) && AllNodes(t, s) && n in s
    ensures 0 < n < |t.nodes| && t.path[n] in Region(t, s) && t.locus[t.path[n]] == n
  {
    PathLocus(t, n);
  }

  /** After [1, 2] and then [1, 3] the list is the node of [1] followed by the node of [1, 3]. */
  lemma SecondList(t: Tree, s0: seq<nat>, c0: set<Path>, chain: seq<nat>, s: seq<nat>)
    requires Shape(t) && [1, 2] in t.locus && Inserted(t, s0, c0, [1, 3], chain, s, 2)
    requires AllNodes(t, s) && NoDup(s) && Region(t, s) == Prefixes([1, 3])
    ensures |s| == 2 && t.path[s[0]] == [1] && t.path[s[1]] == [1, 3]
  {
    SmallPrefixes();
    assert [1, 3] in Region(t, chain) && [1] in Region(t, chain);
    Fork(t);
    var a, c := t.locus[[1]], t.locus[[1, 3]];
    ChainIsTail(t, s0, c0, [1, 3], chain, s, 2);
    TwoListed(t, chain, a, c);
    TwoListed(t, s, a, c);
    var q :| s == q + chain;
    assert q == [];
  }

  /** A list that covers [1] and [1, 3] by the nodes `a` and `c` has these two entries. */
  lemma TwoListed(t: Tree, s: seq<nat>, a: nat, c: nat)
    requires Shape(t) && AllNodes(t, s) && NoDup(s) && Region(t, s) == {[1], [1, 3]}
    requires a == t.locus[[1]] && c == t.locus[[1, 3]] && a != c
    ensures |s| == 2 && (s == [a, c] || s == [c, a]) && t.path[c] == [1, 3] && t.path[a] == [1]
  {
    assert [1] in Region(t, s) && [1, 3] in Region(t, s);
    assert a in s && c in s;
    ListedPath(t, s, a);
    ListedPath(t, s, c);
    forall i | 0 <= i < |s| ensures s[i] == a || s[i] == c {
      ListedPath(t, s, s[i]);
    }
    NoDupSize(s);
    SubsetSize(set x | x in s, {a, c});
    SubsetSize({a, c}, set x | x in s);
  }

  /** When the chain fits, the list after an insert ends with it. */
  lemma ChainIsTail(t: Tree, s0: seq<nat>, c0: set<Path>, h: Path, chain: seq<nat>, s: seq<nat>, cap: int)
    requires Shape(t) && Inserted(t, s0, c0, h, chain, s, cap) && |h| <= cap
    ensures NoDup(chain) && exists q :: s == q + chain
  {
    assert NoDup(chain);
    RegionSize(t, chain);
    PrefixesSize(h);
    var rest := TouchAllEndsWith(s0, chain);
    assert forall i :: 0 <= i < |rest| ==> rest[i] == TouchAll(s0, chain)[i];
    TrimKeepsTail(t.nodes, rest, chain, cap);
  }

  lemma OneNewNode(t: Tree, chain: seq<nat>)
    requires Shape(t) && AllNodes(t, chain) && Downward(t, chain) && Region(t, chain) == {[4]}
    ensures |chain| == 1 && t.path[chain[0]] == [4]
  {
    assert [4] in Region(t, chain);
    var d := t.locus[[4]];
    forall i | 0 <= i < |chain| ensures chain[i] == d && t.path[chain[i]] == [4] { ListedPath(t, chain, chain[i]); }
    assert NoDup(chain);
    NoDupSize(chain);
    SubsetSize(set x | x in chain, {d});
  }

  /** Three nodes of one block each do not fit in two. */
  lemma TrimThree(nodes: seq<Node>, a: nat, c: nat, d: nat)
    requires InArena(nodes, [a, c, d]) && Blocks(nodes, [a, c, d]) == 3 && |nodes[a].edge| >= 1
    ensures Trim(nodes, [a, c, d], 2) == [c, d]
  {
    assert [a, c, d][1..] == [c, d];
    TrimDrop(nodes, [a, c, d], 2);
  }

  lemma TouchNew(s: seq<nat>, d: nat)
    requires |s| == 2 && d !in s
    ensures TouchAll(s, [d]) == [s[0], s[1], d]
  {
    WithoutAbsent(s, d);
    assert [d][..0] == [] && TouchAll(s, []) == s;
    assert s + [d] == [s[0], s[1], d];
  }

  /** Inserting [4] then drops the node of [1] and keeps the node of [1, 3]. */
  lemma ThirdList(t: Tree, s0: seq<nat>, chain: seq<nat>, s: seq<nat>)
    requires Shape(t) && Inserted(t, s0, Prefixes([1, 3]), [4], chain, s, 2)
    requires |s0| == 2 && s0[0] < |t.path| && s0[1] < |t.path| && t.path[s0[0]] == [1] && t.path[s0[1]] == [1, 3]
    ensures [1] !in Region(t, s) && [1, 3] in Region(t, s)
  {
    hide Shape, TouchAll, Trim, Blocks, Prefixes, Downward;
    SmallPrefixes();
    OneNewNode(t, chain);
    ShapeSized(t);
    var a, c, d := s0[0], s0[1], chain[0];
    assert chain == [d];
    PathLocus(t, a);
    PathLocus(t, c);
    TouchNew(s0, d);
    RegionSize(t, [a, c, d]);
    assert {[1], [1, 3]} + {[4]} == {[1], [1, 3], [4]};
    EdgeNonEmpty(t, a);
    TrimThree(t.nodes, a, c, d);
  }

  lemma EdgeNonEmpty(t: Tree, n: nat)
    requires Shape(t) && 0 < n < |t.nodes|
    ensures |t.nodes[n].edge| >= 1
  {
    assert NodeOk(t, n);
  }

  lemma NothingAtFront(cov: set<Path>)
    requires [1, 3] in cov && [1] !in cov
    ensures !PrefixClosed(cov) && Depth(cov, [1, 3]) == 0
  {
    assert [1, 3][..1] == [1];
    DepthUnique(cov, [1, 3], 0);
  }

  lemma SecondCoverage(tree: RadixTree, b: Backend)
    requires tree.Valid() && tree.cap == 2 && {[1], [1, 3]} <= tree.Covered(b) <= {[1], [1, 2], [1, 3]}
    ensures tree.Covered(b) == {[1], [1, 3]}
  {
    var c := tree.Covered(b);
    assert |c| <= 2;
    assert c == {[1], [1, 3]} + (c - {[1], [1, 3]});
    assert |c| == |{[1], [1, 3]}| + |c - {[1], [1, 3]}|;
  }

  /** The list of `b` is the node of [1] followed by the node of [1, 3]. */
  ghost predicate ForkListed(t: Tree, s: seq<nat>) {
    |s| == 2 && s[0] < |t.path| && s[1] < |t.path| && t.path[s[0]] == [1] && t.path[s[1]] == [1, 3]
  }

  lemma ForkBuilt(t: Tree, t': Tree, s0: seq<nat>, c0: set<Path>, chain: seq<nat>, s: seq<nat>, b: Backend)
    requires Shape(t) && Shape(t') && t.path <= t'.path && [1, 2] in Cov(t, b)
    requires Inserted(t', s0, c0, [1, 3], chain, s, 2) && Lists(t', s, b) && Cov(t', b) == {[1], [1, 3]}
    ensures ForkListed(t', s)
  {
    hide Shape, Inserted, Prefixes;
    SmallPrefixes();
    ShapeSized(t');
    PathsStay(t, t', [1, 2]);
    CovIsRegion(t', s, b);
    SecondList(t', s0, c0, chain, s);
  }

  /** The first two inserts. */
  method InsertFork(b: Backend) returns (tree: RadixTree)
    ensures fresh(tree) && tree.Valid() && tree.cap == 2
    ensures tree.Covered(b) == Prefixes([1, 3]) && ForkListed(tree.View(), ListOf(tree.lru, b))
  {
    hide RadixTree.Valid, Shape, Lists, LruOk, Cov, Prefixes, Inserted, TouchAll, ListOf, Region, ForkListed;
    SmallPrefixes();
    tree := new RadixTree(2);
    tree.Insert([1, 2], b);
    ghost var c0: set<Path> := {};
    assert c0 + Prefixes([1, 2]) == {[1], [1, 2]};
    assert tree.Covered(b) == {[1], [1, 2]};
    ghost var t, s, c := tree.View(), ListOf(tree.lru, b), tree.Covered(b);
    ValidTree(tree, b);
    tree.Insert([1, 3], b);
    assert c + Prefixes([1, 3]) == {[1], [1, 2], [1, 3]};
    SecondCoverage(tree, b);
    ghost var chain :| Inserted(tree.View(), s, c, [1, 3], chain, ListOf(tree.lru, b), 2);
    ValidTree(tree, b);
    ForkBuilt(t, tree.View(), s, c, chain, ListOf(tree.lru, b), b);
  }

  lemma ForkStays(t: Tree, t': Tree, s: seq<nat>)
    requires ForkListed(t, s) && t.path <= t'.path
    ensures ForkListed(t', s)
  {
  }

  /** The documented holder model fails: after these three inserts `b` is recorded on the node of [1, 3]
      without holding [1], and a query for [1, 3] finds nothing. */
  method OrphanedPrefix(b: Backend) returns (tree: RadixTree, best: map<Backend, nat>)
    ensures [1, 3] in tree.Covered(b) && [1] !in tree.Covered(b) && !PrefixClosed(tree.Covered(b))
    ensures b !in best
  {
    hide RadixTree.Valid, Shape, Lists, LruOk, Cov, Prefixes, Inserted, TouchAll, ListOf, Region, PrefixClosed, Depth;
    tree := InsertFork(b);
    ghost var t, s := tree.View(), ListOf(tree.lru, b);
    tree.Insert([4], b);
    ghost var t', s' := tree.View(), ListOf(tree.lru, b);
    ghost var chain :| Inserted(t', s, Prefixes([1, 3]), [4], chain, s', 2);
    ValidTree(tree, b);
    CovIsRegion(t', s', b);
    ForkStays(t, t', s);
    ThirdList(t', s, chain, s');
    best := tree.Match([1, 3]);
    NothingAtFront(tree.Covered(b));
  }
}
