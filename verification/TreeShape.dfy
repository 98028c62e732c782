/** The shape of the path-compressed tree, as values.

Nodes live in an arena and are named by their index; node 0 is the root and no node is ever
freed.  Beside the arena stand three views that exist for the proofs only: `parent[n]`, the node
above `n`; `path[n]`, the hash list spelled from the root to `n`; and `locus`, which sends every
non-empty hash list present in the tree to the one node whose edge holds its last block.

The quantified parts of `Shape` are triggered by the named facts `NodeOk`, `ChildOk`, `LocusOk`
and `OnEdge` only, so a proof uses an instance by naming it.
 */
module TreeShape {
  import opened PrefixSets

  type Backend = string

  /** `edge` is the run of block hashes leading into the node, `children` is keyed by the first
      hash of the child's edge, `holders` maps a backend to the clock at which it was last seen. */
  datatype Node = Node(edge: Path, children: map<int, nat>, holders: map<Backend, nat>)

  datatype Tree = Tree(nodes: seq<Node>, parent: seq<nat>, path: seq<Path>, locus: map<Path, nat>)

  const EMPTY := Tree([Node([], map[], map[])], [0], [[]], map[])

  // ------------------------------------------------------------------ well-formedness

  ghost predicate Sized(t: Tree) {
    |t.parent| == |t.path| == |t.nodes| > 0
  }

  /** Node `n` hangs below its parent by a non-empty edge, under the key of that edge. */
  ghost predicate NodeOk(t: Tree, n: nat)
    requires Sized(t) && n < |t.nodes|
  {
    var u := t.parent[n];
    var e := t.nodes[n].edge;
    && u < |t.nodes| && e != [] && t.path[n] == t.path[u] + e
    && e[0] in t.nodes[u].children && t.nodes[u].children[e[0]] == n
  }

  ghost predicate ChildOk(t: Tree, u: nat, k: int)
    requires Sized(t) && u < |t.nodes| && k in t.nodes[u].children
  {
    var c := t.nodes[u].children[k];
    0 < c < |t.nodes| && t.parent[c] == u && t.nodes[c].edge != [] && t.nodes[c].edge[0] == k
  }

  /** The last block of `p` lies in the edge of `n`. */
  ghost predicate OnEdge(t: Tree, p: Path, n: nat)
    requires Sized(t) && n < |t.nodes|
  {
    && t.parent[n] < |t.nodes|
    && |t.path[t.parent[n]]| < |p| <= |t.path[n]| && p == t.path[n][..|p|]
  }

  ghost predicate LocusOk(t: Tree, p: Path)
    requires Sized(t) && p in t.locus
  {
    0 < t.locus[p] < |t.nodes| && OnEdge(t, p, t.locus[p])
  }

  ghost predicate Shape(t: Tree) {
    && Sized(t)
    && t.path[0] == [] && t.parent[0] == 0 && t.nodes[0].edge == []
    && (forall n {:trigger NodeOk(t, n)} :: 0 < n < |t.nodes| ==> NodeOk(t, n))
    && (forall u, k {:trigger ChildOk(t, u, k)} :: 0 <= u < |t.nodes| && k in t.nodes[u].children ==> ChildOk(t, u, k))
    && (forall p {:trigger LocusOk(t, p)} :: p in t.locus ==> LocusOk(t, p))
    && (forall p, n {:trigger OnEdge(t, p, n)} :: 0 < n < |t.nodes| && OnEdge(t, p, n) ==>
          p in t.locus && t.locus[p] == n)
  }

  // ------------------------------------------------------------------ walking down

  /** A node's own path has the node as its locus. */
  lemma PathLocus(t: Tree, n: nat)
    requires Shape(t) && n < |t.nodes|
    ensures t.path[n] == [] <==> n == 0
    ensures n != 0 ==> t.path[n] in t.locus && t.locus[t.path[n]] == n
  {
    if n != 0 {
      assert NodeOk(t, n);
      assert t.path[n][..|t.path[n]|] == t.path[n];
      assert OnEdge(t, t.path[n], n);
    }
  }

  /** Dropping the last block of a present path gives a present path, on the same edge unless that
      edge has just begun, in which case it is the path of the parent. */
  lemma LocusShrinks(t: Tree, p: Path, x: int)
    requires Shape(t) && p + [x] in t.locus
    ensures var n := t.locus[p + [x]];
      && 0 < n < |t.nodes| && NodeOk(t, n)
      && (if |p| == |t.path[t.parent[n]]| then p == t.path[t.parent[n]] && t.nodes[n].edge[0] == x
          else p in t.locus && t.locus[p] == n && |p| < |t.path[n]| && t.path[n][|p|] == x)
  {
    var q := p + [x];
    assert LocusOk(t, q);
    var n := t.locus[q];
    assert NodeOk(t, n);
    assert q[|p|] == x && q[..|p|] == p;
    assert p == t.path[n][..|p|];
    if |p| != |t.path[t.parent[n]]| {
      assert OnEdge(t, p, n);
    } else {
      assert p == t.path[t.parent[n]];
    }
  }

  lemma {:induction false} LocusPrefixClosed(t: Tree, p: Path, k: nat)
    requires Shape(t) && p in t.locus && 1 <= k <= |p|
    ensures p[..k] in t.locus
    decreases |p|
  {
    if k == |p| {
      assert p[..k] == p;
    } else {
      var q := p[..|p| - 1];
      assert q + [p[|p| - 1]] == p;
      LocusShrinks(t, q, p[|p| - 1]);
      PathLocus(t, t.parent[t.locus[p]]);
      LocusPrefixClosed(t, q, k);
      assert q[..k] == p[..k];
    }
  }

  /** Below a node, the next block leads into the child keyed by it, or nowhere. */
  lemma StepFromNode(t: Tree, u: nat, x: int)
    requires Shape(t) && u < |t.nodes|
    ensures t.path[u] + [x] in t.locus <==> x in t.nodes[u].children
    ensures x in t.nodes[u].children ==> t.locus[t.path[u] + [x]] == t.nodes[u].children[x]
  {
    var p := t.path[u];
    if x in t.nodes[u].children {
      var c := t.nodes[u].children[x];
      assert ChildOk(t, u, x);
      assert NodeOk(t, c);
      assert p + [x] == t.path[c][..|p| + 1];
      assert OnEdge(t, p + [x], c);
    }
    if p + [x] in t.locus {
      LocusShrinks(t, p, x);
      PathLocus(t, u);
      assert p in t.locus ==> LocusOk(t, p);
      var c := t.locus[p + [x]];
      assert NodeOk(t, c);
      PathLocus(t, t.parent[c]);
    }
  }

  /** Inside an edge only the edge's own next block continues. */
  lemma StepInsideEdge(t: Tree, n: nat, p: Path, x: int)
    requires Shape(t) && 0 < n < |t.nodes| && OnEdge(t, p, n) && |p| < |t.path[n]|
    ensures p + [x] in t.locus <==> x == t.path[n][|p|]
    ensures x == t.path[n][|p|] ==> t.locus[p + [x]] == n
  {
    var q := p + [x];
    if x == t.path[n][|p|] {
      assert q == t.path[n][..|q|];
      assert OnEdge(t, q, n);
    }
    if q in t.locus {
      LocusShrinks(t, p, x);
      PathLocus(t, t.parent[t.locus[q]]);
    }
  }

  /** When the `j` blocks of `h` from position `i` on agree with the edge into `c`, they all lie on
      that edge; and if the edge is not used up, the next block of `h` leaves the tree. */
  lemma RunOnEdge(t: Tree, u: nat, c: nat, h: Path, i: nat, j: nat)
    requires Shape(t) && u < |t.nodes| && i < |h| && t.path[u] == h[..i]
    requires h[i] in t.nodes[u].children && c == t.nodes[u].children[h[i]] && c < |t.nodes|
    requires 1 <= j <= |t.nodes[c].edge| && i + j <= |h| && t.nodes[c].edge[..j] == h[i..i + j]
    requires j < |t.nodes[c].edge| && i + j < |h| ==> t.nodes[c].edge[j] != h[i + j]
    ensures 0 < c && t.parent[c] == u && |t.path[c]| == i + |t.nodes[c].edge|
    ensures t.path[c][..i + j] == h[..i + j]
    ensures forall k :: i < k <= i + j ==> h[..k] in t.locus && t.locus[h[..k]] == c
    ensures j < |t.nodes[c].edge| && i + j < |h| ==> h[..i + j + 1] !in t.locus
  {
    assert ChildOk(t, u, h[i]);
    assert NodeOk(t, c);
    assert t.path[c] == h[..i] + t.nodes[c].edge;
    assert t.path[c][..i + j] == h[..i] + t.nodes[c].edge[..j] == h[..i + j];
    forall k | i < k <= i + j
      ensures h[..k] in t.locus && t.locus[h[..k]] == c
    {
      assert h[..k] == h[..i + j][..k] == t.path[c][..i + j][..k] == t.path[c][..k];
      assert OnEdge(t, h[..k], c);
    }
    if j < |t.nodes[c].edge| && i + j < |h| {
      assert OnEdge(t, h[..i + j], c);
      assert t.path[c][i + j] == t.nodes[c].edge[j];
      StepInsideEdge(t, c, h[..i + j], h[i + j]);
      assert h[..i + j] + [h[i + j]] == h[..i + j + 1];
    }
  }

  // ------------------------------------------------------------------ holders do not matter

  /** Only the holder records of the nodes differ. */
  ghost predicate SameShape(t: Tree, t': Tree) {
    && t'.parent == t.parent && t'.path == t.path && t'.locus == t.locus && |t'.nodes| == |t.nodes|
    && (forall n {:trigger t'.nodes[n]} :: 0 <= n < |t.nodes| ==>
          t'.nodes[n].edge == t.nodes[n].edge && t'.nodes[n].children == t.nodes[n].children)
  }

  lemma ShapeIgnoresHolders(t: Tree, t': Tree)
    requires Shape(t) && SameShape(t, t')
    ensures Shape(t')
  {
    forall n | 0 < n < |t'.nodes| ensures NodeOk(t', n) {
      assert NodeOk(t, n);
    }
    forall u, k | 0 <= u < |t'.nodes| && k in t'.nodes[u].children ensures ChildOk(t', u, k) {
      assert ChildOk(t, u, k);
    }
    forall p | p in t'.locus ensures LocusOk(t', p) {
      assert LocusOk(t, p);
    }
    forall p, n | 0 < n < |t'.nodes| && OnEdge(t', p, n) ensures p in t'.locus && t'.locus[p] == n {
      assert OnEdge(t, p, n);
    }
  }

  // ------------------------------------------------------------------ growing a leaf

  /** Hang a new leaf spelling `suffix` below node `u`. */
  ghost function AddLeaf(t: Tree, u: nat, suffix: Path): Tree
    requires Sized(t) && u < |t.nodes| && suffix != []
  {
    var m := |t.nodes|;
    var full := t.path[u] + suffix;
    Tree(t.nodes[u := t.nodes[u].(children := t.nodes[u].children[suffix[0] := m])] + [Node(suffix, map[], map[])],
         t.parent + [u],
         t.path + [full],
         map p | p in t.locus.Keys + (set k | |t.path[u]| < k <= |full| :: full[..k]) ::
           if p in t.locus then t.locus[p] else m)
  }

  ghost predicate CanAddLeaf(t: Tree, u: nat, suffix: Path) {
    Shape(t) && u < |t.nodes| && suffix != [] && suffix[0] !in t.nodes[u].children
  }

  lemma AddLeafAbsent(t: Tree, u: nat, suffix: Path, k: nat)
    requires CanAddLeaf(t, u, suffix)
    requires |t.path[u]| < k <= |t.path[u]| + |suffix|
    ensures (t.path[u] + suffix)[..k] !in t.locus
  {
    var full := t.path[u] + suffix;
    var d := |t.path[u]|;
    StepFromNode(t, u, suffix[0]);
    assert full[..k][..d + 1] == t.path[u] + [suffix[0]];
    if full[..k] in t.locus {
      LocusPrefixClosed(t, full[..k], d + 1);
      assert false;
    }
  }

  lemma AddLeafLocus(t: Tree, u: nat, suffix: Path)
    requires CanAddLeaf(t, u, suffix)
    ensures var t' := AddLeaf(t, u, suffix);
      && (forall p {:trigger LocusOk(t', p)} :: p in t'.locus ==> LocusOk(t', p))
      && (forall p, n {:trigger OnEdge(t', p, n)} :: 0 < n < |t'.nodes| && OnEdge(t', p, n) ==>
        p in t'.locus && t'.locus[p] == n)
  {
    var t' := AddLeaf(t, u, suffix);
    var m := |t.nodes|;
    var full := t.path[u] + suffix;
    forall p | p in t'.locus ensures LocusOk(t', p) {
      if p in t.locus {
        assert LocusOk(t, p);
        assert NodeOk(t, t.locus[p]);
      } else {
        var k :| |t.path[u]| < k <= |full| && p == full[..k];
      }
    }
    forall p, n | 0 < n < |t'.nodes| && OnEdge(t', p, n) ensures p in t'.locus && t'.locus[p] == n {
      if n == m {
        assert p == full[..|p|];
        AddLeafAbsent(t, u, suffix, |p|);
      } else {
        assert NodeOk(t, n);
        assert OnEdge(t, p, n);
      }
    }
  }

  /** The tree stays well-formed and every path already present keeps its node. */
  lemma AddLeafShape(t: Tree, u: nat, suffix: Path)
    requires CanAddLeaf(t, u, suffix)
    ensures Shape(AddLeaf(t, u, suffix))
  {
    var t' := AddLeaf(t, u, suffix);
    var m := |t.nodes|;
    AddLeafLocus(t, u, suffix);
    forall n | 0 < n < |t'.nodes| ensures NodeOk(t', n) {
      if n != m { assert NodeOk(t, n); }
    }
    forall w, k | 0 <= w < |t'.nodes| && k in t'.nodes[w].children ensures ChildOk(t', w, k) {
      if !(w == u && k == suffix[0]) {
        assert k in t.nodes[w].children;
        assert ChildOk(t, w, k);
      }
    }
  }

  // ------------------------------------------------------------------ splitting an edge

  /** Cut the edge into `c` after its first `j` blocks; the new node holds the first half. */
  ghost function Split(t: Tree, c: nat, j: nat): Tree
    requires Sized(t) && c < |t.nodes| && t.parent[c] < |t.nodes| && 0 < j < |t.nodes[c].edge|
    requires |t.path[t.parent[c]]| + j <= |t.path[c]|
  {
    var m := |t.nodes|;
    var u := t.parent[c];
    var e := t.nodes[c].edge;
    var cut := |t.path[u]| + j;
    var head := Node(e[..j], map[e[j] := c], t.nodes[c].holders);
    var below := t.nodes[c := t.nodes[c].(edge := e[j..])];
    Tree(below[u := t.nodes[u].(children := t.nodes[u].children[e[0] := m])] + [head],
         t.parent[c := m] + [u],
         t.path + [t.path[c][..cut]],
         map p | p in t.locus :: if t.locus[p] == c && |p| <= cut then m else t.locus[p])
  }

  ghost predicate CanSplit(t: Tree, c: nat, j: nat) {
    && Shape(t) && 0 < c < |t.nodes| && 0 < j < |t.nodes[c].edge| && NodeOk(t, c) && t.parent[c] != c
  }

  lemma SplitReady(t: Tree, c: nat, j: nat)
    requires CanSplit(t, c, j)
    ensures Sized(t) && t.parent[c] < |t.nodes| && |t.path[t.parent[c]]| + j <= |t.path[c]|
  {
  }

  lemma SplitNodes(t: Tree, c: nat, j: nat)
    requires CanSplit(t, c, j)
    ensures var t' := Split(t, c, j);
      forall n {:trigger NodeOk(t', n)} :: 0 < n < |t'.nodes| ==> NodeOk(t', n)
  {
    var t' := Split(t, c, j);
    var m := |t.nodes|;
    var u := t.parent[c];
    var e := t.nodes[c].edge;
    assert t.path[c] == t.path[u] + e;
    forall n | 0 < n < |t'.nodes| ensures NodeOk(t', n) {
      if n == m {
        assert t'.path[m] == t.path[u] + e[..j];
      } else if n == c {
        assert t'.path[c] == t'.path[m] + e[j..];
      } else {
        assert NodeOk(t, n);
        assert !(t.parent[n] == u && t.nodes[n].edge[0] == e[0]);
      }
    }
  }

  lemma SplitChildren(t: Tree, c: nat, j: nat)
    requires CanSplit(t, c, j)
    ensures var t' := Split(t, c, j);
      forall w, k {:trigger ChildOk(t', w, k)} :: 0 <= w < |t'.nodes| && k in t'.nodes[w].children ==> ChildOk(t', w, k)
  {
    var t' := Split(t, c, j);
    var m := |t.nodes|;
    var u := t.parent[c];
    var e := t.nodes[c].edge;
    forall w, k | 0 <= w < |t'.nodes| && k in t'.nodes[w].children ensures ChildOk(t', w, k) {
      if w != m && !(w == u && k == e[0]) {
        assert k in t.nodes[w].children;
        assert ChildOk(t, w, k);
      }
    }
  }

  lemma SplitLocus(t: Tree, c: nat, j: nat)
    requires CanSplit(t, c, j)
    ensures var t' := Split(t, c, j);
      && (forall p {:trigger LocusOk(t', p)} :: p in t'.locus ==> LocusOk(t', p))
      && (forall p, n {:trigger OnEdge(t', p, n)} :: 0 < n < |t'.nodes| && OnEdge(t', p, n) ==>
        p in t'.locus && t'.locus[p] == n)
  {
    var t' := Split(t, c, j);
    var m := |t.nodes|;
    var cut := |t.path[t.parent[c]]| + j;
    forall p | p in t'.locus ensures LocusOk(t', p) {
      var n := t.locus[p];
      assert LocusOk(t, p);
      assert NodeOk(t, n);
      if n == c && |p| <= cut {
        assert p == t.path[c][..|p|] == t.path[c][..cut][..|p|];
      }
    }
    forall p, n | 0 < n < |t'.nodes| && OnEdge(t', p, n) ensures p in t'.locus && t'.locus[p] == n {
      if n == m {
        assert p == t.path[c][..cut][..|p|] == t.path[c][..|p|];
        assert OnEdge(t, p, c);
      } else {
        assert NodeOk(t, n);
        assert OnEdge(t, p, n);
      }
    }
  }

  lemma SplitShape(t: Tree, c: nat, j: nat)
    requires CanSplit(t, c, j)
    ensures Shape(Split(t, c, j))
  {
    SplitNodes(t, c, j);
    SplitChildren(t, c, j);
    SplitLocus(t, c, j);
  }
}
