/** What an insert keeps true while it walks down: value-level lemmas for `RadixTree.Descend`. */
module InsertProof {
  import opened Basics
  import opened PrefixSets
  import opened TreeShape
  import opened Holdings

  /** Starting from `t0`, the first `i` blocks of `h` have been recorded for `b`: its coverage has
      grown by exactly their prefixes, spelled by the nodes of `chain`, and nobody else's changed. */
  ghost predicate Progress(t0: Tree, t: Tree, lru: Lru, b: Backend, h: Path, i: nat, chain: seq<nat>) {
    && Shape(t) && LruOk(t, lru) && i <= |h|
    && Cov(t, b) == Cov(t0, b) + Prefixes(h[..i])
    && (forall a {:trigger Cov(t, a)} :: a != b ==> Cov(t, a) == Cov(t0, a))
    && AllNodes(t, chain) && NoDup(chain) && Region(t, chain) == Prefixes(h[..i])
    && (forall k {:trigger chain[k]} :: 0 <= k < |chain| ==> |t.path[chain[k]]| <= i)
  }

  /** The blocks of `h` from `i` to `i'` as prefixes. */
  ghost function Between(h: Path, i: nat, i': nat): set<Path>
    requires i' <= |h|
  {
    set k | i < k <= i' :: h[..k]
  }

  lemma ProgressStart(t: Tree, lru: Lru, b: Backend, h: Path)
    requires Shape(t) && LruOk(t, lru)
    ensures Progress(t, t, lru, b, h, 0, [])
  {
    assert h[..0] == [];
    assert Prefixes(h[..0]) == {};
  }

  /** Holding the node whose edge spells the next blocks advances the walk. */
  lemma HoldProgress(t0: Tree, t: Tree, lru: Lru, b: Backend, h: Path, i: nat, chain: seq<nat>,
                     n: nat, i': nat, clock: nat)
    requires Progress(t0, t, lru, b, h, i, chain)
    requires 0 < n < |t.nodes| && i < i' <= |h| && |t.path[n]| == i'
    requires Region(t, [n]) == Between(h, i, i')
    ensures Progress(t0, WithHolders(t, n, t.nodes[n].holders[b := clock]), lru[b := Touch(ListOf(lru, b), n)],
                     b, h, i', chain + [n])
  {
    HoldEffect(t, lru, n, b, clock);
    var t' := WithHolders(t, n, t.nodes[n].holders[b := clock]);
    PrefixesGrow(h, i, i');
    RegionConcat(t, chain, [n]);
    assert Region(t', chain + [n]) == Region(t, chain + [n]);
    assert n !in chain;
  }

  lemma LeafProgress(t0: Tree, t: Tree, lru: Lru, b: Backend, h: Path, i: nat, chain: seq<nat>, u: nat)
    requires Progress(t0, t, lru, b, h, i, chain)
    requires i < |h| && u < |t.nodes| && t.path[u] == h[..i] && h[i] !in t.nodes[u].children
    ensures var t' := AddLeaf(t, u, h[i..]);
      && Progress(t0, t', lru, b, h, i, chain)
      && |t'.path[|t.nodes|]| == |h| && Region(t', [|t.nodes|]) == Between(h, i, |h|)
  {
    AddLeafCov(t, lru, u, h[i..]);
    assert h[..i] + h[i..] == h;
    var t' := AddLeaf(t, u, h[i..]);
    assert Region(t', chain) == Region(t, chain);
    forall a | a != b ensures Cov(t', a) == Cov(t0, a) {
      assert Cov(t, a) == Cov(t0, a);
    }
  }

  lemma SplitProgress(t0: Tree, t: Tree, lru: Lru, b: Backend, h: Path, i: nat, chain: seq<nat>, c: nat, j: nat)
    requires Progress(t0, t, lru, b, h, i, chain)
    requires CanSplit(t, c, j) && i + j <= |h|
    requires |t.path[t.parent[c]]| == i && t.path[c][..i + j] == h[..i + j]
    ensures var t' := Split(t, c, j); var m := |t.nodes|;
      && Progress(t0, t', TrackAll(lru, t.nodes[c].holders.Keys, m), b, h, i, chain)
      && t'.path[m] == h[..i + j] && Region(t', [m]) == Between(h, i, i + j)
  {
    SplitCov(t, lru, c, j);
    var t' := Split(t, c, j);
    assert c !in chain;
    assert Region(t', chain) == Region(t, chain);
    assert forall k :: i < k <= i + j ==> h[..k] == h[..i + j][..k] == t.path[c][..i + j][..k] == t.path[c][..k];
    forall a | a != b ensures Cov(t', a) == Cov(t0, a) {
      assert Cov(t, a) == Cov(t0, a);
    }
    assert Region(t', [|t.nodes|]) == Between(h, i, i + j) by {
      forall p ensures p in Region(t', [|t.nodes|]) <==> p in Between(h, i, i + j) {
        if p in Region(t', [|t.nodes|]) {
          var k :| i < k <= i + j && p == t.path[c][..k];
          assert p == h[..k];
        }
        if p in Between(h, i, i + j) {
          var k :| i < k <= i + j && p == h[..k];
          assert p == t.path[c][..k];
        }
      }
    }
  }

  /** The region of a fully matched edge is the run of `h` it spells. */
  lemma MatchedRegion(t: Tree, u: nat, c: nat, h: Path, i: nat)
    requires Shape(t) && 0 < c < |t.nodes| && t.parent[c] == u && u < |t.nodes|
    requires |t.path[u]| == i && i < |t.path[c]| <= |h| && t.path[c] == h[..|t.path[c]|]
    ensures Region(t, [c]) == Between(h, i, |t.path[c]|)
  {
    var d := |t.path[c]|;
    forall p ensures p in Region(t, [c]) <==> p in Between(h, i, d) {
      if p in Region(t, [c]) {
        assert LocusOk(t, p);
        assert p == t.path[c][..|p|] == h[..d][..|p|] == h[..|p|];
      }
      if p in Between(h, i, d) {
        assert p == h[..|p|] == h[..d][..|p|];
        assert OnEdge(t, p, c);
      }
    }
  }

  lemma TouchTwice(s: seq<nat>, n: nat)
    ensures Touch(Touch(s, n), n) == Touch(s, n)
  {
    var r := Without(s, n);
    WithoutConcat(r, [n], n);
    WithoutAbsent(r, n);
    assert Without([n], n) == [];
    assert r + [] == r;
  }

  /** What a tail of `b`'s list covers. */
  lemma TailRegion(t: Tree, s: seq<nat>, b: Backend, k: nat)
    requires Shape(t) && Lists(t, s, b) && k <= |s|
    ensures AllNodes(t, s) && AllNodes(t, s[k..]) && NoDup(s[k..])
    ensures Region(t, s[k..]) <= Cov(t, b) && |Region(t, s[k..])| == Blocks(t.nodes, s[k..])
  {
    CovIsRegion(t, s, b);
    RegionSize(t, s[k..]);
    assert s == s[..k] + s[k..];
    RegionConcat(t, s[..k], s[k..]);
  }

  /** Cutting `b`'s list to `cap` blocks loses something exactly when the whole does not fit. */
  lemma TrimCapacity(t: Tree, s: seq<nat>, b: Backend, cap: int)
    requires Shape(t) && Lists(t, s, b)
    ensures AllNodes(t, s)
    ensures var r := Trim(t.nodes, s, cap);
      && Region(t, r) <= Cov(t, b)
      && |Region(t, r)| <= (if cap < 0 then 0 else cap)
      && (Cov(t, b) != {} ==> (Region(t, r) == Cov(t, b) <==> |Cov(t, b)| <= cap))
  {
    CovIsRegion(t, s, b);
    var r := Trim(t.nodes, s, cap);
    TailRegion(t, s, b, |s| - |r|);
    assert r == [] ==> Region(t, r) == {};
  }

  lemma SelfPrefix(h: Path)
    requires h != []
    ensures h in Prefixes(h)
  {
    assert h[..|h|] == h;
  }

  lemma PrefixesSize(h: Path)
    ensures |Prefixes(h)| == |h|
  {
    PrefixRangeSize(h, 0);
    assert Prefixes(h) == set k | 0 < k <= |h| :: h[..k];
  }

  /** If the nodes just touched fit, they all survive the cut. */
  lemma TrimKeepsChain(t: Tree, s0: seq<nat>, chain: seq<nat>, h: Path, cap: int)
    requires Shape(t) && InArena(t.nodes, TouchAll(s0, chain))
    requires AllNodes(t, chain) && NoDup(chain) && Region(t, chain) == Prefixes(h)
    requires |h| <= cap
    ensures Prefixes(h) <= Region(t, Trim(t.nodes, TouchAll(s0, chain), cap))
  {
    var s := TouchAll(s0, chain);
    var rest := TouchAllEndsWith(s0, chain);
    RegionSize(t, chain);
    PrefixesSize(h);
    assert forall x :: 0 <= x < |rest| ==> rest[x] == s[x];
    TrimKeepsTail(t.nodes, rest, chain, cap);
    var q :| Trim(t.nodes, s, cap) == q + chain;
    RegionConcat(t, q, chain);
  }

  // ------------------------------------------------------------------ one step of the walk

  /** The nodes of `chain` lie one below the other. */
  ghost predicate Downward(t: Tree, chain: seq<nat>) {
    && (forall k :: 0 <= k < |chain| ==> chain[k] < |t.path|)
    && (forall k, l :: 0 <= k < l < |chain| ==> |t.path[chain[k]]| < |t.path[chain[l]]|)
  }

  /** `Progress`, and `b`'s list is `s0` with the nodes of `chain` touched in order, from the root down.
      Nodes keep the paths they spell. */
  ghost predicate Walk(t0: Tree, s0: seq<nat>, t: Tree, lru: Lru, b: Backend, h: Path, i: nat, chain: seq<nat>) {
    && Progress(t0, t, lru, b, h, i, chain) && ListOf(lru, b) == TouchAll(s0, chain)
    && Downward(t, chain) && t0.path <= t.path
  }

  lemma WalkStart(t: Tree, lru: Lru, b: Backend, h: Path)
    requires Shape(t) && LruOk(t, lru)
    ensures Walk(t, ListOf(lru, b), t, lru, b, h, 0, [])
    ensures Sized(t) && t.path[0] == h[..0]
  {
    ProgressStart(t, lru, b, h);
  }

  lemma WalkEdge(t0: Tree, s0: seq<nat>, t: Tree, lru: Lru, b: Backend, h: Path, i: nat, chain: seq<nat>,
                 u: nat, c: nat, clock: nat)
    requires Walk(t0, s0, t, lru, b, h, i, chain)
    requires u < |t.nodes| && 0 < c < |t.nodes| && t.parent[c] == u
    requires |t.path[u]| == i && i < |t.path[c]| <= |h| && t.path[c] == h[..|t.path[c]|]
    ensures Walk(t0, s0, WithHolders(t, c, t.nodes[c].holders[b := clock]), lru[b := Touch(ListOf(lru, b), c)],
                 b, h, |t.path[c]|, chain + [c])
  {
    MatchedRegion(t, u, c, h, i);
    HoldProgress(t0, t, lru, b, h, i, chain, c, |t.path[c]|, clock);
    TouchAllSnoc(s0, chain, c);
  }

  lemma WalkLeaf(t0: Tree, s0: seq<nat>, t: Tree, lru: Lru, b: Backend, h: Path, i: nat, chain: seq<nat>,
                 u: nat, clock: nat)
    requires Walk(t0, s0, t, lru, b, h, i, chain)
    requires i < |h| && u < |t.nodes| && t.path[u] == h[..i] && h[i] !in t.nodes[u].children
    ensures var m := |t.nodes|; var t1 := AddLeaf(t, u, h[i..]);
      Walk(t0, s0, WithHolders(t1, m, t1.nodes[m].holders[b := clock]), lru[b := Touch(ListOf(lru, b), m)],
           b, h, |h|, chain + [m])
  {
    hide Progress, Between, Region, Touch, TouchAll;
    DownwardEnough(t0, t, lru, b, h, i, chain);
    LeafProgress(t0, t, lru, b, h, i, chain, u);
    HoldProgress(t0, AddLeaf(t, u, h[i..]), lru, b, h, i, chain, |t.nodes|, |h|, clock);
    TouchAllSnoc(s0, chain, |t.nodes|);
  }

  lemma WalkSplit(t0: Tree, s0: seq<nat>, t: Tree, lru: Lru, b: Backend, h: Path, i: nat, chain: seq<nat>,
                  c: nat, j: nat, clock: nat)
    requires Walk(t0, s0, t, lru, b, h, i, chain)
    requires CanSplit(t, c, j) && i + j <= |h|
    requires |t.path[t.parent[c]]| == i && t.path[c][..i + j] == h[..i + j]
    ensures var m := |t.nodes|; var t1 := Split(t, c, j); var lru1 := TrackAll(lru, t.nodes[c].holders.Keys, m);
      && t1.path[m] == h[..i + j]
      && Walk(t0, s0, WithHolders(t1, m, t1.nodes[m].holders[b := clock]), lru1[b := Touch(ListOf(lru1, b), m)],
              b, h, i + j, chain + [m])
  {
    hide Progress, Shape, Between, Region, TrackAll, Touch, TouchAll;
    DownwardEnough(t0, t, lru, b, h, i, chain);
    var m := |t.nodes|;
    var lru1 := TrackAll(lru, t.nodes[c].holders.Keys, m);
    SplitReady(t, c, j);
    SplitProgress(t0, t, lru, b, h, i, chain, c, j);
    HoldProgress(t0, Split(t, c, j), lru1, b, h, i, chain, m, i + j, clock);
    TrackedList(lru, t.nodes[c].holders.Keys, m, b);
    TouchAllSnoc(s0, chain, m);
  }

  lemma DownwardEnough(t0: Tree, t: Tree, lru: Lru, b: Backend, h: Path, i: nat, chain: seq<nat>)
    requires Progress(t0, t, lru, b, h, i, chain)
    ensures Sized(t)
    ensures forall k :: 0 <= k < |chain| ==> chain[k] < |t.path| && |t.path[chain[k]]| <= i
  {
  }

  /** Tracking the head for its holders first makes no difference to the one who then holds it. */
  lemma TrackedList(lru: Lru, bs: set<Backend>, m: nat, b: Backend)
    ensures Touch(ListOf(TrackAll(lru, bs, m), b), m) == Touch(ListOf(lru, b), m)
  {
    TouchTwice(ListOf(lru, b), m);
  }

  /** The child for the next block, if there is one. */
  lemma WalkChild(t0: Tree, s0: seq<nat>, t: Tree, lru: Lru, b: Backend, h: Path, i: nat, chain: seq<nat>, u: nat)
    requires Walk(t0, s0, t, lru, b, h, i, chain) && i < |h| && u < |t.nodes|
    ensures Sized(t) && (h[i] in t.nodes[u].children ==> 0 < t.nodes[u].children[h[i]] < |t.nodes|)
  {
    if h[i] in t.nodes[u].children { assert ChildOk(t, u, h[i]); }
  }

  /** Where the walk stands after comparing `h` with the edge into that child. */
  lemma WalkCompared(t0: Tree, s0: seq<nat>, t: Tree, lru: Lru, b: Backend, h: Path, i: nat, chain: seq<nat>,
                     u: nat, c: nat, j: nat)
    requires Walk(t0, s0, t, lru, b, h, i, chain) && Sized(t)
    requires i < |h| && u < |t.nodes| && t.path[u] == h[..i]
    requires h[i] in t.nodes[u].children && c == t.nodes[u].children[h[i]] && 0 < c < |t.nodes|
    requires j <= |t.nodes[c].edge| && i + j <= |h| && t.nodes[c].edge[..j] == h[i..i + j]
    requires j < |t.nodes[c].edge| && i + j < |h| ==> t.nodes[c].edge[j] != h[i + j]
    ensures j > 0 && t.parent[c] == u && |t.path[c]| == i + |t.nodes[c].edge| && t.path[c][..i + j] == h[..i + j]
    ensures j == |t.nodes[c].edge| ==> t.path[c] == h[..i + j]
    ensures j < |t.nodes[c].edge| ==> CanSplit(t, c, j)
  {
    assert ChildOk(t, u, h[i]);
    assert t.nodes[c].edge[0] == h[i];
    assert NodeOk(t, c);
    RunOnEdge(t, u, c, h, i, j);
    assert t.path[c][..|t.path[c]|] == t.path[c];
  }

  // ------------------------------------------------------------------ eviction

  /** From `(t0, lru0)`, some of the oldest entries of `b` have been dropped and nothing else done. */
  ghost predicate Evicting(t0: Tree, lru0: Lru, t: Tree, lru: Lru, b: Backend, cap: int) {
    && Shape(t) && LruOk(t, lru) && SameShape(t0, t)
    && InArena(t0.nodes, ListOf(lru0, b)) && InArena(t0.nodes, ListOf(lru, b))
    && Trim(t0.nodes, ListOf(lru, b), cap) == Trim(t0.nodes, ListOf(lru0, b), cap)
    && OthersKept(t0, lru0, t, lru, b)
  }

  ghost predicate OthersKept(t0: Tree, lru0: Lru, t: Tree, lru: Lru, b: Backend) {
    && (forall a {:trigger Cov(t, a)} :: a != b ==> Cov(t, a) == Cov(t0, a))
    && (forall a {:trigger ListOf(lru, a)} :: a != b ==> ListOf(lru, a) == ListOf(lru0, a))
  }

  lemma EvictingStart(t: Tree, lru: Lru, b: Backend, cap: int)
    requires Shape(t) && LruOk(t, lru)
    ensures Evicting(t, lru, t, lru, b, cap)
    ensures InArena(t.nodes, ListOf(lru, b))
  {
    assert Lists(t, ListOf(lru, b), b);
    CovIsRegion(t, ListOf(lru, b), b);
  }

  ghost function DropOldest(t: Tree, lru: Lru, b: Backend): (Tree, Lru)
    requires ListOf(lru, b) != [] && ListOf(lru, b)[0] < |t.nodes|
  {
    var s := ListOf(lru, b);
    (WithHolders(t, s[0], t.nodes[s[0]].holders - {b}), lru[b := s[1..]])
  }

  lemma DropOldestKeeps(t: Tree, lru: Lru, b: Backend)
    requires Shape(t) && LruOk(t, lru) && ListOf(lru, b) != []
    ensures ListOf(lru, b)[0] < |t.nodes|
    ensures var (t', lru') := DropOldest(t, lru, b);
      Shape(t') && LruOk(t', lru') && SameShape(t, t') && OthersKept(t, lru, t', lru', b)
      && ListOf(lru', b) == ListOf(lru, b)[1..]
  {
    DropEffect(t, lru, b);
  }

  lemma SameShapeTransitive(t0: Tree, t: Tree, t': Tree)
    requires SameShape(t0, t) && SameShape(t, t')
    ensures SameShape(t0, t')
  {
    forall n | 0 <= n < |t0.nodes|
      ensures t'.nodes[n].edge == t0.nodes[n].edge && t'.nodes[n].children == t0.nodes[n].children
    {
      assert t.nodes[n].edge == t0.nodes[n].edge;
    }
  }

  lemma OthersKeptTransitive(t0: Tree, lru0: Lru, t: Tree, lru: Lru, t': Tree, lru': Lru, b: Backend)
    requires OthersKept(t0, lru0, t, lru, b) && OthersKept(t, lru, t', lru', b)
    ensures OthersKept(t0, lru0, t', lru', b)
  {
    forall a | a != b ensures Cov(t', a) == Cov(t0, a) && ListOf(lru', a) == ListOf(lru0, a) {
      assert Cov(t, a) == Cov(t0, a) && ListOf(lru, a) == ListOf(lru0, a);
    }
  }

  /** Dropping the first entry of a list that does not fit changes nothing for the cut to come. */
  lemma TrimDrop(nodes: seq<Node>, s: seq<nat>, cap: int)
    requires InArena(nodes, s) && s != [] && Blocks(nodes, s) > cap
    ensures InArena(nodes, s[1..]) && Trim(nodes, s[1..], cap) == Trim(nodes, s, cap)
    ensures Blocks(nodes, s[1..]) == Blocks(nodes, s) - |nodes[s[0]].edge|
  {
  }

  lemma EvictingStep(t0: Tree, lru0: Lru, t: Tree, lru: Lru, b: Backend, cap: int)
    requires Evicting(t0, lru0, t, lru, b, cap) && ListOf(lru, b) != []
    requires InArena(t0.nodes, ListOf(lru, b)) && Blocks(t0.nodes, ListOf(lru, b)) > cap
    ensures ListOf(lru, b)[0] < |t.nodes|
    ensures var (t', lru') := DropOldest(t, lru, b); Evicting(t0, lru0, t', lru', b, cap)
    ensures var s := ListOf(lru, b);
      InArena(t0.nodes, s[1..]) && Blocks(t0.nodes, s[1..]) == Blocks(t0.nodes, s) - |t.nodes[s[0]].edge|
  {
    hide Shape, LruOk, OthersKept, Trim, Blocks, DropOldest;
    DropOldestKeeps(t, lru, b);
    var (t', lru') := DropOldest(t, lru, b);
    SameShapeTransitive(t0, t, t');
    OthersKeptTransitive(t0, lru0, t, lru, t', lru', b);
    TrimDrop(t0.nodes, ListOf(lru, b), cap);
  }

  lemma EvictingDone(t0: Tree, lru0: Lru, t: Tree, lru: Lru, b: Backend, cap: int)
    requires Evicting(t0, lru0, t, lru, b, cap)
    requires InArena(t0.nodes, ListOf(lru, b))
    requires Blocks(t0.nodes, ListOf(lru, b)) <= cap || ListOf(lru, b) == []
    ensures ListOf(lru, b) == Trim(t0.nodes, ListOf(lru0, b), cap)
    ensures Cov(t, b) == Region(t0, ListOf(lru, b))
  {
    assert Lists(t, ListOf(lru, b), b);
    CovIsRegion(t, ListOf(lru, b), b);
  }

  lemma EvictingKeeps(t0: Tree, lru0: Lru, t: Tree, lru: Lru, b: Backend, cap: int)
    requires Evicting(t0, lru0, t, lru, b, cap)
    ensures Shape(t) && LruOk(t, lru) && SameShape(t0, t)
    ensures |t.nodes| == |t0.nodes| && forall n :: 0 <= n < |t.nodes| ==> t.nodes[n].edge == t0.nodes[n].edge
  {
  }

  lemma EvictingOthers(t0: Tree, lru0: Lru, t: Tree, lru: Lru, b: Backend, cap: int)
    requires Evicting(t0, lru0, t, lru, b, cap)
    ensures OthersKept(t0, lru0, t, lru, b)
  {
  }

  lemma EmptyListForgotten(t: Tree, lru: Lru, b: Backend)
    requires LruOk(t, lru) && ListOf(lru, b) == []
    ensures LruOk(t, lru - {b})
    ensures forall a {:trigger ListOf(lru - {b}, a)} :: ListOf(lru - {b}, a) == ListOf(lru, a)
  {
    forall a ensures ListOf(lru - {b}, a) == ListOf(lru, a) {}
    forall a ensures Lists(t, ListOf(lru - {b}, a), a) {
      assert Lists(t, ListOf(lru, a), a);
    }
  }

  lemma EmptyListCovers(t: Tree, lru: Lru, b: Backend)
    requires Shape(t) && LruOk(t, lru) && ListOf(lru, b) == []
    ensures Cov(t, b) == {}
  {
    assert Lists(t, ListOf(lru, b), b);
    CovIsRegion(t, [], b);
  }

  /** Forgetting an empty list. */
  lemma ForgetList(t0: Tree, lru0: Lru, t: Tree, lru: Lru, b: Backend)
    requires Evicting(t0, lru0, t, lru, b, -1) && ListOf(lru, b) == []
    ensures Shape(t) && LruOk(t, lru - {b}) && SameShape(t0, t)
    ensures Cov(t, b) == {} && ListOf(lru - {b}, b) == [] && OthersKept(t0, lru0, t, lru - {b}, b)
  {
    hide Evicting, Shape, LruOk, SameShape;
    EvictingKeeps(t0, lru0, t, lru, b, -1);
    EvictingOthers(t0, lru0, t, lru, b, -1);
    EmptyListForgotten(t, lru, b);
    EmptyListCovers(t, lru, b);
  }

  lemma WalkDone(t0: Tree, s0: seq<nat>, t: Tree, lru: Lru, b: Backend, h: Path, chain: seq<nat>)
    requires Walk(t0, s0, t, lru, b, h, |h|, chain)
    ensures Shape(t) && LruOk(t, lru) && Lists(t, ListOf(lru, b), b)
    ensures Cov(t, b) == Cov(t0, b) + Prefixes(h)
    ensures AllNodes(t, chain) && NoDup(chain) && Region(t, chain) == Prefixes(h)
    ensures ListOf(lru, b) == TouchAll(s0, chain)
    ensures Downward(t, chain) && t0.path <= t.path
  {
    assert h[..|h|] == h;
  }

  lemma WalkThenEvictOthers(t0: Tree, s0: seq<nat>, t1: Tree, lru1: Lru, t2: Tree, lru2: Lru,
                            b: Backend, h: Path, chain: seq<nat>, cap: int)
    requires Walk(t0, s0, t1, lru1, b, h, |h|, chain)
    requires Evicting(t1, lru1, t2, lru2, b, cap)
    ensures forall a {:trigger Cov(t2, a)} :: a != b ==> Cov(t2, a) == Cov(t0, a)
  {
    hide Shape, LruOk, SameShape, Cov, Trim;
    forall a | a != b ensures Cov(t2, a) == Cov(t0, a) {
      assert Cov(t1, a) == Cov(t0, a);
    }
  }

  /** The walk followed by eviction, as the caller of an insert sees it: coverage. */
  lemma InsertOutcome(t0: Tree, s0: seq<nat>, t1: Tree, lru1: Lru, t2: Tree, lru2: Lru,
                      b: Backend, h: Path, chain: seq<nat>, cap: int)
    requires h != [] && Walk(t0, s0, t1, lru1, b, h, |h|, chain)
    requires Evicting(t1, lru1, t2, lru2, b, cap)
    requires InArena(t1.nodes, ListOf(lru1, b)) && ListOf(lru2, b) == Trim(t1.nodes, ListOf(lru1, b), cap)
    requires Cov(t2, b) == Region(t1, ListOf(lru2, b))
    ensures Cov(t2, b) <= Cov(t0, b) + Prefixes(h)
    ensures Cov(t2, b) == Cov(t0, b) + Prefixes(h) <==> |Cov(t0, b) + Prefixes(h)| <= cap
    ensures |h| <= cap ==> Prefixes(h) <= Cov(t2, b)
    ensures |Cov(t2, b)| <= (if cap < 0 then 0 else cap)
    ensures forall a {:trigger Cov(t2, a)} :: a != b ==> Cov(t2, a) == Cov(t0, a)
  {
    hide *;
    SelfPrefix(h);
    WalkThenEvictOthers(t0, s0, t1, lru1, t2, lru2, b, h, chain, cap);
    WalkDone(t0, s0, t1, lru1, b, h, chain);
    TrimCapacity(t1, ListOf(lru1, b), b, cap);
    if |h| <= cap { TrimKeepsChain(t1, s0, chain, h, cap); }
  }

  /** How an insert leaves `b`'s list, from `s0` and coverage `c0`: the nodes spelling `h`, from the root
      down, become the latest entries, and the whole is then cut to its longest tail that fits. */
  ghost predicate Inserted(t: Tree, s0: seq<nat>, c0: set<Path>, h: Path, chain: seq<nat>, s: seq<nat>, cap: int) {
    && AllNodes(t, chain) && Region(t, chain) == Prefixes(h) && Downward(t, chain)
    && InArena(t.nodes, TouchAll(s0, chain)) && s == Trim(t.nodes, TouchAll(s0, chain), cap)
    && AllNodes(t, TouchAll(s0, chain)) && NoDup(TouchAll(s0, chain))
    && Region(t, TouchAll(s0, chain)) == c0 + Prefixes(h)
  }

  /** The same for recency: the nodes spelling `h` are touched, then the list is cut to fit. */
  lemma InsertRecency(t0: Tree, s0: seq<nat>, t1: Tree, lru1: Lru, t2: Tree, lru2: Lru,
                      b: Backend, h: Path, chain: seq<nat>, cap: int)
    requires Walk(t0, s0, t1, lru1, b, h, |h|, chain)
    requires Evicting(t1, lru1, t2, lru2, b, cap)
    requires InArena(t1.nodes, ListOf(lru1, b)) && ListOf(lru2, b) == Trim(t1.nodes, ListOf(lru1, b), cap)
    ensures Inserted(t2, s0, Cov(t0, b), h, chain, ListOf(lru2, b), cap)
    ensures t0.path <= t2.path
  {
    hide *;
    WalkDone(t0, s0, t1, lru1, b, h, chain);
    EvictingKeeps(t1, lru1, t2, lru2, b, cap);
    CovIsRegion(t1, ListOf(lru1, b), b);
    SameRegion(t1, t2, chain);
    SameRegion(t1, t2, ListOf(lru1, b));
    SameBlocks(t1.nodes, t2.nodes, ListOf(lru1, b), cap);
    InsertedIntro(t1, t2, s0, Cov(t0, b), h, chain, ListOf(lru1, b), ListOf(lru2, b), b, cap);
  }

  lemma InsertedIntro(t: Tree, t': Tree, s0: seq<nat>, c0: set<Path>, h: Path, chain: seq<nat>,
                      full: seq<nat>, s: seq<nat>, b: Backend, cap: int)
    requires SameShape(t, t') && Downward(t, chain) && AllNodes(t', chain) && Region(t', chain) == Prefixes(h)
    requires full == TouchAll(s0, chain) && InArena(t'.nodes, full) && s == Trim(t'.nodes, full, cap)
    requires Lists(t, full, b) && AllNodes(t', full) && Region(t', full) == c0 + Prefixes(h)
    ensures Inserted(t', s0, c0, h, chain, s, cap) && t'.path == t.path
  {
    hide Region, Trim, TouchAll, Prefixes;
  }

  lemma SameRegion(t: Tree, t': Tree, s: seq<nat>)
    requires SameShape(t, t') && AllNodes(t, s)
    ensures Region(t', s) == Region(t, s) && AllNodes(t', s)
  {
  }

  lemma {:induction false} SameBlocks(nodes: seq<Node>, nodes': seq<Node>, s: seq<nat>, cap: int)
    requires InArena(nodes, s) && |nodes'| == |nodes|
    requires forall n :: 0 <= n < |nodes| ==> nodes'[n].edge == nodes[n].edge
    ensures InArena(nodes', s)
    ensures Blocks(nodes', s) == Blocks(nodes, s)
    ensures Trim(nodes', s, cap) == Trim(nodes, s, cap)
  {
    if s != [] {
      SameBlocks(nodes, nodes', s[1..], cap);
    }
  }
}
