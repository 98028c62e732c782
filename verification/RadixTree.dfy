/** The path-compressed prefix tree with one recency list per backend (gateway/radix_tree.py). */
module RadixTree {
  import opened Basics
  import opened PrefixSets
  import opened TreeShape
  import opened Holdings
  import opened InsertProof
  import opened Compression
  import opened Recency

  /** How many blocks of `e` agree with `h` from position `i` on. */
  method CommonRun(e: Path, h: Path, i: nat) returns (j: nat)
    requires i < |h|
    ensures j <= |e| && i + j <= |h| && e[..j] == h[i..i + j]
    ensures j < |e| && i + j < |h| ==> e[j] != h[i + j]
  {
    j := 0;
    while j < |e| && i + j < |h| && e[j] == h[i + j]
      invariant j <= |e| && i + j <= |h|
      invariant e[..j] == h[i..i + j]
    {
      j := j + 1;
    }
  }

  class RadixTree {
    var nodes: seq<Node>
    const cap: int
    var clock: nat
    var lru: Lru
    ghost var parent: seq<nat>
    ghost var path: seq<Path>
    ghost var locus: map<Path, nat>
    ghost var spelled: set<Path>

    ghost function View(): Tree
      reads this
    {
      Tree(nodes, parent, path, locus)
    }

    /** The prefixes `b` currently holds. */
    ghost function Covered(b: Backend): set<Path>
      reads this
    {
      Cov(View(), b)
    }

    /** Everything but the capacity bound. */
    ghost predicate Consistent()
      reads this
    {
      Shape(View()) && LruOk(View(), lru)
    }

    /** Every node is a branch point or spells a list that was inserted. */
    ghost predicate Compressed()
      reads this
    {
      Small(View(), spelled)
    }

    ghost predicate Valid()
      reads this
    {
      && Consistent() && Compressed()
      && (forall b {:trigger Covered(b)} :: |Covered(b)| <= Max(cap, 0))
    }

    constructor (backendCacheBlocks: int)
      ensures Valid() && cap == backendCacheBlocks
      ensures forall b :: Covered(b) == {}
      ensures spelled == {} && locus == map[]
    {
      nodes := EMPTY.nodes;
      spelled := {};
      parent, path, locus := EMPTY.parent, EMPTY.path, EMPTY.locus;
      cap, clock, lru := backendCacheBlocks, 0, map[];
    }

    /** The longest prefix, contiguous from the front, that each backend holds. */
    method Match(h: Path) returns (best: map<Backend, nat>)
      requires Valid()
      ensures forall b :: b in best <==> Depth(Covered(b), h) > 0
      ensures forall b :: b in best ==> best[b] == Depth(Covered(b), h)
    {
      hide Shape, LruOk, Cov, Depth, Reported, StillAlive, CarriesOn;
      best := map[];
      var node, depth, i := 0, 0, 0;
      var alive: Option<set<Backend>> := None;
      ghost var t := View();
      MatchStart(t, h);
      while i < |h|
        invariant i <= |h| && depth == i && node < |nodes| && t.path[node] == h[..i]
        invariant StillAlive(t, alive, h, i) && Reported(t, best, h, i)
      {
        if h[i] !in nodes[node].children {
          MatchStops(t, node, h, i);
          ReportedExact(t, best, h, i);
          break;
        }
        var child := nodes[node].children[h[i]];
        MatchChild(t, node, h[i]);
        var e := nodes[child].edge;
        var j := CommonRun(e, h, i);
        MatchStep(t, node, child, h, i, j);
        var hk := nodes[child].holders.Keys;
        AliveStep(t, alive, hk, h, i, j);
        alive := Some(if alive.None? then hk else alive.value * hk);
        if alive.value == {} {
          NobodyLeft(t, child, best, h, i, j);
          break;
        }
        depth := depth + j;
        ReportStep(t, child, alive.value, best, h, i, j);
        best := map b | b in best.Keys + alive.value :: if b in alive.value then depth else best[b];
        if j < |e| {
          ReportedExact(t, best, h, i + j);
          break;
        }
        i := i + j;
        node := child;
      }
      if i == |h| {
        ReportedExact(t, best, h, i);
      }
    }

    /** Record that `b` holds every prefix of `h`, then evict.

    Coverage: `b` gains at most the prefixes of `h`, nobody else gains or loses anything.
    Capacity: something is dropped if and only if the union does not fit in `cap` blocks.
    Compression: at most two nodes are new, each a branch point or the end of a list that was inserted.
    Others: the lists of other backends keep their entries in order; the head of a cut edge comes last.
    Recency: the nodes spelling `h` become the latest entries of `b`'s list, which is then cut to
    its longest tail that fits; so a path that fits is never its own victim. */
    method Insert(h: Path, b: Backend)
      requires Valid()
      modifies this
      ensures Valid()
      ensures forall a :: a != b ==> Covered(a) == old(Covered(a))
      ensures forall a {:trigger ListOf(lru, a)} :: a != b ==>
        old(ListOf(lru, a)) <= ListOf(lru, a) && |ListOf(lru, a)| <= old(|ListOf(lru, a)|) + 1
      ensures OthersOrder(old(View()), old(lru), View(), lru, b, h)
      ensures Covered(b) <= old(Covered(b)) + Prefixes(h)
      ensures h != [] ==>
        (Covered(b) == old(Covered(b)) + Prefixes(h) <==> |old(Covered(b)) + Prefixes(h)| <= cap)
      ensures |h| <= cap ==> Prefixes(h) <= Covered(b)
      ensures h != [] ==>
        exists chain :: Inserted(View(), old(ListOf(lru, b)), old(Covered(b)), h, chain, ListOf(lru, b), cap)
      ensures old(path) <= path
      ensures h == [] ==> unchanged(this)
      ensures h != [] ==> spelled == old(spelled) + {h} && locus.Keys == old(locus.Keys) + Prefixes(h)
      ensures |nodes| <= old(|nodes|) + 2
      ensures h != [] ==> clock == old(clock) + 1
    {
      hide Shape, LruOk, Cov, Small, Packed, Grew, Inserted, Prefixes, ListOf, OthersOrder, Kept;
      SmallPacked(View(), spelled);
      if h == [] {
        NoPrefixes();
        OrderUnchanged(View(), lru, b, h);
        return;
      }
      clock := clock + 1;
      assert View() == old(View());
      InsertNonEmpty(h, b);
      ghost var k := if h in old(path) then 0 else 2;
      GrewParts(old(View()), View(), h, spelled, k);
      OrderLists(old(View()), old(lru), View(), lru, b, h);
      SmallGrew(old(View()), View(), h, spelled);
      spelled := spelled + {h};
      forall a ensures |Covered(a)| <= Max(cap, 0) {
        if a != b { assert Cov(View(), a) == old(Covered(a)); }
      }
    }

    /** The walk, then eviction. */
    method InsertNonEmpty(h: Path, b: Backend)
      requires Consistent() && h != [] && Packed(View(), spelled, 0)
      modifies this`nodes, this`lru, this`parent, this`path, this`locus
      ensures Consistent()
      ensures forall a {:trigger Cov(View(), a)} :: a != b ==> Cov(View(), a) == Cov(old(View()), a)
      ensures |Cov(View(), b)| <= (if cap < 0 then 0 else cap)
      ensures Covered(b) <= old(Covered(b)) + Prefixes(h)
      ensures Covered(b) == old(Covered(b)) + Prefixes(h) <==> |old(Covered(b)) + Prefixes(h)| <= cap
      ensures |h| <= cap ==> Prefixes(h) <= Covered(b)
      ensures exists chain :: Inserted(View(), old(ListOf(lru, b)), old(Covered(b)), h, chain, ListOf(lru, b), cap)
      ensures Grew(old(View()), View(), h, spelled, if h in old(path) then 0 else 2)
      ensures locus.Keys == old(locus.Keys) + Prefixes(h)
      ensures OthersOrder(old(View()), old(lru), View(), lru, b, h)
    {
      hide Grew, Packed, OthersOrder, Kept, SameRegions, OthersKept, SameShape;
      hide Walk, Evicting, Shape, LruOk, Lists, AllNodes, InArena, Trim, Cov, Region, TouchAll, ListOf, Inserted;
      ghost var t0, s0 := View(), ListOf(lru, b);
      ghost var chain := Descend(h, b);
      ghost var t, lru1 := View(), lru;
      WalkDone(t0, s0, t, lru1, b, h, chain);
      Evict(b);
      InsertOutcome(t0, s0, t, lru1, View(), lru, b, h, chain, cap);
      InsertRecency(t0, s0, t, lru1, View(), lru, b, h, chain, cap);
      EvictingKeeps(t, lru1, View(), lru, b, cap);
      GrewSame(t0, t, View(), h, spelled, if h in t0.path then 0 else 2);
      EvictOrder(t0, old(lru), t, lru1, View(), lru, b, h, cap);
      AllPrefixes(t0, View(), h, spelled, if h in t0.path then 0 else 2, s0, Cov(t0, b), chain, ListOf(lru, b), cap);
    }

    /** The walk of an insert, before eviction: take whole edges while they match, then hang a leaf
        or cut the edge where `h` leaves it. */
    method Descend(h: Path, b: Backend) returns (ghost chain: seq<nat>)
      requires Consistent() && h != [] && Packed(View(), spelled, 0)
      modifies this`nodes, this`lru, this`parent, this`path, this`locus
      ensures Walk(old(View()), old(ListOf(lru, b)), View(), lru, b, h, |h|, chain)
      ensures Grew(old(View()), View(), h, spelled, if h in old(path) then 0 else 2)
      ensures OthersOrder(old(View()), old(lru), View(), lru, b, h)
    {
      hide Walk, Shape, LruOk, NodeOk, Packed, Grew, SameShape, OthersOrder, Kept, SameRegions;
      ghost var t0, s0, lru0 := View(), ListOf(lru, b), lru;
      assert LruOk(t0, lru0);
      var node, i := 0, 0;
      chain := [];
      WalkStart(t0, lru, b, h);
      SameShapeSelf(t0);
      while i < |h|
        invariant i <= |h| && Sized(View()) && node < |nodes| && path[node] == h[..i]
        invariant Walk(t0, s0, View(), lru, b, h, i, chain) && SameShape(t0, View())
        invariant forall a {:trigger ListOf(lru, a)} :: a != b ==> ListOf(lru, a) == ListOf(lru0, a)
      {
        ghost var t, lru1 := View(), lru;
        SameShapeRegions(t0, t);
        PackedSame(t0, t, spelled, 0);
        WalkChild(t0, s0, View(), lru, b, h, i, chain, node);
        if h[i] !in nodes[node].children {
          WalkBranches(t0, s0, t, lru, b, h, i, chain, node);
          chain := Branch(t0, s0, node, h, i, b, chain, 0);
          GrewFrom(t0, t, View(), h, spelled, 1);
          SameSize(t0, t);
          RegionsThen(t0, t, View());
          OrderSame(t0, lru0, View(), lru, b, h);
          return;
        }
        var child := nodes[node].children[h[i]];
        var j := CommonRun(nodes[child].edge, h, i);
        WalkCompared(t0, s0, View(), lru, b, h, i, chain, node, child, j);
        if j < |nodes[child].edge| {
          WalkDiverges(t0, s0, t, lru, b, h, i, chain, node, child, j);
          chain := Diverge(t0, s0, node, child, h, i, j, b, chain);
          GrewFrom(t0, t, View(), h, spelled, 2);
          OrderAfter(t0, lru0, t, lru1, View(), lru, b, h);
          return;
        }
        WalkEdge(t0, s0, View(), lru, b, h, i, chain, node, child, clock);
        Hold(b, child);
        HoldLists(lru1, b, child);
        forall a | a != b ensures ListOf(lru, a) == ListOf(lru0, a) {
          assert ListOf(lru, a) == ListOf(lru1, a);
        }
        HoldSame(t0, t, child, t.nodes[child].holders[b := clock]);
        chain := chain + [child];
        i := i + j;
        node := child;
      }
      GrewNone(t0, View(), h, spelled, node);
      SameShapeRegions(t0, View());
      OrderSame(t0, lru0, View(), lru, b, h);
    }

    /** No child continues `h`: the rest of it becomes a leaf held by `b`. */
    method Branch(ghost t0: Tree, ghost s0: seq<nat>, node: nat, h: Path, i: nat, b: Backend, ghost chain: seq<nat>,
                  ghost x: nat)
      returns (ghost chain': seq<nat>)
      requires Packed(View(), spelled, x)
      requires Walk(t0, s0, View(), lru, b, h, i, chain)
      requires Sized(View())
      requires i < |h| && node < |nodes| && path[node] == h[..i] && h[i] !in nodes[node].children
      requires x == 0 || (x == node && nodes[node].children != map[])
      modifies this`nodes, this`lru, this`parent, this`path, this`locus
      ensures Walk(t0, s0, View(), lru, b, h, |h|, chain')
      ensures Grew(old(View()), View(), h, spelled, 1)
      ensures SameRegions(old(View()), View())
      ensures forall a {:trigger ListOf(lru, a)} :: a != b ==> ListOf(lru, a) == old(ListOf(lru, a))
    {
      hide Walk, Packed, Grew, SameShape, SameRegions, Touch;
      ghost var t := View();
      LeafRegions(t0, s0, t, lru, b, h, i, chain, node);
      GrewLeaf(t, node, h, i, spelled, x);
      WalkLeaf(t0, s0, View(), lru, b, h, i, chain, node, clock);
      var leaf := GrowLeaf(node, h[i..]);
      ghost var t1 := View();
      Hold(b, leaf);
      SameShapeSelf(t1);
      HoldSame(t1, t1, leaf, t1.nodes[leaf].holders[b := clock]);
      GrewSame(t, t1, View(), h, spelled, 1);
      SameShapeRegions(t1, View());
      RegionsThen(t, t1, View());
      chain' := chain + [leaf];
    }

    /** `h` leaves the edge into `child` after `j` blocks: cut it there, and branch off if any of `h`
        is left. */
    method Diverge(ghost t0: Tree, ghost s0: seq<nat>, node: nat, child: nat, h: Path, i: nat, j: nat, b: Backend,
                   ghost chain: seq<nat>)
      returns (ghost chain': seq<nat>)
      requires Walk(t0, s0, View(), lru, b, h, i, chain) && Packed(View(), spelled, 0)
      requires 0 < child < |nodes| && 0 < j < |nodes[child].edge| && i + j <= |h|
      requires CanSplit(View(), child, j) && parent[child] == node && path[node] == h[..i]
      requires i + j <= |path[child]| && path[child][..i + j] == h[..i + j]
      requires i + j < |h| ==> nodes[child].edge[j] != h[i + j]
      modifies this`nodes, this`lru, this`parent, this`path, this`locus
      ensures Walk(t0, s0, View(), lru, b, h, |h|, chain')
      ensures Grew(old(View()), View(), h, spelled, 2)
      ensures OthersOrder(old(View()), old(lru), View(), lru, b, h)
    {
      hide Walk, Shape, Touch, ListOf, TrackAll, Packed, Grew, SameShape, OthersOrder, SameRegions, LruOk;
      ghost var t, lru0 := View(), lru;
      WalkOk(t0, s0, t, lru, b, h, i, chain);
      OrderSplit(t, lru, child, j, b, h);
      assert CanSplit(t, child, j);
      WalkSplit(t0, s0, t, lru, b, h, i, chain, child, j, clock);
      SplitReady(t, child, j);
      PackedSplit(t, child, j, spelled);
      SplitGrows(t, child, j);
      var split := SplitEdge(node, child, j);
      ghost var t1, lru1 := View(), lru;
      Hold(b, split);
      ghost var lru2 := lru;
      HoldLists(lru1, b, split);
      SplitLists(t, lru0, child, j);
      SameShapeSelf(t1);
      HoldSame(t1, t1, split, t1.nodes[split].holders[b := clock]);
      chain' := chain + [split];
      ghost var chain2 := chain';
      SameShapeRegions(t1, View());
      OrderThen(t, lru0, t1, lru1, View(), lru, b, h);
      if i + j < |h| {
        ghost var t2 := View();
        PackedSame(t1, t2, spelled, split);
        HeadKept(t1, t2, split);
        chain' := Branch(t0, s0, split, h, i + j, b, chain', split);
        GrewTwice(t, t2, View(), h, spelled);
        WalkOk(t0, s0, t2, lru2, b, h, i + j, chain2);
        OrderThen(t, lru0, t2, lru2, View(), lru, b, h);
      } else {
        assert h[..i + j] == h;
        GrewHead(t, child, j, h, spelled);
        GrewSame(t, t1, View(), h, spelled, 2);
      }
    }

    /** Hang a leaf spelling `suffix` below `u`. */
    method GrowLeaf(u: nat, suffix: Path) returns (leaf: nat)
      requires Sized(View()) && u < |nodes| && suffix != []
      modifies this`nodes, this`parent, this`path, this`locus
      ensures leaf == old(|nodes|) && View() == AddLeaf(old(View()), u, suffix)
    {
      ghost var t := AddLeaf(View(), u, suffix);
      leaf := |nodes|;
      nodes := nodes[u := nodes[u].(children := nodes[u].children[suffix[0] := leaf])] + [Node(suffix, map[], map[])];
      parent, path, locus := t.parent, t.path, t.locus;
    }

    /** Cut the edge into `c` after `j` blocks; every holder of `c` also holds, and tracks, the head. */
    method SplitEdge(node: nat, c: nat, j: nat) returns (split: nat)
      requires Sized(View()) && c < |nodes| && node == parent[c] < |nodes| && node != c && 0 < j < |nodes[c].edge|
      requires |path[node]| + j <= |path[c]|
      modifies this`nodes, this`lru, this`parent, this`path, this`locus
      ensures split == old(|nodes|) && View() == Split(old(View()), c, j)
      ensures lru == TrackAll(old(lru), old(nodes[c].holders).Keys, split)
    {
      ghost var t := Split(View(), c, j);
      var e := nodes[c].edge;
      split := |nodes|;
      var head := Node(e[..j], map[e[j] := c], nodes[c].holders);
      nodes := nodes[c := nodes[c].(edge := e[j..])];
      nodes := nodes[node := nodes[node].(children := nodes[node].children[e[0] := split])] + [head];
      parent, path, locus := t.parent, t.path, t.locus;
      assert View() == t;
      TrackHead(head.holders.Keys, split);
    }

    /** Append `m` to the list of every backend in `bs`. */
    method TrackHead(bs: set<Backend>, m: nat)
      modifies this`lru
      ensures lru == TrackAll(old(lru), bs, m)
    {
      var todo := bs;
      while todo != {}
        invariant todo <= bs
        invariant lru == TrackAll(old(lru), bs - todo, m)
        decreases todo
      {
        var a :| a in todo;
        Track(a, m);
        todo := todo - {a};
      }
      assert bs - todo == bs;
    }

    /** `b` holds `n` as of now. */
    method Hold(b: Backend, n: nat)
      requires n < |nodes|
      modifies this`nodes, this`lru
      ensures View() == WithHolders(old(View()), n, old(nodes[n].holders)[b := clock])
      ensures lru == old(lru[b := Touch(ListOf(lru, b), n)])
    {
      nodes := nodes[n := nodes[n].(holders := nodes[n].holders[b := clock])];
      Track(b, n);
    }

    method Track(b: Backend, n: nat)
      modifies this`lru
      ensures lru == old(lru[b := Touch(ListOf(lru, b), n)])
    {
      var s := ListOf(lru, b);
      if n in s {
        lru := lru[b := Without(s, n) + [n]];
      } else {
        WithoutAbsent(s, n);
        lru := lru[b := s + [n]];
      }
    }

    /** Drop the least recently used entries of `b` until the rest fits. */
    method Evict(b: Backend)
      requires Consistent()
      modifies this`nodes, this`lru
      ensures Evicting(old(View()), old(lru), View(), lru, b, cap)
      ensures InArena(old(nodes), old(ListOf(lru, b)))
      ensures ListOf(lru, b) == Trim(old(nodes), old(ListOf(lru, b)), cap)
      ensures Covered(b) == Region(old(View()), ListOf(lru, b))
    {
      hide Evicting, Shape, LruOk, Trim, Cov, Region;
      ghost var t0, lru0 := View(), lru;
      EvictingStart(t0, lru0, b, cap);
      var s := ListOf(lru, b);
      var total := Blocks(nodes, s);
      while total > cap && s != []
        invariant Evicting(t0, lru0, View(), lru, b, cap)
        invariant s == ListOf(lru, b) && InArena(t0.nodes, s) && total == Blocks(t0.nodes, s)
        decreases |s|
      {
        EvictingStep(t0, lru0, View(), lru, b, cap);
        var n := s[0];
        s := s[1..];
        lru := lru[b := s];
        total := total - |nodes[n].edge|;
        nodes := nodes[n := nodes[n].(holders := nodes[n].holders - {b})];
      }
      EvictingDone(t0, lru0, View(), lru, b, cap);
    }

    /** A dead backend holds nothing. */
    method RemoveBackend(b: Backend)
      requires Valid()
      modifies this`nodes, this`lru
      ensures Valid() && SameShape(old(View()), View())
      ensures Covered(b) == {} && ListOf(lru, b) == []
      ensures (forall a :: a != b ==> Covered(a) == old(Covered(a))) && |nodes| == old(|nodes|)
      ensures OthersKept(old(View()), old(lru), View(), lru, b)
    {
      hide Evicting, Shape, LruOk, Cov, ListOf, SameShape, Small;
      ghost var t0, lru0 := View(), lru;
      StrikeAll(b);
      ForgetList(t0, lru0, View(), lru, b);
      lru := lru - {b};
      SmallSame(t0, View(), spelled);
      SameSize(t0, View());
      forall a ensures |Covered(a)| <= Max(cap, 0) && (a != b ==> Covered(a) == old(Covered(a))) {
        if a != b { assert Cov(View(), a) == old(Covered(a)); }
      }
    }

    /** Strike `b` from every node on its list. */
    method StrikeAll(b: Backend)
      requires Consistent()
      modifies this`nodes, this`lru
      ensures Evicting(old(View()), old(lru), View(), lru, b, -1) && ListOf(lru, b) == []
    {
      hide Evicting, Shape, LruOk, Trim, Cov;
      ghost var t0, lru0 := View(), lru;
      EvictingStart(t0, lru0, b, -1);
      var s := ListOf(lru, b);
      while s != []
        invariant Evicting(t0, lru0, View(), lru, b, -1)
        invariant s == ListOf(lru, b) && InArena(t0.nodes, s)
        decreases |s|
      {
        EvictingStep(t0, lru0, View(), lru, b, -1);
        var n := s[0];
        s := s[1..];
        lru := lru[b := s];
        nodes := nodes[n := nodes[n].(holders := nodes[n].holders - {b})];
      }
    }

    /** The block total of `b` counts the prefixes it covers, and never exceeds the capacity. */
    method HeldBlocks(b: Backend) returns (total: nat)
      requires Valid()
      ensures total == |Covered(b)| <= Max(cap, 0)
    {
      var s := ListOf(lru, b);
      assert Lists(View(), s, b);
      CovIsRegion(View(), s, b);
      assert |Covered(b)| <= Max(cap, 0);
      total := Blocks(nodes, s);
    }
  }

  lemma WalkOk(t0: Tree, s0: seq<nat>, t: Tree, lru: Lru, b: Backend, h: Path, i: nat, chain: seq<nat>)
    requires Walk(t0, s0, t, lru, b, h, i, chain)
    ensures Shape(t) && LruOk(t, lru) && Sized(t)
  {
  }

  lemma LeafRegions(t0: Tree, s0: seq<nat>, t: Tree, lru: Lru, b: Backend, h: Path, i: nat, chain: seq<nat>, u: nat)
    requires Walk(t0, s0, t, lru, b, h, i, chain) && i < |h| && u < |t.nodes| && h[i] !in t.nodes[u].children
    ensures Sized(t) && SameRegions(t, AddLeaf(t, u, h[i..])) && |t.nodes| <= |AddLeaf(t, u, h[i..]).nodes|
  {
    AddLeafCov(t, lru, u, h[i..]);
  }

  lemma HoldLists(lru: Lru, b: Backend, n: nat)
    ensures forall a {:trigger ListOf(lru, a)} :: a != b ==>
      ListOf(lru[b := Touch(ListOf(lru, b), n)], a) == ListOf(lru, a)
  {
  }

  lemma OrderUnchanged(t: Tree, lru: Lru, b: Backend, h: Path)
    requires Shape(t) && LruOk(t, lru)
    ensures OthersOrder(t, lru, t, lru, b, h)
  {
    SameShapeSelf(t);
    SameShapeRegions(t, t);
    OrderSame(t, lru, t, lru, b, h);
  }

  lemma OrderLists(t: Tree, lru: Lru, t': Tree, lru': Lru, b: Backend, h: Path)
    requires OthersOrder(t, lru, t', lru', b, h)
    ensures forall a {:trigger ListOf(lru', a)} :: a != b ==>
      ListOf(lru, a) <= ListOf(lru', a) && |ListOf(lru', a)| <= |ListOf(lru, a)| + 1
  {
  }

  /** Evicting for `b` leaves the lists of the others as they are. */
  lemma EvictOrder(t0: Tree, lru0: Lru, t: Tree, lru: Lru, t': Tree, lru': Lru, b: Backend, h: Path, cap: int)
    requires OthersOrder(t0, lru0, t, lru, b, h) && LruOk(t, lru) && Evicting(t, lru, t', lru', b, cap)
    ensures OthersOrder(t0, lru0, t', lru', b, h)
  {
    hide Shape, Trim, LruOk;
    SameShapeRegions(t, t');
    forall a | a != b ensures ListOf(lru', a) == ListOf(lru, a) {
      assert ListOf(lru', a) == ListOf(lru', a);
    }
    OrderThen(t0, lru0, t, lru, t', lru', b, h);
  }

  lemma SameShapeSelf(t: Tree)
    ensures SameShape(t, t)
  {
  }

  lemma SmallPacked(t: Tree, sp: set<Path>)
    requires Small(t, sp)
    ensures Packed(t, sp, 0)
  {
  }

  lemma SameSize(t: Tree, t': Tree)
    requires SameShape(t, t')
    ensures |t'.nodes| == |t.nodes|
  {
  }

  lemma HeadKept(t: Tree, t': Tree, n: nat)
    requires SameShape(t, t') && n < |t.nodes|
    ensures |t'.nodes| == |t.nodes| && t'.nodes[n].children == t.nodes[n].children
    ensures t'.locus == t.locus && t'.path == t.path
  {
    assert t'.nodes[n].edge == t.nodes[n].edge;
  }

  lemma GrewParts(t: Tree, t': Tree, h: Path, sp: set<Path>, k: nat)
    requires Grew(t, t', h, sp, k)
    ensures Packed(t', sp + {h}, 0) && h in t'.path && t.path <= t'.path && |t'.nodes| <= |t.nodes| + k
  {
  }

  /** Where the walk leaves the tree, the list has no node yet. */
  lemma WalkBranches(t0: Tree, s0: seq<nat>, t: Tree, lru: Lru, b: Backend, h: Path, i: nat, chain: seq<nat>, u: nat)
    requires Walk(t0, s0, t, lru, b, h, i, chain) && Sized(t)
    requires u < |t.nodes| && i < |h| && t.path[u] == h[..i] && h[i] !in t.nodes[u].children
    ensures h !in t.path
  {
    BranchIsNew(t, u, h, i);
  }

  lemma WalkDiverges(t0: Tree, s0: seq<nat>, t: Tree, lru: Lru, b: Backend, h: Path, i: nat, chain: seq<nat>,
                     u: nat, c: nat, j: nat)
    requires Walk(t0, s0, t, lru, b, h, i, chain) && Sized(t)
    requires u < |t.nodes| && i < |h| && t.path[u] == h[..i]
    requires h[i] in t.nodes[u].children && c == t.nodes[u].children[h[i]] && c < |t.nodes|
    requires 1 <= j < |t.nodes[c].edge| && i + j <= |h| && t.nodes[c].edge[..j] == h[i..i + j]
    requires i + j < |h| ==> t.nodes[c].edge[j] != h[i + j]
    ensures h !in t.path
  {
    DivergeIsNew(t, u, c, h, i, j);
  }

  /** All prefixes of an inserted list are in the tree, and nothing else is new. */
  lemma AllPrefixes(t: Tree, t': Tree, h: Path, sp: set<Path>, k: nat, s0: seq<nat>, c0: set<Path>, chain: seq<nat>,
                    s: seq<nat>, cap: int)
    requires Grew(t, t', h, sp, k) && Inserted(t', s0, c0, h, chain, s, cap)
    ensures t'.locus.Keys == t.locus.Keys + Prefixes(h)
  {
    forall p | p in Prefixes(h) ensures p in t'.locus {
      assert p in Region(t', chain);
    }
  }

  lemma MatchStart(t: Tree, h: Path)
    requires Shape(t)
    ensures Sized(t) && t.path[0] == h[..0]
    ensures StillAlive(t, None, h, 0) && Reported(t, map[], h, 0)
  {
  }

  lemma MatchChild(t: Tree, u: nat, k: int)
    requires Shape(t) && u < |t.nodes| && k in t.nodes[u].children
    ensures t.nodes[u].children[k] < |t.nodes|
  {
    assert ChildOk(t, u, k);
  }

  /** After `i` blocks, the backends still on the walk are those that hold at least these. */
  ghost predicate StillAlive(t: Tree, alive: Option<set<Backend>>, h: Path, i: nat) {
    (alive.None? <==> i == 0)
    && (alive.Some? ==> forall b {:trigger Cov(t, b)} :: b in alive.value <==> Depth(Cov(t, b), h) >= i)
  }

  /** After `i` blocks, everybody's depth up to there is reported. */
  ghost predicate Reported(t: Tree, best: map<Backend, nat>, h: Path, i: nat) {
    forall b {:trigger Cov(t, b)} ::
      && (b in best <==> Depth(Cov(t, b), h) > 0 && i > 0)
      && (b in best ==> best[b] == if Depth(Cov(t, b), h) < i then Depth(Cov(t, b), h) else i)
  }

  ghost predicate Exact(t: Tree, best: map<Backend, nat>, h: Path) {
    forall b {:trigger Cov(t, b)} ::
      (b in best <==> Depth(Cov(t, b), h) > 0) && (b in best ==> best[b] == Depth(Cov(t, b), h))
  }

  /** Nobody holds more than what was walked. */
  lemma ReportedExact(t: Tree, best: map<Backend, nat>, h: Path, i: nat)
    requires Reported(t, best, h, i)
    requires i == |h| || forall b {:trigger Cov(t, b)} :: Depth(Cov(t, b), h) <= i
    ensures Exact(t, best, h)
  {
    hide Depth, Cov;
  }

  /** `c`'s holders carry on for `j` blocks and nobody else does. */
  ghost predicate CarriesOn(t: Tree, holders: set<Backend>, h: Path, i: nat, j: nat) {
    j > 0 && forall b {:trigger Cov(t, b)} :: Depth(Cov(t, b), h) >= i ==>
      if b in holders then Depth(Cov(t, b), h) >= i + j else Depth(Cov(t, b), h) == i
  }

  lemma AliveStep(t: Tree, alive: Option<set<Backend>>, holders: set<Backend>, h: Path, i: nat, j: nat)
    requires StillAlive(t, alive, h, i) && CarriesOn(t, holders, h, i, j)
    ensures StillAlive(t, Some(if alive.None? then holders else alive.value * holders), h, i + j)
  {
    hide Depth, Cov;
  }

  lemma ReportStep(t: Tree, c: nat, alive: set<Backend>, best: map<Backend, nat>, h: Path, i: nat, j: nat)
    requires c < |t.nodes| && CarriesOn(t, t.nodes[c].holders.Keys, h, i, j)
    requires Reported(t, best, h, i) && StillAlive(t, Some(alive), h, i + j)
    ensures Reported(t, map b | b in best.Keys + alive :: if b in alive then i + j else best[b], h, i + j)
  {
    hide Depth, Cov;
  }

  lemma NobodyLeft(t: Tree, c: nat, best: map<Backend, nat>, h: Path, i: nat, j: nat)
    requires c < |t.nodes| && CarriesOn(t, t.nodes[c].holders.Keys, h, i, j)
    requires Reported(t, best, h, i) && StillAlive(t, Some({}), h, i + j)
    ensures Exact(t, best, h)
  {
    hide Depth, Cov;
  }

  /** With no child for the next block, nobody holds more than what was walked. */
  lemma MatchStops(t: Tree, u: nat, h: Path, i: nat)
    requires Shape(t) && u < |t.nodes| && i < |h| && t.path[u] == h[..i]
    requires h[i] !in t.nodes[u].children
    ensures forall b {:trigger Cov(t, b)} :: Depth(Cov(t, b), h) <= i
  {
    StepFromNode(t, u, h[i]);
    assert h[..i] + [h[i]] == h[..i + 1];
  }

  /** Walking `j` blocks along the edge into `c` carries on exactly the backends that hold `c`. */
  lemma MatchStep(t: Tree, u: nat, c: nat, h: Path, i: nat, j: nat)
    requires Shape(t) && u < |t.nodes| && i < |h| && t.path[u] == h[..i]
    requires h[i] in t.nodes[u].children && c == t.nodes[u].children[h[i]] && c < |t.nodes|
    requires j <= |t.nodes[c].edge| && i + j <= |h| && t.nodes[c].edge[..j] == h[i..i + j]
    requires j < |t.nodes[c].edge| && i + j < |h| ==> t.nodes[c].edge[j] != h[i + j]
    ensures j > 0 && CarriesOn(t, t.nodes[c].holders.Keys, h, i, j)
    ensures j == |t.nodes[c].edge| ==> t.path[c] == h[..i + j]
    ensures j < |t.nodes[c].edge| ==> forall b {:trigger Cov(t, b)} :: Depth(Cov(t, b), h) <= i + j
  {
    assert ChildOk(t, u, h[i]);
    assert t.nodes[c].edge[0] == h[i];
    RunOnEdge(t, u, c, h, i, j);
    assert NodeOk(t, c);
    forall b | Depth(Cov(t, b), h) >= i
      ensures if b in t.nodes[c].holders then Depth(Cov(t, b), h) >= i + j else Depth(Cov(t, b), h) == i
    {
      var d := Depth(Cov(t, b), h);
      assert h[..i + 1] in t.locus && t.locus[h[..i + 1]] == c;
      assert forall k :: i < k <= i + j ==> (h[..k] in Cov(t, b) <==> b in t.nodes[c].holders);
    }
    assert t.path[c][..|t.path[c]|] == t.path[c];
  }
}
