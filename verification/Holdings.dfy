/** Which backend holds what: covered prefixes, block counts and the per-backend recency lists. */
module Holdings {
  import opened Basics
  import opened PrefixSets
  import opened TreeShape

  // ------------------------------------------------------------------ covered prefixes

  /** The prefixes backend `b` holds: those whose last block lies in the edge of a node held by `b`. */
  ghost function Cov(t: Tree, b: Backend): set<Path> {
    set p | p in t.locus && t.locus[p] < |t.nodes| && b in t.nodes[t.locus[p]].holders
  }

  /** The prefixes ending in the edge of one of the nodes of `s`. */
  ghost function Region(t: Tree, s: seq<nat>): set<Path> {
    set p | p in t.locus && t.locus[p] in s
  }

  ghost predicate AllNodes(t: Tree, s: seq<nat>) {
    forall i :: 0 <= i < |s| ==> 0 < s[i] < |t.nodes|
  }

  ghost predicate InArena(nodes: seq<Node>, s: seq<nat>) {
    forall i :: 0 <= i < |s| ==> s[i] < |nodes|
  }

  /** Sum of the edge lengths of the nodes listed in `s`. */
  function Blocks(nodes: seq<Node>, s: seq<nat>): nat
    requires InArena(nodes, s)
  {
    if s == [] then 0 else |nodes[s[0]].edge| + Blocks(nodes, s[1..])
  }

  lemma {:induction false} BlocksConcat(nodes: seq<Node>, s: seq<nat>, r: seq<nat>)
    requires InArena(nodes, s) && InArena(nodes, r)
    ensures Blocks(nodes, s + r) == Blocks(nodes, s) + Blocks(nodes, r)
  {
    if s == [] {
      assert s + r == r;
    } else {
      assert (s + r)[1..] == s[1..] + r;
      BlocksConcat(nodes, s[1..], r);
    }
  }

  lemma EdgeRegionSize(t: Tree, n: nat)
    requires Shape(t) && 0 < n < |t.nodes|
    ensures |Region(t, [n])| == |t.nodes[n].edge|
  {
    assert NodeOk(t, n);
    var p := t.path[n];
    var lo := |t.path[t.parent[n]]|;
    var ks := set k | lo < k <= |p| :: p[..k];
    forall q | q in Region(t, [n]) ensures q in ks {
      assert LocusOk(t, q);
      assert q == p[..|q|];
    }
    forall q | q in ks ensures q in Region(t, [n]) {
      assert OnEdge(t, q, n);
    }
    assert Region(t, [n]) == ks;
    PrefixRangeSize(p, lo);
  }

  lemma RegionConcat(t: Tree, s: seq<nat>, r: seq<nat>)
    ensures Region(t, s + r) == Region(t, s) + Region(t, r)
  {
  }

  lemma RegionDisjoint(t: Tree, n: nat, r: seq<nat>)
    requires n !in r
    ensures Region(t, [n]) !! Region(t, r)
  {
  }

  /** Edges do not overlap, so the blocks of distinct nodes add up to the prefixes they cover. */
  lemma {:induction false} RegionSize(t: Tree, s: seq<nat>)
    requires Shape(t) && AllNodes(t, s) && NoDup(s)
    ensures |Region(t, s)| == Blocks(t.nodes, s)
  {
    if s == [] {
      assert Region(t, s) == {};
    } else {
      RegionSize(t, s[1..]);
      EdgeRegionSize(t, s[0]);
      assert s == [s[0]] + s[1..];
      RegionConcat(t, [s[0]], s[1..]);
      RegionDisjoint(t, s[0], s[1..]);
      assert |Region(t, s)| == |Region(t, [s[0]])| + |Region(t, s[1..])|;
    }
  }

  // ------------------------------------------------------------------ recency lists

  /** Remove `n` from `s`, keeping the order of the rest. */
  function Without(s: seq<nat>, n: nat): (r: seq<nat>)
    ensures forall x :: x in r <==> x in s && x != n
    ensures |r| <= |s|
  {
    if s == [] then [] else
      var rest := Without(s[1..], n);
      assert s == [s[0]] + s[1..];
      if s[0] == n then rest else [s[0]] + rest
  }

  /** Make `n` the most recently used entry. */
  function Touch(s: seq<nat>, n: nat): (r: seq<nat>)
    ensures forall x :: x in r <==> x in s || x == n
  {
    Without(s, n) + [n]
  }

  ghost function TouchAll(s: seq<nat>, chain: seq<nat>): seq<nat> {
    if chain == [] then s else Touch(TouchAll(s, chain[..|chain| - 1]), chain[|chain| - 1])
  }

  lemma TouchAllSnoc(s: seq<nat>, chain: seq<nat>, n: nat)
    ensures TouchAll(s, chain + [n]) == Touch(TouchAll(s, chain), n)
  {
    assert (chain + [n])[..|chain|] == chain;
  }

  lemma {:induction false} WithoutNoDup(s: seq<nat>, n: nat)
    requires NoDup(s)
    ensures NoDup(Without(s, n))
  {
    if s != [] {
      WithoutNoDup(s[1..], n);
      var rest := Without(s[1..], n);
      assert forall i :: 0 <= i < |rest| ==> rest[i] in rest;
      assert forall x :: x in s[1..] ==> x != s[0];
    }
  }

  lemma TouchNoDup(s: seq<nat>, n: nat)
    requires NoDup(s)
    ensures NoDup(Touch(s, n))
  {
    WithoutNoDup(s, n);
    var rest := Without(s, n);
    assert forall i :: 0 <= i < |rest| ==> rest[i] in rest;
  }

  lemma {:induction false} WithoutAbsent(s: seq<nat>, n: nat)
    requires n !in s
    ensures Without(s, n) == s
  {
    if s != [] {
      assert s == [s[0]] + s[1..];
      WithoutAbsent(s[1..], n);
    }
  }

  lemma {:induction false} WithoutConcat(s: seq<nat>, r: seq<nat>, n: nat)
    ensures Without(s + r, n) == Without(s, n) + Without(r, n)
  {
    if s == [] {
      assert s + r == r;
    } else {
      assert (s + r)[1..] == s[1..] + r;
      WithoutConcat(s[1..], r, n);
    }
  }

  /** Entries touched in order end up last, in that order. */
  lemma {:induction false} TouchAllEndsWith(s: seq<nat>, chain: seq<nat>) returns (rest: seq<nat>)
    requires NoDup(chain)
    ensures TouchAll(s, chain) == rest + chain
  {
    if chain == [] {
      rest := s;
      assert s + chain == s;
    } else {
      var init := chain[..|chain| - 1];
      var n := chain[|chain| - 1];
      var r := TouchAllEndsWith(s, init);
      WithoutConcat(r, init, n);
      WithoutAbsent(init, n);
      rest := Without(r, n);
      assert init + [n] == chain;
      assert rest + init + [n] == rest + chain;
    }
  }

  /** Drop least recently used entries until the rest fits in `cap` blocks. */
  function Trim(nodes: seq<Node>, s: seq<nat>, cap: int): (r: seq<nat>)
    requires InArena(nodes, s)
    ensures forall n :: n in r ==> n in s
    ensures |r| <= |s| && r == s[|s| - |r|..]
    ensures Blocks(nodes, r) <= cap || r == []
    ensures Blocks(nodes, s) <= cap <==> (r == s && (s == [] ==> 0 <= cap))
  {
    if s != [] && Blocks(nodes, s) > cap then
      var r := Trim(nodes, s[1..], cap);
      assert s == [s[0]] + s[1..];
      r
    else s
  }

  /** A tail that fits is never dropped. */
  lemma {:induction false} TrimKeepsTail(nodes: seq<Node>, rest: seq<nat>, tail: seq<nat>, cap: int)
    requires InArena(nodes, rest) && InArena(nodes, tail)
    requires Blocks(nodes, tail) <= cap
    ensures exists r :: Trim(nodes, rest + tail, cap) == r + tail
  {
    if rest == [] || Blocks(nodes, rest + tail) <= cap {
      assert [] + tail == tail;
      if rest == [] { assert Trim(nodes, rest + tail, cap) == [] + tail; }
    } else {
      assert (rest + tail)[1..] == rest[1..] + tail;
      TrimKeepsTail(nodes, rest[1..], tail, cap);
    }
  }

  // ------------------------------------------------------------------ holders and lists agree

  type Lru = map<Backend, seq<nat>>

  /** The list of `b`, empty when `b` has none. */
  function ListOf(lru: Lru, b: Backend): seq<nat> {
    if b in lru then lru[b] else []
  }

  ghost predicate Holds(t: Tree, n: int, b: Backend) {
    0 < n < |t.nodes| && b in t.nodes[n].holders
  }

  /** `s` lists, once each, exactly the nodes that `b` holds. */
  ghost predicate Lists(t: Tree, s: seq<nat>, b: Backend) {
    NoDup(s) && forall n :: n in s <==> Holds(t, n, b)
  }

  ghost predicate LruOk(t: Tree, lru: Lru) {
    forall b {:trigger ListOf(lru, b)} :: Lists(t, ListOf(lru, b), b)
  }

  /** What a backend covers is the region of its list, and its block total counts it. */
  lemma CovIsRegion(t: Tree, s: seq<nat>, b: Backend)
    requires Shape(t) && Lists(t, s, b)
    ensures AllNodes(t, s)
    ensures Cov(t, b) == Region(t, s)
    ensures |Cov(t, b)| == Blocks(t.nodes, s)
  {
    assert forall i :: 0 <= i < |s| ==> s[i] in s;
    assert forall n :: n in s ==> Holds(t, n, b);
    forall p | p in t.locus ensures p in Cov(t, b) <==> p in Region(t, s) {
      assert LocusOk(t, p);
      assert t.locus[p] in s <==> Holds(t, t.locus[p], b);
    }
    assert Cov(t, b) == Region(t, s);
    RegionSize(t, s);
  }

  // ------------------------------------------------------------------ effect of the updates

  ghost function WithHolders(t: Tree, n: nat, hs: map<Backend, nat>): Tree
    requires n < |t.nodes|
  {
    t.(nodes := t.nodes[n := t.nodes[n].(holders := hs)])
  }

  /** Recording `b` on node `n` adds the prefixes of that edge to `b` and changes nobody else. */
  lemma HoldEffect(t: Tree, lru: Lru, n: nat, b: Backend, clock: nat)
    requires Shape(t) && LruOk(t, lru) && 0 < n < |t.nodes|
    ensures var t' := WithHolders(t, n, t.nodes[n].holders[b := clock]);
      && SameShape(t, t') && Shape(t')
      && LruOk(t', lru[b := Touch(ListOf(lru, b), n)])
      && Cov(t', b) == Cov(t, b) + Region(t, [n])
      && (forall a :: a != b ==> Cov(t', a) == Cov(t, a))
  {
    var t' := WithHolders(t, n, t.nodes[n].holders[b := clock]);
    var lru' := lru[b := Touch(ListOf(lru, b), n)];
    ShapeIgnoresHolders(t, t');
    forall a ensures Lists(t', ListOf(lru', a), a) {
      assert Lists(t, ListOf(lru, a), a);
      forall x ensures x in ListOf(lru', a) <==> Holds(t', x, a) {
        assert x in ListOf(lru, a) <==> Holds(t, x, a);
      }
      if a == b { TouchNoDup(ListOf(lru, b), n); }
    }
  }

  /** Striking `b` from the first node of its list removes that edge's prefixes from `b` only. */
  lemma DropEffect(t: Tree, lru: Lru, b: Backend)
    requires Shape(t) && LruOk(t, lru) && ListOf(lru, b) != []
    ensures var n := ListOf(lru, b)[0];
      && 0 < n < |t.nodes| && b in t.nodes[n].holders
      && var t' := WithHolders(t, n, t.nodes[n].holders - {b});
      && SameShape(t, t') && Shape(t')
      && LruOk(t', lru[b := ListOf(lru, b)[1..]])
      && Cov(t', b) == Cov(t, b) - Region(t, [n])
      && (forall a :: a != b ==> Cov(t', a) == Cov(t, a))
  {
    var s := ListOf(lru, b);
    var n := s[0];
    assert Lists(t, s, b);
    assert n in s;
    assert Holds(t, n, b);
    var t' := WithHolders(t, n, t.nodes[n].holders - {b});
    var lru' := lru[b := s[1..]];
    ShapeIgnoresHolders(t, t');
    forall a ensures Lists(t', ListOf(lru', a), a) {
      assert Lists(t, ListOf(lru, a), a);
      forall x ensures x in ListOf(lru', a) <==> Holds(t', x, a) {
        assert x in ListOf(lru, a) <==> Holds(t, x, a);
        assert s == [n] + s[1..];
      }
    }
  }

  /** A new leaf is held by nobody: no coverage changes. */
  lemma AddLeafCov(t: Tree, lru: Lru, u: nat, suffix: Path)
    requires CanAddLeaf(t, u, suffix) && LruOk(t, lru)
    ensures var t' := AddLeaf(t, u, suffix);
      && Shape(t') && LruOk(t', lru)
      && (forall a :: Cov(t', a) == Cov(t, a))
      && Region(t', [|t.nodes|]) == (set k | |t.path[u]| < k <= |t.path[u] + suffix| :: (t.path[u] + suffix)[..k])
      && (forall s :: AllNodes(t, s) ==> Region(t', s) == Region(t, s))
  {
    AddLeafShape(t, u, suffix);
    var t' := AddLeaf(t, u, suffix);
    var m := |t.nodes|;
    var full := t.path[u] + suffix;
    forall a ensures Lists(t', ListOf(lru, a), a) && Cov(t', a) == Cov(t, a) {
      assert Lists(t, ListOf(lru, a), a);
      forall x ensures Holds(t', x, a) <==> Holds(t, x, a) {}
      forall p ensures p in Cov(t', a) <==> p in Cov(t, a) {
        if p in t.locus { assert LocusOk(t, p); }
      }
    }
    forall p ensures p in Region(t', [m]) <==> exists k :: |t.path[u]| < k <= |full| && p == full[..k] {
      if p in t.locus {
        assert LocusOk(t, p);
        if k :| |t.path[u]| < k <= |full| && p == full[..k] {
          AddLeafAbsent(t, u, suffix, k);
          assert false;
        }
      }
    }
    forall s | AllNodes(t, s) ensures Region(t', s) == Region(t, s) {
      forall p | p in t.locus ensures p in t'.locus && t'.locus[p] == t.locus[p] {}
      forall p | p in t'.locus && p !in t.locus ensures t'.locus[p] !in s {}
    }
  }

  ghost function TrackAll(lru: Lru, bs: set<Backend>, m: nat): Lru {
    map b | b in lru.Keys + bs :: if b in bs then Touch(ListOf(lru, b), m) else lru[b]
  }

  lemma SplitLists(t: Tree, lru: Lru, c: nat, j: nat)
    requires CanSplit(t, c, j) && LruOk(t, lru)
    ensures LruOk(Split(t, c, j), TrackAll(lru, t.nodes[c].holders.Keys, |t.nodes|))
  {
    var t' := Split(t, c, j);
    var m := |t.nodes|;
    var bs := t.nodes[c].holders.Keys;
    var lru' := TrackAll(lru, bs, m);
    forall a ensures Lists(t', ListOf(lru', a), a) {
      var s := ListOf(lru, a);
      assert Lists(t, s, a);
      forall x ensures x in ListOf(lru', a) <==> Holds(t', x, a) {
        assert x in s <==> Holds(t, x, a);
      }
      if a in bs { TouchNoDup(s, m); }
    }
  }

  lemma SplitSameCov(t: Tree, c: nat, j: nat, a: Backend)
    requires CanSplit(t, c, j)
    ensures Cov(Split(t, c, j), a) == Cov(t, a)
  {
    var t' := Split(t, c, j);
    forall p | p in t.locus ensures p in Cov(t', a) <==> p in Cov(t, a) {
      assert LocusOk(t, p);
    }
  }

  lemma SplitHead(t: Tree, c: nat, j: nat)
    requires CanSplit(t, c, j)
    ensures Region(Split(t, c, j), [|t.nodes|]) ==
      (set k | |t.path[t.parent[c]]| < k <= |t.path[t.parent[c]]| + j :: t.path[c][..k])
  {
    var t' := Split(t, c, j);
    var m := |t.nodes|;
    var lo := |t.path[t.parent[c]]|;
    forall p ensures p in Region(t', [m]) <==> exists k :: lo < k <= lo + j && p == t.path[c][..k] {
      if p in Region(t', [m]) {
        assert LocusOk(t, p);
        assert p == t.path[c][..|p|];
      }
      if k :| lo < k <= lo + j && p == t.path[c][..k] {
        assert OnEdge(t, p, c);
      }
    }
  }

  lemma SplitOthers(t: Tree, c: nat, j: nat, s: seq<nat>)
    requires CanSplit(t, c, j) && AllNodes(t, s) && c !in s
    ensures Region(Split(t, c, j), s) == Region(t, s)
  {
    var t' := Split(t, c, j);
    forall p | p in t.locus ensures t'.locus[p] in s <==> t.locus[p] in s {
      assert LocusOk(t, p);
    }
  }

  /** Splitting an edge moves prefixes between nodes but changes no backend's coverage. */
  lemma SplitCov(t: Tree, lru: Lru, c: nat, j: nat)
    requires CanSplit(t, c, j) && LruOk(t, lru)
    ensures var t' := Split(t, c, j);
      && Shape(t') && LruOk(t', TrackAll(lru, t.nodes[c].holders.Keys, |t.nodes|))
      && (forall a :: Cov(t', a) == Cov(t, a))
      && Region(t', [|t.nodes|]) ==
           (set k | |t.path[t.parent[c]]| < k <= |t.path[t.parent[c]]| + j :: t.path[c][..k])
      && (forall s :: AllNodes(t, s) && c !in s ==> Region(t', s) == Region(t, s))
  {
    hide LruOk, Region, Cov, AllNodes, Split, TrackAll;
    SplitShape(t, c, j);
    SplitLists(t, lru, c, j);
    SplitHead(t, c, j);
    forall a ensures Cov(Split(t, c, j), a) == Cov(t, a) {
      SplitSameCov(t, c, j, a);
    }
    forall s | AllNodes(t, s) && c !in s ensures Region(Split(t, c, j), s) == Region(t, s) {
      SplitOthers(t, c, j, s);
    }
  }
}
