/** What a whole run of inserts and removals lets the router believe.

A run is a list of operations on one tree.  The theorems compare the compressed, bounded, evicting
tree with the run itself: the answer to a query is never more than the longest common prefix of the
query with a list inserted for that backend since its last removal, and exactly that when the
backend's prefixes have fitted in its capacity throughout.
 */
module RoutingHistory {
  import opened Basics
  import opened PrefixSets
  import opened TreeShape
  import opened Holdings
  import opened InsertProof
  import opened Compression
  import opened Recency
  import opened RadixTree

  datatype Op = Insert(hashes: Path, backend: Backend) | Remove(backend: Backend)

  /** The lists inserted for `b` since `b` was last removed. */
  function Live(ops: seq<Op>, b: Backend): seq<Path> {
    if ops == [] then [] else
      var before := Live(ops[..|ops| - 1], b);
      var op := ops[|ops| - 1];
      if op.backend != b then before
      else if op.Remove? then []
      else before + [op.hashes]
  }

  /** All prefixes of all the lists. */
  ghost function Union(ls: seq<Path>): set<Path> {
    if ls == [] then {} else Union(ls[..|ls| - 1]) + Prefixes(ls[|ls| - 1])
  }

  /** The longest common prefix of `h` with any of the lists. */
  function LongestShared(ls: seq<Path>, h: Path): (n: nat)
    ensures n <= |h|
    ensures forall i :: 0 <= i < |ls| ==> CommonPrefix(ls[i], h) <= n
    ensures n > 0 ==> exists i :: 0 <= i < |ls| && CommonPrefix(ls[i], h) == n
  {
    if ls == [] then 0 else
      var before := LongestShared(ls[..|ls| - 1], h);
      var last := CommonPrefix(ls[|ls| - 1], h);
      if before < last then last else before
  }

  /** Since `b` was last removed, the prefixes it was given never exceeded the capacity. */
  ghost predicate Fits(ops: seq<Op>, b: Backend, cap: int) {
    || ops == [] || ops[|ops| - 1] == Remove(b)
    || (Fits(ops[..|ops| - 1], b, cap) && |Union(Live(ops, b))| <= Max(cap, 0))
  }

  /** A prefix of `h` is in the union exactly when it is within the longest shared length. */
  lemma {:induction false} UnionShared(ls: seq<Path>, h: Path, k: nat)
    requires 1 <= k <= |h|
    ensures h[..k] in Union(ls) <==> k <= LongestShared(ls, h)
  {
    if ls != [] {
      UnionShared(ls[..|ls| - 1], h, k);
      PrefixShared(ls[|ls| - 1], h, k);
    }
  }

  /** Matching against the union of the lists finds the longest shared length. */
  lemma DepthOfUnion(ls: seq<Path>, h: Path)
    ensures Depth(Union(ls), h) == LongestShared(ls, h)
  {
    var n := LongestShared(ls, h);
    forall k | 1 <= k <= |h| ensures h[..k] in Union(ls) <==> k <= n {
      UnionShared(ls, h, k);
    }
    DepthUnique(Union(ls), h, n);
  }

  lemma {:induction false} UnionMembers(ls: seq<Path>, p: Path)
    ensures p in Union(ls) <==> exists g :: g in ls && p in Prefixes(g)
  {
    if ls != [] {
      UnionMembers(ls[..|ls| - 1], p);
      assert ls == ls[..|ls| - 1] + [ls[|ls| - 1]];
    }
  }

  /** Only which lists there are matters, not their order or repetition. */
  lemma SameLists(a: seq<Path>, b: seq<Path>, h: Path)
    requires forall g :: g in a <==> g in b
    ensures Union(a) == Union(b) && LongestShared(a, h) == LongestShared(b, h)
  {
    forall p ensures p in Union(a) <==> p in Union(b) {
      UnionMembers(a, p);
      UnionMembers(b, p);
    }
    DepthOfUnion(a, h);
    DepthOfUnion(b, h);
  }

  ghost predicate InsertOnly(ops: seq<Op>) {
    forall i :: 0 <= i < |ops| ==> ops[i].Insert?
  }

  ghost predicate InsertedFor(ops: seq<Op>, b: Backend, p: Path) {
    exists op :: op in ops && op.Insert? && op.backend == b && p in Prefixes(op.hashes)
  }

  lemma {:induction false} InsertOnlyUnion(ops: seq<Op>, b: Backend, p: Path)
    requires InsertOnly(ops)
    ensures p in Union(Live(ops, b)) <==> InsertedFor(ops, b, p)
  {
    if ops != [] {
      var init, op := ops[..|ops| - 1], ops[|ops| - 1];
      assert ops == init + [op];
      InsertOnlyUnion(init, b, p);
      var before := Live(init, b);
      assert (before + [op.hashes])[..|before|] == before;
      if InsertedFor(init, b, p) {
        var o :| o in init && o.Insert? && o.backend == b && p in Prefixes(o.hashes);
        assert o in ops;
      }
      assert op in ops;
    }
  }

  /** Without removals, neither the order nor the repetition of operations matters. */
  lemma OrderIndependent(ops1: seq<Op>, ops2: seq<Op>, b: Backend, h: Path)
    requires InsertOnly(ops1) && InsertOnly(ops2)
    requires forall op :: op in ops1 <==> op in ops2
    ensures Union(Live(ops1, b)) == Union(Live(ops2, b))
    ensures LongestShared(Live(ops1, b), h) == LongestShared(Live(ops2, b), h)
  {
    forall p ensures p in Union(Live(ops1, b)) <==> p in Union(Live(ops2, b)) {
      InsertOnlyUnion(ops1, b, p);
      InsertOnlyUnion(ops2, b, p);
    }
    DepthOfUnion(Live(ops1, b), h);
    DepthOfUnion(Live(ops2, b), h);
  }

  lemma DepthMonotone(c: set<Path>, c': set<Path>, h: Path)
    requires c <= c'
    ensures Depth(c, h) <= Depth(c', h)
  {
    var d, d' := Depth(c, h), Depth(c', h);
    assert forall k :: 1 <= k <= d ==> h[..k] in c;
    assert !(d' < d);
  }

  lemma CoveredWhole(c: set<Path>, g: Path, h: Path)
    requires Prefixes(g) <= c && g <= h
    ensures Depth(c, h) >= |g|
  {
    assert forall k :: 1 <= k <= |g| ==> h[..k] == g[..k] && g[..k] in Prefixes(g);
    var d := Depth(c, h);
    assert forall k :: 1 <= k <= |g| ==> h[..k] in c;
    assert !(d < |g|);
  }

  /** How one operation may change what `b` holds. */
  ghost predicate CovStep(c: set<Path>, op: Op, b: Backend, c': set<Path>, cap: int) {
    if op.backend != b then c' == c
    else if op.Remove? then c' == {}
    else c' <= c + Prefixes(op.hashes) && (|c + Prefixes(op.hashes)| <= Max(cap, 0) ==> c' == c + Prefixes(op.hashes))
  }

  /** One step keeps coverage below, and while everything fits equal to, the live union. */
  lemma UnionStep(ops: seq<Op>, b: Backend, c: set<Path>, c': set<Path>, cap: int)
    requires ops != [] && CovStep(c, ops[|ops| - 1], b, c', cap)
    requires c <= Union(Live(ops[..|ops| - 1], b))
    requires Fits(ops[..|ops| - 1], b, cap) ==> c == Union(Live(ops[..|ops| - 1], b))
    ensures c' <= Union(Live(ops, b))
    ensures Fits(ops, b, cap) ==> c' == Union(Live(ops, b))
  {
    var op := ops[|ops| - 1];
    var before := Live(ops[..|ops| - 1], b);
    if op.backend == b && op.Insert? {
      assert (before + [op.hashes])[..|before|] == before;
      assert Union(Live(ops, b)) == Union(before) + Prefixes(op.hashes);
    }
  }

  lemma UnionFits(c: set<Path>, h: Path, cap: int)
    ensures h == [] ==> Prefixes(h) == {}
    ensures h != [] && |c + Prefixes(h)| <= Max(cap, 0) ==> |c + Prefixes(h)| <= cap
  {
    if h != [] {
      assert h == h[..|h|] && h in c + Prefixes(h);
    }
  }

  /** The lists an operation gives to the tree. */
  function Lists1(op: Op): set<Path> {
    if op.Insert? && op.hashes != [] then {op.hashes} else {}
  }

  /** All lists ever inserted, for whomever. */
  function Given(ops: seq<Op>): set<Path> {
    if ops == [] then {} else Given(ops[..|ops| - 1]) + Lists1(ops[|ops| - 1])
  }

  ghost function GivenPrefixes(ops: seq<Op>): set<Path> {
    if ops == [] then {} else
      var op := ops[|ops| - 1];
      GivenPrefixes(ops[..|ops| - 1]) + if op.Insert? then Prefixes(op.hashes) else {}
  }

  /** Apply one operation to a tree. */
  method Apply(t: RadixTree, op: Op)
    requires t.Valid()
    modifies t
    ensures t.Valid()
    ensures forall b {:trigger t.Covered(b)} :: CovStep(old(t.Covered(b)), op, b, t.Covered(b), t.cap)
    ensures op.Insert? && |op.hashes| <= t.cap ==> Prefixes(op.hashes) <= t.Covered(op.backend)
    ensures t.spelled == old(t.spelled) + Lists1(op)
    ensures t.locus.Keys == old(t.locus.Keys) + if op.Insert? then Prefixes(op.hashes) else {}
    ensures |t.nodes| <= old(|t.nodes|) + 2
  {
    hide RadixTree.Valid, RadixTree.Covered, Prefixes, Inserted, ListOf, SameShape, OthersKept, OthersOrder;
    NoPrefixes();
    match op
    case Insert(h, b) =>
      UnionFits(t.Covered(b), h, t.cap);
      t.Insert(h, b);
    case Remove(b) =>
      t.RemoveBackend(b);
  }

  /** The last list inserted for `b`, unless `b` was removed since. */
  function Latest(ops: seq<Op>, b: Backend): Option<Path> {
    if ops == [] then None
    else if ops[|ops| - 1].backend != b then Latest(ops[..|ops| - 1], b)
    else if ops[|ops| - 1].Insert? then Some(ops[|ops| - 1].hashes)
    else None
  }

  /** Coverage after a run, against the run. */
  ghost predicate Tracks(t: RadixTree, ops: seq<Op>)
    reads t
  {
    forall b {:trigger t.Covered(b)} :: TracksOne(t.Covered(b), ops, b, t.cap)
  }

  /** For one backend: no more than is live, all of it while it fits, and the latest list if it fits. */
  ghost predicate TracksOne(c: set<Path>, ops: seq<Op>, b: Backend, cap: int) {
    && c <= Union(Live(ops, b))
    && (Fits(ops, b, cap) ==> c == Union(Live(ops, b)))
    && (Latest(ops, b).Some? && |Latest(ops, b).value| <= cap ==> Prefixes(Latest(ops, b).value) <= c)
  }

  /** What that says about matching. */
  lemma DepthTracks(c: set<Path>, ops: seq<Op>, b: Backend, cap: int, h: Path)
    requires TracksOne(c, ops, b, cap)
    ensures Depth(c, h) <= LongestShared(Live(ops, b), h)
    ensures Fits(ops, b, cap) ==> Depth(c, h) == LongestShared(Live(ops, b), h)
    ensures Latest(ops, b).Some? ==>
      var g := Latest(ops, b).value; |g| <= cap && g <= h ==> Depth(c, h) >= |g|
  {
    hide Prefixes, LongestShared, Live, Fits, Latest, Depth;
    DepthMonotone(c, Union(Live(ops, b)), h);
    DepthOfUnion(Live(ops, b), h);
    if Latest(ops, b).Some? && |Latest(ops, b).value| <= cap && Latest(ops, b).value <= h {
      CoveredWhole(c, Latest(ops, b).value, h);
    }
  }

  /** What the tree stores after a run, for all backends together: eviction and removal free no node. */
  ghost predicate Stores(t: RadixTree, ops: seq<Op>)
    reads t
  {
    t.spelled == Given(ops) && t.locus.Keys == GivenPrefixes(ops)
  }

  /** One more operation on a tree with a known history. */
  method Extend(t: RadixTree, ghost ops: seq<Op>, op: Op)
    requires t.Valid() && Tracks(t, ops)
    modifies t
    ensures t.Valid() && Tracks(t, ops + [op])
    ensures forall b {:trigger t.Covered(b)} :: CovStep(old(t.Covered(b)), op, b, t.Covered(b), t.cap)
    ensures op.Insert? && |op.hashes| <= t.cap ==> Prefixes(op.hashes) <= t.Covered(op.backend)
    ensures old(Stores(t, ops)) ==> Stores(t, ops + [op])
  {
    hide RadixTree.Valid, RadixTree.Covered, TracksOne, CovStep, Given, GivenPrefixes, Lists1, Prefixes;
    Apply(t, op);
    ghost var ops' := ops + [op];
    assert ops'[..|ops|] == ops;
    StoresStep(ops, op);
    forall b ensures TracksOne(t.Covered(b), ops', b, t.cap) {
      TracksStep(old(t.Covered(b)), t.Covered(b), ops, op, b, t.cap);
    }
  }

  lemma StoresStep(ops: seq<Op>, op: Op)
    ensures Given(ops + [op]) == Given(ops) + Lists1(op)
    ensures GivenPrefixes(ops + [op]) == GivenPrefixes(ops) + if op.Insert? then Prefixes(op.hashes) else {}
  {
    assert (ops + [op])[..|ops|] == ops;
  }

  lemma TracksStep(c: set<Path>, c': set<Path>, ops: seq<Op>, op: Op, b: Backend, cap: int)
    requires TracksOne(c, ops, b, cap) && CovStep(c, op, b, c', cap)
    requires op.Insert? && op.backend == b && |op.hashes| <= cap ==> Prefixes(op.hashes) <= c'
    ensures TracksOne(c', ops + [op], b, cap)
  {
    hide Union, Live, Fits, Prefixes;
    var ops' := ops + [op];
    assert ops'[..|ops|] == ops;
    UnionStep(ops', b, c, c', cap);
  }

  lemma FreshTracks(t: RadixTree)
    requires (forall b :: t.Covered(b) == {}) && t.spelled == {} && t.locus == map[]
    ensures Tracks(t, []) && Stores(t, [])
  {
    hide Cov;
  }

  /** Run `ops` on a fresh tree of capacity `cap`. */
  method Replay(cap: int, ops: seq<Op>) returns (t: RadixTree)
    ensures fresh(t) && t.Valid() && t.cap == cap && Tracks(t, ops) && Stores(t, ops)
    ensures ops != [] && ops[|ops| - 1].Insert? && |ops[|ops| - 1].hashes| <= cap ==>
      Prefixes(ops[|ops| - 1].hashes) <= t.Covered(ops[|ops| - 1].backend)
  {
    hide RadixTree.Valid, RadixTree.Covered, Tracks, Stores, Prefixes, CovStep;
    t := new RadixTree(cap);
    FreshTracks(t);
    assert ops[..0] == [];
    for i := 0 to |ops|
      invariant fresh(t) && t.Valid() && t.cap == cap && Tracks(t, ops[..i]) && Stores(t, ops[..i])
      invariant i > 0 && ops[i - 1].Insert? && |ops[i - 1].hashes| <= cap ==>
        Prefixes(ops[i - 1].hashes) <= t.Covered(ops[i - 1].backend)
    {
      Extend(t, ops[..i], ops[i]);
      assert ops[..i] + [ops[i]] == ops[..i + 1];
    }
    assert ops[..|ops|] == ops;
  }

  lemma {:induction false} UnionOfListsClosed(ls: seq<Path>)
    ensures PrefixClosed(Union(ls))
  {
    if ls != [] {
      UnionOfListsClosed(ls[..|ls| - 1]);
      PrefixesClosed(ls[|ls| - 1]);
      UnionClosed(Union(ls[..|ls| - 1]), Prefixes(ls[|ls| - 1]));
    }
  }

  /** While its prefixes fit, a backend holds every prefix of what it holds. */
  lemma FittingIsClosed(t: RadixTree, ops: seq<Op>, b: Backend)
    requires Tracks(t, ops) && Fits(ops, b, t.cap)
    ensures PrefixClosed(t.Covered(b))
  {
    hide PrefixClosed;
    UnionOfListsClosed(Live(ops, b));
    assert t.Covered(b) == Union(Live(ops, b));
  }

  /** Matching on a tree with a known history: bounded by the history, exact while everything fitted. */
  method MatchAfter(t: RadixTree, ghost ops: seq<Op>, h: Path) returns (best: map<Backend, nat>)
    requires t.Valid() && Tracks(t, ops)
    ensures forall b :: b in best ==> 0 < best[b] <= LongestShared(Live(ops, b), h)
    ensures forall b :: Fits(ops, b, t.cap) ==>
      && (b in best <==> LongestShared(Live(ops, b), h) > 0)
      && (b in best ==> best[b] == LongestShared(Live(ops, b), h))
    ensures forall b, g :: Prefixes(g) <= t.Covered(b) && 0 < |g| && g <= h ==> b in best && best[b] >= |g|
    ensures forall b :: Latest(ops, b).Some? ==>
      var g := Latest(ops, b).value; 0 < |g| <= t.cap && g <= h ==> b in best && best[b] >= |g|
  {
    hide Shape, LruOk, Cov, Prefixes, Depth, LongestShared, Union, Live, Fits, Latest;
    hide RadixTree.Valid, RadixTree.Covered, TracksOne;
    best := t.Match(h);
    forall b
      ensures Depth(t.Covered(b), h) <= LongestShared(Live(ops, b), h)
      ensures Fits(ops, b, t.cap) ==> Depth(t.Covered(b), h) == LongestShared(Live(ops, b), h)
      ensures Latest(ops, b).Some? ==>
        var g := Latest(ops, b).value; |g| <= t.cap && g <= h ==> Depth(t.Covered(b), h) >= |g|
    {
      DepthTracks(t.Covered(b), ops, b, t.cap, h);
    }
    forall b, g | Prefixes(g) <= t.Covered(b) && 0 < |g| && g <= h ensures b in best && best[b] >= |g| {
      CoveredWhole(t.Covered(b), g, h);
    }
  }

  /** After any run, matching `h`: bounded by the history, exact while everything fitted, and at least
      the list inserted last when that list fits and `h` extends it. */
  method RoutingBelief(cap: int, ops: seq<Op>, h: Path) returns (best: map<Backend, nat>)
    ensures forall b :: b in best ==> 0 < best[b] <= LongestShared(Live(ops, b), h)
    ensures forall b :: Fits(ops, b, cap) ==>
      && (b in best <==> LongestShared(Live(ops, b), h) > 0)
      && (b in best ==> best[b] == LongestShared(Live(ops, b), h))
    ensures ops != [] && ops[|ops| - 1].Insert? ==>
      var g, b := ops[|ops| - 1].hashes, ops[|ops| - 1].backend;
      0 < |g| <= cap && g <= h ==> b in best && best[b] >= |g|
  {
    hide RadixTree.Valid, RadixTree.Covered, Tracks, Stores, Prefixes, LongestShared, Live, Fits;
    var t := Replay(cap, ops);
    best := MatchAfter(t, ops, h);
  }

  /** After any run by any backends, no backend's block total exceeds the capacity. */
  method CapacityAfterRun(cap: int, ops: seq<Op>, b: Backend) returns (held: nat)
    ensures held <= Max(cap, 0)
    ensures Fits(ops, b, cap) ==> held == |Union(Live(ops, b))|
  {
    hide Shape, LruOk, Cov, Prefixes, Union, Live, Fits;
    var t := Replay(cap, ops);
    held := t.HeldBlocks(b);
  }

  /** After any run the tree has at most two nodes for each distinct list ever inserted, besides the root,
      and its edges together are as long as there are distinct prefixes of these lists. */
  method SizeAfterRun(cap: int, ops: seq<Op>) returns (nodes: nat, blocks: nat)
    ensures nodes <= 1 + 2 * |Given(ops)| && blocks == |GivenPrefixes(ops)|
  {
    hide LruOk, Cov, Prefixes, Packed, Union, Live, Fits;
    var t := Replay(cap, ops);
    EdgesCountPaths(t.View());
    nodes := |t.nodes|;
    blocks := Blocks(t.nodes, Below(|t.nodes| - 1));
  }
}
