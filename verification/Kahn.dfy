/** Level-by-level Kahn with cycle detection (gateway/dag/graph.py). */
module Kahn {
  import opened Basics
  import opened DagGraph

  // ------------------------------------------------------------------ loop invariants as values

  /** Each parent lists a child as often as the child lists the parent. */
  ghost predicate KidsOk(g: Graph, kids: map<string, seq<string>>) {
    && kids.Keys == g.Keys
    && (forall p, i :: p in kids && 0 <= i < |kids[p]| ==> kids[p][i] in g)
    && (forall p, c {:trigger Occ(kids[p], c)} :: p in g && c in g ==> Occ(kids[p], c) == Occ(g[c], p))
  }

  /** Each counter is the number of parent entries not done. */
  ghost predicate Counts(g: Graph, indeg: map<string, int>, done: set<string>) {
    indeg.Keys == g.Keys && forall c {:trigger indeg[c]} :: c in g ==> indeg[c] == Missing(g[c], done)
  }

  ghost predicate Ready(g: Graph, done: set<string>, barred: set<string>, c: string) {
    c in g && c !in barred && Missing(g[c], done) == 0
  }

  /** The frontier lists, once each, the nodes outside `barred` whose parents are all done. */
  ghost predicate IsFrontier(g: Graph, done: set<string>, barred: set<string>, frontier: seq<string>) {
    NoDup(frontier) && forall c :: c in frontier <==> Ready(g, done, barred, c)
  }

  /** The layers so far hold exactly the nodes that have a level, each in the layer of its level. */
  ghost predicate IsLayering(layers: seq<seq<string>>, level: map<string, nat>) {
    && (forall i :: 0 <= i < |layers| ==> NoDup(layers[i]) && Sorted(layers[i]) && layers[i] != [])
    && (forall n :: n in level ==> level[n] < |layers|)
    && (forall i, n :: 0 <= i < |layers| ==> (n in layers[i] <==> n in level && level[n] == i))
  }

  /** Partial levels: what is done has its level, and what becomes ready next waits for the last layer. */
  ghost predicate Partial(g: Graph, level: map<string, nat>, depth: nat) {
    && level.Keys <= g.Keys
    && (forall n {:trigger IsLevel(g, level, n)} :: n in level ==> IsLevel(g, level, n))
    && (forall c {:trigger Ready(g, level.Keys, level.Keys, c)} :: Ready(g, level.Keys, level.Keys, c) ==>
          depth == 0 || exists p :: p in g[c] && p in level && level[p] + 1 == depth)
  }

  // ------------------------------------------------------------------ steps

  /** The counters have gone down by the occurrences in `kids`, and those at zero have been collected. */
  ghost predicate Relaxed(kids: seq<string>, indeg: map<string, int>, frontier: seq<string>,
                          indeg': map<string, int>, frontier': seq<string>)
  {
    && indeg'.Keys == indeg.Keys
    && (forall c {:trigger indeg'[c]} :: c in indeg ==> indeg'[c] == indeg[c] - Occ(kids, c))
    && NoDup(frontier')
    && (forall c {:trigger c in frontier'} :: c in frontier' <==>
          c in frontier || (c in kids && c in indeg && indeg'[c] == 0))
  }

  /** Decrement the counters of the children of one node and collect those that reach zero. */
  method Relax(kids: seq<string>, indeg: map<string, int>, frontier: seq<string>)
    returns (indeg': map<string, int>, frontier': seq<string>)
    requires forall i :: 0 <= i < |kids| ==> kids[i] in indeg
    requires forall c :: c in indeg ==> indeg[c] >= Occ(kids, c)
    requires NoDup(frontier) && forall c :: c in frontier ==> c in indeg && indeg[c] == 0
    ensures Relaxed(kids, indeg, frontier, indeg', frontier')
  {
    hide Relaxed;
    indeg', frontier' := indeg, frontier;
    RelaxedNone(kids, indeg, frontier);
    for j := 0 to |kids|
      invariant Relaxed(kids[..j], indeg, frontier, indeg', frontier')
    {
      var c := kids[j];
      RelaxedKeys(kids[..j], indeg, frontier, indeg', frontier');
      ghost var indeg1, frontier1 := indeg', frontier';
      indeg' := indeg'[c := indeg'[c] - 1];
      if indeg'[c] == 0 {
        frontier' := frontier' + [c];
      }
      RelaxedMore(kids, j, indeg, frontier, indeg1, frontier1, indeg', frontier');
    }
    assert kids[..|kids|] == kids;
  }

  lemma RelaxedKeys(kids: seq<string>, indeg: map<string, int>, frontier: seq<string>,
                    indeg': map<string, int>, frontier': seq<string>)
    requires Relaxed(kids, indeg, frontier, indeg', frontier')
    ensures indeg'.Keys == indeg.Keys && NoDup(frontier')
    ensures forall c {:trigger indeg'[c]} :: c in indeg ==> indeg'[c] == indeg[c] - Occ(kids, c)
    ensures forall c {:trigger c in frontier'} :: c in frontier' <==>
      c in frontier || (c in kids && c in indeg && indeg'[c] == 0)
  {
    hide Occ, NoDup;
  }

  lemma RelaxedNone(kids: seq<string>, indeg: map<string, int>, frontier: seq<string>)
    requires NoDup(frontier)
    ensures Relaxed(kids[..0], indeg, frontier, indeg, frontier)
  {
  }

  lemma RelaxedMore(kids: seq<string>, j: nat, indeg: map<string, int>, frontier: seq<string>,
                    indeg1: map<string, int>, frontier1: seq<string>, indeg2: map<string, int>, frontier2: seq<string>)
    requires j < |kids| && kids[j] in indeg && (forall c :: c in indeg ==> indeg[c] >= Occ(kids, c))
    requires forall c :: c in frontier ==> c in indeg && indeg[c] == 0
    requires Relaxed(kids[..j], indeg, frontier, indeg1, frontier1)
    requires kids[j] in indeg1 && indeg2 == indeg1[kids[j] := indeg1[kids[j]] - 1]
    requires frontier2 == if indeg2[kids[j]] == 0 then frontier1 + [kids[j]] else frontier1
    ensures Relaxed(kids[..j + 1], indeg, frontier, indeg2, frontier2)
  {
    hide Occ, NoDup, Relaxed;
    var c := kids[j];
    assert kids[..j + 1] == kids[..j] + [c];
    RelaxedKeys(kids[..j], indeg, frontier, indeg1, frontier1);
    PendingKid(kids, j, indeg, frontier, indeg1, frontier1);
    NoDupSnoc(frontier1, c);
    CountMore(kids[..j], c, indeg, indeg1, indeg2);
    FrontierMore(kids[..j], c, indeg, frontier, indeg1, frontier1, indeg2, frontier2);
    RelaxedIntro(kids[..j] + [c], indeg, frontier, indeg2, frontier2);
  }

  lemma RelaxedIntro(kids: seq<string>, indeg: map<string, int>, frontier: seq<string>,
                     indeg': map<string, int>, frontier': seq<string>)
    requires indeg'.Keys == indeg.Keys && NoDup(frontier')
    requires forall c {:trigger indeg'[c]} :: c in indeg ==> indeg'[c] == indeg[c] - Occ(kids, c)
    requires forall c {:trigger c in frontier'} :: c in frontier' <==>
      c in frontier || (c in kids && c in indeg && indeg'[c] == 0)
    ensures Relaxed(kids, indeg, frontier, indeg', frontier')
  {
    hide Occ, NoDup;
  }

  /** A child not yet visited still counts its parent, so it has not been collected. */
  lemma PendingKid(kids: seq<string>, j: nat, indeg: map<string, int>, frontier: seq<string>,
                   indeg1: map<string, int>, frontier1: seq<string>)
    requires j < |kids| && kids[j] in indeg && (forall c :: c in indeg ==> indeg[c] >= Occ(kids, c))
    requires forall c :: c in frontier ==> c in indeg && indeg[c] == 0
    requires Relaxed(kids[..j], indeg, frontier, indeg1, frontier1)
    ensures indeg1[kids[j]] >= 1 && kids[j] !in frontier && kids[j] !in frontier1
  {
    hide Occ, NoDup;
    var c := kids[j];
    assert kids[..j + 1] == kids[..j] + [c];
    OccPrefix(kids, j + 1, c);
    OccSnoc(kids[..j], c, c);
    assert indeg[c] >= Occ(kids, c) >= Occ(kids[..j], c) + 1;
    assert indeg1[c] == indeg[c] - Occ(kids[..j], c);
  }

  lemma CountMore(kids: seq<string>, c: string, indeg: map<string, int>, indeg1: map<string, int>,
                  indeg2: map<string, int>)
    requires indeg1.Keys == indeg.Keys && c in indeg && indeg2 == indeg1[c := indeg1[c] - 1]
    requires forall x {:trigger indeg1[x]} :: x in indeg ==> indeg1[x] == indeg[x] - Occ(kids, x)
    ensures forall x {:trigger indeg2[x]} :: x in indeg ==> indeg2[x] == indeg[x] - Occ(kids + [c], x)
  {
    hide Occ;
    forall x | x in indeg ensures indeg2[x] == indeg[x] - Occ(kids + [c], x) {
      OccSnoc(kids, c, x);
      assert indeg1[x] == indeg[x] - Occ(kids, x);
    }
  }

  lemma FrontierMore(kids: seq<string>, c: string, indeg: map<string, int>, frontier: seq<string>,
                     indeg1: map<string, int>, frontier1: seq<string>, indeg2: map<string, int>, frontier2: seq<string>)
    requires indeg1.Keys == indeg.Keys && c in indeg && indeg1[c] >= 1 && c !in frontier
    requires forall x {:trigger x in frontier1} :: x in frontier1 <==>
      x in frontier || (x in kids && x in indeg && indeg1[x] == 0)
    requires indeg2 == indeg1[c := indeg1[c] - 1]
    requires frontier2 == if indeg2[c] == 0 then frontier1 + [c] else frontier1
    ensures forall x {:trigger x in frontier2} :: x in frontier2 <==>
      x in frontier || (x in kids + [c] && x in indeg && indeg2[x] == 0)
  {
    forall x ensures x in frontier2 <==> x in frontier || (x in kids + [c] && x in indeg && indeg2[x] == 0) {
      assert x in frontier1 <==> x in frontier || (x in kids && x in indeg && indeg1[x] == 0);
      assert x in kids + [c] <==> x in kids || x == c;
      assert x in frontier1 + [c] <==> x in frontier1 || x == c;
    }
  }

  lemma NoDupSnoc(s: seq<string>, x: string)
    requires NoDup(s) && x !in s
    ensures NoDup(s + [x])
  {
  }

  /** Finishing one more node: the counters stay exact. */
  lemma RelaxCounts(g: Graph, kids: map<string, seq<string>>, indeg: map<string, int>, done: set<string>, n: string,
                    c: string)
    requires KidsOk(g, kids) && Counts(g, indeg, done) && n in g && n !in done && c in g
    ensures indeg[c] - Occ(kids[n], c) == Missing(g[c], done + {n})
  {
    MissingLess(g[c], done, n);
    assert Occ(kids[n], c) == Occ(g[c], n);
  }

  lemma ChildListsParent(g: Graph, kids: map<string, seq<string>>, n: string, c: string)
    requires KidsOk(g, kids) && n in g && c in g
    ensures c in kids[n] <==> n in g[c]
  {
    assert Occ(kids[n], c) == Occ(g[c], n);
    OccIn(kids[n], c);
    OccIn(g[c], n);
  }

  /** Finishing one more node: the frontier gains exactly the nodes that become ready. */
  lemma RelaxReady(g: Graph, kids: map<string, seq<string>>, done0: set<string>, barred: set<string>,
                   done: set<string>, n: string, c: string)
    requires KidsOk(g, kids) && n in g && n !in done && done0 <= done && c in g
    requires forall x :: x in barred ==> x in g && Missing(g[x], done0) == 0
    ensures Ready(g, done + {n}, barred, c) <==>
      Ready(g, done, barred, c) || (c in kids[n] && Missing(g[c], done + {n}) == 0)
  {
    MissingLess(g[c], done, n);
    ChildListsParent(g, kids, n, c);
    OccIn(g[c], n);
    if c in barred {
      MissingZero(g[c], done0);
    }
  }

  /** Nodes already placed, or in the current layer, have all their parents done. */
  ghost predicate Settled(g: Graph, done: set<string>, barred: set<string>) {
    forall x :: x in barred ==> x in g && Missing(g[x], done) == 0
  }

  lemma RelaxAllowed(g: Graph, kids: map<string, seq<string>>, indeg: map<string, int>, frontier: seq<string>,
                     barred: set<string>, d: set<string>, n: string)
    requires KidsOk(g, kids) && Counts(g, indeg, d) && IsFrontier(g, d, barred, frontier) && n in g && n !in d
    ensures n in kids && NoDup(frontier)
    ensures forall i :: 0 <= i < |kids[n]| ==> kids[n][i] in indeg
    ensures forall c :: c in indeg ==> indeg[c] >= Occ(kids[n], c)
    ensures forall c :: c in frontier ==> c in indeg && indeg[c] == 0
  {
    forall c | c in indeg ensures indeg[c] >= Occ(kids[n], c) {
      RelaxCounts(g, kids, indeg, d, n, c);
    }
    forall c | c in frontier ensures c in indeg && indeg[c] == 0 {
      assert Ready(g, d, barred, c);
    }
  }

  lemma RelaxOutcome(g: Graph, kids: map<string, seq<string>>, indeg: map<string, int>, frontier: seq<string>,
                     indeg': map<string, int>, frontier': seq<string>,
                     done: set<string>, barred: set<string>, d: set<string>, n: string)
    requires KidsOk(g, kids) && Counts(g, indeg, d) && IsFrontier(g, d, barred, frontier) && n in g && n !in d
    requires done <= d && Settled(g, done, barred)
    requires Relaxed(kids[n], indeg, frontier, indeg', frontier')
    ensures Counts(g, indeg', d + {n}) && IsFrontier(g, d + {n}, barred, frontier')
  {
    forall c | c in g ensures indeg'[c] == Missing(g[c], d + {n}) {
      RelaxCounts(g, kids, indeg, d, n, c);
    }
    forall c ensures c in frontier' <==> Ready(g, d + {n}, barred, c) {
      assert c in frontier <==> Ready(g, d, barred, c);
      if c in g { RelaxReady(g, kids, done, barred, d, n, c); }
    }
  }

  /** Finish one node of the layer. */
  method FinishNode(g: Graph, kids: map<string, seq<string>>, indeg: map<string, int>, frontier: seq<string>, n: string,
                    ghost done: set<string>, ghost barred: set<string>, ghost d: set<string>)
    returns (indeg': map<string, int>, frontier': seq<string>)
    requires KidsOk(g, kids) && Counts(g, indeg, d) && IsFrontier(g, d, barred, frontier) && n in g && n !in d
    requires done <= d && Settled(g, done, barred)
    ensures Counts(g, indeg', d + {n}) && IsFrontier(g, d + {n}, barred, frontier')
  {
    hide Relaxed, KidsOk, Counts, Settled;
    RelaxAllowed(g, kids, indeg, frontier, barred, d, n);
    indeg', frontier' := Relax(kids[n], indeg, frontier);
    RelaxOutcome(g, kids, indeg, frontier, indeg', frontier', done, barred, d, n);
  }

  lemma NextInLayer(layer: seq<string>, done: set<string>, k: nat)
    requires NoDup(layer) && k < |layer| && layer[k] !in done
    ensures layer[k] !in done + Elements(layer[..k])
    ensures done + Elements(layer[..k + 1]) == done + Elements(layer[..k]) + {layer[k]}
  {
    assert layer[..k + 1] == layer[..k] + [layer[k]];
    assert forall i :: 0 <= i < k ==> layer[i] != layer[k];
  }

  /** Finish the nodes of one layer, in order. */
  method FinishLayer(g: Graph, kids: map<string, seq<string>>, indeg: map<string, int>, ghost done: set<string>,
                     layer: seq<string>)
    returns (indeg': map<string, int>, frontier: seq<string>)
    requires KidsOk(g, kids) && Counts(g, indeg, done)
    requires NoDup(layer) && Pending(layer, g.Keys, done)
    requires IsFrontier(g, done, done + Elements(layer), []) && Settled(g, done, done + Elements(layer))
    ensures Counts(g, indeg', done + Elements(layer))
    ensures IsFrontier(g, done + Elements(layer), done + Elements(layer), frontier)
  {
    hide KidsOk, Counts, IsFrontier, Settled, NoDup;
    indeg', frontier := indeg, [];
    assert done + Elements(layer[..0]) == done;
    for k := 0 to |layer|
      invariant Counts(g, indeg', done + Elements(layer[..k]))
      invariant IsFrontier(g, done + Elements(layer[..k]), done + Elements(layer), frontier)
    {
      NextInLayer(layer, done, k);
      indeg', frontier := FinishNode(g, kids, indeg', frontier, layer[k], done, done + Elements(layer),
        done + Elements(layer[..k]));
    }
    assert layer[..|layer|] == layer;
  }

  // ------------------------------------------------------------------ one layer more

  /** Give every node of the new layer its level. */
  ghost function Extend(level: map<string, nat>, layer: seq<string>, depth: nat): map<string, nat> {
    map n | n in level.Keys + Elements(layer) :: if n in level then level[n] else depth
  }

  ghost predicate Below(level: map<string, nat>, depth: nat) {
    forall n :: n in level ==> level[n] < depth
  }

  lemma LayerSettled(g: Graph, level: map<string, nat>, depth: nat, layer: seq<string>)
    requires Closed(g) && Partial(g, level, depth) && IsFrontier(g, level.Keys, level.Keys, layer)
    ensures Settled(g, level.Keys, level.Keys + Elements(layer))
    ensures IsFrontier(g, level.Keys, level.Keys + Elements(layer), [])
  {
    forall x | x in level.Keys + Elements(layer) ensures x in g && Missing(g[x], level.Keys) == 0 {
      if x in level {
        assert IsLevel(g, level, x);
        MissingZero(g[x], level.Keys);
      } else {
        assert Ready(g, level.Keys, level.Keys, x);
      }
    }
    forall c ensures !Ready(g, level.Keys, level.Keys + Elements(layer), c) {
      assert c in layer <==> Ready(g, level.Keys, level.Keys, c);
    }
  }

  lemma ExtendPartial(g: Graph, level: map<string, nat>, depth: nat, layer: seq<string>)
    requires Closed(g) && Partial(g, level, depth) && IsFrontier(g, level.Keys, level.Keys, layer)
    requires Below(level, depth)
    ensures Partial(g, Extend(level, layer, depth), depth + 1)
    ensures Extend(level, layer, depth).Keys == level.Keys + Elements(layer)
  {
    var level' := Extend(level, layer, depth);
    forall n | n in level' ensures IsLevel(g, level', n) {
      if n in level {
        assert IsLevel(g, level, n);
        if level[n] > 0 {
          var p :| p in g[n] && p in level && level[p] + 1 == level[n];
          assert level'[p] + 1 == level'[n];
        }
      } else {
        assert n in layer;
        assert Ready(g, level.Keys, level.Keys, n);
        MissingZero(g[n], level.Keys);
        if depth > 0 {
          var p :| p in g[n] && p in level && level[p] + 1 == depth;
          assert level'[p] + 1 == level'[n];
        }
      }
    }
    forall c | Ready(g, level'.Keys, level'.Keys, c)
      ensures exists p :: p in g[c] && p in level' && level'[p] + 1 == depth + 1
    {
      MissingZero(g[c], level'.Keys);
      MissingZero(g[c], level.Keys);
      assert c in layer <==> Ready(g, level.Keys, level.Keys, c);
      var p :| p in g[c] && p !in level;
      assert level'[p] == depth;
    }
  }

  lemma AppendLayer(layers: seq<seq<string>>, level: map<string, nat>, layer: seq<string>)
    requires IsLayering(layers, level) && layer != [] && NoDup(layer) && Sorted(layer)
    requires forall n :: n in layer ==> n !in level
    ensures IsLayering(layers + [layer], Extend(level, layer, |layers|))
  {
    var all, level' := layers + [layer], Extend(level, layer, |layers|);
    forall i, n | 0 <= i < |all| ensures n in all[i] <==> n in level' && level'[n] == i {
      if i < |layers| {
        assert all[i] == layers[i];
        assert n in layers[i] <==> n in level && level[n] == i;
      } else {
        assert n in level ==> level[n] < |layers|;
      }
    }
    forall n | n in level' ensures level'[n] < |all| {
      if n in level { assert level[n] < |layers|; }
    }
    forall i | 0 <= i < |all| ensures NoDup(all[i]) && Sorted(all[i]) && all[i] != [] {
      if i < |layers| { assert all[i] == layers[i]; }
    }
  }

  lemma ExtendLayering(layers: seq<seq<string>>, level: map<string, nat>, frontier: seq<string>)
    requires IsLayering(layers, level) && frontier != [] && NoDup(frontier)
    requires Outside(frontier, level.Keys)
    ensures var layer := Sort(frontier);
      && IsLayering(layers + [layer], Extend(level, layer, |layers|))
      && NoDup(layer) && SameMembers(layer, frontier) && |layer| == |frontier|
  {
    hide IsLayering, Sorted, Sort, NoDup;
    SortSorts(frontier);
    SortSame(frontier);
    AppendLayer(layers, level, Sort(frontier));
  }

  ghost predicate Outside(s: seq<string>, done: set<string>) {
    forall n :: n in s ==> n !in done
  }

  ghost predicate SameMembers(s: seq<string>, r: seq<string>) {
    forall n :: n in s <==> n in r
  }

  ghost predicate Pending(s: seq<string>, all: set<string>, done: set<string>) {
    forall n :: n in s ==> n in all && n !in done
  }

  lemma SortSame(s: seq<string>)
    requires NoDup(s)
    ensures NoDup(Sort(s)) && (forall n :: n in Sort(s) <==> n in s) && |Sort(s)| == |s|
  {
    var r := Sort(s);
    assert |multiset(r)| == |multiset(s)|;
    forall n ensures n in r <==> n in s {
      assert n in multiset(r) <==> n in multiset(s);
    }
    forall i, j | 0 <= i < j < |r| ensures r[i] != r[j] {
      NoDupMultiset(s, r[i]);
      TwiceIn(r, i, j);
    }
  }

  lemma TwiceIn(r: seq<string>, i: nat, j: nat)
    requires i < j < |r|
    ensures r[i] == r[j] ==> multiset(r)[r[i]] >= 2
  {
    assert r == r[..i] + [r[i]] + r[i + 1..j] + [r[j]] + r[j + 1..];
    assert multiset(r) == multiset(r[..i]) + multiset([r[i]]) + multiset(r[i + 1..j]) + multiset([r[j]]) +
      multiset(r[j + 1..]);
  }

  lemma {:induction false} NoDupMultiset(s: seq<string>, x: string)
    requires NoDup(s)
    ensures multiset(s)[x] <= 1
  {
    if s != [] {
      assert s == [s[0]] + s[1..];
      NoDupMultiset(s[1..], x);
      if s[0] == x { assert x !in s[1..]; }
    }
  }

  /** A node of the frontier is not placed yet, and reordering a frontier leaves it one. */
  lemma SameFrontier(g: Graph, done: set<string>, frontier: seq<string>, layer: seq<string>)
    requires IsFrontier(g, done, done, frontier) && NoDup(layer) && SameMembers(layer, frontier)
    ensures IsFrontier(g, done, done, layer) && Pending(layer, g.Keys, done)
  {
    forall n ensures n in layer <==> Ready(g, done, done, n) {
      assert n in frontier <==> Ready(g, done, done, n);
    }
  }

  lemma FrontierFresh(g: Graph, done: set<string>, frontier: seq<string>)
    requires IsFrontier(g, done, done, frontier)
    ensures NoDup(frontier) && Outside(frontier, done)
  {
    forall n | n in frontier ensures n !in done {
      assert Ready(g, done, done, n);
    }
  }

  /** No frontier and nodes left over: every left-over node has a left-over parent. */
  lemma LeftOverCycle(g: Graph, done: set<string>)
    requires Closed(g) && done <= g.Keys && done != g.Keys && IsFrontier(g, done, done, [])
    ensures HasCycle(g)
  {
    var stuck := g.Keys - done;
    assert stuck != {} by {
      assert forall n :: n in g.Keys ==> n in done || n in stuck;
    }
    forall n | n in stuck ensures exists p :: p in g[n] && p in stuck {
      assert !Ready(g, done, done, n) by { assert n !in []; }
      MissingZero(g[n], done);
      var p :| p in g[n] && p !in done;
      assert p in g;
    }
    StuckHasCycle(g, stuck);
  }

  lemma ElementsSize(s: seq<string>)
    requires NoDup(s)
    ensures |Elements(s)| == |s|
  {
    NoDupSize(s);
  }

  // ------------------------------------------------------------------ collecting children

  /** Everything but the nodes still to do has been entered under its parents. */
  ghost predicate KidsDone(g: Graph, kids: map<string, seq<string>>, todo: set<string>) {
    && kids.Keys == g.Keys
    && (forall p, i :: p in kids && 0 <= i < |kids[p]| ==> kids[p][i] in g)
    && (forall p, c {:trigger Occ(kids[p], c)} :: p in g && c in g ==>
          Occ(kids[p], c) == if c in todo then 0 else Occ(g[c], p))
  }

  /** ... and of node `n` the first `j` parents have been visited. */
  ghost predicate KidsPart(g: Graph, kids: map<string, seq<string>>, todo: set<string>, n: string, j: nat) {
    && kids.Keys == g.Keys && n in g && n !in todo && j <= |g[n]|
    && (forall p, i :: p in kids && 0 <= i < |kids[p]| ==> kids[p][i] in g)
    && (forall p, c {:trigger Occ(kids[p], c)} :: p in g && c in g ==>
          Occ(kids[p], c) == if c in todo then 0 else if c == n then Occ(g[n][..j], p) else Occ(g[c], p))
  }

  lemma KidsNone(g: Graph, kids: map<string, seq<string>>)
    requires kids.Keys == g.Keys && forall p :: p in kids ==> kids[p] == []
    ensures KidsDone(g, kids, g.Keys)
  {
  }

  lemma KidsOpen(g: Graph, kids: map<string, seq<string>>, todo: set<string>, n: string)
    requires KidsDone(g, kids, todo + {n}) && n in g && n !in todo
    ensures KidsPart(g, kids, todo, n, 0)
  {
    assert g[n][..0] == [];
  }

  lemma KidsAppend(g: Graph, kids: map<string, seq<string>>, todo: set<string>, n: string, j: nat)
    requires KidsPart(g, kids, todo, n, j) && j < |g[n]| && g[n][j] in g
    ensures g[n][j] in kids && KidsPart(g, kids[g[n][j] := kids[g[n][j]] + [n]], todo, n, j + 1)
  {
    var q := g[n][j];
    var kids' := kids[q := kids[q] + [n]];
    assert g[n][..j + 1] == g[n][..j] + [q];
    forall p, c | p in g && c in g
      ensures Occ(kids'[p], c) ==
        if c in todo then 0 else if c == n then Occ(g[n][..j + 1], p) else Occ(g[c], p)
    {
      OccSnoc(kids[q], n, c);
      OccSnoc(g[n][..j], q, p);
      assert Occ(kids[p], c) == if c in todo then 0 else if c == n then Occ(g[n][..j], p) else Occ(g[c], p);
    }
  }

  lemma KidsClose(g: Graph, kids: map<string, seq<string>>, todo: set<string>, n: string)
    requires n in g && KidsPart(g, kids, todo, n, |g[n]|)
    ensures KidsDone(g, kids, todo)
  {
    assert g[n][..|g[n]|] == g[n];
  }

  lemma KidsAll(g: Graph, kids: map<string, seq<string>>)
    requires KidsDone(g, kids, {})
    ensures KidsOk(g, kids)
  {
  }

  // ------------------------------------------------------------------ the graph object

  datatype Result =
    | Layers(layers: seq<seq<string>>)
    | CycleError
    | UnknownParent(node: string, parent: string)
    | KeyError(key: string)

  class RequestDag {
    var nodes: Graph

    constructor ()
      ensures nodes == map[]
    {
      nodes := map[];
    }

    /** A duplicate id is refused. */
    method AddNode(id: string, parents: seq<string>) returns (ok: bool)
      modifies this
      ensures ok == (id !in old(nodes))
      ensures nodes == if ok then old(nodes)[id := parents] else old(nodes)
    {
      ok := id !in nodes;
      if ok {
        nodes := nodes[id := parents];
      }
    }

    /** The reverse adjacency, with multiplicity, or an unknown parent if there is one. */
    method Children() returns (unknown: Option<string>, kids: map<string, seq<string>>)
      ensures unknown.None? <==> Closed(nodes)
      ensures unknown.None? ==> KidsOk(nodes, kids)
      ensures unknown.Some? ==> unknown.value !in nodes && exists n :: n in nodes && unknown.value in nodes[n]
    {
      hide KidsPart, KidsDone, KidsOk;
      ghost var g := nodes;
      kids := map n | n in nodes :: [];
      var todo := nodes.Keys;
      KidsNone(g, kids);
      while todo != {}
        invariant todo <= g.Keys && kids.Keys == g.Keys && KidsDone(g, kids, todo)
        invariant forall n, i :: n in g && n !in todo && 0 <= i < |g[n]| ==> g[n][i] in g
        decreases todo
      {
        var n :| n in todo;
        assert todo == (todo - {n}) + {n};
        todo := todo - {n};
        KidsOpen(g, kids, todo, n);
        for j := 0 to |nodes[n]|
          invariant kids.Keys == g.Keys && KidsPart(g, kids, todo, n, j)
          invariant forall i :: 0 <= i < j ==> g[n][i] in g
        {
          var p := nodes[n][j];
          if p !in kids {
            return Some(p), kids;
          }
          KidsAppend(g, kids, todo, n, j);
          kids := kids[p := kids[p] + [n]];
        }
        KidsClose(g, kids, todo, n);
      }
      KidsAll(g, kids);
      unknown := None;
    }

    /** Sound and complete layering.  An unknown parent surfaces as a lookup error while the children are
        collected; otherwise an error exactly when there is a cycle, and else each node once, in the
        layer of its level, every layer sorted. */
    method ComputeLayers() returns (r: Result, ghost level: map<string, nat>)
      ensures r.KeyError? <==> !Closed(nodes)
      ensures r.KeyError? ==> r.key !in nodes && exists n :: n in nodes && r.key in nodes[n]
      ensures r == CycleError <==> Closed(nodes) && HasCycle(nodes)
      ensures r.Layers? <==> Closed(nodes) && !HasCycle(nodes)
      ensures r.Layers? ==> Levels(nodes, level) && IsLayering(r.layers, level)
    {
      var g := nodes;
      var indeg: map<string, int> := map n | n in g :: |g[n]|;
      var unknown, kids := Children();
      if unknown.Some? {
        return KeyError(unknown.value), map[];
      }
      r, level := PeelLayers(g, kids, indeg);
    }

    /** A node and one of its parents that does not exist, if there is one. */
    method FindUnknown() returns (found: bool, node: string, parent: string)
      ensures found ==> node in nodes && parent in nodes[node] && parent !in nodes
      ensures found <==> !Closed(nodes)
    {
      var todo := nodes.Keys;
      node, parent := "", "";
      while todo != {}
        invariant todo <= nodes.Keys
        invariant forall n, i :: n in nodes.Keys - todo && 0 <= i < |nodes[n]| ==> nodes[n][i] in nodes
        decreases todo
      {
        var n :| n in todo;
        for i := 0 to |nodes[n]|
          invariant forall j :: 0 <= j < i ==> nodes[n][j] in nodes
        {
          if nodes[n][i] !in nodes {
            return true, n, nodes[n][i];
          }
        }
        todo := todo - {n};
      }
      found := false;
    }

    /** Refuse unknown parents first, then look for a cycle. */
    method Validate() returns (r: Result)
      ensures r.UnknownParent? ==> r.node in nodes && r.parent in nodes[r.node] && r.parent !in nodes
      ensures r.UnknownParent? <==> !Closed(nodes)
      ensures r == CycleError <==> Closed(nodes) && HasCycle(nodes)
    {
      var found, node, parent := FindUnknown();
      if found {
        return UnknownParent(node, parent);
      }
      ghost var level;
      r, level := ComputeLayers();
    }

    /** Layering without validation. */
    method GetLayers() returns (r: Result, ghost level: map<string, nat>)
      ensures r.KeyError? <==> !Closed(nodes)
      ensures r.KeyError? ==> r.key !in nodes
      ensures r == CycleError <==> Closed(nodes) && HasCycle(nodes)
      ensures Closed(nodes) && !HasCycle(nodes) ==> r.Layers? && Levels(nodes, level) && IsLayering(r.layers, level)
    {
      r, level := ComputeLayers();
    }
  }

  /** Take layer after layer off the frontier. */
  method PeelLayers(g: Graph, kids: map<string, seq<string>>, indeg0: map<string, int>)
    returns (r: Result, ghost level: map<string, nat>)
    requires Closed(g) && KidsOk(g, kids) && indeg0 == map n | n in g :: |g[n]|
    ensures r == CycleError <==> HasCycle(g)
    ensures r == CycleError || (r.Layers? && Levels(g, level) && IsLayering(r.layers, level))
  {
    hide KidsOk, Counts, IsFrontier, Partial, IsLayering, NoDup, Closed;
    var indeg := indeg0;
    var frontier := Roots(indeg);
    var layers: seq<seq<string>> := [];
    var seen := 0;
    level := map[];
    RootsReady(g, indeg, frontier);
    assert level.Keys == {};
    while frontier != []
      invariant Counts(g, indeg, level.Keys) && IsFrontier(g, level.Keys, level.Keys, frontier)
      invariant Partial(g, level, |layers|) && IsLayering(layers, level) && level.Keys <= g.Keys
      invariant seen == |level.Keys|
      decreases g.Keys - level.Keys
    {
      var layer := Sort(frontier);
      indeg, frontier, layers, level := NextLayer(g, kids, indeg, frontier, layer, layers, level);
      seen := seen + |layer|;
    }
    if seen != |g| {
      assert |g| == |g.Keys|;
      LeftOverCycle(g, level.Keys);
      return CycleError, level;
    }
    SubsetFull(level.Keys, g.Keys);
    PartialIsLevels(g, level, |layers|);
    LevelsAcyclic(g, level);
    return Layers(layers), level;
  }

  lemma PartialIsLevels(g: Graph, level: map<string, nat>, depth: nat)
    requires Partial(g, level, depth) && level.Keys == g.Keys
    ensures Levels(g, level)
  {
  }

  /** The ids with no parents, sorted. */
  method Roots(indeg: map<string, int>) returns (frontier: seq<string>)
    ensures NoDup(frontier) && forall n :: n in frontier <==> n in indeg && indeg[n] == 0
  {
    var todo := indeg.Keys;
    frontier := [];
    while todo != {}
      invariant todo <= indeg.Keys && NoDup(frontier)
      invariant forall n :: n in frontier <==> n in indeg && n !in todo && indeg[n] == 0
      decreases todo
    {
      var n :| n in todo;
      if indeg[n] == 0 {
        frontier := frontier + [n];
      }
      todo := todo - {n};
    }
    SortSame(frontier);
    frontier := Sort(frontier);
  }

  lemma RootsReady(g: Graph, indeg: map<string, int>, frontier: seq<string>)
    requires indeg == map n | n in g :: |g[n]|
    requires NoDup(frontier) && forall n :: n in frontier <==> n in indeg && indeg[n] == 0
    ensures Counts(g, indeg, {}) && IsFrontier(g, {}, {}, frontier)
    ensures Partial(g, map[], 0) && IsLayering([], map[])
  {
    forall n | n in g ensures indeg[n] == Missing(g[n], {}) {
      MissingAll(g[n]);
    }
    forall n ensures n in frontier <==> Ready(g, {}, {}, n) {}
    var none: map<string, nat> := map[];
    assert none.Keys == {};
  }

  /** Take the frontier as the next layer. */
  method NextLayer(g: Graph, kids: map<string, seq<string>>, indeg: map<string, int>, ghost frontier: seq<string>,
                   layer: seq<string>, layers: seq<seq<string>>, ghost level: map<string, nat>)
    returns (indeg': map<string, int>, frontier': seq<string>, layers': seq<seq<string>>,
             ghost level': map<string, nat>)
    requires Closed(g) && KidsOk(g, kids) && Counts(g, indeg, level.Keys) && frontier != [] && layer == Sort(frontier)
    requires IsFrontier(g, level.Keys, level.Keys, frontier)
    requires Partial(g, level, |layers|) && IsLayering(layers, level) && level.Keys <= g.Keys
    ensures level'.Keys <= g.Keys
    ensures Counts(g, indeg', level'.Keys) && IsFrontier(g, level'.Keys, level'.Keys, frontier')
    ensures layers' == layers + [layer]
    ensures Partial(g, level', |layers'|) && IsLayering(layers', level')
    ensures level.Keys < level'.Keys && |level'.Keys| == |level.Keys| + |layer|
  {
    hide Closed, KidsOk, Counts, IsFrontier, Partial, IsLayering, NoDup, Sort, Settled, Elements, Extend, Pending;
    level' := Extend(level, layer, |layers|);
    LayerSorted(g, frontier, layer, layers, level);
    LayerTaken(g, layer, layers, level);
    LayerSizes(g, layer, level, level');
    indeg', frontier' := FinishLayer(g, kids, indeg, level.Keys, layer);
    layers' := layers + [layer];
  }

  /** The sorted frontier is a layer: its nodes are not placed yet and their parents are. */
  lemma LayerSorted(g: Graph, frontier: seq<string>, layer: seq<string>, layers: seq<seq<string>>,
                    level: map<string, nat>)
    requires frontier != [] && IsFrontier(g, level.Keys, level.Keys, frontier) && layer == Sort(frontier)
    requires IsLayering(layers, level)
    ensures NoDup(layer) && layer != [] && Pending(layer, g.Keys, level.Keys)
    ensures IsFrontier(g, level.Keys, level.Keys, layer)
    ensures IsLayering(layers + [layer], Extend(level, layer, |layers|))
  {
    hide IsFrontier, IsLayering, NoDup, Sort, Extend, Outside, SameMembers, Pending;
    FrontierFresh(g, level.Keys, frontier);
    ExtendLayering(layers, level, frontier);
    SameFrontier(g, level.Keys, frontier, layer);
  }

  lemma LayerSizes(g: Graph, layer: seq<string>, level: map<string, nat>, level': map<string, nat>)
    requires NoDup(layer) && layer != [] && Pending(layer, g.Keys, level.Keys) && level.Keys <= g.Keys
    requires level'.Keys == level.Keys + Elements(layer)
    ensures level.Keys < level'.Keys <= g.Keys && |level'.Keys| == |level.Keys| + |layer|
  {
    hide NoDup, Elements, Pending;
    ElementsSize(layer);
    ElementsIn(layer, level.Keys, g.Keys);
  }

  /** What taking the frontier as a layer gives, apart from the counters. */
  lemma LayerTaken(g: Graph, layer: seq<string>, layers: seq<seq<string>>, level: map<string, nat>)
    requires Closed(g) && IsFrontier(g, level.Keys, level.Keys, layer)
    requires Partial(g, level, |layers|) && IsLayering(layers, level)
    ensures Settled(g, level.Keys, level.Keys + Elements(layer))
    ensures IsFrontier(g, level.Keys, level.Keys + Elements(layer), [])
    ensures var level' := Extend(level, layer, |layers|);
      && Partial(g, level', |layers| + 1)
      && level'.Keys == level.Keys + Elements(layer)
  {
    hide Closed, IsFrontier, Partial, IsLayering, NoDup, Settled, Elements, Extend, Pending, Below;
    LayeringBound(layers, level);
    LayerSettled(g, level, |layers|, layer);
    ExtendPartial(g, level, |layers|, layer);
  }

  lemma ElementsIn(s: seq<string>, done: set<string>, all: set<string>)
    requires Pending(s, all, done)
    ensures Elements(s) <= all && |done + Elements(s)| == |done| + |Elements(s)|
    ensures s != [] ==> done < done + Elements(s)
  {
    if s != [] { assert s[0] in Elements(s); }
    assert done !! Elements(s);
  }

  lemma LayeringBound(layers: seq<seq<string>>, level: map<string, nat>)
    requires IsLayering(layers, level)
    ensures Below(level, |layers|)
  {
  }

  lemma SubsetFull(a: set<string>, b: set<string>)
    requires a <= b && |a| == |b|
    ensures a == b
  {
    assert |b - a| == |b| - |a|;
    assert b - a == {};
    assert b <= a + (b - a);
  }
}
