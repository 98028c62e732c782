/** Topological layering of request graphs (gateway/dag/graph.py). */
module DagGraph {
  import opened StringOrder

  /** Each node with the list of its parents; a parent may be listed more than once. */
  type Graph = map<string, seq<string>>

  /** Every parent that is mentioned exists. */
  ghost predicate Closed(g: Graph) {
    forall n, i :: n in g && 0 <= i < |g[n]| ==> g[n][i] in g
  }

  // ------------------------------------------------------------------ cycles and levels

  /** A sequence of nodes, each a parent of the next. */
  ghost predicate IsWalk(g: Graph, w: seq<string>) {
    && (forall i :: 0 <= i < |w| ==> w[i] in g)
    && (forall i, j :: 0 <= i && j == i + 1 && j < |w| ==> w[i] in g[w[j]])
  }

  ghost predicate IsCycle(g: Graph, w: seq<string>) {
    IsWalk(g, w) && |w| >= 2 && w[0] == w[|w| - 1]
  }

  ghost predicate HasCycle(g: Graph) {
    exists w :: IsCycle(g, w)
  }

  /** `level` is 0 for a node without parents and otherwise one more than the highest parent's. */
  ghost predicate IsLevel(g: Graph, level: map<string, nat>, n: string)
    requires n in g && n in level
  {
    && (forall p :: p in g[n] ==> p in level && level[p] < level[n])
    && (level[n] > 0 ==> exists p :: p in g[n] && p in level && level[p] + 1 == level[n])
  }

  ghost predicate Levels(g: Graph, level: map<string, nat>) {
    level.Keys == g.Keys && forall n {:trigger IsLevel(g, level, n)} :: n in g ==> IsLevel(g, level, n)
  }

  lemma {:induction false} WalkClimbs(g: Graph, level: map<string, nat>, w: seq<string>)
    requires Levels(g, level) && IsWalk(g, w) && |w| >= 2
    ensures level[w[0]] < level[w[|w| - 1]]
  {
    var n := |w| - 1;
    assert IsLevel(g, level, w[n]);
    if n >= 2 {
      WalkClimbs(g, level, w[..n]);
    }
  }

  /** A graph that has levels has no cycle. */
  lemma LevelsAcyclic(g: Graph, level: map<string, nat>)
    requires Levels(g, level)
    ensures !HasCycle(g)
  {
    if w :| IsCycle(g, w) {
      WalkClimbs(g, level, w);
      assert false;
    }
  }

  /** Levels are unique: the layering does not depend on the order of anything. */
  lemma {:induction false} LevelsUnique(g: Graph, a: map<string, nat>, b: map<string, nat>, n: string)
    requires Closed(g) && Levels(g, a) && Levels(g, b) && n in g
    ensures a[n] == b[n]
    decreases a[n] + b[n]
  {
    assert IsLevel(g, a, n) && IsLevel(g, b, n);
    if a[n] > 0 {
      var p :| p in g[n] && p in a && a[p] + 1 == a[n];
      LevelsUnique(g, a, b, p);
    }
    if b[n] > 0 {
      var p :| p in g[n] && p in b && b[p] + 1 == b[n];
      LevelsUnique(g, a, b, p);
    }
  }

  function Elements(w: seq<string>): set<string> {
    set x | x in w
  }

  /** Walking from parent to parent inside a finite set in which every node has one must close a cycle. */
  lemma {:induction false} WalkBack(g: Graph, stuck: set<string>, w: seq<string>)
    requires stuck <= g.Keys && IsWalk(g, w) && w != [] && Elements(w) <= stuck
    requires forall n :: n in stuck ==> exists p :: p in g[n] && p in stuck
    ensures HasCycle(g)
    decreases stuck - Elements(w)
  {
    assert w[0] in Elements(w);
    var p :| p in g[w[0]] && p in stuck;
    var longer := [p] + w;
    assert IsWalk(g, longer);
    if p in w {
      var k :| 0 <= k < |w| && w[k] == p;
      assert IsCycle(g, longer[..k + 2]);
    } else {
      assert Elements(longer) == Elements(w) + {p};
      WalkBack(g, stuck, longer);
    }
  }

  lemma StuckHasCycle(g: Graph, stuck: set<string>)
    requires stuck <= g.Keys && stuck != {}
    requires forall n :: n in stuck ==> exists p :: p in g[n] && p in stuck
    ensures HasCycle(g)
  {
    var n :| n in stuck;
    assert Elements([n]) == {n};
    WalkBack(g, stuck, [n]);
  }

  // ------------------------------------------------------------------ counting parents

  /** How often `x` occurs in `s`. */
  function Occ(s: seq<string>, x: string): nat {
    if s == [] then 0 else Occ(s[..|s| - 1], x) + if s[|s| - 1] == x then 1 else 0
  }

  lemma OccSnoc(s: seq<string>, x: string, y: string)
    ensures Occ(s + [x], y) == Occ(s, y) + if x == y then 1 else 0
  {
    assert (s + [x])[..|s|] == s;
  }

  lemma {:induction false} OccIn(s: seq<string>, x: string)
    ensures Occ(s, x) > 0 <==> x in s
  {
    if s != [] {
      assert s == s[..|s| - 1] + [s[|s| - 1]];
      OccIn(s[..|s| - 1], x);
    }
  }

  lemma {:induction false} OccPrefix(s: seq<string>, j: nat, x: string)
    requires j <= |s|
    ensures Occ(s[..j], x) <= Occ(s, x)
    decreases |s| - j
  {
    if j < |s| {
      OccPrefix(s, j + 1, x);
      assert s[..j + 1] == s[..j] + [s[j]];
      OccSnoc(s[..j], s[j], x);
    } else {
      assert s[..j] == s;
    }
  }

  /** How many entries of `ps` are not in `done`. */
  function Missing(ps: seq<string>, done: set<string>): nat {
    if ps == [] then 0 else Missing(ps[..|ps| - 1], done) + if ps[|ps| - 1] in done then 0 else 1
  }

  lemma {:induction false} MissingLess(ps: seq<string>, done: set<string>, p: string)
    requires p !in done
    ensures Missing(ps, done + {p}) == Missing(ps, done) - Occ(ps, p)
  {
    if ps != [] {
      MissingLess(ps[..|ps| - 1], done, p);
    }
  }

  lemma {:induction false} MissingZero(ps: seq<string>, done: set<string>)
    ensures Missing(ps, done) == 0 <==> forall p :: p in ps ==> p in done
  {
    if ps != [] {
      assert ps == ps[..|ps| - 1] + [ps[|ps| - 1]];
      MissingZero(ps[..|ps| - 1], done);
    }
  }

  lemma {:induction false} MissingAll(ps: seq<string>)
    ensures Missing(ps, {}) == |ps|
  {
    if ps != [] { MissingAll(ps[..|ps| - 1]); }
  }

  // ------------------------------------------------------------------ sorting

  ghost predicate Sorted(s: seq<string>) {
    forall i, j :: 0 <= i < j < |s| ==> !Less(s[j], s[i])
  }

  function InsertSorted(x: string, s: seq<string>): (r: seq<string>)
    ensures multiset(r) == multiset(s) + multiset{x}
  {
    if s == [] then [x]
    else if Less(s[0], x) then
      assert s == [s[0]] + s[1..];
      [s[0]] + InsertSorted(x, s[1..])
    else [x] + s
  }

  function Sort(s: seq<string>): (r: seq<string>)
    ensures multiset(r) == multiset(s)
  {
    if s == [] then [] else
      assert s == [s[0]] + s[1..];
      InsertSorted(s[0], Sort(s[1..]))
  }

  lemma {:induction false} InsertSortedSorts(x: string, s: seq<string>)
    requires Sorted(s)
    ensures Sorted(InsertSorted(x, s))
  {
    if s == [] {
    } else if Less(s[0], x) {
      InsertSortedSorts(x, s[1..]);
      var r := InsertSorted(x, s[1..]);
      forall i | 0 <= i < |r| ensures !Less(r[i], s[0]) {
        assert r[i] in multiset(r);
        if r[i] in s[1..] {
          var k :| 0 <= k < |s[1..]| && s[1..][k] == r[i];
        } else {
          LessTotal(s[0], x);
        }
      }
    } else {
      forall j | 0 <= j < |s| ensures !Less(s[j], x) {
        if Less(s[j], x) {
          LessTotal(x, s[0]);
          LessTotal(s[0], s[j]);
          if x != s[0] && s[j] != s[0] { LessTransitive(s[j], x, s[0]); }
        }
      }
    }
  }

  lemma {:induction false} SortSorts(s: seq<string>)
    ensures Sorted(Sort(s))
  {
    if s != [] {
      SortSorts(s[1..]);
      InsertSortedSorts(s[0], Sort(s[1..]));
    }
  }
}
