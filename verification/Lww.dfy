/** Last-writer-wins maps: the merge shared by the drain map and the membership map
(gateway/cluster/drain_state.py, gateway/cluster/membership_state.py). */
module Lww {
  import opened Basics
  import opened StringOrder

  /** A Lamport timestamp with the writing replica as tie-breaker. */
  datatype Stamp = Stamp(ts: int, origin: string)

  datatype Versioned<V> = Versioned(value: V, stamp: Stamp)

  type Map<V> = map<string, Versioned<V>>

  predicate Newer(a: Stamp, b: Stamp) {
    a.ts > b.ts || (a.ts == b.ts && Less(b.origin, a.origin))
  }

  lemma NewerTotal(a: Stamp, b: Stamp)
    ensures a == b || Newer(a, b) || Newer(b, a)
    ensures !(Newer(a, b) && Newer(b, a)) && !Newer(a, a)
  {
    LessTotal(a.origin, b.origin);
    LessIrreflexive(a.origin);
  }

  lemma NewerTransitive(a: Stamp, b: Stamp, c: Stamp)
    requires Newer(a, b) && Newer(b, c)
    ensures Newer(a, c)
  {
    if a.ts == b.ts == c.ts { LessTransitive(c.origin, b.origin, a.origin); }
  }

  /** Keep the current version unless the incoming one is newer. */
  function Pick<V>(cur: Versioned<V>, incoming: Versioned<V>): Versioned<V> {
    if Newer(incoming.stamp, cur.stamp) then incoming else cur
  }

  /** Merge `n` into `m`, key by key. */
  function Join<V>(m: Map<V>, n: Map<V>): Map<V> {
    map k | k in m.Keys + n.Keys ::
      if k !in m then n[k] else if k !in n then m[k] else Pick(m[k], n[k])
  }

  lemma PickAssociative<V>(a: Versioned<V>, b: Versioned<V>, c: Versioned<V>)
    ensures Pick(a, Pick(b, c)) == Pick(Pick(a, b), c)
  {
    var x, y, z := a.stamp, b.stamp, c.stamp;
    NewerTotal(x, y);
    NewerTotal(y, z);
    NewerTotal(x, z);
    if Newer(z, y) && Newer(y, x) { NewerTransitive(z, y, x); }
    if Newer(x, y) && Newer(y, z) { NewerTransitive(x, y, z); }

  }

  /** At equal timestamps the lexicographically greater origin wins, whichever map it comes from; a greater
      timestamp wins whatever the origins are. */
  lemma WhoWins<V>(k: string, v: V, w: V, st: Stamp, st': Stamp)
    requires st.ts < st'.ts || (st.ts == st'.ts && exists i: nat :: FirstDifference(st.origin, st'.origin, i))
    ensures var m, n := map[k := Versioned(v, st)], map[k := Versioned(w, st')];
      Join(m, n) == n && Join(n, m) == n
  {
    LessIff(st.origin, st'.origin);
    NewerTotal(st, st');
    var m, n := map[k := Versioned(v, st)], map[k := Versioned(w, st')];
    assert Join(m, n).Keys == {k} && Join(n, m).Keys == {k};
  }

  /** Merging is associative for all maps. */
  lemma JoinAssociative<V>(a: Map<V>, b: Map<V>, c: Map<V>)
    ensures Join(a, Join(b, c)) == Join(Join(a, b), c)
  {
    forall k | k in a && k in b && k in c ensures Pick(a[k], Pick(b[k], c[k])) == Pick(Pick(a[k], b[k]), c[k]) {
      PickAssociative(a[k], b[k], c[k]);
    }
    assert Join(a, Join(b, c)).Keys == Join(Join(a, b), c).Keys;
  }

  /** Merging a map into itself changes nothing. */
  lemma JoinIdempotent<V>(m: Map<V>)
    ensures Join(m, m) == m
  {
    assert Join(m, m).Keys == m.Keys;
  }

  /** No key carries one stamp with two values. */
  ghost predicate Agree<V>(m: Map<V>, n: Map<V>) {
    forall k :: k in m && k in n && m[k].stamp == n[k].stamp ==> m[k] == n[k]
  }

  /** Merging is commutative exactly for maps that never give one stamp two values. */
  lemma JoinCommutesIff<V>(m: Map<V>, n: Map<V>)
    ensures Join(m, n) == Join(n, m) <==> Agree(m, n)
  {
    forall k | k in m && k in n
      ensures Pick(m[k], n[k]) == Pick(n[k], m[k]) <==> (m[k].stamp == n[k].stamp ==> m[k] == n[k])
    {
      NewerTotal(m[k].stamp, n[k].stamp);
    }
    assert Join(m, n).Keys == Join(n, m).Keys;
    if Join(m, n) == Join(n, m) {
      forall k | k in m && k in n && m[k].stamp == n[k].stamp ensures m[k] == n[k] {
        assert Join(m, n)[k] == Join(n, m)[k];
      }
    }
  }

  // ------------------------------------------------------------------ a replica's copy

  /** A map with the Lamport clock of the replica that keeps it. */
  datatype Copy<V> = Copy(s: Map<V>, clock: int)

  /** A local write: tick the clock, overwrite. */
  function SetLocal<V>(c: Copy<V>, k: string, v: V, origin: string): Copy<V> {
    Copy(c.s[k := Versioned(v, Stamp(c.clock + 1, origin))], c.clock + 1)
  }

  /** What a restart with a reset clock leads to.  Replica `r` writes `v`, restarts empty and writes `w`
      for the same key: one stamp, two values.  However often a peer that has the first write and the
      restarted replica exchange digests afterwards, each keeps its own value. */
  lemma ResetClockDiverges<V>(k: string, r: string, v: V, w: V)
    requires v != w
    ensures var peer := Join(map[], SetLocal(Copy(map[], 0), k, v, r).s);
      var restarted := SetLocal(Copy(map[], 0), k, w, r).s;
      && Join(peer, restarted) == peer && Join(restarted, peer) == restarted
      && k in peer && k in restarted && peer[k].value == v && restarted[k].value == w
  {
    var peer := Join(map[], SetLocal(Copy(map[], 0), k, v, r).s);
    var restarted := SetLocal(Copy(map[], 0), k, w, r).s;
    LessIrreflexive(r);
    assert peer.Keys == {k} && Join(peer, restarted).Keys == {k} && Join(restarted, peer).Keys == {k};
  }

  /** A remote write: observe its timestamp, adopt it if newer. */
  function Apply<V>(c: Copy<V>, k: string, e: Versioned<V>): Copy<V> {
    Copy(if k !in c.s || Newer(e.stamp, c.s[k].stamp) then c.s[k := e] else c.s, Max(c.clock, e.stamp.ts))
  }

  lemma ApplyIsJoin<V>(c: Copy<V>, k: string, e: Versioned<V>)
    ensures Apply(c, k, e).s == Join(c.s, map[k := e])
  {
    assert Apply(c, k, e).s.Keys == Join(c.s, map[k := e]).Keys;
  }

  ghost predicate ClockOk<V>(c: Copy<V>) {
    forall k :: k in c.s ==> c.s[k].stamp.ts <= c.clock
  }

  /** While every stored timestamp is at most the clock, a local write is itself a merge. */
  lemma SetLocalIsJoin<V>(c: Copy<V>, k: string, v: V, origin: string)
    requires ClockOk(c)
    ensures var e := Versioned(v, Stamp(c.clock + 1, origin));
      SetLocal(c, k, v, origin).s == Join(c.s, map[k := e]) && ClockOk(SetLocal(c, k, v, origin))
  {
    var e := Versioned(v, Stamp(c.clock + 1, origin));
    assert Join(c.s, map[k := e]).Keys == c.s.Keys + {k};
  }

  /** The highest timestamp of a digest, or `from` if that is higher. */
  ghost predicate ClockAfter<V>(from: int, n: Map<V>, clock: int) {
    && from <= clock && (forall k :: k in n ==> n[k].stamp.ts <= clock)
    && (clock == from || exists k :: k in n && n[k].stamp.ts == clock)
  }
}
