/** Sets of prefixes of block-hash lists: the plain object that the radix tree compresses.

A backend's cached prefixes are a set of non-empty hash lists.  What the router asks of such a
set is one number per request: how many blocks, counted from the front, are all present.
 */
module PrefixSets {

  /** A list of chained block hashes. */
  type Path = seq<int>

  /** The non-empty prefixes of `h`. */
  ghost function Prefixes(h: Path): set<Path> {
    set k | 1 <= k <= |h| :: h[..k]
  }

  /** Every one of the first `d` prefixes of `h` is in `cov`. */
  ghost predicate CoveredTo(cov: set<Path>, h: Path, d: nat)
    requires d <= |h|
  {
    forall k :: 1 <= k <= d ==> h[..k] in cov
  }

  /** The longest run of prefixes of `h`, contiguous from the front, contained in `cov`. */
  ghost function Depth(cov: set<Path>, h: Path): (d: nat)
    ensures d <= |h| && CoveredTo(cov, h, d)
    ensures d < |h| ==> h[..d + 1] !in cov
  {
    DepthFrom(cov, h, 0)
  }

  ghost function DepthFrom(cov: set<Path>, h: Path, from: nat): (d: nat)
    requires from <= |h| && CoveredTo(cov, h, from)
    ensures from <= d <= |h| && CoveredTo(cov, h, d)
    ensures d < |h| ==> h[..d + 1] !in cov
    decreases |h| - from
  {
    if from < |h| && h[..from + 1] in cov then DepthFrom(cov, h, from + 1) else from
  }

  /** `Depth` is the only number with its two properties. */
  lemma DepthUnique(cov: set<Path>, h: Path, d: nat)
    requires d <= |h| && CoveredTo(cov, h, d)
    requires d < |h| ==> h[..d + 1] !in cov
    ensures Depth(cov, h) == d
  {
    var e := Depth(cov, h);
    assert forall k :: 1 <= k <= d ==> h[..k] in cov;
    assert forall k :: 1 <= k <= e ==> h[..k] in cov;
    assert !(e < d) && !(d < e);
  }

  lemma NoPrefixes()
    ensures Prefixes([]) == {}
  {
  }

  lemma PrefixesGrow(h: Path, i: nat, j: nat)
    requires i <= j <= |h|
    ensures Prefixes(h[..j]) == Prefixes(h[..i]) + (set k | i < k <= j :: h[..k])
  {
    assert forall k :: 1 <= k <= j ==> h[..j][..k] == h[..k];
    assert forall k :: 1 <= k <= i ==> h[..i][..k] == h[..k];
    forall p | p in Prefixes(h[..j])
      ensures p in Prefixes(h[..i]) + (set k | i < k <= j :: h[..k])
    {
      var k :| 1 <= k <= j && p == h[..j][..k];
      assert p == h[..k];
      if k <= i { assert p == h[..i][..k]; }
    }
    forall p | p in Prefixes(h[..i]) + (set k | i < k <= j :: h[..k])
      ensures p in Prefixes(h[..j])
    {
      if p in Prefixes(h[..i]) {
        var k :| 1 <= k <= i && p == h[..i][..k];
        assert p == h[..j][..k];
      } else {
        var k :| i < k <= j && p == h[..k];
        assert p == h[..j][..k];
      }
    }
  }

  /** There are as many prefixes longer than `lo` as blocks after `lo`. */
  lemma {:induction false} PrefixRangeSize(h: Path, lo: nat)
    requires lo <= |h|
    ensures |set k | lo < k <= |h| :: h[..k]| == |h| - lo
    decreases |h|
  {
    var all := set k | lo < k <= |h| :: h[..k];
    if lo == |h| {
      assert all == {};
    } else {
      var s := h[..|h| - 1];
      var rest := set k | lo < k <= |s| :: s[..k];
      PrefixRangeSize(s, lo);
      assert forall k :: 0 <= k <= |s| ==> s[..k] == h[..k];
      assert h !in rest by {
        forall p | p in rest ensures |p| < |h| {}
      }
      assert h[..|h|] == h;
      assert all == rest + {h} by {
        forall p | p in all ensures p in rest + {h} {
          var k :| lo < k <= |h| && p == h[..k];
          if k <= |s| { assert p == s[..k]; }
        }
        forall p | p in rest + {h} ensures p in all {
          if p in rest {
            var k :| lo < k <= |s| && p == s[..k];
            assert p == h[..k];
          }
        }
      }
    }
  }

  /** The length of the longest common prefix of two hash lists. */
  function CommonPrefix(g: Path, h: Path): (n: nat)
    ensures n <= |g| && n <= |h| && g[..n] == h[..n]
    ensures n < |g| && n < |h| ==> g[n] != h[n]
  {
    if g == [] || h == [] || g[0] != h[0] then 0 else
      var n := CommonPrefix(g[1..], h[1..]);
      assert g[..n + 1] == [g[0]] + g[1..][..n];
      assert h[..n + 1] == [h[0]] + h[1..][..n];
      n + 1
  }

  /** A prefix of `h` is a prefix of `g` exactly when it is no longer than their common prefix. */
  lemma PrefixShared(g: Path, h: Path, k: nat)
    requires 1 <= k <= |h|
    ensures h[..k] in Prefixes(g) <==> k <= CommonPrefix(g, h)
  {
    var n := CommonPrefix(g, h);
    if k <= n {
      assert h[..k] == h[..n][..k] == g[..n][..k] == g[..k];
    }
    if h[..k] in Prefixes(g) {
      var m :| 1 <= m <= |g| && h[..k] == g[..m];
      assert m == k;
      assert forall x :: 0 <= x < k ==> h[x] == h[..k][x] == g[..k][x] == g[x];
    }
  }

  // ------------------------------------------------------------------ closure

  /** With a list, all its prefixes. */
  ghost predicate PrefixClosed(cov: set<Path>) {
    forall p, k :: p in cov && 1 <= k <= |p| ==> p[..k] in cov
  }

  lemma PrefixesClosed(h: Path)
    ensures PrefixClosed(Prefixes(h))
  {
    forall p, k | p in Prefixes(h) && 1 <= k <= |p| ensures p[..k] in Prefixes(h) {
      assert p[..k] == h[..k];
    }
  }

  lemma UnionClosed(c: set<Path>, d: set<Path>)
    requires PrefixClosed(c) && PrefixClosed(d)
    ensures PrefixClosed(c + d)
  {
  }

  /** For closed sets, and for no others, a list that is present tells how deep every query matches. */
  lemma ClosedIffDepth(cov: set<Path>)
    ensures PrefixClosed(cov) <==>
      forall h, k :: 1 <= k <= |h| && h[..k] in cov ==> k <= Depth(cov, h)
  {
    if PrefixClosed(cov) {
      forall h, k | 1 <= k <= |h| && h[..k] in cov ensures k <= Depth(cov, h) {
        assert forall m :: 1 <= m <= k ==> h[..k][..m] == h[..m];
      }
    }
    if forall h, k :: 1 <= k <= |h| && h[..k] in cov ==> k <= Depth(cov, h) {
      forall p, k | p in cov && 1 <= k <= |p| ensures p[..k] in cov {
        assert p[..|p|] == p;
        assert |p| <= Depth(cov, p);
      }
    }
  }
}
