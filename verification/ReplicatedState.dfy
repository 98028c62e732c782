/** The two replicated maps as a replica keeps them (gateway/cluster/drain_state.py,
gateway/cluster/membership_state.py), refined to merges of last-writer-wins maps. */
module ReplicatedState {
  import opened Lww
  import opened LwwCluster

  /** One observed version: the clock catches up with it and the map is merged with it. */
  lemma ApplyMerges<V(!new)>(c: Copy<V>, k: string, e: Versioned<V>)
    ensures Merged(c, map[k := e], Lww.Apply(c, k, e))
  {
    ApplyIsJoin(c, k, e);
    var n := map[k := e];
    assert n[k].stamp.ts == e.stamp.ts;
  }

  /** The entries of `n` whose keys are in `ks`. */
  ghost function Part<V>(n: Map<V>, ks: set<string>): Map<V> {
    map k | k in n && k in ks :: n[k]
  }

  /** Merging the entries of a digest one at a time merges the digest. */
  lemma MergePart<V(!new)>(c0: Copy<V>, n: Map<V>, done: set<string>, c: Copy<V>, k: string)
    requires Merged(c0, Part(n, done), c) && k in n && k !in done
    ensures Merged(c0, Part(n, done + {k}), Lww.Apply(c, k, n[k]))
  {
    var c' := Lww.Apply(c, k, n[k]);
    var p, p' := Part(n, done), Part(n, done + {k});
    assert c'.s == Join(c0.s, p') by {
      assert c'.s.Keys == Join(c0.s, p').Keys;
      forall x | x in c'.s ensures c'.s[x] == Join(c0.s, p')[x] {
        if x != k { assert x in p <==> x in p'; }
      }
    }
    assert ClockAfter(c0.clock, p', c'.clock) by {
      if c'.clock == c.clock && c.clock != c0.clock {
        var x :| x in p && p[x].stamp.ts == c.clock;
        assert x in p' && p'[x].stamp.ts == c.clock;
      } else if c'.clock != c.clock {
        assert k in p' && p'[k].stamp.ts == c'.clock;
      }
    }
  }

  // ------------------------------------------------------------------ drains

  /** What a drain map says about each backend it mentions. */
  ghost function Flags(s: Map<bool>): map<string, bool> {
    map b | b in s :: s[b].value
  }

  ghost function DrainedSet(s: Map<bool>): set<string> {
    set b | b in s && s[b].value
  }

  /** When a reported change is a change of the drained set: exactly when the backend was mentioned
      before or is now drained. */
  lemma ReportIff(c: Copy<bool>, b: string, e: Versioned<bool>)
    ensures var s' := Lww.Apply(c, b, e).s;
      (Flags(s') != Flags(c.s) <==> DrainedSet(s') != DrainedSet(c.s)) <==> (b in c.s || e.value)
  {
    var s' := Lww.Apply(c, b, e).s;
    assert b in s';
    assert forall x :: x != b ==> (x in s' <==> x in c.s) && (x in s' ==> s'[x] == c.s[x]);
    if b in c.s && s'[b].value == c.s[b].value {
      assert Flags(s') == Flags(c.s) && DrainedSet(s') == DrainedSet(c.s);
    } else if b in c.s {
      assert Flags(s')[b] != Flags(c.s)[b];
      assert b in DrainedSet(s') <==> b !in DrainedSet(c.s);
    } else {
      assert b in Flags(s') && b !in Flags(c.s);
      assert b !in DrainedSet(c.s) && (b in DrainedSet(s') <==> e.value);
      if !e.value { assert DrainedSet(s') == DrainedSet(c.s); }
    }
  }

  class DrainState {
    var s: Map<bool>
    var clock: int

    ghost function View(): Copy<bool>
      reads this
    {
      Copy(s, clock)
    }

    constructor ()
      ensures View() == Copy(map[], 0)
    {
      s, clock := map[], 0;
    }

    method SetLocal(backend: string, draining: bool, origin: string) returns (ts: int)
      modifies this
      ensures View() == Lww.SetLocal(old(View()), backend, draining, origin) && ts == clock
    {
      clock := clock + 1;
      ts := clock;
      s := s[backend := Versioned(draining, Stamp(ts, origin))];
    }

    /** Reports a change exactly when what the map says about some backend has changed.  That is a change
        of the drained set if and only if the backend was known or is now drained. */
    method Apply(backend: string, draining: bool, ts: int, origin: string) returns (changed: bool)
      modifies this
      ensures View() == Lww.Apply(old(View()), backend, Versioned(draining, Stamp(ts, origin)))
      ensures changed <==> Flags(s) != old(Flags(s))
      ensures (changed <==> DrainedSet(s) != old(DrainedSet(s))) <==> (backend in old(s) || draining)
    {
      ReportIff(View(), backend, Versioned(draining, Stamp(ts, origin)));
      if ts > clock {
        clock := ts;
      }
      if backend !in s || Newer(Stamp(ts, origin), s[backend].stamp) {
        changed := backend !in s || s[backend].value != draining;
        ghost var before := s;
        s := s[backend := Versioned(draining, Stamp(ts, origin))];
        assert backend in Flags(s) && Flags(s)[backend] == draining;
        if !changed { assert Flags(s) == Flags(before); }
      } else {
        changed := false;
      }
    }

    method Merge(entries: Map<bool>) returns (changed: bool)
      modifies this
      ensures Merged(old(View()), entries, View())
      ensures changed <==> Flags(s) != old(Flags(s))
    {
      changed := false;
      var todo := entries.Keys;
      ghost var c0 := View();
      assert Part(entries, {}) == map[] && Join(c0.s, map[]) == c0.s;
      while todo != {}
        invariant todo <= entries.Keys
        invariant Merged(c0, Part(entries, entries.Keys - todo), View())
        invariant changed <==> Flags(s) != Flags(c0.s)
        decreases todo
      {
        var b :| b in todo;
        MergePart(c0, entries, entries.Keys - todo, View(), b);
        assert entries.Keys - (todo - {b}) == (entries.Keys - todo) + {b};
        assert b !in Part(entries, entries.Keys - todo);
        ghost var s1 := s;
        var now := Apply(b, entries[b].value, entries[b].stamp.ts, entries[b].stamp.origin);
        ChangeOnce(c0.s, s1, s, b);
        if now {
          changed := true;
        }
        todo := todo - {b};
      }
      assert Part(entries, entries.Keys - todo) == entries;
    }

    function Drained(): (r: set<string>)
      reads this
      ensures r == DrainedSet(s)
    {
      set b | b in s && s[b].value
    }

    function Digest(): Map<bool>
      reads this
    {
      s
    }
  }

  /** The failing family: a backend first mentioned as not draining is reported as a change although the
      drained set stays as it was. */
  method FirstMentionUndrained(b: string, ts: int, origin: string)
    returns (changed: bool, before: set<string>, after: set<string>)
    ensures changed && before == after == {}
  {
    var d := new DrainState();
    before := d.Drained();
    changed := d.Apply(b, false, ts, origin);
    after := d.Drained();
    assert b in d.s && b in Flags(d.s);
  }

  /** A step that touches only a key untouched so far cannot undo an earlier change. */
  lemma ChangeOnce(s0: Map<bool>, s1: Map<bool>, s2: Map<bool>, b: string)
    requires (b in s1 <==> b in s0) && (b in s0 ==> s1[b] == s0[b])
    requires forall k :: k != b ==> (k in s2 <==> k in s1) && (k in s1 ==> s2[k] == s1[k])
    ensures Flags(s2) != Flags(s0) <==> Flags(s1) != Flags(s0) || Flags(s2) != Flags(s1)
  {
    var f0, f1, f2 := Flags(s0), Flags(s1), Flags(s2);
    if f2 == f0 {
      assert f1.Keys == f0.Keys;
      forall k | k in f1 ensures f1[k] == f0[k] {
        if k != b { assert f2[k] == f1[k]; }
      }
    }
  }

  /** Mark the backends drained one after the other, each with a stamp of its own. */
  function DrainAll(c: Copy<bool>, order: seq<string>, origin: string): Copy<bool> {
    if order == [] then c
    else Lww.SetLocal(DrainAll(c, order[..|order| - 1], origin), order[|order| - 1], true, origin)
  }

  /** Whatever the order: exactly these backends are drained in addition, under stamps the clock has not
      given out before; nothing else changes. */
  lemma {:induction false} DrainAllEffect(c: Copy<bool>, order: seq<string>, origin: string)
    ensures var c' := DrainAll(c, order, origin);
      && c'.clock == c.clock + |order| && c'.s.Keys == c.s.Keys + (set b | b in order)
      && (forall b :: b in c.s && b !in order ==> c'.s[b] == c.s[b])
      && (forall b :: b in order ==> c'.s[b].value && c'.s[b].stamp.origin == origin)
      && (forall b :: b in order ==> c.clock < c'.s[b].stamp.ts <= c'.clock)
      && DrainedSet(c'.s) == DrainedSet(c.s) + (set b | b in order)
  {
    if order != [] {
      DrainAllEffect(c, order[..|order| - 1], origin);
      assert order == order[..|order| - 1] + [order[|order| - 1]];
    }
  }

  // ------------------------------------------------------------------ membership

  datatype Member = Member(present: bool, url: string, model: string)

  /** The part of an entry that a change report looks at: presence and url. */
  ghost function Visible(s: Map<Member>): map<string, (bool, string)> {
    map b | b in s :: (s[b].value.present, s[b].value.url)
  }

  class MembershipState {
    var s: Map<Member>
    var clock: int

    ghost function View(): Copy<Member>
      reads this
    {
      Copy(s, clock)
    }

    constructor ()
      ensures View() == Copy(map[], 0)
    {
      s, clock := map[], 0;
    }

    method SetLocal(backend: string, m: Member, origin: string) returns (ts: int)
      modifies this
      ensures View() == Lww.SetLocal(old(View()), backend, m, origin) && ts == clock
    {
      clock := clock + 1;
      ts := clock;
      s := s[backend := Versioned(m, Stamp(ts, origin))];
    }

    /** Reports a change exactly when presence or url of some backend has changed. */
    method Apply(backend: string, m: Member, ts: int, origin: string) returns (changed: bool)
      modifies this
      ensures View() == Lww.Apply(old(View()), backend, Versioned(m, Stamp(ts, origin)))
      ensures changed <==> Visible(s) != old(Visible(s))
    {
      if ts > clock {
        clock := ts;
      }
      if backend !in s || Newer(Stamp(ts, origin), s[backend].stamp) {
        changed := backend !in s || s[backend].value.present != m.present || s[backend].value.url != m.url;
        ghost var before := s;
        s := s[backend := Versioned(m, Stamp(ts, origin))];
        assert backend in Visible(s) && Visible(s)[backend] == (m.present, m.url);
        if !changed { assert Visible(s) == Visible(before); }
      } else {
        changed := false;
      }
    }

    method Merge(entries: Map<Member>) returns (changed: bool)
      modifies this
      ensures Merged(old(View()), entries, View())
      ensures changed <==> Visible(s) != old(Visible(s))
    {
      changed := false;
      var todo := entries.Keys;
      ghost var c0 := View();
      assert Part(entries, {}) == map[] && Join(c0.s, map[]) == c0.s;
      while todo != {}
        invariant todo <= entries.Keys
        invariant Merged(c0, Part(entries, entries.Keys - todo), View())
        invariant changed <==> Visible(s) != Visible(c0.s)
        decreases todo
      {
        var b :| b in todo;
        MergePart(c0, entries, entries.Keys - todo, View(), b);
        assert entries.Keys - (todo - {b}) == (entries.Keys - todo) + {b};
        assert b !in Part(entries, entries.Keys - todo);
        ghost var s1 := s;
        var now := Apply(b, entries[b].value, entries[b].stamp.ts, entries[b].stamp.origin);
        VisibleOnce(c0.s, s1, s, b);
        if now {
          changed := true;
        }
        todo := todo - {b};
      }
      assert Part(entries, entries.Keys - todo) == entries;
    }

    function Present(): (r: map<string, (string, string)>)
      reads this
      ensures forall b :: b in r <==> b in s && s[b].value.present
      ensures forall b :: b in r ==> r[b] == (s[b].value.url, s[b].value.model)
    {
      map b | b in s && s[b].value.present :: (s[b].value.url, s[b].value.model)
    }

    function Removed(): (r: set<string>)
      reads this
      ensures forall b :: b in r <==> b in s && !s[b].value.present
    {
      set b | b in s && !s[b].value.present
    }
  }

  lemma VisibleOnce(s0: Map<Member>, s1: Map<Member>, s2: Map<Member>, b: string)
    requires (b in s1 <==> b in s0) && (b in s0 ==> s1[b] == s0[b])
    requires forall k :: k != b ==> (k in s2 <==> k in s1) && (k in s1 ==> s2[k] == s1[k])
    ensures Visible(s2) != Visible(s0) <==> Visible(s1) != Visible(s0) || Visible(s2) != Visible(s1)
  {
    var f0, f1, f2 := Visible(s0), Visible(s1), Visible(s2);
    if f2 == f0 {
      assert f1.Keys == f0.Keys;
      forall k | k in f1 ensures f1[k] == f0[k] {
        if k != b { assert f2[k] == f1[k]; }
      }
    }
  }
}
