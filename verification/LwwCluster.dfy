/** N replicas of one last-writer-wins map, with inboxes and arbitrary interleavings.

The same system stands for the drain map and for the membership map
(gateway/cluster/coordinator.py, gateway/cluster/bus.py).  A delta is a message with one entry, a
digest a message with all of them.  The set of replicas is fixed at the start, their ids are distinct
and no replica restarts with a reset clock.  `log` records every write ever issued.
 */
module LwwCluster {
  import opened Bus
  import opened Lww

  datatype Message<V> = Message(origin: string, entries: Map<V>)

  datatype Issued<V> = Issued(key: string, version: Versioned<V>)

  datatype System<!V(==)> = System(
    copies: map<string, Copy<V>>,
    inbox: map<string, seq<Message<V>>>,
    log: set<Issued<V>>)

  datatype Event<V> =
    | Publish(replica: string, key: string, value: V)
    | Digest(replica: string)
    | Sync(replica: string)
    | Seed(replica: string, key: string, value: V)
    | Scramble(replica: string, kept: seq<Message<V>>)

  function Init<V(==)>(ids: set<string>): System<V> {
    System(map r | r in ids :: Copy(map[], 0), map r | r in ids :: [], {})
  }

  /** A publish is appended to the inbox of every other registered replica. */
  function Broadcast<V>(inbox: map<string, seq<Message<V>>>, m: Message<V>): map<string, seq<Message<V>>> {
    Fan(inbox, m.origin, m)
  }

  /** Apply every entry of one message. */
  ghost predicate Merged<V(!new)>(c: Copy<V>, n: Map<V>, c': Copy<V>) {
    c'.s == Join(c.s, n) && ClockAfter(c.clock, n, c'.clock)
  }

  /** Apply every message, in order. */
  ghost predicate Applied<V(!new)>(c: Copy<V>, ms: seq<Message<V>>, c': Copy<V>) {
    if ms == [] then c' == c
    else exists mid {:trigger Merged(mid, ms[|ms| - 1].entries, c')} ::
      Applied(c, ms[..|ms| - 1], mid) && Merged(mid, ms[|ms| - 1].entries, c')
  }

  ghost predicate IsStep<V(!new)>(s: System<V>, ev: Event<V>, s': System<V>) {
    && ev.replica in s.copies && ev.replica in s.inbox
    && match ev
       case Publish(r, k, v) =>
         var c := SetLocal(s.copies[r], k, v, r);
         s' == System(s.copies[r := c],
                      Broadcast(s.inbox, Message(r, map[k := c.s[k]])),
                      s.log + {Issued(k, c.s[k])})
       case Digest(r) =>
         if s.copies[r].s == map[] then s' == s
         else s' == s.(inbox := Broadcast(s.inbox, Message(r, s.copies[r].s)))
       case Sync(r) =>
         && s'.log == s.log && s'.inbox == s.inbox[r := []]
         && r in s'.copies && s'.copies == s.copies[r := s'.copies[r]]
         && Applied(s.copies[r], s.inbox[r], s'.copies[r])
       case Seed(r, k, v) =>
         // a local write that is not broadcast: warm start from a snapshot
         var c := SetLocal(s.copies[r], k, v, r);
         s' == System(s.copies[r := c], s.inbox, s.log + {Issued(k, c.s[k])})
       case Scramble(r, kept) =>
         // loss, duplication and reordering of what is in flight to `r`
         && (forall i :: 0 <= i < |kept| ==> kept[i] in s.inbox[r])
         && s' == s.(inbox := s.inbox[r := kept])
  }

  /** `states` is a run of the system: one more state than events, each following from the one before. */
  ghost predicate IsRun<V(!new)>(states: seq<System<V>>, evs: seq<Event<V>>) {
    && |states| == |evs| + 1
    && forall i :: 0 <= i < |evs| ==> IsStep(states[i], evs[i], states[i + 1])
  }

  // ------------------------------------------------------------------ dominance

  /** `m` has a version of `k` that is at least as new as `st`. */
  ghost predicate Has<V(!new)>(m: Map<V>, k: string, st: Stamp) {
    k in m && !Newer(st, m[k].stamp)
  }

  lemma HasJoin<V(!new)>(m: Map<V>, n: Map<V>, k: string, st: Stamp)
    ensures Has(Join(m, n), k, st) <==> Has(m, k, st) || Has(n, k, st)
  {
    if k in m && k in n {
      NewerTotal(m[k].stamp, n[k].stamp);
      NewerTotal(st, m[k].stamp);
      NewerTotal(st, n[k].stamp);
      if Newer(st, m[k].stamp) && Newer(m[k].stamp, n[k].stamp) { NewerTransitive(st, m[k].stamp, n[k].stamp); }
      if Newer(st, n[k].stamp) && Newer(n[k].stamp, m[k].stamp) { NewerTransitive(st, n[k].stamp, m[k].stamp); }
    }
  }

  /** Every entry of `m` was issued. */
  ghost predicate From<V(!new)>(m: Map<V>, log: set<Issued<V>>) {
    forall k :: k in m ==> Issued(k, m[k]) in log
  }

  lemma FromJoin<V(!new)>(m: Map<V>, n: Map<V>, log: set<Issued<V>>)
    requires From(m, log) && From(n, log)
    ensures From(Join(m, n), log)
  {
  }

  /** `m` is the per-key maximum of everything in the log. */
  ghost predicate Best<V(!new)>(m: Map<V>, log: set<Issued<V>>) {
    From(m, log) && forall w :: w in log ==> Has(m, w.key, w.version.stamp)
  }

  /** One stamp, one value. */
  ghost predicate Unambiguous<V(!new)>(log: set<Issued<V>>) {
    forall w, x :: w in log && x in log && w.key == x.key && w.version.stamp == x.version.stamp ==> w == x
  }

  /** The maximum of an unambiguous log is unique. */
  lemma BestUnique<V(!new)>(m: Map<V>, n: Map<V>, log: set<Issued<V>>)
    requires Unambiguous(log) && Best(m, log) && Best(n, log)
    ensures m == n
  {
    forall k ensures k in m <==> k in n {
      if k in m { assert Has(n, Issued(k, m[k]).key, m[k].stamp); }
      if k in n { assert Has(m, Issued(k, n[k]).key, n[k].stamp); }
    }
    forall k | k in m ensures m[k] == n[k] {
      assert Has(n, Issued(k, m[k]).key, m[k].stamp);
      assert Has(m, Issued(k, n[k]).key, n[k].stamp);
      NewerTotal(m[k].stamp, n[k].stamp);
      assert Issued(k, m[k]) == Issued(k, n[k]);
    }
    assert m.Keys == n.Keys;
  }

  // ------------------------------------------------------------------ applying an inbox

  /** Some message carries a version of `k` at least as new as `st`. */
  ghost predicate Carries<V(!new)>(ms: seq<Message<V>>, k: string, st: Stamp) {
    exists i :: 0 <= i < |ms| && Has(ms[i].entries, k, st)
  }

  ghost predicate AllFrom<V(!new)>(ms: seq<Message<V>>, log: set<Issued<V>>) {
    forall i :: 0 <= i < |ms| ==> From(ms[i].entries, log)
  }

  lemma {:induction false} AppliedKeeps<V(!new)>(c: Copy<V>, ms: seq<Message<V>>, c': Copy<V>, log: set<Issued<V>>)
    requires Applied(c, ms, c') && ClockOk(c) && From(c.s, log) && AllFrom(ms, log)
    ensures ClockOk(c') && From(c'.s, log) && c'.clock >= c.clock
  {
    if ms != [] {
      var mid :| Applied(c, ms[..|ms| - 1], mid) && Merged(mid, ms[|ms| - 1].entries, c');
      AppliedKeeps(c, ms[..|ms| - 1], mid, log);
      FromJoin(mid.s, ms[|ms| - 1].entries, log);
    }
  }

  /** After applying its inbox a copy has exactly what it had or was sent. */
  lemma {:induction false} AppliedHas<V(!new)>(c: Copy<V>, ms: seq<Message<V>>, c': Copy<V>, k: string, st: Stamp)
    requires Applied(c, ms, c')
    ensures Has(c'.s, k, st) <==> Has(c.s, k, st) || Carries(ms, k, st)
  {
    if ms != [] {
      var init, last := ms[..|ms| - 1], ms[|ms| - 1];
      var mid :| Applied(c, init, mid) && Merged(mid, last.entries, c');
      AppliedHas(c, init, mid, k, st);
      HasJoin(mid.s, last.entries, k, st);
      if Carries(init, k, st) {
        var i :| 0 <= i < |init| && Has(init[i].entries, k, st);
        assert Has(ms[i].entries, k, st);
      }
      if Carries(ms, k, st) {
        var i :| 0 <= i < |ms| && Has(ms[i].entries, k, st);
        if i < |init| { assert Has(init[i].entries, k, st); }
      }
    }
  }

  /** Any digest can be observed. */
  lemma {:induction false} ClockExists<V(!new)>(from: int, n: Map<V>) returns (clock: int)
    ensures ClockAfter(from, n, clock)
    decreases n.Keys
  {
    if n.Keys == {} {
      clock := from;
      assert forall k :: k in n ==> k in n.Keys;
    } else {
      var k :| k in n.Keys;
      var rest := n - {k};
      var c := ClockExists(from, rest);
      clock := if c < n[k].stamp.ts then n[k].stamp.ts else c;
      assert forall x :: x in n ==> x == k || x in rest;
      if clock == n[k].stamp.ts {
        assert k in n && n[k].stamp.ts == clock;
      } else if c != from {
        var x :| x in rest && rest[x].stamp.ts == c;
        assert x in n && n[x].stamp.ts == clock;
      }
    }
  }

  /** Any inbox can be applied, so a sync is always possible. */
  lemma {:induction false} SyncPossible<V(!new)>(c: Copy<V>, ms: seq<Message<V>>) returns (c': Copy<V>)
    ensures Applied(c, ms, c')
  {
    if ms == [] {
      c' := c;
    } else {
      var mid := SyncPossible(c, ms[..|ms| - 1]);
      var n := ms[|ms| - 1].entries;
      var clock := ClockExists(mid.clock, n);
      c' := Copy(Join(mid.s, n), clock);
      assert Merged(mid, ms[|ms| - 1].entries, c');
    }
  }

  // ------------------------------------------------------------------ invariant under loss

  ghost predicate CopyOk<V(!new)>(s: System<V>, r: string)
    requires r in s.copies && r in s.inbox
  {
    && ClockOk(s.copies[r]) && From(s.copies[r].s, s.log) && AllFrom(s.inbox[r], s.log)
  }

  /** A write is never lost at its origin, whose clock has passed it. */
  ghost predicate WriteOk<V(!new)>(s: System<V>, w: Issued<V>) {
    var o := w.version.stamp.origin;
    o in s.copies && w.version.stamp.ts <= s.copies[o].clock && Has(s.copies[o].s, w.key, w.version.stamp)
  }

  ghost predicate Inv<V(!new)>(s: System<V>) {
    && s.inbox.Keys == s.copies.Keys
    && (forall r {:trigger CopyOk(s, r)} :: r in s.copies ==> CopyOk(s, r))
    && (forall w {:trigger WriteOk(s, w)} :: w in s.log ==> WriteOk(s, w))
    && Unambiguous(s.log)
  }

  lemma InitInv<V(!new)>(ids: set<string>)
    ensures Inv(Init<V>(ids))
  {
  }

  lemma HasOlder<V(!new)>(m: Map<V>, k: string, st: Stamp, e: Versioned<V>)
    requires Has(m, k, st) && Newer(e.stamp, m[k].stamp)
    ensures Has(m[k := e], k, st)
  {
    NewerTotal(st, e.stamp);
    if Newer(st, e.stamp) { NewerTransitive(st, e.stamp, m[k].stamp); }
  }

  /** A fresh stamp keeps the log unambiguous. */
  lemma PublishFresh<V(!new)>(s: System<V>, r: string, k: string, e: Versioned<V>)
    requires Inv(s) && r in s.copies && e.stamp == Stamp(s.copies[r].clock + 1, r)
    ensures Unambiguous(s.log + {Issued(k, e)})
  {
    forall w | w in s.log ensures w.version.stamp != e.stamp {
      assert WriteOk(s, w);
    }
  }

  lemma PublishWrites<V(!new)>(s: System<V>, r: string, k: string, v: V, s': System<V>, w: Issued<V>)
    requires Inv(s) && IsStep(s, Publish(r, k, v), s') && w in s'.log
    ensures WriteOk(s', w)
  {
    var c := s.copies[r];
    var e := SetLocal(c, k, v, r).s[k];
    assert CopyOk(s, r);
    if w in s.log {
      assert WriteOk(s, w);
      if w.version.stamp.origin == r && w.key == k {
        HasOlder(c.s, k, w.version.stamp, e);
      }
    } else {
      NewerTotal(e.stamp, e.stamp);
    }
  }

  lemma PublishCopies<V(!new)>(s: System<V>, r: string, k: string, v: V, s': System<V>, o: string)
    requires Inv(s) && IsStep(s, Publish(r, k, v), s') && o in s'.copies
    ensures o in s'.inbox && CopyOk(s', o)
  {
    assert CopyOk(s, o);
    var e := SetLocal(s.copies[r], k, v, r).s[k];
    FromMore(s.copies[o].s, s.log, s'.log);
    AllFromMore(s.inbox[o], s.log, s'.log);
    if o != r {
      AllFromSnoc(s.inbox[o], Message(r, map[k := e]), s'.log);
    }
  }

  lemma FromMore<V(!new)>(m: Map<V>, log: set<Issued<V>>, log': set<Issued<V>>)
    requires From(m, log) && log <= log'
    ensures From(m, log')
  {
  }

  lemma AllFromMore<V(!new)>(ms: seq<Message<V>>, log: set<Issued<V>>, log': set<Issued<V>>)
    requires AllFrom(ms, log) && log <= log'
    ensures AllFrom(ms, log')
  {
    forall i | 0 <= i < |ms| ensures From(ms[i].entries, log') {
      FromMore(ms[i].entries, log, log');
    }
  }

  lemma PublishInv<V(!new)>(s: System<V>, r: string, k: string, v: V, s': System<V>)
    requires Inv(s) && IsStep(s, Publish(r, k, v), s')
    ensures Inv(s')
  {
    hide CopyOk, WriteOk, Unambiguous;
    PublishFresh(s, r, k, SetLocal(s.copies[r], k, v, r).s[k]);
    forall w | w in s'.log ensures WriteOk(s', w) {
      PublishWrites(s, r, k, v, s', w);
    }
    forall o | o in s'.copies ensures CopyOk(s', o) {
      PublishCopies(s, r, k, v, s', o);
    }
  }

  lemma DigestInv<V(!new)>(s: System<V>, r: string, s': System<V>)
    requires Inv(s) && IsStep(s, Digest(r), s')
    ensures Inv(s')
  {
    hide AllFrom, From, ClockOk, Has, Unambiguous;
    var m := Message(r, s.copies[r].s);
    assert CopyOk(s, r);
    forall o | o in s'.copies ensures CopyOk(s', o) {
      assert CopyOk(s, o);
      AllFromSnoc(s.inbox[o], m, s.log);
    }
    forall w | w in s'.log ensures WriteOk(s', w) { assert WriteOk(s, w); }
  }

  lemma AllFromSnoc<V(!new)>(ms: seq<Message<V>>, m: Message<V>, log: set<Issued<V>>)
    requires AllFrom(ms, log) && From(m.entries, log)
    ensures AllFrom(ms + [m], log)
  {
  }

  lemma SyncInv<V(!new)>(s: System<V>, r: string, s': System<V>)
    requires Inv(s) && IsStep(s, Sync(r), s')
    ensures Inv(s')
  {
    assert CopyOk(s, r);
    AppliedKeeps(s.copies[r], s.inbox[r], s'.copies[r], s.log);
    forall o | o in s'.copies ensures CopyOk(s', o) { assert CopyOk(s, o); }
    forall w | w in s'.log ensures WriteOk(s', w) {
      assert WriteOk(s, w);
      if w.version.stamp.origin == r {
        AppliedHas(s.copies[r], s.inbox[r], s'.copies[r], w.key, w.version.stamp);
      }
    }
  }

  /** A write that is not broadcast keeps whatever the same write with a broadcast keeps. */
  lemma SeedInv<V(!new)>(s: System<V>, r: string, k: string, v: V, s': System<V>)
    requires Inv(s) && IsStep(s, Seed(r, k, v), s')
    ensures Inv(s')
  {
    hide ClockOk, From, Unambiguous, Has, AllFrom;
    var c := SetLocal(s.copies[r], k, v, r);
    var sent := s'.(inbox := Broadcast(s.inbox, Message(r, map[k := c.s[k]])));
    PublishInv(s, r, k, v, sent);
    forall o | o in s'.copies ensures CopyOk(s', o) {
      assert CopyOk(s, o) && CopyOk(sent, o);
      AllFromMore(s.inbox[o], s.log, s'.log);
    }
    forall w | w in s'.log ensures WriteOk(s', w) { assert WriteOk(sent, w); }
  }

  lemma ScrambleInv<V(!new)>(s: System<V>, r: string, kept: seq<Message<V>>, s': System<V>)
    requires Inv(s) && IsStep(s, Scramble(r, kept), s')
    ensures Inv(s')
  {
    forall o | o in s'.copies ensures CopyOk(s', o) { assert CopyOk(s, o); }
    forall w | w in s'.log ensures WriteOk(s', w) { assert WriteOk(s, w); }
  }

  lemma StepInv<V(!new)>(s: System<V>, ev: Event<V>, s': System<V>)
    requires Inv(s) && IsStep(s, ev, s')
    ensures Inv(s') && s'.copies.Keys == s.copies.Keys && s.log <= s'.log
  {
    match ev
    case Publish(r, k, v) => PublishInv(s, r, k, v, s');
    case Digest(r) => DigestInv(s, r, s');
    case Sync(r) => SyncInv(s, r, s');
    case Seed(r, k, v) => SeedInv(s, r, k, v, s');
    case Scramble(r, kept) => ScrambleInv(s, r, kept, s');
  }

  lemma {:induction false} RunInv<V(!new)>(states: seq<System<V>>, evs: seq<Event<V>>)
    requires IsRun(states, evs) && Inv(states[0])
    ensures Inv(states[|evs|]) && states[|evs|].copies.Keys == states[0].copies.Keys
  {
    if evs != [] {
      var n := |evs| - 1;
      RunInv(states[..n + 1], evs[..n]);
      assert states[..n + 1][n] == states[n];
      StepInv(states[n], evs[n], states[n + 1]);
    }
  }

  // ------------------------------------------------------------------ strong convergence

  /** Replica `r` has, or is about to be given, write `w`. */
  ghost predicate Reaches<V(!new)>(s: System<V>, r: string, w: Issued<V>)
    requires r in s.copies && r in s.inbox
  {
    Has(s.copies[r].s, w.key, w.version.stamp) || Carries(s.inbox[r], w.key, w.version.stamp)
  }

  /** Nothing issued has been lost on its way to anybody. */
  ghost predicate Delivered<V(!new)>(s: System<V>)
    requires s.inbox.Keys == s.copies.Keys
  {
    forall r, w {:trigger Reaches(s, r, w)} :: r in s.copies && w in s.log ==> Reaches(s, r, w)
  }

  lemma CarriesMore<V(!new)>(ms: seq<Message<V>>, m: Message<V>, k: string, st: Stamp)
    requires Carries(ms, k, st) || Has(m.entries, k, st)
    ensures Carries(ms + [m], k, st)
  {
    if Carries(ms, k, st) {
      var i :| 0 <= i < |ms| && Has(ms[i].entries, k, st);
      assert Has((ms + [m])[i].entries, k, st);
    } else {
      assert Has((ms + [m])[|ms|].entries, k, st);
    }
  }

  lemma PublishReaches<V(!new)>(s: System<V>, p: string, k: string, v: V, s': System<V>, r: string, w: Issued<V>)
    requires Inv(s) && Delivered(s) && IsStep(s, Publish(p, k, v), s') && r in s'.copies && w in s'.log
    requires r in s'.inbox
    ensures Reaches(s', r, w)
  {
    var e := SetLocal(s.copies[p], k, v, p).s[k];
    assert CopyOk(s, p);
    NewerTotal(e.stamp, e.stamp);
    if w in s.log { assert Reaches(s, r, w); }
    if r == p {
      if w in s.log && w.key == k && Has(s.copies[p].s, k, w.version.stamp) {
        HasOlder(s.copies[p].s, k, w.version.stamp, e);
      }
    } else if w in s.log {
      if Carries(s.inbox[r], w.key, w.version.stamp) {
        CarriesMore(s.inbox[r], Message(p, map[k := e]), w.key, w.version.stamp);
      }
    } else {
      CarriesMore(s.inbox[r], Message(p, map[k := e]), w.key, w.version.stamp);
    }
  }

  lemma StepDelivered<V(!new)>(s: System<V>, ev: Event<V>, s': System<V>)
    requires Inv(s) && Delivered(s) && IsStep(s, ev, s') && !ev.Scramble? && !ev.Seed?
    ensures s'.inbox.Keys == s'.copies.Keys && Delivered(s')
  {
    StepInv(s, ev, s');
    forall r, w | r in s'.copies && w in s'.log ensures Reaches(s', r, w) {
      match ev
      case Publish(p, k, v) => PublishReaches(s, p, k, v, s', r, w);
      case Digest(p) =>
        assert Reaches(s, r, w);
        if s' != s && r != p && Carries(s.inbox[r], w.key, w.version.stamp) {
          CarriesMore(s.inbox[r], Message(p, s.copies[p].s), w.key, w.version.stamp);
        }
      case Sync(p) =>
        assert Reaches(s, r, w);
        if r == p { AppliedHas(s.copies[p], s.inbox[p], s'.copies[p], w.key, w.version.stamp); }
    }
  }

  ghost predicate Reliable<V(!new)>(evs: seq<Event<V>>) {
    forall i :: 0 <= i < |evs| ==> !evs[i].Scramble? && !evs[i].Seed?
  }

  lemma {:induction false} RunDelivered<V(!new)>(states: seq<System<V>>, evs: seq<Event<V>>)
    requires IsRun(states, evs) && Reliable(evs) && Inv(states[0]) && Delivered(states[0])
    ensures Inv(states[|evs|]) && Delivered(states[|evs|])
  {
    if evs != [] {
      var n := |evs| - 1;
      RunDelivered(states[..n + 1], evs[..n]);
      assert states[..n + 1][n] == states[n];
      StepInv(states[n], evs[n], states[n + 1]);
      StepDelivered(states[n], evs[n], states[n + 1]);
    }
  }

  /** When nothing was lost, a replica with an empty inbox has everything. */
  lemma QuietIsBest<V(!new)>(s: System<V>, r: string)
    requires Inv(s) && Delivered(s) && r in s.copies && s.inbox[r] == []
    ensures Best(s.copies[r].s, s.log)
  {
    assert CopyOk(s, r);
    forall w | w in s.log ensures Has(s.copies[r].s, w.key, w.version.stamp) {
      assert Reaches(s, r, w);
    }
  }

  /** Strong convergence: in every interleaving of writes, digests and syncs over replicas registered at
      the start, a replica whose inbox is empty holds the per-key maximum of all writes ever issued. */
  lemma StrongConvergence<V(!new)>(ids: set<string>, states: seq<System<V>>, evs: seq<Event<V>>, r: string)
    requires IsRun(states, evs) && Reliable(evs) && states[0] == Init(ids)
    requires r in ids
    ensures r in states[|evs|].copies && r in states[|evs|].inbox
    ensures states[|evs|].inbox[r] == [] ==> Best(states[|evs|].copies[r].s, states[|evs|].log)
  {
    InitInv<V>(ids);
    RunDelivered(states, evs);
    RunInv(states, evs);
    if states[|evs|].inbox[r] == [] { QuietIsBest(states[|evs|], r); }
  }

  /** Hence any two replicas with empty inboxes hold the same map. */
  lemma QuietReplicasAgree<V(!new)>(ids: set<string>, states: seq<System<V>>, evs: seq<Event<V>>, p: string, r: string)
    requires IsRun(states, evs) && Reliable(evs) && states[0] == Init(ids) && p in ids && r in ids
    ensures var s := states[|evs|];
      && p in s.copies && r in s.copies && p in s.inbox && r in s.inbox
      && (s.inbox[p] == [] && s.inbox[r] == [] ==> s.copies[p].s == s.copies[r].s)
  {
    StrongConvergence(ids, states, evs, p);
    StrongConvergence(ids, states, evs, r);
    InitInv<V>(ids);
    RunInv(states, evs);
    var s := states[|evs|];
    if s.inbox[p] == [] && s.inbox[r] == [] {
      BestUnique(s.copies[p].s, s.copies[r].s, s.log);
    }
  }

  // ------------------------------------------------------------------ healing after loss

  /** Every replica broadcasts its digest. */
  ghost predicate DigestPhase<V(!new)>(states: seq<System<V>>, evs: seq<Event<V>>) {
    IsRun(states, evs) && forall i :: 0 <= i < |evs| ==> evs[i].Digest?
  }

  ghost predicate SyncPhase<V(!new)>(states: seq<System<V>>, evs: seq<Event<V>>) {
    IsRun(states, evs) && forall i :: 0 <= i < |evs| ==> evs[i].Sync?
  }

  lemma {:induction false} DigestsArrive<V(!new)>(states: seq<System<V>>, evs: seq<Event<V>>, o: string, r: string)
    requires DigestPhase(states, evs) && states[0].inbox.Keys == states[0].copies.Keys
    requires o in states[0].copies && r in states[0].copies && o != r
    ensures var s := states[|evs|];
      && s.copies == states[0].copies && s.log == states[0].log && s.inbox.Keys == s.copies.Keys
      && (Digest(o) in evs && s.copies[o].s != map[] ==> Message(o, s.copies[o].s) in s.inbox[r])
  {
    if evs != [] {
      var n := |evs| - 1;
      DigestsArrive(states[..n + 1], evs[..n], o, r);
      assert states[..n + 1][n] == states[n];
      assert IsStep(states[n], evs[n], states[n + 1]);
      assert evs == evs[..n] + [evs[n]];
    }
  }

  lemma {:induction false} SyncsApply<V(!new)>(states: seq<System<V>>, evs: seq<Event<V>>, r: string)
    requires SyncPhase(states, evs) && states[0].inbox.Keys == states[0].copies.Keys && r in states[0].copies
    ensures var s := states[|evs|];
      && s.log == states[0].log && s.inbox.Keys == s.copies.Keys == states[0].copies.Keys
      && (if Sync(r) in evs then s.inbox[r] == [] && Applied(states[0].copies[r], states[0].inbox[r], s.copies[r])
          else s.inbox[r] == states[0].inbox[r] && s.copies[r] == states[0].copies[r])
  {
    if evs != [] {
      var n := |evs| - 1;
      SyncsApply(states[..n + 1], evs[..n], r);
      assert states[..n + 1][n] == states[n];
      assert IsStep(states[n], evs[n], states[n + 1]);
      assert evs == evs[..n] + [evs[n]];
    }
  }

  /** One digest round heals arbitrary loss: whatever was seeded, lost, duplicated or reordered before, once every
      replica has broadcast its digest and then every replica has synced, every replica holds the
      per-key maximum of all writes ever issued. */
  lemma DigestRoundHeals<V(!new)>(ids: set<string>, past: seq<System<V>>, events: seq<Event<V>>,
                                  ds: seq<System<V>>, digests: seq<Event<V>>, ss: seq<System<V>>, syncs: seq<Event<V>>,
                                  r: string)
    requires IsRun(past, events) && past[0] == Init(ids)
    requires DigestPhase(ds, digests) && ds[0] == past[|events|]
    requires SyncPhase(ss, syncs) && ss[0] == ds[|digests|]
    requires forall o :: o in ids ==> Digest(o) in digests
    requires r in ids && Sync(r) in syncs
    ensures r in ss[|syncs|].copies && ss[|syncs|].log == past[|events|].log
    ensures Best(ss[|syncs|].copies[r].s, past[|events|].log)
  {
    InitInv<V>(ids);
    RunInv(past, events);
    var s := past[|events|];
    RunInv(ds, digests);
    var mid := ds[|digests|];
    SyncsApply(ss, syncs, r);
    var c' := ss[|syncs|].copies[r];
    DigestsKeepLog(ds, digests);
    assert CopyOk(mid, r);
    AppliedKeeps(mid.copies[r], mid.inbox[r], c', mid.log);
    forall w | w in mid.log ensures Has(c'.s, w.key, w.version.stamp) {
      assert WriteOk(mid, w);
      var o := w.version.stamp.origin;
      if o != r {
        DigestsArrive(ds, digests, o, r);
        var i :| 0 <= i < |mid.inbox[r]| && mid.inbox[r][i] == Message(o, mid.copies[o].s);
        assert Has(mid.inbox[r][i].entries, w.key, w.version.stamp);
      }
      AppliedHas(mid.copies[r], mid.inbox[r], c', w.key, w.version.stamp);
    }
  }

  lemma {:induction false} DigestsKeepLog<V(!new)>(states: seq<System<V>>, evs: seq<Event<V>>)
    requires DigestPhase(states, evs)
    ensures states[|evs|].log == states[0].log
  {
    if evs != [] {
      var n := |evs| - 1;
      DigestsKeepLog(states[..n + 1], evs[..n]);
      assert IsStep(states[n], evs[n], states[n + 1]);
    }
  }
}
