/** One replica: applying remote events and reconciling the backend registry with the replicated maps
(gateway/cluster/coordinator.py, gateway/backends.py, and the order of calls of the admin handlers in
gateway/server.py).  The bus is the environment: published events are returned, polled ones passed in. */
module Coordinator {
  import opened Basics
  import opened Lww
  import opened LwwCluster
  import opened ReplicatedState
  import opened PrefixSets
  import TreeShape
  import Holdings
  import opened RadixTree
  import RoutingHistory

  // ------------------------------------------------------------------ registry

  datatype Backend = Backend(url: string, model: string, healthy: bool, draining: bool)

  type Fleet = map<string, Backend>

  class BackendRegistry {
    var byId: Fleet
    const defaultModel: string

    constructor (startup: Fleet, defaultModel: string)
      ensures byId == startup && this.defaultModel == defaultModel
    {
      byId := startup;
      this.defaultModel := defaultModel;
    }

    /** Add a backend, unhealthy until the next scrape, or update the url of a known one. */
    method Add(id: string, url: string, model: string) returns (created: bool)
      modifies this
      ensures byId == Added(old(byId), id, url, model, defaultModel) && created == (id !in old(byId))
      ensures id in byId && created ==>
        byId[id] == Backend(url, if model == "" then defaultModel else model, false, false)
      ensures id in byId && !created ==> byId[id] == old(byId)[id].(url := url)
      ensures byId.Keys == old(byId).Keys + {id} && forall b :: b in old(byId) && b != id ==> byId[b] == old(byId)[b]
    {
      created := id !in byId;
      if created {
        byId := byId[id := Backend(url, if model == "" then defaultModel else model, false, false)];
      } else {
        byId := byId[id := byId[id].(url := url)];
      }
    }

    method Remove(id: string) returns (existed: bool)
      modifies this
      ensures byId == old(byId) - {id} && existed == (id in old(byId))
    {
      existed := id in byId;
      byId := byId - {id};
    }

    method SetDraining(id: string, draining: bool) returns (known: bool)
      modifies this
      ensures known == (id in old(byId))
      ensures byId == if known then old(byId)[id := old(byId)[id].(draining := draining)] else old(byId)
    {
      known := id in byId;
      if known {
        byId := byId[id := byId[id].(draining := draining)];
      }
    }

    /** Backends that may receive new requests; no model means any model. */
    function IdsFor(model: Option<string>): set<string>
      reads this
    {
      set b | b in byId && byId[b].healthy && !byId[b].draining && (model.None? || model.value == byId[b].model)
    }
  }

  function Added(reg: Fleet, id: string, url: string, model: string, defaultModel: string): Fleet {
    if id in reg then reg[id := reg[id].(url := url)]
    else reg[id := Backend(url, if model == "" then defaultModel else model, false, false)]
  }

  // ------------------------------------------------------------------ what reconciliation aims at

  /** The registry agrees with the membership map on every backend the map mentions and with the
      startup configuration on every other. */
  ghost predicate InSync(reg: Fleet, m: Map<Member>, startup: Fleet) {
    && (forall b :: b in m && m[b].value.present ==> b in reg && reg[b].url == m[b].value.url)
    && (forall b :: b in m && !m[b].value.present ==> b !in reg)
    && (forall b :: b !in m ==> (b in reg <==> b in startup))
    && (forall b :: b !in m && b in startup && b in reg ==> reg[b].url == startup[b].url)
  }

  /** The registry with every draining flag taken from the drained set. */
  function Flagged(reg: Fleet, drained: set<string>): Fleet {
    map b | b in reg :: reg[b].(draining := b in drained)
  }

  /** The registry after a sync: flags are set if a drain change was reported, then membership is
      reconciled if a membership change was reported. */
  function Synced(reg: Fleet, drainReport: bool, drained: set<string>, memberReport: bool, m: Map<Member>,
                  defaultModel: string): Fleet
  {
    var reg1 := if drainReport then Flagged(reg, drained) else reg;
    if memberReport then Reconciled(reg1, m, defaultModel) else reg1
  }

  /** When flags agree after a sync, for all registries and maps. */
  lemma SyncedFlagsIff(reg: Fleet, drainReport: bool, drained: set<string>, memberReport: bool, m: Map<Member>,
                       dm: string)
    ensures var reg' := Synced(reg, drainReport, drained, memberReport, m, dm);
      FlagsAgree(reg', drained) <==>
        && (forall b :: b in reg' && b !in reg ==> b !in drained)
        && (drainReport || forall b :: b in reg' && b in reg ==> (reg[b].draining <==> b in drained))
  {
    hide Reconciled;
    var reg1 := if drainReport then Flagged(reg, drained) else reg;
    ReconciledKeeps(reg1, m, dm);
    var reg' := Synced(reg, drainReport, drained, memberReport, m, dm);
    assert reg1.Keys == reg.Keys;
    assert forall b :: b in reg' && b in reg ==> reg'[b].draining == reg1[b].draining;
    assert forall b :: b in reg' && b !in reg ==> !reg'[b].draining;
  }

  /** Each registered backend drains exactly when the drain map says so. */
  ghost predicate FlagsAgree(reg: Fleet, drained: set<string>) {
    forall b :: b in reg ==> (reg[b].draining <==> b in drained)
  }

  /** Whether the registry is in sync depends on the visible part of the map only. */
  lemma InSyncVisible(reg: Fleet, m: Map<Member>, m': Map<Member>, startup: Fleet)
    requires InSync(reg, m, startup) && Visible(m') == Visible(m)
    ensures InSync(reg, m', startup)
  {
    assert m'.Keys == Visible(m').Keys == Visible(m).Keys == m.Keys;
    forall b | b in m ensures m'[b].value.present == m[b].value.present && m'[b].value.url == m[b].value.url {
      assert Visible(m')[b] == Visible(m)[b];
    }
  }

  lemma SameFlagsSameDrained(s: Map<bool>, s': Map<bool>)
    requires Flags(s) == Flags(s')
    ensures DrainedSet(s) == DrainedSet(s')
  {
    forall b ensures b in DrainedSet(s) <==> b in DrainedSet(s') {
      assert b in s <==> b in Flags(s);
      assert b in s' <==> b in Flags(s');
      if b in s { assert Flags(s)[b] == Flags(s')[b]; }
    }
  }

  /** The registry after reconciliation with membership map `m`: mentioned backends as `m` says, all
      others as they were. */
  function Reconciled(reg: Fleet, m: Map<Member>, defaultModel: string): Fleet {
    map b | b in reg.Keys + m.Keys && (b in m ==> m[b].value.present) ::
      if b in m then Added(reg, b, m[b].value.url, m[b].value.model, defaultModel)[b] else reg[b]
  }

  /** Reconciling establishes agreement, whichever map the registry was in sync with before. */
  lemma ReconciledInSync(reg: Fleet, before: Map<Member>, m: Map<Member>, startup: Fleet, defaultModel: string)
    requires InSync(reg, before, startup) && before.Keys <= m.Keys
    ensures InSync(Reconciled(reg, m, defaultModel), m, startup)
  {
    var reg' := Reconciled(reg, m, defaultModel);
    forall b | b !in m ensures (b in reg' <==> b in startup) && (b in reg' ==> reg'[b].url == startup[b].url) {
      assert b !in before;
    }
  }

  /** A backend that stays keeps health, model and draining flag; one that is added starts without. */
  lemma ReconciledKeeps(reg: Fleet, m: Map<Member>, defaultModel: string)
    ensures var reg' := Reconciled(reg, m, defaultModel);
      && (forall b :: b in reg' && b in reg ==> reg'[b] == reg[b].(url := reg'[b].url))
      && (forall b :: b in reg' && b !in reg ==>
            && b in m
            && reg'[b] == Backend(m[b].value.url,
                                  if m[b].value.model == "" then defaultModel else m[b].value.model, false, false))
  {
  }

  /** Reconciling once more changes nothing. */
  lemma ReconciledTwice(reg: Fleet, m: Map<Member>, defaultModel: string)
    ensures var reg' := Reconciled(reg, m, defaultModel); Reconciled(reg', m, defaultModel) == reg'
  {
    var reg' := Reconciled(reg, m, defaultModel);
    var reg'' := Reconciled(reg', m, defaultModel);
    assert reg''.Keys == reg'.Keys;
  }

  /** From `reg0`, the backends in `done` have been added or have had their url updated. */
  ghost predicate PresentAdded(reg0: Fleet, present: map<string, (string, string)>, done: set<string>, reg: Fleet,
                               dm: string)
  {
    && done <= present.Keys && reg.Keys == reg0.Keys + done
    && forall b :: b in reg ==>
         reg[b] == if b in done then Added(reg0, b, present[b].0, present[b].1, dm)[b] else reg0[b]
  }

  lemma NothingAdded(reg: Fleet, present: map<string, (string, string)>, dm: string)
    ensures PresentAdded(reg, present, {}, reg, dm)
  {
  }

  lemma OneMoreAdded(reg0: Fleet, present: map<string, (string, string)>, done: set<string>, reg: Fleet, b: string,
                     dm: string)
    requires PresentAdded(reg0, present, done, reg, dm) && b in present && b !in done
    ensures PresentAdded(reg0, present, done + {b}, Added(reg, b, present[b].0, present[b].1, dm), dm)
  {
  }

  lemma AddedThenDropped(reg0: Fleet, present: map<string, (string, string)>, reg: Fleet, removed: set<string>,
                         m: Map<Member>, dm: string)
    requires PresentAdded(reg0, present, present.Keys, reg, dm)
    requires forall b :: b in present <==> b in m && m[b].value.present
    requires forall b :: b in present ==> present[b] == (m[b].value.url, m[b].value.model)
    requires forall b :: b in removed <==> b in m && !m[b].value.present
    ensures reg - removed == Reconciled(reg0, m, dm)
    ensures forall b :: b in removed && b in reg <==> b in reg0 && b !in reg - removed
  {
    assert (reg - removed).Keys == Reconciled(reg0, m, dm).Keys;
  }

  /** The drain map says the same about every backend. */
  ghost predicate SameFlags(s: Map<bool>, s': Map<bool>) {
    Flags(s') == Flags(s)
  }

  ghost predicate SameVisible(s: Map<Member>, s': Map<Member>) {
    Visible(s') == Visible(s)
  }

  // ------------------------------------------------------------------ events

  datatype Remote =
    | Load
    | Drain(origin: string, ts: int, backend: string, draining: bool)
    | DrainDigest(origin: string, drains: Map<bool>)
    | MemberChange(origin: string, ts: int, backend: string, member: Member)
    | MemberDigest(origin: string, members: Map<Member>)
    | Insert(hashes: Path, backend: string)
    | RemoveBackend(backend: string)

  /** The drain message of an event, if it is one. */
  function DrainPart(e: Remote): (r: seq<Message<bool>>)
    ensures |r| <= 1
  {
    match e
    case Drain(o, ts, b, d) => [Message(o, map[b := Versioned(d, Stamp(ts, o))])]
    case DrainDigest(o, n) => [Message(o, n)]
    case _ => []
  }

  function MemberPart(e: Remote): (r: seq<Message<Member>>)
    ensures |r| <= 1
  {
    match e
    case MemberChange(o, ts, b, m) => [Message(o, map[b := Versioned(m, Stamp(ts, o))])]
    case MemberDigest(o, n) => [Message(o, n)]
    case _ => []
  }

  /** The drain messages among the events, in order. */
  function Drains(es: seq<Remote>): seq<Message<bool>> {
    if es == [] then [] else Drains(es[..|es| - 1]) + DrainPart(es[|es| - 1])
  }

  function Members(es: seq<Remote>): seq<Message<Member>> {
    if es == [] then [] else Members(es[..|es| - 1]) + MemberPart(es[|es| - 1])
  }

  /** The operation on the prefix tree an event asks for, if any. */
  function TreePart(e: Remote): (r: seq<RoutingHistory.Op>)
    ensures |r| <= 1
  {
    match e
    case Insert(h, b) => [RoutingHistory.Insert(h, b)]
    case RemoveBackend(b) => [RoutingHistory.Remove(b)]
    case _ => []
  }

  function TreeOps(es: seq<Remote>): seq<RoutingHistory.Op> {
    if es == [] then [] else TreeOps(es[..|es| - 1]) + TreePart(es[|es| - 1])
  }

  function Removals(bs: seq<string>): (r: seq<RoutingHistory.Op>)
    ensures |r| == |bs| && forall i :: 0 <= i < |bs| ==> r[i] == RoutingHistory.Remove(bs[i])
  {
    seq(|bs|, i requires 0 <= i < |bs| => RoutingHistory.Remove(bs[i]))
  }

  /** A sync leaves the registry in step with the merged membership map. */
  lemma SyncedInSync(reg: Fleet, startup: Fleet, c: Copy<Member>, ms: seq<Message<Member>>, c': Copy<Member>,
                     drainReport: bool, drained: set<string>, dm: string)
    requires InSync(reg, c.s, startup) && Applied(c, ms, c')
    ensures InSync(Synced(reg, drainReport, drained, MemberReported(c.s, ms), c'.s, dm), c'.s, startup)
  {
    hide InSync, Applied, MemberReported, Reconciled;
    var reg1 := if drainReport then Flagged(reg, drained) else reg;
    InSyncDraining(reg, reg1, c.s, startup);
    if MemberReported(c.s, ms) {
      KeysGrow(c, ms, c');
      ReconciledInSync(reg1, c.s, c'.s, startup, dm);
    } else {
      AppliedJoined(c, ms, c');
      UnreportedSame(map[], [], c.s, ms);
      InSyncVisible(reg1, c.s, c'.s, startup);
    }
  }

  /** The map after merging the messages in order. */
  function Joined<V>(s: Map<V>, ms: seq<Message<V>>): Map<V> {
    if ms == [] then s else Join(Joined(s, ms[..|ms| - 1]), ms[|ms| - 1].entries)
  }

  /** Some message, when it was merged, changed what the map said about some backend. */
  ghost predicate DrainReported(s: Map<bool>, ms: seq<Message<bool>>) {
    ms != [] && (DrainReported(s, ms[..|ms| - 1]) || !SameFlags(Joined(s, ms[..|ms| - 1]), Joined(s, ms)))
  }

  ghost predicate MemberReported(s: Map<Member>, ms: seq<Message<Member>>) {
    ms != [] && (MemberReported(s, ms[..|ms| - 1]) || !SameVisible(Joined(s, ms[..|ms| - 1]), Joined(s, ms)))
  }

  lemma {:induction false} AppliedJoined<V(!new)>(c: Copy<V>, ms: seq<Message<V>>, c': Copy<V>)
    requires Applied(c, ms, c')
    ensures c'.s == Joined(c.s, ms)
  {
    if ms != [] {
      var mid :| Applied(c, ms[..|ms| - 1], mid) && Merged(mid, ms[|ms| - 1].entries, c');
      AppliedJoined(c, ms[..|ms| - 1], mid);
    }
  }

  /** Nothing reported, nothing changed. */
  lemma {:induction false} UnreportedSame(s: Map<bool>, ms: seq<Message<bool>>, m: Map<Member>,
                                          ns: seq<Message<Member>>)
    ensures !DrainReported(s, ms) ==> SameFlags(s, Joined(s, ms))
    ensures !MemberReported(m, ns) ==> SameVisible(m, Joined(m, ns))
    decreases |ms| + |ns|
  {
    if ms != [] { UnreportedSame(s, ms[..|ms| - 1], m, []); }
    if ns != [] { UnreportedSame(s, [], m, ns[..|ns| - 1]); }
  }

  /** One event's message, or none, applied after the others. */
  ghost predicate Received<V(!new)>(c: Copy<V>, part: seq<Message<V>>, c': Copy<V>) {
    if part == [] then c' == c else |part| == 1 && Merged(c, part[0].entries, c')
  }

  lemma AppliedPart<V(!new)>(c: Copy<V>, ms: seq<Message<V>>, mid: Copy<V>, part: seq<Message<V>>, c': Copy<V>)
    requires Applied(c, ms, mid) && Received(mid, part, c')
    ensures Applied(c, ms + part, c')
  {
    if part == [] {
      assert ms + part == ms;
    } else {
      assert part == [part[0]];
      AppliedOneMore(c, ms, mid, part[0], c');
    }
  }

  lemma AppliedOneMore<V(!new)>(c: Copy<V>, ms: seq<Message<V>>, mid: Copy<V>, m: Message<V>, c': Copy<V>)
    requires Applied(c, ms, mid) && Merged(mid, m.entries, c')
    ensures Applied(c, ms + [m], c')
  {
    var all := ms + [m];
    assert all[..|all| - 1] == ms && all[|all| - 1] == m;
    assert Merged(mid, all[|all| - 1].entries, c');
  }

  // ------------------------------------------------------------------ the coordinator

  /** One replica.  `history` is every operation its tree has been through. */
  class ClusterCoordinator {
    const replicaId: string
    const tree: RadixTree
    const registry: BackendRegistry
    const drain: DrainState
    const membership: MembershipState
    ghost const startup: Fleet
    ghost var history: seq<RoutingHistory.Op>

    ghost predicate TreeOk()
      reads this, tree
    {
      tree.Valid() && RoutingHistory.Tracks(tree, history)
    }

    ghost predicate Valid()
      reads this, tree, registry, drain, membership
    {
      TreeOk() && InSync(registry.byId, membership.s, startup)
    }

    constructor (tree: RadixTree, registry: BackendRegistry, replicaId: string, ghost history: seq<RoutingHistory.Op>)
      requires tree.Valid() && RoutingHistory.Tracks(tree, history)
      requires forall b :: b in registry.byId ==> !registry.byId[b].draining
      ensures Valid() && fresh(drain) && fresh(membership) && this.tree == tree && this.registry == registry
      ensures this.replicaId == replicaId && startup == registry.byId && this.history == history
      ensures drain.View() == Copy(map[], 0) && membership.View() == Copy(map[], 0)
      ensures FlagsAgree(registry.byId, DrainedSet(drain.s))
    {
      this.tree, this.registry, this.replicaId := tree, registry, replicaId;
      startup, this.history := registry.byId, history;
      drain := new DrainState();
      membership := new MembershipState();
    }

    /** Make every draining flag match the drain map. */
    method ReconcileDrains()
      modifies registry
      ensures registry.byId == Flagged(old(registry.byId), DrainedSet(drain.s))
      ensures FlagsAgree(registry.byId, DrainedSet(drain.s))
    {
      var drained := drain.Drained();
      var todo := registry.byId.Keys;
      while todo != {}
        invariant registry.byId.Keys == old(registry.byId.Keys) && todo <= registry.byId.Keys
        invariant forall b :: b in registry.byId ==>
          registry.byId[b] ==
            if b in todo then old(registry.byId)[b] else old(registry.byId)[b].(draining := b in drained)
        decreases todo
      {
        var b :| b in todo;
        var _ := registry.SetDraining(b, b in drained);
        todo := todo - {b};
      }
    }

    /** On boot: mark what the durable snapshot says is drained, each as a local write, and reconcile.
        The order in which a set is walked does not matter. */
    method WarmStart(snapshot: set<string>)
      requires Valid()
      modifies registry, drain
      ensures Valid() && FlagsAgree(registry.byId, DrainedSet(drain.s))
      ensures exists order: seq<string> ::
        (forall b :: b in order <==> b in snapshot) && drain.View() == DrainAll(old(drain.View()), order, replicaId)
      ensures DrainedSet(drain.s) == old(DrainedSet(drain.s)) + snapshot
      ensures registry.byId.Keys == old(registry.byId.Keys)
    {
      hide TreeShape.Shape, Holdings.LruOk, Holdings.Cov;
      var todo := snapshot;
      ghost var order: seq<string> := [];
      while todo != {}
        invariant registry.byId == old(registry.byId)
        invariant todo <= snapshot && forall b :: b in order <==> b in snapshot - todo
        invariant drain.View() == DrainAll(old(drain.View()), order, replicaId)
        decreases todo
      {
        var b :| b in todo;
        var _ := drain.SetLocal(b, true, replicaId);
        assert (order + [b])[..|order|] == order;
        order := order + [b];
        todo := todo - {b};
      }
      DrainAllEffect(old(drain.View()), order, replicaId);
      ReconcileDrains();
      InSyncDraining(old(registry.byId), registry.byId, membership.s, startup);
    }

    /** Make the registry match the membership map; a backend removed here also loses its prefixes. */
    method ReconcileMembership() returns (ghost gone: seq<string>)
      requires TreeOk()
      modifies registry, tree, this`history
      ensures TreeOk() && history == old(history) + Removals(gone)
      ensures registry.byId == Reconciled(old(registry.byId), membership.s, registry.defaultModel)
      ensures forall b :: b in gone <==> b in old(registry.byId) && b !in registry.byId
      ensures forall b :: b in gone ==> tree.Covered(b) == {}
    {
      hide RadixTree.Valid, RoutingHistory.Tracks, PresentAdded, Reconciled, Holdings.Cov;
      AddPresent();
      AddedThenDropped(old(registry.byId), membership.Present(), registry.byId, membership.Removed(), membership.s,
                       registry.defaultModel);
      gone := DropRemoved();
    }

    method AddPresent()
      modifies registry
      ensures PresentAdded(old(registry.byId), membership.Present(), membership.Present().Keys, registry.byId,
        registry.defaultModel)
    {
      hide PresentAdded;
      var present := membership.Present();
      var todo := present.Keys;
      NothingAdded(registry.byId, present, registry.defaultModel);
      assert present.Keys - todo == {};
      while todo != {}
        invariant todo <= present.Keys
        invariant PresentAdded(old(registry.byId), present, present.Keys - todo, registry.byId, registry.defaultModel)
        decreases todo
      {
        var b :| b in todo;
        OneMoreAdded(old(registry.byId), present, present.Keys - todo, registry.byId, b, registry.defaultModel);
        assert present.Keys - (todo - {b}) == (present.Keys - todo) + {b};
        var _ := registry.Add(b, present[b].0, present[b].1);
        todo := todo - {b};
      }
      assert present.Keys - todo == present.Keys;
    }

    method DropRemoved() returns (ghost gone: seq<string>)
      requires TreeOk()
      modifies registry, tree, this`history
      ensures TreeOk() && history == old(history) + Removals(gone)
      ensures registry.byId == old(registry.byId) - membership.Removed()
      ensures forall b :: b in gone <==> b in membership.Removed() && b in old(registry.byId)
      ensures forall b :: b in gone ==> tree.Covered(b) == {}
    {
      hide RadixTree.Valid, RoutingHistory.Tracks, TreeShape.Shape, Holdings.LruOk, Holdings.Cov;
      var removed := membership.Removed();
      var todo := removed;
      gone := [];
      while todo != {}
        invariant todo <= removed && TreeOk() && history == old(history) + Removals(gone)
        invariant registry.byId == old(registry.byId) - (removed - todo)
        invariant forall b :: b in gone <==> b in removed - todo && b in old(registry.byId)
        invariant forall b :: b in gone ==> tree.Covered(b) == {}
        decreases todo
      {
        var b :| b in todo;
        var existed := registry.Remove(b);
        if existed {
          RoutingHistory.Extend(tree, history, RoutingHistory.Remove(b));
          history := history + [RoutingHistory.Remove(b)];
          assert Removals(gone + [b]) == Removals(gone) + [RoutingHistory.Remove(b)];
          gone := gone + [b];
        }
        todo := todo - {b};
      }
    }

    /** Apply one polled event; report whether the drain map or the membership map has changed. */
    method ApplyRemote(e: Remote) returns (drains: bool, members: bool)
      requires TreeOk()
      modifies tree, drain, membership, this`history
      ensures TreeOk() && history == old(history) + TreePart(e)
      ensures Received(old(drain.View()), DrainPart(e), drain.View())
      ensures Received(old(membership.View()), MemberPart(e), membership.View())
      ensures drains <==> !SameFlags(old(drain.s), drain.s)
      ensures members <==> !SameVisible(old(membership.s), membership.s)
    {
      hide RadixTree.Valid, RoutingHistory.Tracks, TreeShape.Shape, Holdings.LruOk, Holdings.Cov,
        RoutingHistory.CovStep;
      drains, members := false, false;
      match e
      case Load =>
      case Drain(o, ts, b, d) =>
        ApplyMerges(drain.View(), b, Versioned(d, Stamp(ts, o)));
        drains := drain.Apply(b, d, ts, o);
      case DrainDigest(o, n) =>
        drains := drain.Merge(n);
      case MemberChange(o, ts, b, m) =>
        ApplyMerges(membership.View(), b, Versioned(m, Stamp(ts, o)));
        members := membership.Apply(b, m, ts, o);
      case MemberDigest(o, n) =>
        members := membership.Merge(n);
      case Insert(h, b) =>
        RoutingHistory.Extend(tree, history, RoutingHistory.Insert(h, b));
        history := history + [RoutingHistory.Insert(h, b)];
      case RemoveBackend(b) =>
        RoutingHistory.Extend(tree, history, RoutingHistory.Remove(b));
        history := history + [RoutingHistory.Remove(b)];
    }

    /** Apply everything polled, then reconcile what has changed.

    Both maps are merged with every message in order, and the registry is in sync with the membership map
    afterwards although it is reconciled only on a reported change.  A backend that stays keeps its health
    and model, one that is added starts unhealthy and undrained.  The draining flags agree with the drain
    map afterwards if and only if no backend added by this sync is drained and either some message reported
    a drain change or the flags of the backends that stay agreed before.  The tree goes through the polled
    inserts and removals in order and then drops every backend that left the registry. */
    method SyncEvents(events: seq<Remote>) returns (ghost gone: seq<string>)
      requires Valid()
      modifies tree, registry, drain, membership, this`history
      ensures Valid()
      ensures Applied(old(drain.View()), Drains(events), drain.View())
      ensures Applied(old(membership.View()), Members(events), membership.View())
      ensures registry.byId == Synced(old(registry.byId),
        DrainReported(old(drain.s), Drains(events)), DrainedSet(drain.s),
        MemberReported(old(membership.s), Members(events)), membership.s, registry.defaultModel)
      ensures FlagsAgree(registry.byId, DrainedSet(drain.s)) <==>
        && (forall b :: b in registry.byId && b !in old(registry.byId) ==> b !in DrainedSet(drain.s))
        && (|| DrainReported(old(drain.s), Drains(events))
            || forall b :: b in registry.byId && b in old(registry.byId) ==>
                 (old(registry.byId)[b].draining <==> b in old(DrainedSet(drain.s))))
      ensures forall b :: b in registry.byId && b in old(registry.byId) ==>
        && registry.byId[b].healthy == old(registry.byId)[b].healthy
        && registry.byId[b].model == old(registry.byId)[b].model
      ensures forall b :: b in registry.byId && b !in old(registry.byId) ==>
        && b in membership.s
        && registry.byId[b] == Backend(membership.s[b].value.url,
             if membership.s[b].value.model == "" then registry.defaultModel else membership.s[b].value.model,
             false, false)
      ensures history == old(history) + TreeOps(events) + Removals(gone)
      ensures forall b :: b in gone <==> b in old(registry.byId) && b !in registry.byId
      ensures forall b :: b in gone ==> tree.Covered(b) == {}
    {
      hide RadixTree.Valid, RoutingHistory.Tracks, Applied, Reconciled, InSync, Holdings.Cov, Drains, Members, TreeOps;
      hide DrainReported, MemberReported, Joined;
      var drainsChanged, membersChanged := ApplyAll(events);
      AppliedJoined(old(drain.View()), Drains(events), drain.View());
      AppliedJoined(old(membership.View()), Members(events), membership.View());
      UnreportedSame(old(drain.s), Drains(events), old(membership.s), Members(events));
      gone := [];
      if drainsChanged {
        ReconcileDrains();
      } else {
        SameFlagsSameDrained(old(drain.s), drain.s);
      }
      InSyncDraining(old(registry.byId), registry.byId, old(membership.s), startup);
      if membersChanged {
        KeysGrow(old(membership.View()), Members(events), membership.View());
        ReconciledInSync(registry.byId, old(membership.s), membership.s, startup, registry.defaultModel);
        ReconciledKeeps(registry.byId, membership.s, registry.defaultModel);
        gone := ReconcileMembership();
      } else {
        InSyncVisible(registry.byId, old(membership.s), membership.s, startup);
      }
      SyncedFlagsIff(old(registry.byId), drainsChanged, DrainedSet(drain.s), membersChanged, membership.s,
                     registry.defaultModel);
    }

    /** The loop over the polled events.  A change is reported exactly when some message, at its turn,
        changed what the map says; a later one may have changed it back. */
    method ApplyAll(events: seq<Remote>) returns (drainsChanged: bool, membersChanged: bool)
      requires TreeOk()
      modifies tree, drain, membership, this`history
      ensures TreeOk() && history == old(history) + TreeOps(events)
      ensures Applied(old(drain.View()), Drains(events), drain.View())
      ensures Applied(old(membership.View()), Members(events), membership.View())
      ensures drainsChanged <==> DrainReported(old(drain.s), Drains(events))
      ensures membersChanged <==> MemberReported(old(membership.s), Members(events))
    {
      hide TreeOk, Applied, Received, DrainPart, MemberPart, TreePart, SameFlags, SameVisible, Drains, Members, TreeOps;
      hide DrainReported, MemberReported, Joined;
      drainsChanged, membersChanged := false, false;
      ghost var d0, m0, h0 := drain.View(), membership.View(), history;
      NothingYet(d0, m0, events);
      for i := 0 to |events|
        invariant TreeOk() && history == h0 + TreeOps(events[..i])
        invariant Applied(d0, Drains(events[..i]), drain.View())
        invariant Applied(m0, Members(events[..i]), membership.View())
        invariant drainsChanged <==> DrainReported(d0.s, Drains(events[..i]))
        invariant membersChanged <==> MemberReported(m0.s, Members(events[..i]))
      {
        ghost var c, d := drain.View(), membership.View();
        var dc, mc := ApplyRemote(events[i]);
        DrainsNext(d0, events, i, c, drain.View());
        MembersNext(m0, events, i, d, membership.View());
        TreeOpsNext(events, i);
        drainsChanged := drainsChanged || dc;
        membersChanged := membersChanged || mc;
      }
      assert events[..|events|] == events;
    }

    /** A dispatched request: the tree learns its blocks at once, the peers by an event. */
    method Dispatch(h: Path, b: string) returns (published: seq<Remote>)
      requires Valid()
      modifies tree, this`history
      ensures Valid() && history == old(history) + if h == [] then [] else [RoutingHistory.Insert(h, b)]
      ensures published == if h == [] then [] else [Remote.Insert(h, b)]
      ensures |h| <= tree.cap ==> Prefixes(h) <= tree.Covered(b)
    {
      hide RadixTree.Valid, RoutingHistory.Tracks, TreeShape.Shape, Holdings.LruOk, Holdings.Cov,
        RoutingHistory.CovStep, Prefixes;
      if h == [] {
        tree.Insert(h, b);
        NoPrefixes();
        return [];
      }
      RoutingHistory.Extend(tree, history, RoutingHistory.Insert(h, b));
      history := history + [RoutingHistory.Insert(h, b)];
      published := [Remote.Insert(h, b)];
    }

    /** A backend found dead: its prefixes go, here and at the peers. */
    method BackendDown(b: string) returns (e: Remote)
      requires Valid()
      modifies tree, this`history
      ensures Valid() && history == old(history) + [RoutingHistory.Remove(b)]
      ensures e == RemoveBackend(b) && tree.Covered(b) == {}
    {
      hide RadixTree.Valid, RoutingHistory.Tracks, TreeShape.Shape, Holdings.LruOk, Holdings.Cov;
      RoutingHistory.Extend(tree, history, RoutingHistory.Remove(b));
      history := history + [RoutingHistory.Remove(b)];
      e := RemoveBackend(b);
    }

    /** The depth of the query at each backend, against everything this replica has dispatched, received
        and reconciled. */
    method Lookup(h: Path) returns (best: map<string, nat>)
      requires Valid()
      ensures forall b :: b in best ==> 0 < best[b] <= RoutingHistory.LongestShared(RoutingHistory.Live(history, b), h)
      ensures forall b :: RoutingHistory.Fits(history, b, tree.cap) ==>
        && (b in best <==> RoutingHistory.LongestShared(RoutingHistory.Live(history, b), h) > 0)
        && (b in best ==> best[b] == RoutingHistory.LongestShared(RoutingHistory.Live(history, b), h))
      ensures forall b :: RoutingHistory.Latest(history, b).Some? ==>
        var g := RoutingHistory.Latest(history, b).value; 0 < |g| <= tree.cap && g <= h ==> b in best && best[b] >= |g|
    {
      hide RadixTree.Valid, RoutingHistory.Tracks, InSync;
      best := RoutingHistory.MatchAfter(tree, history, h);
    }

    /** A drain decision on this replica: record it, tell the peers, reconcile. */
    method PublishDrain(backend: string, draining: bool) returns (e: Remote)
      requires Valid()
      modifies registry, drain
      ensures Valid()
      ensures drain.View() == Lww.SetLocal(old(drain.View()), backend, draining, replicaId)
      ensures e == Drain(replicaId, drain.clock, backend, draining)
      ensures registry.byId == Flagged(old(registry.byId), DrainedSet(drain.s))
      ensures FlagsAgree(registry.byId, DrainedSet(drain.s))
      ensures DrainedSet(drain.s) ==
        if draining then old(DrainedSet(drain.s)) + {backend} else old(DrainedSet(drain.s)) - {backend}
      ensures backend in registry.byId ==> registry.byId[backend].draining == draining
    {
      var ts := drain.SetLocal(backend, draining, replicaId);
      e := Drain(replicaId, ts, backend, draining);
      ReconcileDrains();
      InSyncDraining(old(registry.byId), registry.byId, membership.s, startup);
    }

    /** The whole drain map as an event; an empty one is not sent. */
    method PublishDrainDigest() returns (published: seq<Remote>)
      ensures published == if drain.s == map[] then [] else [DrainDigest(replicaId, drain.s)]
    {
      var digest := drain.Digest();
      published := if digest == map[] then [] else [DrainDigest(replicaId, digest)];
    }

    method PublishMembershipDigest() returns (published: seq<Remote>)
      ensures published == if membership.s == map[] then [] else [MemberDigest(replicaId, membership.s)]
    {
      published := if membership.s == map[] then [] else [MemberDigest(replicaId, membership.s)];
    }

    /** The admin handler for adding a backend: registry first, then the replicated map. */
    method AdminAdd(id: string, url: string, model: string) returns (e: Remote)
      requires Valid()
      modifies registry, membership
      ensures Valid()
      ensures registry.byId == Added(old(registry.byId), id, url, model, registry.defaultModel)
      ensures membership.View() == Lww.SetLocal(old(membership.View()), id, Member(true, url, model), replicaId)
      ensures e == MemberChange(replicaId, membership.clock, id, Member(true, url, model))
    {
      var _ := registry.Add(id, url, model);
      var ts := membership.SetLocal(id, Member(true, url, model), replicaId);
      e := MemberChange(replicaId, ts, id, Member(true, url, model));
    }

    /** The admin handler for removing one; an unknown backend is refused and nothing is published. */
    method AdminRemove(id: string) returns (known: bool, e: Remote)
      requires Valid()
      modifies registry, membership, tree, this`history
      ensures Valid()
      ensures known == (id in old(registry.byId))
      ensures registry.byId == old(registry.byId) - {id}
      ensures !known ==> membership.View() == old(membership.View()) && history == old(history)
      ensures known ==> tree.Covered(id) == {} && history == old(history) + [RoutingHistory.Remove(id)]
      ensures known ==> e == MemberChange(replicaId, membership.clock, id, Member(false, "", ""))
      ensures known ==>
        membership.View() == Lww.SetLocal(old(membership.View()), id, Member(false, "", ""), replicaId)
    {
      hide RadixTree.Valid, RoutingHistory.Tracks, InSync, TreeShape.Shape, Holdings.LruOk, Holdings.Cov;
      e := Load;
      known := registry.Remove(id);
      if known {
        RoutingHistory.Extend(tree, history, RoutingHistory.Remove(id));
        history := history + [RoutingHistory.Remove(id)];
        RemovedInSync(old(registry.byId), old(membership.View()), id, replicaId, startup);
        var ts := membership.SetLocal(id, Member(false, "", ""), replicaId);
        e := MemberChange(replicaId, ts, id, Member(false, "", ""));
      } else {
        assert old(registry.byId) - {id} == old(registry.byId);
      }
    }

    /** While the flags agree, no drained backend is offered to the router. */
    method RoutableIds(model: Option<string>) returns (ids: set<string>)
      ensures FlagsAgree(registry.byId, DrainedSet(drain.s)) ==> ids !! DrainedSet(drain.s)
      ensures forall b :: b in ids <==>
        && b in registry.byId && registry.byId[b].healthy && !registry.byId[b].draining
        && (model.None? || model.value == registry.byId[b].model)
    {
      ids := registry.IdsFor(model);
    }
  }

  lemma TreeOpsNext(es: seq<Remote>, i: nat)
    requires i < |es|
    ensures TreeOps(es[..i + 1]) == TreeOps(es[..i]) + TreePart(es[i])
  {
    assert es[..i + 1][..i] == es[..i];
  }

  lemma NothingYet(d: Copy<bool>, m: Copy<Member>, es: seq<Remote>)
    ensures Applied(d, Drains(es[..0]), d) && Applied(m, Members(es[..0]), m)
    ensures !DrainReported(d.s, Drains(es[..0])) && !MemberReported(m.s, Members(es[..0])) && TreeOps(es[..0]) == []
  {
  }

  lemma DrainsNext(c0: Copy<bool>, es: seq<Remote>, i: nat, c: Copy<bool>, c': Copy<bool>)
    requires i < |es| && Applied(c0, Drains(es[..i]), c) && Received(c, DrainPart(es[i]), c')
    ensures Applied(c0, Drains(es[..i + 1]), c')
    ensures DrainReported(c0.s, Drains(es[..i + 1])) <==> DrainReported(c0.s, Drains(es[..i])) || !SameFlags(c.s, c'.s)
  {
    hide Applied, Merged;
    assert es[..i + 1][..i] == es[..i];
    var ms, part := Drains(es[..i]), DrainPart(es[i]);
    AppliedPart(c0, ms, c, part, c');
    AppliedJoined(c0, ms, c);
    AppliedJoined(c0, ms + part, c');
    if part == [] { assert ms + part == ms; } else { assert (ms + part)[..|ms + part| - 1] == ms; }
  }

  lemma MembersNext(c0: Copy<Member>, es: seq<Remote>, i: nat, c: Copy<Member>, c': Copy<Member>)
    requires i < |es| && Applied(c0, Members(es[..i]), c) && Received(c, MemberPart(es[i]), c')
    ensures Applied(c0, Members(es[..i + 1]), c')
    ensures MemberReported(c0.s, Members(es[..i + 1])) <==>
      MemberReported(c0.s, Members(es[..i])) || !SameVisible(c.s, c'.s)
  {
    hide Applied, Merged;
    assert es[..i + 1][..i] == es[..i];
    var ms, part := Members(es[..i]), MemberPart(es[i]);
    AppliedPart(c0, ms, c, part, c');
    AppliedJoined(c0, ms, c);
    AppliedJoined(c0, ms + part, c');
    if part == [] { assert ms + part == ms; } else { assert (ms + part)[..|ms + part| - 1] == ms; }
  }

  lemma {:induction false} KeysGrow<V(!new)>(c: Copy<V>, ms: seq<Message<V>>, c': Copy<V>)
    requires Applied(c, ms, c')
    ensures c.s.Keys <= c'.s.Keys
  {
    if ms != [] {
      var mid :| Applied(c, ms[..|ms| - 1], mid) && Merged(mid, ms[|ms| - 1].entries, c');
      KeysGrow(c, ms[..|ms| - 1], mid);
    }
  }

  /** Removing a backend from the registry and writing its tombstone. */
  lemma RemovedInSync(reg: Fleet, c: Copy<Member>, id: string, origin: string, startup: Fleet)
    requires InSync(reg, c.s, startup)
    ensures InSync(reg - {id}, Lww.SetLocal(c, id, Member(false, "", ""), origin).s, startup)
  {
  }

  /** Draining flags do not matter for membership. */
  lemma InSyncDraining(reg: Fleet, reg': Fleet, m: Map<Member>, startup: Fleet)
    requires InSync(reg, m, startup) && reg'.Keys == reg.Keys
    requires forall b :: b in reg ==> reg'[b].url == reg[b].url
    ensures InSync(reg', m, startup)
  {
  }

  /** What a drain event and a membership event for the same new backend amount to. */
  lemma DrainThenAdd(b: string, d: Copy<bool>, m: Copy<Member>, v: Member, p: string)
    requires var es := [Drain(p, 1, b, true), MemberChange(p, 1, b, v)];
      Applied(Copy(map[], 0), Drains(es), d) && Applied(Copy(map[], 0), Members(es), m)
    ensures d.s == map[b := Versioned(true, Stamp(1, p))] && m.s == map[b := Versioned(v, Stamp(1, p))]
  {
    hide ClockAfter, Applied, Merged, Drains, Members, Join;
    var e, f := Drain(p, 1, b, true), MemberChange(p, 1, b, v);
    TwoParts(e, f);
    assert DrainPart(e) + DrainPart(f) == [DrainPart(e)[0]] && MemberPart(e) + MemberPart(f) == [MemberPart(f)[0]];
    OneMessage(Copy(map[], 0), DrainPart(e)[0], d);
    OneMessage(Copy(map[], 0), MemberPart(f)[0], m);
  }

  lemma TwoParts(e: Remote, f: Remote)
    ensures Drains([e, f]) == DrainPart(e) + DrainPart(f) && Members([e, f]) == MemberPart(e) + MemberPart(f)
  {
    assert [e, f][..1] == [e] && [e][..0] == [];
    assert Drains([e]) == Drains([]) + DrainPart(e) && Members([e]) == Members([]) + MemberPart(e);
  }

  lemma OneMessage<V(!new)>(c: Copy<V>, m: Message<V>, c': Copy<V>)
    requires Applied(c, [m], c') && c.s == map[]
    ensures c'.s == m.entries
  {
    assert [m][..0] == [];
    var mid :| Applied(c, [m][..0], mid) && Merged(mid, m.entries, c');
    assert Join(map[], m.entries) == m.entries;
  }

  /** How the flags come to disagree and stay so: a backend that a single sync learns to be drained and
      adds is registered undrained, and a later sync that reports no drain change leaves it at that. */
  method AddedWhileDrained(b: string, url: string)
    returns (registered: bool, draining: bool, drained: bool, stillDraining: bool, stillDrained: bool)
    ensures registered && drained && !draining
    ensures stillDrained && !stillDraining
  {
    hide RadixTree.Valid, RoutingHistory.Tracks, Applied, Drains, Members, TreeOps, ClockAfter, Synced;
    hide DrainReported, MemberReported;
    var tree := RoutingHistory.Replay(16, []);
    var registry := new BackendRegistry(map[], "m");
    var c := new ClusterCoordinator(tree, registry, "r", []);
    ghost var _ := c.SyncEvents([Drain("p", 1, b, true), MemberChange("p", 1, b, Member(true, url, "m"))]);
    DrainThenAdd(b, c.drain.View(), c.membership.View(), Member(true, url, "m"), "p");
    registered := b in c.registry.byId;
    draining := registered && c.registry.byId[b].draining;
    drained := b in c.drain.s && c.drain.s[b].value;
    ghost var d, m, reg := c.drain.View(), c.membership.View(), c.registry.byId;
    ghost var _ := c.SyncEvents([]);
    QuietSync(reg, d, c.drain.View(), m, c.membership.View(), c.registry.byId, c.registry.defaultModel);
    stillDraining := b in c.registry.byId && c.registry.byId[b].draining;
    stillDrained := b in c.drain.s && c.drain.s[b].value;
  }

  /** A sync that polls nothing changes nothing. */
  lemma QuietSync(reg: Fleet, d: Copy<bool>, d': Copy<bool>, m: Copy<Member>, m': Copy<Member>, reg': Fleet, dm: string)
    requires Applied(d, Drains([]), d') && Applied(m, Members([]), m')
    requires reg' == Synced(reg, DrainReported(d.s, Drains([])), DrainedSet(d'.s), MemberReported(m.s, Members([])),
      m'.s, dm)
    ensures d' == d && m' == m && reg' == reg
  {
  }
}
