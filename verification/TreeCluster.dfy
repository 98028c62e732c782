/** What the trees of several coordinators on one bus know: what was dispatched anywhere.

For one backend the system of FleetCluster projects to the sites of TreeReplication, as long as the backend is
not removed from the membership.
 */
module TreeCluster {
  import opened Basics
  import opened Bus
  import opened Lww
  import opened LwwCluster
  import opened ReplicatedState
  import opened Coordinator
  import opened FleetCluster
  import opened PrefixSets
  import opened RoutingHistory
  import TreeReplication

  // ------------------------------------------------------------------ the operations for one backend

  function Only(ops: seq<Op>, b: string): seq<Op> {
    if ops == [] then [] else
      Only(ops[..|ops| - 1], b) + if ops[|ops| - 1].backend == b then [ops[|ops| - 1]] else []
  }

  lemma {:induction false} OnlyConcat(x: seq<Op>, y: seq<Op>, b: string)
    ensures Only(x + y, b) == Only(x, b) + Only(y, b)
  {
    if y == [] {
      assert x + y == x;
    } else {
      var init := y[..|y| - 1];
      assert (x + y)[..|x + y| - 1] == x + init;
      OnlyConcat(x, init, b);
    }
  }

  lemma OnlyOne(op: Op, b: string)
    ensures Only([op], b) == if op.backend == b then [op] else []
  {
    assert [op][..0] == [];
  }

  lemma {:induction false} OnlyNone(ops: seq<Op>, b: string)
    requires forall i :: 0 <= i < |ops| ==> ops[i].backend != b
    ensures Only(ops, b) == []
  {
    if ops != [] { OnlyNone(ops[..|ops| - 1], b); }
  }

  lemma {:induction false} LiveOnly(ops: seq<Op>, b: string)
    ensures Live(Only(ops, b), b) == Live(ops, b)
  {
    if ops != [] {
      var init, op := ops[..|ops| - 1], ops[|ops| - 1];
      assert ops == init + [op] && Only(init, b) + [] == Only(init, b);
      LiveOnly(init, b);
      TreeReplication.LiveSnoc(init, op, b);
      TreeReplication.LiveSnoc(Only(init, b), op, b);
    }
  }

  lemma {:induction false} OnlyFrom(ops: seq<Op>, b: string, i: nat)
    requires i < |Only(ops, b)|
    ensures Only(ops, b)[i] in ops
  {
    var init := ops[..|ops| - 1];
    assert ops == init + [ops[|ops| - 1]];
    if i < |Only(init, b)| { OnlyFrom(init, b, i); }
  }

  /** Every operation comes from an event. */
  lemma {:induction false} OpFrom(es: seq<Remote>, op: Op)
    requires op in TreeOps(es)
    ensures match op
      case Insert(h, b) => Remote.Insert(h, b) in es
      case Remove(b) => Remote.RemoveBackend(b) in es
  {
    var init, e := es[..|es| - 1], es[|es| - 1];
    assert es == init + [e];
    if op in TreeOps(init) {
      OpFrom(init, op);
    } else {
      assert TreePart(e) == [op];
      assert e in es;
    }
  }

  // ------------------------------------------------------------------ the projection

  function Sites(w: World, b: string): TreeReplication.Sites {
    map r | r in w.nodes && r in w.inbox ::
      TreeReplication.Site(Only(w.nodes[r].history, b), Only(TreeOps(w.inbox[r]), b))
  }

  /** What an event means for backend `b`, if anything. */
  function TreeEvent(ev: FleetCluster.Event, b: string): Option<TreeReplication.Event> {
    match ev
    case DispatchTo(r, h, a) => if a == b && h != [] then Some(TreeReplication.Dispatch(r, h, b)) else None
    case Lost(r, a) => if a == b then Some(TreeReplication.Down(r, b)) else None
    case Poll(r) => Some(TreeReplication.Sync(r))
    case _ => None
  }

  /** Backend `b` was never removed from the membership. */
  ghost predicate NoTombstone(log: set<Issued<Member>>, b: string) {
    forall x :: x in log && x.key == b ==> x.version.value.present
  }

  lemma TreeOpsSnoc(es: seq<Remote>, e: Remote, b: string)
    ensures Only(TreeOps(es + [e]), b) == Only(TreeOps(es), b) + Only(TreePart(e), b)
  {
    assert (es + [e])[..|es|] == es;
    OnlyConcat(TreeOps(es), TreePart(e), b);
  }

  /** What fanning out an event looks like in the projection. */
  lemma FanTree(inbox: map<string, seq<Remote>>, o: string, e: Remote, b: string, q: string)
    requires q in inbox
    ensures q in Fan(inbox, o, e)
    ensures Only(TreeOps(Fan(inbox, o, e)[q]), b) ==
      Only(TreeOps(inbox[q]), b) + if q == o then [] else Only(TreePart(e), b)
  {
    hide Only, TreeOps, TreePart;
    TreeOpsSnoc(inbox[q], e, b);
  }

  lemma SitesHave(w: World, r: string, b: string)
    requires r in w.nodes && r in w.inbox
    ensures r in Sites(w, b)
    ensures Sites(w, b)[r] == TreeReplication.Site(Only(w.nodes[r].history, b), Only(TreeOps(w.inbox[r]), b))
  {
  }

  lemma SitesKeys(w: World, b: string)
    requires w.inbox.Keys == w.nodes.Keys
    ensures Sites(w, b).Keys == w.nodes.Keys
  {
  }

  /** Replica `r` records `ops` and sends `e`, which says the same to the others. */
  lemma SiteTold(w: World, r: string, ops: seq<Op>, e: Remote, n': Node, w': World, b: string, q: string)
    requires w.inbox.Keys == w.nodes.Keys && r in w.nodes && q in w.nodes
    requires Only(n'.history, b) == Only(w.nodes[r].history, b) + ops && Only(TreePart(e), b) == ops
    requires w'.nodes == w.nodes[r := n'] && w'.inbox == Fan(w.inbox, r, e)
    ensures q in Sites(w, b) && q in Sites(w', b)
    ensures Sites(w', b)[q] == var x := Sites(w, b)[q];
      if q == r then TreeReplication.Site(x.applied + ops, x.inbox)
      else TreeReplication.Site(x.applied, x.inbox + ops)
  {
    hide Only, TreeOps, TreePart, Fan, Sites;
    FanTree(w.inbox, r, e, b, q);
    SitesHave(w, q, b);
    SitesHave(w', q, b);
    assert Only(TreeOps(w.inbox[q]), b) + [] == Only(TreeOps(w.inbox[q]), b);
  }

  /** Issuing an operation. */
  lemma SitesIssue(w: World, r: string, op: Op, e: Remote, n': Node, w': World, b: string)
    requires w.inbox.Keys == w.nodes.Keys && r in w.nodes
    requires n'.history == w.nodes[r].history + [op] && TreePart(e) == [op]
    requires w'.nodes == w.nodes[r := n'] && w'.inbox == Fan(w.inbox, r, e)
    ensures r in Sites(w, b)
    ensures Sites(w', b) ==
      if op.backend == b then TreeReplication.Issue(Sites(w, b), r, op) else Sites(w, b)
  {
    hide Only, TreeOps, TreePart, Fan, Sites;
    OnlyOne(op, b);
    OnlyConcat(w.nodes[r].history, [op], b);
    SitesKeys(w, b);
    FanKeys(w.inbox, r, e);
    SitesKeys(w', b);
    forall q | q in w.nodes
      ensures Sites(w', b)[q] ==
        if op.backend == b then TreeReplication.Issue(Sites(w, b), r, op)[q] else Sites(w, b)[q]
    {
      SiteTold(w, r, Only([op], b), e, n', w', b, q);
      var x := Sites(w, b)[q];
      assert x.applied + [] == x.applied && x.inbox + [] == x.inbox;
    }
  }

  lemma NothingAdded<T>(x: seq<T>, y: seq<T>)
    requires y == []
    ensures x + y == x
  {
  }

  /** A replica that records nothing and sends `e`, which says nothing about `b`. */
  lemma SiteKept(w: World, r: string, e: Remote, n': Node, w': World, b: string, q: string)
    requires w.inbox.Keys == w.nodes.Keys && r in w.nodes && q in w.nodes
    requires Only(n'.history, b) == Only(w.nodes[r].history, b) && TreePart(e) == []
    requires w'.nodes == w.nodes[r := n'] && w'.inbox == Fan(w.inbox, r, e)
    ensures q in Sites(w, b) && q in Sites(w', b) && Sites(w', b)[q] == Sites(w, b)[q]
  {
    OnlyNone(TreePart(e), b);
    hide *;
    FanTree(w.inbox, r, e, b, q);
    SitesHave(w, q, b);
    SitesHave(w', q, b);
    NothingAdded(Only(TreeOps(w.inbox[q]), b), if q == r then [] else Only(TreePart(e), b));
  }

  /** A step that says nothing about trees, or only about another backend's membership. */
  lemma SitesSame(w: World, r: string, e: Remote, n': Node, w': World, b: string)
    requires w.inbox.Keys == w.nodes.Keys && r in w.nodes
    requires Only(n'.history, b) == Only(w.nodes[r].history, b) && TreePart(e) == []
    requires w'.nodes == w.nodes[r := n'] && w'.inbox == Fan(w.inbox, r, e)
    ensures Sites(w', b) == Sites(w, b)
  {
    hide Only, TreeOps, TreePart, Fan, Sites;
    SitesKeys(w, b);
    FanKeys(w.inbox, r, e);
    SitesKeys(w', b);
    forall q | q in w.nodes ensures q in Sites(w, b) && q in Sites(w', b) && Sites(w', b)[q] == Sites(w, b)[q] {
      SiteKept(w, r, e, n', w', b, q);
    }
    SameSites(Sites(w, b), Sites(w', b));
  }

  lemma SameSites(s: TreeReplication.Sites, t: TreeReplication.Sites)
    requires s.Keys == t.Keys && forall q :: q in s ==> t[q] == s[q]
    ensures t == s
  {
  }

  /** A sync drops nobody who was never removed. */
  lemma NotGone(n: Node, n': Node, log: set<Issued<Member>>, b: string)
    requires InSync(n.fleet, n.members.s, n.startup) && InSync(n'.fleet, n'.members.s, n.startup)
    requires n.members.s.Keys <= n'.members.s.Keys && From(n'.members.s, log) && NoTombstone(log, b)
    ensures b in n.fleet ==> b in n'.fleet
  {
    if b in n'.members.s {
      assert Issued(b, n'.members.s[b]) in log;
    }
  }

  lemma SitesPoll(w: World, r: string, w': World, b: string)
    requires WorldOk(w) && WorldOk(w') && FleetCluster.IsStep(w, Poll(r), w') && NoTombstone(w'.memberLog, b)
    ensures Sites(w', b) == TreeReplication.Step(Sites(w, b), TreeReplication.Sync(r))
  {
    hide InSync, Inv, Delivered, Coordinator.Synced, Drains, Members, Applied;
    var n, n', es := w.nodes[r], w'.nodes[r], w.inbox[r];
    var gone :|
      && n'.history == n.history + TreeOps(es) + Removals(gone)
      && forall a :: a in gone <==> a in n.fleet && a !in n'.fleet;
    assert NodeOk(n, w.memberLog) && NodeOk(n', w'.memberLog);
    KeysGrow(n.members, Members(es), n'.members);
    MembersFrom(w', r);
    NotGone(n, n', w'.memberLog, b);
    hide *;
    PollHistory(n.history, TreeOps(es), gone, b);
    SitesPolled(w, r, w', b);
  }

  lemma MembersFrom(w: World, r: string)
    requires Inv(MemberSystem(w)) && r in w.nodes && r in w.inbox
    ensures From(w.nodes[r].members.s, w.memberLog)
  {
    assert CopyOk(MemberSystem(w), r);
  }

  lemma PollHistory(history: seq<Op>, ops: seq<Op>, gone: seq<string>, b: string)
    requires b !in gone
    ensures Only(history + ops + Removals(gone), b) == Only(history, b) + Only(ops, b)
  {
    OnlyNone(Removals(gone), b);
    OnlyConcat(history + ops, Removals(gone), b);
    OnlyConcat(history, ops, b);
    assert Only(history, b) + Only(ops, b) + [] == Only(history, b) + Only(ops, b);
  }

  lemma SitesPolled(w: World, r: string, w': World, b: string)
    requires w.inbox.Keys == w.nodes.Keys && r in w.nodes && r in w'.nodes
    requires w'.nodes == w.nodes[r := w'.nodes[r]] && w'.inbox == w.inbox[r := []]
    requires Only(w'.nodes[r].history, b) == Only(w.nodes[r].history, b) + Only(TreeOps(w.inbox[r]), b)
    ensures r in Sites(w, b) && Sites(w', b) == TreeReplication.Step(Sites(w, b), TreeReplication.Sync(r))
  {
    assert Only(TreeOps([]), b) == [];
    hide Only, TreeOps, Sites;
    SitesKeys(w, b);
    SitesKeys(w', b);
    var s, t := Sites(w, b), TreeReplication.Step(Sites(w, b), TreeReplication.Sync(r));
    assert t.Keys == s.Keys;
    forall q | q in t ensures Sites(w', b)[q] == t[q] {
      SitesHave(w, q, b);
      SitesHave(w', q, b);
    }
    SameSites(t, Sites(w', b));
  }

  /** Every step is a step of the sites, or nothing; and the log of issued operations follows. */
  lemma SitesMove(w: World, ev: FleetCluster.Event, w': World, b: string)
    requires WorldOk(w) && WorldOk(w') && FleetCluster.IsStep(w, ev, w') && NoTombstone(w'.memberLog, b)
    ensures ev.replica in Sites(w, b)
    ensures Sites(w', b) ==
      match TreeEvent(ev, b) case Some(e) => TreeReplication.Step(Sites(w, b), e) case None => Sites(w, b)
    ensures Only(w'.issued, b) ==
      Only(w.issued, b) + match TreeEvent(ev, b) case Some(e) => TreeReplication.Issues(e) case None => []
  {
    hide NodeOk, Sound, Only, Fan, Sites, NoTombstone, TreeReplication.Issue;
    hide Flagged, Added, Coordinator.Synced, Applied, Drains, Members, TreeOps;
    var r := ev.replica;
    var n := w.nodes[r];
    assert Only(w.issued, b) + [] == Only(w.issued, b);
    SitesHave(w, r, b);
    match ev
    case SetDrain(_, a, d) =>
      var n' := Draining(n, r, a, d);
      SitesSame(w, r, Drain(r, n'.drain.clock, a, d), n', w', b);
    case AddMember(_, id, url, model) =>
      var n' := Adding(n, r, id, url, model);
      SitesSame(w, r, MemberChange(r, n'.members.clock, id, Member(true, url, model)), n', w', b);
    case RemoveMember(_, id) =>
      if id in n.fleet { SitesRemoved(w, r, id, w', b); }
    case GossipDrains(_) =>
      if n.drain.s != map[] { SitesSame(w, r, DrainDigest(r, n.drain.s), n, w', b); }
    case GossipMembers(_) =>
      if n.members.s != map[] { SitesSame(w, r, MemberDigest(r, n.members.s), n, w', b); }
    case DispatchTo(_, h, a) =>
      if h != [] {
        SitesIssue(w, r, Op.Insert(h, a), Remote.Insert(h, a), Operating(n, Op.Insert(h, a)), w', b);
        OnlyOne(Op.Insert(h, a), b);
        OnlyConcat(w.issued, [Op.Insert(h, a)], b);
      }
    case Lost(_, a) =>
      SitesIssue(w, r, Remove(a), Remote.RemoveBackend(a), Operating(n, Remove(a)), w', b);
      OnlyOne(Remove(a), b);
      OnlyConcat(w.issued, [Remove(a)], b);
    case Send(_, e) => SitesSame(w, r, e, n, w', b);
    case Poll(_) => SitesPoll(w, r, w', b);
  }

  /** Removing another backend from the membership. */
  lemma SitesRemoved(w: World, r: string, id: string, w': World, b: string)
    requires w.inbox.Keys == w.nodes.Keys && FleetCluster.IsStep(w, RemoveMember(r, id), w') && id in w.nodes[r].fleet
    requires NoTombstone(w'.memberLog, b)
    ensures Sites(w', b) == Sites(w, b) && Only(w'.issued, b) == Only(w.issued, b)
  {
    hide Only, Fan;
    var n := w.nodes[r];
    var n' := Removing(n, r, id);
    assert Issued(id, n'.members.s[id]) in w'.memberLog;
    assert id != b;
    OnlyOne(Remove(id), b);
    OnlyConcat(n.history, [Remove(id)], b);
    OnlyConcat(w.issued, [Remove(id)], b);
    assert Only(n.history, b) + [] == Only(n.history, b) && Only(w.issued, b) + [] == Only(w.issued, b);
    SitesSame(w, r, MemberChange(r, n'.members.clock, id, Member(false, "", "")), n', w', b);
  }

  // ------------------------------------------------------------------ what quiet coordinators know

  /** No insert and removal of `b` cross: it is dispatched to only by a replica that has no removal of it to
      poll, and given up only while nobody has an insert for it to poll. */
  ghost predicate Uncrossed(w: World, ev: FleetCluster.Event, b: string) {
    match ev
    case DispatchTo(r, h, a) => a == b && r in w.inbox ==> Remote.RemoveBackend(b) !in w.inbox[r]
    case Lost(r, a) => a == b ==> forall q, h :: q in w.inbox ==> Remote.Insert(h, b) !in w.inbox[q]
    case _ => true
  }

  lemma UncrossedOrdered(w: World, ev: FleetCluster.Event, b: string)
    requires w.inbox.Keys == w.nodes.Keys && Uncrossed(w, ev, b) && ev.replica in Sites(w, b)
    ensures TreeEvent(ev, b).Some? ==> TreeReplication.Ordered(Sites(w, b), TreeEvent(ev, b).value, b)
  {
    if ev.DispatchTo? && ev.backend == b && ev.hashes != [] {
      var ops := TreeOps(w.inbox[ev.replica]);
      forall i | 0 <= i < |Only(ops, b)| ensures Only(ops, b)[i] != Remove(b) {
        OnlyFrom(ops, b, i);
        if Only(ops, b)[i] == Remove(b) { OpFrom(w.inbox[ev.replica], Remove(b)); }
      }
    }
    if ev.Lost? && ev.backend == b {
      forall q | q in Sites(w, b) ensures TreeReplication.NoInsert(Sites(w, b)[q].inbox, b) {
        var ops := TreeOps(w.inbox[q]);
        forall i | 0 <= i < |Only(ops, b)| ensures !(Only(ops, b)[i].Insert? && Only(ops, b)[i].backend == b) {
          OnlyFrom(ops, b, i);
          if Only(ops, b)[i].Insert? { OpFrom(w.inbox[q], Only(ops, b)[i]); }
        }
      }
    }
  }

  lemma StepKnows(w: World, ev: FleetCluster.Event, w': World, b: string)
    requires WorldOk(w) && WorldOk(w') && FleetCluster.IsStep(w, ev, w') && NoTombstone(w'.memberLog, b)
    requires Uncrossed(w, ev, b) && TreeReplication.Knows(Sites(w, b), Only(w.issued, b), b)
    ensures TreeReplication.Knows(Sites(w', b), Only(w'.issued, b), b)
  {
    SitesMove(w, ev, w', b);
    UncrossedOrdered(w, ev, b);
    hide *;
    if TreeEvent(ev, b).Some? {
      EventReplica(ev, b);
      TreeReplication.StepKnown(Sites(w, b), TreeEvent(ev, b).value, b, Only(w.issued, b));
    } else {
      assert Only(w.issued, b) + [] == Only(w.issued, b);
    }
  }

  lemma EventReplica(ev: FleetCluster.Event, b: string)
    ensures TreeEvent(ev, b).Some? ==> TreeEvent(ev, b).value.replica == ev.replica
  {
  }

  ghost predicate UncrossedHistory(worlds: seq<World>, evs: seq<FleetCluster.Event>, b: string) {
    |worlds| == |evs| + 1 && forall i :: 0 <= i < |evs| ==> Uncrossed(worlds[i], evs[i], b)
  }

  lemma {:induction false} HistoryKnows(worlds: seq<World>, evs: seq<FleetCluster.Event>, b: string)
    requires IsHistory(worlds, evs) && WorldOk(worlds[0]) && UncrossedHistory(worlds, evs, b)
    requires TreeReplication.Knows(Sites(worlds[0], b), Only(worlds[0].issued, b), b)
    requires NoTombstone(worlds[|evs|].memberLog, b)
    ensures TreeReplication.Knows(Sites(worlds[|evs|], b), Only(worlds[|evs|].issued, b), b)
  {
    hide WorldOk, FleetCluster.IsStep, TreeReplication.Knows, Sites, Only, Uncrossed;
    if evs != [] {
      var n := |evs| - 1;
      HistoryOk(worlds[..n + 1], evs[..n]);
      assert worlds[..n + 1][n] == worlds[n] && worlds[..n + 1][0] == worlds[0];
      StepOk(worlds[n], evs[n], worlds[n + 1]);
      LogGrows(worlds[n], evs[n], worlds[n + 1]);
      HistoryKnows(worlds[..n + 1], evs[..n], b);
      StepKnows(worlds[n], evs[n], worlds[n + 1], b);
    }
  }

  lemma LogGrows(w: World, ev: FleetCluster.Event, w': World)
    requires WorldOk(w) && FleetCluster.IsStep(w, ev, w')
    ensures w.memberLog <= w'.memberLog
  {
    hide Sound, NodeOk;
    StepShape(w, ev, w');
  }

  lemma StartKnows(fleets: map<string, Fleet>, dm: string, b: string)
    ensures TreeReplication.Knows(Sites(Start(fleets, dm), b), Only(Start(fleets, dm).issued, b), b)
  {
    var w := Start(fleets, dm);
    forall r | r in Sites(w, b) ensures TreeReplication.SameLists1(TreeReplication.All(Sites(w, b)[r]), [], b) {
      assert TreeReplication.All(Sites(w, b)[r]) == [];
    }
  }

  /** In every run in which `b` is never removed from the membership and no insert and removal of it cross, a
      replica with an empty inbox knows exactly the lists dispatched for `b` anywhere since it was last given
      up anywhere, if they fit. */
  lemma QuietNodeKnows(fleets: map<string, Fleet>, dm: string, worlds: seq<World>, evs: seq<FleetCluster.Event>,
                       p: string, b: string, cap: int, h: Path)
    requires IsHistory(worlds, evs) && worlds[0] == Start(fleets, dm) && p in fleets
    requires forall o, a :: o in fleets && a in fleets[o] ==> !fleets[o][a].draining
    requires UncrossedHistory(worlds, evs, b) && NoTombstone(worlds[|evs|].memberLog, b)
    requires |Union(Live(worlds[|evs|].issued, b))| <= Max(cap, 0)
    ensures var w := worlds[|evs|];
      p in w.nodes && p in w.inbox
      && (w.inbox[p] == [] ==>
            && Fits(w.nodes[p].history, b, cap)
            && LongestShared(Live(w.nodes[p].history, b), h) == LongestShared(Live(w.issued, b), h))
  {
    StartOk(fleets, dm);
    StartKnows(fleets, dm, b);
    HistoryOk(worlds, evs);
    HistoryKnows(worlds, evs, b);
    var w := worlds[|evs|];
    if w.inbox[p] == [] { QuietKnows(w, p, b, cap, h); }
  }

  lemma QuietKnows(w: World, p: string, b: string, cap: int, h: Path)
    requires p in w.nodes && p in w.inbox && w.inbox[p] == []
    requires TreeReplication.Knows(Sites(w, b), Only(w.issued, b), b)
    requires |Union(Live(w.issued, b))| <= Max(cap, 0)
    ensures Fits(w.nodes[p].history, b, cap)
    ensures LongestShared(Live(w.nodes[p].history, b), h) == LongestShared(Live(w.issued, b), h)
  {
    hide Union, LongestShared, Fits;
    SitesHave(w, p, b);
    assert TreeOps([]) == [] && Only([], b) == [];
    var x := Sites(w, b)[p];
    assert TreeReplication.All(x) == x.applied;
    assert TreeReplication.SameLists1(TreeReplication.All(x), Only(w.issued, b), b);
    LiveOnly(w.nodes[p].history, b);
    LiveOnly(w.issued, b);
    SameLists(Live(w.nodes[p].history, b), Live(w.issued, b), h);
    TreeReplication.FitsAllAlong(w.nodes[p].history, b, cap);
  }

  /** Two quiet coordinators answer alike, and both with what was dispatched anywhere. */
  method QuietAnswers(fleets: map<string, Fleet>, dm: string,
                      ghost worlds: seq<World>, ghost evs: seq<FleetCluster.Event>,
                      c: ClusterCoordinator, d: ClusterCoordinator, b: string, h: Path)
    returns (atC: map<string, nat>, atD: map<string, nat>)
    requires c.Valid() && d.Valid() && c.replicaId in fleets && d.replicaId in fleets && c.tree.cap == d.tree.cap
    requires IsHistory(worlds, evs) && worlds[0] == Start(fleets, dm)
    requires forall o, a :: o in fleets && a in fleets[o] ==> !fleets[o][a].draining
    requires UncrossedHistory(worlds, evs, b) && NoTombstone(worlds[|evs|].memberLog, b)
    requires |Union(Live(worlds[|evs|].issued, b))| <= Max(c.tree.cap, 0)
    requires var w := worlds[|evs|];
      && c.replicaId in w.nodes && NodeOf(c) == w.nodes[c.replicaId]
      && d.replicaId in w.nodes && NodeOf(d) == w.nodes[d.replicaId]
      && c.replicaId in w.inbox && w.inbox[c.replicaId] == [] && d.replicaId in w.inbox && w.inbox[d.replicaId] == []
    ensures var n := LongestShared(Live(worlds[|evs|].issued, b), h);
      && (b in atC <==> n > 0) && (b in atC ==> atC[b] == n)
      && (b in atD <==> n > 0) && (b in atD ==> atD[b] == n)
  {
    hide ClusterCoordinator.Valid, LongestShared, Live, Union, Fits, UncrossedHistory, NoTombstone, IsHistory, Start;
    QuietNodeKnows(fleets, dm, worlds, evs, c.replicaId, b, c.tree.cap, h);
    QuietNodeKnows(fleets, dm, worlds, evs, d.replicaId, b, d.tree.cap, h);
    atC := c.Lookup(h);
    atD := d.Lookup(h);
  }

  // ------------------------------------------------------------------ learning from a peer

  /** After the operations polled last, what was last inserted is still the latest, unless removed. */
  lemma {:induction false} LatestThrough(ops: seq<Op>, h: Path, b: string, gone: seq<string>)
    requires b !in gone
    ensures Latest(ops + [Op.Insert(h, b)] + Removals(gone), b) == Some(h)
  {
    var all := ops + [Op.Insert(h, b)] + Removals(gone);
    if gone == [] {
      assert all == ops + [Op.Insert(h, b)] && all[..|all| - 1] == ops;
    } else {
      var init := gone[..|gone| - 1];
      LatestThrough(ops, h, b, init);
      assert Removals(gone) == Removals(init) + [Remove(gone[|gone| - 1])];
      assert all[..|all| - 1] == ops + [Op.Insert(h, b)] + Removals(init);
    }
  }

  /** A dispatch at `p` is fanned out, `r` polls, and a query for the list at `r` finds it whole: unless the list
      does not fit, or that sync removed the backend from `r`'s registry. */
  method LearnFromPeer(p: ClusterCoordinator, r: ClusterCoordinator, bus: InMemoryBroker<Remote>, h: Path, b: string)
    returns (best: map<string, nat>)
    requires p.Valid() && r.Valid() && p.replicaId != r.replicaId && r.replicaId in bus.inboxes
    requires p != r && p.tree != r.tree && h != []
    modifies p.tree, p`history, r.tree, r.registry, r.drain, r.membership, r`history, bus
    ensures |h| <= r.tree.cap && (b in old(r.registry.byId) ==> b in r.registry.byId) ==> b in best && best[b] >= |h|
  {
    hide InSync, ClusterCoordinator.TreeOk, Applied, DrainReported, MemberReported, Coordinator.Synced, Drains, Members;
    hide Prefixes, LongestShared, Live, Fits, Latest;
    assert r.Valid();
    var published := p.Dispatch(h, b);
    bus.FanOut(p.replicaId, published[0]);
    assert r.Valid();
    var events := bus.Drain(r.replicaId);
    ghost var past := r.history;
    ghost var gone := r.SyncEvents(events);
    assert events == events[..|events| - 1] + [Remote.Insert(h, b)];
    ghost var before := past + TreeOps(events[..|events| - 1]);
    PolledLast(past, events, h, b, gone, r.history);
    if b !in gone { LatestThrough(before, h, b, gone); }
    best := r.Lookup(h);
  }

  lemma Regroup<T>(x: seq<T>, y: seq<T>, z: seq<T>)
    ensures x + (y + z) == x + y + z
  {
  }

  lemma {:induction false} PolledLast(past: seq<Op>, events: seq<Remote>, h: Path, b: string, gone: seq<string>,
                                      history: seq<Op>)
    requires events != [] && events[|events| - 1] == Remote.Insert(h, b)
    requires history == past + TreeOps(events) + Removals(gone)
    ensures history == (past + TreeOps(events[..|events| - 1])) + [Op.Insert(h, b)] + Removals(gone)
  {
    var init := TreeOps(events[..|events| - 1]);
    assert TreePart(events[|events| - 1]) == [Op.Insert(h, b)];
    Regroup(past, init, [Op.Insert(h, b)]);
  }
}
