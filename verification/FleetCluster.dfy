/** N replicas with their registries and one inbox each: what quiet replicas route to.

The events on the bus carry both maps, so the system projects to two systems of last-writer-wins maps
(LwwCluster), one for drains and one for membership; in each of them a step of this system is a step or
nothing.  The steps of one replica are those that the coordinator's methods are proved to take.
 */
module FleetCluster {
  import opened Bus
  import opened Lww
  import opened LwwCluster
  import opened ReplicatedState
  import opened Coordinator
  import opened Basics
  import opened PrefixSets
  import RoutingHistory
  import TreeReplication

  /** One replica: its two maps, its registry, the fleet it was started with and what its tree has been
      through. */
  datatype Node = Node(drain: Copy<bool>, members: Copy<Member>, fleet: Fleet, startup: Fleet, defaultModel: string,
                       history: seq<RoutingHistory.Op>)

  /** The logs record every write ever issued, and every insert and removal in the order of issue. */
  datatype World = World(nodes: map<string, Node>, inbox: map<string, seq<Remote>>,
                         drainLog: set<Issued<bool>>, memberLog: set<Issued<Member>>,
                         issued: seq<RoutingHistory.Op>)

  datatype Event =
    | SetDrain(replica: string, backend: string, draining: bool)
    | AddMember(replica: string, backend: string, url: string, model: string)
    | RemoveMember(replica: string, backend: string)
    | GossipDrains(replica: string)
    | GossipMembers(replica: string)
    | DispatchTo(replica: string, hashes: Path, backend: string)
    | Lost(replica: string, backend: string)
    | Send(replica: string, e: Remote)
    | Poll(replica: string)

  // ------------------------------------------------------------------ one replica

  ghost function Draining(n: Node, r: string, b: string, d: bool): Node {
    var c := Lww.SetLocal(n.drain, b, d, r);
    n.(drain := c, fleet := Flagged(n.fleet, DrainedSet(c.s)))
  }

  function Adding(n: Node, r: string, id: string, url: string, model: string): Node {
    n.(members := Lww.SetLocal(n.members, id, Member(true, url, model), r),
       fleet := Added(n.fleet, id, url, model, n.defaultModel))
  }

  function Removing(n: Node, r: string, id: string): Node {
    n.(members := Lww.SetLocal(n.members, id, Member(false, "", ""), r), fleet := n.fleet - {id},
       history := n.history + [RoutingHistory.Remove(id)])
  }

  /** The tree goes through one operation. */
  function Operating(n: Node, op: RoutingHistory.Op): Node {
    n.(history := n.history + [op])
  }

  ghost predicate Syncing(n: Node, es: seq<Remote>, n': Node) {
    && Applied(n.drain, Drains(es), n'.drain) && Applied(n.members, Members(es), n'.members)
    && (exists gone {:trigger Removals(gone)} ::
          && n'.history == n.history + TreeOps(es) + Removals(gone)
          && forall b :: b in gone <==> b in n.fleet && b !in n'.fleet)
    && n' == n.(drain := n'.drain, members := n'.members, history := n'.history,
                fleet := Coordinator.Synced(n.fleet, DrainReported(n.drain.s, Drains(es)), DrainedSet(n'.drain.s),
                           MemberReported(n.members.s, Members(es)), n'.members.s, n.defaultModel))
  }

  // ------------------------------------------------------------------ all of them

  ghost predicate IsStep(w: World, ev: Event, w': World) {
    && ev.replica in w.nodes && ev.replica in w.inbox
    && var r := ev.replica;
       var n := w.nodes[r];
       match ev
       case SetDrain(_, b, d) =>
         var n' := Draining(n, r, b, d);
         w' == w.(nodes := w.nodes[r := n'], inbox := Fan(w.inbox, r, Drain(r, n'.drain.clock, b, d)),
                  drainLog := w.drainLog + {Issued(b, n'.drain.s[b])})
       case AddMember(_, id, url, model) =>
         var n' := Adding(n, r, id, url, model);
         w' == w.(nodes := w.nodes[r := n'],
                  inbox := Fan(w.inbox, r, MemberChange(r, n'.members.clock, id, Member(true, url, model))),
                  memberLog := w.memberLog + {Issued(id, n'.members.s[id])})
       case RemoveMember(_, id) =>
         if id !in n.fleet then w' == w
         else
           var n' := Removing(n, r, id);
           w' == w.(nodes := w.nodes[r := n'],
                    inbox := Fan(w.inbox, r, MemberChange(r, n'.members.clock, id, Member(false, "", ""))),
                    memberLog := w.memberLog + {Issued(id, n'.members.s[id])},
                    issued := w.issued + [RoutingHistory.Remove(id)])
       case DispatchTo(_, h, b) =>
         w' == if h == [] then w else
           w.(nodes := w.nodes[r := Operating(n, RoutingHistory.Insert(h, b))],
              inbox := Fan(w.inbox, r, Remote.Insert(h, b)), issued := w.issued + [RoutingHistory.Insert(h, b)])
       case Lost(_, b) =>
         w' == w.(nodes := w.nodes[r := Operating(n, RoutingHistory.Remove(b))],
                  inbox := Fan(w.inbox, r, RemoveBackend(b)), issued := w.issued + [RoutingHistory.Remove(b)])
       case GossipDrains(_) =>
         w' == if n.drain.s == map[] then w else w.(inbox := Fan(w.inbox, r, DrainDigest(r, n.drain.s)))
       case GossipMembers(_) =>
         w' == if n.members.s == map[] then w else w.(inbox := Fan(w.inbox, r, MemberDigest(r, n.members.s)))
       case Send(_, e) =>
         DrainPart(e) == [] && MemberPart(e) == [] && TreePart(e) == [] && w' == w.(inbox := Fan(w.inbox, r, e))
       case Poll(_) =>
         && r in w'.nodes && Syncing(n, w.inbox[r], w'.nodes[r])
         && w' == w.(nodes := w.nodes[r := w'.nodes[r]], inbox := w.inbox[r := []])
  }

  /** `worlds` is a run: one more world than events, each following from the one before. */
  ghost predicate IsHistory(worlds: seq<World>, evs: seq<Event>) {
    && |worlds| == |evs| + 1
    && forall i :: 0 <= i < |evs| ==> IsStep(worlds[i], evs[i], worlds[i + 1])
  }

  function Start(fleets: map<string, Fleet>, defaultModel: string): World {
    World(map r | r in fleets :: Node(Copy(map[], 0), Copy(map[], 0), fleets[r], fleets[r], defaultModel, []),
          map r | r in fleets :: [], {}, {}, [])
  }

  // ------------------------------------------------------------------ the two projections

  function DrainCopies(nodes: map<string, Node>): map<string, Copy<bool>> {
    map r | r in nodes :: nodes[r].drain
  }

  function DrainInbox(inbox: map<string, seq<Remote>>): map<string, seq<Message<bool>>> {
    map r | r in inbox :: Drains(inbox[r])
  }

  function DrainSystem(w: World): System<bool> {
    System(DrainCopies(w.nodes), DrainInbox(w.inbox), w.drainLog)
  }

  function MemberCopies(nodes: map<string, Node>): map<string, Copy<Member>> {
    map r | r in nodes :: nodes[r].members
  }

  function MemberInbox(inbox: map<string, seq<Remote>>): map<string, seq<Message<Member>>> {
    map r | r in inbox :: Members(inbox[r])
  }

  function MemberSystem(w: World): System<Member> {
    System(MemberCopies(w.nodes), MemberInbox(w.inbox), w.memberLog)
  }

  lemma CopiesUpdate(nodes: map<string, Node>, r: string, n: Node)
    ensures DrainCopies(nodes[r := n]) == DrainCopies(nodes)[r := n.drain]
    ensures MemberCopies(nodes[r := n]) == MemberCopies(nodes)[r := n.members]
    ensures r in nodes && n.drain == nodes[r].drain ==> DrainCopies(nodes[r := n]) == DrainCopies(nodes)
    ensures r in nodes && n.members == nodes[r].members ==> MemberCopies(nodes[r := n]) == MemberCopies(nodes)
  {
  }

  lemma InboxEmptied(inbox: map<string, seq<Remote>>, r: string)
    ensures DrainInbox(inbox[r := []]) == DrainInbox(inbox)[r := []]
    ensures MemberInbox(inbox[r := []]) == MemberInbox(inbox)[r := []]
  {
    assert Drains([]) == [] && Members([]) == [];
  }

  /** A reliable step, or nothing. */
  ghost predicate Moves<V(!new)>(s: System<V>, s': System<V>) {
    s' == s || exists ev :: LwwCluster.IsStep(s, ev, s') && !ev.Scramble? && !ev.Seed?
  }

  ghost predicate Sound<V(!new)>(s: System<V>) {
    Inv(s) && Delivered(s)
  }

  lemma MovesKeep<V(!new)>(s: System<V>, s': System<V>)
    requires Sound(s) && Moves(s, s')
    ensures Sound(s')
  {
    if s' != s {
      var ev :| LwwCluster.IsStep(s, ev, s') && !ev.Scramble? && !ev.Seed?;
      StepInv(s, ev, s');
      StepDelivered(s, ev, s');
    }
  }

  lemma PartsSnoc(es: seq<Remote>, e: Remote)
    ensures Drains(es + [e]) == Drains(es) + DrainPart(e)
    ensures Members(es + [e]) == Members(es) + MemberPart(e)
  {
    assert (es + [e])[..|es|] == es;
  }

  /** What fanning out an event looks like in the two projections. */
  lemma FanDrains(inbox: map<string, seq<Remote>>, o: string, e: Remote)
    requires DrainPart(e) != [] ==> DrainPart(e)[0].origin == o
    ensures DrainInbox(Fan(inbox, o, e)) ==
      if DrainPart(e) == [] then DrainInbox(inbox) else Broadcast(DrainInbox(inbox), DrainPart(e)[0])
  {
    hide Drains, DrainPart;
    forall r | r in inbox ensures Drains(inbox[r] + [e]) == Drains(inbox[r]) + DrainPart(e) {
      PartsSnoc(inbox[r], e);
    }
    if DrainPart(e) == [] {
      assert forall r :: r in inbox ==> Drains(inbox[r]) + DrainPart(e) == Drains(inbox[r]);
      assert DrainInbox(Fan(inbox, o, e)) == DrainInbox(inbox);
    } else {
      assert DrainPart(e) == [DrainPart(e)[0]];
      assert DrainInbox(Fan(inbox, o, e)) == Broadcast(DrainInbox(inbox), DrainPart(e)[0]);
    }
  }

  lemma FanMembers(inbox: map<string, seq<Remote>>, o: string, e: Remote)
    requires MemberPart(e) != [] ==> MemberPart(e)[0].origin == o
    ensures MemberInbox(Fan(inbox, o, e)) ==
      if MemberPart(e) == [] then MemberInbox(inbox) else Broadcast(MemberInbox(inbox), MemberPart(e)[0])
  {
    hide Members, MemberPart;
    forall r | r in inbox ensures Members(inbox[r] + [e]) == Members(inbox[r]) + MemberPart(e) {
      PartsSnoc(inbox[r], e);
    }
    if MemberPart(e) == [] {
      assert forall r :: r in inbox ==> Members(inbox[r]) + MemberPart(e) == Members(inbox[r]);
      assert MemberInbox(Fan(inbox, o, e)) == MemberInbox(inbox);
    } else {
      assert MemberPart(e) == [MemberPart(e)[0]];
      assert MemberInbox(Fan(inbox, o, e)) == Broadcast(MemberInbox(inbox), MemberPart(e)[0]);
    }
  }

  /** A local write, recorded, logged and fanned out. */
  lemma DrainWrite(w: World, r: string, b: string, d: bool, n': Node, w': World)
    requires r in w.nodes && r in w.inbox && n'.drain == Lww.SetLocal(w.nodes[r].drain, b, d, r)
    requires w'.nodes == w.nodes[r := n'] && w'.inbox == Fan(w.inbox, r, Drain(r, n'.drain.clock, b, d))
    requires w'.drainLog == w.drainLog + {Issued(b, n'.drain.s[b])}
    ensures Moves(DrainSystem(w), DrainSystem(w'))
  {
    hide DrainCopies, DrainInbox, Drains, Fan, Broadcast;
    CopiesHave(w, r);
    FanDrains(w.inbox, r, Drain(r, n'.drain.clock, b, d));
    CopiesUpdate(w.nodes, r, n');
    assert LwwCluster.IsStep(DrainSystem(w), Publish(r, b, d), DrainSystem(w'));
  }

  lemma MemberWrite(w: World, r: string, id: string, m: Member, n': Node, w': World)
    requires r in w.nodes && r in w.inbox && n'.members == Lww.SetLocal(w.nodes[r].members, id, m, r)
    requires w'.nodes == w.nodes[r := n'] && w'.inbox == Fan(w.inbox, r, MemberChange(r, n'.members.clock, id, m))
    requires w'.memberLog == w.memberLog + {Issued(id, n'.members.s[id])}
    ensures Moves(MemberSystem(w), MemberSystem(w'))
  {
    hide MemberCopies, MemberInbox, Members, Fan, Broadcast;
    CopiesHave(w, r);
    FanMembers(w.inbox, r, MemberChange(r, n'.members.clock, id, m));
    CopiesUpdate(w.nodes, r, n');
    assert LwwCluster.IsStep(MemberSystem(w), Publish(r, id, m), MemberSystem(w'));
  }

  /** A step of the system is a step of the drain system, or nothing. */
  lemma DrainMoves(w: World, ev: Event, w': World)
    requires IsStep(w, ev, w')
    ensures Moves(DrainSystem(w), DrainSystem(w'))
  {
    hide DrainCopies, DrainInbox, Drains, Fan, Broadcast, Flagged, Added, Applied, Coordinator.Synced;
    var r := ev.replica;
    var n := w.nodes[r];
    var s, s' := DrainSystem(w), DrainSystem(w');
    CopiesHave(w, r);
    match ev
    case SetDrain(_, b, d) =>
      DrainWrite(w, r, b, d, Draining(n, r, b, d), w');
    case AddMember(_, id, url, model) =>
      var n' := Adding(n, r, id, url, model);
      FanDrains(w.inbox, r, MemberChange(r, n'.members.clock, id, Member(true, url, model)));
      CopiesUpdate(w.nodes, r, n');
      assert s' == s;
    case RemoveMember(_, id) =>
      var n' := Removing(n, r, id);
      FanDrains(w.inbox, r, MemberChange(r, n'.members.clock, id, Member(false, "", "")));
      CopiesUpdate(w.nodes, r, n');
      assert s' == s;
    case GossipDrains(_) =>
      FanDrains(w.inbox, r, DrainDigest(r, n.drain.s));
      assert LwwCluster.IsStep(s, Digest(r), s');
    case GossipMembers(_) =>
      FanDrains(w.inbox, r, MemberDigest(r, n.members.s));
      assert s' == s;
    case DispatchTo(_, h, b) =>
      FanDrains(w.inbox, r, Remote.Insert(h, b));
      CopiesUpdate(w.nodes, r, Operating(n, RoutingHistory.Insert(h, b)));
      assert s' == s;
    case Lost(_, b) =>
      FanDrains(w.inbox, r, RemoveBackend(b));
      CopiesUpdate(w.nodes, r, Operating(n, RoutingHistory.Remove(b)));
      assert s' == s;
    case Send(_, e) =>
      FanDrains(w.inbox, r, e);
      assert s' == s;
    case Poll(_) =>
      Polled(w, r, w');
  }

  /** Applying an inbox is a sync of both systems. */
  lemma Polled(w: World, r: string, w': World)
    requires IsStep(w, Poll(r), w')
    ensures Moves(DrainSystem(w), DrainSystem(w')) && Moves(MemberSystem(w), MemberSystem(w'))
  {
    hide DrainCopies, DrainInbox, Drains, MemberCopies, MemberInbox, Members, Applied, Coordinator.Synced;
    CopiesHave(w, r);
    CopiesUpdate(w.nodes, r, w'.nodes[r]);
    InboxEmptied(w.inbox, r);
    assert LwwCluster.IsStep(DrainSystem(w), Sync(r), DrainSystem(w'));
    assert LwwCluster.IsStep(MemberSystem(w), Sync(r), MemberSystem(w'));
  }

  lemma CopiesHave(w: World, r: string)
    requires r in w.nodes && r in w.inbox
    ensures r in DrainCopies(w.nodes) && DrainCopies(w.nodes)[r] == w.nodes[r].drain
    ensures r in MemberCopies(w.nodes) && MemberCopies(w.nodes)[r] == w.nodes[r].members
    ensures r in DrainInbox(w.inbox) && DrainInbox(w.inbox)[r] == Drains(w.inbox[r])
    ensures r in MemberInbox(w.inbox) && MemberInbox(w.inbox)[r] == Members(w.inbox[r])
  {
  }

  /** ... and a step of the membership system, or nothing. */
  lemma MemberMoves(w: World, ev: Event, w': World)
    requires IsStep(w, ev, w')
    ensures Moves(MemberSystem(w), MemberSystem(w'))
  {
    hide MemberCopies, MemberInbox, Members, Fan, Broadcast, Flagged, Added, Applied, Coordinator.Synced;
    var r := ev.replica;
    var n := w.nodes[r];
    var s, s' := MemberSystem(w), MemberSystem(w');
    CopiesHave(w, r);
    match ev
    case SetDrain(_, b, d) =>
      var n' := Draining(n, r, b, d);
      FanMembers(w.inbox, r, Drain(r, n'.drain.clock, b, d));
      CopiesUpdate(w.nodes, r, n');
      assert s' == s;
    case AddMember(_, id, url, model) =>
      MemberWrite(w, r, id, Member(true, url, model), Adding(n, r, id, url, model), w');
    case RemoveMember(_, id) =>
      if id in n.fleet { MemberWrite(w, r, id, Member(false, "", ""), Removing(n, r, id), w'); }
    case GossipDrains(_) =>
      FanMembers(w.inbox, r, DrainDigest(r, n.drain.s));
      assert s' == s;
    case GossipMembers(_) =>
      FanMembers(w.inbox, r, MemberDigest(r, n.members.s));
      assert LwwCluster.IsStep(s, Digest(r), s');
    case DispatchTo(_, h, b) =>
      FanMembers(w.inbox, r, Remote.Insert(h, b));
      CopiesUpdate(w.nodes, r, Operating(n, RoutingHistory.Insert(h, b)));
      assert s' == s;
    case Lost(_, b) =>
      FanMembers(w.inbox, r, RemoveBackend(b));
      CopiesUpdate(w.nodes, r, Operating(n, RoutingHistory.Remove(b)));
      assert s' == s;
    case Send(_, e) =>
      FanMembers(w.inbox, r, e);
      assert s' == s;
    case Poll(_) =>
      Polled(w, r, w');
  }

  // ------------------------------------------------------------------ invariant

  /** What the registry of one replica owes to its maps; while no membership write was ever issued, the
      draining flags too. */
  ghost predicate NodeOk(n: Node, memberLog: set<Issued<Member>>) {
    && InSync(n.fleet, n.members.s, n.startup)
    && (memberLog == {} ==> FlagsAgree(n.fleet, DrainedSet(n.drain.s)))
  }

  ghost predicate WorldOk(w: World) {
    && w.inbox.Keys == w.nodes.Keys
    && Sound(DrainSystem(w)) && Sound(MemberSystem(w))
    && (forall r {:trigger w.nodes[r]} :: r in w.nodes ==> NodeOk(w.nodes[r], w.memberLog))
  }

  lemma InitSound<V(!new)>(ids: set<string>)
    ensures Sound(Init<V>(ids))
  {
    InitInv<V>(ids);
  }

  lemma StartProjects(fleets: map<string, Fleet>, dm: string)
    ensures DrainSystem(Start(fleets, dm)) == Init(fleets.Keys)
    ensures MemberSystem(Start(fleets, dm)) == Init(fleets.Keys)
  {
  }

  lemma StartOk(fleets: map<string, Fleet>, dm: string)
    requires forall r, b :: r in fleets && b in fleets[r] ==> !fleets[r][b].draining
    ensures WorldOk(Start(fleets, dm))
  {
    hide Sound, DrainSystem, MemberSystem, Init;
    InitSound<bool>(fleets.Keys);
    InitSound<Member>(fleets.Keys);
    StartProjects(fleets, dm);
  }

  /** With no membership write issued, every membership map is empty. */
  lemma NoMembers(w: World, r: string)
    requires Inv(MemberSystem(w)) && w.memberLog == {} && r in w.nodes && r in w.inbox
    ensures w.nodes[r].members.s == map[]
  {
    assert CopyOk(MemberSystem(w), r);
  }

  lemma NodeMoves(w: World, ev: Event, w': World)
    requires WorldOk(w) && IsStep(w, ev, w') && Sound(MemberSystem(w'))
    requires ev.replica in w'.nodes && ev.replica in w'.inbox
    ensures NodeOk(w'.nodes[ev.replica], w'.memberLog)
  {
    hide InSync, Sound, Drains, Members, Applied, DrainReported, MemberReported, Fan, Coordinator.Synced;
    var r := ev.replica;
    var n, n' := w.nodes[r], w'.nodes[r];
    assert NodeOk(n, w.memberLog);
    match ev
    case SetDrain(_, b, d) => InSyncDraining(n.fleet, n'.fleet, n.members.s, n.startup);
    case AddMember(_, id, url, model) => AddedInSync(n, r, id, url, model);
    case RemoveMember(_, id) => if id in n.fleet { RemovedInSync(n.fleet, n.members, id, r, n.startup); }
    case GossipDrains(_) =>
    case GossipMembers(_) =>
    case DispatchTo(_, h, b) =>
    case Lost(_, b) =>
    case Send(_, e) =>
    case Poll(_) => PollOk(w, r, w');
  }

  lemma AddedInSync(n: Node, r: string, id: string, url: string, model: string)
    requires InSync(n.fleet, n.members.s, n.startup)
    ensures var n' := Adding(n, r, id, url, model); InSync(n'.fleet, n'.members.s, n.startup)
  {
  }

  lemma PollOk(w: World, r: string, w': World)
    requires WorldOk(w) && r in w.nodes && r in w.inbox && r in w'.nodes && r in w'.inbox
    requires Syncing(w.nodes[r], w.inbox[r], w'.nodes[r])
    requires Sound(MemberSystem(w')) && w'.memberLog == w.memberLog
    ensures NodeOk(w'.nodes[r], w'.memberLog)
  {
    hide InSync, Drains, Members, Applied, DrainReported, MemberReported, Coordinator.Synced, Inv, FlagsAgree;
    var n, es, n' := w.nodes[r], w.inbox[r], w'.nodes[r];
    assert NodeOk(n, w.memberLog);
    var dr := DrainReported(n.drain.s, Drains(es));
    SyncedInSync(n.fleet, n.startup, n.members, Members(es), n'.members, dr, DrainedSet(n'.drain.s), n.defaultModel);
    if w.memberLog == {} {
      NoMembers(w', r);
      FlagsSynced(n.fleet, n.drain, Drains(es), n'.drain, MemberReported(n.members.s, Members(es)), n.defaultModel);
    }
  }

  /** With an empty membership map no backend is added, and flags that agreed agree again. */
  lemma FlagsSynced(reg: Fleet, c: Copy<bool>, ms: seq<Message<bool>>, c': Copy<bool>, memberReport: bool, dm: string)
    requires FlagsAgree(reg, DrainedSet(c.s)) && Applied(c, ms, c')
    ensures FlagsAgree(Coordinator.Synced(reg, DrainReported(c.s, ms), DrainedSet(c'.s), memberReport, map[], dm),
                       DrainedSet(c'.s))
  {
    hide Applied, DrainReported;
    SyncedFlagsIff(reg, DrainReported(c.s, ms), DrainedSet(c'.s), memberReport, map[], dm);
    if !DrainReported(c.s, ms) {
      AppliedJoined(c, ms, c');
      UnreportedSame(c.s, ms, map[], []);
      SameFlagsSameDrained(c.s, c'.s);
    }
  }

  lemma StepOk(w: World, ev: Event, w': World)
    requires WorldOk(w) && IsStep(w, ev, w')
    ensures WorldOk(w') && w'.nodes.Keys == w.nodes.Keys
    ensures forall r {:trigger w'.nodes[r]} :: r in w.nodes ==> w'.nodes[r].startup == w.nodes[r].startup
  {
    hide Sound, Moves, DrainSystem, MemberSystem, Syncing, NodeOk;
    DrainMoves(w, ev, w');
    MemberMoves(w, ev, w');
    MovesKeep(DrainSystem(w), DrainSystem(w'));
    MovesKeep(MemberSystem(w), MemberSystem(w'));
    StepShape(w, ev, w');
    NodeMoves(w, ev, w');
    forall r | r in w'.nodes ensures NodeOk(w'.nodes[r], w'.memberLog) {
      if r != ev.replica { OtherOk(w.nodes[r], w.memberLog, w'.memberLog); }
    }
  }

  /** What a step leaves alone. */
  lemma StepShape(w: World, ev: Event, w': World)
    requires IsStep(w, ev, w') && w.inbox.Keys == w.nodes.Keys
    ensures w'.inbox.Keys == w'.nodes.Keys == w.nodes.Keys && w.memberLog <= w'.memberLog
    ensures w'.nodes[ev.replica].startup == w.nodes[ev.replica].startup
    ensures w'.nodes == w.nodes[ev.replica := w'.nodes[ev.replica]]
  {
    hide Applied, Coordinator.Synced, Flagged, Added, Fan, Drains, Members, DrainPart, MemberPart;
    forall e ensures Fan(w.inbox, ev.replica, e).Keys == w.inbox.Keys { FanKeys(w.inbox, ev.replica, e); }
  }

  lemma FanKeys<T>(inbox: map<string, seq<T>>, o: string, e: T)
    ensures Fan(inbox, o, e).Keys == inbox.Keys
  {
  }

  lemma OtherOk(n: Node, log: set<Issued<Member>>, log': set<Issued<Member>>)
    requires NodeOk(n, log) && log <= log'
    ensures NodeOk(n, log')
  {
  }

  lemma {:induction false} HistoryOk(worlds: seq<World>, evs: seq<Event>)
    requires IsHistory(worlds, evs) && WorldOk(worlds[0])
    ensures WorldOk(worlds[|evs|]) && worlds[|evs|].nodes.Keys == worlds[0].nodes.Keys
    ensures forall r {:trigger worlds[|evs|].nodes[r]} :: r in worlds[0].nodes ==>
      worlds[|evs|].nodes[r].startup == worlds[0].nodes[r].startup
  {
    hide WorldOk, IsStep;
    if evs != [] {
      var n := |evs| - 1;
      HistoryOk(worlds[..n + 1], evs[..n]);
      assert worlds[..n + 1][n] == worlds[n];
      StepOk(worlds[n], evs[n], worlds[n + 1]);
    }
  }

  // ------------------------------------------------------------------ quiet replicas

  /** The same ids with the same urls. */
  ghost predicate SameFleet(a: Fleet, b: Fleet) {
    a.Keys == b.Keys && forall id :: id in a ==> a[id].url == b[id].url
  }

  lemma InSyncSame(a: Fleet, b: Fleet, m: Map<Member>, s: Fleet, t: Fleet)
    requires InSync(a, m, s) && InSync(b, m, t) && SameFleet(s, t)
    ensures SameFleet(a, b)
  {
    forall id ensures id in a <==> id in b {
      if id in m { assert m[id].value.present || !m[id].value.present; }
    }
  }

  /** In every interleaving of drain decisions, membership changes, digests and polls over replicas registered
      at the start, two replicas with empty inboxes hold the same drain map and the same membership map; if
      they were started with the same fleet they route to the same backends under the same urls, and if no
      membership write was ever issued they also agree on which of them drain. */
  lemma QuietFleetsAgree(fleets: map<string, Fleet>, dm: string, worlds: seq<World>, evs: seq<Event>,
                         p: string, r: string)
    requires IsHistory(worlds, evs) && worlds[0] == Start(fleets, dm) && p in fleets && r in fleets
    requires forall o, b :: o in fleets && b in fleets[o] ==> !fleets[o][b].draining
    ensures var w := worlds[|evs|];
      && p in w.nodes && r in w.nodes && p in w.inbox && r in w.inbox
      && (w.inbox[p] == [] && w.inbox[r] == [] ==>
            && w.nodes[p].drain.s == w.nodes[r].drain.s && w.nodes[p].members.s == w.nodes[r].members.s
            && (SameFleet(fleets[p], fleets[r]) ==> SameFleet(w.nodes[p].fleet, w.nodes[r].fleet))
            && (w.memberLog == {} ==> forall b :: b in w.nodes[p].fleet && b in w.nodes[r].fleet ==>
                  w.nodes[p].fleet[b].draining == w.nodes[r].fleet[b].draining))
  {
    StartOk(fleets, dm);
    HistoryOk(worlds, evs);
    var w := worlds[|evs|];
    if w.inbox[p] == [] && w.inbox[r] == [] {
      QuietMaps(w, p, r);
      assert NodeOk(w.nodes[p], w.memberLog) && NodeOk(w.nodes[r], w.memberLog);
      assert w.nodes[p].startup == fleets[p] && w.nodes[r].startup == fleets[r];
      if SameFleet(fleets[p], fleets[r]) {
        InSyncSame(w.nodes[p].fleet, w.nodes[r].fleet, w.nodes[p].members.s, fleets[p], fleets[r]);
      }
    }
  }

  lemma QuietMaps(w: World, p: string, r: string)
    requires WorldOk(w) && p in w.nodes && r in w.nodes && w.inbox[p] == [] && w.inbox[r] == []
    ensures w.nodes[p].drain.s == w.nodes[r].drain.s && w.nodes[p].members.s == w.nodes[r].members.s
  {
    hide NodeOk;
    CopiesHave(w, p);
    CopiesHave(w, r);
    assert Drains([]) == [] && Members([]) == [];
    QuietIsBest(DrainSystem(w), p);
    QuietIsBest(DrainSystem(w), r);
    BestUnique(w.nodes[p].drain.s, w.nodes[r].drain.s, w.drainLog);
    QuietIsBest(MemberSystem(w), p);
    QuietIsBest(MemberSystem(w), r);
    BestUnique(w.nodes[p].members.s, w.nodes[r].members.s, w.memberLog);
  }

  // ------------------------------------------------------------------ the coordinator and the bus take these steps

  /** A coordinator as one replica of the system. */
  ghost function NodeOf(c: ClusterCoordinator): Node
    reads c, c.registry, c.drain, c.membership
  {
    Node(c.drain.View(), c.membership.View(), c.registry.byId, c.startup, c.registry.defaultModel, c.history)
  }

  method SetDrainAndSend(c: ClusterCoordinator, bus: InMemoryBroker<Remote>, backend: string, draining: bool)
    requires c.Valid()
    modifies c.registry, c.drain, bus
    ensures c.Valid() && NodeOf(c) == Draining(old(NodeOf(c)), c.replicaId, backend, draining)
    ensures bus.inboxes == Fan(old(bus.inboxes), c.replicaId, Drain(c.replicaId, c.drain.clock, backend, draining))
  {
    hide Flagged, InSync, ClusterCoordinator.TreeOk;
    var e := c.PublishDrain(backend, draining);
    bus.FanOut(c.replicaId, e);
  }

  method AddMemberAndSend(c: ClusterCoordinator, bus: InMemoryBroker<Remote>, id: string, url: string, model: string)
    requires c.Valid()
    modifies c.registry, c.membership, bus
    ensures c.Valid() && NodeOf(c) == Adding(old(NodeOf(c)), c.replicaId, id, url, model)
    ensures bus.inboxes == Fan(old(bus.inboxes), c.replicaId,
      MemberChange(c.replicaId, c.membership.clock, id, Member(true, url, model)))
  {
    hide Added, InSync, ClusterCoordinator.TreeOk;
    var e := c.AdminAdd(id, url, model);
    bus.FanOut(c.replicaId, e);
  }

  method RemoveMemberAndSend(c: ClusterCoordinator, bus: InMemoryBroker<Remote>, id: string) returns (known: bool)
    requires c.Valid()
    modifies c.registry, c.membership, c.tree, c`history, bus
    ensures c.Valid() && known == (id in old(c.registry.byId))
    ensures NodeOf(c) == if known then Removing(old(NodeOf(c)), c.replicaId, id) else old(NodeOf(c))
    ensures bus.inboxes ==
      if known
      then Fan(old(bus.inboxes), c.replicaId,
               MemberChange(c.replicaId, c.membership.clock, id, Member(false, "", "")))
      else old(bus.inboxes)
  {
    hide InSync, ClusterCoordinator.TreeOk;
    var e;
    known, e := c.AdminRemove(id);
    if known {
      bus.FanOut(c.replicaId, e);
    } else {
      assert old(c.registry.byId) - {id} == old(c.registry.byId);
    }
  }

  /** Poll the bus and apply what came. */
  method PollAndSync(c: ClusterCoordinator, bus: InMemoryBroker<Remote>)
    requires c.Valid() && c.replicaId in bus.inboxes
    modifies c.tree, c.registry, c.drain, c.membership, c`history, bus
    ensures c.Valid() && Syncing(old(NodeOf(c)), old(bus.inboxes)[c.replicaId], NodeOf(c))
    ensures bus.inboxes == old(bus.inboxes)[c.replicaId := []]
  {
    hide InSync, ClusterCoordinator.TreeOk, Applied, DrainReported, MemberReported, Coordinator.Synced, Drains, Members;
    var events := bus.Drain(c.replicaId);
    ghost var gone := c.SyncEvents(events);
    assert c.history == old(c.history) + TreeOps(events) + Removals(gone);
  }

  /** Dispatch a request and tell the peers. */
  method DispatchAndSend(c: ClusterCoordinator, bus: InMemoryBroker<Remote>, h: Path, b: string)
    requires c.Valid()
    modifies c.tree, c`history, bus
    ensures c.Valid()
    ensures NodeOf(c) ==
      if h == [] then old(NodeOf(c)) else Operating(old(NodeOf(c)), RoutingHistory.Insert(h, b))
    ensures bus.inboxes == if h == [] then old(bus.inboxes) else Fan(old(bus.inboxes), c.replicaId, Remote.Insert(h, b))
  {
    hide InSync, ClusterCoordinator.TreeOk, Prefixes;
    var published := c.Dispatch(h, b);
    if h != [] {
      bus.FanOut(c.replicaId, published[0]);
    }
  }

  method DropAndSend(c: ClusterCoordinator, bus: InMemoryBroker<Remote>, b: string)
    requires c.Valid()
    modifies c.tree, c`history, bus
    ensures c.Valid() && NodeOf(c) == Operating(old(NodeOf(c)), RoutingHistory.Remove(b))
    ensures bus.inboxes == Fan(old(bus.inboxes), c.replicaId, RemoveBackend(b))
  {
    hide InSync, ClusterCoordinator.TreeOk;
    var e := c.BackendDown(b);
    bus.FanOut(c.replicaId, e);
  }
}
