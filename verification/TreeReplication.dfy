/** Replicas that fan out their inserts and removals converge on the same routing answers
(gateway/cluster/coordinator.py: publish_insert, publish_remove and the tree branches of sync).

Each replica applies its own operations at once and its peers' operations when it syncs, so the trees see
them in different orders and end up with different shapes.  Inserts commute; an insert and a removal of
the same backend do not, and nothing in the protocol orders them.
 */
module TreeReplication {
  import opened Basics
  import opened PrefixSets
  import opened TreeShape
  import opened RoutingHistory

  /** What a replica's tree has been through, and what is on its way to it. */
  datatype Site = Site(applied: seq<Op>, inbox: seq<Op>)

  type Sites = map<string, Site>

  datatype Event =
    | Dispatch(replica: string, hashes: Path, backend: Backend)
    | Down(replica: string, backend: Backend)
    | Sync(replica: string)

  function Init(ids: set<string>): Sites {
    map r | r in ids :: Site([], [])
  }

  /** Apply an operation at `p` and send it to everybody else. */
  function Issue(s: Sites, p: string, op: Op): Sites {
    map r | r in s ::
      if r == p then s[r].(applied := s[r].applied + [op]) else s[r].(inbox := s[r].inbox + [op])
  }

  /** An empty hash list is neither inserted nor published. */
  function Step(s: Sites, ev: Event): Sites
    requires ev.replica in s
  {
    match ev
    case Dispatch(p, h, b) => if h == [] then s else Issue(s, p, Insert(h, b))
    case Down(p, b) => Issue(s, p, Remove(b))
    case Sync(p) => s[p := Site(s[p].applied + s[p].inbox, [])]
  }

  ghost predicate Feasible(s: Sites, evs: seq<Event>) {
    forall i :: 0 <= i < |evs| ==> evs[i].replica in s
  }

  function Run(s: Sites, evs: seq<Event>): (s': Sites)
    requires Feasible(s, evs)
    ensures s'.Keys == s.Keys
  {
    if evs == [] then s else Step(Run(s, evs[..|evs| - 1]), evs[|evs| - 1])
  }

  /** Everything a site has applied or will apply. */
  function All(x: Site): seq<Op> {
    x.applied + x.inbox
  }

  // ------------------------------------------------------------------ what an operation in the middle does

  ghost predicate NoInsert(ops: seq<Op>, b: Backend) {
    forall i :: 0 <= i < |ops| ==> !(ops[i].Insert? && ops[i].backend == b)
  }

  ghost predicate NoRemove(ops: seq<Op>, b: Backend) {
    forall i :: 0 <= i < |ops| ==> ops[i] != Remove(b)
  }

  lemma LiveSnoc(ops: seq<Op>, op: Op, b: Backend)
    ensures Live(ops + [op], b) ==
      if op.backend != b then Live(ops, b) else if op.Remove? then [] else Live(ops, b) + [op.hashes]
  {
    assert (ops + [op])[..|ops|] == ops;
  }

  /** Before operations that do not remove `b`, one more insert adds one more list. */
  lemma {:induction false} LiveInsert(a: seq<Op>, h: Path, b: Backend, rest: seq<Op>, g: Path)
    requires NoRemove(rest, b)
    ensures g in Live(a + [Insert(h, b)] + rest, b) <==> g in Live(a + rest, b) || g == h
  {
    if rest == [] {
      LiveSnoc(a, Insert(h, b), b);
      assert a + rest == a && a + [Insert(h, b)] + rest == a + [Insert(h, b)];
    } else {
      var init, op := rest[..|rest| - 1], rest[|rest| - 1];
      LiveInsert(a, h, b, init, g);
      assert a + rest == (a + init) + [op];
      assert a + [Insert(h, b)] + rest == (a + [Insert(h, b)] + init) + [op];
      LiveSnoc(a + init, op, b);
      LiveSnoc(a + [Insert(h, b)] + init, op, b);
    }
  }

  /** Before operations that insert nothing for `b`, a removal leaves nothing. */
  lemma {:induction false} LiveRemove(a: seq<Op>, b: Backend, rest: seq<Op>)
    requires NoInsert(rest, b)
    ensures Live(a + [Remove(b)] + rest, b) == []
  {
    if rest == [] {
      LiveSnoc(a, Remove(b), b);
      assert a + [Remove(b)] + rest == a + [Remove(b)];
    } else {
      var init, op := rest[..|rest| - 1], rest[|rest| - 1];
      LiveRemove(a, b, init);
      assert a + [Remove(b)] + rest == (a + [Remove(b)] + init) + [op];
      LiveSnoc(a + [Remove(b)] + init, op, b);
    }
  }

  /** Operations for other backends do not matter. */
  lemma {:induction false} LiveOther(a: seq<Op>, op: Op, b: Backend, rest: seq<Op>)
    requires op.backend != b
    ensures Live(a + [op] + rest, b) == Live(a + rest, b)
  {
    if rest == [] {
      LiveSnoc(a, op, b);
      assert a + rest == a && a + [op] + rest == a + [op];
    } else {
      var init, last := rest[..|rest| - 1], rest[|rest| - 1];
      LiveOther(a, op, b, init);
      assert a + rest == (a + init) + [last] && a + [op] + rest == (a + [op] + init) + [last];
      LiveSnoc(a + init, last, b);
      LiveSnoc(a + [op] + init, last, b);
    }
  }

  // ------------------------------------------------------------------ convergence

  /** No insert and removal of `b` are concurrent: `b` is removed only while no insert for it is in flight to
      anybody, and dispatched to only by a replica to which no removal of it is in flight. */
  ghost predicate Ordered(s: Sites, ev: Event, b: Backend)
    requires ev.replica in s
  {
    match ev
    case Dispatch(p, h, a) => a == b ==> NoRemove(s[p].inbox, b)
    case Down(p, a) => a == b ==> forall r :: r in s ==> NoInsert(s[r].inbox, b)
    case Sync(_) => true
  }

  ghost predicate OrderedRun(s: Sites, evs: seq<Event>, b: Backend)
    requires Feasible(s, evs)
  {
    evs == [] ||
      (OrderedRun(s, evs[..|evs| - 1], b) && Ordered(Run(s, evs[..|evs| - 1]), evs[|evs| - 1], b))
  }

  /** What an event adds to the operations issued. */
  function Issues(ev: Event): seq<Op> {
    match ev
    case Dispatch(_, h, b) => if h == [] then [] else [Insert(h, b)]
    case Down(_, b) => [Remove(b)]
    case Sync(_) => []
  }

  /** All dispatches and removals of a run, in the order in which they were issued anywhere. */
  function Issued(evs: seq<Event>): seq<Op> {
    if evs == [] then [] else Issued(evs[..|evs| - 1]) + Issues(evs[|evs| - 1])
  }

  ghost predicate SameLists1(ops: seq<Op>, log: seq<Op>, b: Backend) {
    forall g :: g in Live(ops, b) <==> g in Live(log, b)
  }

  /** Every site knows, applied or on their way, exactly the lists for `b` that are live in the log. */
  ghost predicate Knows(s: Sites, log: seq<Op>, b: Backend) {
    forall r {:trigger s[r]} :: r in s ==> SameLists1(All(s[r]), log, b)
  }

  /** What an operation does to the live lists of every site alike. */
  ghost predicate After(op: Op, b: Backend, before: seq<Path>, after: seq<Path>) {
    forall g :: g in after <==>
      if op.backend != b then g in before else op.Insert? && (g in before || g == op.hashes)
  }

  /** Issuing an operation has this effect at every site. */
  lemma IssueEffect(s: Sites, p: string, op: Op, b: Backend, r: string)
    requires p in s && r in s
    requires op.backend == b && op.Insert? ==> NoRemove(s[p].inbox, b)
    requires op.backend == b && op.Remove? ==> NoInsert(s[p].inbox, b)
    ensures After(op, b, Live(All(s[r]), b), Live(All(Issue(s, p, op)[r]), b))
  {
    var x := s[r];
    if r == p {
      assert All(Issue(s, p, op)[r]) == x.applied + [op] + x.inbox;
      if op.backend != b {
        LiveOther(x.applied, op, b, x.inbox);
      } else if op.Remove? {
        LiveRemove(x.applied, b, x.inbox);
      } else {
        forall g ensures g in Live(x.applied + [op] + x.inbox, b) <==> g in Live(All(x), b) || g == op.hashes {
          LiveInsert(x.applied, op.hashes, b, x.inbox, g);
        }
      }
    } else {
      assert All(Issue(s, p, op)[r]) == All(x) + [op];
      LiveSnoc(All(x), op, b);
    }
  }

  lemma IssueKnown(s: Sites, p: string, op: Op, b: Backend, log: seq<Op>)
    requires p in s && Knows(s, log, b)
    requires op.backend == b && op.Insert? ==> NoRemove(s[p].inbox, b)
    requires op.backend == b && op.Remove? ==> NoInsert(s[p].inbox, b)
    ensures Knows(Issue(s, p, op), log + [op], b)
  {
    hide Live, All, Issue;
    var s' := Issue(s, p, op);
    IssueKeys(s, p, op);
    forall r | r in s' ensures SameLists1(All(s'[r]), log + [op], b) {
      assert SameLists1(All(s[r]), log, b);
      IssueEffect(s, p, op, b, r);
      LiveSnoc(log, op, b);
    }
  }

  lemma IssueKeys(s: Sites, p: string, op: Op)
    ensures Issue(s, p, op).Keys == s.Keys
  {
  }

  lemma StepKnown(s: Sites, ev: Event, b: Backend, log: seq<Op>)
    requires ev.replica in s && Knows(s, log, b) && Ordered(s, ev, b)
    ensures Knows(Step(s, ev), log + Issues(ev), b)
  {
    match ev
    case Dispatch(p, h, a) =>
      if h != [] { IssueKnown(s, p, Insert(h, a), b, log); } else { assert log + [] == log; }
    case Down(p, a) => IssueKnown(s, p, Remove(a), b, log);
    case Sync(p) =>
      assert log + [] == log;
      var s' := Step(s, ev);
      assert All(s'[p]) == All(s[p]);
      forall r | r in s' ensures SameLists1(All(s'[r]), log, b) {
        assert SameLists1(All(s[r]), log, b);
      }
  }

  lemma {:induction false} RunKnown(ids: set<string>, evs: seq<Event>, b: Backend)
    requires Feasible(Init(ids), evs) && OrderedRun(Init(ids), evs, b)
    ensures Knows(Run(Init(ids), evs), Issued(evs), b)
  {
    if evs != [] {
      RunKnown(ids, evs[..|evs| - 1], b);
      StepKnown(Run(Init(ids), evs[..|evs| - 1]), evs[|evs| - 1], b, Issued(evs[..|evs| - 1]));
    }
  }

  /** If what `b` holds live fits in the end, it has fitted all along since its last removal. */
  lemma {:induction false} FitsAllAlong(ops: seq<Op>, b: Backend, cap: int)
    requires |Union(Live(ops, b))| <= Max(cap, 0)
    ensures Fits(ops, b, cap)
  {
    if ops != [] && ops[|ops| - 1] != Remove(b) {
      var init := ops[..|ops| - 1];
      var before := Live(init, b);
      assert Union(before) <= Union(Live(ops, b)) by {
        if ops[|ops| - 1].backend == b {
          assert (before + [ops[|ops| - 1].hashes])[..|before|] == before;
        }
      }
      SubsetSize(Union(before), Union(Live(ops, b)));
      FitsAllAlong(init, b, cap);
    }
  }

  /** In every run in which no insert and removal of `b` are concurrent, a site with an empty inbox holds for
      `b` exactly what has been dispatched for it anywhere since its last removal anywhere, if that fits. */
  lemma QuietSiteKnows(ids: set<string>, evs: seq<Event>, p: string, b: Backend, cap: int, h: Path)
    requires Feasible(Init(ids), evs) && OrderedRun(Init(ids), evs, b) && p in ids
    requires Run(Init(ids), evs)[p].inbox == [] && |Union(Live(Issued(evs), b))| <= Max(cap, 0)
    ensures var applied := Run(Init(ids), evs)[p].applied;
      && Fits(applied, b, cap) && Union(Live(applied, b)) == Union(Live(Issued(evs), b))
      && LongestShared(Live(applied, b), h) == LongestShared(Live(Issued(evs), b), h)
  {
    RunKnown(ids, evs, b);
    var x := Run(Init(ids), evs)[p];
    assert All(x) == x.applied;
    assert SameLists1(All(x), Issued(evs), b);
    SameLists(Live(x.applied, b), Live(Issued(evs), b), h);
    FitsAllAlong(x.applied, b, cap);
  }

  /** Hence two such sites answer every query alike for `b`. */
  lemma QuietSitesAgree(ids: set<string>, evs: seq<Event>, p: string, r: string, b: Backend, cap: int, h: Path)
    requires Feasible(Init(ids), evs) && OrderedRun(Init(ids), evs, b) && p in ids && r in ids
    requires var s := Run(Init(ids), evs);
      s[p].inbox == [] && s[r].inbox == [] && |Union(Live(s[p].applied, b))| <= Max(cap, 0)
    ensures var s := Run(Init(ids), evs);
      && Fits(s[p].applied, b, cap) && Fits(s[r].applied, b, cap)
      && LongestShared(Live(s[p].applied, b), h) == LongestShared(Live(s[r].applied, b), h)
  {
    RunKnown(ids, evs, b);
    var s := Run(Init(ids), evs);
    assert All(s[p]) == s[p].applied && All(s[r]) == s[r].applied;
    assert SameLists1(All(s[p]), Issued(evs), b) && SameLists1(All(s[r]), Issued(evs), b);
    SameLists(Live(s[p].applied, b), Live(s[r].applied, b), h);
    FitsAllAlong(s[p].applied, b, cap);
    FitsAllAlong(s[r].applied, b, cap);
  }

  /** The same with the trees themselves: build both from their own histories and query them. */
  method QueryBoth(ids: set<string>, evs: seq<Event>, p: string, r: string, cap: int, h: Path)
    returns (atP: map<Backend, nat>, atR: map<Backend, nat>)
    requires Feasible(Init(ids), evs) && p in ids && r in ids
    requires forall b :: OrderedRun(Init(ids), evs, b)
    requires var s := Run(Init(ids), evs);
      && s[p].inbox == [] && s[r].inbox == []
      && forall b :: |Union(Live(s[p].applied, b))| <= Max(cap, 0)
    ensures atP == atR
  {
    hide OrderedRun, Feasible, LongestShared, Live, Union, Fits;
    var s := Run(Init(ids), evs);
    atP := RoutingBelief(cap, s[p].applied, h);
    atR := RoutingBelief(cap, s[r].applied, h);
    forall b ensures (b in atP <==> b in atR) && (b in atP ==> atP[b] == atR[b]) {
      QuietSitesAgree(ids, evs, p, r, b, cap, h);
    }
    assert atP.Keys == atR.Keys;
  }

  // ------------------------------------------------------------------ concurrent inserts and removals

  /** An insert at `p` and a removal at `r` that cross each other on the way. */
  function Crossing(p: string, r: string, h: Path, b: Backend, insertFirst: bool): seq<Event> {
    (if insertFirst then [Dispatch(p, h, b), Down(r, b)] else [Down(r, b), Dispatch(p, h, b)]) + [Sync(p), Sync(r)]
  }

  lemma CrossingStates(p: string, r: string, h: Path, b: Backend, insertFirst: bool)
    requires p != r && h != []
    ensures Feasible(Init({p, r}), Crossing(p, r, h, b, insertFirst))
    ensures var s := Run(Init({p, r}), Crossing(p, r, h, b, insertFirst));
      && s[p] == Site([Insert(h, b), Remove(b)], []) && s[r] == Site([Remove(b), Insert(h, b)], [])
  {
    var evs := Crossing(p, r, h, b, insertFirst);
    var s0 := Init({p, r});
    var first, second := evs[0], evs[1];
    assert evs == [first, second, Sync(p), Sync(r)];
    RunFour(s0, first, second, Sync(p), Sync(r));
    hide Run, Feasible;
    var mid := Step(Step(s0, first), second);
    assert mid[p] == Site([Insert(h, b)], [Remove(b)]) && mid[r] == Site([Remove(b)], [Insert(h, b)]);
    assert Step(Step(mid, Sync(p)), Sync(r)) == mid[p := Site(mid[p].applied + mid[p].inbox, [])]
      [r := Site(mid[r].applied + mid[r].inbox, [])];
  }

  lemma RunSnoc(s: Sites, evs: seq<Event>, ev: Event)
    requires Feasible(s, evs) && ev.replica in s
    ensures Feasible(s, evs + [ev]) && Run(s, evs + [ev]) == Step(Run(s, evs), ev)
  {
    assert (evs + [ev])[..|evs|] == evs;
  }

  lemma RunFour(s: Sites, a: Event, b: Event, c: Event, d: Event)
    requires a.replica in s && b.replica in s && c.replica in s && d.replica in s
    ensures Feasible(s, [a, b, c, d])
    ensures Run(s, [a, b, c, d]) == Step(Step(Step(Step(s, a), b), c), d)
  {
    hide Step;
    RunSnoc(s, [], a);
    RunSnoc(s, [a], b);
    RunSnoc(s, [a, b], c);
    RunSnoc(s, [a, b, c], d);
    assert [] + [a] == [a] && [a] + [b] == [a, b] && [a, b] + [c] == [a, b, c] && [a, b, c] + [d] == [a, b, c, d];
  }

  /** The documented convergence fails then: with both inboxes empty the replica that dispatched
      believes that `b` holds nothing, and the one that removed `b` believes that it holds the list. */
  method CrossingDiverges(p: string, r: string, h: Path, b: Backend, insertFirst: bool, cap: int)
    returns (atP: map<Backend, nat>, atR: map<Backend, nat>)
    requires p != r && 0 < |h| <= cap
    ensures Feasible(Init({p, r}), Crossing(p, r, h, b, insertFirst))
    ensures var s := Run(Init({p, r}), Crossing(p, r, h, b, insertFirst)); s[p].inbox == [] && s[r].inbox == []
    ensures b !in atP && b in atR && atR[b] == |h|
  {
    CrossingStates(p, r, h, b, insertFirst);
    var s := Run(Init({p, r}), Crossing(p, r, h, b, insertFirst));
    LiveSnoc([Insert(h, b)], Remove(b), b);
    LiveSnoc([], Remove(b), b);
    LiveSnoc([Remove(b)], Insert(h, b), b);
    assert [Insert(h, b)] + [Remove(b)] == [Insert(h, b), Remove(b)];
    assert [Remove(b)] + [Insert(h, b)] == [Remove(b), Insert(h, b)];
    atP := RoutingBelief(cap, s[p].applied, h);
    atR := RoutingBelief(cap, s[r].applied, h);
  }
}
