/** The asynchronous dispatch gate over the fair queue (gateway/fairsched.py).

A future is pending until it is granted or cancelled; a granted future is later taken by its waiter,
or abandoned when the waiter was cancelled in the same tick.  `holders` counts the tasks that own a
slot and will release it; it belongs to the environment, the gate itself only keeps `active`.
 */
module FairSched {
  import opened FairQueue

  datatype Future = Pending | Granted | Cancelled | Taken | Abandoned

  type FutureId = nat

  datatype Config = Config(maxConcurrency: int, weights: map<string, real>, defaultWeight: real, cost: real) {
    function Slots(): (n: nat)
      ensures n >= 1
    {
      if maxConcurrency < 1 then 1 else maxConcurrency
    }

    function WeightFor(cls: string): real {
      if cls in weights then weights[cls] else defaultWeight
    }
  }

  datatype Gate = Gate(cfg: Config, active: int, q: Queue<FutureId>, futures: seq<Future>, holders: nat)

  function Init(cfg: Config): Gate {
    Gate(cfg, 0, Empty(), [], 0)
  }

  // ------------------------------------------------------------------ the gate's own steps

  datatype Grant = Grant(granted: bool, q: Queue<FutureId>, futures: seq<Future>)

  function StateOf(futures: seq<Future>, id: FutureId): Future {
    if id < |futures| then futures[id] else Abandoned
  }

  /** Pop entries until one that is not cancelled is found, and grant it. */
  function GrantNext(q: Queue<FutureId>, futures: seq<Future>): Grant
    decreases |q.heap|
  {
    if q.heap == [] then Grant(false, q, futures) else
      var id := Front(q).item;
      if StateOf(futures, id) == Cancelled then GrantNext(Dequeue(q), futures)
      else Grant(true, Dequeue(q), if id < |futures| then futures[id := Granted] else futures)
  }

  /** Pass the slot on, or free it. */
  function ReleaseOne(g: Gate): Gate {
    var r := GrantNext(g.q, g.futures);
    Gate(g.cfg,
         if r.granted then g.active else if g.active - 1 < 0 then 0 else g.active - 1,
         r.q, r.futures, g.holders)
  }

  datatype Event = Acquire(cls: string) | Cancel(id: FutureId) | Resume(id: FutureId) | Release

  /** Cancellation concerns a waiter, resumption a granted one, and only holders release. */
  predicate Enabled(g: Gate, ev: Event) {
    match ev
    case Acquire(_) => true
    case Cancel(id) => id < |g.futures| && (g.futures[id] == Pending || g.futures[id] == Granted)
    case Resume(id) => id < |g.futures| && g.futures[id] == Granted
    case Release => g.holders > 0
  }

  function GateStep(g: Gate, ev: Event): Gate
    requires Enabled(g, ev)
  {
    match ev
    case Acquire(cls) =>
      if g.active < g.cfg.Slots() then g.(active := g.active + 1, holders := g.holders + 1)
      else g.(q := Enqueue(g.q, |g.futures|, cls, g.cfg.WeightFor(cls), g.cfg.cost), futures := g.futures + [Pending])
    case Cancel(id) =>
      if g.futures[id] == Pending then g.(futures := g.futures[id := Cancelled])
      else ReleaseOne(g.(futures := g.futures[id := Abandoned]))
    case Resume(id) => g.(futures := g.futures[id := Taken], holders := g.holders + 1)
    case Release => ReleaseOne(g.(holders := g.holders - 1))
  }

  // ------------------------------------------------------------------ the mutable gate

  class AsyncFairScheduler {
    const cfg: Config
    const wfq: WeightedFairQueue<FutureId>
    var active: int
    var futures: seq<Future>
    ghost var holders: nat

    ghost function State(): Gate
      reads this, wfq
    {
      Gate(cfg, active, wfq.State(), futures, holders)
    }

    constructor (cfg: Config)
      ensures State() == Init(cfg) && fresh(wfq)
    {
      this.cfg := cfg;
      wfq := new WeightedFairQueue();
      active, futures, holders := 0, [], 0;
    }

    /** Takes a slot at once, or parks and returns the future to wait on. */
    method AcquireSlot(cls: string) returns (parked: bool, id: FutureId)
      modifies this, wfq
      ensures State() == GateStep(old(State()), Acquire(cls))
      ensures parked <==> old(active) >= if cfg.maxConcurrency < 1 then 1 else cfg.maxConcurrency
      ensures !parked ==> active == old(active) + 1 && futures == old(futures) && wfq.State() == old(wfq.State())
      ensures parked ==> id == old(|futures|) && futures == old(futures) + [Pending] && active == old(active)
    {
      id := |futures|;
      parked := active >= cfg.Slots();
      if !parked {
        active := active + 1;
        holders := holders + 1;
        return;
      }
      var _ := wfq.Push(id, cls, cfg.WeightFor(cls), cfg.cost);
      futures := futures + [Pending];
    }

    method GrantToNext() returns (granted: bool)
      modifies this`futures, wfq
      ensures var r := GrantNext(old(wfq.State()), old(futures));
        granted == r.granted && wfq.State() == r.q && futures == r.futures
    {
      ghost var r := GrantNext(wfq.State(), futures);
      while wfq.Len() > 0
        invariant futures == old(futures)
        invariant GrantNext(wfq.State(), futures) == r
        decreases |wfq.heap|
      {
        var p := wfq.Pop();
        var id := p.item;
        if StateOf(futures, id) == Cancelled {
          continue;
        }
        if id < |futures| {
          futures := futures[id := Granted];
        }
        return true;
      }
      return false;
    }

    method FreeOne()
      modifies this`active, this`futures, wfq
      ensures State() == ReleaseOne(old(State()))
    {
      var granted := GrantToNext();
      if !granted {
        active := if active - 1 < 0 then 0 else active - 1;
      }
    }

    /** A release by a holder, or a stray one when nobody holds a slot. */
    method ReleaseSlot()
      modifies this, wfq
      ensures old(holders) > 0 ==> State() == GateStep(old(State()), Release)
      ensures old(holders) == 0 ==> State() == ReleaseOne(old(State()))
    {
      if holders > 0 {
        holders := holders - 1;
      }
      FreeOne();
    }

    /** The waiter on `id` is cancelled: while parked this only marks it, after a grant it hands the
        slot on. */
    method CancelWaiter(id: FutureId)
      requires Enabled(State(), Cancel(id))
      modifies this`active, this`futures, wfq
      ensures State() == GateStep(old(State()), Cancel(id))
    {
      if futures[id] == Pending {
        futures := futures[id := Cancelled];
      } else {
        futures := futures[id := Abandoned];
        FreeOne();
      }
    }

    method ResumeWaiter(id: FutureId)
      requires Enabled(State(), Resume(id))
      modifies this`futures, this`holders
      ensures State() == GateStep(old(State()), Resume(id))
    {
      futures := futures[id := Taken];
      holders := holders + 1;
    }
  }

  // ------------------------------------------------------------------ invariant

  /** Futures in state `f`. */
  ghost function InState(futures: seq<Future>, f: Future): set<FutureId> {
    set id | 0 <= id < |futures| && futures[id] == f
  }

  ghost predicate EntriesOk(heap: seq<Entry<FutureId>>, futures: seq<Future>) {
    && (forall i :: 0 <= i < |heap| ==>
          heap[i].item < |futures| && (futures[heap[i].item] == Pending || futures[heap[i].item] == Cancelled))
    && (forall i, j :: 0 <= i < j < |heap| ==> heap[i].item != heap[j].item)
  }

  /** The queue holds each pending future, once, and otherwise only cancelled ones. */
  ghost predicate QueueOk(heap: seq<Entry<FutureId>>, futures: seq<Future>) {
    && EntriesOk(heap, futures)
    && (forall id :: 0 <= id < |futures| && futures[id] == Pending ==>
          exists i :: 0 <= i < |heap| && heap[i].item == id)
  }

  /** Slots are accounted for, and waiting implies that all of them are busy. */
  ghost predicate Inv(g: Gate) {
    && g.active == g.holders + |InState(g.futures, Granted)|
    && g.active <= g.cfg.Slots()
    && (g.q.heap != [] ==> g.active == g.cfg.Slots())
    && QueueOk(g.q.heap, g.futures)
  }

  lemma InitInv(cfg: Config)
    ensures Inv(Init(cfg))
  {
    assert InState([], Granted) == {};
  }

  lemma InStateUpdate(futures: seq<Future>, id: FutureId, f: Future)
    requires id < |futures|
    ensures InState(futures[id := f], Granted) ==
      if f == Granted then InState(futures, Granted) + {id} else InState(futures, Granted) - {id}
  {
  }

  lemma RemovedAt(heap: seq<Entry<FutureId>>, i: nat, k: nat)
    requires i < |heap| && k < |heap| - 1
    ensures (heap[..i] + heap[i + 1..])[k] == if k < i then heap[k] else heap[k + 1]
  {
  }

  /** Removing one entry whose future is no longer pending. */
  lemma QueueOkRemove(heap: seq<Entry<FutureId>>, futures: seq<Future>, i: nat, f: Future)
    requires i < |heap| && QueueOk(heap, futures)
    requires if futures[heap[i].item] == Pending then f != Pending else f == futures[heap[i].item]
    ensures QueueOk(heap[..i] + heap[i + 1..], futures[heap[i].item := f])
  {
    var heap' := heap[..i] + heap[i + 1..];
    var futures' := futures[heap[i].item := f];
    RemoveKeepsEntries(heap, futures, i, f);
    forall id | 0 <= id < |futures'| && futures'[id] == Pending
      ensures exists k :: 0 <= k < |heap'| && heap'[k].item == id
    {
      var k :| 0 <= k < |heap| && heap[k].item == id;
      var k' := if k < i then k else k - 1;
      RemovedAt(heap, i, k');
      assert heap'[k'].item == id;
    }
  }

  lemma RemoveKeepsEntries(heap: seq<Entry<FutureId>>, futures: seq<Future>, i: nat, f: Future)
    requires i < |heap| && EntriesOk(heap, futures)
    ensures EntriesOk(heap[..i] + heap[i + 1..], futures[heap[i].item := f])
  {
    var heap' := heap[..i] + heap[i + 1..];
    var futures' := futures[heap[i].item := f];
    forall k | 0 <= k < |heap'|
      ensures heap'[k].item < |futures'| && (futures'[heap'[k].item] == Pending || futures'[heap'[k].item] == Cancelled)
    {
      RemovedAt(heap, i, k);
    }
    forall k, l | 0 <= k < l < |heap'| ensures heap'[k].item != heap'[l].item {
      RemovedAt(heap, i, k);
      RemovedAt(heap, i, l);
    }
  }

  /** The front of a non-empty queue is pending or cancelled. */
  lemma FrontState(q: Queue<FutureId>, futures: seq<Future>)
    requires QueueOk(q.heap, futures) && q.heap != []
    ensures Front(q).item < |futures|
    ensures futures[Front(q).item] == Pending || futures[Front(q).item] == Cancelled
  {
  }

  lemma NobodyWaits(futures: seq<Future>)
    requires QueueOk([], futures)
    ensures InState(futures, Pending) == {}
  {
  }

  /** Passing a slot on: the gate grants the least live waiter if there is any, and otherwise
      empties the queue. */
  lemma {:induction false} GrantNextOk(q: Queue<FutureId>, futures: seq<Future>)
    requires QueueOk(q.heap, futures)
    ensures var r := GrantNext(q, futures);
      && QueueOk(r.q.heap, r.futures) && |r.futures| == |futures|
      && (r.granted <==> InState(futures, Pending) != {})
      && (!r.granted ==> r.futures == futures && r.q.heap == [])
      && (r.granted ==> exists i :: Granting(q, futures, i, r.futures))
    decreases |q.heap|
  {
    hide QueueOk, Winner, InState;
    if q.heap == [] {
      NobodyWaits(futures);
    } else {
      FrontState(q, futures);
      var i := LeastIndex(q.heap);
      var id := Front(q).item;
      QueueOkRemove(q.heap, futures, i, if futures[id] == Cancelled then Cancelled else Granted);
      if futures[id] == Cancelled {
        assert futures[id := Cancelled] == futures;
        GrantNextOk(Dequeue(q), futures);
        var r := GrantNext(Dequeue(q), futures);
        if r.granted {
          var w: nat :| Granting(Dequeue(q), futures, w, r.futures);
          var k := WinnerShift(q, futures, w);
          assert Granting(q, futures, k, r.futures);
        }
      } else {
        FrontWins(q, futures);
        assert Granting(q, futures, i, futures[id := Granted]);
      }
    }
  }

  /** Granting changes exactly the future of the winning entry. */
  ghost predicate Granting(q: Queue<FutureId>, futures: seq<Future>, i: nat, futures': seq<Future>) {
    && i < |q.heap| && Winner(q, futures, i)
    && q.heap[i].item < |futures| && futures' == futures[q.heap[i].item := Granted]
  }

  lemma FrontWins(q: Queue<FutureId>, futures: seq<Future>)
    requires q.heap != [] && Front(q).item < |futures| && futures[Front(q).item] == Pending
    ensures Winner(q, futures, LeastIndex(q.heap)) && InState(futures, Pending) != {}
  {
    assert Front(q).item in InState(futures, Pending);
  }

  /** Entry `i` is live and no live entry comes before it. */
  ghost predicate Winner(q: Queue<FutureId>, futures: seq<Future>, i: nat) {
    && i < |q.heap| && StateOf(futures, q.heap[i].item) == Pending
    && forall j :: 0 <= j < |q.heap| && StateOf(futures, q.heap[j].item) == Pending ==> !Before(q.heap[j], q.heap[i])
  }

  /** Past a cancelled front, the winner of the rest is the winner of the whole. */
  lemma WinnerShift(q: Queue<FutureId>, futures: seq<Future>, i: nat) returns (k: nat)
    requires q.heap != [] && StateOf(futures, Front(q).item) == Cancelled && Winner(Dequeue(q), futures, i)
    ensures Winner(q, futures, k) && q.heap[k] == Dequeue(q).heap[i]
  {
    var n := LeastIndex(q.heap);
    var rest := Dequeue(q).heap;
    assert forall x :: 0 <= x < |rest| ==> rest[x] == if x < n then q.heap[x] else q.heap[x + 1];
    k := if i < n then i else i + 1;
    forall j | 0 <= j < |q.heap| && StateOf(futures, q.heap[j].item) == Pending ensures !Before(q.heap[j], q.heap[k]) {
      assert rest[if j < n then j else j - 1] == q.heap[j];
    }
  }

  /** Releasing a slot that is accounted for keeps the invariant; the clamp at zero never acts. */
  lemma ReleaseOneInv(g: Gate)
    requires QueueOk(g.q.heap, g.futures)
    requires g.active == g.holders + |InState(g.futures, Granted)| + 1
    requires g.active <= g.cfg.Slots() && (g.q.heap != [] ==> g.active == g.cfg.Slots())
    ensures Inv(ReleaseOne(g))
    ensures ReleaseOne(g).active == if InState(g.futures, Pending) != {} then g.active else g.active - 1
  {
    hide QueueOk, InState;
    GrantNextOk(g.q, g.futures);
    var r := GrantNext(g.q, g.futures);
    if r.granted {
      var i: nat :| Granting(g.q, g.futures, i, r.futures);
      InStateUpdate(g.futures, g.q.heap[i].item, Granted);
      NotGrantedYet(g.futures, g.q.heap[i].item);
    }
  }

  /** Marking a future that does not wait in the queue, or cancelling one that does. */
  lemma MarkOk(heap: seq<Entry<FutureId>>, futures: seq<Future>, id: FutureId, f: Future)
    requires QueueOk(heap, futures) && id < |futures|
    requires futures[id] == Granted || (futures[id] == Pending && f == Cancelled)
    requires f == Cancelled || f == Taken || f == Abandoned
    ensures QueueOk(heap, futures[id := f])
  {
    var futures' := futures[id := f];
    forall x | 0 <= x < |futures'| && futures'[x] == Pending ensures exists i :: 0 <= i < |heap| && heap[i].item == x {
      assert futures[x] == Pending;
    }
  }

  /** Every step keeps the invariant. */
  lemma NextInv(g: Gate, ev: Event)
    requires Inv(g) && Enabled(g, ev)
    ensures Inv(GateStep(g, ev))
  {
    hide QueueOk, InState, ReleaseOne;
    match ev
    case Acquire(cls) =>
      if g.active >= g.cfg.Slots() {
        ParkOk(g, cls);
      }
    case Cancel(id) =>
      if g.futures[id] == Pending {
        InStateUpdate(g.futures, id, Cancelled);
        NotGranted(g.futures, id);
        MarkOk(g.q.heap, g.futures, id, Cancelled);
      } else {
        InStateUpdate(g.futures, id, Abandoned);
        IsGranted(g.futures, id);
        MarkOk(g.q.heap, g.futures, id, Abandoned);
        ReleaseOneInv(g.(futures := g.futures[id := Abandoned]));
      }
    case Resume(id) =>
      InStateUpdate(g.futures, id, Taken);
      IsGranted(g.futures, id);
      MarkOk(g.q.heap, g.futures, id, Taken);
    case Release =>
      ReleaseOneInv(g.(holders := g.holders - 1));
  }

  lemma NotGrantedYet(futures: seq<Future>, id: FutureId)
    requires StateOf(futures, id) == Pending
    ensures |InState(futures, Granted) + {id}| == |InState(futures, Granted)| + 1
  {
    assert id !in InState(futures, Granted);
  }

  lemma NotGranted(futures: seq<Future>, id: FutureId)
    requires id < |futures| && futures[id] == Pending
    ensures InState(futures, Granted) - {id} == InState(futures, Granted)
  {
  }

  lemma IsGranted(futures: seq<Future>, id: FutureId)
    requires id < |futures| && futures[id] == Granted
    ensures |InState(futures, Granted) - {id}| == |InState(futures, Granted)| - 1
  {
    assert id in InState(futures, Granted);
  }

  lemma ParkOk(g: Gate, cls: string)
    requires Inv(g) && g.active >= g.cfg.Slots()
    ensures Inv(GateStep(g, Acquire(cls)))
  {
    var g' := GateStep(g, Acquire(cls));
    assert InState(g'.futures, Granted) == InState(g.futures, Granted);
    assert g'.q.heap[|g.q.heap|].item == |g.futures|;
    forall id | 0 <= id < |g'.futures| && g'.futures[id] == Pending
      ensures exists i :: 0 <= i < |g'.q.heap| && g'.q.heap[i].item == id
    {
      if id < |g.futures| {
        var i :| 0 <= i < |g.q.heap| && g.q.heap[i].item == id;
        assert g'.q.heap[i].item == id;
      }
    }
  }

  // ------------------------------------------------------------------ runs

  /** `evs` can happen in this order from `g`. */
  predicate Feasible(g: Gate, evs: seq<Event>)
    decreases |evs|, 0
  {
    evs == [] || (Feasible(g, evs[..|evs| - 1]) && Enabled(GateRun(g, evs[..|evs| - 1]), evs[|evs| - 1]))
  }

  function GateRun(g: Gate, evs: seq<Event>): Gate
    requires Feasible(g, evs)
    decreases |evs|, 1
  {
    if evs == [] then g else GateStep(GateRun(g, evs[..|evs| - 1]), evs[|evs| - 1])
  }

  lemma {:induction false} GateRunInv(g: Gate, evs: seq<Event>)
    requires Inv(g) && Feasible(g, evs)
    ensures Inv(GateRun(g, evs)) && GateRun(g, evs).cfg == g.cfg
  {
    if evs != [] {
      GateRunInv(g, evs[..|evs| - 1]);
      NextInv(GateRun(g, evs[..|evs| - 1]), evs[|evs| - 1]);
    }
  }

  /** Slot conservation in every run where only holders release: the counter equals the slots owned
      or granted, never exceeds the limit, and is never short when a slot is given back; a live waiter
      exists only while all slots are busy; and once nobody owns or is offered a slot, the counter is
      zero and nobody waits. */
  lemma SlotConservation(cfg: Config, evs: seq<Event>)
    requires Feasible(Init(cfg), evs)
    ensures var g := GateRun(Init(cfg), evs); var granted := InState(g.futures, Granted);
      var slots := if cfg.maxConcurrency < 1 then 1 else cfg.maxConcurrency;
      && g.active == g.holders + |granted|
      && 0 <= g.active <= slots
      && (g.holders > 0 || granted != {} ==> g.active >= 1)
      && (InState(g.futures, Pending) != {} ==> g.active == slots && (g.holders > 0 || granted != {}))
      && (g.holders == 0 && granted == {} ==> g.active == 0 && g.q.heap == [] && InState(g.futures, Pending) == {})
  {
    InitInv(cfg);
    GateRunInv(Init(cfg), evs);
    var g := GateRun(Init(cfg), evs);
    if id :| id in InState(g.futures, Pending) {
      assert g.q.heap != [];
    }
  }

  /** As many requests as there are slots are let in without parking, whatever their classes. */
  lemma {:induction false} LetIn(cfg: Config, classes: seq<string>)
    requires |classes| <= if cfg.maxConcurrency < 1 then 1 else cfg.maxConcurrency
    ensures var evs := seq(|classes|, i requires 0 <= i < |classes| => Acquire(classes[i]));
      && Feasible(Init(cfg), evs)
      && GateRun(Init(cfg), evs) == Init(cfg).(active := |classes|, holders := |classes|)
  {
    var evs := seq(|classes|, i requires 0 <= i < |classes| => Acquire(classes[i]));
    if classes != [] {
      var init := classes[..|classes| - 1];
      LetIn(cfg, init);
      assert evs[..|evs| - 1] == seq(|init|, i requires 0 <= i < |init| => Acquire(init[i]));
    }
  }

  /** The event gives a slot back: a release, or the cancellation of a waiter already granted. */
  predicate GivesBack(g: Gate, ev: Event) {
    Enabled(g, ev) && (ev.Release? || (ev.Cancel? && g.futures[ev.id] == Granted))
  }

  /** The gate just before the slot is passed on. */
  function Handing(g: Gate, ev: Event): Gate
    requires GivesBack(g, ev)
  {
    if ev.Cancel? then g.(futures := g.futures[ev.id := Abandoned]) else g.(holders := g.holders - 1)
  }

  lemma HandingOk(g: Gate, ev: Event)
    requires Inv(g) && GivesBack(g, ev)
    ensures var h := Handing(g, ev);
      && GateStep(g, ev) == ReleaseOne(h) && QueueOk(h.q.heap, h.futures)
      && h.active == h.holders + |InState(h.futures, Granted)| + 1
      && InState(h.futures, Pending) == InState(g.futures, Pending)
      && (forall id :: StateOf(h.futures, id) == Pending <==> StateOf(g.futures, id) == Pending)
  {
    hide QueueOk, InState, ReleaseOne, StateOf;
    if ev.Cancel? {
      InStateUpdate(g.futures, ev.id, Abandoned);
      IsGranted(g.futures, ev.id);
      MarkOk(g.q.heap, g.futures, ev.id, Abandoned);
      SamePending(g.futures, ev.id);
    }
  }

  lemma SamePending(futures: seq<Future>, id: FutureId)
    requires id < |futures| && futures[id] == Granted
    ensures InState(futures[id := Abandoned], Pending) == InState(futures, Pending)
    ensures forall x :: StateOf(futures[id := Abandoned], x) == Pending <==> StateOf(futures, x) == Pending
  {
  }

  /** Entry `i` wins before the event and its future is granted after it. */
  ghost predicate Handed(g: Gate, g': Gate, i: nat) {
    Winner(g.q, g.futures, i) && StateOf(g'.futures, g.q.heap[i].item) == Granted
  }

  lemma WinnerGranted(g: Gate, h: Gate)
    requires QueueOk(h.q.heap, h.futures) && h.q == g.q && InState(h.futures, Pending) != {}
    requires forall id :: StateOf(h.futures, id) == Pending <==> StateOf(g.futures, id) == Pending
    ensures exists i :: Handed(g, ReleaseOne(h), i)
  {
    GrantNextOk(h.q, h.futures);
    var r := GrantNext(h.q, h.futures);
    var i: nat :| Granting(h.q, h.futures, i, r.futures);
    assert Winner(g.q, g.futures, i);
    assert Handed(g, ReleaseOne(h), i);
  }

  /** Whoever gives a slot back while someone waits, the weighted-fair first among the live waiters
      gets it and the number of busy slots does not change; if nobody waits a slot becomes free and
      the cancelled waiters are gone from the queue. */
  lemma HandsOver(cfg: Config, evs: seq<Event>, ev: Event)
    requires Feasible(Init(cfg), evs) && GivesBack(GateRun(Init(cfg), evs), ev)
    ensures var g := GateRun(Init(cfg), evs); var g' := GateStep(g, ev);
      if InState(g.futures, Pending) == {} then g'.active == g.active - 1 && g'.q.heap == []
      else g'.active == g.active && exists i :: Handed(g, g', i)
  {
    InitInv(cfg);
    GateRunInv(Init(cfg), evs);
    var g := GateRun(Init(cfg), evs);
    HandingOk(g, ev);
    var h := Handing(g, ev);
    ReleaseOneInv(h);
    if InState(g.futures, Pending) != {} {
      WinnerGranted(g, h);
    } else {
      GrantNextOk(h.q, h.futures);
    }
  }

  // ------------------------------------------------------------------ fairness carries over

  /** The pops that granting performs. */
  function GrantOps(q: Queue<FutureId>, futures: seq<Future>): seq<Op<FutureId>>
    decreases |q.heap|
  {
    if q.heap == [] then []
    else if StateOf(futures, Front(q).item) == Cancelled then [Deq] + GrantOps(Dequeue(q), futures)
    else [Deq]
  }

  /** The queue operations that a gate event performs. */
  function QueueOps(g: Gate, ev: Event): seq<Op<FutureId>>
    requires Enabled(g, ev)
  {
    match ev
    case Acquire(cls) =>
      if g.active < g.cfg.Slots() then [] else [Enq(|g.futures|, cls, g.cfg.WeightFor(cls), g.cfg.cost)]
    case Cancel(id) =>
      if g.futures[id] == Pending then [] else GrantOps(g.q, g.futures[id := Abandoned])
    case Resume(id) => []
    case Release => GrantOps(g.q, g.futures)
  }

  function Trace(g: Gate, evs: seq<Event>): seq<Op<FutureId>>
    requires Feasible(g, evs)
  {
    if evs == [] then [] else
      var before := evs[..|evs| - 1];
      Trace(g, before) + QueueOps(GateRun(g, before), evs[|evs| - 1])
  }

  lemma RunConcat(q: Queue<FutureId>, a: seq<Op<FutureId>>, b: seq<Op<FutureId>>)
    ensures Run(q, a + b) == Run(Run(q, a), b)
  {
    RunSplit(q, a + b, |a|);
    assert (a + b)[..|a|] == a && (a + b)[|a|..] == b;
  }

  lemma {:induction false} GrantOpsRun(q: Queue<FutureId>, futures: seq<Future>)
    ensures Run(q, GrantOps(q, futures)) == GrantNext(q, futures).q
    ensures forall i :: 0 <= i < |GrantOps(q, futures)| ==> GrantOps(q, futures)[i] == Deq
    decreases |q.heap|
  {
    if q.heap != [] {
      var one: seq<Op<FutureId>> := [Deq];
      assert one[..0] == [];
      assert Run(q, one) == Dequeue(q);
      if StateOf(futures, Front(q).item) == Cancelled {
        GrantOpsRun(Dequeue(q), futures);
        RunConcat(q, one, GrantOps(Dequeue(q), futures));
      }
    }
  }

  lemma QueueOpsRun(g: Gate, ev: Event)
    requires Enabled(g, ev)
    ensures Run(g.q, QueueOps(g, ev)) == GateStep(g, ev).q
  {
    match ev
    case Acquire(cls) =>
      assert QueueOps(g, ev) != [] ==> QueueOps(g, ev)[..0] == [];
    case Cancel(id) =>
      GrantOpsRun(g.q, g.futures[id := Abandoned]);
    case Resume(id) =>
    case Release =>
      GrantOpsRun(g.q, g.futures);
  }

  /** A gate run drives its queue through a queue run. */
  lemma {:induction false} TraceRun(g: Gate, evs: seq<Event>)
    requires Feasible(g, evs)
    ensures Run(g.q, Trace(g, evs)) == GateRun(g, evs).q
  {
    if evs != [] {
      var before := evs[..|evs| - 1];
      TraceRun(g, before);
      QueueOpsRun(GateRun(g, before), evs[|evs| - 1]);
      RunConcat(g.q, Trace(g, before), QueueOps(GateRun(g, before), evs[|evs| - 1]));
    }
  }

  /** Arrivals carry the configured cost and class weight. */
  ghost predicate Uniform(cfg: Config, ops: seq<Op<FutureId>>) {
    forall i :: 0 <= i < |ops| && ops[i].Enq? ==> ops[i].cost == cfg.cost && ops[i].weight == cfg.WeightFor(ops[i].cls)
  }

  lemma {:induction false} TraceUniform(g: Gate, evs: seq<Event>)
    requires Feasible(g, evs)
    ensures Uniform(g.cfg, Trace(g, evs)) && GateRun(g, evs).cfg == g.cfg
  {
    if evs != [] {
      var before := evs[..|evs| - 1];
      TraceUniform(g, before);
      var h, ev := GateRun(g, before), evs[|evs| - 1];
      GrantOpsRun(h.q, h.futures);
      if ev.Cancel? { GrantOpsRun(h.q, h.futures[ev.id := Abandoned]); }
    }
  }

  /** An entry still waiting after a queue run was waiting all along. */
  lemma {:induction false} WaitedAllAlong(q: Queue<FutureId>, ops: seq<Op<FutureId>>, x: Entry<FutureId>)
    requires x in Run(q, ops).heap && x.ticket < q.ticket
    ensures x in q.heap && Waits(q, ops, x)
  {
    if ops != [] {
      var before := ops[..|ops| - 1];
      TicketGrows(q, before);
      assert x in Run(q, before).heap;
      WaitedAllAlong(q, before, x);
    }
  }

  lemma {:induction false} TicketGrows(q: Queue<FutureId>, ops: seq<Op<FutureId>>)
    ensures Run(q, ops).ticket >= q.ticket
  {
    if ops != [] { TicketGrows(q, ops[..|ops| - 1]); }
  }

  ghost predicate HeapUniform(cfg: Config, heap: seq<Entry<FutureId>>) {
    forall i :: 0 <= i < |heap| ==>
      heap[i].cost == cfg.cost && heap[i].weight == EffectiveWeight(cfg.WeightFor(heap[i].cls))
  }

  lemma StepUniform(cfg: Config, q: Queue<FutureId>, op: Op<FutureId>)
    requires HeapUniform(cfg, q.heap)
    requires op.Enq? ==> op.cost == cfg.cost && op.weight == cfg.WeightFor(op.cls)
    ensures HeapUniform(cfg, Step(q, op).heap)
  {
    if op.Deq? && q.heap != [] {
      forall k | 0 <= k < |q.heap| - 1 ensures Step(q, op).heap[k] in q.heap {
        RemovedAt(q.heap, LeastIndex(q.heap), k);
      }
    }
  }

  lemma {:induction false} RunUniform(cfg: Config, ops: seq<Op<FutureId>>)
    requires Uniform(cfg, ops)
    ensures HeapUniform(cfg, Run(Empty(), ops).heap)
  {
    if ops != [] {
      RunUniform(cfg, ops[..|ops| - 1]);
      StepUniform(cfg, Run(Empty(), ops[..|ops| - 1]), ops[|ops| - 1]);
    }
  }

  /** No starvation at the gate: from any reachable state, while a parked entry waits, a class of the
      given configuration is served at most 1 + (tag - virtual time) / (cost / weight) times. */
  lemma GateBypass(cfg: Config, history: seq<Event>, evs: seq<Event>, x: Entry<FutureId>, c: string)
    requires cfg.cost > 0.0 && Feasible(Init(cfg), history)
    requires var g := GateRun(Init(cfg), history);
      Feasible(g, evs) && x in g.q.heap && x in GateRun(g, evs).q.heap
    ensures var g := GateRun(Init(cfg), history); var r := ClassShare(cfg, c);
      r > 0.0 && Count(g.q, Trace(g, evs), c) <= ((x.finish - g.q.vt) / r).Floor + 1
  {
    var g := GateRun(Init(cfg), history);
    var r := ClassShare(cfg, c);
    ReachableQueue(cfg, history);
    TraceUniform(g, evs);
    TraceRun(g, evs);
    GateShares(cfg, g.q, Trace(g, evs), c);
    WaitedAllAlong(g.q, Trace(g, evs), x);
    BoundedBypass(g.q, Trace(g, evs), x, c, r);
  }

  lemma ReachableQueue(cfg: Config, history: seq<Event>)
    requires cfg.cost > 0.0 && Feasible(Init(cfg), history)
    ensures var g := GateRun(Init(cfg), history);
      g.cfg == cfg && Good(g.q) && HeapUniform(cfg, g.q.heap)
  {
    TraceUniform(Init(cfg), history);
    TraceRun(Init(cfg), history);
    EmptyGood<FutureId>();
    RunGood(Empty(), Trace(Init(cfg), history));
    RunUniform(cfg, Trace(Init(cfg), history));
  }

  lemma GateShares(cfg: Config, q: Queue<FutureId>, ops: seq<Op<FutureId>>, c: string)
    requires cfg.cost > 0.0 && HeapUniform(cfg, q.heap) && Uniform(cfg, ops)
    ensures var r := ClassShare(cfg, c);
      r > 0.0 && SharesAtLeast(q, ops, c, r) && NonNegative(ops)
  {
  }

  // ------------------------------------------------------------------ fairness at the gate

  /** Waiters of class `c` that handing on one slot grants: none or one. */
  function Granted1(q: Queue<FutureId>, futures: seq<Future>, c: string): nat
    decreases |q.heap|
  {
    if q.heap == [] then 0
    else if StateOf(futures, Front(q).item) == Cancelled then Granted1(Dequeue(q), futures, c)
    else if Front(q).cls == c then 1 else 0
  }

  /** Cancelled waiters of class `c` that handing on one slot reaps on the way. */
  function Reaped1(q: Queue<FutureId>, futures: seq<Future>, c: string): nat
    decreases |q.heap|
  {
    if q.heap == [] || StateOf(futures, Front(q).item) != Cancelled then 0
    else (if Front(q).cls == c then 1 else 0) + Reaped1(Dequeue(q), futures, c)
  }

  /** The futures as the gate sees them when it hands on the slot that `ev` gives back. */
  function HandingFutures(g: Gate, ev: Event): seq<Future>
    requires GivesBack(g, ev)
  {
    if ev.Cancel? then g.futures[ev.id := Abandoned] else g.futures
  }

  /** Waiters of class `c` granted during the run. */
  function Grants(g: Gate, evs: seq<Event>, c: string): nat
    requires Feasible(g, evs)
  {
    if evs == [] then 0 else
      var before, ev := evs[..|evs| - 1], evs[|evs| - 1];
      var h := GateRun(g, before);
      Grants(g, before, c) + if GivesBack(h, ev) then Granted1(h.q, HandingFutures(h, ev), c) else 0
  }

  /** Cancelled waiters of class `c` reaped during the run. */
  function Reaps(g: Gate, evs: seq<Event>, c: string): nat
    requires Feasible(g, evs)
  {
    if evs == [] then 0 else
      var before, ev := evs[..|evs| - 1], evs[|evs| - 1];
      var h := GateRun(g, before);
      Reaps(g, before, c) + if GivesBack(h, ev) then Reaped1(h.q, HandingFutures(h, ev), c) else 0
  }

  lemma {:induction false} CountConcat(q: Queue<FutureId>, a: seq<Op<FutureId>>, b: seq<Op<FutureId>>, c: string)
    ensures Count(q, a + b, c) == Count(q, a, c) + Count(Run(q, a), b, c)
  {
    if b == [] {
      assert a + b == a;
    } else {
      var init := b[..|b| - 1];
      assert (a + b)[..|a + b| - 1] == a + init;
      CountConcat(q, a, init, c);
      RunConcat(q, a, init);
    }
  }

  lemma CountOne(q: Queue<FutureId>, op: Op<FutureId>, c: string)
    ensures Count(q, [op], c) == if Serves(q, op, c) then 1 else 0
    ensures Run(q, [op]) == Step(q, op)
  {
    assert [op][..0] == [];
  }

  lemma {:induction false} GrantOpsCount(q: Queue<FutureId>, futures: seq<Future>, c: string)
    ensures Count(q, GrantOps(q, futures), c) == Granted1(q, futures, c) + Reaped1(q, futures, c)
    decreases |q.heap|
  {
    if q.heap != [] {
      CountOne(q, Deq, c);
      if StateOf(futures, Front(q).item) == Cancelled {
        GrantOpsCount(Dequeue(q), futures, c);
        CountConcat(q, [Deq], GrantOps(Dequeue(q), futures), c);
      }
    }
  }

  lemma EventCount(g: Gate, ev: Event, c: string)
    requires Enabled(g, ev)
    ensures Count(g.q, QueueOps(g, ev), c) ==
      if GivesBack(g, ev) then Granted1(g.q, HandingFutures(g, ev), c) + Reaped1(g.q, HandingFutures(g, ev), c) else 0
  {
    if GivesBack(g, ev) {
      GrantOpsCount(g.q, HandingFutures(g, ev), c);
    } else if ev.Acquire? {
      CountOne(g.q, Enq(|g.futures|, ev.cls, g.cfg.WeightFor(ev.cls), g.cfg.cost), c);
    }
  }

  /** What the queue serves is what the gate grants or reaps. */
  lemma {:induction false} ServedIsGrantedOrReaped(g: Gate, evs: seq<Event>, c: string)
    requires Feasible(g, evs)
    ensures Count(g.q, Trace(g, evs), c) == Grants(g, evs, c) + Reaps(g, evs, c)
  {
    hide Count, Run, QueueOps, Granted1, Reaped1;
    if evs == [] {
      CountNone(g.q, c);
    } else {
      var before, ev := evs[..|evs| - 1], evs[|evs| - 1];
      ServedIsGrantedOrReaped(g, before, c);
      EventCount(GateRun(g, before), ev, c);
      CountConcat(g.q, Trace(g, before), QueueOps(GateRun(g, before), ev), c);
      TraceRun(g, before);
    }
  }

  lemma CountNone(q: Queue<FutureId>, c: string)
    ensures Count(q, [], c) == 0
  {
  }

  /** Class `c` has a waiter, live or not yet reaped, in the queue after every event of the run. */
  ghost predicate GateBacklogged(g: Gate, evs: seq<Event>, c: string)
    requires Feasible(g, evs)
  {
    OfClass(GateRun(g, evs).q.heap, c) != [] && (evs == [] || GateBacklogged(g, evs[..|evs| - 1], c))
  }

  lemma {:induction false} BackloggedConcat(q: Queue<FutureId>, a: seq<Op<FutureId>>, b: seq<Op<FutureId>>, c: string)
    requires Backlogged(q, a, c) && Backlogged(Run(q, a), b, c)
    ensures Backlogged(q, a + b, c)
  {
    RunConcat(q, a, b);
    if b == [] {
      assert a + b == a;
    } else {
      assert (a + b)[..|a + b| - 1] == a + b[..|b| - 1];
      BackloggedConcat(q, a, b[..|b| - 1], c);
    }
  }

  /** Pops only remove, so a class that is still waiting after them was waiting all along. */
  lemma {:induction false} PopsBacklogged(q: Queue<FutureId>, ops: seq<Op<FutureId>>, c: string)
    requires (forall i :: 0 <= i < |ops| ==> ops[i] == Deq) && OfClass(Run(q, ops).heap, c) != []
    ensures Backlogged(q, ops, c)
  {
    if ops != [] {
      var last := Run(q, ops[..|ops| - 1]);
      if last.heap != [] { OfClassRemove(last.heap, LeastIndex(last.heap), c); }
      PopsBacklogged(q, ops[..|ops| - 1], c);
    }
  }

  lemma EventBacklogged(g: Gate, ev: Event, c: string)
    requires Enabled(g, ev) && OfClass(g.q.heap, c) != [] && OfClass(GateStep(g, ev).q.heap, c) != []
    ensures Backlogged(g.q, QueueOps(g, ev), c)
  {
    hide OfClass;
    QueueOpsRun(g, ev);
    if GivesBack(g, ev) {
      GrantOpsRun(g.q, HandingFutures(g, ev));
      PopsBacklogged(g.q, QueueOps(g, ev), c);
    } else if QueueOps(g, ev) != [] {
      assert QueueOps(g, ev)[..0] == [];
    }
  }

  lemma {:induction false} TraceBacklogged(g: Gate, evs: seq<Event>, c: string)
    requires Feasible(g, evs) && GateBacklogged(g, evs, c)
    ensures Backlogged(g.q, Trace(g, evs), c)
  {
    hide OfClass, QueueOps;
    if evs != [] {
      var before, ev := evs[..|evs| - 1], evs[|evs| - 1];
      TraceBacklogged(g, before, c);
      TraceRun(g, before);
      EventBacklogged(GateRun(g, before), ev, c);
      BackloggedConcat(g.q, Trace(g, before), QueueOps(GateRun(g, before), ev), c);
    }
  }

  /** The share of every waiter of class `c`. */
  function ClassShare(cfg: Config, c: string): real {
    cfg.cost / EffectiveWeight(cfg.WeightFor(c))
  }

  lemma GateSharesExact(cfg: Config, q: Queue<FutureId>, ops: seq<Op<FutureId>>, c: string)
    requires HeapUniform(cfg, q.heap) && Uniform(cfg, ops) && cfg.cost >= 0.0
    ensures SharesAtLeast(q, ops, c, ClassShare(cfg, c)) && SharesAtMost(q, ops, c, ClassShare(cfg, c))
    ensures NonNegative(ops)
  {
  }

  /** A reachable gate state seen from its queue. */
  lemma GatePast(cfg: Config, history: seq<Event>) returns (past: seq<Op<FutureId>>)
    requires cfg.cost >= 0.0 && Feasible(Init(cfg), history)
    ensures var g := GateRun(Init(cfg), history);
      g.cfg == cfg && Run(Empty(), past) == g.q && HeapUniform(cfg, g.q.heap) && NonNegative(past)
  {
    hide HeapUniform, Trace;
    past := Trace(Init(cfg), history);
    TraceUniform(Init(cfg), history);
    TraceRun(Init(cfg), history);
    RunUniform(cfg, past);
  }

  /** What the queue theorem needs of a gate run. */
  lemma GateStretch(cfg: Config, g: Gate, evs: seq<Event>, c: string)
    requires g.cfg == cfg && HeapUniform(cfg, g.q.heap) && cfg.cost >= 0.0
    requires Feasible(g, evs) && GateBacklogged(g, evs, c)
    ensures var ops := Trace(g, evs); var r := ClassShare(cfg, c);
      && NonNegative(ops) && Backlogged(g.q, ops, c) && SharesAtLeast(g.q, ops, c, r) && SharesAtMost(g.q, ops, c, r)
      && Count(g.q, ops, c) == Grants(g, evs, c) + Reaps(g, evs, c)
  {
    hide GateBacklogged, Backlogged, Trace, SharesAtLeast, SharesAtMost, Grants, Reaps, HeapUniform, ClassShare, Count;
    TraceUniform(g, evs);
    GateSharesExact(cfg, g.q, Trace(g, evs), c);
    TraceBacklogged(g, evs, c);
    ServedIsGrantedOrReaped(g, evs, c);
  }

  /** Weighted fairness at the gate: from any reachable state, over any run during which two classes keep
      waiters in the queue, the waiters granted or reaped, times cost over weight, differ by at most one
      share of each class.  Without cancellations these are the grants alone. */
  lemma GateFairness(cfg: Config, history: seq<Event>, evs: seq<Event>, a: string, b: string)
    requires cfg.cost >= 0.0 && Feasible(Init(cfg), history)
    requires var g := GateRun(Init(cfg), history);
      Feasible(g, evs) && GateBacklogged(g, evs, a) && GateBacklogged(g, evs, b)
    ensures var g := GateRun(Init(cfg), history); var ra, rb := ClassShare(cfg, a), ClassShare(cfg, b);
      var na, nb := Grants(g, evs, a) + Reaps(g, evs, a), Grants(g, evs, b) + Reaps(g, evs, b);
      -(ra + rb) <= Times(na, ra) - Times(nb, rb) <= ra + rb
  {
    hide *;
    var g := GateRun(Init(cfg), history);
    var past := GatePast(cfg, history);
    GateStretch(cfg, g, evs, a);
    GateStretch(cfg, g, evs, b);
    FairnessInCounts(past, Trace(g, evs), a, b, ClassShare(cfg, a), ClassShare(cfg, b));
  }

  lemma ListedShare(cfg: Config, c: string, w: real)
    requires w > 0.0 && w == if c in cfg.weights then cfg.weights[c] else cfg.defaultWeight
    ensures ClassShare(cfg, c) == cfg.cost / w
  {
  }

  /** The same in terms of the configuration: a class has its listed weight, or else the default one. */
  lemma GateWeightedFairness(cfg: Config, history: seq<Event>, evs: seq<Event>, a: string, b: string,
                             wa: real, wb: real)
    requires cfg.cost >= 0.0 && Feasible(Init(cfg), history) && wa > 0.0 && wb > 0.0
    requires wa == if a in cfg.weights then cfg.weights[a] else cfg.defaultWeight
    requires wb == if b in cfg.weights then cfg.weights[b] else cfg.defaultWeight
    requires var g := GateRun(Init(cfg), history);
      Feasible(g, evs) && GateBacklogged(g, evs, a) && GateBacklogged(g, evs, b)
    ensures var g := GateRun(Init(cfg), history);
      var na, nb := Grants(g, evs, a) + Reaps(g, evs, a), Grants(g, evs, b) + Reaps(g, evs, b);
      -(cfg.cost / wa + cfg.cost / wb) <= na as real * (cfg.cost / wa) - nb as real * (cfg.cost / wb)
        <= cfg.cost / wa + cfg.cost / wb
  {
    hide GateBacklogged, GateRun, Feasible, Grants, Reaps, ClassShare;
    GateFairness(cfg, history, evs, a, b);
    ListedShare(cfg, a, wa);
    ListedShare(cfg, b, wb);
  }

  /** ... and no starvation: while an entry waits, a class of weight `w` is granted or reaped at most
      1 + (tag - virtual time) / (cost / w) times. */
  lemma GateWeightedBypass(cfg: Config, history: seq<Event>, evs: seq<Event>, x: Entry<FutureId>, c: string, w: real)
    requires cfg.cost > 0.0 && Feasible(Init(cfg), history) && w > 0.0
    requires w == if c in cfg.weights then cfg.weights[c] else cfg.defaultWeight
    requires var g := GateRun(Init(cfg), history);
      Feasible(g, evs) && x in g.q.heap && x in GateRun(g, evs).q.heap
    ensures var g := GateRun(Init(cfg), history);
      cfg.cost / w > 0.0
      && Grants(g, evs, c) + Reaps(g, evs, c) <= ((x.finish - g.q.vt) / (cfg.cost / w)).Floor + 1
  {
    hide GateRun, Feasible, Grants, Reaps, ClassShare;
    GateBypass(cfg, history, evs, x, c);
    ListedShare(cfg, c, w);
    ServedIsGrantedOrReaped(GateRun(Init(cfg), history), evs, c);
  }

  /** The tag of a parked request is one such share after the later of virtual time and the last finish of its
      class. */
  lemma ParkedTag(g: Gate, cls: string, w: real)
    requires g.active >= if g.cfg.maxConcurrency < 1 then 1 else g.cfg.maxConcurrency
    requires w > 0.0 && w == if cls in g.cfg.weights then g.cfg.weights[cls] else g.cfg.defaultWeight
    ensures var g' := GateStep(g, Acquire(cls)); var n := |g.q.heap|;
      var last := if cls in g.q.lastFinish then g.q.lastFinish[cls] else 0.0;
      var start := if g.q.vt < last then last else g.q.vt;
      && |g'.q.heap| == n + 1 && g'.q.heap[..n] == g.q.heap
      && g'.q.heap[n].item == |g.futures| && g'.q.heap[n].cls == cls
      && (g'.q.heap[n].finish - start) * w == g.cfg.cost
  {
    TagStep(g.q, |g.futures|, cls, w, g.cfg.cost);
  }
}
